/**
 * One scan session as both orchestrators run it: list the scanned
 * locations, split the chosen ones against them, purge the dropped
 * locations, scan the new ones with the progress offset at 0, move the
 * offset to 50, rescan the kept ones and, on the scan page only, report 100
 * at the end. The first exception ends the session and is logged once.
 */
module ScanSessions {
  import opened Wrappers
  import opened Seqs
  import opened Integers
  import Service = FileHashService
  import opened ScannedFileStores
  import opened ScanningProgresses
  import Partition = LocationPartitions
  import Props = ScannedFileStoreProperties

  /** What a session leaves: the index, the values shown on the bar in order, and whether an exception was logged. */
  datatype Session = Session(index: Service.Index, shown: seq<int>, failed: bool)

  /**
   * The session over index `ix`: the store calls in order, each later call
   * made only when the earlier ones succeeded. Every raw report of the store
   * passes through `Report` with the offset of its phase. With `finish` a
   * last `Report(100)` follows a session that succeeded.
   */
  function Begin(ix: Service.Index, fs: FileSystem, targets: seq<string>, divisor: int, finish: bool): Session
    requires divisor != 0
  {
    var scanned := Service.LocationPaths(ix.locations);
    var purged := Service.Purge(ix, Some(Partition.PurgeLocations(targets, scanned)));
    if purged.1.Fail? then Session(purged.0, [], true)
    else ScanPhases(purged.0, fs, Partition.NewLocations(targets, scanned), Partition.RescanLocations(targets, scanned), divisor, finish)
  }

  /** The session after a purge that succeeded: scan the new locations with offset 0, then the rescan. */
  function ScanPhases(ix: Service.Index, fs: FileSystem, newLocations: seq<string>, rescanLocations: seq<string>,
                      divisor: int, finish: bool): Session
    requires divisor != 0
  {
    var scan := ScanSpec(ix, fs, newLocations, true);
    var first := Scaled(scan.reports, 0, divisor);
    if scan.status.Fail? then Session(scan.index, first, true)
    else RescanPhase(scan.index, fs, rescanLocations, first, divisor, finish)
  }

  /** The session after a scan that succeeded and showed `first`: rescan with offset 50, then the final report. */
  function RescanPhase(ix: Service.Index, fs: FileSystem, rescanLocations: seq<string>, first: seq<int>,
                       divisor: int, finish: bool): Session
    requires divisor != 0
  {
    var rescan := RescanSpec(ix, fs, rescanLocations, true);
    var shown := first + Scaled(rescan.reports, 50, divisor);
    if rescan.status.Fail? then Session(rescan.index, shown, true)
    else Session(rescan.index, shown + (if finish then [ReportValue(100, 50, divisor)] else []), false)
  }

  /**
   * The body shared by both `BeginScanAsync` methods: the store calls
   * and progress reports of `Begin`, returning the values the progress
   * action received and whether the exception handler ran.
   */
  method RunSession(store: ScannedFileStore, targets: seq<string>, divisor: int, finish: bool)
    returns (shown: seq<int>, failed: bool)
    requires divisor > 0
    modifies store.service
    ensures var s := Begin(old(store.service.State()), store.fileSystem, targets, divisor, finish);
      store.service.State() == s.index && shown == s.shown && failed == s.failed
  {
    var scannedLocations := store.ListScannedLocations();
    var newLocations := Partition.NewLocations(targets, scannedLocations);
    var rescanLocations := Partition.RescanLocations(targets, scannedLocations);
    var purgeLocations := Partition.PurgeLocations(targets, scannedLocations);
    var status := store.PurgeLocations(Some(purgeLocations));
    if status.Fail? {
      return [], true;
    }
    shown, failed := RunScans(store, newLocations, rescanLocations, divisor, finish);
  }

  /** `ScanLocationsAsync` with a fresh progress at offset 0, then, if it succeeded, the rescan. */
  method RunScans(store: ScannedFileStore, newLocations: seq<string>, rescanLocations: seq<string>, divisor: int, finish: bool)
    returns (shown: seq<int>, failed: bool)
    requires divisor > 0
    modifies store.service
    ensures var s := ScanPhases(old(store.service.State()), store.fileSystem, newLocations, rescanLocations, divisor, finish);
      store.service.State() == s.index && shown == s.shown && failed == s.failed
  {
    ghost var scan := ScanSpec(store.service.State(), store.fileSystem, newLocations, true);
    var progress := new ScanningProgress(0, divisor);
    var status, reports := store.ScanLocations(newLocations, true);
    assert status == scan.status && reports == scan.reports && store.service.State() == scan.index;
    var reported := progress.ReportAll(reports);
    assert progress.reported == Scaled(scan.reports, 0, divisor);
    if status.Fail? {
      return progress.reported, true;
    }
    progress.addend := 50;
    shown, failed := RunRescan(store, progress, rescanLocations, finish);
  }

  /** `RescanLocationsAsync` through `progress`, now at offset 50, then the final report. */
  method RunRescan(store: ScannedFileStore, progress: ScanningProgress, rescanLocations: seq<string>, finish: bool)
    returns (shown: seq<int>, failed: bool)
    requires progress.divisor > 0 && progress.addend == 50
    modifies store.service, progress
    ensures progress.divisor == old(progress.divisor)
    ensures var s := RescanPhase(old(store.service.State()), store.fileSystem, rescanLocations, old(progress.reported), old(progress.divisor), finish);
      store.service.State() == s.index && shown == s.shown && failed == s.failed
  {
    var status, reports := store.RescanLocations(rescanLocations, true);
    var reported := progress.ReportAll(reports);
    if status.Fail? {
      return progress.reported, true;
    }
    if finish {
      reported := progress.Report(100);
    }
    return progress.reported, false;
  }

  /** The values never go down. */
  predicate Monotone(s: seq<int>) {
    forall i, j :: 0 <= i <= j < |s| ==> s[i] <= s[j]
  }

  /** Non-decreasing percentages. */
  predicate Percentages(s: seq<int>) {
    Monotone(s) && forall i :: 0 <= i < |s| ==> 0 <= s[i] <= 100
  }

  // ---------------------------------------------------------------- the bar

  lemma ReportsArePercentages(total: nat, count: nat)
    requires count <= total
    ensures Percentages(Reports(true, total, count))
  {
    Props.ProgressValues(total, count);
    Props.ProgressMonotone(total, count);
  }

  /** A scan reports non-decreasing percentages, or nothing. */
  lemma ScanReportsArePercentages(ix: Service.Index, fs: FileSystem, roots: seq<string>)
    ensures Percentages(ScanSpec(ix, fs, roots, true).reports)
  {
    if Service.Purge(ix, Some(roots)).1.Pass? {
      match Enumerate(fs, roots)
      case Failure(_) =>
      case Success(paths) => ReportsArePercentages(|paths|, ScanPaths(Service.Purge(ix, Some(roots)).0.files, fs, paths).done);
    }
  }

  /** A rescan reports non-decreasing percentages, or nothing. */
  lemma RescanReportsArePercentages(ix: Service.Index, fs: FileSystem, roots: seq<string>)
    ensures Percentages(RescanSpec(ix, fs, roots, true).reports)
  {
    match Service.ListFilePaths(ix.files, Some(roots))
    case Failure(_) =>
    case Success(stored) =>
      match Enumerate(fs, roots)
      case Failure(_) =>
      case Success(onDisk) =>
        var scan := ScanPaths(ix.files, fs, Additions(onDisk, stored));
        ReportsArePercentages(RescanTotal(onDisk, stored), if scan.status.Pass? then RescanTotal(onDisk, stored) else scan.done);
  }

  lemma ScaledMonotone(values: seq<int>, addend: int, divisor: int)
    requires divisor > 0 && Percentages(values)
    ensures Monotone(Scaled(values, addend, divisor))
  {
    forall i, j | 0 <= i <= j < |values|
      ensures ReportValue(values[i], addend, divisor) <= ReportValue(values[j], addend, divisor)
    {
      ReportValueMonotone(values[i], values[j], addend, divisor);
    }
  }

  /** With a divisor of at least 2 the scan phase stays in the lower half of the bar. */
  lemma FirstHalfBound(value: int, divisor: int)
    requires 0 <= value <= 100 && divisor >= 2
    ensures 0 <= ReportValue(value, 0, divisor) <= 50
  {
    var q := value / divisor;
    TruncDivNonNegative(value, divisor);
    DivBounds(value, divisor);
    MulMonotone(2, divisor, q);
    assert q * 2 <= q * divisor <= value;
  }

  lemma MonotoneConcat(a: seq<int>, b: seq<int>)
    requires Monotone(a) && Monotone(b)
    requires forall i, j :: 0 <= i < |a| && 0 <= j < |b| ==> a[i] <= b[j]
    ensures Monotone(a + b)
  {
  }

  /** The scan phase: raw percentages shown without an offset stay in 0..50 and keep their order. */
  lemma ScanPhaseBounds(values: seq<int>, divisor: int)
    requires divisor >= 2 && Percentages(values)
    ensures var shown := Scaled(values, 0, divisor);
      Monotone(shown) && forall i :: 0 <= i < |shown| ==> 0 <= shown[i] <= 50
  {
    ScaledMonotone(values, 0, divisor);
    forall i | 0 <= i < |values|
      ensures 0 <= ReportValue(values[i], 0, divisor) <= 50
    {
      FirstHalfBound(values[i], divisor);
    }
  }

  /** The rescan phase: raw percentages shown with offset 50 stay between 50 and what 100 shows, in order. */
  lemma RescanPhaseBounds(values: seq<int>, divisor: int)
    requires divisor >= 2 && Percentages(values)
    ensures var shown := Scaled(values, 50, divisor);
      Monotone(shown) && forall i :: 0 <= i < |shown| ==> 50 <= shown[i] <= ReportValue(100, 50, divisor)
  {
    ScaledMonotone(values, 50, divisor);
    forall i | 0 <= i < |values|
      ensures 50 <= ReportValue(values[i], 50, divisor) <= ReportValue(100, 50, divisor)
    {
      ReportValueAtLeastAddend(values[i], 50, divisor);
      ReportValueMonotone(values[i], 100, 50, divisor);
    }
  }

  /** With divisor 3 the scan phase shows at most 33 and the rescan phase 50 to 83. */
  lemma ThirdsOfTheBar(values: seq<int>)
    requires Percentages(values)
    ensures forall i :: 0 <= i < |values| ==> 0 <= Scaled(values, 0, 3)[i] <= 33
    ensures forall i :: 0 <= i < |values| ==> 50 <= Scaled(values, 50, 3)[i] <= 83
  {
    forall i | 0 <= i < |values|
      ensures 0 <= ReportValue(values[i], 0, 3) <= 33 && 50 <= ReportValue(values[i], 50, 3) <= 83
    {
      TruncDivNonNegative(values[i], 3);
      DivMonotone(values[i], 100, 3);
    }
  }

  /** Every value lies in `lo..hi`. */
  predicate Within(s: seq<int>, lo: int, hi: int) {
    forall i :: 0 <= i < |s| ==> lo <= s[i] <= hi
  }

  lemma WithinConcat(a: seq<int>, b: seq<int>, lo: int, hi: int)
    requires Within(a, lo, hi) && Within(b, lo, hi)
    ensures Within(a + b, lo, hi)
  {
    forall i | 0 <= i < |a + b|
      ensures lo <= (a + b)[i] <= hi
    {
      if i >= |a| {
        assert (a + b)[i] == b[i - |a|];
      }
    }
  }

  /** Values in `0..50` followed by values in `50..100`, each run in order, are percentages in order. */
  lemma HalvesConcat(a: seq<int>, b: seq<int>)
    requires Monotone(a) && Within(a, 0, 50)
    requires Monotone(b) && Within(b, 50, 100)
    ensures Percentages(a + b)
  {
    MonotoneConcat(a, b);
    WithinConcat(a, b, 0, 100);
  }

  /** A first half in `0..50`, a second in `50..100` and optionally a last value at the top of the second: in order. */
  lemma TwoHalves(first: seq<int>, later: seq<int>, top: int, finish: bool)
    requires Monotone(first) && Within(first, 0, 50)
    requires Monotone(later) && Within(later, 50, top) && 50 <= top <= 100
    ensures Percentages(first + later + (if finish then [top] else []))
  {
    var tail := later + (if finish then [top] else []);
    MonotoneConcat(later, if finish then [top] else []);
    WithinConcat(later, if finish then [top] else [], 50, 100);
    HalvesConcat(first, tail);
    assert first + later + (if finish then [top] else []) == first + tail;
  }

  /** The rescan phase after a first half in `0..50` keeps the whole bar in order within 0..100. */
  lemma RescanPhaseBar(ix: Service.Index, fs: FileSystem, rescanLocations: seq<string>, first: seq<int>,
                       divisor: int, finish: bool)
    requires divisor >= 2 && Monotone(first) && Within(first, 0, 50)
    ensures Percentages(RescanPhase(ix, fs, rescanLocations, first, divisor, finish).shown)
  {
    var rescan := RescanSpec(ix, fs, rescanLocations, true);
    RescanReportsArePercentages(ix, fs, rescanLocations);
    RescanPhaseBounds(rescan.reports, divisor);
    ReportValueAtLeastAddend(100, 50, divisor);
    var later := Scaled(rescan.reports, 50, divisor);
    TwoHalves(first, later, ReportValue(100, 50, divisor), rescan.status.Pass? && finish);
    assert first + later + [] == first + later;
  }

  /** The scan phase and what follows keep the bar in order within 0..100. */
  lemma ScanPhasesBar(ix: Service.Index, fs: FileSystem, newLocations: seq<string>, rescanLocations: seq<string>,
                      divisor: int, finish: bool)
    requires divisor >= 2
    ensures Percentages(ScanPhases(ix, fs, newLocations, rescanLocations, divisor, finish).shown)
  {
    var scan := ScanSpec(ix, fs, newLocations, true);
    ScanReportsArePercentages(ix, fs, newLocations);
    ScanPhaseBounds(scan.reports, divisor);
    var first := Scaled(scan.reports, 0, divisor);
    assert Within(first, 0, 50);
    if scan.status.Pass? {
      RescanPhaseBar(scan.index, fs, rescanLocations, first, divisor, finish);
    }
  }

  /**
   * The bar never moves backwards and stays within 0..100, through every
   * phase and whichever call fails: the scan phase keeps to 0..50 and the
   * rescan phase to 50..100.
   */
  lemma SessionBarMonotone(ix: Service.Index, fs: FileSystem, targets: seq<string>, divisor: int, finish: bool)
    requires divisor >= 2
    ensures Percentages(Begin(ix, fs, targets, divisor, finish).shown)
  {
    var scanned := Service.LocationPaths(ix.locations);
    var purged := Service.Purge(ix, Some(Partition.PurgeLocations(targets, scanned)));
    if purged.1.Pass? {
      ScanPhasesBar(purged.0, fs, Partition.NewLocations(targets, scanned), Partition.RescanLocations(targets, scanned), divisor, finish);
    }
  }

  /** The controller's rescan phase after a first third in `0..33` stays within 0..83. */
  lemma ControllerRescanBar(ix: Service.Index, fs: FileSystem, rescanLocations: seq<string>, first: seq<int>)
    requires Within(first, 0, 33)
    ensures Within(RescanPhase(ix, fs, rescanLocations, first, 3, false).shown, 0, 83)
  {
    var rescan := RescanSpec(ix, fs, rescanLocations, true);
    RescanReportsArePercentages(ix, fs, rescanLocations);
    ThirdsOfTheBar(rescan.reports);
    WithinConcat(first, Scaled(rescan.reports, 50, 3), 0, 83);
  }

  /** The controller's scan phase and what follows stay within 0..83. */
  lemma ControllerScanBar(ix: Service.Index, fs: FileSystem, newLocations: seq<string>, rescanLocations: seq<string>)
    ensures Within(ScanPhases(ix, fs, newLocations, rescanLocations, 3, false).shown, 0, 83)
  {
    var scan := ScanSpec(ix, fs, newLocations, true);
    ScanReportsArePercentages(ix, fs, newLocations);
    ThirdsOfTheBar(scan.reports);
    if scan.status.Pass? {
      ControllerRescanBar(scan.index, fs, rescanLocations, Scaled(scan.reports, 0, 3));
    }
  }

  /**
   * The controller's bar (divisor 3, no final report) never goes above 83:
   * the scan phase shows at most 33 and the rescan phase 50 to 83.
   */
  lemma ControllerBarBelowFull(ix: Service.Index, fs: FileSystem, targets: seq<string>)
    ensures var s := Begin(ix, fs, targets, 3, false).shown;
      forall i :: 0 <= i < |s| ==> 0 <= s[i] <= 83
  {
    var scanned := Service.LocationPaths(ix.locations);
    var purged := Service.Purge(ix, Some(Partition.PurgeLocations(targets, scanned)));
    if purged.1.Pass? {
      ControllerScanBar(purged.0, fs, Partition.NewLocations(targets, scanned), Partition.RescanLocations(targets, scanned));
    }
  }

  /** On the scan page (divisor 2, final report) a session that succeeds ends with the bar full. */
  lemma ScanPageEndsFull(ix: Service.Index, fs: FileSystem, targets: seq<string>)
    ensures var s := Begin(ix, fs, targets, 2, true);
      !s.failed ==> |s.shown| > 0 && Last(s.shown) == 100
  {
    HalvesOfTheBar(100);
  }

  // ---------------------------------------------------------------- the index

  /** A scan that succeeds records its roots beside the location paths it kept. */
  lemma ScanRecordsRoots(ix: Service.Index, fs: FileSystem, roots: seq<string>)
    requires ScanSpec(ix, fs, roots, true).status.Pass?
    ensures forall p :: p in Service.LocationPaths(ScanSpec(ix, fs, roots, true).index.locations) <==>
      p in Service.LocationPaths(ix.locations) || p in roots
  {
    var kept := Filter(ix.locations, Service.Unlisted(roots));
    Props.ForgetLocationPaths(ix.locations, roots);
    Props.InsertLocationsContents(kept, roots);
  }

  /** A rescan that succeeds records its roots beside every stored location path. */
  lemma RescanRecordsRoots(ix: Service.Index, fs: FileSystem, roots: seq<string>)
    requires RescanSpec(ix, fs, roots, true).status.Pass?
    ensures forall p :: p in Service.LocationPaths(RescanSpec(ix, fs, roots, true).index.locations) <==>
      p in Service.LocationPaths(ix.locations) || p in roots
  {
    Props.InsertLocationsContents(ix.locations, roots);
  }

  /** After a session that succeeds, the stored location paths are exactly the chosen locations. */
  lemma SessionRecordsChoice(ix: Service.Index, fs: FileSystem, targets: seq<string>, divisor: int, finish: bool)
    requires divisor != 0 && !Begin(ix, fs, targets, divisor, finish).failed
    ensures forall p :: p in Service.LocationPaths(Begin(ix, fs, targets, divisor, finish).index.locations) <==> p in targets
  {
    var scanned := Service.LocationPaths(ix.locations);
    var purgeLocations := Partition.PurgeLocations(targets, scanned);
    var newLocations := Partition.NewLocations(targets, scanned);
    var rescanLocations := Partition.RescanLocations(targets, scanned);
    Partition.PartitionMembers(targets, scanned);
    var purged := Service.Purge(ix, Some(purgeLocations));
    Props.ForgetLocationPaths(ix.locations, purgeLocations);
    var scan := ScanSpec(purged.0, fs, newLocations, true);
    ScanRecordsRoots(purged.0, fs, newLocations);
    RescanRecordsRoots(scan.index, fs, rescanLocations);
  }

  /**
   * Choosing exactly the scanned locations purges nothing and scans nothing:
   * the session is the rescan of every scanned location, in the upper half
   * of the bar.
   */
  lemma UnchangedChoiceOnlyRescans(ix: Service.Index, fs: FileSystem, divisor: int)
    requires divisor != 0
    ensures var scanned := Service.LocationPaths(ix.locations);
      var s, r := Begin(ix, fs, scanned, divisor, false), RescanSpec(ix, fs, scanned, true);
      s.index == r.index && s.shown == Scaled(r.reports, 50, divisor) && s.failed == r.status.Fail?
  {
    var scanned := Service.LocationPaths(ix.locations);
    Partition.SameChoiceOnlyRescans(scanned);
    FilterKeepsAll(ix.locations, Service.Unlisted([]));
    assert Service.Purge(ix, Some([])) == (ix, Pass);
    assert ScanSpec(ix, fs, [], true) == Run(ix, Pass, []);
  }
}
