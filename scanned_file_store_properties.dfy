/**
 * What a scan and a rescan leave in the index, and what they report: the
 * properties the store's own tests check, stated for every input.
 */
module ScannedFileStoreProperties {
  import opened Wrappers
  import opened Seqs
  import opened Integers
  import ScannedFiles
  import ScannedLocations
  import Service = FileHashService
  import opened ScannedFileStores

  type ScannedFile = ScannedFiles.ScannedFile
  type ScannedLocation = ScannedLocations.ScannedLocation

  // ---------------------------------------------------------------- progress

  /** Step `k` (counting from one) of a run of `total` reports `k * 100 / total`, which lies in 0..100. */
  lemma ProgressValues(total: nat, count: nat)
    requires count <= total
    ensures |Progress(total, count)| == count
    ensures forall k :: 0 <= k < count ==> Progress(total, count)[k] == (k + 1) * 100 / total
    ensures forall k :: 0 <= k < count ==> 0 <= Progress(total, count)[k] <= 100
  {
    ProgressShape(total, count);
    forall k | 0 <= k < count
      ensures 0 <= Progress(total, count)[k] <= 100
    {
      PercentBound(k + 1, total);
    }
  }

  lemma {:induction false} ProgressShape(total: nat, count: nat)
    requires count <= total
    ensures |Progress(total, count)| == count
    ensures forall k :: 0 <= k < count ==> Progress(total, count)[k] == (k + 1) * 100 / total
  {
    if count > 0 {
      ProgressShape(total, count - 1);
    }
  }

  /** A step of a run of `total` reports between 0 and 100 percent. */
  lemma PercentBound(k: nat, total: nat)
    requires k <= total && total > 0
    ensures 0 <= k * 100 / total <= 100
  {
    DivMonotone(k * 100, total * 100, total);
    MulDivCancel(100, total);
  }

  /** The reported percentages never go down. */
  lemma ProgressMonotone(total: nat, count: nat)
    requires count <= total
    ensures |Progress(total, count)| == count
    ensures forall i, j :: 0 <= i <= j < count ==> Progress(total, count)[i] <= Progress(total, count)[j]
  {
    ProgressValues(total, count);
    forall i, j | 0 <= i <= j < count
      ensures Progress(total, count)[i] <= Progress(total, count)[j]
    {
      DivMonotone((i + 1) * 100, (j + 1) * 100, total);
    }
  }

  /** A finished run of at least one step ends on 100. */
  lemma ProgressEndsAtHundred(total: nat)
    requires total > 0
    ensures |Progress(total, total)| == total && Last(Progress(total, total)) == 100
  {
    ProgressShape(total, total);
    MulDivCancel(100, total);
    assert Last(Progress(total, total)) == total * 100 / total;
  }

  /** The figures of the hundred-file test: the fiftieth report is 50 and the last is 100. */
  lemma HundredFileReports()
    ensures |Progress(100, 100)| == 100
    ensures Progress(100, 100)[49] == 50 && Progress(100, 100)[99] == 100
  {
    ProgressValues(100, 100);
  }

  /** One step: no reporter never fails; a reporter and a zero total raise `DivideByZeroException`. */
  lemma ReportStepCases(progress: bool, index: nat, total: nat)
    ensures !progress ==> ReportStep(progress, index, total) == (Pass, [])
    ensures progress && total == 0 ==> ReportStep(progress, index, total).0 == Fail(DivideByZeroException)
    ensures progress && 0 < total && index <= total ==>
      var (status, reports) := ReportStep(progress, index, total);
      status == Pass && reports == [index * 100 / total] && 0 <= reports[0] <= 100
  {
    if progress && 0 < total && index <= total {
      TruncDivNonNegative(index * 100, total);
      PercentBound(index, total);
    }
  }

  /** The single-step figures of the tests: step 1 of 10 is 10, step 1 of 1 is 100. */
  lemma ReportStepExamples()
    ensures ReportStep(true, 1, 10) == (Pass, [10])
    ensures ReportStep(true, 1, 1) == (Pass, [100])
    ensures ReportStep(false, 0, 0) == (Pass, [])
  {
    TruncDivNonNegative(100, 10);
    TruncDivNonNegative(100, 1);
  }

  // ---------------------------------------------------------------- scanning files

  /** `f` is the record that `ScanFile` makes from one of `paths`, one that exists and can be read. */
  predicate Scanned(fs: FileSystem, paths: seq<string>, f: ScannedFile) {
    exists i :: 0 <= i < |paths| && fs.fileExists(paths[i]) && MakeScannedFile(fs, paths[i]) == Success(f)
  }

  lemma ScannedLast(fs: FileSystem, paths: seq<string>, f: ScannedFile)
    requires |paths| > 0
    ensures Scanned(fs, paths, f) <==>
      Scanned(fs, DropLast(paths), f) || (fs.fileExists(Last(paths)) && MakeScannedFile(fs, Last(paths)) == Success(f))
  {
    var d := DropLast(paths);
    if Scanned(fs, d, f) {
      var i :| 0 <= i < |d| && fs.fileExists(d[i]) && MakeScannedFile(fs, d[i]) == Success(f);
      assert paths[i] == d[i];
    }
    if Scanned(fs, paths, f) && !(fs.fileExists(Last(paths)) && MakeScannedFile(fs, Last(paths)) == Success(f)) {
      var i :| 0 <= i < |paths| && fs.fileExists(paths[i]) && MakeScannedFile(fs, paths[i]) == Success(f);
      assert i < |d| && d[i] == paths[i];
    }
  }

  /**
   * The number of leading paths a scan gets through: the position of the
   * first file that exists but cannot be read, or all of them.
   */
  function ScannablePrefix(fs: FileSystem, paths: seq<string>): (n: nat)
    ensures n <= |paths|
    ensures forall i :: 0 <= i < n ==> Scannable(fs, paths[i])
    ensures n < |paths| ==> !Scannable(fs, paths[n])
  {
    if paths == [] || !Scannable(fs, paths[0]) then 0
    else
      var m := ScannablePrefix(fs, paths[1..]);
      assert forall i :: 1 <= i < m + 1 ==> paths[i] == paths[1..][i - 1];
      m + 1
  }

  /** Only one count has the two properties of `ScannablePrefix`. */
  lemma ScannablePrefixUnique(fs: FileSystem, paths: seq<string>, n: nat)
    requires n <= |paths| && (forall i :: 0 <= i < n ==> Scannable(fs, paths[i]))
    requires n < |paths| ==> !Scannable(fs, paths[n])
    ensures n == ScannablePrefix(fs, paths)
  {
  }

  /**
   * A scan gets through exactly the leading scannable paths; when it stops
   * short, it raises the error of the file it could not read.
   */
  lemma {:induction false} ScanPathsStopsAtUnreadable(files: seq<ScannedFile>, fs: FileSystem, paths: seq<string>)
    ensures var r := ScanPaths(files, fs, paths);
      r.done == ScannablePrefix(fs, paths) &&
      (r.done < |paths| ==> r.status == Fail(fs.readAll(paths[r.done]).error))
  {
    var r := ScanPaths(files, fs, paths);
    if paths == [] {
      ScannablePrefixUnique(fs, paths, 0);
    } else {
      var d := DropLast(paths);
      var before := ScanPaths(files, fs, d);
      ScanPathsStopsAtUnreadable(files, fs, d);
      assert forall i :: 0 <= i < |d| ==> paths[i] == d[i];
      ScannablePrefixUnique(fs, paths, r.done);
    }
  }

  /**
   * Scanning keeps every stored record, adds the records of the existing
   * paths it got through and never stores one twice.
   */
  lemma {:induction false} ScanPathsContents(files: seq<ScannedFile>, fs: FileSystem, paths: seq<string>)
    ensures var r := ScanPaths(files, fs, paths);
      forall f :: f in r.files <==> f in files || Scanned(fs, paths[..r.done], f)
    ensures NoDuplicates(files) ==> NoDuplicates(ScanPaths(files, fs, paths).files)
  {
    var r := ScanPaths(files, fs, paths);
    if paths == [] {
      assert paths[..r.done] == [];
    } else {
      var d, p := DropLast(paths), Last(paths);
      ScanPathsContents(files, fs, d);
      var before := ScanPaths(files, fs, d);
      assert paths[..before.done] == d[..before.done];
      if before.status.Pass? {
        assert d[..before.done] == d;
        if fs.fileExists(p) && MakeScannedFile(fs, p).Success? {
          var g := MakeScannedFile(fs, p).value;
          Service.InsertFileIdempotent(before.files, g);
          assert forall f :: f in Service.InsertFile(before.files, g) <==> f in before.files || f == g;
          if NoDuplicates(files) {
            Service.InsertFileKeepsNoDuplicates(before.files, g);
          }
        }
        if r.status.Pass? {
          assert paths[..r.done] == paths;
          forall f
            ensures Scanned(fs, paths, f) <==> Scanned(fs, d, f) || (fs.fileExists(p) && MakeScannedFile(fs, p) == Success(f))
          {
            ScannedLast(fs, paths, f);
          }
        }
      }
    }
  }

  /** Removing a list of paths keeps exactly the records whose path is none of them. */
  lemma {:induction false} RemovePathsContents(files: seq<ScannedFile>, paths: seq<string>)
    ensures forall f :: f in RemovePaths(files, paths) <==> f in files && f.path !in paths
  {
    if paths != [] {
      var d := DropLast(paths);
      RemovePathsContents(files, d);
      Service.RemoveByPathCount(RemovePaths(files, d), Last(paths));
      assert paths == d + [Last(paths)];
    }
  }

  // ---------------------------------------------------------------- recording roots

  /** The stored location paths after one insertion: the old ones and the new one. */
  lemma InsertLocationPaths(locations: seq<ScannedLocation>, l: ScannedLocation)
    ensures forall p :: p in Service.LocationPaths(Service.InsertLocation(locations, l)) <==>
      p in Service.LocationPaths(locations) || p == l.path
  {
    var before := Service.LocationPaths(locations);
    if Service.ContainsLocation(locations, l) {
      var i :| 0 <= i < |locations| && ScannedLocations.Equals(locations[i], l);
      assert before[i] == l.path;
    } else {
      var after := Service.LocationPaths(locations + [l]);
      assert after == before + [l.path] by {
        assert forall k :: 0 <= k < |before| ==> after[k] == before[k];
      }
    }
  }

  /**
   * Recording the roots stores every root as a location, keeps every stored
   * location path and introduces no path twice.
   */
  lemma {:induction false} InsertLocationsContents(locations: seq<ScannedLocation>, roots: seq<string>)
    ensures forall p :: p in Service.LocationPaths(InsertLocations(locations, roots)) <==>
      p in Service.LocationPaths(locations) || p in roots
    ensures Service.UniquePaths(locations) ==> Service.UniquePaths(InsertLocations(locations, roots))
  {
    if roots != [] {
      var d := DropLast(roots);
      var l := ScannedLocations.ScannedLocation(0, Last(roots));
      InsertLocationsContents(locations, d);
      InsertLocationPaths(InsertLocations(locations, d), l);
      assert roots == d + [Last(roots)];
      if Service.UniquePaths(locations) {
        Service.InsertLocationKeepsUniquePaths(InsertLocations(locations, d), l);
      }
    }
  }

  /** The location paths left by the part of a purge that forgets the listed roots. */
  lemma ForgetLocationPaths(locations: seq<ScannedLocation>, roots: seq<string>)
    ensures forall p :: p in Service.LocationPaths(Filter(locations, Service.Unlisted(roots))) <==>
      p in Service.LocationPaths(locations) && p !in roots
  {
    var kept := Filter(locations, Service.Unlisted(roots));
    forall p
      ensures p in Service.LocationPaths(kept) <==> p in Service.LocationPaths(locations) && p !in roots
    {
      if p in Service.LocationPaths(kept) {
        var i :| 0 <= i < |kept| && Service.LocationPaths(kept)[i] == p;
        assert kept[i] in kept;
        var j :| 0 <= j < |locations| && locations[j] == kept[i];
        assert Service.LocationPaths(locations)[j] == p;
      }
      if p in Service.LocationPaths(locations) && p !in roots {
        var j :| 0 <= j < |locations| && Service.LocationPaths(locations)[j] == p;
        assert locations[j] in locations;
        assert locations[j] in kept;
        var i :| 0 <= i < |kept| && kept[i] == locations[j];
        assert Service.LocationPaths(kept)[i] == p;
      }
    }
  }

  // ---------------------------------------------------------------- a full scan

  /**
   * A scan of valid roots that can all be listed runs up to the first file
   * that cannot be read. It keeps the records outside every root, adds the
   * records of the existing files before that one and reports once per such
   * file. Only when every file could be read does it succeed and store every
   * root as a location; otherwise it raises that file's error and keeps the
   * location paths the purge left.
   */
  lemma ScanSpecContents(ix: Service.Index, fs: FileSystem, roots: seq<string>, progress: bool, paths: seq<string>)
    requires Service.AllValid(roots) && Enumerate(fs, roots) == Success(paths)
    ensures var r, n := ScanSpec(ix, fs, roots, progress), ScannablePrefix(fs, paths);
      (r.status.Pass? <==> n == |paths|) &&
      (n < |paths| ==> r.status == Fail(fs.readAll(paths[n]).error)) &&
      (forall f :: f in r.index.files <==> (f in ix.files && Service.OutsideAll(f.path, roots)) || Scanned(fs, paths[..n], f)) &&
      (r.status.Pass? ==>
        forall p :: p in Service.LocationPaths(r.index.locations) <==> p in Service.LocationPaths(ix.locations) || p in roots) &&
      (r.status.Fail? ==>
        forall p :: p in Service.LocationPaths(r.index.locations) <==> p in Service.LocationPaths(ix.locations) && p !in roots) &&
      r.reports == Reports(progress, |paths|, n)
  {
    var purged := Service.Purge(ix, Some(roots));
    Service.PurgeFilesInKeepsOutside(ix.files, roots);
    Service.PurgeForgetsLocations(ix, roots);
    assert purged.1 == Pass;
    ScanPathsStopsAtUnreadable(purged.0.files, fs, paths);
    ScanPathsContents(purged.0.files, fs, paths);
    ForgetLocationPaths(ix.locations, roots);
    InsertLocationsContents(purged.0.locations, roots);
  }

  /** A scan keeps the index free of repeated records and repeated location paths. */
  lemma ScanSpecKeepsIndexClean(ix: Service.Index, fs: FileSystem, roots: seq<string>, progress: bool)
    requires NoDuplicates(ix.files) && Service.UniquePaths(ix.locations)
    ensures var r := ScanSpec(ix, fs, roots, progress);
      NoDuplicates(r.index.files) && Service.UniquePaths(r.index.locations)
  {
    var purged := Service.PurgeFilesIn(ix.files, roots);
    if Service.AllValid(roots) {
      Service.PurgeFilesInKeepsOutside(ix.files, roots);
      FilterNoDuplicates(ix.files, Service.OutsideEvery(roots));
      var kept := Filter(ix.locations, Service.Unlisted(roots));
      FilterKeepsUniquePaths(ix.locations, Service.Unlisted(roots));
      match Enumerate(fs, roots)
      case Failure(_) =>
      case Success(paths) =>
        ScanPathsContents(purged.0, fs, paths);
        if ScanPaths(purged.0, fs, paths).status.Pass? {
          InsertLocationsContents(kept, roots);
        }
    } else {
      var n := Service.FirstInvalid(roots);
      Service.PurgeFilesInStopsAtFirstInvalid(ix.files, roots, n);
      FilterNoDuplicates(ix.files, Service.OutsideEvery(roots[..n]));
    }
  }

  /** Filtering the locations keeps their paths unique. */
  lemma {:induction false} FilterKeepsUniquePaths(locations: seq<ScannedLocation>, p: ScannedLocation -> bool)
    requires Service.UniquePaths(locations)
    ensures Service.UniquePaths(Filter(locations, p))
  {
    if locations != [] {
      var d, l := DropLast(locations), Last(locations);
      assert Service.UniquePaths(d) by {
        assert forall i :: 0 <= i < |d| ==> d[i] == locations[i];
      }
      FilterKeepsUniquePaths(d, p);
      if p(l) {
        var kept := Filter(d, p);
        forall i | 0 <= i < |kept|
          ensures kept[i].path != l.path
        {
          assert kept[i] in kept;
          assert kept[i] in d;
          var j :| 0 <= j < |d| && d[j] == kept[i];
          assert locations[j] == d[j];
        }
      }
    }
  }

  /**
   * A scan whose first invalid root is at `n` raises `ArgumentException` for
   * a short root and `SqlException` for a quote: the records of the roots
   * before it are already deleted, no location is recorded and nothing is
   * reported.
   */
  lemma ScanSpecStopsAtInvalidRoot(ix: Service.Index, fs: FileSystem, roots: seq<string>, progress: bool)
    requires !Service.AllValid(roots)
    ensures var n := Service.FirstInvalid(roots);
      ScanSpec(ix, fs, roots, progress) ==
        Run(Service.Index(Filter(ix.files, Service.OutsideEvery(roots[..n])), ix.locations),
            Fail(if |roots[n]| < 3 then ArgumentException else SqlException), [])
  {
    Service.PurgeFilesInStopsAtFirstInvalid(ix.files, roots, Service.FirstInvalid(roots));
  }

  /**
   * A root listing `a` and then `b`, where `b` exists but cannot be read:
   * the scan of an empty index stores the record of `a`, reports 50, raises
   * the error of `b` and records no root.
   */
  lemma ScanStopsAtUnreadableFile(fs: FileSystem, root: string, a: string, b: string)
    requires Service.Valid(root) && fs.getFiles(root) == Success([a, b])
    requires fs.fileExists(a) && fs.readAll(a).Success?
    requires fs.fileExists(b) && fs.readAll(b).Failure?
    ensures var r := ScanSpec(Service.Index([], []), fs, [root], true);
      r.status == Fail(fs.readAll(b).error) && r.index.files == [MakeScannedFile(fs, a).value] &&
      r.index.locations == [] && r.reports == [50]
  {
    var roots := [root];
    assert Service.AllValid(roots);
    Service.PurgeFilesInKeepsOutside([], roots);
    assert Service.Purge(Service.Index([], []), Some(roots)) == (Service.Index([], []), Pass);
    assert DropLast(roots) == [];
    assert Enumerate(fs, roots) == Success([] + [a, b]);
    var paths := [a, b];
    assert [] + paths == paths;
    assert DropLast(paths) == [a] && DropLast([a]) == [];
    var g := MakeScannedFile(fs, a).value;
    assert !Service.ContainsFile([], g);
    assert ScanPaths([], fs, [a]) == Scan([g], 1, Pass);
    assert ScanPaths([], fs, paths) == Scan([g], 1, Fail(fs.readAll(b).error));
    assert ScanSpec(Service.Index([], []), fs, roots, true) ==
      Run(Service.Index([g], []), Fail(fs.readAll(b).error), Reports(true, 2, 1));
    assert Percent(1, 2) == 50;
    assert Reports(true, 2, 1) == [50];
  }

  // ---------------------------------------------------------------- a rescan

  /**
   * A rescan whose lookups succeed scans the additions up to the first file
   * that cannot be read. When every added file could be read it succeeds: it
   * keeps the stored records and the records of the added files, except those
   * at a removed path, and records the roots. Otherwise it raises that file's
   * error with the records scanned so far added, nothing removed and no root
   * recorded.
   */
  lemma RescanContents(ix: Service.Index, fs: FileSystem, roots: seq<string>, progress: bool,
                       stored: seq<string>, onDisk: seq<string>)
    requires Service.ListFilePaths(ix.files, Some(roots)) == Success(stored)
    requires Enumerate(fs, roots) == Success(onDisk)
    ensures var r, additions, removals := RescanSpec(ix, fs, roots, progress), Additions(onDisk, stored), Removals(onDisk, stored);
      var n := ScannablePrefix(fs, additions);
      (r.status.Pass? <==> n == |additions|) &&
      (n < |additions| ==> r.status == Fail(fs.readAll(additions[n]).error)) &&
      (r.status.Pass? ==>
        (forall f :: f in r.index.files <==> (f in ix.files || Scanned(fs, additions, f)) && f.path !in removals) &&
        (forall p :: p in Service.LocationPaths(r.index.locations) <==> p in Service.LocationPaths(ix.locations) || p in roots)) &&
      (r.status.Fail? ==>
        (forall f :: f in r.index.files <==> f in ix.files || Scanned(fs, additions[..n], f)) &&
        r.index.locations == ix.locations) &&
      r.reports == Reports(progress, RescanTotal(onDisk, stored), if r.status.Pass? then RescanTotal(onDisk, stored) else n)
  {
    var additions := Additions(onDisk, stored);
    var scanned := ScanPaths(ix.files, fs, additions);
    ScanPathsStopsAtUnreadable(ix.files, fs, additions);
    ScanPathsContents(ix.files, fs, additions);
    if scanned.status.Pass? {
      assert additions[..scanned.done] == additions;
      RemovePathsContents(scanned.files, Removals(onDisk, stored));
      InsertLocationsContents(ix.locations, roots);
    }
  }

  /**
   * Previously scanned files persist: a stored record whose file is still on
   * disk survives a rescan, and one whose listed path has gone is dropped by
   * a rescan that succeeds.
   */
  lemma RescanKeepsFilesStillOnDisk(ix: Service.Index, fs: FileSystem, roots: seq<string>, progress: bool,
                                    stored: seq<string>, onDisk: seq<string>, f: ScannedFile)
    requires Service.ListFilePaths(ix.files, Some(roots)) == Success(stored)
    requires Enumerate(fs, roots) == Success(onDisk)
    ensures f in ix.files && f.path in onDisk ==> f in RescanSpec(ix, fs, roots, progress).index.files
    ensures RescanSpec(ix, fs, roots, progress).status.Pass? && f.path in stored && f.path !in onDisk ==>
      f !in RescanSpec(ix, fs, roots, progress).index.files
  {
    RescanContents(ix, fs, roots, progress, stored, onDisk);
  }

  /** A rescan of roots whose files are exactly the stored ones changes no record and reports nothing. */
  lemma RescanOfUnchangedDisk(ix: Service.Index, fs: FileSystem, roots: seq<string>, progress: bool,
                              stored: seq<string>, onDisk: seq<string>)
    requires Service.ListFilePaths(ix.files, Some(roots)) == Success(stored)
    requires Enumerate(fs, roots) == Success(onDisk)
    requires forall p :: p in onDisk <==> p in stored
    ensures RescanSpec(ix, fs, roots, progress).index.files == ix.files
    ensures RescanSpec(ix, fs, roots, progress).status == Pass
    ensures RescanSpec(ix, fs, roots, progress).reports == []
  {
    NothingExcepted(onDisk, stored);
    NothingExcepted(stored, onDisk);
  }

  lemma NothingExcepted(a: seq<string>, b: seq<string>)
    requires forall x :: x in a ==> x in b
    ensures Except(a, b) == []
  {
    if Except(a, b) != [] {
      assert Except(a, b)[0] in Except(a, b);
    }
  }

  /** The fifty-plus-fifty rescan of the tests reports a hundred steps, ending on 100. */
  lemma FiftyAddedFiftyRemoved(onDisk: seq<string>, stored: seq<string>)
    requires |Additions(onDisk, stored)| == 50 && |Removals(onDisk, stored)| == 50
    ensures |Reports(true, RescanTotal(onDisk, stored), RescanTotal(onDisk, stored))| == 100
    ensures Reports(true, RescanTotal(onDisk, stored), RescanTotal(onDisk, stored))[49] == 50
    ensures Last(Reports(true, RescanTotal(onDisk, stored), RescanTotal(onDisk, stored))) == 100
  {
    HundredFileReports();
  }
}
