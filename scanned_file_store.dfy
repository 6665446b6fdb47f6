/**
 * `ScannedFileStore`: scans root directories into the content index and
 * reconciles the index with the disk on a rescan. The file system is a value
 * of abstract functions; `IProgress<int>` is the sequence of values the store
 * reports (with `progress == false` for a null reporter).
 */
module ScannedFileStores {
  import opened Wrappers
  import opened Seqs
  import opened Integers
  import HashComparer = ScannedFileHashComparer
  import ScannedFiles
  import ScannedLocations
  import Service = FileHashService

  type ScannedFile = ScannedFiles.ScannedFile
  type ScannedLocation = ScannedLocations.ScannedLocation

  /** A SHA-256 digest: always 32 bytes. */
  type Digest = s: seq<HashComparer.byte> | |s| == 32 witness seq(32, _ => 0 as HashComparer.byte)

  /**
   * The file system as the store sees it. `getFiles(root)` lists every file
   * below `root`, recursively, or raises; `readAll(path)` is the contents
   * `OpenRead` streams to the hash, or the exception opening or reading
   * raises; the digest is left abstract.
   */
  datatype FileSystem = FileSystem(
    getFiles: string -> Result<seq<string>>,
    fileExists: string -> bool,
    getFullPath: string -> string,
    getFileName: string -> string,
    readAll: string -> Result<seq<HashComparer.byte>>,
    sha256: seq<HashComparer.byte> -> Digest)

  // ---------------------------------------------------------------- one file

  /**
   * The record `ScanFile` builds: file name, full path, and the digest of the
   * contents; or the exception hashing raises.
   */
  function MakeScannedFile(fs: FileSystem, path: string): (r: Result<ScannedFile>)
    ensures r.Success? <==> fs.readAll(path).Success?
    ensures r.Failure? ==> r.error == fs.readAll(path).error
    ensures r.Success? ==> r.value.path == fs.getFullPath(path) && r.value.name == fs.getFileName(path) &&
                           r.value.hash == HashComparer.Array(fs.sha256(fs.readAll(path).value))
  {
    match fs.readAll(path)
    case Failure(e) => Failure(e)
    case Success(contents) =>
      Success(ScannedFiles.ScannedFile(HashComparer.Array(fs.sha256(contents)), fs.getFullPath(path), fs.getFileName(path)))
  }

  /** A path `ScanFile` gets through: missing, or readable. */
  predicate Scannable(fs: FileSystem, path: string) {
    !fs.fileExists(path) || fs.readAll(path).Success?
  }

  /**
   * The stored files after `ScanFile`, and how hashing ended: an existing file
   * is inserted, a missing one is skipped, an unreadable one raises before the
   * insertion.
   */
  function ScanStep(files: seq<ScannedFile>, fs: FileSystem, path: string): (seq<ScannedFile>, Outcome) {
    if !fs.fileExists(path) then (files, Pass)
    else
      match MakeScannedFile(fs, path)
      case Failure(e) => (files, Fail(e))
      case Success(f) => (Service.InsertFile(files, f), Pass)
  }

  /** The progress report of one step: nothing for a null reporter, `index * 100 / total` otherwise. */
  function ReportStep(progress: bool, index: int, total: int): (Outcome, seq<int>) {
    if !progress then (Pass, [])
    else if total == 0 then (Fail(DivideByZeroException), [])
    else (Pass, [TruncDiv(index * 100, total)])
  }

  // ---------------------------------------------------------------- whole runs

  /** The files below every root, one root after the other; the first root that cannot be listed raises. */
  function Enumerate(fs: FileSystem, roots: seq<string>): Result<seq<string>> {
    if roots == [] then Success([])
    else
      match Enumerate(fs, DropLast(roots))
      case Failure(e) => Failure(e)
      case Success(paths) =>
        match fs.getFiles(Last(roots))
        case Failure(e) => Failure(e)
        case Success(more) => Success(paths + more)
  }

  /** Where a run of `ScanFile` calls stopped: the stored files, the number of paths done, and how it ended. */
  datatype Scan = Scan(files: seq<ScannedFile>, done: nat, status: Outcome)

  /** `ScanFile` on every path, in order, until the first that raises. */
  function ScanPaths(files: seq<ScannedFile>, fs: FileSystem, paths: seq<string>): (r: Scan)
    ensures r.done <= |paths|
    ensures r.status.Pass? <==> r.done == |paths|
  {
    if paths == [] then Scan(files, 0, Pass)
    else
      var before := ScanPaths(files, fs, DropLast(paths));
      if before.status.Fail? then before
      else
        var (after, status) := ScanStep(before.files, fs, Last(paths));
        Scan(after, if status.Pass? then |paths| else before.done, status)
  }

  /** `RemoveFile` on every path, in order. */
  function RemovePaths(files: seq<ScannedFile>, paths: seq<string>): seq<ScannedFile> {
    if paths == [] then files else Service.RemoveByPath(RemovePaths(files, DropLast(paths)), Last(paths))
  }

  /** One location record per root, inserted in order. */
  function InsertLocations(locations: seq<ScannedLocation>, roots: seq<string>): seq<ScannedLocation> {
    if roots == [] then locations
    else Service.InsertLocation(InsertLocations(locations, DropLast(roots)), ScannedLocations.ScannedLocation(0, Last(roots)))
  }

  /** The first `count` reports of a run of `total` steps: `k * 100 / total` for step `k`. */
  function Progress(total: nat, count: nat): seq<int>
    requires count <= total
  {
    if count == 0 then [] else Progress(total, count - 1) + [Percent(count, total)]
  }

  /** The report of step `k` of a run of `total` steps. */
  function Percent(k: nat, total: nat): nat
    requires total > 0
  {
    k * 100 / total
  }

  function Reports(progress: bool, total: nat, count: nat): seq<int>
    requires count <= total
  {
    if progress then Progress(total, count) else []
  }

  /** What a run leaves: the index, how it ended, and what it reported. */
  datatype Run = Run(index: Service.Index, status: Outcome, reports: seq<int>)

  /**
   * `ScanLocationsAsync`: purge the roots, enumerate them, scan every file
   * with one progress step each, then record the roots. A file that cannot be
   * read ends the run: the files before it are stored and reported, and no
   * root is recorded.
   */
  function ScanSpec(ix: Service.Index, fs: FileSystem, roots: seq<string>, progress: bool): Run {
    var purged := Service.Purge(ix, Some(roots));
    if purged.1.Fail? then Run(purged.0, purged.1, [])
    else
      match Enumerate(fs, roots)
      case Failure(e) => Run(purged.0, Fail(e), [])
      case Success(paths) =>
        ScanFoundSpec(purged.0, fs, roots, paths, progress)
  }

  /**
   * The second half of a scan, over the purged index: scan the files found,
   * then record the roots if every file could be read.
   */
  function ScanFoundSpec(ix: Service.Index, fs: FileSystem, roots: seq<string>, paths: seq<string>, progress: bool): Run {
    var scan := ScanPaths(ix.files, fs, paths);
    if scan.status.Fail? then Run(Service.Index(scan.files, ix.locations), scan.status, Reports(progress, |paths|, scan.done))
    else Run(Service.Index(scan.files, InsertLocations(ix.locations, roots)), Pass, Reports(progress, |paths|, |paths|))
  }

  /** The paths a rescan adds: on disk but not stored. */
  function Additions(onDisk: seq<string>, stored: seq<string>): seq<string> {
    Except(onDisk, stored)
  }

  /** The paths a rescan removes: stored but no longer on disk. */
  function Removals(onDisk: seq<string>, stored: seq<string>): seq<string> {
    Except(stored, onDisk)
  }

  /**
   * `RescanLocationsAsync`: list the stored paths and enumerate the disk,
   * then reconcile the two.
   */
  function RescanSpec(ix: Service.Index, fs: FileSystem, roots: seq<string>, progress: bool): Run {
    match Service.ListFilePaths(ix.files, Some(roots))
    case Failure(e) => Run(ix, Fail(e), [])
    case Success(stored) =>
      match Enumerate(fs, roots)
      case Failure(e) => Run(ix, Fail(e), [])
      case Success(onDisk) => ReconcileSpec(ix, fs, roots, onDisk, stored, progress)
  }

  /**
   * The second half of a rescan: scan the additions, remove the removals (one
   * progress counter across both), then record the roots. A file that cannot
   * be read ends the run before any removal and without recording a root.
   */
  function ReconcileSpec(ix: Service.Index, fs: FileSystem, roots: seq<string>, onDisk: seq<string>, stored: seq<string>,
                         progress: bool): Run
  {
    var total := RescanTotal(onDisk, stored);
    var scan := ScanPaths(ix.files, fs, Additions(onDisk, stored));
    if scan.status.Fail? then Run(Service.Index(scan.files, ix.locations), scan.status, Reports(progress, total, scan.done))
    else Run(Service.Index(RemovePaths(scan.files, Removals(onDisk, stored)), InsertLocations(ix.locations, roots)),
             Pass, Reports(progress, total, total))
  }

  /** The number of progress steps of a rescan: one per addition and one per removal. */
  function RescanTotal(onDisk: seq<string>, stored: seq<string>): nat {
    |Additions(onDisk, stored)| + |Removals(onDisk, stored)|
  }

  // ---------------------------------------------------------------- the store

  class ScannedFileStore {
    const service: Service.FileHashService
    const fileSystem: FileSystem

    constructor (fileSystem: FileSystem, service: Service.FileHashService)
      ensures this.fileSystem == fileSystem && this.service == service
    {
      this.fileSystem := fileSystem;
      this.service := service;
    }

    /** `ListScannedLocationsAsync`, passed through to the service. */
    function ListScannedLocations(): seq<string>
      reads service
    {
      service.ListScannedLocations()
    }

    /** `ListDuplicateFilesAsync`, passed through to the service. */
    function ListDuplicateFiles(): seq<ScannedFile>
      reads service
    {
      service.ReturnDuplicates()
    }

    /** `PurgeLocationsAsync`, passed through to the service. */
    method PurgeLocations(locationPaths: Option<seq<string>>) returns (status: Outcome)
      modifies service
      ensures (service.State(), status) == Service.Purge(old(service.State()), locationPaths)
    {
      status := service.PurgeScannedLocations(locationPaths);
    }

    /** `ScanFile`: insert the file if it exists, then report the step; a hashing failure raises before both. */
    method ScanFile(filePath: string, progress: bool, index: int, totalCount: int) returns (status: Outcome, reports: seq<int>)
      modifies service
      ensures var step := ScanStep(old(service.scannedFiles), fileSystem, filePath);
        service.scannedFiles == step.0 &&
        (status, reports) == if step.1.Fail? then (step.1, []) else ReportStep(progress, index, totalCount)
      ensures service.scannedLocations == old(service.scannedLocations)
    {
      if fileSystem.fileExists(filePath) {
        var scannedFile := MakeScannedFile(fileSystem, filePath);
        if scannedFile.Failure? {
          return Fail(scannedFile.error), [];
        }
        service.InsertScannedFile(scannedFile.value);
      }
      status, reports := Pass, [];
      if progress {
        if totalCount == 0 {
          status := Fail(DivideByZeroException);
        } else {
          reports := [TruncDiv(index * 100, totalCount)];
        }
      }
    }

    /** `RemoveFile`: remove every record with this path, then report the step. */
    method RemoveFile(filePath: string, progress: bool, index: int, totalCount: int) returns (status: Outcome, reports: seq<int>)
      modifies service
      ensures service.scannedFiles == Service.RemoveByPath(old(service.scannedFiles), filePath)
      ensures service.scannedLocations == old(service.scannedLocations)
      ensures status == ReportStep(progress, index, totalCount).0 && reports == ReportStep(progress, index, totalCount).1
    {
      var _ := service.RemoveScannedFilesByFilePath(filePath);
      status, reports := Pass, [];
      if progress {
        if totalCount == 0 {
          status := Fail(DivideByZeroException);
        } else {
          reports := [TruncDiv(index * 100, totalCount)];
        }
      }
    }

    /** `GetFilesAsync` over every root, collected with `AddRange`. */
    method GetFiles(locationPaths: seq<string>) returns (r: Result<seq<string>>)
      ensures r == Enumerate(fileSystem, locationPaths)
    {
      var files := [];
      for i := 0 to |locationPaths|
        invariant Enumerate(fileSystem, locationPaths[..i]) == Success(files)
      {
        assert DropLast(locationPaths[..i + 1]) == locationPaths[..i];
        var found := fileSystem.getFiles(locationPaths[i]);
        if found.Failure? {
          EnumerateFailureSticks(fileSystem, locationPaths, i + 1);
          return Failure(found.error);
        }
        files := files + found.value;
      }
      assert locationPaths[..|locationPaths|] == locationPaths;
      return Success(files);
    }

    /** Insert one location record per root. */
    method RecordLocations(locationPaths: seq<string>)
      modifies service
      ensures service.scannedLocations == InsertLocations(old(service.scannedLocations), locationPaths)
      ensures service.scannedFiles == old(service.scannedFiles)
    {
      for i := 0 to |locationPaths|
        invariant service.scannedLocations == InsertLocations(old(service.scannedLocations), locationPaths[..i])
        invariant service.scannedFiles == old(service.scannedFiles)
      {
        assert DropLast(locationPaths[..i + 1]) == locationPaths[..i];
        service.InsertScannedLocation(ScannedLocations.ScannedLocation(0, locationPaths[i]));
      }
      assert locationPaths[..|locationPaths|] == locationPaths;
    }

    /**
     * The `ScanFile` loop: steps `done + 1`, `done + 2`, ... of a run of
     * `totalCount`, one per path, until a file cannot be read.
     */
    method ScanAll(paths: seq<string>, progress: bool, totalCount: nat, done: nat) returns (status: Outcome, reports: seq<int>)
      requires done + |paths| <= totalCount
      modifies service
      ensures var scan := ScanPaths(old(service.scannedFiles), fileSystem, paths);
        service.scannedFiles == scan.files && status == scan.status &&
        Reports(progress, totalCount, done) + reports == Reports(progress, totalCount, done + scan.done)
      ensures service.scannedLocations == old(service.scannedLocations)
    {
      reports := [];
      for i := 0 to |paths|
        invariant ScanPaths(old(service.scannedFiles), fileSystem, paths[..i]) == Scan(service.scannedFiles, i, Pass)
        invariant service.scannedLocations == old(service.scannedLocations)
        invariant ReportedUpTo(progress, totalCount, done, i, reports)
      {
        ScanPathsStep(old(service.scannedFiles), fileSystem, paths, i);
        ReportsExtend(progress, totalCount, done, i, reports);
        var stepStatus, stepReports := ScanFile(paths[i], progress, done + i + 1, totalCount);
        if stepStatus.Fail? {
          ScanPathsFailureSticks(old(service.scannedFiles), fileSystem, paths, i + 1);
          return stepStatus, reports;
        }
        reports := reports + stepReports;
      }
      assert paths[..|paths|] == paths;
      status := Pass;
    }

    /** The `RemoveFile` loop, continuing the same progress counter. */
    method RemoveAll(paths: seq<string>, progress: bool, totalCount: nat, done: nat) returns (reports: seq<int>)
      requires done + |paths| <= totalCount
      modifies service
      ensures service.scannedFiles == RemovePaths(old(service.scannedFiles), paths)
      ensures service.scannedLocations == old(service.scannedLocations)
      ensures Reports(progress, totalCount, done) + reports == Reports(progress, totalCount, done + |paths|)
    {
      reports := [];
      for i := 0 to |paths|
        invariant service.scannedFiles == RemovePaths(old(service.scannedFiles), paths[..i])
        invariant service.scannedLocations == old(service.scannedLocations)
        invariant ReportedUpTo(progress, totalCount, done, i, reports)
      {
        RemovePathsStep(old(service.scannedFiles), paths, i);
        ReportsExtend(progress, totalCount, done, i, reports);
        var stepStatus, stepReports := RemoveFile(paths[i], progress, done + i + 1, totalCount);
        reports := reports + stepReports;
      }
      assert paths[..|paths|] == paths;
    }

    /** `ScanLocationsAsync`. */
    method ScanLocations(locationPaths: seq<string>, progress: bool) returns (status: Outcome, reports: seq<int>)
      modifies service
      ensures Run(service.State(), status, reports) == ScanSpec(old(service.State()), fileSystem, locationPaths, progress)
    {
      ghost var purged := Service.Purge(service.State(), Some(locationPaths));
      reports := [];
      status := service.PurgeScannedLocations(Some(locationPaths));
      assert service.State() == purged.0 && status == purged.1;
      if status.Fail? {
        return;
      }
      var found := GetFiles(locationPaths);
      if found.Failure? {
        return Fail(found.error), [];
      }
      var files := found.value;
      assert ScanSpec(old(service.State()), fileSystem, locationPaths, progress) ==
        ScanFoundSpec(purged.0, fileSystem, locationPaths, files, progress);
      status, reports := ScanFound(locationPaths, files, progress);
    }

    /** The second half of `ScanLocationsAsync`: the `ScanFile` loop, then the roots if it ran to the end. */
    method ScanFound(locationPaths: seq<string>, files: seq<string>, progress: bool) returns (status: Outcome, reports: seq<int>)
      modifies service
      ensures Run(service.State(), status, reports) == ScanFoundSpec(old(service.State()), fileSystem, locationPaths, files, progress)
    {
      status, reports := ScanAll(files, progress, |files|, 0);
      assert Reports(progress, |files|, 0) == [];
      assert [] + reports == reports;
      if status.Fail? {
        return;
      }
      RecordLocations(locationPaths);
    }

    /** `RescanLocationsAsync`: one counter runs across the additions and then the removals. */
    method RescanLocations(locationPaths: seq<string>, progress: bool) returns (status: Outcome, reports: seq<int>)
      modifies service
      ensures Run(service.State(), status, reports) == RescanSpec(old(service.State()), fileSystem, locationPaths, progress)
    {
      ghost var ix := service.State();
      var listed := service.ListScannedFilePaths(Some(locationPaths));
      if listed.Failure? {
        RescanSpecFails(ix, fileSystem, locationPaths, progress);
        assert service.State() == ix;
        return Fail(listed.error), [];
      }
      var found := GetFiles(locationPaths);
      if found.Failure? {
        RescanSpecFails(ix, fileSystem, locationPaths, progress);
        assert service.State() == ix;
        return Fail(found.error), [];
      }
      var storedFiles, files := listed.value, found.value;
      status, reports := Reconcile(locationPaths, files, storedFiles, progress);
    }

    /** The second half of a rescan: scan the additions, remove the removals, record the roots. */
    method Reconcile(locationPaths: seq<string>, onDisk: seq<string>, stored: seq<string>, progress: bool)
      returns (status: Outcome, reports: seq<int>)
      modifies service
      ensures Run(service.State(), status, reports) ==
        ReconcileSpec(old(service.State()), fileSystem, locationPaths, onDisk, stored, progress)
    {
      var additions, removals := Except(onDisk, stored), Except(stored, onDisk);
      var totalCount := |additions| + |removals|;
      var added;
      status, added := ScanAll(additions, progress, totalCount, 0);
      assert Reports(progress, totalCount, 0) == [];
      assert [] + added == added;
      if status.Fail? {
        return status, added;
      }
      var removed := RemoveAll(removals, progress, totalCount, |additions|);
      reports := added + removed;
      RecordLocations(locationPaths);
    }
  }

  /** A rescan whose lookup fails changes nothing and reports nothing. */
  lemma RescanSpecFails(ix: Service.Index, fs: FileSystem, roots: seq<string>, progress: bool)
    requires Service.ListFilePaths(ix.files, Some(roots)).Failure? || Enumerate(fs, roots).Failure?
    ensures var r := RescanSpec(ix, fs, roots, progress);
      r.index == ix && r.reports == [] &&
      r.status == Fail(if Service.ListFilePaths(ix.files, Some(roots)).Failure?
                       then Service.ListFilePaths(ix.files, Some(roots)).error
                       else Enumerate(fs, roots).error)
  {
  }

  /** `ScanPaths` over a prefix one path longer, when the prefix went through. */
  lemma ScanPathsStep(files: seq<ScannedFile>, fs: FileSystem, paths: seq<string>, i: nat)
    requires i < |paths| && ScanPaths(files, fs, paths[..i]).status.Pass?
    ensures var step := ScanStep(ScanPaths(files, fs, paths[..i]).files, fs, paths[i]);
      ScanPaths(files, fs, paths[..i + 1]) == Scan(step.0, if step.1.Pass? then i + 1 else i, step.1)
  {
    assert DropLast(paths[..i + 1]) == paths[..i] && Last(paths[..i + 1]) == paths[i];
  }

  /** A file that cannot be read ends the scan: later paths change nothing. */
  lemma {:induction false} ScanPathsFailureSticks(files: seq<ScannedFile>, fs: FileSystem, paths: seq<string>, n: nat)
    requires n <= |paths| && ScanPaths(files, fs, paths[..n]).status.Fail?
    ensures ScanPaths(files, fs, paths) == ScanPaths(files, fs, paths[..n])
    decreases |paths| - n
  {
    if n < |paths| {
      assert DropLast(paths[..n + 1]) == paths[..n];
      ScanPathsFailureSticks(files, fs, paths, n + 1);
    } else {
      assert paths[..n] == paths;
    }
  }

  /** `RemovePaths` over a prefix one path longer. */
  lemma RemovePathsStep(files: seq<ScannedFile>, paths: seq<string>, i: nat)
    requires i < |paths|
    ensures RemovePaths(files, paths[..i + 1]) == Service.RemoveByPath(RemovePaths(files, paths[..i]), paths[i])
  {
    assert DropLast(paths[..i + 1]) == paths[..i] && Last(paths[..i + 1]) == paths[i];
  }

  /** The report of step `count + 1` of a run of `total` extends the reports so far. */
  lemma ReportsStep(progress: bool, total: nat, count: nat)
    requires count < total
    ensures Reports(progress, total, count + 1) == Reports(progress, total, count) + ReportStep(progress, count + 1, total).1
  {
    if progress {
      TruncDivNonNegative((count + 1) * 100, total);
    }
  }

  /** `reports` are the reports of steps `done + 1 .. done + i` of a run of `total`. */
  predicate ReportedUpTo(progress: bool, total: nat, done: nat, i: nat, reports: seq<int>) {
    done + i <= total && Reports(progress, total, done) + reports == Reports(progress, total, done + i)
  }

  /** The reports of steps `done + 1 .. done + i` followed by step `done + i + 1`. */
  lemma ReportsExtend(progress: bool, total: nat, done: nat, i: nat, reports: seq<int>)
    requires done + i < total && ReportedUpTo(progress, total, done, i, reports)
    ensures ReportedUpTo(progress, total, done, i + 1, reports + ReportStep(progress, done + i + 1, total).1)
  {
    var step := ReportStep(progress, done + i + 1, total).1;
    ReportsStep(progress, total, done + i);
    assert Reports(progress, total, done) + (reports + step) == Reports(progress, total, done) + reports + step;
  }

  /** A root that cannot be listed fails the whole enumeration. */
  lemma {:induction false} EnumerateFailureSticks(fs: FileSystem, roots: seq<string>, n: nat)
    requires n <= |roots| && Enumerate(fs, roots[..n]).Failure?
    ensures Enumerate(fs, roots) == Enumerate(fs, roots[..n])
    decreases |roots| - n
  {
    if n < |roots| {
      assert DropLast(roots[..n + 1]) == roots[..n];
      EnumerateFailureSticks(fs, roots, n + 1);
    } else {
      assert roots[..n] == roots;
    }
  }
}
