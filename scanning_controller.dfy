/**
 * `ScanningController`: runs a scan session for a fixed list of location
 * paths with a divisor-3 progress bar, and turns the store's duplicate list
 * into one result group per hash. The logger is modelled as the number of
 * errors logged, the progress control as the values it received.
 */
module ScanningControllers {
  import opened Wrappers
  import opened Seqs
  import HashComparer = ScannedFileHashComparer
  import Service = FileHashService
  import opened ScannedFiles
  import opened ScannedFileStores
  import opened ScanningProgresses
  import Partition = LocationPartitions
  import opened ScanSessions
  import opened ResultPageModels

  /** `t => new FileModel { FileName = t.Name, LocationPath = t.Path }`. */
  function ToFileModel(f: ScannedFile): FileModel {
    FileModel(f.name, f.path)
  }

  /** One result group: its files as file models, in order. */
  function ToResultModel(group: seq<ScannedFile>): DuplicateResultModel {
    DuplicateResultModel(Map(group, ToFileModel))
  }

  /** The result groups of `RetrieveDuplicatesAsync`: one per distinct hash, in first-occurrence order. */
  function Grouped(files: seq<ScannedFile>): seq<DuplicateResultModel> {
    Map(GroupBy(files, Service.HashKey), ToResultModel)
  }

  class ScanningController {
    const store: ScannedFileStore
    var locations: seq<string>
    /** Every value the progress control received, in order. */
    var controlValues: seq<int>
    /** How many errors the logger received. */
    var errorsLogged: nat

    constructor (locations: seq<string>, store: ScannedFileStore)
      ensures this.locations == locations && this.store == store
      ensures controlValues == [] && errorsLogged == 0
    {
      this.locations := locations;
      this.store := store;
      controlValues := [];
      errorsLogged := 0;
    }

    /**
     * `BeginScanAsync`: the session of `ScanSessions.Begin` with divisor 3 and
     * no final report. An exception from any store call is logged once and
     * ends the session. The control never gets above 83, and a session that
     * succeeds leaves exactly the chosen locations recorded.
     */
    method BeginScan()
      modifies this, store.service
      ensures var s := Begin(old(store.service.State()), store.fileSystem, old(locations), 3, false);
        store.service.State() == s.index &&
        controlValues == old(controlValues) + s.shown &&
        errorsLogged == old(errorsLogged) + (if s.failed then 1 else 0) &&
        (!s.failed ==> forall p :: p in store.ListScannedLocations() <==> p in locations)
      ensures forall i :: |old(controlValues)| <= i < |controlValues| ==> 0 <= controlValues[i] <= 83
      ensures locations == old(locations)
    {
      ghost var ix := store.service.State();
      ControllerBarBelowFull(ix, store.fileSystem, locations);
      if !Begin(ix, store.fileSystem, locations, 3, false).failed {
        SessionRecordsChoice(ix, store.fileSystem, locations, 3, false);
      }
      var shown, failed := RunSession(store, locations, 3, false);
      controlValues := controlValues + shown;
      if failed {
        errorsLogged := errorsLogged + 1;
      }
    }

    /** `RetrieveDuplicatesAsync`: one result group per hash of the store's duplicate list. */
    method RetrieveDuplicates() returns (results: seq<DuplicateResultModel>)
      ensures results == Grouped(store.ListDuplicateFiles())
    {
      var duplicateFiles := store.ListDuplicateFiles();
      var groups := GroupBy(duplicateFiles, Service.HashKey);
      results := [];
      for i := 0 to |groups|
        invariant results == Map(groups[..i], ToResultModel)
      {
        MapPrefixStep(groups, i, ToResultModel);
        var duplicateResultModel := DuplicateResultModel(Map(groups[i], ToFileModel));
        results := results + [duplicateResultModel];
      }
      assert groups[..|groups|] == groups;
    }
  }

  // ---------------------------------------------------------------- properties

  /** The file models of group `i` are those of the files with the group's hash. */
  lemma GroupMembers(files: seq<ScannedFile>, i: nat)
    requires i < |GroupBy(files, Service.HashKey)|
    ensures var ks, gs := Distinct(Map(files, Service.HashKey)), GroupBy(files, Service.HashKey);
      i < |ks| && |gs[i]| > 0 && Grouped(files)[i] == ToResultModel(gs[i]) &&
      forall m :: m in Grouped(files)[i].duplicateFiles <==>
        exists f :: f in files && Service.HashKey(f) == ks[i] && ToFileModel(f) == m
  {
    var gs := GroupBy(files, Service.HashKey);
    GroupMembership(files, Service.HashKey, i);
    assert Grouped(files)[i] == ToResultModel(gs[i]);
    assert Grouped(files)[i].duplicateFiles == Map(gs[i], ToFileModel);
    MappedGroupMembers(files, Service.HashKey, ToFileModel, i);
  }

  /**
   * One non-empty group per distinct hash, with pairwise different hashes;
   * a group holds exactly the file models of the files with its hash, and
   * every file lands in a group.
   */
  lemma RetrievedGroups(files: seq<ScannedFile>)
    ensures var ks, rs := Distinct(Map(files, Service.HashKey)), Grouped(files);
      |rs| == |ks| &&
      (forall i, j :: 0 <= i < j < |ks| ==> ks[i] != ks[j]) &&
      (forall i :: 0 <= i < |rs| ==> |rs[i].duplicateFiles| > 0) &&
      (forall i, m :: 0 <= i < |rs| ==>
        (m in rs[i].duplicateFiles <==> exists f :: f in files && Service.HashKey(f) == ks[i] && ToFileModel(f) == m)) &&
      (forall f :: f in files ==> exists i :: 0 <= i < |rs| && ToFileModel(f) in rs[i].duplicateFiles)
  {
    var ks, rs := Distinct(Map(files, Service.HashKey)), Grouped(files);
    assert NoDuplicates(ks);
    forall i | 0 <= i < |rs|
      ensures |rs[i].duplicateFiles| > 0
      ensures forall m :: m in rs[i].duplicateFiles <==> exists f :: f in files && Service.HashKey(f) == ks[i] && ToFileModel(f) == m
    {
      GroupMembers(files, i);
    }
    forall f | f in files
      ensures exists i :: 0 <= i < |rs| && ToFileModel(f) in rs[i].duplicateFiles
    {
      FileInGroup(files, f);
    }
  }

  /** Every file's model lies in the group of its hash. */
  lemma FileInGroup(files: seq<ScannedFile>, f: ScannedFile)
    requires f in files
    ensures exists i :: 0 <= i < |Grouped(files)| && ToFileModel(f) in Grouped(files)[i].duplicateFiles
  {
    var ks := Distinct(Map(files, Service.HashKey));
    var j :| 0 <= j < |files| && files[j] == f;
    assert Map(files, Service.HashKey)[j] == Service.HashKey(f);
    assert Service.HashKey(f) in ks;
    var i :| 0 <= i < |ks| && ks[i] == Service.HashKey(f);
    GroupMembers(files, i);
  }

  /**
   * Over an index without repeated records, every group built from the
   * store's duplicate list holds at least two files.
   */
  lemma RetrievedGroupsArePairs(files: seq<ScannedFile>)
    requires NoDuplicates(files)
    ensures forall i :: 0 <= i < |Grouped(Service.Duplicates(files))| ==>
      |Grouped(Service.Duplicates(files))[i].duplicateFiles| >= 2
  {
    var dups := Service.Duplicates(files);
    var gs := GroupBy(dups, Service.HashKey);
    forall i | 0 <= i < |gs|
      ensures |gs[i]| >= 2
    {
      RepeatedGroupPair(files, Service.HashKey, i);
    }
  }

  /** Records that all share one hash give a single group of all of them, in order. */
  lemma SameHashOneGroup(files: seq<ScannedFile>)
    requires |files| > 0 && forall i :: 0 <= i < |files| ==> files[i].hash == files[0].hash
    ensures Grouped(files) == [ToResultModel(files)]
  {
    GroupByOneKey(files, Service.HashKey);
    assert Grouped(files) == Map([files], ToResultModel);
    assert DropLast([files]) == [];
  }

  /** The controller test: three records with equal hashes collapse into one group of three. */
  lemma CollapsesEqualScannedFiles(a: ScannedFile, b: ScannedFile, c: ScannedFile)
    requires a.hash == b.hash == c.hash
    ensures Grouped([a, b, c]) == [DuplicateResultModel([ToFileModel(a), ToFileModel(b), ToFileModel(c)])]
  {
    var xs := [a, b, c];
    SameHashOneGroup(xs);
    MapThree(a, b, c, ToFileModel);
  }
}
