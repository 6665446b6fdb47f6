/**
 * `ScanPageViewModel`: runs a scan session over the chosen locations with a
 * divisor-2 progress bar that ends on 100, reads back the duplicates and
 * hands them to a fresh result page. The logger is modelled as the number
 * of errors logged; `Progress` is the last value the bar was set to.
 */
module ScanPageViewModels {
  import opened Wrappers
  import opened Seqs
  import Service = FileHashService
  import opened ScannedFiles
  import opened ScannedFileStores
  import opened ScanningProgresses
  import opened ScanSessions
  import Partition = LocationPartitions
  import opened ScanLocations
  import HomePageViewModels
  import ResultPageViewModels

  /** Every location carries a path. */
  predicate AllHavePaths(locations: seq<ScanLocation>) {
    forall i :: 0 <= i < |locations| ==> locations[i].path.Some?
  }

  /** `Locations.Select(t => t.Path)`: the paths, in order. */
  function PathsOf(locations: seq<ScanLocation>): (paths: seq<string>)
    requires AllHavePaths(locations)
    ensures |paths| == |locations|
    ensures forall i :: 0 <= i < |locations| ==> paths[i] == locations[i].path.value
  {
    if locations == [] then [] else PathsOf(DropLast(locations)) + [Last(locations).path.value]
  }

  class ScanPageViewModel {
    const store: ScannedFileStore
    var locations: seq<ScanLocation>
    /** `Progress`: the last value the bar was set to. */
    var progress: int
    var errorsLogged: nat
    /** `_returnDuplicatesResult`: what the last load read back. */
    var returnDuplicatesResult: seq<ScannedFile>

    /** A fresh page: no locations and the bar at 0. */
    constructor (store: ScannedFileStore)
      ensures this.store == store && locations == [] && progress == 0
      ensures errorsLogged == 0 && returnDuplicatesResult == []
    {
      this.store := store;
      locations := [];
      progress := 0;
      errorsLogged := 0;
      returnDuplicatesResult := [];
    }

    /**
     * `BeginScanAsync`: the session of `ScanSessions.Begin` over the paths of
     * the locations with divisor 2 and a final `Report(100)`. The bar ends on
     * the last value shown, which is 100 when no exception was logged; such a
     * session leaves exactly the chosen locations recorded.
     */
    method BeginScan()
      requires AllHavePaths(locations)
      modifies this, store.service
      ensures var s := Begin(old(store.service.State()), store.fileSystem, PathsOf(old(locations)), 2, true);
        store.service.State() == s.index &&
        progress == (if |s.shown| > 0 then Last(s.shown) else old(progress)) &&
        errorsLogged == old(errorsLogged) + (if s.failed then 1 else 0) &&
        (!s.failed ==> progress == 100) &&
        (!s.failed ==> forall p :: p in store.ListScannedLocations() <==> ScanLocation(Some(p)) in locations)
      ensures locations == old(locations) && returnDuplicatesResult == old(returnDuplicatesResult)
    {
      ghost var ix := store.service.State();
      var paths := PathsOf(locations);
      if !Begin(ix, store.fileSystem, paths, 2, true).failed {
        SessionRecordsLocations(ix, store.fileSystem, locations);
      }
      var shown, failed := RunSession(store, paths, 2, true);
      ScanPageEndsFull(ix, store.fileSystem, paths);
      ShowLast(shown);
      if failed {
        errorsLogged := errorsLogged + 1;
      }
    }

    /** The bar after the action ran once per value: the last value, or unchanged when there was none. */
    method ShowLast(values: seq<int>)
      modifies this
      ensures progress == (if |values| > 0 then Last(values) else old(progress))
      ensures locations == old(locations) && errorsLogged == old(errorsLogged)
      ensures returnDuplicatesResult == old(returnDuplicatesResult)
    {
      if |values| > 0 {
        progress := Last(values);
      }
    }

    /** `RetrieveDuplicatesAsync`: the store's duplicate list. */
    method RetrieveDuplicates() returns (duplicates: seq<ScannedFile>)
      ensures duplicates == Service.Duplicates(store.service.scannedFiles)
    {
      duplicates := store.ListDuplicateFiles();
    }

    /**
     * `OnLoaded`: scan, read back the duplicates, then `ShowResultPage`,
     * which fills a new result page with one banded row per duplicate.
     */
    method OnLoaded() returns (resultPage: ResultPageViewModels.ResultPageViewModel)
      requires AllHavePaths(locations)
      modifies this, store.service
      ensures fresh(resultPage)
      ensures var s := Begin(old(store.service.State()), store.fileSystem, PathsOf(old(locations)), 2, true);
        store.service.State() == s.index &&
        returnDuplicatesResult == Service.Duplicates(s.index.files) &&
        resultPage.duplicates == ResultPageViewModels.Results(returnDuplicatesResult)
    {
      BeginScan();
      returnDuplicatesResult := RetrieveDuplicates();
      resultPage := new ResultPageViewModels.ResultPageViewModel();
      resultPage.AddScannedFiles(returnDuplicatesResult);
    }
  }

  // ---------------------------------------------------------------- properties

  /** The home page only ever lists locations with a path, so its list can be scanned. */
  lemma HomePageLocationsHavePaths(locations: seq<ScanLocation>, dialogOk: bool, selectedPath: string, selected: Option<ScanLocation>)
    requires AllHavePaths(locations)
    ensures AllHavePaths(HomePageViewModels.AfterAdd(locations, dialogOk, selectedPath))
    ensures AllHavePaths(HomePageViewModels.AfterRemove(locations, selected))
  {
  }

  /** A session that succeeds leaves recorded exactly the paths of the chosen locations. */
  lemma SessionRecordsLocations(ix: Service.Index, fs: FileSystem, locations: seq<ScanLocation>)
    requires AllHavePaths(locations) && !Begin(ix, fs, PathsOf(locations), 2, true).failed
    ensures forall p :: p in Service.LocationPaths(Begin(ix, fs, PathsOf(locations), 2, true).index.locations) <==>
      ScanLocation(Some(p)) in locations
  {
    SessionRecordsChoice(ix, fs, PathsOf(locations), 2, true);
    forall p {
      PathsOfMembers(locations, p);
    }
  }

  /** The paths sent to the store are those of the locations, in order, one per location. */
  lemma {:induction false} PathsOfMembers(locations: seq<ScanLocation>, p: string)
    requires AllHavePaths(locations)
    ensures p in PathsOf(locations) <==> ScanLocation(Some(p)) in locations
  {
    var paths := PathsOf(locations);
    if p in paths {
      var i :| 0 <= i < |paths| && paths[i] == p;
      assert locations[i] == ScanLocation(Some(p));
    }
    if ScanLocation(Some(p)) in locations {
      var i :| 0 <= i < |locations| && locations[i] == ScanLocation(Some(p));
      assert paths[i] == p;
    }
  }
}
