/**
 * `HomePageViewModel`: the list of locations the user picked, with the Add
 * and Remove commands and the enabled state of the Remove and Scan buttons.
 * The folder dialog is an input: whether it returned OK, and the path chosen.
 */
module HomePageViewModels {
  import opened Wrappers
  import opened Strings
  import opened ScanLocations

  /**
   * `Collection<ScanLocation>.IndexOf`: the first index whose element
   * `Equals` the item (ignoring case), or -1.
   */
  function IndexOf(locations: seq<ScanLocation>, item: ScanLocation): (r: int)
    ensures -1 <= r < |locations|
    ensures r >= 0 ==> Equals(locations[r], Some(item))
    ensures r >= 0 ==> forall k :: 0 <= k < r ==> !Equals(locations[k], Some(item))
    ensures r == -1 ==> forall k :: 0 <= k < |locations| ==> !Equals(locations[k], Some(item))
  {
    if locations == [] then -1
    else if Equals(locations[0], Some(item)) then 0
    else
      var r := IndexOf(locations[1..], item);
      assert forall k :: 1 <= k < |locations| ==> locations[k] == locations[1..][k - 1];
      if r == -1 then -1 else r + 1
  }

  /** `Collection.RemoveAt`. */
  function RemoveAt(s: seq<ScanLocation>, i: nat): (r: seq<ScanLocation>)
    requires i < |s|
    ensures |r| == |s| - 1
    ensures forall k :: 0 <= k < i ==> r[k] == s[k]
    ensures forall k :: i <= k < |r| ==> r[k] == s[k + 1]
  {
    s[..i] + s[i + 1..]
  }

  /** The locations after `AddLocation`: the chosen path is appended on OK unless an equal location is already listed. */
  function AfterAdd(locations: seq<ScanLocation>, dialogOk: bool, selectedPath: string): seq<ScanLocation> {
    var location := ScanLocation(Some(selectedPath));
    if dialogOk && IndexOf(locations, location) < 0 then locations + [location] else locations
  }

  /** `Collection.Remove`: the first location equal to the item goes, if there is one. */
  function Remove(locations: seq<ScanLocation>, item: ScanLocation): seq<ScanLocation> {
    var i := IndexOf(locations, item);
    if i < 0 then locations else RemoveAt(locations, i)
  }

  /** The locations after `RemoveLocation`: the selection is removed; no selection changes nothing. */
  function AfterRemove(locations: seq<ScanLocation>, selected: Option<ScanLocation>): seq<ScanLocation> {
    match selected
    case None => locations
    case Some(s) => Remove(locations, s)
  }

  /** No two listed locations are `Equals`-equal. */
  predicate Distinct(locations: seq<ScanLocation>) {
    forall i, j :: 0 <= i < j < |locations| ==> !Equals(locations[i], Some(locations[j]))
  }

  class HomePageViewModel {
    var locations: seq<ScanLocation>
    /** Set by the view from the list's selection; `None` when nothing is selected. */
    var selectedLocation: Option<ScanLocation>
    var removeEnabled: bool
    var scanEnabled: bool

    /** The page's own invariant: distinct locations, and both buttons enabled exactly when there is one. */
    predicate Valid()
      reads this
    {
      Distinct(locations) && removeEnabled == (|locations| > 0) && scanEnabled == (|locations| > 0)
    }

    /** A fresh page: no locations, nothing selected, Remove and Scan disabled. */
    constructor ()
      ensures locations == [] && selectedLocation == None && !removeEnabled && !scanEnabled
      ensures Valid()
    {
      locations := [];
      selectedLocation := None;
      removeEnabled := false;
      scanEnabled := false;
    }

    /** `AddLocation`, given the dialog's result and the path it returns. */
    method AddLocation(dialogOk: bool, selectedPath: string)
      modifies this
      ensures locations == AfterAdd(old(locations), dialogOk, selectedPath)
      ensures selectedLocation == old(selectedLocation)
      ensures removeEnabled == (|locations| > 0) && scanEnabled == (|locations| > 0)
      ensures old(Valid()) ==> Valid()
    {
      ghost var before := locations;
      if dialogOk {
        var resultScanLocation := ScanLocation(Some(selectedPath));
        if IndexOf(locations, resultScanLocation) < 0 {
          locations := locations + [resultScanLocation];
        }
      }
      if Distinct(before) {
        AddKeepsDistinct(before, dialogOk, selectedPath);
      }
      ToggleButtons();
    }

    /** `RemoveLocation`: remove the selection, if any. */
    method RemoveLocation()
      modifies this
      ensures locations == AfterRemove(old(locations), old(selectedLocation))
      ensures selectedLocation == old(selectedLocation)
      ensures removeEnabled == (|locations| > 0) && scanEnabled == (|locations| > 0)
      ensures old(Valid()) ==> Valid()
    {
      if Distinct(locations) {
        RemoveKeepsDistinct(locations, selectedLocation);
      }
      if selectedLocation.Some? {
        locations := Remove(locations, selectedLocation.value);
      }
      ToggleButtons();
    }

    /** `ToggleButtons`: Remove and Scan are enabled exactly when the list is not empty. */
    method ToggleButtons()
      modifies this
      ensures locations == old(locations) && selectedLocation == old(selectedLocation)
      ensures removeEnabled == (|locations| > 0) && scanEnabled == (|locations| > 0)
    {
      if |locations| > 0 {
        removeEnabled := true;
        scanEnabled := true;
      } else {
        removeEnabled := false;
        scanEnabled := false;
      }
    }
  }

  // ---------------------------------------------------------------- properties

  /** Adding never creates a pair of equal locations. */
  lemma {:induction false} AddKeepsDistinct(locations: seq<ScanLocation>, dialogOk: bool, selectedPath: string)
    requires Distinct(locations)
    ensures Distinct(AfterAdd(locations, dialogOk, selectedPath))
  {
  }

  /** Removing never creates a pair of equal locations. */
  lemma {:induction false} RemoveKeepsDistinct(locations: seq<ScanLocation>, selected: Option<ScanLocation>)
    requires Distinct(locations)
    ensures Distinct(AfterRemove(locations, selected))
  {
    var r := AfterRemove(locations, selected);
    if r != locations {
      var i := IndexOf(locations, selected.value);
      forall a, b | 0 <= a < b < |r|
        ensures !Equals(r[a], Some(r[b]))
      {
        var a', b' := if a < i then a else a + 1, if b < i then b else b + 1;
        assert r[a] == locations[a'] && r[b] == locations[b'];
      }
    }
  }

  /** After an OK dialog the chosen path is listed, either already or newly. */
  lemma {:induction false} AddedPathListed(locations: seq<ScanLocation>, selectedPath: string)
    ensures IndexOf(AfterAdd(locations, true, selectedPath), ScanLocation(Some(selectedPath))) >= 0
  {
    var location := ScanLocation(Some(selectedPath));
    EqualsIsEquivalence(location, location, location);
    var r := AfterAdd(locations, true, selectedPath);
    assert Equals(r[|r| - 1], Some(location)) || IndexOf(locations, location) >= 0;
  }

  /** A cancelled dialog changes nothing. */
  lemma {:induction false} CancelChangesNothing(locations: seq<ScanLocation>, selectedPath: string)
    ensures AfterAdd(locations, false, selectedPath) == locations
  {
  }

  /** Adding the same path twice lists it once. */
  lemma {:induction false} AddTwiceAddsOnce(locations: seq<ScanLocation>, selectedPath: string)
    ensures AfterAdd(AfterAdd(locations, true, selectedPath), true, selectedPath) == AfterAdd(locations, true, selectedPath)
  {
    AddedPathListed(locations, selectedPath);
  }

  /** Removing a location just added restores the list. */
  lemma {:induction false} RemoveUndoesAdd(locations: seq<ScanLocation>, selectedPath: string)
    requires IndexOf(locations, ScanLocation(Some(selectedPath))) < 0
    ensures AfterRemove(AfterAdd(locations, true, selectedPath), Some(ScanLocation(Some(selectedPath)))) == locations
  {
    var location := ScanLocation(Some(selectedPath));
    EqualsIsEquivalence(location, location, location);
    var added := locations + [location];
    var r := IndexOf(added, location);
    assert Equals(added[|locations|], Some(location));
    assert forall k :: 0 <= k < |locations| ==> added[k] == locations[k];
    if r < |locations| {
      assert false;
    }
    assert added[..|locations|] == locations;
  }

  /** In a distinct list, removing a selection leaves no location equal to it. */
  lemma {:induction false} RemoveLeavesNoEqual(locations: seq<ScanLocation>, selected: ScanLocation)
    requires Distinct(locations)
    ensures forall k :: 0 <= k < |AfterRemove(locations, Some(selected))| ==>
      !Equals(AfterRemove(locations, Some(selected))[k], Some(selected))
  {
    var i := IndexOf(locations, selected);
    var r := AfterRemove(locations, Some(selected));
    if i >= 0 {
      forall k | 0 <= k < |r|
        ensures !Equals(r[k], Some(selected))
      {
        var k' := if k < i then k else k + 1;
        assert r[k] == locations[k'];
        if Equals(locations[k'], Some(selected)) {
          EqualsIsEquivalence(locations[k'], selected, locations[i]);
          EqualsIsEquivalence(locations[i], selected, locations[k']);
          assert false;
        }
      }
    }
  }

  /** Removing takes one location away when an equal one is listed, and none otherwise. */
  lemma {:induction false} RemoveCount(locations: seq<ScanLocation>, selected: Option<ScanLocation>)
    ensures selected.Some? && IndexOf(locations, selected.value) >= 0 ==> |AfterRemove(locations, selected)| == |locations| - 1
    ensures selected.None? || IndexOf(locations, selected.value) < 0 ==> AfterRemove(locations, selected) == locations
  {
  }

  /** The comparison ignores case: `c:\FOO` is not added beside `C:\Foo`. */
  lemma AddIgnoresCase()
    ensures AfterAdd([ScanLocation(Some("C:\\Foo"))], true, "c:\\FOO") == [ScanLocation(Some("C:\\Foo"))]
  {
    EqualsIgnoreCaseExample();
  }
}
