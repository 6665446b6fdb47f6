/**
 * `ResultPageModel`: the duplicate groups shown on the result page, with the
 * flattening into location paths and the removal of one path from every group.
 */
module ResultPageModels {
  import opened Seqs

  /** One file of a group: its name and its full path. */
  datatype FileModel = FileModel(fileName: string, locationPath: string)

  /** One group of files with equal contents. */
  datatype DuplicateResultModel = DuplicateResultModel(duplicateFiles: seq<FileModel>)

  function LocationPathOf(f: FileModel): string {
    f.locationPath
  }

  /** The location paths of one group, in order. */
  function GroupPaths(g: DuplicateResultModel): seq<string> {
    Map(g.duplicateFiles, LocationPathOf)
  }

  /** `FlattenFoundDuplicates`: every location path, group after group. */
  function Flattened(groups: seq<DuplicateResultModel>): seq<string> {
    Flatten(Map(groups, GroupPaths))
  }

  /** The number of files over all groups. */
  function FileCount(groups: seq<DuplicateResultModel>): nat {
    if groups == [] then 0 else FileCount(DropLast(groups)) + |Last(groups).duplicateFiles|
  }

  /** The files whose path is exactly `p` (ordinal, case-sensitive). */
  function AtPath(p: string): FileModel -> bool {
    (f: FileModel) => f.locationPath == p
  }

  predicate EmptyGroup(g: DuplicateResultModel) {
    |g.duplicateFiles| == 0
  }

  /** One group without the files at `p`. */
  function Stripped(g: DuplicateResultModel, p: string): DuplicateResultModel {
    DuplicateResultModel(Filter(g.duplicateFiles, Not(AtPath(p))))
  }

  function Strip(p: string): DuplicateResultModel -> DuplicateResultModel {
    (g: DuplicateResultModel) => Stripped(g, p)
  }

  /** The groups after removing path `p`: every group stripped of it, then the empty groups dropped. */
  function Removed(groups: seq<DuplicateResultModel>, p: string): seq<DuplicateResultModel> {
    Filter(Map(groups, Strip(p)), Not(EmptyGroup))
  }

  /** The inner loops of `RemoveFileModelFromModel`: collect the files at the path, then `Remove` each one. */
  method RemoveMatchingFiles(files: seq<FileModel>, locationPath: string) returns (kept: seq<FileModel>)
    ensures kept == Filter(files, Not(AtPath(locationPath)))
  {
    var fileRemovals: seq<FileModel> := [];
    for j := 0 to |files|
      invariant fileRemovals == Filter(files[..j], AtPath(locationPath))
    {
      assert DropLast(files[..j + 1]) == files[..j];
      if files[j].locationPath == locationPath {
        fileRemovals := fileRemovals + [files[j]];
      }
    }
    assert files[..|files|] == files;
    kept := files;
    for k := 0 to |fileRemovals|
      invariant RemoveEach(kept, fileRemovals[k..]) == RemoveEach(files, fileRemovals)
    {
      assert fileRemovals[k..][0] == fileRemovals[k] && fileRemovals[k..][1..] == fileRemovals[k + 1..];
      kept := RemoveFirst(kept, fileRemovals[k]);
    }
    RemoveEachOfFilter(files, AtPath(locationPath));
  }

  class ResultPageModel {
    var foundDuplicates: seq<DuplicateResultModel>

    constructor (foundDuplicates: seq<DuplicateResultModel>)
      ensures this.foundDuplicates == foundDuplicates
    {
      this.foundDuplicates := foundDuplicates;
    }

    /** `FlattenFoundDuplicates`. */
    function FlattenFoundDuplicates(): seq<string>
      reads this
    {
      Flattened(foundDuplicates)
    }

    /**
     * `RemoveFileModelFromModel`: strip every group of the files at
     * `locationPath`, collecting the groups left empty, then `Remove` those.
     */
    method RemoveFileModelFromModel(locationPath: string)
      modifies this
      ensures foundDuplicates == Removed(old(foundDuplicates), locationPath)
    {
      var groupRemovals := StripGroups(locationPath);
      ghost var stripped := foundDuplicates;
      for k := 0 to |groupRemovals|
        invariant RemoveEach(foundDuplicates, groupRemovals[k..]) == RemoveEach(stripped, groupRemovals)
      {
        assert groupRemovals[k..][0] == groupRemovals[k] && groupRemovals[k..][1..] == groupRemovals[k + 1..];
        foundDuplicates := RemoveFirst(foundDuplicates, groupRemovals[k]);
      }
      RemoveEachOfFilter(stripped, EmptyGroup);
    }

    /** The outer loop of `RemoveFileModelFromModel`: strip each group in place and collect the empty ones. */
    method StripGroups(locationPath: string) returns (groupRemovals: seq<DuplicateResultModel>)
      modifies this
      ensures foundDuplicates == Map(old(foundDuplicates), Strip(locationPath))
      ensures groupRemovals == Filter(foundDuplicates, EmptyGroup)
    {
      var groups := foundDuplicates;
      ghost var original := groups;
      groupRemovals := [];
      for i := 0 to |groups|
        invariant StrippedUpTo(groups, original, i, locationPath)
        invariant groupRemovals == Filter(groups[..i], EmptyGroup)
      {
        var kept := RemoveMatchingFiles(groups[i].duplicateFiles, locationPath);
        StripAdvance(groups, original, i, locationPath, DuplicateResultModel(kept));
        StripStep(groups, i, DuplicateResultModel(kept), groupRemovals);
        groups := groups[i := DuplicateResultModel(kept)];
        if |kept| == 0 {
          groupRemovals := groupRemovals + [groups[i]];
        }
      }
      StrippedAll(groups, original, locationPath);
      foundDuplicates := groups;
    }
  }

  /** The first `i` groups are stripped of `p` and the rest are as they were. */
  predicate StrippedUpTo(groups: seq<DuplicateResultModel>, original: seq<DuplicateResultModel>, i: nat, p: string) {
    |groups| == |original| && i <= |groups| &&
    (forall k :: 0 <= k < i ==> groups[k] == Stripped(original[k], p)) &&
    (forall k :: i <= k < |groups| ==> groups[k] == original[k])
  }

  /** Stripping group `i` moves the boundary one group on. */
  lemma StripAdvance(groups: seq<DuplicateResultModel>, original: seq<DuplicateResultModel>, i: nat, p: string,
                     g: DuplicateResultModel)
    requires StrippedUpTo(groups, original, i, p) && i < |groups|
    requires g == Stripped(groups[i], p)
    ensures StrippedUpTo(groups[i := g], original, i + 1, p)
  {
  }

  /** Once every group is stripped, the groups are the original ones mapped through `Strip`. */
  lemma StrippedAll(groups: seq<DuplicateResultModel>, original: seq<DuplicateResultModel>, p: string)
    requires StrippedUpTo(groups, original, |original|, p)
    ensures groups == Map(original, Strip(p)) && groups[..|groups|] == groups
  {
  }

  /** One step of `StripGroups`: replacing group `i` extends the filtered prefix by the new group when it is empty. */
  lemma StripStep(groups: seq<DuplicateResultModel>, i: nat, g: DuplicateResultModel, removals: seq<DuplicateResultModel>)
    requires i < |groups| && removals == Filter(groups[..i], EmptyGroup)
    ensures Filter(groups[i := g][..i + 1], EmptyGroup) == removals + if EmptyGroup(g) then [g] else []
  {
    assert groups[i := g][..i + 1] == groups[..i] + [g];
    FilterSnoc(groups[..i], g, EmptyGroup);
  }

  // ---------------------------------------------------------------- properties

  /** The flattening has one path per file. */
  lemma {:induction false} FlattenedCountsEveryFile(groups: seq<DuplicateResultModel>)
    ensures |Flattened(groups)| == FileCount(groups)
  {
    if groups != [] {
      FlattenedCountsEveryFile(DropLast(groups));
      FlattenMapLast(groups, GroupPaths);
    }
  }

  /** A path is in the flattening exactly when some file of some group has it. */
  lemma FlattenedMembers(groups: seq<DuplicateResultModel>, p: string)
    ensures p in Flattened(groups) <==>
      exists i, j :: 0 <= i < |groups| && 0 <= j < |groups[i].duplicateFiles| && groups[i].duplicateFiles[j].locationPath == p
  {
    var paths := Map(groups, GroupPaths);
    if p in Flattened(groups) {
      var s :| s in paths && p in s;
      var i :| 0 <= i < |paths| && paths[i] == s;
      var j :| 0 <= j < |s| && s[j] == p;
      assert groups[i].duplicateFiles[j].locationPath == p;
    }
    if exists i, j :: 0 <= i < |groups| && 0 <= j < |groups[i].duplicateFiles| && groups[i].duplicateFiles[j].locationPath == p {
      var i, j :| 0 <= i < |groups| && 0 <= j < |groups[i].duplicateFiles| && groups[i].duplicateFiles[j].locationPath == p;
      assert paths[i][j] == p;
      assert paths[i] in paths;
    }
  }

  function OtherThan(p: string): string -> bool {
    (q: string) => q != p
  }

  /** The paths of a group's remaining files are its paths other than `p`. */
  lemma {:induction false} StrippedPaths(files: seq<FileModel>, p: string)
    ensures Map(Filter(files, Not(AtPath(p))), LocationPathOf) == Filter(Map(files, LocationPathOf), OtherThan(p))
  {
    if files != [] {
      var d, f := DropLast(files), Last(files);
      StrippedPaths(d, p);
      var m := Map(files, LocationPathOf);
      assert DropLast(m) == Map(d, LocationPathOf) && Last(m) == f.locationPath;
      var kept := Filter(d, Not(AtPath(p)));
      if f.locationPath != p {
        var km := Map(kept + [f], LocationPathOf);
        assert DropLast(kept + [f]) == kept && Last(kept + [f]) == f;
      }
    }
  }

  lemma MapConcat<T, U>(a: seq<T>, b: seq<T>, f: T -> U)
    ensures Map(a + b, f) == Map(a, f) + Map(b, f)
  {
    var m := Map(a + b, f);
    assert forall i :: 0 <= i < |a| ==> m[i] == f(a[i]);
    assert forall i :: |a| <= i < |a| + |b| ==> m[i] == f(b[i - |a|]);
  }

  /** One more group adds its paths at the end of the flattening. */
  lemma FlattenedSnoc(groups: seq<DuplicateResultModel>, g: DuplicateResultModel)
    ensures Flattened(groups + [g]) == Flattened(groups) + GroupPaths(g)
  {
    assert DropLast(groups + [g]) == groups && Last(groups + [g]) == g;
    FlattenMapLast(groups + [g], GroupPaths);
  }

  /** Removing a path from one more group adds that group's remaining paths at the end. */
  lemma RemovedSnoc(groups: seq<DuplicateResultModel>, g: DuplicateResultModel, p: string)
    ensures Flattened(Removed(groups + [g], p)) == Flattened(Removed(groups, p)) + GroupPaths(Stripped(g, p))
  {
    var s := Stripped(g, p);
    var md := Map(groups, Strip(p));
    assert Map(groups + [g], Strip(p)) == md + [s] by {
      assert DropLast(groups + [g]) == groups && Last(groups + [g]) == g;
      assert Strip(p)(g) == s;
    }
    FilterSnoc(md, s, Not(EmptyGroup));
    assert Removed(groups + [g], p) == Filter(md, Not(EmptyGroup)) + if !EmptyGroup(s) then [s] else [];
    if EmptyGroup(s) {
      assert GroupPaths(s) == [];
      assert Removed(groups + [g], p) == Removed(groups, p);
      assert Flattened(Removed(groups, p)) + [] == Flattened(Removed(groups, p));
    } else {
      FlattenedSnoc(Filter(md, Not(EmptyGroup)), s);
    }
  }

  /**
   * Removing a path from the model removes exactly that path from the
   * flattening and keeps every other path in its order.
   */
  lemma {:induction false} FlattenAfterRemoval(groups: seq<DuplicateResultModel>, p: string)
    ensures Flattened(Removed(groups, p)) == Filter(Flattened(groups), OtherThan(p))
  {
    if groups != [] {
      var d, g := DropLast(groups), Last(groups);
      assert groups == d + [g];
      FlattenAfterRemoval(d, p);
      RemovedSnoc(d, g, p);
      StrippedPaths(g.duplicateFiles, p);
      FlattenedSnoc(d, g);
      FilterConcat(Flattened(d), GroupPaths(g), OtherThan(p));
    }
  }

  /** A group left by a removal is a stripped group that still has files. */
  lemma RemovedMember(groups: seq<DuplicateResultModel>, p: string, x: DuplicateResultModel)
    requires x in Removed(groups, p)
    ensures |x.duplicateFiles| > 0 && forall f :: f in x.duplicateFiles ==> f.locationPath != p
  {
    var m := Map(groups, Strip(p));
    assert x in m && Not(EmptyGroup)(x);
    var k :| 0 <= k < |m| && m[k] == x;
    assert x == Stripped(groups[k], p);
  }

  /** After a removal no file has the path and no group is empty. */
  lemma RemovedLeavesNoMatch(groups: seq<DuplicateResultModel>, p: string)
    ensures forall i, j :: 0 <= i < |Removed(groups, p)| && 0 <= j < |Removed(groups, p)[i].duplicateFiles| ==>
      Removed(groups, p)[i].duplicateFiles[j].locationPath != p
    ensures forall i :: 0 <= i < |Removed(groups, p)| ==> |Removed(groups, p)[i].duplicateFiles| > 0
  {
    var r := Removed(groups, p);
    forall i | 0 <= i < |r|
      ensures |r[i].duplicateFiles| > 0
      ensures forall j :: 0 <= j < |r[i].duplicateFiles| ==> r[i].duplicateFiles[j].locationPath != p
    {
      assert r[i] in r;
      RemovedMember(groups, p, r[i]);
    }
  }

  /** A path that no file has leaves every non-empty group as it was and drops the empty ones. */
  lemma UnmatchedPathKeepsGroups(groups: seq<DuplicateResultModel>, p: string)
    requires forall i, j :: 0 <= i < |groups| && 0 <= j < |groups[i].duplicateFiles| ==>
      groups[i].duplicateFiles[j].locationPath != p
    ensures Removed(groups, p) == Filter(groups, Not(EmptyGroup))
  {
    assert Map(groups, Strip(p)) == groups by {
      forall i | 0 <= i < |groups|
        ensures Strip(p)(groups[i]) == groups[i]
      {
        FilterKeepsAll(groups[i].duplicateFiles, Not(AtPath(p)));
      }
    }
  }
}
