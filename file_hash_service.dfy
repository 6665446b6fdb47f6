/**
 * `FileHashService`: the content index. It holds the scanned files and the
 * scanned locations and answers the store's queries over them. The raw SQL
 * the service runs against the file table is modelled by its WHERE clause,
 * `InLocation`, over the location path that `FormatSqlQuery` substitutes.
 */
module FileHashService {
  import opened Wrappers
  import opened Seqs
  import opened Strings
  import SqlQuery
  import ScannedFiles
  import ScannedLocations

  type ScannedFile = ScannedFiles.ScannedFile
  type ScannedLocation = ScannedLocations.ScannedLocation

  /** The template both raw SQL statements share; `{0}` is the location path. */
  const DirectoryClause := "[Directory] = '{0}' OR [Directory] LIKE '{0}\\%'"

  // ---------------------------------------------------------------- the WHERE clause

  /**
   * T-SQL `CHARINDEX('\', REVERSE(path))`: the position, counted from the end
   * and starting at 1, of the last backslash of `path`; 0 when there is none.
   */
  function BackslashFromEnd(path: string): (k: nat)
    ensures k <= |path|
    ensures k == 0 <==> '\\' !in path
    ensures k > 0 ==> path[|path| - k] == '\\' && forall i :: |path| - k < i < |path| ==> path[i] != '\\'
  {
    if path == [] then 0
    else if Last(path) == '\\' then 1
    else
      assert path == DropLast(path) + [Last(path)];
      var k := BackslashFromEnd(DropLast(path));
      if k == 0 then 0 else k + 1
  }

  /** The `[Directory]` column: `LEFT(path, LEN(path) - CHARINDEX('\', REVERSE(path)))`. */
  function Directory(path: string): string {
    path[..|path| - BackslashFromEnd(path)]
  }

  /** The WHERE clause: the directory is the location, or lies below it. */
  predicate InLocation(path: string, location: string) {
    Directory(path) == location || StartsWith(Directory(path), location + "\\")
  }

  /** A path without a backslash is its own directory; otherwise the directory is the text before the last one. */
  lemma DirectoryIsBeforeLastBackslash(path: string)
    ensures '\\' !in path ==> Directory(path) == path
    ensures '\\' in path ==> exists j :: 0 <= j < |path| && path[j] == '\\' && Directory(path) == path[..j] &&
                                    forall i :: j < i < |path| ==> path[i] != '\\'
  {
    var k := BackslashFromEnd(path);
    if k > 0 {
      assert path[|path| - k] == '\\';
    }
  }

  /**
   * A file is in a location exactly when its path continues the location with
   * a backslash, or when it has no backslash and is the location itself: so
   * `C:\Foo` takes in `C:\Foo\Bar\x` but never `C:\FooBar\x`.
   */
  lemma InLocationIff(path: string, location: string)
    ensures InLocation(path, location) <==>
      StartsWith(path, location + "\\") || ('\\' !in path && path == location)
  {
    var l := location + "\\";
    DirectoryIsBeforeLastBackslash(path);
    if '\\' in path {
      var j :| 0 <= j < |path| && path[j] == '\\' && Directory(path) == path[..j] &&
        forall i :: j < i < |path| ==> path[i] != '\\';
      if StartsWith(path, l) {
        assert path[|location|] == '\\';
        assert |location| <= j;
        if j == |location| {
          assert path[..j] == location;
        } else {
          assert path[..j][..|l|] == l;
        }
      }
      if InLocation(path, location) {
        if path[..j] == location {
          assert path[..|l|] == l;
        } else {
          assert path[..|l|] == path[..j][..|l|];
        }
      }
    }
  }

  // ---------------------------------------------------------------- the record sets

  /** The two record sets. */
  datatype Index = Index(files: seq<ScannedFile>, locations: seq<ScannedLocation>)

  predicate ContainsFile(files: seq<ScannedFile>, f: ScannedFile) {
    exists i :: 0 <= i < |files| && ScannedFiles.Equals(files[i], f)
  }

  predicate ContainsLocation(locations: seq<ScannedLocation>, l: ScannedLocation) {
    exists i :: 0 <= i < |locations| && ScannedLocations.Equals(locations[i], l)
  }

  /** `InsertScannedFileAsync`: the file is added unless an equal one is stored. */
  function InsertFile(files: seq<ScannedFile>, f: ScannedFile): seq<ScannedFile> {
    if ContainsFile(files, f) then files else files + [f]
  }

  /** `InsertScannedLocationAsync`: the location is added unless one with its path is stored. */
  function InsertLocation(locations: seq<ScannedLocation>, l: ScannedLocation): seq<ScannedLocation> {
    if ContainsLocation(locations, l) then locations else locations + [l]
  }

  /** No two stored locations share a path. */
  predicate UniquePaths(locations: seq<ScannedLocation>) {
    forall i, j :: 0 <= i < j < |locations| ==> locations[i].path != locations[j].path
  }

  function FilePaths(files: seq<ScannedFile>): seq<string> {
    Map(files, (f: ScannedFile) => f.path)
  }

  function LocationPaths(locations: seq<ScannedLocation>): seq<string> {
    Map(locations, (l: ScannedLocation) => l.path)
  }

  /** The paths of the files the WHERE clause selects for a (trimmed) location. */
  function PathsIn(files: seq<ScannedFile>, location: string): seq<string> {
    FilePaths(Filter(files, Inside(location)))
  }

  function Inside(location: string): ScannedFile -> bool {
    (f: ScannedFile) => InLocation(f.path, location)
  }

  /**
   * Running one raw statement for `location`: `FormatSqlQuery` refuses a
   * short path and trims the rest, which is pasted between single quotes. A
   * quote in the trimmed path closes the literal early and the database
   * rejects the statement. On success the result is the trimmed location.
   */
  function Statement(location: string): (r: Result<string>)
    ensures r.Success? <==> Valid(location)
    ensures r.Success? ==> r.value == SqlQuery.TrimEnd(location, '\\')
    ensures |location| < 3 ==> r == Failure(ArgumentException)
    ensures |location| >= 3 && !Valid(location) ==> r == Failure(SqlException)
  {
    match SqlQuery.FormatSqlQuery(DirectoryClause, location)
    case Failure(e) => Failure(e)
    case Success(_) =>
      var trimmed := SqlQuery.TrimEnd(location, '\\');
      if '\'' in trimmed then Failure(SqlException) else Success(trimmed)
  }

  /** A location path both statements accept: three characters or more, and no quote once trimmed. */
  predicate Valid(location: string) {
    |location| >= 3 && '\'' !in SqlQuery.TrimEnd(location, '\\')
  }

  /** `ListScannedFilePathsAsync`: all paths for null, otherwise one query per location. */
  function ListFilePaths(files: seq<ScannedFile>, locationPaths: Option<seq<string>>): Result<seq<string>> {
    match locationPaths
    case None => Success(FilePaths(files))
    case Some(ls) => ListFilePathsIn(files, ls)
  }

  /** The concatenated query results for the locations `ls`, in order; an invalid path stops it. */
  function ListFilePathsIn(files: seq<ScannedFile>, ls: seq<string>): Result<seq<string>> {
    if ls == [] then Success([])
    else
      match ListFilePathsIn(files, DropLast(ls))
      case Failure(e) => Failure(e)
      case Success(paths) =>
        match Statement(Last(ls))
        case Failure(e) => Failure(e)
        case Success(location) => Success(paths + PathsIn(files, location))
  }

  /** One more location in the list: its query result is appended, or its error returned. */
  lemma ListFilePathsInStep(files: seq<ScannedFile>, ls: seq<string>, i: nat, paths: seq<string>)
    requires i < |ls| && ListFilePathsIn(files, ls[..i]) == Success(paths)
    ensures ListFilePathsIn(files, ls[..i + 1]) ==
      if !Valid(ls[i]) then Failure(Statement(ls[i]).error)
      else Success(paths + PathsIn(files, SqlQuery.TrimEnd(ls[i], '\\')))
  {
    assert DropLast(ls[..i + 1]) == ls[..i];
    assert Last(ls[..i + 1]) == ls[i];
  }

  /** A failing location fails the whole list, whatever follows it. */
  lemma {:induction false} ListFilePathsInFailureSticks(files: seq<ScannedFile>, ls: seq<string>, n: nat)
    requires n <= |ls| && ListFilePathsIn(files, ls[..n]).Failure?
    ensures ListFilePathsIn(files, ls) == ListFilePathsIn(files, ls[..n])
    decreases |ls| - n
  {
    if n < |ls| {
      assert DropLast(ls[..n + 1]) == ls[..n];
      ListFilePathsInFailureSticks(files, ls, n + 1);
    } else {
      assert ls[..n] == ls;
    }
  }

  /** The files one DELETE command leaves: those outside the (trimmed) location. */
  function OutsideLocation(files: seq<ScannedFile>, location: string): seq<ScannedFile> {
    Filter(files, Outside(location))
  }

  function Outside(location: string): ScannedFile -> bool {
    (f: ScannedFile) => !InLocation(f.path, location)
  }

  /**
   * The DELETE commands of `PurgeScannedLocationsAsync`, one per location, in
   * order. Each runs as soon as it is formatted, so an invalid path (too short,
   * or holding a quote) stops the run with the earlier deletions already done.
   */
  function PurgeFilesIn(files: seq<ScannedFile>, ls: seq<string>): (seq<ScannedFile>, Outcome) {
    if ls == [] then (files, Pass)
    else
      var before := PurgeFilesIn(files, DropLast(ls));
      if before.1.Fail? then before
      else
        match Statement(Last(ls))
        case Failure(e) => (before.0, Fail(e))
        case Success(location) => (OutsideLocation(before.0, location), Pass)
  }

  /** One more location in the purge list: its DELETE runs, or its error stops the run. */
  lemma PurgeFilesInStep(files: seq<ScannedFile>, ls: seq<string>, i: nat, kept: seq<ScannedFile>)
    requires i < |ls| && PurgeFilesIn(files, ls[..i]) == (kept, Pass)
    ensures PurgeFilesIn(files, ls[..i + 1]) ==
      if !Valid(ls[i]) then (kept, Fail(Statement(ls[i]).error))
      else (OutsideLocation(kept, SqlQuery.TrimEnd(ls[i], '\\')), Pass)
  {
    assert DropLast(ls[..i + 1]) == ls[..i];
    assert Last(ls[..i + 1]) == ls[i];
  }

  /** A failing DELETE stops the run: later locations change nothing. */
  lemma {:induction false} PurgeFilesInFailureSticks(files: seq<ScannedFile>, ls: seq<string>, n: nat)
    requires n <= |ls| && PurgeFilesIn(files, ls[..n]).1.Fail?
    ensures PurgeFilesIn(files, ls) == PurgeFilesIn(files, ls[..n])
    decreases |ls| - n
  {
    if n < |ls| {
      assert DropLast(ls[..n + 1]) == ls[..n];
      PurgeFilesInFailureSticks(files, ls, n + 1);
    } else {
      assert ls[..n] == ls;
    }
  }

  /**
   * `PurgeScannedLocationsAsync`: null empties both sets; a list deletes the
   * files in its locations and then the locations whose path it lists.
   */
  function Purge(ix: Index, locationPaths: Option<seq<string>>): (Index, Outcome) {
    match locationPaths
    case None => (Index([], []), Pass)
    case Some(ls) =>
      var purged := PurgeFilesIn(ix.files, ls);
      if purged.1.Fail? then (Index(purged.0, ix.locations), purged.1)
      else (Index(purged.0, Filter(ix.locations, Unlisted(ls))), Pass)
  }

  /** The locations a purge keeps: those whose path it does not list. */
  function Unlisted(ls: seq<string>): ScannedLocation -> bool {
    (l: ScannedLocation) => l.path !in ls
  }

  /** `RemoveScannedFilesByFilePathAsync`: the files whose path is not exactly `path`. */
  function RemoveByPath(files: seq<ScannedFile>, path: string): seq<ScannedFile> {
    Filter(files, Elsewhere(path))
  }

  /** The records whose path is not exactly `path`. */
  function Elsewhere(path: string): ScannedFile -> bool {
    (f: ScannedFile) => f.path != path
  }

  /** The grouping key of the duplicate search: the hash, compared by content. */
  function HashKey(f: ScannedFile): ScannedFiles.HashComparer.ByteArray {
    f.hash
  }

  /** `ReturnDuplicatesAsync`: the groups of equal hashes with more than one member, flattened. */
  function Duplicates(files: seq<ScannedFile>): seq<ScannedFile> {
    RepeatedKeyMembers(files, HashKey)
  }

  /** The number of stored files whose hash is `hash`. */
  function HashCount(files: seq<ScannedFile>, hash: ScannedFiles.HashComparer.ByteArray): nat {
    |KeyGroup(files, HashKey, hash)|
  }

  // ---------------------------------------------------------------- properties

  /** Storing an equal file again changes nothing; the inserted file is then stored. */
  lemma InsertFileIdempotent(files: seq<ScannedFile>, f: ScannedFile)
    ensures ContainsFile(InsertFile(files, f), f)
    ensures InsertFile(InsertFile(files, f), f) == InsertFile(files, f)
    ensures ContainsFile(files, f) <==> f in files
  {
    if !ContainsFile(files, f) {
      assert InsertFile(files, f)[|files|] == f;
    }
  }

  /** Inserting through `InsertFile` never stores the same record twice. */
  lemma InsertFileKeepsNoDuplicates(files: seq<ScannedFile>, f: ScannedFile)
    requires NoDuplicates(files)
    ensures NoDuplicates(InsertFile(files, f))
    ensures forall g :: g in InsertFile(files, f) <==> g in files || g == f
  {
    InsertFileIdempotent(files, f);
  }

  /** Inserting through `InsertLocation` keeps the location paths unique. */
  lemma InsertLocationKeepsUniquePaths(locations: seq<ScannedLocation>, l: ScannedLocation)
    requires UniquePaths(locations)
    ensures UniquePaths(InsertLocation(locations, l))
    ensures l.path in LocationPaths(InsertLocation(locations, l))
    ensures |InsertLocation(locations, l)| == if ContainsLocation(locations, l) then |locations| else |locations| + 1
  {
    var r := InsertLocation(locations, l);
    if ContainsLocation(locations, l) {
      var i :| 0 <= i < |locations| && ScannedLocations.Equals(locations[i], l);
      assert LocationPaths(r)[i] == l.path;
    } else {
      assert LocationPaths(r)[|locations|] == l.path;
    }
  }

  /** A list of locations is valid when every path is. */
  predicate AllValid(ls: seq<string>) {
    forall i :: 0 <= i < |ls| ==> Valid(ls[i])
  }

  lemma AllValidLast(ls: seq<string>)
    requires |ls| > 0
    ensures AllValid(ls) <==> AllValid(DropLast(ls)) && Valid(Last(ls))
  {
    assert forall i :: 0 <= i < |ls| - 1 ==> DropLast(ls)[i] == ls[i];
  }

  /** The position of the first invalid path. */
  function FirstInvalid(ls: seq<string>): (n: nat)
    requires !AllValid(ls)
    ensures n < |ls| && !Valid(ls[n]) && AllValid(ls[..n])
  {
    if !Valid(ls[0]) then 0
    else
      assert !AllValid(ls[1..]) by {
        var i :| 0 <= i < |ls| && !Valid(ls[i]);
        assert ls[1..][i - 1] == ls[i];
      }
      var m := FirstInvalid(ls[1..]);
      assert forall i :: 0 <= i < m + 1 ==> ls[..m + 1][i] == ls[i];
      assert forall i :: 1 <= i < m + 1 ==> ls[i] == ls[1..][..m][i - 1];
      m + 1
  }

  /** The query result for one location: the paths of the files it selects. */
  function PathsForLocation(files: seq<ScannedFile>): string -> seq<string> {
    l => PathsIn(files, SqlQuery.TrimEnd(l, '\\'))
  }

  /**
   * The listing for a list of valid locations is the query results, one
   * location after the other; a list holding an invalid path fails at the
   * first one, with `ArgumentException` for a short path and `SqlException`
   * for a quote.
   */
  lemma ListFilePathsInIsConcatenation(files: seq<ScannedFile>, ls: seq<string>)
    ensures AllValid(ls) ==> ListFilePathsIn(files, ls) == Success(Flatten(Map(ls, PathsForLocation(files))))
    ensures !AllValid(ls) ==>
      ListFilePathsIn(files, ls) == Failure(if |ls[FirstInvalid(ls)]| < 3 then ArgumentException else SqlException)
  {
    if AllValid(ls) {
      ListFilePathsOfValid(files, ls);
    } else {
      var n := FirstInvalid(ls);
      ListFilePathsOfValid(files, ls[..n]);
      assert ls[..n][..n] == ls[..n];
      ListFilePathsInStep(files, ls, n, Flatten(Map(ls[..n], PathsForLocation(files))));
      ListFilePathsInFailureSticks(files, ls, n + 1);
    }
  }

  lemma {:induction false} ListFilePathsOfValid(files: seq<ScannedFile>, ls: seq<string>)
    requires AllValid(ls)
    ensures ListFilePathsIn(files, ls) == Success(Flatten(Map(ls, PathsForLocation(files))))
  {
    if ls != [] {
      var d, g := DropLast(ls), PathsForLocation(files);
      AllValidLast(ls);
      ListFilePathsOfValid(files, d);
      FlattenMapLast(ls, g);
      assert Statement(Last(ls)) == Success(SqlQuery.TrimEnd(Last(ls), '\\'));
    }
  }

  /** The files a list of locations leaves: those in none of them. */
  predicate OutsideAll(path: string, ls: seq<string>) {
    forall i :: 0 <= i < |ls| ==> !InLocation(path, SqlQuery.TrimEnd(ls[i], '\\'))
  }

  function OutsideEvery(ls: seq<string>): ScannedFile -> bool {
    (f: ScannedFile) => OutsideAll(f.path, ls)
  }

  lemma OutsideAllLast(path: string, ls: seq<string>)
    requires |ls| > 0
    ensures OutsideAll(path, ls) <==>
      OutsideAll(path, DropLast(ls)) && !InLocation(path, SqlQuery.TrimEnd(Last(ls), '\\'))
  {
    assert forall i :: 0 <= i < |ls| - 1 ==> DropLast(ls)[i] == ls[i];
  }

  /** With every path valid, the purge keeps exactly the files outside all the locations, in order. */
  lemma {:induction false} PurgeFilesInKeepsOutside(files: seq<ScannedFile>, ls: seq<string>)
    requires AllValid(ls)
    ensures PurgeFilesIn(files, ls) == (Filter(files, OutsideEvery(ls)), Pass)
  {
    var all := OutsideEvery(ls);
    if ls == [] {
      FilterKeepsAll(files, all);
    } else {
      var d, t := DropLast(ls), SqlQuery.TrimEnd(Last(ls), '\\');
      var before, here := OutsideEvery(d), Outside(t);
      AllValidLast(ls);
      PurgeFilesInKeepsOutside(files, d);
      assert ls[..|ls| - 1] == d && ls[..|ls|] == ls;
      PurgeFilesInStep(files, ls, |ls| - 1, Filter(files, before));
      FilterFilter(files, before, here);
      forall f: ScannedFile
        ensures Both(before, here)(f) == all(f)
      {
        OutsideAllLast(f.path, ls);
      }
      FilterExtensional(files, Both(before, here), all);
    }
  }

  /**
   * A purge whose first invalid path is at `n` fails, with `ArgumentException`
   * for a short path and `SqlException` for a quote, after the DELETE commands
   * of the `n` locations before it.
   */
  lemma PurgeFilesInStopsAtFirstInvalid(files: seq<ScannedFile>, ls: seq<string>, n: nat)
    requires n < |ls| && !Valid(ls[n]) && AllValid(ls[..n])
    ensures PurgeFilesIn(files, ls) ==
      (Filter(files, OutsideEvery(ls[..n])), Fail(if |ls[n]| < 3 then ArgumentException else SqlException))
  {
    PurgeFilesInKeepsOutside(files, ls[..n]);
    PurgeFilesInStep(files, ls, n, Filter(files, OutsideEvery(ls[..n])));
    PurgeFilesInFailureSticks(files, ls, n + 1);
  }

  /** Purging forgets the purged location paths and keeps every other location. */
  lemma PurgeForgetsLocations(ix: Index, ls: seq<string>)
    requires AllValid(ls)
    ensures var r := Purge(ix, Some(ls)).0;
      (forall l :: l in r.locations <==> l in ix.locations && l.path !in ls) &&
      (forall f :: f in r.files <==> f in ix.files && OutsideAll(f.path, ls))
  {
    PurgeFilesInKeepsOutside(ix.files, ls);
  }

  /** The records whose path is exactly `path`. */
  function HasPath(path: string): ScannedFile -> bool {
    (f: ScannedFile) => f.path == path
  }

  /** `RemoveScannedFilesByFilePathAsync` reports how many records had exactly that path. */
  lemma RemoveByPathCount(files: seq<ScannedFile>, path: string)
    ensures |files| - |RemoveByPath(files, path)| == |Filter(files, HasPath(path))|
    ensures forall f :: f in RemoveByPath(files, path) <==> f in files && f.path != path
  {
    var p := HasPath(path);
    var q := Elsewhere(path);
    FilterComplementLength(files, p);
    FilterExtensional(files, x => !p(x), q);
    assert RemoveByPath(files, path) == Filter(files, q);
  }

  /** A file is reported as a duplicate exactly when another stored record has its hash. */
  lemma DuplicatesExactly(files: seq<ScannedFile>)
    ensures forall f :: f in Duplicates(files) <==> f in files && HashCount(files, f.hash) > 1
  {
    RepeatedKeyMembersExactly(files, HashKey);
  }

  // ---------------------------------------------------------------- the five-file scenario

  /** A record of the location tests: every one is named `Foobar`. */
  function Record(hash: ScannedFiles.HashComparer.ByteArray, path: string): ScannedFile {
    ScannedFiles.ScannedFile(hash, path, "Foobar")
  }

  /** The five records both location tests store. */
  function TestFiles(hash: ScannedFiles.HashComparer.ByteArray): seq<ScannedFile> {
    [Record(hash, "C:\\Foo\\Foobar"), Record(hash, "C:\\Bar\\Foobar"), Record(hash, "C:\\Foo\\Bar\\Foobar"),
     Record(hash, "C:\\Foobar\\Foobar"), Record(hash, "C:\\Foobar")]
  }

  /** A path that differs from the location followed by a backslash at some position does not. */
  lemma NotInLocationAt(path: string, location: string, k: nat)
    requires k < |path| && k <= |location| && path[k] != (location + "\\")[k] && path != location
    ensures !InLocation(path, location)
  {
    InLocationIff(path, location);
  }

  /** A path that starts with the location followed by a backslash lies in it. */
  lemma InLocationStarting(path: string, location: string)
    requires |location| < |path| && path[..|location| + 1] == location + "\\"
    ensures InLocation(path, location)
  {
    InLocationIff(path, location);
  }

  /** The files directly and further below `C:\Foo` lie in it. */
  lemma TestPathsBelowFoo()
    ensures InLocation("C:\\Foo\\Foobar", "C:\\Foo")
    ensures InLocation("C:\\Foo\\Bar\\Foobar", "C:\\Foo")
  {
    TestPathDirectlyBelowFoo();
    TestPathFurtherBelowFoo();
  }

  /** A file directly below `C:\Foo` lies in it. */
  lemma TestPathDirectlyBelowFoo()
    ensures InLocation("C:\\Foo\\Foobar", "C:\\Foo")
  {
    var path := "C:\\Foo\\Foobar";
    assert path[..7] == "C:\\Foo\\";
    InLocationStarting(path, "C:\\Foo");
  }

  /** A file in a folder below `C:\Foo` lies in it. */
  lemma TestPathFurtherBelowFoo()
    ensures InLocation("C:\\Foo\\Bar\\Foobar", "C:\\Foo")
  {
    var path := "C:\\Foo\\Bar\\Foobar";
    assert path[..7] == "C:\\Foo\\";
    InLocationStarting(path, "C:\\Foo");
  }

  /** A sibling folder does not lie in `C:\Foo`. */
  lemma TestSiblingOutsideFoo()
    ensures !InLocation("C:\\Bar\\Foobar", "C:\\Foo")
  {
    NotInLocationAt("C:\\Bar\\Foobar", "C:\\Foo", 3);
  }

  /** Names that merely start with `Foo` do not lie in `C:\Foo`. */
  lemma TestPrefixesOutsideFoo()
    ensures !InLocation("C:\\Foobar\\Foobar", "C:\\Foo")
    ensures !InLocation("C:\\Foobar", "C:\\Foo")
  {
    NotInLocationAt("C:\\Foobar\\Foobar", "C:\\Foo", 6);
    NotInLocationAt("C:\\Foobar", "C:\\Foo", 6);
  }

  /** Five records of which the first and third lie in a valid location and the others do not. */
  predicate SplitByLocation(fs: seq<ScannedFile>, location: string) {
    |fs| == 5 && |location| >= 3 && Last(location) != '\\' && '\'' !in location &&
    InLocation(fs[0].path, location) && !InLocation(fs[1].path, location) &&
    InLocation(fs[2].path, location) && !InLocation(fs[3].path, location) &&
    !InLocation(fs[4].path, location)
  }

  lemma TestFilesSplitByFoo(hash: ScannedFiles.HashComparer.ByteArray)
    ensures SplitByLocation(TestFiles(hash), "C:\\Foo")
  {
    var fs := TestFiles(hash);
    assert fs[0].path == "C:\\Foo\\Foobar" && fs[1].path == "C:\\Bar\\Foobar";
    assert fs[2].path == "C:\\Foo\\Bar\\Foobar" && fs[3].path == "C:\\Foobar\\Foobar";
    assert fs[4].path == "C:\\Foobar";
    assert forall i | 0 <= i < |"C:\\Foo"| :: "C:\\Foo"[i] != '\'';
    TestPathsBelowFoo();
    TestSiblingOutsideFoo();
    TestPrefixesOutsideFoo();
  }

  /** Listing one valid location without a trailing backslash runs its one query. */
  lemma OneLocationListed(files: seq<ScannedFile>, location: string)
    requires |location| >= 3 && Last(location) != '\\' && '\'' !in location
    ensures ListFilePaths(files, Some([location])) == Success(PathsIn(files, location))
  {
    var ls := [location];
    assert ls[..0] == [] && ls[..1] == ls;
    ListFilePathsInStep(files, ls, 0, []);
    assert ListFilePathsIn(files, ls) == Success([] + PathsIn(files, SqlQuery.TrimEnd(location, '\\')));
    SqlQuery.TrimEndKeepsUnterminated(location);
    assert [] + PathsIn(files, location) == PathsIn(files, location);
  }

  /** Purging one valid location without a trailing backslash runs its one DELETE. */
  lemma OneLocationPurged(files: seq<ScannedFile>, location: string)
    requires |location| >= 3 && Last(location) != '\\' && '\'' !in location
    ensures PurgeFilesIn(files, [location]) == (OutsideLocation(files, location), Pass)
  {
    SqlQuery.TrimEndKeepsUnterminated(location);
    assert DropLast([location]) == [] && Last([location]) == location;
  }

  /** The files of five split records that lie in the location. */
  lemma FiveRecordsInside(fs: seq<ScannedFile>, location: string)
    requires SplitByLocation(fs, location)
    ensures Filter(fs, Inside(location)) == [fs[0], fs[2]]
  {
    var p := Inside(location);
    assert fs == [fs[0], fs[1], fs[2], fs[3], fs[4]];
    assert p(fs[0]) && !p(fs[1]) && p(fs[2]) && !p(fs[3]) && !p(fs[4]);
    FilterFive(fs[0], fs[1], fs[2], fs[3], fs[4], p);
    assert [fs[0]] + [] + [fs[2]] + [] + [] == [fs[0], fs[2]];
  }

  /** The files of five split records that do not. */
  lemma FiveRecordsOutside(fs: seq<ScannedFile>, location: string)
    requires SplitByLocation(fs, location)
    ensures Filter(fs, Outside(location)) == [fs[1], fs[3], fs[4]]
  {
    var p := Outside(location);
    assert fs == [fs[0], fs[1], fs[2], fs[3], fs[4]];
    assert !p(fs[0]) && p(fs[1]) && !p(fs[2]) && p(fs[3]) && p(fs[4]);
    FilterFive(fs[0], fs[1], fs[2], fs[3], fs[4], p);
    assert [] + [fs[1]] + [] + [fs[3]] + [fs[4]] == [fs[1], fs[3], fs[4]];
  }

  /** The listing of five split records returns the first and third path. */
  lemma FiveRecordsListed(fs: seq<ScannedFile>, location: string)
    requires SplitByLocation(fs, location)
    ensures ListFilePaths(fs, Some([location])) == Success([fs[0].path, fs[2].path])
  {
    FiveRecordsInside(fs, location);
    OneLocationListed(fs, location);
    MapThree(fs[0], fs[2], fs[0], (f: ScannedFile) => f.path);
  }

  /** The purge of five split records keeps the other three. */
  lemma FiveRecordsPurged(fs: seq<ScannedFile>, location: string)
    requires SplitByLocation(fs, location)
    ensures PurgeFilesIn(fs, [location]).1 == Pass
    ensures FilePaths(PurgeFilesIn(fs, [location]).0) == [fs[1].path, fs[3].path, fs[4].path]
  {
    FiveRecordsOutside(fs, location);
    OneLocationPurged(fs, location);
    MapThree(fs[1], fs[3], fs[4], (f: ScannedFile) => f.path);
  }

  /** Listing the files under `C:\Foo` returns the two paths below it, in storage order. */
  lemma ListScenario(hash: ScannedFiles.HashComparer.ByteArray)
    ensures ListFilePaths(TestFiles(hash), Some(["C:\\Foo"])) ==
      Success(["C:\\Foo\\Foobar", "C:\\Foo\\Bar\\Foobar"])
  {
    TestFilesSplitByFoo(hash);
    FiveRecordsListed(TestFiles(hash), "C:\\Foo");
  }

  /** Purging `C:\Foo` leaves the three files outside it, in storage order. */
  lemma PurgeScenario(hash: ScannedFiles.HashComparer.ByteArray)
    ensures var r := PurgeFilesIn(TestFiles(hash), ["C:\\Foo"]);
      r.1 == Pass && FilePaths(r.0) == ["C:\\Bar\\Foobar", "C:\\Foobar\\Foobar", "C:\\Foobar"]
  {
    TestFilesSplitByFoo(hash);
    FiveRecordsPurged(TestFiles(hash), "C:\\Foo");
  }

  /** A location holding a quote breaks both statements: the listing fails with `SqlException`. */
  lemma QuotedLocationListed(files: seq<ScannedFile>)
    ensures ListFilePaths(files, Some(["C:\\it's"])) == Failure(SqlException)
  {
    var ls := ["C:\\it's"];
    assert ls[..0] == [] && ls[..1] == ls;
    assert Last(ls[0]) == 's';
    SqlQuery.TrimEndKeepsUnterminated(ls[0]);
    assert ls[0][5] == '\'';
    ListFilePathsInStep(files, ls, 0, []);
  }

  /** Purging `C:\Foo` and then a quoted location: the first DELETE has run when the second fails. */
  lemma QuotedLocationPurged(files: seq<ScannedFile>)
    ensures PurgeFilesIn(files, ["C:\\Foo", "C:\\it's"]) == (OutsideLocation(files, "C:\\Foo"), Fail(SqlException))
  {
    var ls := ["C:\\Foo", "C:\\it's"];
    assert Last(ls[0]) == 'o' && Last(ls[1]) == 's';
    SqlQuery.TrimEndKeepsUnterminated(ls[0]);
    SqlQuery.TrimEndKeepsUnterminated(ls[1]);
    assert ls[1][5] == '\'';
    assert forall i | 0 <= i < |ls[0]| :: ls[0][i] != '\'';
    assert ls[..1] == [ls[0]];
    assert AllValid(ls[..1]);
    PurgeFilesInStopsAtFirstInvalid(files, ls, 1);
    assert Filter(files, OutsideEvery(ls[..1])) == OutsideLocation(files, "C:\\Foo") by {
      forall f: ScannedFile
        ensures OutsideEvery(ls[..1])(f) == Outside("C:\\Foo")(f)
      {
      }
      FilterExtensional(files, OutsideEvery(ls[..1]), Outside("C:\\Foo"));
    }
  }

  // ---------------------------------------------------------------- the service

  class FileHashService {
    var scannedFiles: seq<ScannedFile>
    var scannedLocations: seq<ScannedLocation>

    function State(): Index
      reads this
    {
      Index(scannedFiles, scannedLocations)
    }

    constructor (files: seq<ScannedFile>, locations: seq<ScannedLocation>)
      ensures State() == Index(files, locations)
    {
      scannedFiles := files;
      scannedLocations := locations;
    }

    /** `ScannedFilesContains`: whether some stored file `Equals` the given one. */
    method ScannedFilesContains(scannedFile: ScannedFile) returns (contains: bool)
      ensures contains <==> ContainsFile(scannedFiles, scannedFile)
    {
      contains := false;
      for i := 0 to |scannedFiles|
        invariant contains <==> exists k :: 0 <= k < i && ScannedFiles.Equals(scannedFiles[k], scannedFile)
      {
        contains := contains || ScannedFiles.Equals(scannedFiles[i], scannedFile);
      }
    }

    /** `ScannedLocationsContains`: whether some stored location `Equals` the given one. */
    method ScannedLocationsContains(scannedLocation: ScannedLocation) returns (contains: bool)
      ensures contains <==> ContainsLocation(scannedLocations, scannedLocation)
    {
      contains := false;
      for i := 0 to |scannedLocations|
        invariant contains <==> exists k :: 0 <= k < i && ScannedLocations.Equals(scannedLocations[k], scannedLocation)
      {
        contains := contains || ScannedLocations.Equals(scannedLocations[i], scannedLocation);
      }
    }

    method InsertScannedFile(scannedFile: ScannedFile)
      modifies this
      ensures scannedFiles == InsertFile(old(scannedFiles), scannedFile)
      ensures scannedLocations == old(scannedLocations)
    {
      var contains := ScannedFilesContains(scannedFile);
      if !contains {
        scannedFiles := scannedFiles + [scannedFile];
      }
    }

    method InsertScannedLocation(scannedLocation: ScannedLocation)
      modifies this
      ensures scannedLocations == InsertLocation(old(scannedLocations), scannedLocation)
      ensures scannedFiles == old(scannedFiles)
    {
      var contains := ScannedLocationsContains(scannedLocation);
      if !contains {
        scannedLocations := scannedLocations + [scannedLocation];
      }
    }

    /** `ListScannedFilePathsAsync`: builds the result one location at a time. */
    method ListScannedFilePaths(locationPaths: Option<seq<string>>) returns (r: Result<seq<string>>)
      ensures r == ListFilePaths(scannedFiles, locationPaths)
    {
      if locationPaths.None? {
        return Success(FilePaths(scannedFiles));
      }
      var ls := locationPaths.value;
      var scannedFilePaths := [];
      for i := 0 to |ls|
        invariant ListFilePathsIn(scannedFiles, ls[..i]) == Success(scannedFilePaths)
      {
        ListFilePathsInStep(scannedFiles, ls, i, scannedFilePaths);
        var query := SqlQuery.FormatSqlQuery(DirectoryClause, ls[i]);
        if query.Failure? {
          ListFilePathsInFailureSticks(scannedFiles, ls, i + 1);
          return Failure(query.error);
        }
        var location := SqlQuery.TrimEnd(ls[i], '\\');
        if '\'' in location {
          ListFilePathsInFailureSticks(scannedFiles, ls, i + 1);
          return Failure(SqlException);
        }
        scannedFilePaths := scannedFilePaths + PathsIn(scannedFiles, location);
      }
      assert ls[..|ls|] == ls;
      return Success(scannedFilePaths);
    }

    /** `ListScannedLocationsAsync`: every stored location path, in storage order. */
    function ListScannedLocations(): seq<string>
      reads this
    {
      LocationPaths(scannedLocations)
    }

    method PurgeScannedLocations(locationPaths: Option<seq<string>>) returns (status: Outcome)
      modifies this
      ensures (State(), status) == Purge(old(State()), locationPaths)
    {
      if locationPaths.None? {
        scannedFiles := [];
        scannedLocations := [];
        return Pass;
      }
      var ls := locationPaths.value;
      for i := 0 to |ls|
        invariant PurgeFilesIn(old(scannedFiles), ls[..i]) == (scannedFiles, Pass)
        invariant scannedLocations == old(scannedLocations)
      {
        PurgeFilesInStep(old(scannedFiles), ls, i, scannedFiles);
        var command := SqlQuery.FormatSqlQuery(DirectoryClause, ls[i]);
        if command.Failure? {
          PurgeFilesInFailureSticks(old(scannedFiles), ls, i + 1);
          return Fail(command.error);
        }
        var location := SqlQuery.TrimEnd(ls[i], '\\');
        if '\'' in location {
          PurgeFilesInFailureSticks(old(scannedFiles), ls, i + 1);
          return Fail(SqlException);
        }
        scannedFiles := OutsideLocation(scannedFiles, location);
      }
      assert ls[..|ls|] == ls;
      scannedLocations := Filter(scannedLocations, Unlisted(ls));
      return Pass;
    }

    /** `RemoveScannedFilesByFilePathAsync`: returns the number of records removed. */
    method RemoveScannedFilesByFilePath(filePath: string) returns (count: int)
      modifies this
      ensures scannedFiles == RemoveByPath(old(scannedFiles), filePath)
      ensures scannedLocations == old(scannedLocations)
      ensures count == |old(scannedFiles)| - |scannedFiles|
    {
      var before := |scannedFiles|;
      scannedFiles := RemoveByPath(scannedFiles, filePath);
      count := before - |scannedFiles|;
    }

    /** `ReturnDuplicatesAsync`. */
    function ReturnDuplicates(): seq<ScannedFile>
      reads this
    {
      Duplicates(scannedFiles)
    }
  }
}
