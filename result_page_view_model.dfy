/**
 * `ResultPageViewModel`: turns the store's hash-ordered duplicate list into
 * result rows with alternating background bands, filters rows by the search
 * text and enables the preview and recycle buttons.
 */
module ResultPageViewModels {
  import opened Wrappers
  import opened Seqs
  import opened Strings
  import HashComparer = ScannedFileHashComparer
  import opened ScannedFiles
  import opened ScanResults

  /** `BackgroundColor`: `Transparent = 0`, `DarkGray = 1`. */
  datatype BackgroundColor = Transparent | DarkGray

  function Ordinal(c: BackgroundColor): int {
    if c == Transparent then 0 else 1
  }

  /** `color = 1 - color`: the other of the two colours. */
  function Flip(c: BackgroundColor): (r: BackgroundColor)
    ensures Ordinal(r) == 1 - Ordinal(c)
    ensures r != c
  {
    if c == Transparent then DarkGray else Transparent
  }

  /** `color.ToString()`: the enum member's name. */
  function ColorName(c: BackgroundColor): (name: string)
    ensures name == "Transparent" || name == "DarkGray"
    ensures c == Transparent <==> name == "Transparent"
  {
    if c == Transparent then "Transparent" else "DarkGray"
  }

  /** One loop step: the colour flips when there is a previous hash and the comparer tells it apart from this one. */
  function NextColor(color: BackgroundColor, previousHash: HashComparer.ByteArray, hash: HashComparer.ByteArray): BackgroundColor {
    if previousHash != HashComparer.Null && !HashComparer.Equals(previousHash, hash) then Flip(color) else color
  }

  /**
   * The colour each file of one `AddScannedFiles` call gets. The loop starts
   * from `Transparent` with no previous hash, and each file's hash becomes the
   * previous hash of the next.
   */
  function Colors(files: seq<ScannedFile>): (r: seq<BackgroundColor>)
    ensures |r| == |files|
  {
    if files == [] then []
    else
      var d := DropLast(files);
      var c := Colors(d);
      if d == [] then [NextColor(Transparent, HashComparer.Null, Last(files).hash)]
      else c + [NextColor(Last(c), Last(d).hash, Last(files).hash)]
  }

  /** The row for one file: its path and hash, unselected, with the band's colour name. */
  function Row(f: ScannedFile, c: BackgroundColor): ScanResult {
    ScanResult(Some(f.path), f.hash, false, ColorName(c))
  }

  /** The rows one `AddScannedFiles` call appends, in input order. */
  function Results(files: seq<ScannedFile>): seq<ScanResult> {
    if files == [] then [] else Results(DropLast(files)) + [Row(Last(files), Last(Colors(files)))]
  }

  /**
   * `Filter`: the new `Accepted` of the filter event. An item that is not a
   * `ScanResult` (`None`) is rejected, and so is a row whose non-null path
   * does not contain the search text; otherwise `Accepted` is left as it was.
   */
  function Filter(item: Option<ScanResult>, searchFilter: string, accepted: bool): (r: bool)
    ensures r ==> accepted
    ensures item.None? ==> !r
    ensures item.Some? && item.value.filePath.Some? && !Contains(item.value.filePath.value, searchFilter) ==> !r
    ensures item.Some? && (item.value.filePath.None? || Contains(item.value.filePath.value, searchFilter)) ==> r == accepted
  {
    match item
    case None => false
    case Some(src) =>
      if src.filePath.Some? && !Contains(src.filePath.value, searchFilter) then false else accepted
  }

  /**
   * Where `AddScannedFiles` stands after the first `i` files: the previous
   * hash is the last file's (none before the first) and the colour is the
   * last band.
   */
  predicate Banded(files: seq<ScannedFile>, i: nat, previousHash: HashComparer.ByteArray, color: BackgroundColor)
    requires i <= |files|
  {
    if i == 0 then previousHash == HashComparer.Null && color == Transparent
    else previousHash == files[i - 1].hash && color == Last(Colors(files[..i]))
  }

  /**
   * One step of `AddScannedFiles`: the file at `i` gets the colour that
   * follows the band of the files before it, and its row follows theirs.
   */
  lemma RowStep(rows: seq<ScanResult>, files: seq<ScannedFile>, i: nat, previousHash: HashComparer.ByteArray, color: BackgroundColor)
    requires i < |files| && Banded(files, i, previousHash, color)
    ensures var next := NextColor(color, previousHash, files[i].hash);
      Banded(files, i + 1, files[i].hash, next) &&
      rows + Results(files[..i]) + [Row(files[i], next)] == rows + Results(files[..i + 1])
  {
    var p := files[..i + 1];
    assert DropLast(p) == files[..i] && Last(p) == files[i];
    assert i > 0 ==> Last(files[..i]) == files[i - 1];
  }

  class ResultPageViewModel {
    var duplicates: seq<ScanResult>
    var previewEnabled: bool
    var recycleEnabled: bool

    /** A fresh page: no rows, Recycle created enabled, Preview created disabled. */
    constructor ()
      ensures duplicates == [] && recycleEnabled && !previewEnabled
    {
      duplicates := [];
      recycleEnabled := true;
      previewEnabled := false;
    }

    /** `AddScannedFiles`: append one banded row per file, in order. */
    method AddScannedFiles(scannedFiles: seq<ScannedFile>)
      modifies this
      ensures duplicates == old(duplicates) + Results(scannedFiles)
      ensures previewEnabled == old(previewEnabled) && recycleEnabled == old(recycleEnabled)
    {
      var previousHash := HashComparer.Null;
      var color := Transparent;
      for i := 0 to |scannedFiles|
        invariant duplicates == old(duplicates) + Results(scannedFiles[..i])
        invariant previewEnabled == old(previewEnabled) && recycleEnabled == old(recycleEnabled)
        invariant Banded(scannedFiles, i, previousHash, color)
      {
        var scannedFile := scannedFiles[i];
        RowStep(old(duplicates), scannedFiles, i, previousHash, color);
        if previousHash != HashComparer.Null && !HashComparer.Equals(previousHash, scannedFile.hash) {
          color := Flip(color);
        }
        var scanResult := ScanResult(Some(scannedFile.path), scannedFile.hash, false, ColorName(color));
        duplicates := duplicates + [scanResult];
        previousHash := scannedFile.hash;
      }
      assert scannedFiles[..|scannedFiles|] == scannedFiles;
    }

    /** `ToggleButtons`: rows present enable both buttons; nothing here ever disables them. */
    method ToggleButtons()
      modifies this
      ensures duplicates == old(duplicates)
      ensures |duplicates| > 0 ==> previewEnabled && recycleEnabled
      ensures |duplicates| == 0 ==> previewEnabled == old(previewEnabled) && recycleEnabled == old(recycleEnabled)
    {
      if |duplicates| > 0 {
        previewEnabled := true;
        recycleEnabled := true;
      }
    }
  }

  // ---------------------------------------------------------------- properties

  /** The colours of a prefix are the prefix of the colours: later files never recolour earlier ones. */
  lemma {:induction false} ColorsPrefix(files: seq<ScannedFile>, n: nat)
    requires n <= |files|
    ensures Colors(files[..n]) == Colors(files)[..n]
    decreases |files|
  {
    if n < |files| {
      var d := DropLast(files);
      assert files[..n] == d[..n];
      ColorsPrefix(d, n);
      assert Colors(files)[..|d|] == Colors(d);
    } else {
      assert files[..n] == files;
    }
  }

  /** The first file of a call is always `Transparent`. */
  lemma {:induction false} FirstColorTransparent(files: seq<ScannedFile>)
    requires files != []
    ensures Colors(files)[0] == Transparent
  {
    ColorsPrefix(files, 1);
    assert DropLast(files[..1]) == [];
  }

  /**
   * The banding rule: each later file takes the previous file's colour,
   * flipped exactly when the previous hash is non-null and differs by
   * content from its own.
   */
  lemma {:induction false} ColorStep(files: seq<ScannedFile>, i: int)
    requires 0 < i < |files|
    ensures Colors(files)[i] == if files[i - 1].hash != HashComparer.Null && files[i - 1].hash != files[i].hash
                                then Flip(Colors(files)[i - 1]) else Colors(files)[i - 1]
  {
    var p := files[..i + 1];
    ColorsPrefix(files, i + 1);
    ColorsPrefix(files, i);
    assert DropLast(p) == files[..i];
    assert Last(p) == files[i] && Last(DropLast(p)) == files[i - 1];
    assert Colors(p) == Colors(files[..i]) + [NextColor(Last(Colors(files[..i])), files[i - 1].hash, files[i].hash)];
  }

  /** Neighbouring files with the same hash share a band. */
  lemma {:induction false} EqualHashesShareColor(files: seq<ScannedFile>, i: nat)
    requires 0 < i < |files| && files[i - 1].hash == files[i].hash
    ensures Colors(files)[i] == Colors(files)[i - 1]
  {
    ColorStep(files, i);
  }

  /** Neighbouring non-null hashes that differ put the files in different bands. */
  lemma {:induction false} DifferentHashesFlipColor(files: seq<ScannedFile>, i: nat)
    requires 0 < i < |files| && files[i - 1].hash != HashComparer.Null && files[i - 1].hash != files[i].hash
    ensures Colors(files)[i] != Colors(files)[i - 1]
  {
    ColorStep(files, i);
  }

  /** A null hash is never compared, so the file after it keeps the band whatever its hash. */
  lemma {:induction false} NullHashKeepsColor(files: seq<ScannedFile>, i: nat)
    requires 0 < i < |files| && files[i - 1].hash == HashComparer.Null
    ensures Colors(files)[i] == Colors(files)[i - 1]
  {
    ColorStep(files, i);
  }

  /** One row per file, in order, copying path and hash, unselected, coloured by its band. */
  lemma {:induction false} ResultsRows(files: seq<ScannedFile>)
    ensures |Results(files)| == |files|
    ensures forall i :: 0 <= i < |files| ==> Results(files)[i] == Row(files[i], Colors(files)[i])
  {
    if files != [] {
      var d := DropLast(files);
      ResultsRows(d);
      ColorsPrefix(files, |d|);
      assert files[..|d|] == d;
      var r, c := Results(files), Colors(files);
      assert r == Results(d) + [Row(Last(files), Last(c))];
      forall i | 0 <= i < |files|
        ensures r[i] == Row(files[i], c[i])
      {
        if i < |d| {
          assert r[i] == Results(d)[i] && files[i] == d[i] && c[i] == Colors(d)[i];
        } else {
          assert r[i] == Row(Last(files), Last(c));
        }
      }
    }
  }

  /**
   * The test's list: two files of each of three distinct non-null hashes,
   * grouped. The bands run Transparent, Transparent, DarkGray, DarkGray,
   * Transparent, Transparent.
   */
  lemma {:induction false} BandingExample(files: seq<ScannedFile>)
    requires |files| == 6
    requires files[0].hash == files[1].hash && files[2].hash == files[3].hash && files[4].hash == files[5].hash
    requires files[1].hash != HashComparer.Null && files[3].hash != HashComparer.Null
    requires files[1].hash != files[2].hash && files[3].hash != files[4].hash
    ensures var c := Colors(files);
      c[0] == Transparent && c[1] == Transparent && c[2] == DarkGray &&
      c[3] == DarkGray && c[4] == Transparent && c[5] == Transparent
  {
    FirstColorTransparent(files);
    ColorStep(files, 1);
    ColorStep(files, 2);
    ColorStep(files, 3);
    ColorStep(files, 4);
    ColorStep(files, 5);
  }

  /** An empty search text accepts every row that was accepted. */
  lemma EmptySearchAcceptsEveryRow(row: ScanResult, accepted: bool)
    ensures Filter(Some(row), "", accepted) == accepted
  {
    if row.filePath.Some? {
      ContainsAt(row.filePath.value, "", 0);
    }
  }

  /** The filter only ever rejects: a rejected item stays rejected whatever it is. */
  lemma FilterNeverAccepts(item: Option<ScanResult>, searchFilter: string)
    ensures !Filter(item, searchFilter, false)
  {
  }
}
