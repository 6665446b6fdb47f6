/** `ScanResult`: one row of the result page, compared by file path ignoring case. */
module ScanResults {
  import opened Wrappers
  import opened Strings
  import Seqs
  import HashComparer = ScannedFileHashComparer

  /**
   * A row: nullable path, hash, selection flag and the background colour's
   * name, which the result page assigns.
   */
  datatype ScanResult = ScanResult(filePath: Option<string>, hash: HashComparer.ByteArray, isSelected: bool, background: string)

  /**
   * `Equals(ScanResult other)`: a null `other` is never equal; otherwise the
   * file paths are compared ignoring case, two null paths being equal. Hash,
   * selection and colour play no part.
   */
  predicate Equals(self: ScanResult, other: Option<ScanResult>) {
    match other
    case None => false
    case Some(o) => NullableEqualsIgnoreCase(self.filePath, o.filePath)
  }

  /** `GetHashCode` as written: 0 for a null path, otherwise the case-sensitive `string.GetHashCode` of the path. */
  function GetHashCode(self: ScanResult, stringHash: string -> int): int {
    match self.filePath
    case None => 0
    case Some(p) => stringHash(p)
  }

  /** `GetHashCode` keyed on the upper-cased path, so that it agrees with `Equals`. */
  function GetHashCodeIgnoringCase(self: ScanResult, stringHash: string -> int): int {
    match self.filePath
    case None => 0
    case Some(p) => stringHash(Seqs.Map(p, ToUpper))
  }

  /** `ToString`: the file path itself, null included. */
  function ToString(self: ScanResult): Option<string> {
    self.filePath
  }

  // ---------------------------------------------------------------- properties

  /** Two rows are equal exactly when their paths are equal ignoring case; null is never equal. */
  lemma EqualsIffPathsIgnoringCase(a: ScanResult, b: ScanResult)
    ensures !Equals(a, None)
    ensures Equals(a, Some(b)) <==>
      (a.filePath == None && b.filePath == None) ||
      (a.filePath.Some? && b.filePath.Some? && EqualsIgnoreCase(a.filePath.value, b.filePath.value))
  {
  }

  /** Rows that differ only in hash, selection or colour are equal. */
  lemma OtherFieldsIgnored(a: ScanResult, hash: HashComparer.ByteArray, isSelected: bool, background: string)
    ensures Equals(a, Some(ScanResult(a.filePath, hash, isSelected, background)))
  {
    if a.filePath.Some? {
      EqualsIgnoreCaseIsEquivalence(a.filePath.value, a.filePath.value, a.filePath.value);
    }
  }

  /** Equality is reflexive, symmetric and transitive. */
  lemma EqualsIsEquivalence(a: ScanResult, b: ScanResult, c: ScanResult)
    ensures Equals(a, Some(a))
    ensures Equals(a, Some(b)) ==> Equals(b, Some(a))
    ensures Equals(a, Some(b)) && Equals(b, Some(c)) ==> Equals(a, Some(c))
  {
    if a.filePath.Some? && b.filePath.Some? && c.filePath.Some? {
      EqualsIgnoreCaseIsEquivalence(a.filePath.value, b.filePath.value, c.filePath.value);
    } else if a.filePath.Some? {
      EqualsIgnoreCaseIsEquivalence(a.filePath.value, a.filePath.value, a.filePath.value);
    }
  }

  /** A null path hashes to 0 and prints as null; a path prints as itself. */
  lemma NullPathHashesToZero(a: ScanResult, stringHash: string -> int)
    ensures a.filePath == None ==> GetHashCode(a, stringHash) == 0 && GetHashCodeIgnoringCase(a, stringHash) == 0
    ensures ToString(a) == a.filePath
  {
  }

  /** The case-insensitive hash code agrees with `Equals`, whatever the string hash. */
  lemma EqualResultsHashAlike(a: ScanResult, b: ScanResult, stringHash: string -> int)
    requires Equals(a, Some(b))
    ensures GetHashCodeIgnoringCase(a, stringHash) == GetHashCodeIgnoringCase(b, stringHash)
  {
  }

  /**
   * The hash code as written does not: rows for `C:\Foo` and `c:\FOO` are
   * equal, yet their hash codes differ under any string hash that tells the
   * two strings apart.
   */
  lemma HashCodeDisagreesWithEquals(stringHash: string -> int, hash: HashComparer.ByteArray)
    requires stringHash("C:\\Foo") != stringHash("c:\\FOO")
    ensures var a, b := ScanResult(Some("C:\\Foo"), hash, false, "Transparent"),
                        ScanResult(Some("c:\\FOO"), hash, false, "Transparent");
      Equals(a, Some(b)) && GetHashCode(a, stringHash) != GetHashCode(b, stringHash)
  {
    EqualsIgnoreCaseExample();
  }
}
