/** `ScanLocation`: a root the user picked, compared by path ignoring case. */
module ScanLocations {
  import opened Wrappers
  import opened Strings
  import Seqs

  /** The path is nullable in the source. */
  datatype ScanLocation = ScanLocation(path: Option<string>)

  /**
   * `Equals(ScanLocation other)`: a null `other` is never equal; otherwise the
   * paths are compared by `string.Equals(.., InvariantCultureIgnoreCase)`,
   * under which two null paths are equal and a null and a non-null one are not.
   */
  predicate Equals(self: ScanLocation, other: Option<ScanLocation>) {
    match other
    case None => false
    case Some(o) => NullableEqualsIgnoreCase(self.path, o.path)
  }

  /** `GetHashCode` as written: 0 for a null path, otherwise the case-sensitive `string.GetHashCode` of the path. */
  function GetHashCode(self: ScanLocation, stringHash: string -> int): int {
    match self.path
    case None => 0
    case Some(p) => stringHash(p)
  }

  /** `GetHashCode` keyed on the upper-cased path, so that it agrees with `Equals`. */
  function GetHashCodeIgnoringCase(self: ScanLocation, stringHash: string -> int): int {
    match self.path
    case None => 0
    case Some(p) => stringHash(Seqs.Map(p, ToUpper))
  }

  /** `ToString`: the path itself, null included. */
  function ToString(self: ScanLocation): Option<string> {
    self.path
  }

  // ---------------------------------------------------------------- properties

  /** Two locations are equal exactly when their paths are equal ignoring case; null is never equal. */
  lemma EqualsIffPathsIgnoringCase(a: ScanLocation, b: ScanLocation)
    ensures !Equals(a, None)
    ensures Equals(a, Some(b)) <==>
      (a.path == None && b.path == None) ||
      (a.path.Some? && b.path.Some? && EqualsIgnoreCase(a.path.value, b.path.value))
  {
  }

  /** Equality is reflexive, symmetric and transitive. */
  lemma EqualsIsEquivalence(a: ScanLocation, b: ScanLocation, c: ScanLocation)
    ensures Equals(a, Some(a))
    ensures Equals(a, Some(b)) ==> Equals(b, Some(a))
    ensures Equals(a, Some(b)) && Equals(b, Some(c)) ==> Equals(a, Some(c))
  {
    if a.path.Some? && b.path.Some? && c.path.Some? {
      EqualsIgnoreCaseIsEquivalence(a.path.value, b.path.value, c.path.value);
    } else if a.path.Some? {
      EqualsIgnoreCaseIsEquivalence(a.path.value, a.path.value, a.path.value);
    }
  }

  /** A null path hashes to 0 and prints as null; a path prints as itself. */
  lemma NullPathHashesToZero(a: ScanLocation, stringHash: string -> int)
    ensures a.path == None ==> GetHashCode(a, stringHash) == 0 && GetHashCodeIgnoringCase(a, stringHash) == 0
    ensures ToString(a) == a.path
  {
  }

  /** The case-insensitive hash code agrees with `Equals`, whatever the string hash. */
  lemma EqualLocationsHashAlike(a: ScanLocation, b: ScanLocation, stringHash: string -> int)
    requires Equals(a, Some(b))
    ensures GetHashCodeIgnoringCase(a, stringHash) == GetHashCodeIgnoringCase(b, stringHash)
  {
  }

  /**
   * The hash code as written does not: `C:\Foo` and `c:\FOO` are equal, yet
   * their hash codes differ under any string hash that tells the two strings apart.
   */
  lemma HashCodeDisagreesWithEquals(stringHash: string -> int)
    requires stringHash("C:\\Foo") != stringHash("c:\\FOO")
    ensures var a, b := ScanLocation(Some("C:\\Foo")), ScanLocation(Some("c:\\FOO"));
      Equals(a, Some(b)) && GetHashCode(a, stringHash) != GetHashCode(b, stringHash)
  {
    EqualsIgnoreCaseExample();
  }
}
