/** The record the index stores for one scanned root directory. */
module ScannedLocations {
  /** `ScannedLocation`: a database id and the root path. */
  datatype ScannedLocation = ScannedLocation(id: int, path: string)

  /** `ScannedLocation.Equals`: the paths decide; the id is ignored. */
  predicate Equals(self: ScannedLocation, other: ScannedLocation) {
    self.path == other.path
  }

  lemma EqualsIffSamePath(a: ScannedLocation, b: ScannedLocation)
    ensures Equals(a, b) <==> a.path == b.path
    ensures Equals(ScannedLocation(1, a.path), ScannedLocation(2, a.path))
  {
  }

  /** `Equals` is an equivalence relation. */
  lemma EqualsIsEquivalence(a: ScannedLocation, b: ScannedLocation, c: ScannedLocation)
    ensures Equals(a, a)
    ensures Equals(a, b) ==> Equals(b, a)
    ensures Equals(a, b) && Equals(b, c) ==> Equals(a, c)
  {
  }
}
