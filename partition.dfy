/**
 * The three-way split both scan orchestrators make before talking to the
 * store: the chosen locations that were never scanned (`Except`), the
 * scanned locations still chosen (`Where` with `List.Contains`), and the
 * scanned locations no longer chosen (`Except`). Comparison is ordinal.
 */
module LocationPartitions {
  import opened Seqs

  /** `t => locations.Contains(t)`. */
  function Chosen(targets: seq<string>): string -> bool {
    (t: string) => t in targets
  }

  /** `Locations.Except(scannedLocations)`: distinct chosen locations never scanned. */
  function NewLocations(targets: seq<string>, scanned: seq<string>): seq<string> {
    Except(targets, scanned)
  }

  /** `scannedLocations.Where(t => Locations.Contains(t))`: scanned locations still chosen, in stored order. */
  function RescanLocations(targets: seq<string>, scanned: seq<string>): seq<string> {
    Filter(scanned, Chosen(targets))
  }

  /** `scannedLocations.Except(Locations)`: distinct scanned locations no longer chosen. */
  function PurgeLocations(targets: seq<string>, scanned: seq<string>): seq<string> {
    Except(scanned, targets)
  }

  // ---------------------------------------------------------------- properties

  /** What each part holds, in both directions, and that the parts are pairwise disjoint. */
  lemma PartitionMembers(targets: seq<string>, scanned: seq<string>)
    ensures forall p :: p in NewLocations(targets, scanned) <==> p in targets && p !in scanned
    ensures forall p :: p in RescanLocations(targets, scanned) <==> p in scanned && p in targets
    ensures forall p :: p in PurgeLocations(targets, scanned) <==> p in scanned && p !in targets
    ensures forall p :: !(p in NewLocations(targets, scanned) && p in RescanLocations(targets, scanned))
    ensures forall p :: !(p in NewLocations(targets, scanned) && p in PurgeLocations(targets, scanned))
    ensures forall p :: !(p in RescanLocations(targets, scanned) && p in PurgeLocations(targets, scanned))
  {
  }

  /**
   * Nothing is forgotten: every chosen location is either new or rescanned,
   * and every scanned location is either rescanned or purged.
   */
  lemma PartitionCovers(targets: seq<string>, scanned: seq<string>)
    ensures forall p :: p in targets ==> p in NewLocations(targets, scanned) || p in RescanLocations(targets, scanned)
    ensures forall p :: p in scanned ==> p in RescanLocations(targets, scanned) || p in PurgeLocations(targets, scanned)
  {
    PartitionMembers(targets, scanned);
  }

  /** Nothing is purged or newly scanned when the choice equals what was scanned. */
  lemma {:induction false} SameChoiceOnlyRescans(locations: seq<string>)
    ensures NewLocations(locations, locations) == []
    ensures PurgeLocations(locations, locations) == []
    ensures RescanLocations(locations, locations) == locations
  {
    FilterKeepsAll(locations, Chosen(locations));
    ExceptOfCovered(locations, locations);
  }

  /**
   * The controller test: choosing `location1`, `location2` when `location1`
   * and `purge` were scanned purges `purge`, scans `location2` and rescans
   * `location1`.
   */
  lemma {:induction false} PartitionExample(location1: string, location2: string, purge: string)
    requires location1 != location2 && location1 != purge && location2 != purge
    ensures PurgeLocations([location1, location2], [location1, purge]) == [purge]
    ensures NewLocations([location1, location2], [location1, purge]) == [location2]
    ensures RescanLocations([location1, location2], [location1, purge]) == [location1]
  {
    var targets, scanned := [location1, location2], [location1, purge];
    assert DropLast(targets) == [location1] && DropLast(scanned) == [location1];
    assert DropLast([location1]) == [];
    assert Except([location1], scanned) == [];
    assert Except([location1], targets) == [];
    assert Filter([location1], Chosen(targets)) == [location1];
  }
}
