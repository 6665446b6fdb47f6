/** The in-memory record store the index's tests run over. */
module DataCaches {
  import opened Seqs

  /**
   * `DataCache<T>`: an ordered list of records. Records are values here, so
   * `==` plays the part of the records' `Equals`.
   */
  class DataCache<T(==,!new)> {
    var data: seq<T>

    constructor (data: seq<T>)
      ensures this.data == data
    {
      this.data := data;
    }

    /** `InsertData`: appends at the end. */
    method InsertData(item: T)
      modifies this
      ensures data == old(data) + [item]
    {
      data := data + [item];
    }

    /** `ListData`: the records in insertion order. */
    function ListData(): seq<T>
      reads this
    {
      data
    }

    /** `PurgeData`: keeps the distinct records that are not purged, in first-occurrence order. */
    method PurgeData(purged: seq<T>)
      modifies this
      ensures data == Except(old(data), purged)
      ensures forall x :: x in data <==> x in old(data) && x !in purged
      ensures NoDuplicates(data)
    {
      data := Except(data, purged);
    }
  }

  /** Purging everything that is listed leaves the cache empty. */
  lemma PurgeOfListedEmpties<T(!new)>(data: seq<T>)
    ensures Except(data, data) == []
  {
    ExceptOfCovered(data, data);
  }

  /**
   * Purging nothing is not a no-op when records repeat: the copies collapse,
   * because `Except` yields every element once.
   */
  lemma PurgeOfNothingCollapsesRepeats<T(!new)>(x: T)
    ensures Except([x, x], []) == [x]
  {
    DistinctCollapsesRepeats(x);
  }

  /** Purging the one record appended last gives back the duplicate-free records before it. */
  lemma {:induction false} PurgeOfLastAppended<T(!new)>(a: seq<T>, x: T)
    requires NoDuplicates(a) && x !in a
    ensures Except(a + [x], [x]) == a
  {
    var ax := a + [x];
    assert ax != [] && DropLast(ax) == a && Last(ax) == x;
    ExceptOfDistinct(a, [x]);
    FilterKeepsAll(a, y => y !in [x]);
  }

  /** The test scenario: purging "testing" from four records leaves the other three, in order. */
  lemma PurgeExample()
    ensures Except(["foo", "bar", "foobar", "testing"], ["testing"]) == ["foo", "bar", "foobar"]
  {
    var a := ["foo", "bar", "foobar"];
    assert a[0] != a[1] && a[0] != a[2] && a[1] != a[2];
    assert "testing" !in a;
    PurgeOfLastAppended(a, "testing");
    assert a + ["testing"] == ["foo", "bar", "foobar", "testing"];
  }
}
