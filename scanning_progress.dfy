/**
 * `ScanningProgress`: the `IProgress<int>` handed to the store. It scales each
 * raw percentage by integer division, adds an offset, caps the result at 100
 * and passes it to its action. The action is modelled as the log of the
 * values it receives.
 */
module ScanningProgresses {
  import opened Wrappers
  import opened Integers
  import opened Seqs

  /**
   * The value `Report(value)` passes on: `value / divisor` in C# integer
   * division, plus the addend, capped at 100. The division applies to the
   * value alone, not to the sum.
   */
  function ReportValue(value: int, addend: int, divisor: int): (r: int)
    requires divisor != 0
    ensures r <= 100
    ensures r == 100 || r == TruncDiv(value, divisor) + addend
  {
    var v := TruncDiv(value, divisor) + addend;
    if v > 100 then 100 else v
  }

  /** The values passed on for a run of raw reports, in order. */
  function Scaled(values: seq<int>, addend: int, divisor: int): (r: seq<int>)
    requires divisor != 0
    ensures |r| == |values|
    ensures forall i :: 0 <= i < |values| ==> r[i] == ReportValue(values[i], addend, divisor)
  {
    if values == [] then [] else Scaled(DropLast(values), addend, divisor) + [ReportValue(Last(values), addend, divisor)]
  }

  class ScanningProgress {
    var divisor: int
    var addend: int
    /** Every value passed to the action, in order. */
    var reported: seq<int>

    constructor (addend: int, divisor: int)
      ensures this.divisor == divisor && this.addend == addend && reported == []
    {
      this.divisor := divisor;
      this.addend := addend;
      reported := [];
    }

    /** `Report`: a zero divisor raises before the action runs; otherwise the action runs once. */
    method Report(value: int) returns (status: Outcome)
      modifies this
      ensures divisor == old(divisor) && addend == old(addend)
      ensures divisor == 0 ==> status == Fail(DivideByZeroException) && reported == old(reported)
      ensures divisor != 0 ==> status == Pass && reported == old(reported) + [ReportValue(value, addend, divisor)]
    {
      if divisor == 0 {
        return Fail(DivideByZeroException);
      }
      var reportValue := TruncDiv(value, divisor) + addend;
      if reportValue > 100 {
        reportValue := 100;
      }
      reported := reported + [reportValue];
      return Pass;
    }

    /** `Report` on each raw value the store produced, in order, stopping at the first exception. */
    method ReportAll(values: seq<int>) returns (status: Outcome)
      modifies this
      ensures divisor == old(divisor) && addend == old(addend)
      ensures divisor == 0 ==> reported == old(reported) && status == if values == [] then Pass else Fail(DivideByZeroException)
      ensures divisor != 0 ==> status == Pass && reported == old(reported) + Scaled(values, addend, divisor)
    {
      status := Pass;
      for i := 0 to |values|
        invariant divisor == old(divisor) && addend == old(addend)
        invariant divisor == 0 ==> reported == old(reported) && status == if i == 0 then Pass else Fail(DivideByZeroException)
        invariant divisor != 0 ==> status == Pass && reported == old(reported) + Scaled(values[..i], addend, divisor)
      {
        assert DropLast(values[..i + 1]) == values[..i];
        status := Report(values[i]);
        if status.Fail? {
          return;
        }
      }
      assert values[..|values|] == values;
    }
  }

  // ---------------------------------------------------------------- properties

  /** A zero addend and divisor 1 pass a percentage through unchanged; anything above 100 becomes 100. */
  lemma PassThrough(value: int)
    ensures value <= 100 ==> ReportValue(value, 0, 1) == value
    ensures value > 100 ==> ReportValue(value, 0, 1) == 100
  {
    assert TruncDiv(value, 1) == value;
  }

  /** For a positive divisor the passed-on value never decreases as the raw value grows. */
  lemma ReportValueMonotone(v: int, w: int, addend: int, divisor: int)
    requires 0 <= v <= w && divisor > 0
    ensures ReportValue(v, addend, divisor) <= ReportValue(w, addend, divisor)
  {
    TruncDivNonNegative(v, divisor);
    TruncDivNonNegative(w, divisor);
    DivMonotone(v, w, divisor);
  }

  /**
   * With divisor 2 a raw percentage lands in 0..50 without an addend and in
   * 50..100 with addend 50: the two halves of a two-phase bar.
   */
  lemma HalvesOfTheBar(value: int)
    requires 0 <= value <= 100
    ensures 0 <= ReportValue(value, 0, 2) <= 50
    ensures 50 <= ReportValue(value, 50, 2) <= 100
    ensures ReportValue(100, 50, 2) == 100
  {
    TruncDivNonNegative(value, 2);
    TruncDivNonNegative(100, 2);
  }

  /** The divided value is not the divided sum: 100 with addend 50 and divisor 2 passes on 100, not 75. */
  lemma DivisionPrecedesAddition()
    ensures ReportValue(100, 50, 2) == 100
    ensures TruncDiv(100 + 50, 2) == 75
  {
    TruncDivNonNegative(100, 2);
    TruncDivNonNegative(150, 2);
  }

  /** The figures of the tests. */
  lemma ReportExamples()
    ensures ReportValue(69, 0, 1) == 69
    ensures ReportValue(9001, 0, 1) == 100
    ensures ReportValue(100, 0, 2) == 50
    ensures ReportValue(1, 50, 1) == 51
  {
    TruncDivNonNegative(100, 2);
    PassThrough(69);
    PassThrough(9001);
    assert TruncDiv(1, 1) == 1;
  }

  /** A non-negative raw value never passes on less than the addend. */
  lemma ReportValueAtLeastAddend(value: int, addend: int, divisor: int)
    requires 0 <= value && divisor > 0 && addend <= 100
    ensures addend <= ReportValue(value, addend, divisor)
  {
    var q := TruncDiv(value, divisor);
    TruncDivNonNegative(value, divisor);
    DivMonotone(0, value, divisor);
    assert 0 <= q;
  }

  /** Scaling raw percentages keeps every passed-on value between the addend and 100. */
  lemma ScaledBounds(values: seq<int>, addend: int, divisor: int)
    requires divisor > 0 && addend <= 100
    requires forall i :: 0 <= i < |values| ==> 0 <= values[i]
    ensures forall i :: 0 <= i < |values| ==> addend <= Scaled(values, addend, divisor)[i] <= 100
  {
    var r := Scaled(values, addend, divisor);
    forall i | 0 <= i < |values|
      ensures addend <= r[i]
    {
      ReportValueAtLeastAddend(values[i], addend, divisor);
    }
  }
}
