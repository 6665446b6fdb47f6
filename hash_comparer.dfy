/**
 * The equality comparer for file hashes (`byte[]`): null rules, length, content,
 * and a cheap hash code built from the first four bytes.
 */
module ScannedFileHashComparer {
  newtype byte = x: int | 0 <= x < 256

  /** A C# `byte[]` reference: null, or an array holding these bytes. */
  datatype ByteArray = Null | Array(bytes: seq<byte>)

  /** LINQ `SequenceEqual` on two arrays of the same length: element by element. */
  function SequenceEqual(first: seq<byte>, second: seq<byte>): (r: bool)
    requires |first| == |second|
    ensures r <==> first == second
  {
    if first == [] then true
    else first[0] == second[0] && SequenceEqual(first[1..], second[1..])
  }

  /**
   * `Equals(first, second)`: two nulls are equal, null and an array are not,
   * arrays of different lengths are not, otherwise the contents decide.
   * (The reference-equality shortcut gives the same answer as the content
   * comparison, so the model goes straight to the contents.)
   */
  function Equals(first: ByteArray, second: ByteArray): (r: bool)
    ensures r <==> first == second
  {
    if first.Null? || second.Null? then first == second
    else if |first.bytes| != |second.bytes| then false
    else SequenceEqual(first.bytes, second.bytes)
  }

  /** The first four bytes of `s`, zero-padded when `s` is shorter. */
  function PaddedPrefix(s: seq<byte>): seq<byte> {
    seq(4, k requires 0 <= k < 4 => if k < |s| then s[k] else 0)
  }

  /** `BitConverter.ToInt32(b, 0)`: four bytes, little-endian, two's complement. */
  function ToInt32(b: seq<byte>): (r: int)
    requires |b| == 4
    ensures -0x8000_0000 <= r < 0x8000_0000
  {
    var u := Unsigned(b);
    if u < 0x8000_0000 then u else u - 0x1_0000_0000
  }

  function Unsigned(b: seq<byte>): (u: int)
    requires |b| == 4
    ensures 0 <= u < 0x1_0000_0000
  {
    b[0] as int + 0x100 * (b[1] as int + 0x100 * (b[2] as int + 0x100 * b[3] as int))
  }

  /**
   * `GetHashCode(obj)`: copies a short array into a zero-filled four-byte
   * buffer, then reads the buffer (or the array itself) as a 32-bit integer.
   * Dereferencing a null array throws in the source; callers never pass one.
   */
  method GetHashCode(obj: ByteArray) returns (code: int)
    requires obj.Array?
    ensures code == ToInt32(PaddedPrefix(obj.bytes))
  {
    var objTemp: seq<byte>;
    if |obj.bytes| < 4 {
      var temp := new byte[4](_ => 0);
      for i := 0 to |obj.bytes|
        invariant forall k :: 0 <= k < i ==> temp[k] == obj.bytes[k]
        invariant forall k :: i <= k < 4 ==> temp[k] == 0
      {
        temp[i] := obj.bytes[i];
      }
      objTemp := temp[..];
    } else {
      objTemp := obj.bytes;
    }
    assert objTemp[..4] == PaddedPrefix(obj.bytes);
    code := ToInt32(objTemp[..4]);
  }

  // ---------------------------------------------------------------- properties

  lemma NullRules(a: seq<byte>)
    ensures Equals(Null, Null)
    ensures !Equals(Array(a), Null) && !Equals(Null, Array(a))
  {
  }

  lemma DifferentLengthsNeverEqual(a: seq<byte>, b: seq<byte>)
    requires |a| != |b|
    ensures !Equals(Array(a), Array(b))
  {
  }

  /** Agreeing on the first four bytes (and so on the hash code) is not enough. */
  lemma SamePrefixNotEqual()
    ensures var a, b := [1, 2, 3, 4, 5], [1, 2, 3, 4, 6];
      PaddedPrefix(a) == PaddedPrefix(b) && !Equals(Array(a), Array(b))
  {
    var a: seq<byte>, b: seq<byte> := [1, 2, 3, 4, 5], [1, 2, 3, 4, 6];
    assert a[4] != b[4];
  }

  /** Arrays that `Equals` relates have equal hash codes. */
  lemma EqualArraysEqualHashCodes(a: ByteArray, b: ByteArray)
    requires a.Array? && b.Array? && Equals(a, b)
    ensures ToInt32(PaddedPrefix(a.bytes)) == ToInt32(PaddedPrefix(b.bytes))
  {
  }

  lemma DigitUnique(x0: int, r0: int, x1: int, r1: int)
    requires 0 <= x0 < 0x100 && 0 <= x1 < 0x100 && x0 + 0x100 * r0 == x1 + 0x100 * r1
    ensures x0 == x1 && r0 == r1
  {
  }

  /** Different four-byte prefixes always give different hash codes. */
  lemma {:induction false} ToInt32Injective(a: seq<byte>, b: seq<byte>)
    requires |a| == 4 && |b| == 4 && ToInt32(a) == ToInt32(b)
    ensures a == b
  {
    assert Unsigned(a) == Unsigned(b);
    var a3, b3 := a[3] as int, b[3] as int;
    var a2, b2 := a[2] as int + 0x100 * a3, b[2] as int + 0x100 * b3;
    var a1, b1 := a[1] as int + 0x100 * a2, b[1] as int + 0x100 * b2;
    DigitUnique(a[0] as int, a1, b[0] as int, b1);
    DigitUnique(a[1] as int, a2, b[1] as int, b2);
    DigitUnique(a[2] as int, a3, b[2] as int, b3);
    assert a == [a[0], a[1], a[2], a[3]] && b == [b[0], b[1], b[2], b[3]];
  }

  /** The hash code depends on the first four bytes, and on nothing else. */
  lemma HashCodeIsPrefixCode(a: seq<byte>, b: seq<byte>)
    ensures ToInt32(PaddedPrefix(a)) == ToInt32(PaddedPrefix(b)) <==> PaddedPrefix(a) == PaddedPrefix(b)
  {
    if ToInt32(PaddedPrefix(a)) == ToInt32(PaddedPrefix(b)) {
      ToInt32Injective(PaddedPrefix(a), PaddedPrefix(b));
    }
  }

  /** 01 02 03 04 and 04 03 02 01 have different hash codes; shorter arrays are zero-padded. */
  lemma HashCodeExamples()
    ensures ToInt32(PaddedPrefix([1, 2, 3, 4])) == 0x0403_0201
    ensures ToInt32(PaddedPrefix([4, 3, 2, 1])) == 0x0102_0304
    ensures PaddedPrefix([1, 2]) == [1, 2, 0, 0]
    ensures ToInt32(PaddedPrefix([0xFF, 0xFF, 0xFF, 0xFF])) == -1
  {
  }
}
