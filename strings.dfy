/** The `string` operations of the .NET base library that the model uses. */
module Strings {
  import opened Wrappers
  import Seqs

  /** `s.StartsWith(prefix)`, ordinal. */
  predicate StartsWith(s: string, prefix: string) {
    |prefix| <= |s| && s[..|prefix|] == prefix
  }

  /** `s.Contains(t)`, ordinal: `t` occurs in `s` at some position. */
  predicate Contains(s: string, t: string)
    decreases |s|
  {
    StartsWith(s, t) || (|s| > 0 && Contains(s[1..], t))
  }

  /**
   * Upper-casing for `InvariantCultureIgnoreCase`, restricted to ASCII letters;
   * every other character compares as itself.
   */
  function ToUpper(c: char): char {
    if 'a' <= c <= 'z' then (c as int - 32) as char else c
  }

  /** `string.Equals(a, b, StringComparison.InvariantCultureIgnoreCase)` on non-null strings. */
  predicate EqualsIgnoreCase(a: string, b: string) {
    Seqs.Map(a, ToUpper) == Seqs.Map(b, ToUpper)
  }

  /** The static `string.Equals(a, b, InvariantCultureIgnoreCase)`: two nulls are equal, null and a string are not. */
  predicate NullableEqualsIgnoreCase(a: Option<string>, b: Option<string>) {
    match (a, b)
    case (None, None) => true
    case (Some(x), Some(y)) => EqualsIgnoreCase(x, y)
    case _ => false
  }

  /** `t` occurs in `s` starting at index `i`. */
  predicate OccursAt(s: string, t: string, i: int) {
    0 <= i && i + |t| <= |s| && s[i..i + |t|] == t
  }

  lemma {:induction false} ContainsAt(s: string, t: string, i: nat)
    requires OccursAt(s, t, i)
    ensures Contains(s, t)
  {
    if i > 0 {
      assert s[1..][i - 1..i - 1 + |t|] == s[i..i + |t|];
      ContainsAt(s[1..], t, i - 1);
    } else {
      assert s[..|t|] == t;
    }
  }

  /** `Contains` finds `t` exactly when it occurs at some position of `s`. */
  lemma {:induction false} ContainsIffOccurs(s: string, t: string)
    ensures Contains(s, t) <==> exists i :: OccursAt(s, t, i)
  {
    if Contains(s, t) {
      if StartsWith(s, t) {
        assert OccursAt(s, t, 0);
      } else {
        ContainsIffOccurs(s[1..], t);
        var i :| OccursAt(s[1..], t, i);
        assert s[1..][i..i + |t|] == s[i + 1..i + 1 + |t|];
        assert OccursAt(s, t, i + 1);
      }
    }
    if exists i :: OccursAt(s, t, i) {
      var i :| OccursAt(s, t, i);
      ContainsAt(s, t, i);
    }
  }

  /** Ignoring case is an equivalence; strings of different lengths are never equal. */
  lemma EqualsIgnoreCaseIsEquivalence(a: string, b: string, c: string)
    ensures EqualsIgnoreCase(a, a)
    ensures EqualsIgnoreCase(a, b) ==> EqualsIgnoreCase(b, a)
    ensures EqualsIgnoreCase(a, b) && EqualsIgnoreCase(b, c) ==> EqualsIgnoreCase(a, c)
    ensures |a| != |b| ==> !EqualsIgnoreCase(a, b)
  {
    if |a| != |b| {
      assert |Seqs.Map(a, ToUpper)| != |Seqs.Map(b, ToUpper)|;
    }
  }

  /** Strings that differ only in the case of ASCII letters are equal ignoring case. */
  lemma EqualsIgnoreCaseExample()
    ensures EqualsIgnoreCase("C:\\Foo", "c:\\FOO")
    ensures !EqualsIgnoreCase("C:\\Foo", "C:\\Bar")
  {
    var a, b := Seqs.Map("C:\\Foo", ToUpper), Seqs.Map("c:\\FOO", ToUpper);
    assert a == "C:\\FOO" == b;
    assert Seqs.Map("C:\\Bar", ToUpper)[3] == 'B' != a[3];
  }
}
