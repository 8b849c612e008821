/** Alphabets of textual encodings: characters as digits. */
module Alphabet {
  import opened Wrappers
  import Text

  /** Consecutive characters. */
  ghost predicate IsRun(s: string, first: char) {
    forall i | 0 <= i < |s| :: s[i] as int == first as int + i
  }

  ghost predicate Distinct(s: string) {
    forall i, j | 0 <= i < j < |s| :: s[i] != s[j]
  }

  lemma RunDistinct(s: string, first: char)
    requires IsRun(s, first)
    ensures Distinct(s)
  {
  }

  lemma DistinctConcat(a: string, b: string)
    requires Distinct(a) && Distinct(b) && forall c | c in a :: c !in b
    ensures Distinct(a + b)
  {
    forall i, j | 0 <= i < j < |a + b| ensures (a + b)[i] != (a + b)[j] {
      if i < |a| <= j {
        assert a[i] in a && b[j - |a|] in b;
      }
    }
  }

  /** The digit a character stands for. */
  function IndexOf(alphabet: string, c: char): (r: Option<nat>)
    ensures r.Some? ==> r.value < |alphabet| && alphabet[r.value] == c
  {
    var n := Text.Find(alphabet, c);
    if n < |alphabet| then Some(n) else None
  }

  lemma IndexOfAt(alphabet: string, d: nat)
    requires Distinct(alphabet) && d < |alphabet|
    ensures IndexOf(alphabet, alphabet[d]) == Some(d)
  {
    Text.FindIs(alphabet, alphabet[d], d);
  }

  lemma IndexOfNone(alphabet: string, c: char)
    ensures IndexOf(alphabet, c).None? <==> c !in alphabet
  {
    var n := Text.Find(alphabet, c);
    if n < |alphabet| {
      assert alphabet[n] in alphabet;
    }
  }

  /** The digits of a text, if all its characters have one. */
  function Digits(alphabet: string, s: string): (r: Option<seq<nat>>)
    ensures r.Some? ==> |r.value| == |s| && forall i | 0 <= i < |s| :: r.value[i] < |alphabet|
    decreases |s|
  {
    if s == "" then Some([]) else
    var d :- IndexOf(alphabet, s[0]);
    var rest :- Digits(alphabet, s[1..]);
    Some([d] + rest)
  }

  /** The text of digits. */
  function Spell(alphabet: string, ds: seq<nat>): (s: string)
    requires forall i | 0 <= i < |ds| :: ds[i] < |alphabet|
    ensures |s| == |ds|
    decreases |ds|
  {
    if ds == [] then "" else [alphabet[ds[0]]] + Spell(alphabet, ds[1..])
  }

  lemma {:induction false} DigitsOfSpelled(alphabet: string, ds: seq<nat>)
    requires Distinct(alphabet) && forall i | 0 <= i < |ds| :: ds[i] < |alphabet|
    ensures Digits(alphabet, Spell(alphabet, ds)) == Some(ds)
    decreases |ds|
  {
    hide IndexOf;
    if ds != [] {
      var s := Spell(alphabet, ds);
      assert s[1..] == Spell(alphabet, ds[1..]);
      IndexOfAt(alphabet, ds[0]);
      DigitsOfSpelled(alphabet, ds[1..]);
      assert [ds[0]] + ds[1..] == ds;
    }
  }

  lemma {:induction false} SpelledDigits(alphabet: string, s: string)
    requires Digits(alphabet, s).Some?
    ensures Spell(alphabet, Digits(alphabet, s).value) == s
    decreases |s|
  {
    hide IndexOf;
    if s != "" {
      SpelledDigits(alphabet, s[1..]);
      assert [s[0]] + s[1..] == s;
      assert Digits(alphabet, s).value[1..] == Digits(alphabet, s[1..]).value;
    }
  }

  /** A text has digits exactly when all its characters are in the alphabet. */
  lemma {:induction false} DigitsIff(alphabet: string, s: string)
    ensures Digits(alphabet, s).Some? <==> forall c | c in s :: c in alphabet
    decreases |s|
  {
    hide IndexOf;
    if s != "" {
      IndexOfNone(alphabet, s[0]);
      DigitsIff(alphabet, s[1..]);
      assert forall c | c in s :: c == s[0] || c in s[1..];
      assert s[0] in s;
    }
  }
}
