/** The order in which a `BTreeMap` with string keys is iterated. */
module Order {

  /** Lexicographic order; for UTF-8 text, byte order and code point order agree. */
  predicate Less(a: string, b: string) {
    && b != []
    && (a == [] || a[0] < b[0] || (a[0] == b[0] && Less(a[1..], b[1..])))
  }

  lemma {:induction false} LessTrichotomy(a: string, b: string)
    ensures Less(a, b) || a == b || Less(b, a)
    ensures !(Less(a, b) && Less(b, a))
    ensures !Less(a, a)
    decreases |a|
  {
    if a != [] {
      LessTrichotomy(a[1..], a[1..]);
      if b != [] && a[0] == b[0] {
        LessTrichotomy(a[1..], b[1..]);
        assert a == [a[0]] + a[1..] && b == [b[0]] + b[1..];
      }
    }
  }

  lemma {:induction false} LessTransitive(a: string, b: string, c: string)
    requires Less(a, b) && Less(b, c)
    ensures Less(a, c)
    decreases |a|
  {
    if a != [] && a[0] == b[0] == c[0] {
      LessTransitive(a[1..], b[1..], c[1..]);
    }
  }

  predicate IsLeast(k: string, s: set<string>) {
    k in s && forall x | x in s :: x == k || Less(k, x)
  }

  lemma {:induction false} LeastExists(s: set<string>) returns (k: string)
    requires s != {}
    ensures IsLeast(k, s)
  {
    var x :| x in s;
    if s == {x} {
      return x;
    }
    var rest := s - {x};
    assert s == rest + {x};
    var m := LeastExists(rest);
    LessTrichotomy(m, x);
    if Less(m, x) {
      return m;
    }
    forall y | y in rest ensures Less(x, y) {
      if y != m {
        LessTransitive(x, m, y);
      }
    }
    return x;
  }

  lemma LeastUnique(s: set<string>, k: string, m: string)
    requires IsLeast(k, s) && IsLeast(m, s)
    ensures k == m
  {
    LessTrichotomy(k, m);
  }

  function Least(s: set<string>): (k: string)
    requires s != {}
    ensures IsLeast(k, s)
  {
    assert exists k :: IsLeast(k, s) by {
      var k := LeastExists(s);
    }
    assert forall k, m | IsLeast(k, s) && IsLeast(m, s) :: k == m by {
      forall k, m | IsLeast(k, s) && IsLeast(m, s) ensures k == m {
        LeastUnique(s, k, m);
      }
    }
    var k :| k in s && IsLeast(k, s);
    k
  }

  predicate StrictlySorted(keys: seq<string>) {
    forall i, j | 0 <= i < j < |keys| :: Less(keys[i], keys[j])
  }

  function SortedKeys(s: set<string>): (keys: seq<string>)
    ensures StrictlySorted(keys)
    ensures forall k :: k in keys <==> k in s
  {
    if s == {} then [] else
    var k := Least(s);
    [k] + SortedKeys(s - {k})
  }
}
