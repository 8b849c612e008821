/** Positional numerals, most significant digit first, and their decimal spelling. */
module Positional {

  type Digits = seq<nat>

  ghost predicate InBase(base: nat, ds: Digits) {
    forall i | 0 <= i < |ds| :: ds[i] < base
  }

  function Value(base: nat, ds: Digits): nat {
    if ds == [] then 0 else Value(base, ds[..|ds| - 1]) * base + ds[|ds| - 1]
  }

  /** The shortest numeral of `n`; zero has no digits. */
  function ToDigits(base: nat, n: nat): Digits
    requires base >= 2
    decreases n
  {
    if n == 0 then [] else
    DivSmaller(base, n);
    ToDigits(base, n / base) + [n % base]
  }

  lemma DivSmaller(base: nat, n: nat)
    requires base >= 2 && n > 0
    ensures n / base < n
  {
    assert n == base * (n / base) + n % base;
    if n / base > 0 {
      assert base * (n / base) >= 2 * (n / base);
    }
  }

  /** The number of leading zero digits. */
  function LeadingZeros(ds: Digits): (n: nat)
    ensures n <= |ds|
    ensures n < |ds| ==> ds[n] != 0
    ensures forall i | 0 <= i < n :: ds[i] == 0
  {
    if ds != [] && ds[0] == 0 then 1 + LeadingZeros(ds[1..]) else 0
  }

  function Zeros(n: nat): (ds: Digits)
    ensures |ds| == n
    ensures forall i | 0 <= i < n :: ds[i] == 0
  {
    if n == 0 then [] else Zeros(n - 1) + [0]
  }

  lemma {:induction false} ToDigitsShape(base: nat, n: nat)
    requires base >= 2
    ensures InBase(base, ToDigits(base, n))
    ensures n > 0 <==> ToDigits(base, n) != []
    ensures n > 0 ==> ToDigits(base, n)[0] != 0
    decreases n
  {
    if n > 0 {
      DivSmaller(base, n);
      ToDigitsShape(base, n / base);
      if n / base == 0 {
        assert n == base * (n / base) + n % base;
      }
    }
  }

  lemma DivMod(base: nat, n: nat)
    requires base >= 2
    ensures n == n / base * base + n % base
  {
  }

  lemma ValueSnoc(base: nat, ds: Digits, d: nat)
    ensures Value(base, ds + [d]) == Value(base, ds) * base + d
  {
    assert (ds + [d])[..|ds|] == ds;
  }

  lemma {:induction false} ValueOfToDigits(base: nat, n: nat)
    requires base >= 2
    ensures Value(base, ToDigits(base, n)) == n
    decreases n
  {
    if n > 0 {
      DivSmaller(base, n);
      ValueOfToDigits(base, n / base);
      ValueSnoc(base, ToDigits(base, n / base), n % base);
      DivMod(base, n);
    }
  }

  lemma MulByAtLeastOne(base: int, d: int)
    requires base >= 0
    ensures d >= 1 ==> base * d >= base
    ensures d <= -1 ==> base * d <= 0 - base
  {
    if d >= 1 {
      assert base * d == base * (d - 1) + base;
    } else if d <= -1 {
      assert base * d == base * (d + 1) - base;
    }
  }

  lemma DivModUnique(base: nat, q: nat, r: nat)
    requires base >= 2 && r < base
    ensures (q * base + r) / base == q && (q * base + r) % base == r
  {
    var n := q * base + r;
    var q' := n / base;
    assert n == base * q' + n % base;
    assert base * (q' - q) == r - n % base;
    MulByAtLeastOne(base, q' - q);
  }

  /** The numeral of a value is the numeral with its leading zeros removed. */
  lemma {:induction false} ToDigitsOfValue(base: nat, ds: Digits)
    requires base >= 2 && InBase(base, ds)
    ensures ToDigits(base, Value(base, ds)) == ds[LeadingZeros(ds)..]
    decreases |ds|
  {
    if ds != [] {
      var front, last := ds[..|ds| - 1], ds[|ds| - 1];
      ToDigitsOfValue(base, front);
      var q := Value(base, front);
      DivModUnique(base, q, last);
      LeadingZerosFront(ds);
      ToDigitsShape(base, q);
      var z := LeadingZeros(front);
      if q * base + last > 0 {
        assert ToDigits(base, Value(base, ds)) == ToDigits(base, q) + [last];
        assert ToDigits(base, Value(base, ds)) == front[z..] + [last];
        if q == 0 {
          assert last > 0;
          assert z == |front|;
          assert ds[|front|..] == [last];
        } else {
          assert ds[z..] == front[z..] + [last];
        }
      } else {
        assert q == 0 by {
          MulByAtLeastOne(base, q);
        }
        assert ToDigits(base, q) == [];
        assert z == |front|;
      }
    }
  }

  lemma {:induction false} LeadingZerosFront(ds: Digits)
    requires ds != []
    ensures var front := ds[..|ds| - 1];
      LeadingZeros(ds) == if LeadingZeros(front) < |front| then LeadingZeros(front)
                          else if ds[|ds| - 1] == 0 then |ds| else |ds| - 1
  {
    var front := ds[..|ds| - 1];
    var m, n := LeadingZeros(front), LeadingZeros(ds);
    assert forall i | 0 <= i < |front| :: front[i] == ds[i];
  }

  lemma {:induction false} LeadingZerosOf(n: nat, ds: Digits)
    requires ds != [] ==> ds[0] != 0
    ensures LeadingZeros(Zeros(n) + ds) == n
  {
    var k := LeadingZeros(Zeros(n) + ds);
    assert forall i | 0 <= i < n :: (Zeros(n) + ds)[i] == 0;
    if ds != [] {
      assert (Zeros(n) + ds)[n] == ds[0];
    }
  }

  lemma {:induction false} ValueIgnoresLeadingZeros(base: nat, n: nat, ds: Digits)
    ensures Value(base, Zeros(n) + ds) == Value(base, ds)
    decreases |ds|, n
  {
    var all := Zeros(n) + ds;
    if ds == [] {
      assert all == Zeros(n);
      if n > 0 {
        assert all[..|all| - 1] == Zeros(n - 1) + [];
        ValueIgnoresLeadingZeros(base, n - 1, []);
      }
    } else {
      assert all[..|all| - 1] == Zeros(n) + ds[..|ds| - 1];
      ValueIgnoresLeadingZeros(base, n, ds[..|ds| - 1]);
    }
  }

  // ----- decimal spelling, as Rust's and Python's `{}` print integers -----

  const DECIMAL: string := "0123456789"

  function DigitChar(d: nat): (c: char)
    requires d < 10
    ensures '0' <= c <= '9' && c as int - '0' as int == d
  {
    DECIMAL[d]
  }

  function Spell(ds: Digits): (s: string)
    requires InBase(10, ds)
    ensures |s| == |ds|
    ensures forall i | 0 <= i < |s| :: s[i] == DigitChar(ds[i])
  {
    if ds == [] then "" else [DigitChar(ds[0])] + Spell(ds[1..])
  }

  function Decimal(n: nat): string {
    ToDigitsShape(10, n);
    if n == 0 then "0" else Spell(ToDigits(10, n))
  }

  predicate IsDigit(c: char) {
    '0' <= c <= '9'
  }

  predicate AllDigits(s: string) {
    forall c | c in s :: IsDigit(c)
  }

  function ReadDigits(s: string): (ds: Digits)
    requires AllDigits(s)
    ensures |ds| == |s|
    ensures forall i | 0 <= i < |s| :: ds[i] == s[i] as int - '0' as int
  {
    if s == "" then [] else
    assert s[0] in s;
    var d: nat := s[0] as int - '0' as int;
    [d] + ReadDigits(s[1..])
  }

  function DecimalValue(s: string): nat
    requires AllDigits(s)
  {
    Value(10, ReadDigits(s))
  }

  lemma SpellRead(ds: Digits)
    requires InBase(10, ds)
    ensures AllDigits(Spell(ds)) && ReadDigits(Spell(ds)) == ds
  {
    var s := Spell(ds);
    assert forall i | 0 <= i < |s| :: IsDigit(s[i]);
    assert forall i | 0 <= i < |s| :: ReadDigits(s)[i] == ds[i];
  }

  lemma {:induction false} DecimalRoundTrip(n: nat)
    ensures Decimal(n) != "" && AllDigits(Decimal(n))
    ensures DecimalValue(Decimal(n)) == n
  {
    ToDigitsShape(10, n);
    if n == 0 {
      assert ReadDigits("0") == [0];
      assert Value(10, [0]) == Value(10, []) * 10 + 0;
    } else {
      SpellRead(ToDigits(10, n));
      ValueOfToDigits(10, n);
    }
  }

  lemma DecimalInjective(m: nat, n: nat)
    requires Decimal(m) == Decimal(n)
    ensures m == n
  {
    DecimalRoundTrip(m);
    DecimalRoundTrip(n);
  }
}
