/** The digest of call parameters: 64-bit FNV-1a (draft-eastlake-fnv, section 2) over the redacted value's text. */
module Digest {
  import Json
  import Positional
  import Redaction
  import opened Utf8

  const OFFSET_BASIS: nat := 0xcbf29ce484222325
  const PRIME: nat := 0x100000001b3
  const INVERSE: nat := 0xce965057aff6957b
  const TWO64: nat := 0x1_0000_0000_0000_0000

  /** Exclusive or of the low `n` bits. */
  function Xor(a: nat, b: nat, n: nat): nat {
    if n == 0 then 0 else (if a % 2 == b % 2 then 0 else 1) + 2 * Xor(a / 2, b / 2, n - 1)
  }

  function Pow2(n: nat): (r: nat)
    ensures r > 0
  {
    if n == 0 then 1 else 2 * Pow2(n - 1)
  }

  lemma {:induction false} XorBound(a: nat, b: nat, n: nat)
    ensures Xor(a, b, n) < Pow2(n)
    decreases n
  {
    if n > 0 {
      XorBound(a / 2, b / 2, n - 1);
    }
  }

  lemma {:induction false} XorInjective(a: nat, b: nat, c: nat, d: nat, n: nat)
    requires a < Pow2(n) && b < Pow2(n) && c < Pow2(n) && d < Pow2(n)
    requires Xor(a, c, n) == Xor(b, d, n)
    ensures a == b <==> c == d
    decreases n
  {
    if n > 0 {
      XorInjective(a / 2, b / 2, c / 2, d / 2, n - 1);
    }
  }

  lemma SmallPower()
    ensures Pow2(8) == 256
  {
  }

  lemma Width()
    ensures Pow2(64) == TWO64
  {
    hide Pow2;
    SmallPower();
    PowDouble(8);
    PowDouble(16);
    PowDouble(32);
  }

  lemma {:induction false} PowAdd(m: nat, n: nat)
    ensures Pow2(m + n) == Pow2(m) * Pow2(n)
    decreases n
  {
    if n > 0 {
      PowAdd(m, n - 1);
    }
  }

  lemma PowDouble(n: nat)
    ensures Pow2(2 * n) == Pow2(n) * Pow2(n)
  {
    hide Pow2;
    PowAdd(n, n);
  }

  /** One turn of the loop on the 64-bit state: xor, then the wrapping product. */
  function Step(hash: nat, b: byte): (r: nat)
    ensures r < TWO64
  {
    Xor(hash, b as nat, 64) * PRIME % TWO64
  }

  /** The prime is odd, so it has an inverse modulo 2^64: the wrapping product loses nothing. */
  lemma ProductInjective(x: nat, y: nat)
    requires x < TWO64 && y < TWO64
    requires x * PRIME % TWO64 == y * PRIME % TWO64
    ensures x == y
  {
    var q, r := x * PRIME / TWO64, y * PRIME / TWO64;
    assert x * PRIME == TWO64 * q + x * PRIME % TWO64;
    assert y * PRIME == TWO64 * r + y * PRIME % TWO64;
    Unscale(x - y, q - r);
  }

  lemma Unscale(d: int, k: int)
    requires d * PRIME == TWO64 * k && d < TWO64 && -d < TWO64
    ensures d == 0
  {
    var quotient: int := 887285111055;
    assert PRIME * INVERSE == TWO64 * quotient + 1;
    assert d == TWO64 * (k * INVERSE - d * quotient);
  }

  function Fold(hash: nat, bytes: seq<byte>): nat
    decreases |bytes|
  {
    if bytes == [] then hash else Fold(Step(hash, bytes[0]), bytes[1..])
  }

  lemma StepInjective(h: nat, g: nat, b: byte, c: byte)
    requires h < TWO64 && g < TWO64 && Step(h, b) == Step(g, c)
    ensures h == g <==> b == c
  {
    hide Xor, Pow2;
    Width();
    XorBound(h, b as nat, 64);
    XorBound(g, c as nat, 64);
    ProductInjective(Xor(h, b as nat, 64), Xor(g, c as nat, 64));
    XorInjective(h, g, b as nat, c as nat, 64);
  }

  lemma {:induction false} FoldConcat(h: nat, a: seq<byte>, b: seq<byte>)
    ensures Fold(h, a + b) == Fold(Fold(h, a), b)
    decreases |a|
  {
    hide Step;
    if a == [] {
      assert a + b == b;
    } else {
      assert (a + b)[1..] == a[1..] + b;
      FoldConcat(Step(h, a[0]), a[1..], b);
    }
  }

  lemma {:induction false} FoldBound(h: nat, bytes: seq<byte>)
    requires h < TWO64
    ensures Fold(h, bytes) < TWO64
    decreases |bytes|
  {
    hide Step;
    if bytes != [] {
      FoldBound(Step(h, bytes[0]), bytes[1..]);
    }
  }

  /** What follows never makes two different states meet again. */
  lemma {:induction false} FoldInjective(h: nat, g: nat, bytes: seq<byte>)
    requires h < TWO64 && g < TWO64
    ensures Fold(h, bytes) == Fold(g, bytes) <==> h == g
    decreases |bytes|
  {
    hide Step;
    if bytes != [] {
      FoldInjective(Step(h, bytes[0]), Step(g, bytes[0]), bytes[1..]);
      if Step(h, bytes[0]) == Step(g, bytes[0]) {
        StepInjective(h, g, bytes[0], bytes[0]);
      }
    }
  }

  // ----- sixteen digits -----

  lemma {:induction false} HexLength(n: nat, k: nat)
    requires n < Pow2(4 * k)
    ensures |Positional.ToDigits(16, n)| <= k
    decreases k
  {
    if n > 0 {
      assert Pow2(4 * k) == 2 * Pow2(4 * k - 1) && Pow2(4 * k - 1) == 2 * Pow2(4 * k - 2);
      assert Pow2(4 * k - 2) == 2 * Pow2(4 * k - 3) && Pow2(4 * k - 3) == 2 * Pow2(4 * k - 4);
      HexLength(n / 16, k - 1);
    }
  }

  lemma HexFits(h: nat)
    requires h < TWO64
    ensures |Positional.ToDigits(16, h)| <= 16
  {
    hide Pow2, Positional.ToDigits;
    Width();
    HexLength(h, 16);
  }

  /** The digits of a 64-bit number, filled up to sixteen. */
  function HexDigits(h: nat): (ds: Positional.Digits)
    requires h < TWO64
    ensures |ds| == 16 && Positional.InBase(16, ds)
  {
    hide Positional.ToDigits;
    HexFits(h);
    Positional.ToDigitsShape(16, h);
    var ds := Positional.ToDigits(16, h);
    Positional.Zeros(16 - |ds|) + ds
  }

  function Hex(h: nat): (s: string)
    requires h < TWO64
    ensures |s| == 16
  {
    seq(16, i requires 0 <= i < 16 => Json.HexDigit(HexDigits(h)[i]))
  }

  lemma DigitDiffers(m: nat, n: nat)
    requires m < 16 && n < 16 && Json.HexDigit(m) == Json.HexDigit(n)
    ensures m == n
  {
    assert forall i | 0 <= i < 10 :: "0123456789abcdef"[i] == (48 + i) as char;
    assert forall i | 10 <= i < 16 :: "0123456789abcdef"[i] == (87 + i) as char;
  }

  lemma HexInjective(h: nat, g: nat)
    requires h < TWO64 && g < TWO64
    ensures Hex(h) == Hex(g) <==> h == g
  {
    hide Json.HexDigit, Positional.ToDigits, Positional.Value, HexDigits;
    if Hex(h) == Hex(g) {
      forall i | 0 <= i < 16 ensures HexDigits(h)[i] == HexDigits(g)[i] {
        assert Hex(h)[i] == Hex(g)[i];
        DigitDiffers(HexDigits(h)[i], HexDigits(g)[i]);
      }
      assert HexDigits(h) == HexDigits(g);
      HexValue(h);
      HexValue(g);
    }
  }

  lemma HexValue(h: nat)
    requires h < TWO64
    ensures Positional.Value(16, HexDigits(h)) == h
  {
    hide Positional.ToDigits, Positional.Value;
    HexFits(h);
    Positional.ValueIgnoresLeadingZeros(16, 16 - |Positional.ToDigits(16, h)|, Positional.ToDigits(16, h));
    Positional.ValueOfToDigits(16, h);
  }

  // ----- the digest -----

  function DigestOfBytes(bytes: seq<byte>): string {
    FoldBound(OFFSET_BASIS, bytes);
    Hex(Fold(OFFSET_BASIS, bytes))
  }

  function DigestOf(v: Json.Value): string {
    DigestOfBytes(Encode(Json.ToText(Redaction.Redact(v))))
  }

  method ParameterDigest(value: Json.Value) returns (digest: string)
    ensures digest == DigestOf(value)
  {
    hide Hex, Encode, Json.ToText, Redaction.Redact, Xor;
    var redacted := Redaction.Redact(value);
    var encoded := Encode(Json.ToText(redacted));
    var hash: nat := OFFSET_BASIS;
    assert encoded[0..] == encoded;
    for i := 0 to |encoded|
      invariant hash < TWO64
      invariant Fold(hash, encoded[i..]) == Fold(OFFSET_BASIS, encoded)
    {
      assert encoded[i..][0] == encoded[i] && encoded[i..][1..] == encoded[i + 1..];
      var mixed := Xor(hash, encoded[i] as nat, 64);
      hash := mixed * PRIME % TWO64;
    }
    digest := Hex(hash);
  }

  /** Two encodings of the same length that differ in exactly one byte have different digests. */
  lemma OneByteChangesDigest(before: seq<byte>, x: byte, y: byte, after: seq<byte>)
    ensures DigestOfBytes(before + [x] + after) == DigestOfBytes(before + [y] + after) <==> x == y
  {
    hide Hex, Step;
    var state := Fold(OFFSET_BASIS, before);
    FoldBound(OFFSET_BASIS, before);
    FoldAround(before, x, after);
    FoldAround(before, y, after);
    FoldInjective(Step(state, x), Step(state, y), after);
    if Step(state, x) == Step(state, y) {
      StepInjective(state, state, x, y);
    }
    FoldBound(OFFSET_BASIS, before + [x] + after);
    FoldBound(OFFSET_BASIS, before + [y] + after);
    HexInjective(Fold(OFFSET_BASIS, before + [x] + after), Fold(OFFSET_BASIS, before + [y] + after));
  }

  lemma FoldAround(before: seq<byte>, x: byte, after: seq<byte>)
    ensures Fold(OFFSET_BASIS, before + [x] + after) == Fold(Step(Fold(OFFSET_BASIS, before), x), after)
  {
    hide Step;
    FoldConcat(OFFSET_BASIS, before + [x], after);
    FoldConcat(OFFSET_BASIS, before, [x]);
    var state := Fold(OFFSET_BASIS, before);
    assert [x][1..] == [] && Fold(state, [x]) == Fold(Step(state, x), []);
  }

  /** A shared ending hides nothing: the digests agree exactly when those of the beginnings do. */
  lemma SharedEnding(a: seq<byte>, b: seq<byte>, after: seq<byte>)
    ensures DigestOfBytes(a + after) == DigestOfBytes(b + after) <==> DigestOfBytes(a) == DigestOfBytes(b)
  {
    hide Hex, Step, Fold;
    FoldConcat(OFFSET_BASIS, a, after);
    FoldConcat(OFFSET_BASIS, b, after);
    FoldBound(OFFSET_BASIS, a);
    FoldBound(OFFSET_BASIS, b);
    FoldBound(OFFSET_BASIS, a + after);
    FoldBound(OFFSET_BASIS, b + after);
    FoldInjective(Fold(OFFSET_BASIS, a), Fold(OFFSET_BASIS, b), after);
    HexInjective(Fold(OFFSET_BASIS, a), Fold(OFFSET_BASIS, b));
    HexInjective(Fold(OFFSET_BASIS, a + after), Fold(OFFSET_BASIS, b + after));
  }

  /** The digest of an already redacted summary is the digest of the raw arguments. */
  lemma DigestOfSummary(arguments: Json.Value)
    ensures DigestOf(Redaction.Redact(arguments)) == DigestOf(arguments)
  {
    hide DigestOfBytes, Encode, Json.ToText, Redaction.Redact;
    Redaction.RedactIdempotent(arguments);
  }

  /** What redaction hides has no influence on the digest. */
  lemma HiddenPartsDoNotCount(v: Json.Value, w: Json.Value)
    requires Redaction.Same(v, w)
    ensures DigestOf(v) == DigestOf(w)
  {
    hide DigestOfBytes, Encode, Json.ToText, Redaction.Redact, Redaction.Same;
    Redaction.RedactedAlikeIff(v, w);
  }
}
