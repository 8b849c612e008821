/** The hash bit by bit and byte by byte, its published test vectors, and the encoding it is taken of. */
module DigestLaws {
  import opened Digest
  import opened Utf8
  import Json
  import Positional
  import Redaction

  // ----- exclusive or -----

  /** The bit of weight 2^i. */
  function BitOf(a: nat, i: nat): nat {
    a / Pow2(i) % 2
  }

  lemma DivTwice(a: nat, m: nat)
    requires m > 0
    ensures a / (2 * m) == a / 2 / m
  {
    var q := a / 2 / m;
    assert a / 2 == m * q + a / 2 % m;
    assert a == 2 * (m * q) + 2 * (a / 2 % m) + a % 2;
    var r := 2 * (a / 2 % m) + a % 2;
    assert 0 <= r < 2 * m;
    assert a == (2 * m) * q + r;
    Unique(a, 2 * m, q, r);
  }

  lemma Unique(a: nat, m: nat, q: nat, r: nat)
    requires m > 0 && a == m * q + r && r < m
    ensures a / m == q
  {
    assert a == m * (a / m) + a % m;
    assert m * (a / m - q) == r - a % m;
    Positional.MulByAtLeastOne(m, a / m - q);
  }

  /** Each of the low bits is one exactly where the two differ. */
  lemma {:induction false} XorBits(a: nat, b: nat, n: nat, i: nat)
    requires i < n
    ensures BitOf(Xor(a, b, n), i) == if BitOf(a, i) == BitOf(b, i) then 0 else 1
    decreases n
  {
    var x := Xor(a, b, n);
    if i == 0 {
      assert Pow2(0) == 1;
    } else {
      XorBits(a / 2, b / 2, n - 1, i - 1);
      assert Pow2(i) == 2 * Pow2(i - 1);
      DivTwice(x, Pow2(i - 1));
      DivTwice(a, Pow2(i - 1));
      DivTwice(b, Pow2(i - 1));
      assert x / 2 == Xor(a / 2, b / 2, n - 1);
    }
  }

  // ----- the hash -----

  /** The hash takes one byte after the other: exclusive or first, then the product by the prime in 64 bits. */
  lemma ByteByByte(bytes: seq<byte>, b: byte)
    ensures Fold(0xcbf29ce484222325, []) == 0xcbf29ce484222325
    ensures Fold(0xcbf29ce484222325, bytes + [b]) ==
            Xor(Fold(0xcbf29ce484222325, bytes), b as nat, 64) * 0x100000001b3 % 0x1_0000_0000_0000_0000
  {
    hide Step;
    FoldConcat(OFFSET_BASIS, bytes, [b]);
    var state := Fold(OFFSET_BASIS, bytes);
    assert [b][1..] == [] && Fold(state, [b]) == Fold(Step(state, b), []);
    OneStep(state, b);
  }

  lemma OneStep(state: nat, b: byte)
    ensures Step(state, b) == Xor(state, b as nat, 64) * PRIME % TWO64
  {
    hide Xor;
  }

  // ----- published vectors -----

  lemma {:induction false} ValueInjective(base: nat, a: Positional.Digits, b: Positional.Digits)
    requires base >= 2 && |a| == |b| && Positional.InBase(base, a) && Positional.InBase(base, b)
    requires Positional.Value(base, a) == Positional.Value(base, b)
    ensures a == b
    decreases |a|
  {
    if a != [] {
      var p, q := a[..|a| - 1], b[..|b| - 1];
      Positional.DivModUnique(base, Positional.Value(base, p), a[|a| - 1]);
      Positional.DivModUnique(base, Positional.Value(base, q), b[|b| - 1]);
      ValueInjective(base, p, q);
      assert a == p + [a[|a| - 1]] && b == q + [b[|b| - 1]];
    }
  }

  /** The digest's text has the digits of the hash, the highest first. */
  lemma HexIs(h: nat, ds: Positional.Digits)
    requires h < TWO64 && |ds| == 16 && Positional.InBase(16, ds) && Positional.Value(16, ds) == h
    ensures forall i | 0 <= i < 16 :: Hex(h)[i] == "0123456789abcdef"[ds[i]]
  {
    hide Positional.Value, HexDigits;
    HexValue(h);
    ValueInjective(16, HexDigits(h), ds);
  }

  lemma Snoc(front: Positional.Digits, d: nat, v: nat)
    requires Positional.Value(16, front) == v
    ensures Positional.Value(16, front + [d]) == 16 * v + d
  {
    Positional.ValueSnoc(16, front, d);
  }

  lemma FourDigits(front: Positional.Digits, a: nat, b: nat, c: nat, d: nat)
    ensures Positional.Value(16, front + [a, b, c, d]) == 65536 * Positional.Value(16, front) + 4096 * a + 256 * b + 16 * c + d
  {
    hide Positional.Value;
    var v := Positional.Value(16, front);
    Snoc(front, a, v);
    Snoc(front + [a], b, 16 * v + a);
    Snoc(front + [a] + [b], c, 256 * v + 16 * a + b);
    Snoc(front + [a] + [b] + [c], d, 4096 * v + 256 * a + 16 * b + c);
    assert front + [a] + [b] + [c] + [d] == front + [a, b, c, d];
  }

  /** The digest of nothing is the offset basis. */
  lemma DigestOfNothing()
    ensures DigestOfBytes([]) == "cbf29ce484222325"
  {
    hide Positional.Value, Hex;
    var basis: nat := 0xcbf29ce484222325;
    assert Fold(basis, []) == basis;
    var a: Positional.Digits := [12, 11, 15, 2];
    NoDigits();
    FourDigits([], 12, 11, 15, 2);
    FourDigits(a, 9, 12, 14, 4);
    FourDigits(a + [9, 12, 14, 4], 8, 4, 2, 2);
    FourDigits(a + [9, 12, 14, 4] + [8, 4, 2, 2], 2, 3, 2, 5);
    assert [] + a == a;
    var ds := a + [9, 12, 14, 4] + [8, 4, 2, 2] + [2, 3, 2, 5];
    HexIs(basis, ds);
    assert Hex(basis) == "cbf29ce484222325";
  }

  lemma NoDigits()
    ensures Positional.Value(16, []) == 0
  {
  }

  lemma {:induction false} XorZero(a: nat, n: nat)
    requires a < Pow2(n)
    ensures Xor(a, 0, n) == a
    decreases n
  {
    if n > 0 {
      XorZero(a / 2, n - 1);
    }
  }

  lemma XorStep(a: nat, b: nat, n: nat)
    requires n > 0
    ensures Xor(a, b, n) == (if a % 2 == b % 2 then 0 else 1) + 2 * Xor(a / 2, b / 2, n - 1)
  {
  }

  /** The basis and the byte 0x61 differ in two of the low bits. */
  lemma XorOfA()
    ensures Xor(0xcbf29ce484222325, 0x61, 64) == 0xcbf29ce484222344
  {
    hide Pow2, Xor;
    var b: nat := 0xcbf29ce484222325;
    XorStep(b, 0x61, 64);
    XorStep(b / 2, 0x30, 63);
    XorStep(b / 4, 0x18, 62);
    XorStep(b / 8, 0xc, 61);
    XorStep(b / 16, 6, 60);
    XorStep(b / 32, 3, 59);
    XorStep(b / 64, 1, 58);
    Width();
    PowDown();
    XorZero(b / 128, 57);
  }

  lemma PowDown()
    requires Pow2(64) == TWO64
    ensures Pow2(57) == 0x200000000000000
  {
    PowAdd(57, 7);
    assert Pow2(7) == 128;
  }

  const DIGITS_OF_A: Positional.Digits := [10, 15, 6, 3, 13, 12, 4, 12, 8, 6, 0, 1, 14, 12, 8, 12]

  lemma ValueOfA()
    ensures Positional.Value(16, DIGITS_OF_A) == 0xaf63dc4c8601ec8c
  {
    hide Positional.Value;
    var a: Positional.Digits := [10, 15, 6, 3];
    NoDigits();
    FourDigits([], 10, 15, 6, 3);
    FourDigits(a, 13, 12, 4, 12);
    FourDigits(a + [13, 12, 4, 12], 8, 6, 0, 1);
    FourDigits(a + [13, 12, 4, 12] + [8, 6, 0, 1], 14, 12, 8, 12);
    assert [] + a == a;
    assert a + [13, 12, 4, 12] + [8, 6, 0, 1] + [14, 12, 8, 12] == DIGITS_OF_A;
  }

  lemma HexOfA()
    ensures Hex(0xaf63dc4c8601ec8c) == "af63dc4c8601ec8c"
  {
    hide Positional.Value, Hex;
    ValueOfA();
    HexIs(0xaf63dc4c8601ec8c, DIGITS_OF_A);
  }

  /** The published 64-bit FNV-1a hash of the letter a. */
  lemma DigestOfA()
    ensures DigestOfBytes([0x61]) == "af63dc4c8601ec8c"
  {
    hide Hex, Xor, Fold;
    var one: byte := 0x61;
    ByteByByte([], one);
    assert [] + [one] == [one];
    XorOfA();
    HexOfA();
  }

  // ----- the bytes of a text -----

  /** The code point that starts a sequence of bytes, and how many bytes it takes. */
  function ReadChar(bytes: seq<byte>): (int, nat) {
    if bytes == [] then (0, 0)
    else if bytes[0] < 0x80 then (bytes[0] as int, 1)
    else if bytes[0] < 0xE0 && |bytes| >= 2 then (bytes[0] as int % 32 * 64 + bytes[1] as int % 64, 2)
    else if bytes[0] < 0xF0 && |bytes| >= 3 then (bytes[0] as int % 16 * 4096 + bytes[1] as int % 64 * 64 + bytes[2] as int % 64, 3)
    else if |bytes| >= 4 then
      (bytes[0] as int % 8 * 262144 + bytes[1] as int % 64 * 4096 + bytes[2] as int % 64 * 64 + bytes[3] as int % 64, 4)
    else (0, 0)
  }

  lemma Low(n: nat)
    ensures n == n / 64 * 64 + n % 64
    ensures (0x80 + n % 64) % 64 == n % 64 && (0x80 + n / 64 % 64) % 64 == n / 64 % 64 && (0x80 + n / 4096 % 64) % 64 == n / 4096 % 64
    ensures n / 4096 == n / 64 / 64 && n / 262144 == n / 4096 / 64
  {
  }

  lemma OneByte(n: nat, more: seq<byte>)
    requires n < 0x80
    ensures ReadChar([n as byte] + more) == (n, 1)
  {
  }

  lemma TwoBytes(n: nat, more: seq<byte>)
    requires 0x80 <= n < 0x800
    ensures ReadChar([(0xC0 + n / 64) as byte, (0x80 + n % 64) as byte] + more) == (n, 2)
  {
    Low(n);
    Lead(0xC0, 32, n / 64);
    var a, b := 0xC0 + n / 64, 0x80 + n % 64;
    ReadTwo(a as byte, b as byte, more);
  }

  lemma Lead(mark: nat, size: nat, high: nat)
    requires (mark == 0xC0 && size == 32) || (mark == 0xE0 && size == 16) || (mark == 0xF0 && size == 8)
    requires high < size
    ensures (mark + high) % size == high
  {
  }

  lemma ReadTwo(a: byte, b: byte, more: seq<byte>)
    requires 0xC0 <= a < 0xE0
    ensures ReadChar([a, b] + more) == (a as int % 32 * 64 + b as int % 64, 2)
  {
  }

  lemma ReadThree(a: byte, b: byte, c: byte, more: seq<byte>)
    requires 0xE0 <= a < 0xF0
    ensures ReadChar([a, b, c] + more) == (a as int % 16 * 4096 + b as int % 64 * 64 + c as int % 64, 3)
  {
  }

  lemma ReadFour(a: byte, b: byte, c: byte, d: byte, more: seq<byte>)
    requires 0xF0 <= a
    ensures ReadChar([a, b, c, d] + more) == (a as int % 8 * 262144 + b as int % 64 * 4096 + c as int % 64 * 64 + d as int % 64, 4)
  {
  }

  lemma ThreeBytes(n: nat, more: seq<byte>)
    requires 0x800 <= n < 0x10000
    ensures ReadChar([(0xE0 + n / 4096) as byte, (0x80 + n / 64 % 64) as byte, (0x80 + n % 64) as byte] + more) == (n, 3)
  {
    Low(n);
    Low(n / 64);
    Lead(0xE0, 16, n / 4096);
    var a, b, c := 0xE0 + n / 4096, 0x80 + n / 64 % 64, 0x80 + n % 64;
    ReadThree(a as byte, b as byte, c as byte, more);
  }

  lemma FourBytes(n: nat, more: seq<byte>)
    requires 0x10000 <= n < 0x110000
    ensures ReadChar([(0xF0 + n / 262144) as byte, (0x80 + n / 4096 % 64) as byte, (0x80 + n / 64 % 64) as byte, (0x80 + n % 64) as byte]
                     + more) == (n, 4)
  {
    Low(n);
    Low(n / 64);
    Low(n / 4096);
    Lead(0xF0, 8, n / 262144);
    var a, b, c, d := 0xF0 + n / 262144, 0x80 + n / 4096 % 64, 0x80 + n / 64 % 64, 0x80 + n % 64;
    ReadFour(a as byte, b as byte, c as byte, d as byte, more);
  }

  /** Every character is read back from its bytes, whatever follows. */
  lemma CharReadsBack(c: char, more: seq<byte>)
    ensures ReadChar(EncodeChar(c) + more) == (c as int, |EncodeChar(c)|)
  {
    hide ReadChar;
    var n := c as int;
    if n < 0x80 {
      OneByte(n, more);
    } else if n < 0x800 {
      TwoBytes(n, more);
    } else if n < 0x10000 {
      ThreeBytes(n, more);
    } else {
      FourBytes(n, more);
    }
  }

  lemma EncodeStep(s: string)
    ensures s == "" ==> Encode(s) == []
    ensures s != "" ==> Encode(s) == EncodeChar(s[0]) + Encode(s[1..]) && Encode(s) != []
  {
  }

  /** Texts with equal bytes are equal. */
  lemma {:induction false} EncodeInjective(s: string, t: string)
    requires Encode(s) == Encode(t)
    ensures s == t
    decreases |s|
  {
    EncodeStep(s);
    EncodeStep(t);
    hide *;
    if s != "" {
      CharReadsBack(s[0], Encode(s[1..]));
      CharReadsBack(t[0], Encode(t[1..]));
      var n := |EncodeChar(s[0])|;
      assert Encode(s)[n..] == Encode(s[1..]) && Encode(t)[n..] == Encode(t[1..]);
      EncodeInjective(s[1..], t[1..]);
      assert s == [s[0]] + s[1..] && t == [t[0]] + t[1..];
    }
  }

  // ----- what is hashed -----

  /** The codes of a text of printable ASCII characters. */
  function Codes(s: string): (r: seq<byte>)
    requires forall c | c in s :: IsPlain(c)
    ensures |r| == |s| && forall i | 0 <= i < |s| :: r[i] as int == s[i] as int
  {
    if s == "" then [] else
    assert s[0] in s && IsPlain(s[0]);
    var code := s[0] as int;
    assert 32 <= code <= 126;
    [code as byte] + Codes(s[1..])
  }

  predicate IsPlain(c: char) {
    ' ' <= c <= '~' && c != '"' && c != '\\'
  }

  lemma {:induction false} PlainEncodes(s: string, more: string)
    requires forall c | c in s :: IsPlain(c)
    ensures Encode(s + more) == Codes(s) + Encode(more)
    decreases |s|
  {
    if s == "" {
      assert s + more == more;
    } else {
      assert s[0] in s && (s + more)[0] == s[0] && (s + more)[1..] == s[1..] + more;
      PlainEncodes(s[1..], more);
    }
  }

  lemma {:induction false} PlainIsNotEscaped(s: string)
    requires forall c | c in s :: IsPlain(c)
    ensures Json.EscapeString(s) == s
    decreases |s|
  {
    hide Json.EscapeChar, IsPlain;
    if s != "" {
      assert s[0] in s;
      PlainIsKept(s[0]);
      PlainIsNotEscaped(s[1..]);
      assert [s[0]] + s[1..] == s;
    }
  }

  lemma PlainIsKept(c: char)
    requires IsPlain(c)
    ensures Json.EscapeChar(c) == [c]
  {
  }

  /** The digest of a short plain text is the hash of its characters in double quotes; that of any value, of its redacted text. */
  lemma DigestIs(s: string, v: Json.Value)
    requires |s| <= 160 && forall c | c in s :: IsPlain(c)
    ensures DigestOf(Json.Str(s)) == DigestOfBytes([0x22] + Codes(s) + [0x22])
    ensures DigestOf(v) == DigestOfBytes(Encode(Json.ToText(Redaction.Redact(v))))
  {
    PlainIsNotEscaped(s);
    PlainEncodes(s, "\"");
    var quote: string := "\"";
    QuoteEncodes(s + quote);
    hide DigestOfBytes, Encode, Json.EscapeString, Codes;
    assert Json.ToText(Redaction.Redact(Json.Str(s))) == quote + s + quote == quote + (s + quote);
    assert [0x22] + (Codes(s) + [0x22]) == [0x22] + Codes(s) + [0x22];
  }

  lemma QuoteEncodes(s: string)
    ensures Encode("\"" + s) == [0x22] + Encode(s) && Encode("\"") == [0x22]
  {
    var quote: string := "\"";
    assert (quote + s)[0] == '"' && (quote + s)[1..] == s && quote[1..] == "";
  }
}
