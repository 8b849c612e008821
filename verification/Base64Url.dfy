/** Base64url text (RFC 4648, section 5) to bytes, through a 32-bit register that drops its high bits. */
module Base64Url {
  import opened Wrappers
  import Alphabet

  const UPPER := "ABCDEFGHIJKLMNOPQRSTUVWXYZ"
  const LOWER := "abcdefghijklmnopqrstuvwxyz"
  const DIGITS := "0123456789"
  const TABLE := UPPER + LOWER + DIGITS + "-_"

  const TWO32 := 0x1_0000_0000

  type Bytes = seq<nat>

  ghost predicate AreBytes(bs: Bytes) {
    forall i | 0 <= i < |bs| :: bs[i] < 256
  }

  /** The low `n` bits, and the bits above them. */
  function Low(bits: nat, n: nat): nat {
    if n == 0 then 0 else bits % 2 + 2 * Low(bits / 2, n - 1)
  }

  function High(bits: nat, n: nat): nat {
    if n == 0 then bits else High(bits / 2, n - 1)
  }

  /** The part of the text before the padding. */
  function Unpadded(s: string): string {
    if s == "" || s[0] == '=' then "" else [s[0]] + Unpadded(s[1..])
  }

  // ----- what decoding means -----

  /** The bytes of six-bit groups, with `pending` the `count` bits not yet given out. */
  function Octets(groups: seq<nat>, pending: nat, count: nat): Bytes
    decreases |groups|
  {
    if groups == [] then [] else
    var bits := pending * 64 + groups[0];
    if count + 6 >= 8 then
      [High(bits, count - 2)] + Octets(groups[1..], Low(bits, count - 2), count - 2)
    else Octets(groups[1..], bits, count + 6)
  }

  function Decode(s: string): Result<Bytes, string> {
    match Alphabet.Digits(TABLE, Unpadded(s))
    case None => Err("invalid base64url character")
    case Some(groups) => Ok(Octets(groups, 0, 0))
  }

  /** The encoder: three bytes to four groups, and a shorter rest without padding. */
  function Groups(bs: Bytes): seq<nat>
    decreases |bs|
  {
    if bs == [] then []
    else if |bs| == 1 then [bs[0] / 4, bs[0] % 4 * 16]
    else if |bs| == 2 then [bs[0] / 4, bs[0] % 4 * 16 + bs[1] / 16, bs[1] % 16 * 4]
    else FourOf(bs[0], bs[1], bs[2]) + Groups(bs[3..])
  }

  function FourOf(x: nat, y: nat, z: nat): (r: seq<nat>)
    ensures x < 256 && y < 256 && z < 256 ==> forall i | 0 <= i < |r| :: r[i] < 64
  {
    [x / 4, x % 4 * 16 + y / 16, y % 16 * 4 + z / 64, z % 64]
  }

  lemma {:induction false} GroupsFit(bs: Bytes)
    requires AreBytes(bs)
    ensures forall i | 0 <= i < |Groups(bs)| :: Groups(bs)[i] < 64
    decreases |bs|
  {
    if |bs| > 2 {
      GroupsFit(bs[3..]);
    }
  }

  function Encode(bs: Bytes): string
    requires AreBytes(bs)
  {
    GroupsFit(bs);
    TableSize();
    Alphabet.Spell(TABLE, Groups(bs))
  }

  lemma TableSize()
    ensures |TABLE| == 64
  {
  }

  lemma OctetsStep(groups: seq<nat>, pending: nat, count: nat)
    requires groups != []
    ensures var bits := pending * 64 + groups[0];
      Octets(groups, pending, count) ==
      if count + 6 >= 8 then [High(bits, count - 2)] + Octets(groups[1..], Low(bits, count - 2), count - 2)
      else Octets(groups[1..], bits, count + 6)
  {
  }

  lemma HighBits(x: nat)
    ensures High(x, 0) == x && High(x, 2) == x / 4 && High(x, 4) == x / 16
  {
    assert High(x, 2) == High(x / 2, 1) == High(x / 2 / 2, 0);
    assert High(x, 4) == High(x / 2, 3) == High(x / 2 / 2, 2) == High(x / 2 / 2 / 2, 1) == High(x / 2 / 2 / 2 / 2, 0);
  }

  lemma LowStep(x: nat, n: nat, m: nat)
    requires n >= 2 && (m == 1 || m == 4 || m == 16) && Low(x / 4, n - 2) == x / 4 % m
    ensures Low(x, n) == x % (4 * m)
  {
    assert Low(x, n) == x % 2 + 2 * Low(x / 2, n - 1);
    assert Low(x / 2, n - 1) == x / 2 % 2 + 2 * Low(x / 2 / 2, n - 2);
    assert x / 2 / 2 == x / 4;
    assert x == 4 * (x / 4) + 2 * (x / 2 % 2) + x % 2;
    Quotient(4 * m, x, x / 4 / m, 4 * (x / 4 % m) + 2 * (x / 2 % 2) + x % 2);
  }

  lemma LowBits(x: nat)
    ensures Low(x, 0) == 0 && Low(x, 2) == x % 4 && Low(x, 4) == x % 16 && Low(x, 6) == x % 64
  {
    hide Low;
    NoBits(x);
    NoBits(x / 4);
    NoBits(x / 4 / 4);
    NoBits(x / 4 / 4 / 4);
    LowStep(x, 2, 1);
    LowStep(x / 4, 2, 1);
    LowStep(x / 4 / 4, 2, 1);
    LowStep(x, 4, 4);
    LowStep(x / 4, 4, 4);
    LowStep(x, 6, 16);
  }

  lemma NoBits(x: nat)
    ensures Low(x, 0) == 0
  {
  }

  lemma Quotient(m: nat, n: nat, q: nat, r: nat)
    requires (m == 4 || m == 16 || m == 64) && r < m && n == q * m + r
    ensures n / m == q && n % m == r
  {
  }

  /** One group after six pending bits, four, two or none. */
  lemma Feed(a: nat, b: nat)
    requires b < 64
    ensures var bits := a * 64 + b;
      && High(bits, 4) == a * 4 + b / 16 && Low(bits, 4) == b % 16
      && High(bits, 2) == a * 16 + b / 4 && Low(bits, 2) == b % 4
      && High(bits, 0) == bits && Low(bits, 0) == 0
  {
    hide High, Low;
    HighBits(a * 64 + b);
    LowBits(a * 64 + b);
    Quotient(16, a * 64 + b, a * 4 + b / 16, b % 16);
    Quotient(4, a * 64 + b, a * 16 + b / 4, b % 4);
  }

  lemma GroupIn(g: nat, rest: seq<nat>, pending: nat, count: nat)
    requires g < 64
    ensures count == 0 ==> Octets([g] + rest, pending, count) == Octets(rest, pending * 64 + g, 6)
    ensures count == 6 ==> Octets([g] + rest, pending, count) == [pending * 4 + g / 16] + Octets(rest, g % 16, 4)
    ensures count == 4 ==> Octets([g] + rest, pending, count) == [pending * 16 + g / 4] + Octets(rest, g % 4, 2)
    ensures count == 2 ==> Octets([g] + rest, pending, count) == [pending * 64 + g] + Octets(rest, 0, 0)
  {
    hide Octets, High, Low;
    assert ([g] + rest)[1..] == rest;
    OctetsStep([g] + rest, pending, count);
    Feed(pending, g);
  }

  /** Four groups carry three bytes and leave nothing pending. */
  lemma FourGroups(a: nat, b: nat, c: nat, d: nat, rest: seq<nat>)
    requires a < 64 && b < 64 && c < 64 && d < 64
    ensures Octets([a, b, c, d] + rest, 0, 0) == [a * 4 + b / 16, b % 16 * 16 + c / 4, c % 4 * 64 + d] + Octets(rest, 0, 0)
  {
    hide Octets;
    assert [a, b, c, d] + rest == [a] + ([b] + ([c] + ([d] + rest)));
    GroupIn(a, [b] + ([c] + ([d] + rest)), 0, 0);
    GroupIn(b, [c] + ([d] + rest), a, 6);
    GroupIn(c, [d] + rest, b % 16, 4);
    GroupIn(d, rest, c % 4, 2);
    Appended(a * 4 + b / 16, b % 16 * 16 + c / 4, c % 4 * 64 + d, Octets(rest, 0, 0));
  }

  lemma Appended(x: nat, y: nat, z: nat, tail: Bytes)
    ensures [x] + ([y] + ([z] + tail)) == [x, y, z] + tail
  {
  }

  lemma LastGroups(a: nat, b: nat, c: nat)
    requires a < 64 && b < 64 && c < 64
    ensures Octets([a, b], 0, 0) == [a * 4 + b / 16]
    ensures Octets([a, b, c], 0, 0) == [a * 4 + b / 16, b % 16 * 16 + c / 4]
  {
    hide Octets;
    NoGroups();
    assert [a, b] == [a] + ([b] + []) && [a, b, c] == [a] + ([b] + ([c] + []));
    GroupIn(a, [b] + [], 0, 0);
    GroupIn(a, [b] + ([c] + []), 0, 0);
    GroupIn(b, [], a, 6);
    GroupIn(b, [c] + [], a, 6);
    GroupIn(c, [], b % 16, 4);
  }

  lemma NoGroups()
    ensures forall pending, count :: Octets([], pending, count) == []
  {
  }

  /** Three bytes come back from their four groups. */
  lemma Regroup(x: nat, y: nat, z: nat)
    requires x < 256 && y < 256 && z < 256
    ensures var a, b, c, d := x / 4, x % 4 * 16 + y / 16, y % 16 * 4 + z / 64, z % 64;
      && a < 64 && b < 64 && c < 64 && d < 64
      && a * 4 + b / 16 == x && b % 16 * 16 + c / 4 == y && c % 4 * 64 + d == z
  {
    Quotient(16, x % 4 * 16 + y / 16, x % 4, y / 16);
    Quotient(4, y % 16 * 4 + z / 64, y % 16, z / 64);
  }

  lemma {:induction false} OctetsOfGroups(bs: Bytes)
    requires AreBytes(bs)
    ensures Octets(Groups(bs), 0, 0) == bs
    decreases |bs|
  {
    hide Octets;
    if bs == [] {
      NoGroups();
    } else if |bs| == 1 {
      Regroup(bs[0], 0, 0);
      LastGroups(bs[0] / 4, bs[0] % 4 * 16, 0);
    } else if |bs| == 2 {
      Regroup(bs[0], bs[1], 0);
      LastGroups(bs[0] / 4, bs[0] % 4 * 16 + bs[1] / 16, bs[1] % 16 * 4);
    } else {
      OctetsOfGroups(bs[3..]);
      LongGroups(bs);
    }
  }

  /** Four groups that regroup to three given bytes. */
  lemma ThreeBytes(x: nat, y: nat, z: nat, a: nat, b: nat, c: nat, d: nat, rest: seq<nat>)
    requires a < 64 && b < 64 && c < 64 && d < 64
    requires a * 4 + b / 16 == x && b % 16 * 16 + c / 4 == y && c % 4 * 64 + d == z
    ensures Octets([a, b, c, d] + rest, 0, 0) == [x, y, z] + Octets(rest, 0, 0)
  {
    hide Octets;
    FourGroups(a, b, c, d, rest);
  }

  lemma FourBack(x: nat, y: nat, z: nat, rest: seq<nat>)
    requires x < 256 && y < 256 && z < 256
    ensures Octets(FourOf(x, y, z) + rest, 0, 0) == [x, y, z] + Octets(rest, 0, 0)
  {
    hide Octets;
    Regroup(x, y, z);
    ThreeBytes(x, y, z, x / 4, x % 4 * 16 + y / 16, y % 16 * 4 + z / 64, z % 64, rest);
  }

  lemma GroupsStep(bs: Bytes)
    requires |bs| > 2
    ensures Groups(bs) == FourOf(bs[0], bs[1], bs[2]) + Groups(bs[3..])
  {
    hide FourOf;
  }

  lemma LongGroups(bs: Bytes)
    requires AreBytes(bs) && |bs| > 2
    ensures Octets(Groups(bs), 0, 0) == bs[..3] + Octets(Groups(bs[3..]), 0, 0)
  {
    hide Octets, FourOf, Groups;
    GroupsStep(bs);
    FourBack(bs[0], bs[1], bs[2], Groups(bs[3..]));
    assert [bs[0], bs[1], bs[2]] == bs[..3];
  }

  lemma TableDistinct()
    ensures Alphabet.Distinct(TABLE)
    ensures '=' !in TABLE
  {
    hide Alphabet.Distinct;
    Runs();
    Alphabet.RunDistinct(UPPER, 'A');
    Alphabet.RunDistinct(LOWER, 'a');
    Alphabet.RunDistinct(DIGITS, '0');
    LastTwo();
    Alphabet.DistinctConcat(UPPER, LOWER);
    Alphabet.DistinctConcat(UPPER + LOWER, DIGITS);
    Alphabet.DistinctConcat(UPPER + LOWER + DIGITS, "-_");
  }

  lemma LastTwo()
    ensures Alphabet.Distinct("-_") && forall c | c in "-_" :: c == '-' || c == '_'
  {
  }

  lemma Runs()
    ensures |UPPER| == 26 && |LOWER| == 26 && |DIGITS| == 10
    ensures Alphabet.IsRun(UPPER, 'A') && Alphabet.IsRun(LOWER, 'a') && Alphabet.IsRun(DIGITS, '0')
  {
  }

  lemma {:induction false} UnpaddedPrefix(s: string, more: string)
    requires '=' !in s && (more == "" || more[0] == '=')
    ensures Unpadded(s + more) == s
    decreases |s|
  {
    if s == "" {
      assert s + more == more;
    } else {
      assert (s + more)[1..] == s[1..] + more;
      UnpaddedPrefix(s[1..], more);
    }
  }

  lemma {:induction false} SpelledIn(alphabet: string, ds: seq<nat>)
    requires forall i | 0 <= i < |ds| :: ds[i] < |alphabet|
    ensures forall c | c in Alphabet.Spell(alphabet, ds) :: c in alphabet
    decreases |ds|
  {
    if ds != [] {
      SpelledIn(alphabet, ds[1..]);
    }
  }

  /** Decoding inverts the unpadded encoding of every byte string, and stops at padding whatever follows it. */
  lemma DecodeOfEncoded(bs: Bytes, more: string)
    requires AreBytes(bs) && (more == "" || more[0] == '=')
    ensures Decode(Encode(bs) + more) == Ok(bs)
  {
    hide Octets, Groups, Alphabet.Spell, Alphabet.Digits;
    TableSize();
    TableDistinct();
    GroupsFit(bs);
    SpelledIn(TABLE, Groups(bs));
    UnpaddedPrefix(Encode(bs), more);
    Alphabet.DigitsOfSpelled(TABLE, Groups(bs));
    OctetsOfGroups(bs);
  }

  // ----- canonical texts -----

  ghost predicate AreGroups(gs: seq<nat>) {
    forall i | 0 <= i < |gs| :: gs[i] < 64
  }

  /** No group stands alone at the end, and the bits of the last group that make no byte are zero. */
  predicate IsCanonical(gs: seq<nat>) {
    && |gs| % 4 != 1
    && (|gs| % 4 == 2 ==> gs[|gs| - 1] % 16 == 0)
    && (|gs| % 4 == 3 ==> gs[|gs| - 1] % 4 == 0)
  }

  lemma RegroupBack(a: nat, b: nat, c: nat, d: nat)
    requires a < 64 && b < 64 && c < 64 && d < 64
    ensures var x, y, z := a * 4 + b / 16, b % 16 * 16 + c / 4, c % 4 * 64 + d;
      && x < 256 && y < 256 && z < 256
      && x / 4 == a && x % 4 * 16 + y / 16 == b && y % 16 * 4 + z / 64 == c && z % 64 == d
      && x % 4 * 16 == b - b % 16 && y % 16 * 4 == c - c % 4
  {
    Quotient(4, a * 4 + b / 16, a, b / 16);
    Quotient(16, b % 16 * 16 + c / 4, b % 16, c / 4);
    Quotient(64, c % 4 * 64 + d, c % 4, d);
  }

  lemma LoneGroup(a: nat)
    requires a < 64
    ensures Octets([a], 0, 0) == []
  {
    hide Octets;
    NoGroups();
    assert [a] == [a] + [];
    GroupIn(a, [], 0, 0);
  }

  lemma GroupsOfTwo(x: nat, y: nat)
    ensures Groups([x]) == [x / 4, x % 4 * 16]
    ensures Groups([x, y]) == [x / 4, x % 4 * 16 + y / 16, y % 16 * 4]
    ensures Groups([]) == []
  {
  }

  lemma TwoGroupsBackIff(a: nat, b: nat)
    requires a < 64 && b < 64
    ensures AreBytes(Octets([a, b], 0, 0))
    ensures Groups(Octets([a, b], 0, 0)) == [a, b] <==> b % 16 == 0
  {
    hide Octets, Groups;
    var x := a * 4 + b / 16;
    LastGroups(a, b, 0);
    RegroupBack(a, b, 0, 0);
    GroupsOfTwo(x, 0);
    assert x / 4 == a && x % 4 * 16 == b - b % 16;
  }

  lemma ThreeGroupsBackIff(a: nat, b: nat, c: nat)
    requires a < 64 && b < 64 && c < 64
    ensures AreBytes(Octets([a, b, c], 0, 0))
    ensures Groups(Octets([a, b, c], 0, 0)) == [a, b, c] <==> c % 4 == 0
  {
    hide Octets, Groups;
    var x, y := a * 4 + b / 16, b % 16 * 16 + c / 4;
    LastGroups(a, b, c);
    RegroupBack(a, b, c, 0);
    GroupsOfTwo(x, y);
    assert x / 4 == a && x % 4 * 16 + y / 16 == b && y % 16 * 4 == c - c % 4;
  }

  lemma FewGroupsBackIff(gs: seq<nat>)
    requires AreGroups(gs) && |gs| < 4
    ensures AreBytes(Octets(gs, 0, 0))
    ensures Groups(Octets(gs, 0, 0)) == gs <==> IsCanonical(gs)
  {
    hide Octets, Groups;
    NoGroups();
    GroupsOfTwo(0, 0);
    if |gs| == 1 {
      LoneGroup(gs[0]);
      assert gs == [gs[0]];
    } else if |gs| == 2 {
      assert gs == [gs[0], gs[1]];
      TwoGroupsBackIff(gs[0], gs[1]);
    } else if |gs| == 3 {
      assert gs == [gs[0], gs[1], gs[2]];
      ThreeGroupsBackIff(gs[0], gs[1], gs[2]);
    } else {
      assert gs == [];
    }
  }

  lemma FourBackFirst(a: nat, b: nat, c: nat, d: nat, rest: seq<nat>)
    requires a < 64 && b < 64 && c < 64 && d < 64 && AreBytes(Octets(rest, 0, 0))
    ensures AreBytes(Octets([a, b, c, d] + rest, 0, 0))
    ensures Groups(Octets([a, b, c, d] + rest, 0, 0)) == [a, b, c, d] + Groups(Octets(rest, 0, 0))
  {
    hide Octets, Groups;
    var x, y, z, tail := a * 4 + b / 16, b % 16 * 16 + c / 4, c % 4 * 64 + d, Octets(rest, 0, 0);
    RegroupBack(a, b, c, d);
    FourGroups(a, b, c, d, rest);
    var bytes := [x, y, z] + tail;
    GroupsStep(bytes);
    assert bytes[3..] == tail;
    assert FourOf(x, y, z) == [a, b, c, d];
  }

  /** Encoding what groups decode to gives the groups back exactly when they are canonical. */
  lemma {:induction false} GroupsBackIff(gs: seq<nat>)
    requires AreGroups(gs)
    ensures AreBytes(Octets(gs, 0, 0))
    ensures Groups(Octets(gs, 0, 0)) == gs <==> IsCanonical(gs)
    decreases |gs|
  {
    hide Octets, Groups;
    if |gs| < 4 {
      FewGroupsBackIff(gs);
    } else {
      var rest := gs[4..];
      GroupsBackIff(rest);
      FourBackFirst(gs[0], gs[1], gs[2], gs[3], rest);
      assert gs == [gs[0], gs[1], gs[2], gs[3]] + rest;
      CanonicalRest(gs);
      SameTail([gs[0], gs[1], gs[2], gs[3]], Groups(Octets(rest, 0, 0)), rest);
    }
  }

  lemma CanonicalRest(gs: seq<nat>)
    requires |gs| >= 4
    ensures IsCanonical(gs) <==> IsCanonical(gs[4..])
  {
    assert |gs[4..]| % 4 == |gs| % 4;
    if |gs| > 4 {
      assert gs[4..][|gs| - 5] == gs[|gs| - 1];
    }
  }

  lemma SameTail(a: seq<nat>, b: seq<nat>, c: seq<nat>)
    ensures a + b == a + c <==> b == c
  {
    if a + b == a + c {
      assert b == (a + b)[|a|..] && c == (a + c)[|a|..];
    }
  }

  /** A text is the encoding of what it decodes to exactly when its groups are canonical. */
  lemma EncodesBackIff(s: string)
    requires Decode(s).Ok?
    ensures var groups := Alphabet.Digits(TABLE, Unpadded(s));
      && groups.Some? && AreBytes(Decode(s).value)
      && (Encode(Decode(s).value) == Unpadded(s) <==> IsCanonical(groups.value))
  {
    hide Octets, Groups, Alphabet.Digits, Alphabet.Spell, Unpadded, IsCanonical;
    TableSize();
    TableDistinct();
    var gs := Alphabet.Digits(TABLE, Unpadded(s)).value;
    GroupsBackIff(gs);
    GroupsFit(Octets(gs, 0, 0));
    Alphabet.SpelledDigits(TABLE, Unpadded(s));
    Alphabet.DigitsOfSpelled(TABLE, Groups(Octets(gs, 0, 0)));
  }

  /** Two canonical texts with the same bytes are the same but for their padding. */
  lemma CanonicalInjective(s: string, t: string)
    requires Decode(s).Ok? && Decode(s) == Decode(t)
    requires IsCanonical(Alphabet.Digits(TABLE, Unpadded(s)).value) && IsCanonical(Alphabet.Digits(TABLE, Unpadded(t)).value)
    ensures Unpadded(s) == Unpadded(t)
  {
    hide Encode, Alphabet.Digits, Unpadded, IsCanonical, Octets;
    EncodesBackIff(s);
    EncodesBackIff(t);
  }

  lemma DecodeTwo(a: nat, b: nat)
    requires a < 64 && b < 64
    ensures |TABLE| == 64 && Decode([TABLE[a], TABLE[b]]) == Ok([a * 4 + b / 16])
  {
    hide Octets, Alphabet.Digits, Alphabet.Spell, Unpadded, Alphabet.Distinct;
    TableSize();
    TableDistinct();
    var s := [TABLE[a], TABLE[b]];
    TwoSpelled(a, b);
    Alphabet.DigitsOfSpelled(TABLE, [a, b]);
    assert '=' !in s && s + "" == s;
    UnpaddedPrefix(s, "");
    LastGroups(a, b, 0);
  }

  /** The bits left over at the end are dropped unseen, so different texts can give the same bytes. */
  lemma NotInjective(a: nat, b: nat, c: nat)
    requires a < 64 && b < 64 && c < 64 && b / 16 == c / 16
    ensures |TABLE| == 64 && Decode([TABLE[a], TABLE[b]]) == Decode([TABLE[a], TABLE[c]])
  {
    hide Decode;
    DecodeTwo(a, b);
    DecodeTwo(a, c);
  }

  lemma TwoSpelled(a: nat, b: nat)
    requires a < |TABLE| && b < |TABLE|
    ensures Alphabet.Spell(TABLE, [a, b]) == [TABLE[a], TABLE[b]]
  {
    assert [a, b][1..] == [b] && [b][1..] == [];
    assert Alphabet.Spell(TABLE, [b]) == [TABLE[b]] + "";
  }

  // ----- the register -----

  /** The 32-bit register agrees with the pending bits on its low `count` bits, which are all that is read. */
  ghost predicate Holds(bits: nat, pending: nat, count: nat) {
    bits < TWO32 && (count == 0 || count == 2 || count == 4 || count == 6) && Low(bits, count) == pending
  }

  /** What the register keeps of its old bits when it is shifted. */
  lemma ShiftDrops(bits: nat)
    ensures bits * 64 % TWO32 == bits % 0x400_0000 * 64
  {
    var high, low := bits / 0x400_0000, bits % 0x400_0000;
    assert bits == 0x400_0000 * high + low;
    assert bits * 64 == TWO32 * high + low * 64;
  }

  lemma ShiftFrom0(bits: nat, group: nat)
    requires group < 64
    ensures (bits * 64 % TWO32 + group) % 64 == group
  {
    ShiftDrops(bits);
  }

  lemma ShiftFrom2(bits: nat, pending: nat, group: nat)
    requires bits % 4 == pending && group < 64
    ensures var shifted, next := bits * 64 % TWO32 + group, pending * 64 + group;
      shifted % 1 == next % 1 && shifted / 1 % 256 == next / 1
  {
    ShiftDrops(bits);
    var low := bits % 0x400_0000;
    assert low % 4 == pending;
    assert low * 64 + group == 256 * (low / 4) + (pending * 64 + group);
  }

  lemma LowOfLow(bits: nat, m: nat)
    requires m == 16 || m == 64
    ensures bits % 0x400_0000 % m == bits % m
    ensures bits % 0x400_0000 == m * (bits % 0x400_0000 / m) + bits % m
  {
    var high, low := bits / 0x400_0000, bits % 0x400_0000;
    if m == 16 {
      Quotient(16, bits, 0x40_0000 * high + low / 16, low % 16);
    } else {
      Quotient(64, bits, 0x10_0000 * high + low / 64, low % 64);
    }
  }

  lemma ShiftFrom4(bits: nat, pending: nat, group: nat)
    requires bits % 16 == pending && group < 64
    ensures var shifted, next := bits * 64 % TWO32 + group, pending * 64 + group;
      shifted % 4 == next % 4 && shifted / 4 % 256 == next / 4
  {
    ShiftDrops(bits);
    LowOfLow(bits, 16);
    var low, next := bits % 0x400_0000, pending * 64 + group;
    Join4(low / 16, pending, group, next / 4, next % 4);
  }

  lemma Join4(k: nat, pending: nat, group: nat, q: nat, r: nat)
    requires pending < 16 && group < 64 && r < 4 && pending * 64 + group == 4 * q + r
    ensures var shifted := (16 * k + pending) * 64 + group;
      shifted % 4 == r && shifted / 4 % 256 == q
  {
    Quotient(4, (16 * k + pending) * 64 + group, 256 * k + q, r);
    Low8(k, q);
  }

  lemma ShiftFrom6(bits: nat, pending: nat, group: nat)
    requires bits % 64 == pending && group < 64
    ensures var shifted, next := bits * 64 % TWO32 + group, pending * 64 + group;
      shifted % 16 == next % 16 && shifted / 16 % 256 == next / 16
  {
    ShiftDrops(bits);
    LowOfLow(bits, 64);
    var low, next := bits % 0x400_0000, pending * 64 + group;
    Join6(low / 64, pending, group, next / 16, next % 16);
  }

  lemma Join6(k: nat, pending: nat, group: nat, q: nat, r: nat)
    requires pending < 64 && group < 64 && r < 16 && pending * 64 + group == 16 * q + r
    ensures var shifted := (64 * k + pending) * 64 + group;
      shifted % 16 == r && shifted / 16 % 256 == q
  {
    Quotient(16, (64 * k + pending) * 64 + group, 256 * k + q, r);
    Low8(k, q);
  }

  lemma Low8(k: nat, q: nat)
    requires q < 256
    ensures (256 * k + q) % 256 == q
  {
  }

  /** The register after a shift: the high bits it drops are never read. */
  lemma ShiftHolds(bits: nat, pending: nat, count: nat, group: nat)
    requires Holds(bits, pending, count) && group < 64
    ensures var shifted, next := bits * 64 % TWO32 + group, pending * 64 + group;
      && shifted < TWO32
      && (count < 2 ==> Holds(shifted, next, count + 6))
      && (count >= 2 ==> Holds(shifted, Low(next, count - 2), count - 2) && High(shifted, count - 2) % 256 == High(next, count - 2))
  {
    hide Low, High;
    var shifted, next := bits * 64 % TWO32 + group, pending * 64 + group;
    HighBits(shifted);
    HighBits(next);
    LowBits(bits);
    LowBits(shifted);
    LowBits(next);
    ShiftDrops(bits);
    if count == 0 {
      ShiftFrom0(bits, group);
    } else if count == 2 {
      ShiftFrom2(bits, pending, group);
    } else if count == 4 {
      ShiftFrom4(bits, pending, group);
    } else {
      ShiftFrom6(bits, pending, group);
    }
  }

  // ----- the loop -----

  /** The result when `output` is given out already and `s` is still to read. */
  function Rest(s: string, output: Bytes, pending: nat, count: nat): Result<Bytes, string> {
    match Alphabet.Digits(TABLE, Unpadded(s))
    case None => Err("invalid base64url character")
    case Some(groups) => Ok(output + Octets(groups, pending, count))
  }

  lemma RestEnds(s: string, output: Bytes, pending: nat, count: nat)
    requires s == "" || s[0] == '='
    ensures Rest(s, output, pending, count) == Ok(output)
  {
    assert output + [] == output;
  }

  /** The result after one more group. */
  function Fed(s: string, output: Bytes, bits: nat, count: nat): Result<Bytes, string> {
    if count >= 8 then Rest(s, output + [High(bits, count - 8)], Low(bits, count - 8), count - 8)
    else Rest(s, output, bits, count)
  }

  lemma RestStep(s: string, output: Bytes, pending: nat, count: nat)
    requires s != "" && s[0] != '='
    ensures var d := Alphabet.IndexOf(TABLE, s[0]);
      Rest(s, output, pending, count) ==
      if d.None? then Err("invalid base64url character") else Fed(s[1..], output, pending * 64 + d.value, count + 6)
  {
    hide Octets, Low, High, Alphabet.IndexOf;
    var d, rest := Alphabet.IndexOf(TABLE, s[0]), Alphabet.Digits(TABLE, Unpadded(s[1..]));
    assert ([s[0]] + Unpadded(s[1..]))[1..] == Unpadded(s[1..]);
    if d.Some? && rest.Some? {
      var groups := [d.value] + rest.value;
      assert groups[1..] == rest.value;
      OctetsStep(groups, pending, count);
      if count + 6 >= 8 {
        var bits := pending * 64 + d.value;
        var tail := Octets(rest.value, Low(bits, count - 2), count - 2);
        assert output + ([High(bits, count - 2)] + tail) == output + [High(bits, count - 2)] + tail;
      }
    }
  }

  method Base64UrlDecode(input: string) returns (r: Result<Bytes, string>)
    ensures r == Decode(input)
  {
    hide Octets, Low, High, Alphabet.Digits, Alphabet.IndexOf, Unpadded, Rest, Decode;
    TableSize();
    Starts(input);
    var bits: nat, bitCount: nat := 0, 0;
    var output: Bytes := [];
    ghost var pending: nat := 0;
    var i := 0;
    assert input[0..] == input;
    while i < |input|
      invariant 0 <= i <= |input|
      invariant Holds(bits, pending, bitCount)
      invariant Rest(input[i..], output, pending, bitCount) == Decode(input)
    {
      assert input[i..][0] == input[i] && input[i..][1..] == input[i + 1..];
      if input[i] == '=' {
        break;
      }
      RestStep(input[i..], output, pending, bitCount);
      var value := Alphabet.IndexOf(TABLE, input[i]);
      if value.None? {
        return Err("invalid base64url character");
      }
      ShiftHolds(bits, pending, bitCount, value.value);
      ghost var next := pending * 64 + value.value;
      bits := bits * 64 % TWO32 + value.value;
      bitCount := bitCount + 6;
      pending := next;
      while bitCount >= 8
        invariant bitCount >= 8 ==>
                    && bitCount < 16 && pending == next
                    && Holds(bits, Low(next, bitCount - 8), bitCount - 8)
                    && High(bits, bitCount - 8) % 256 == High(next, bitCount - 8)
                    && Rest(input[i + 1..], output + [High(next, bitCount - 8)], Low(next, bitCount - 8), bitCount - 8) == Decode(input)
        invariant bitCount < 8 ==> Holds(bits, pending, bitCount) && Rest(input[i + 1..], output, pending, bitCount) == Decode(input)
      {
        bitCount := bitCount - 8;
        output := output + [High(bits, bitCount) % 256];
        pending := Low(pending, bitCount);
      }
      i := i + 1;
    }
    RestEnds(input[i..], output, pending, bitCount);
    return Ok(output);
  }

  lemma Starts(input: string)
    ensures Rest(input, [], 0, 0) == Decode(input)
    ensures Holds(0, 0, 0)
  {
    hide Octets, Alphabet.Digits;
    NoBits(0);
    var groups := Alphabet.Digits(TABLE, Unpadded(input));
    if groups.Some? {
      assert [] + Octets(groups.value, 0, 0) == Octets(groups.value, 0, 0);
    }
  }
}
