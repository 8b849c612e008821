/** String operations of the Rust and Python standard libraries, on sequences of characters. */
module Text {

  /** `u8::is_ascii_whitespace`: no vertical tab. */
  predicate IsAsciiSpace(c: char) {
    c == ' ' || c == '\t' || c == '\n' || c == '\U{0C}' || c == '\r'
  }

  /** `char::is_whitespace`: the Unicode White_Space property. */
  predicate IsSpace(c: char) {
    || ('\U{09}' <= c <= '\U{0D}')
    || c == ' '
    || c == '\U{85}'
    || c == '\U{A0}'
    || c == '\U{1680}'
    || ('\U{2000}' <= c <= '\U{200A}')
    || c == '\U{2028}'
    || c == '\U{2029}'
    || c == '\U{202F}'
    || c == '\U{205F}'
    || c == '\U{3000}'
  }

  const SPACES: set<int> := {
    0x09, 0x0A, 0x0B, 0x0C, 0x0D, 0x20, 0x85, 0xA0, 0x1680, 0x2000, 0x2001, 0x2002, 0x2003, 0x2004, 0x2005, 0x2006, 0x2007,
    0x2008, 0x2009, 0x200A, 0x2028, 0x2029, 0x202F, 0x205F, 0x3000}

  /** White space is the 25 code points that Unicode lists; the ASCII notion leaves out the vertical tab. */
  lemma SpacesAre(c: char)
    ensures IsSpace(c) <==> c as int in SPACES
    ensures IsAsciiSpace(c) <==> IsSpace(c) && c as int < 0x80 && c as int != 0x0B
  {
  }

  /** The index of the first `c` in `s`, or `|s|` when there is none. */
  function Find(s: string, c: char): (n: nat)
    ensures n <= |s|
    ensures n < |s| ==> s[n] == c
    ensures c !in s[..n]
  {
    if s == [] || s[0] == c then 0 else
    var n := 1 + Find(s[1..], c);
    assert s[..n] == [s[0]] + s[1..][..n - 1];
    n
  }

  lemma FindIs(s: string, c: char, n: nat)
    requires n < |s| && s[n] == c && c !in s[..n]
    ensures Find(s, c) == n
  {
    var k := Find(s, c);
    assert forall i | 0 <= i < n :: s[..n][i] == s[i];
    assert forall i | 0 <= i < k :: s[..k][i] == s[i];
  }

  lemma FindNone(s: string, c: char)
    requires c !in s
    ensures Find(s, c) == |s|
  {
  }

  predicate StartsWith(s: string, prefix: string) {
    prefix <= s
  }

  predicate EndsWith(s: string, suffix: string) {
    |suffix| <= |s| && s[|s| - |suffix|..] == suffix
  }

  function TrimStart(s: string): (r: string)
    ensures |r| <= |s| && r == s[|s| - |r|..]
    ensures r != [] ==> !IsSpace(r[0])
    ensures forall c | c in s[..|s| - |r|] :: IsSpace(c)
  {
    if s != [] && IsSpace(s[0]) then
      var r := TrimStart(s[1..]);
      assert s[..|s| - |r|] == [s[0]] + s[1..][..|s[1..]| - |r|];
      r
    else s
  }

  function TrimEnd(s: string): (r: string)
    ensures r <= s
    ensures r != [] ==> !IsSpace(r[|r| - 1])
    ensures forall c | c in s[|r|..] :: IsSpace(c)
  {
    if s != [] && IsSpace(s[|s| - 1]) then
      var r := TrimEnd(s[..|s| - 1]);
      assert s[|r|..] == s[..|s| - 1][|r|..] + [s[|s| - 1]];
      r
    else s
  }

  function Trim(s: string): string {
    TrimEnd(TrimStart(s))
  }

  /** A string that neither starts nor ends with white space is its own trimming. */
  lemma TrimFixed(s: string)
    requires s != [] ==> !IsSpace(s[0]) && !IsSpace(s[|s| - 1])
    ensures Trim(s) == s && TrimEnd(s) == s && TrimStart(s) == s
  {
  }

  predicate IsBlank(s: string) {
    forall c | c in s :: IsSpace(c)
  }

  lemma {:induction false} TrimEndPadded(s: string, pad: string)
    requires IsBlank(pad) && (s == "" || !IsSpace(s[|s| - 1]))
    ensures TrimEnd(s + pad) == s
    decreases |pad|
  {
    if pad == "" {
      assert s + pad == s;
    } else {
      assert (s + pad)[..|s + pad| - 1] == s + pad[..|pad| - 1];
      TrimEndPadded(s, pad[..|pad| - 1]);
    }
  }

  lemma {:induction false} TrimStartPadded(pad: string, s: string)
    requires IsBlank(pad) && (s == "" || !IsSpace(s[0]))
    ensures TrimStart(pad + s) == s
    decreases |pad|
  {
    if pad == "" {
      assert pad + s == s;
    } else {
      assert (pad + s)[1..] == pad[1..] + s;
      TrimStartPadded(pad[1..], s);
    }
  }

  /** White space on both sides goes, and nothing else. */
  lemma TrimPadded(before: string, s: string, after: string)
    requires IsBlank(before) && IsBlank(after) && (s == "" || (!IsSpace(s[0]) && !IsSpace(s[|s| - 1])))
    ensures Trim(before + s + after) == s
  {
    hide TrimStart, TrimEnd, IsSpace;
    if s == "" {
      TrimBlank(before + s + after);
    } else {
      assert before + s + after == before + (s + after);
      TrimStartPadded(before, s + after);
      TrimEndPadded(s, after);
    }
  }

  lemma {:induction false} TrimBlank(s: string)
    requires IsBlank(s)
    ensures Trim(s) == ""
  {
    TrimStartPadded(s, "");
    assert s + "" == s;
  }

  /** `str::split` on one character: always at least one piece. */
  function Split(s: string, c: char): (parts: seq<string>)
    ensures |parts| >= 1
    ensures forall p | p in parts :: c !in p
  {
    var n := Find(s, c);
    if n == |s| then
      assert s[..n] == s;
      [s]
    else [s[..n]] + Split(s[n + 1..], c)
  }

  function Join(parts: seq<string>, sep: string): string {
    if |parts| == 0 then ""
    else if |parts| == 1 then parts[0]
    else parts[0] + sep + Join(parts[1..], sep)
  }

  lemma SplitUnfold(s: string, c: char, head: string, tail: string)
    requires s == head + [c] + tail && c !in head
    ensures Split(s, c) == [head] + Split(tail, c)
  {
    FindIs(s, c, |head|);
    assert s[..|head|] == head && s[|head| + 1..] == tail;
  }

  lemma SplitNone(s: string, c: char)
    requires c !in s
    ensures Split(s, c) == [s]
  {
    FindNone(s, c);
  }

  /** Splitting on both sides of a separator is splitting the two sides. */
  lemma {:induction false} SplitConcat(a: string, b: string, c: char)
    ensures Split(a + [c] + b, c) == Split(a, c) + Split(b, c)
    decreases |a|
  {
    hide *;
    var n := Find(a, c);
    if n == |a| {
      assert a[..n] == a;
      SplitNone(a, c);
      SplitUnfold(a + [c] + b, c, a, b);
    } else {
      var head, tail := a[..n], a[n + 1..];
      assert a == head + [c] + tail;
      SplitUnfold(a, c, head, tail);
      assert a + [c] + b == head + [c] + (tail + [c] + b);
      SplitUnfold(a + [c] + b, c, head, tail + [c] + b);
      SplitConcat(tail, b, c);
      assert [head] + Split(tail, c) + Split(b, c) == [head] + (Split(tail, c) + Split(b, c));
    }
  }

  lemma {:induction false} SplitJoin(parts: seq<string>, c: char)
    requires |parts| >= 1
    requires forall p | p in parts :: c !in p
    ensures Split(Join(parts, [c]), c) == parts
  {
    if |parts| == 1 {
      FindNone(parts[0], c);
    } else {
      SplitUnfold(Join(parts, [c]), c, parts[0], Join(parts[1..], [c]));
      SplitJoin(parts[1..], c);
    }
  }

  /** How many characters come before the first white space of `s`. */
  function WordLength(s: string): (n: nat)
    ensures n <= |s|
    ensures n == 0 && s != "" ==> IsSpace(s[0])
  {
    if s == "" || IsSpace(s[0]) then 0 else 1 + WordLength(s[1..])
  }

  /** `str::split_whitespace`: the maximal pieces without white space. */
  function Words(s: string): seq<string>
    decreases |s|
  {
    if s == "" then []
    else if WordLength(s) == 0 then Words(s[1..])
    else [s[..WordLength(s)]] + Words(s[WordLength(s)..])
  }

  predicate PairAt(s: string, i: int, c: char) {
    0 <= i && i + 1 < |s| && s[i] == c && s[i + 1] == c
  }

  /** The index of the first doubled `c` in `s`, or `|s|` when there is none. */
  function FindPair(s: string, c: char): (n: nat)
    ensures n <= |s|
    ensures n < |s| ==> PairAt(s, n, c)
    ensures forall i | 0 <= i < n :: !PairAt(s, i, c)
  {
    if |s| < 2 then |s|
    else if s[0] == c && s[1] == c then 0
    else
      var n := 1 + FindPair(s[1..], c);
      assert forall i | 1 <= i < n :: PairAt(s, i, c) ==> PairAt(s[1..], i - 1, c);
      n
  }

  lemma FindPairIs(s: string, c: char, n: nat)
    requires PairAt(s, n, c)
    requires forall i | 0 <= i < n :: !PairAt(s, i, c)
    ensures FindPair(s, c) == n
  {
    var k := FindPair(s, c);
    assert k < |s| ==> PairAt(s, k, c);
  }

  /** `str::contains`. */
  predicate Contains(s: string, needle: string)
    decreases |s|
  {
    StartsWith(s, needle) || (s != "" && Contains(s[1..], needle))
  }

  lemma {:induction false} ContainsAt(s: string, needle: string) returns (i: nat)
    requires Contains(s, needle)
    ensures i + |needle| <= |s| && s[i..i + |needle|] == needle
    decreases |s|
  {
    if StartsWith(s, needle) {
      i := 0;
    } else {
      i := ContainsAt(s[1..], needle);
      i := i + 1;
    }
  }

  function LowerChar(c: char): char {
    if 'A' <= c <= 'Z' then (c as int + 32) as char else c
  }

  /** `str::to_ascii_lowercase`. */
  function Lower(s: string): string {
    seq(|s|, i requires 0 <= i < |s| => LowerChar(s[i]))
  }
}
