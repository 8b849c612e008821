/** Renaming a name in the text of a template, and the tree it then compiles to. */
module CompilerRename {
  import opened Wrappers
  import opened Text
  import opened Wxml
  import opened Binding
  import opened Compiler
  import opened CompilerScope
  import Json
  import Wxss

  // ----- paths -----

  /** `y` in place of the top-level name `x` of a supported path. */
  function RenamePath(path: string, x: string, y: string): string
    requires IsSupportedPath(path)
  {
    if Split(path, '.')[0] == x then y + path[Find(path, '.')..] else path
  }

  lemma WordChars()
    ensures forall c | IsWordChar(c) :: !IsSpace(c)
    ensures !IsWordChar('.') && !IsWordChar('{') && !IsWordChar('}')
  {
  }

  lemma WordFixed(s: string)
    requires IsWord(s)
    ensures Trim(s) == s && '.' !in s && '{' !in s && '}' !in s
    ensures forall c | c in s :: !IsSpace(c)
  {
    hide Trim, TrimStart, TrimEnd, IsSpace, IsWordChar;
    WordChars();
    assert s[0] in s && s[|s| - 1] in s;
    TrimFixed(s);
  }

  lemma {:induction false} NonBlankWords(parts: seq<string>)
    requires forall p | p in parts :: IsWord(p)
    ensures NonBlank(parts) == parts
    decreases |parts|
  {
    hide IsWord, Trim;
    if parts != [] {
      WordFixed(parts[0]);
      WordNotEmpty(parts[0]);
      NonBlankWords(parts[1..]);
    }
  }

  lemma WordNotEmpty(s: string)
    requires IsWord(s)
    ensures s != ""
  {
  }

  lemma SupportedSegments(path: string)
    requires IsSupportedPath(path)
    ensures Segments(path) == Split(path, '.')
  {
    hide IsWord, Split;
    NonBlankWords(Split(path, '.'));
  }

  lemma SplitFirst(path: string)
    ensures Split(path, '.')[0] == path[..Find(path, '.')]
    ensures Find(path, '.') < |path| ==> Split(path, '.')[1..] == Split(path[Find(path, '.') + 1..], '.')
    ensures Find(path, '.') == |path| ==> Split(path, '.')[1..] == []
  {
    assert path[..|path|] == path;
  }

  /** Renaming only changes the first segment. */
  lemma RenamePathSegments(path: string, x: string, y: string)
    requires IsSupportedPath(path) && IsWord(y)
    ensures var r := RenamePath(path, x, y);
      && IsSupportedPath(r) && Segments(path) != []
      && Segments(r) == [if Segments(path)[0] == x then y else Segments(path)[0]] + Segments(path)[1..]
  {
    hide IsWord, Split, Segments, Trim;
    SupportedSegments(path);
    var parts := Split(path, '.');
    assert parts == [parts[0]] + parts[1..];
    if parts[0] == x {
      var n := Find(path, '.');
      WordFixed(y);
      WordNotEmpty(y);
      SplitFirst(path);
      if n == |path| {
        assert path[n..] == "" && y + "" == y;
        SplitNone(y, '.');
      } else {
        var tail := path[n + 1..];
        assert y + path[n..] == y + ['.'] + tail;
        SplitUnfold(y + path[n..], '.', y, tail);
      }
      assert Split(RenamePath(path, x, y), '.') == [y] + parts[1..];
      SupportedSegments(RenamePath(path, x, y));
    }
  }

  // ----- one binding -----

  lemma TrimParts(s: string) returns (pre: string, tail: string)
    ensures s == pre + (Trim(s) + tail) && IsBlank(pre) && IsBlank(tail)
    ensures Trim(s) != "" ==> !IsSpace(Trim(s)[0]) && !IsSpace(Trim(s)[|Trim(s)| - 1])
  {
    hide TrimStart, TrimEnd, IsSpace;
    var t := TrimStart(s);
    var r := TrimEnd(t);
    pre, tail := s[..|s| - |t|], t[|r|..];
    assert t == r + tail;
    assert s == pre + t;
    assert r != "" ==> r[0] == t[0];
  }

  lemma {:induction false} TrimStartBlankPrefix(pre: string, core: string)
    requires IsBlank(pre) && core != "" && !IsSpace(core[0])
    ensures TrimStart(pre + core) == core
    decreases |pre|
  {
    if pre == "" {
      assert pre + core == core;
    } else {
      assert pre[0] in pre && (pre + core)[1..] == pre[1..] + core;
      TrimStartBlankPrefix(pre[1..], core);
    }
  }

  lemma {:induction false} TrimEndBlankSuffix(core: string, tail: string)
    requires IsBlank(tail) && core != "" && !IsSpace(core[|core| - 1])
    ensures TrimEnd(core + tail) == core
    decreases |tail|
  {
    if tail == "" {
      assert core + tail == core;
    } else {
      var s := core + tail;
      assert tail[|tail| - 1] in tail && s[..|s| - 1] == core + tail[..|tail| - 1];
      TrimEndBlankSuffix(core, tail[..|tail| - 1]);
    }
  }

  lemma TrimOfPadded(pre: string, core: string, tail: string)
    requires IsBlank(pre) && IsBlank(tail) && core != "" && !IsSpace(core[0]) && !IsSpace(core[|core| - 1])
    ensures Trim(pre + (core + tail)) == core
  {
    hide TrimStart, TrimEnd;
    TrimStartBlankPrefix(pre, core + tail);
    TrimEndBlankSuffix(core, tail);
  }

  /** A text as the first binding in it and what is around it. */
  datatype Parts = NoBinding | Bound(pre: string, inside: string, tail: string)

  function PartsOf(s: string): (p: Parts)
    ensures p.Bound? ==> |p.tail| < |s|
  {
    hide FindPair;
    var start := FindPair(s, '{');
    if start == |s| then NoBinding else
    var after := s[start + 2..];
    var end := FindPair(after, '}');
    if end == |after| then NoBinding else
    Bound(s[..start], after[..end], after[end + 2..])
  }

  lemma PartsJoin(s: string)
    requires PartsOf(s).Bound?
    ensures var p := PartsOf(s); s == p.pre + ("{{" + (p.inside + ("}}" + p.tail)))
  {
    hide FindPair;
    var start := FindPair(s, '{');
    var after := s[start + 2..];
    assert s[start..] == "{{" + after;
    assert s == s[..start] + s[start..];
    var end := FindPair(after, '}');
    assert after[end..] == "}}" + after[end + 2..];
    assert after == after[..end] + after[end..];
  }

  /** A text is one binding when nothing but white space is around it and its path is supported. */
  function SingleByParts(s: string): Option<string> {
    match PartsOf(s)
    case NoBinding => None
    case Bound(pre, inside, tail) =>
      if IsBlank(pre) && IsBlank(tail) && IsSupportedPath(Trim(inside)) then Some(Trim(inside)) else None
  }

  predicate NoBraces(s: string) {
    '{' !in s && '}' !in s
  }

  lemma BlankNoBraces(s: string)
    requires IsBlank(s)
    ensures NoBraces(s)
  {
  }

  lemma SupportedNoBraces(path: string)
    requires IsSupportedPath(path)
    ensures NoBraces(path) && (forall c | c in path :: !IsSpace(c))
  {
    hide IsWord;
    forall p | p in Split(path, '.') ensures NoBraces(p) && (forall c | c in p :: !IsSpace(c)) {
      WordFixed(p);
    }
    SplitParts(path);
  }

  lemma {:induction false} SplitParts(s: string)
    requires forall p | p in Split(s, '.') :: NoBraces(p) && (forall c | c in p :: !IsSpace(c))
    ensures NoBraces(s) && (forall c | c in s :: !IsSpace(c))
    decreases |s|
  {
    hide Split;
    SplitFirst(s);
    var n := Find(s, '.');
    var parts := Split(s, '.');
    assert parts[0] in parts;
    if n == |s| {
      assert s[..n] == s;
    } else {
      assert forall p | p in parts[1..] :: p in parts;
      SplitParts(s[n + 1..]);
      assert s == s[..n] + (['.'] + s[n + 1..]);
    }
  }

  lemma InsideNoBraces(s: string)
    requires IsSupportedPath(Trim(s))
    ensures NoBraces(s)
  {
    hide IsSupportedPath, Trim;
    var pre, tail := TrimParts(s);
    SupportedNoBraces(Trim(s));
    BlankNoBraces(pre);
    BlankNoBraces(tail);
  }

  /** What `PartsOf` finds when the text is given in parts. */
  lemma PartsAre(s: string, pre: string, inside: string, tail: string)
    requires s == pre + ("{{" + (inside + ("}}" + tail)))
    requires forall i | 0 <= i < |pre| :: !PairAt(s, i, '{')
    requires forall i | 0 <= i < |inside| :: !PairAt(inside + ("}}" + tail), i, '}')
    ensures PartsOf(s) == Bound(pre, inside, tail)
  {
    hide FindPair;
    FindPairIs(s, '{', |pre|);
    var after := inside + ("}}" + tail);
    assert s[..|pre|] == pre && s[|pre| + 2..] == after;
    FindPairIs(after, '}', |inside|);
    assert after[..|inside|] == inside && after[|inside| + 2..] == tail;
  }

  lemma SingleShape(s: string)
    ensures SinglePath(s) == SingleByParts(s)
  {
    hide SinglePath, SingleByParts;
    if SinglePath(s).Some? {
      SingleHasParts(s);
    }
    if SingleByParts(s).Some? {
      PartsAreSingle(s);
    }
  }

  lemma SingleHasParts(s: string)
    requires SinglePath(s).Some?
    ensures SingleByParts(s) == SinglePath(s)
  {
    hide Trim, IsSupportedPath, FindPair, PartsOf, IsSpace;
    var core := Trim(s);
    var mid := core[2..|core| - 2];
    var pre, tail := TrimParts(s);
    EndsWithBraces(core);
    BlankNoBraces(pre);
    InsideNoBraces(mid);
    assert s == pre + ("{{" + (mid + ("}}" + tail)));
    PartsAre(s, pre, mid, tail);
  }

  lemma PartsAreSingle(s: string)
    requires SingleByParts(s).Some?
    ensures SinglePath(s) == SingleByParts(s)
  {
    hide Trim, IsSupportedPath, FindPair, PartsOf, IsSpace;
    var p := PartsOf(s);
    var core := "{{" + (p.inside + "}}");
    PartsJoin(s);
    assert s == p.pre + (core + p.tail);
    BracesNoSpace();
    TrimOfPadded(p.pre, core, p.tail);
    assert core[2..|core| - 2] == p.inside;
    assert core[..2] == "{{" && core[|core| - 2..] == "}}";
  }

  lemma BracesNoSpace()
    ensures !IsSpace('{') && !IsSpace('}')
  {
  }

  lemma EndsWithBraces(s: string)
    requires |s| >= 4 && StartsWith(s, "{{") && EndsWith(s, "}}")
    ensures s == "{{" + (s[2..|s| - 2] + "}}")
  {
    assert s[|s| - 2..] == "}}" && s[..2] == "{{";
  }

  // ----- texts -----

  function RenameInside(inside: string, x: string, y: string): string {
    if IsSupportedPath(Trim(inside)) && Split(Trim(inside), '.')[0] == x
    then RenamePath(Trim(inside), x, y) else inside
  }

  function RenameText(s: string, x: string, y: string): string
    decreases |s|
  {
    match PartsOf(s)
    case NoBinding => s
    case Bound(pre, inside, tail) =>
      pre + ("{{" + (RenameInside(inside, x, y) + ("}}" + RenameText(tail, x, y))))
  }

  /** The expression after renaming is the renamed expression. */
  lemma RenamedInside(inside: string, x: string, y: string)
    requires IsWord(y)
    ensures var e, r := Trim(inside), Trim(RenameInside(inside, x, y));
      && (IsSupportedPath(e) <==> IsSupportedPath(r))
      && (IsSupportedPath(e) ==> r == RenamePath(e, x, y))
      && (!IsSupportedPath(e) ==> r == e)
  {
    hide Trim, IsWord, Split;
    var e := Trim(inside);
    if IsSupportedPath(e) && Split(e, '.')[0] == x {
      var r := RenamePath(e, x, y);
      RenamePathSegments(e, x, y);
      SupportedFixed(r);
    }
  }

  lemma SupportedFixed(path: string)
    requires IsSupportedPath(path)
    ensures Trim(path) == path
  {
    hide IsSupportedPath;
    SupportedNoBraces(path);
    if path != "" {
      assert path[0] in path && path[|path| - 1] in path;
    }
    TrimFixed(path);
  }

  /** The renamed text has the renamed parts. */
  lemma RenamedParts(s: string, x: string, y: string)
    requires IsWord(y)
    ensures PartsOf(s).NoBinding? ==> RenameText(s, x, y) == s
    ensures PartsOf(s).Bound? ==>
              var p := PartsOf(s);
              PartsOf(RenameText(s, x, y)) == Bound(p.pre, RenameInside(p.inside, x, y), RenameText(p.tail, x, y))
  {
    hide PartsOf, RenameText, RenameInside, FindPair, IsWord;
    RenameTextUnfolds(s, x, y);
    if PartsOf(s).Bound? {
      var p := PartsOf(s);
      PartsFirst(s);
      PartsJoin(s);
      var inside := RenameInside(p.inside, x, y);
      var tail := RenameText(p.tail, x, y);
      SamePairsBefore(p.pre, p.inside + ("}}" + p.tail), inside + ("}}" + tail));
      RenamedInsidePairs(p.inside, x, y, p.tail, tail);
      PartsAre(RenameText(s, x, y), p.pre, inside, tail);
    }
  }

  lemma RenameTextUnfolds(s: string, x: string, y: string)
    ensures PartsOf(s).NoBinding? ==> RenameText(s, x, y) == s
    ensures PartsOf(s).Bound? ==>
              var p := PartsOf(s);
              RenameText(s, x, y) == p.pre + ("{{" + (RenameInside(p.inside, x, y) + ("}}" + RenameText(p.tail, x, y))))
  {
    hide PartsOf, RenameInside;
  }

  lemma SamePairsBefore(pre: string, a: string, b: string)
    ensures forall i | 0 <= i < |pre| :: PairAt(pre + ("{{" + a), i, '{') <==> PairAt(pre + ("{{" + b), i, '{')
  {
    var s, t := pre + ("{{" + a), pre + ("{{" + b);
    assert forall i | 0 <= i < |pre| + 2 :: s[i] == t[i];
  }

  lemma PartsFirst(s: string)
    requires PartsOf(s).Bound?
    ensures var p := PartsOf(s);
      && (forall i | 0 <= i < |p.pre| :: !PairAt(s, i, '{'))
      && (forall i | 0 <= i < |p.inside| :: !PairAt(p.inside + ("}}" + p.tail), i, '}'))
  {
    var start := FindPair(s, '{');
    var after := s[start + 2..];
    assert after == after[..FindPair(after, '}')] + ("}}" + after[FindPair(after, '}') + 2..]);
  }

  lemma RenamedInsidePairs(inside: string, x: string, y: string, tail: string, other: string)
    requires IsWord(y)
    requires forall i | 0 <= i < |inside| :: !PairAt(inside + ("}}" + tail), i, '}')
    ensures var r := RenameInside(inside, x, y);
      forall i | 0 <= i < |r| :: !PairAt(r + ("}}" + other), i, '}')
  {
    hide Trim, IsWord, IsSupportedPath, Split;
    var r := RenameInside(inside, x, y);
    if r != inside {
      RenamePathSegments(Trim(inside), x, y);
      SupportedNoBraces(r);
      assert forall i | 0 <= i < |r| :: (r + ("}}" + other))[i] in r;
    } else {
      forall i | 0 <= i < |r| ensures !PairAt(r + ("}}" + other), i, '}') {
        assert !PairAt(inside + ("}}" + tail), i, '}');
      }
    }
  }

  /** Two scopes that agree on all names, the second calling `y` what the first calls `x`. */
  ghost predicate Related(c: Context, d: Context, x: string, y: string) {
    && LookupName(c, x) == LookupName(d, y)
    && forall n | n != x && n != y :: LookupName(c, n) == LookupName(d, n)
  }

  lemma RenamedResolve(path: string, c: Context, d: Context, x: string, y: string)
    requires IsSupportedPath(path) && IsWord(y) && Related(c, d, x, y) && y !in PathNames(path)
    ensures IsSupportedPath(RenamePath(path, x, y))
    ensures Resolve(d, RenamePath(path, x, y)) == Resolve(c, path)
  {
    hide IsWord, Walk, RenamePath, Segments;
    RenamePathSegments(path, x, y);
    hide IsSupportedPath;
    assert Segments(path) != [] by {
      SupportedSegments(path);
    }
  }

  lemma RenamedBinding(inside: string, c: Context, d: Context, x: string, y: string)
    requires IsWord(y) && Related(c, d, x, y)
    requires IsSupportedPath(Trim(inside)) ==> y !in PathNames(Trim(inside))
    ensures BindingText(Trim(RenameInside(inside, x, y)), d).value == BindingText(Trim(inside), c).value
  {
    hide IsWord, Resolve, Related, PathNames, RenamePath, RenameInside, Trim, IsSupportedPath;
    RenamedInside(inside, x, y);
    if IsSupportedPath(Trim(inside)) {
      RenamedResolve(Trim(inside), c, d, x, y);
    }
  }

  lemma RestByParts(source: string, rest: string, ctx: Context)
    ensures PartsOf(rest).NoBinding? ==> InterpolateRest(source, rest, ctx).value == rest && RestNames(rest) == {}
    ensures PartsOf(rest).Bound? ==>
              var p := PartsOf(rest);
              var e := Trim(p.inside);
              && InterpolateRest(source, rest, ctx).value ==
                 p.pre + BindingText(e, ctx).value + InterpolateRest(source, p.tail, ctx).value
              && RestNames(rest) == (if IsSupportedPath(e) then PathNames(e) else {}) + RestNames(p.tail)
  {
    hide FindPair, BindingText, Trim, IsSupportedPath, PathNames;
  }

  /** The renamed text in the second scope reads as the text in the first. */
  lemma {:induction false} RenamedText(source: string, other: string, s: string, c: Context, d: Context, x: string, y: string)
    requires IsWord(y) && Related(c, d, x, y) && y !in RestNames(s)
    ensures InterpolateRest(other, RenameText(s, x, y), d).value == InterpolateRest(source, s, c).value
    decreases |s|
  {
    hide IsWord, Related, PartsOf, BindingText, InterpolateRest, RestNames, RenameText, RenameInside, Trim, IsSupportedPath;
    RestByParts(source, s, c);
    RestByParts(other, RenameText(s, x, y), d);
    RenamedParts(s, x, y);
    if PartsOf(s).Bound? {
      var p := PartsOf(s);
      RenamedBinding(p.inside, c, d, x, y);
      RenamedText(source, other, p.tail, c, d, x, y);
    }
  }

  // ----- attribute values -----

  function RenameSingle(s: string, x: string, y: string): string {
    match SinglePath(s)
    case Some(path) => "{{" + (RenamePath(path, x, y) + "}}")
    case None => s
  }

  lemma RenamedSingle(s: string, x: string, y: string)
    requires IsWord(y)
    ensures SinglePath(RenameSingle(s, x, y)) ==
            (if SinglePath(s).Some? then Some(RenamePath(SinglePath(s).value, x, y)) else None)
  {
    hide IsWord, IsSupportedPath, Trim, RenamePath;
    if SinglePath(s).Some? {
      var path := SinglePath(s).value;
      RenamePathSegments(path, x, y);
      var r := RenamePath(path, x, y);
      SupportedFixed(r);
      var t := "{{" + (r + "}}");
      TrimFixed(t);
      assert t[..2] == "{{" && t[|t| - 2..] == "}}" && t[2..|t| - 2] == r;
    }
  }

  function RenameValue(s: string, x: string, y: string): string {
    if SinglePath(s).Some? then RenameSingle(s, x, y) else RenameText(s, x, y)
  }

  /** A text that is not one binding does not become one by renaming. */
  lemma NoNewSingle(s: string, x: string, y: string)
    requires IsWord(y) && SinglePath(s).None?
    ensures SinglePath(RenameText(s, x, y)).None?
  {
    hide IsWord, SinglePath, PartsOf, Trim, RenameInside, IsSupportedPath, IsBlank;
    SingleShape(s);
    SingleShape(RenameText(s, x, y));
    RenamedParts(s, x, y);
    if PartsOf(s).Bound? {
      var p := PartsOf(s);
      RenamedInside(p.inside, x, y);
      RenamedBlank(p.tail, x, y);
    }
  }

  lemma BoundNotBlank(s: string)
    requires PartsOf(s).Bound?
    ensures !IsBlank(s)
  {
    hide PartsOf;
    PartsJoin(s);
    assert s[|PartsOf(s).pre|] == '{';
    assert '{' in s && !IsSpace('{');
  }

  lemma RenamedBlank(s: string, x: string, y: string)
    requires IsWord(y)
    ensures IsBlank(RenameText(s, x, y)) ==> IsBlank(s)
  {
    hide IsWord, RenameInside, PartsOf, RenameText, IsBlank;
    RenamedParts(s, x, y);
    if PartsOf(s).Bound? {
      BoundNotBlank(RenameText(s, x, y));
    }
  }

  lemma RenamedValue(s: string, c: Context, d: Context, x: string, y: string)
    requires IsWord(y) && Related(c, d, x, y) && y !in ValueNames(s)
    ensures InterpolateValue(RenameValue(s, x, y), d).value == InterpolateValue(s, c).value
  {
    if SinglePath(s).Some? {
      SingleIsSupported(s);
      hide IsWord, Related, SinglePath, RenamePath, IsSupportedPath, Resolve, PathNames;
      RenamedSingle(s, x, y);
      RenamedResolve(SinglePath(s).value, c, d, x, y);
    } else {
      hide IsWord, Related, SinglePath, RenameText, RestNames, InterpolateRest;
      NoNewSingle(s, x, y);
      RenamedText(s, RenameText(s, x, y), s, c, d, x, y);
    }
  }

  lemma SingleIsSupported(s: string)
    requires SinglePath(s).Some?
    ensures IsSupportedPath(SinglePath(s).value)
  {
  }

  // ----- attributes -----

  /** A key that is a plain path names a variable first. */
  function RenameKey(key: string, x: string, y: string): string {
    if SinglePath(key).Some? then RenameSingle(key, x, y)
    else if IsSupportedPath(key) then RenamePath(key, x, y)
    else key
  }

  function RenameAttr(tag: string, name: string, value: string, x: string, y: string): string {
    if name == "wx:if" || name == "wx:for" then RenameSingle(value, x, y)
    else if name == "wx:key" then RenameKey(value, x, y)
    else if IsInterpolated(tag, name) then RenameValue(value, x, y)
    else value
  }

  function RenameAttrs(tag: string, attrs: Attrs, x: string, y: string): Attrs {
    map n | n in attrs :: RenameAttr(tag, n, attrs[n], x, y)
  }

  lemma KindsOfNames(tag: string, name: string)
    ensures name == "wx:if" || name == "wx:for" || name == "wx:key" ==> !IsInterpolated(tag, name)
    ensures name in IGNORED || name == RENDER_KEY || BoundEvent(tag, name).Some? ==> !IsInterpolated(tag, name)
    ensures IsDataName(name) ==> name != "src" && name != "scroll-x" && name != "scroll-y"
    ensures "wx:if" in IGNORED && "wx:for" in IGNORED && "wx:key" in IGNORED && "style" in IGNORED && "class" in IGNORED
  {
    assert DATA[0] == RENDER_KEY[0] == 'd';
    assert forall n | n in IGNORED :: n[0] != 'd';
    assert IsDataName(name) ==> name[0] == DATA[0];
    assert "bindtap"[0] == "bindload"[0] == "binderror"[0] == 'b';
  }

  /** What an attribute gives, warnings aside. */
  function Given(a: Applied): (Wxss.Style, map<string, Value>, seq<EventBinding>) {
    (a.style, a.props, a.events)
  }

  lemma RenamedApply(acc: Applied, other: Applied, tag: string, name: string, value: string,
                     c: Context, d: Context, x: string, y: string)
    requires IsWord(y) && Related(c, d, x, y) && Given(acc) == Given(other)
    requires IsInterpolated(tag, name) ==> y !in ValueNames(value)
    ensures Given(ApplyAttr(other, tag, name, RenameAttr(tag, name, value, x, y), d)) ==
            Given(ApplyAttr(acc, tag, name, value, c))
  {
    hide IsWord, Related, ValueNames, InterpolateValue, DataKey, SetDataset, Repeat, RenameValue, RenameSingle, RenameKey, BoundEvent;
    KindsOfNames(tag, name);
    if IsInterpolated(tag, name) {
      RenamedValue(value, c, d, x, y);
    }
  }

  lemma {:induction false} RenamedApplies(acc: Applied, other: Applied, tag: string, attrs: Attrs, names: seq<string>,
                                          c: Context, d: Context, x: string, y: string)
    requires IsWord(y) && Related(c, d, x, y) && Given(acc) == Given(other)
    requires y !in AttrNames(tag, attrs) && forall n | n in names :: n in attrs
    ensures Given(ApplyNames(other, tag, RenameAttrs(tag, attrs, x, y), names, d)) ==
            Given(ApplyNames(acc, tag, attrs, names, c))
    decreases |names|
  {
    hide IsWord, Related, Given, ValueNames, ApplyAttr, RenameAttr;
    if names != [] {
      var n := names[0];
      assert IsInterpolated(tag, n) ==> ValueNames(attrs[n]) <= AttrNames(tag, attrs);
      RenamedApply(acc, other, tag, n, attrs[n], c, d, x, y);
      RenamedApplies(ApplyAttr(acc, tag, n, attrs[n], c),
                     ApplyAttr(other, tag, n, RenameAttr(tag, n, attrs[n], x, y), d),
                     tag, attrs, names[1..], c, d, x, y);
    }
  }

  lemma RenamedCondition(tag: string, attrs: Attrs, c: Context, d: Context, x: string, y: string)
    requires IsWord(y) && Related(c, d, x, y) && y !in ConditionNames(attrs)
    ensures ConditionOf(RenameAttrs(tag, attrs, x, y), d) == ConditionOf(attrs, c)
  {
    hide IsWord, Related, SinglePath, Resolve, RenamePath, RenameValue, RenameKey, IsSupportedPath, PathNames;
    if "wx:if" in attrs {
      var s := attrs["wx:if"];
      RenamedSingle(s, x, y);
      if SinglePath(s).Some? {
        SingleIsSupported(s);
        RenamedResolve(SinglePath(s).value, c, d, x, y);
      }
    }
  }

  // ----- trees -----

  /**
    The key of a loop that does not bind `x` keeps its value: a plain path that starts with `x` is found in the value
    `v` of `x`, and what is read through the item's name does not start with `x`.
   */
  predicate KeyAllows(attrs: Attrs, x: string, v: Option<Value>) {
    "wx:key" in attrs ==>
      var key := attrs["wx:key"];
      if key == "*this" then x !in PathNames(ItemName(attrs))
      else if SinglePath(key).Some? || !IsSupportedPath(key) then true
      else if x in PathNames(key) then v.Some? && Walk(v.value, Segments(key)[1..]).Some?
      else x !in PathNames(ItemName(attrs) + "." + key)
  }

  /** A loop that binds `x` itself. */
  predicate Rebinds(attrs: Attrs, x: string) {
    "wx:for" in attrs && x in {ItemName(attrs), IndexName(attrs)}
  }

  /** A loop neither binds nor reads `y`; one that binds `x` itself does not read `x` in its condition. */
  predicate LoopAllows(attrs: Attrs, x: string, y: string) {
    "wx:for" in attrs ==>
      && y !in {ItemName(attrs), IndexName(attrs)}
      && y !in SingleNames(attrs["wx:for"]) && y !in KeyNames(attrs)
      && (Rebinds(attrs, x) ==> x !in ConditionNames(attrs))
  }

  /** `x` may be called `y` in a node: `y` is not read in it, and its loops allow it. */
  predicate Allows(node: Node, x: string, y: string)
    decreases node, 0
  {
    match node
    case TextNode(source) => y !in RestNames(source)
    case Element(tag, attrs, children) =>
      && y !in ConditionNames(attrs) && y !in AttrNames(tag, attrs)
      && LoopAllows(attrs, x, y)
      && (if Rebinds(attrs, x) then y !in FreeAll(children) else AllowsAll(children, x, y))
  }

  predicate AllowsAll(nodes: seq<Node>, x: string, y: string)
    decreases nodes, 1
  {
    nodes == [] || (Allows(nodes[0], x, y) && AllowsAll(nodes[1..], x, y))
  }

  /** A node with its free occurrences of `x` renamed to `y`. */
  function Rename(node: Node, x: string, y: string): Node
    decreases node, 0
  {
    match node
    case TextNode(source) => TextNode(RenameText(source, x, y))
    case Element(tag, attrs, children) =>
      if Rebinds(attrs, x) then
        Element(tag, attrs["wx:for" := RenameSingle(attrs["wx:for"], x, y)], children)
      else Element(tag, RenameAttrs(tag, attrs, x, y), RenameAll(children, x, y))
  }

  function RenameAll(nodes: seq<Node>, x: string, y: string): seq<Node>
    decreases nodes, 1
  {
    if nodes == [] then [] else [Rename(nodes[0], x, y)] + RenameAll(nodes[1..], x, y)
  }

  /** Two outputs with the same nodes and the same next id number. */
  ghost predicate SameTree(a: Output, b: Output) {
    a.nodes == b.nodes && a.counter == b.counter
  }

  lemma WordSegments(word: string, key: string)
    requires IsWord(word)
    ensures Segments(word) == [word]
    ensures PathNames(word + "." + key) == {word}
  {
    hide IsWord, Split, Trim;
    WordFixed(word);
    WordNotEmpty(word);
    SplitNone(word, '.');
    SplitUnfold(word + "." + key, '.', word, key);
    assert NonBlank([word]) == [word] by {
      assert [word][1..] == [];
    }
  }

  /** What a key reads through the item's name. */
  function ItemRead(key: string, item: string, ctx: Context): Option<Value> {
    if key == "*this" then Resolve(ctx, item) else Resolve(ctx, item + "." + key)
  }

  /** A key is looked up through the item's name: `*this`, or a plain path that names no variable's value. */
  predicate FallsToItem(key: string, ctx: Context) {
    key == "*this" || (SinglePath(key).None? && IsSupportedPath(key) && Resolve(ctx, key).None?)
  }

  lemma SingleHasBrace(s: string)
    ensures SinglePath(s).Some? ==> '{' in s
  {
    hide Trim, IsSupportedPath;
    if SinglePath(s).Some? {
      var pre, tail := TrimParts(s);
      var t := Trim(s);
      assert t[..2] == "{{";
      assert t[0] == '{' && s[|pre|] == t[0];
    }
  }

  lemma PlainIsNotSingle(key: string)
    requires IsSupportedPath(key)
    ensures SinglePath(key).None? && key != "*this"
  {
    SupportedNoBraces(key);
    SingleHasBrace(key);
    StarIsNotPlain();
    hide SinglePath, IsSupportedPath;
  }

  lemma StarIsNotPlain()
    ensures !IsSupportedPath("*this")
  {
    hide Split;
    SplitNone("*this", '.');
    assert "*this"[0] == '*' && !IsWordChar('*');
    assert "*this"[0] in "*this" && !IsWord("*this");
    assert Split("*this", '.')[0] == "*this";
  }

  lemma SingleIsNotStar(s: string)
    requires SinglePath(s).Some?
    ensures s != "*this"
  {
    if s == "*this" {
      TrimFixed(s);
    }
  }

  /** A renamed key has the value of the key, exactly unless it is looked up through the item and that changes it. */
  lemma RenamedKeyIff(key: string, item: string, other: string, c: Context, d: Context, x: string, y: string)
    requires IsWord(y) && Related(c, d, x, y)
    requires SinglePath(key).Some? ==> y !in SingleNames(key)
    requires SinglePath(key).None? && IsSupportedPath(key) ==> y !in PathNames(key)
    ensures ResolveKey(RenameKey(key, x, y), other, d) == ResolveKey(key, item, c) <==>
            (FallsToItem(key, c) ==> ItemRead(RenameKey(key, x, y), other, d) == ItemRead(key, item, c))
  {
    if SinglePath(key).Some? {
      SingleKeySame(key, item, other, c, d, x, y);
    } else if IsSupportedPath(key) {
      PlainKeyIff(key, item, other, c, d, x, y);
    } else {
      hide IsWord, Related, SinglePath, Resolve, RenamePath, RenameSingle, IsSupportedPath, PathNames;
    }
  }

  lemma SingleKeySame(key: string, item: string, other: string, c: Context, d: Context, x: string, y: string)
    requires IsWord(y) && Related(c, d, x, y) && SinglePath(key).Some? && y !in SingleNames(key)
    ensures ResolveKey(RenameKey(key, x, y), other, d) == ResolveKey(key, item, c) && !FallsToItem(key, c)
  {
    hide IsWord, Related, SinglePath, RenamePath, RenameSingle, IsSupportedPath, PathNames, Resolve;
    SingleIsSupported(key);
    RenamedSingle(key, x, y);
    SingleIsNotStar(key);
    SingleIsNotStar(RenameSingle(key, x, y));
    RenamedResolve(SinglePath(key).value, c, d, x, y);
  }

  lemma PlainKeyIff(key: string, item: string, other: string, c: Context, d: Context, x: string, y: string)
    requires IsWord(y) && Related(c, d, x, y)
    requires SinglePath(key).None? && IsSupportedPath(key) && y !in PathNames(key)
    ensures ResolveKey(RenameKey(key, x, y), other, d) == ResolveKey(key, item, c) <==>
            (FallsToItem(key, c) ==> ItemRead(RenameKey(key, x, y), other, d) == ItemRead(key, item, c))
  {
    hide IsWord, Related, SinglePath, RenamePath, IsSupportedPath, PathNames, Resolve;
    RenamedResolve(key, c, d, x, y);
    PlainIsNotSingle(key);
    PlainIsNotSingle(RenamePath(key, x, y));
  }

  /** A key whose loop allows the renaming keeps its value. */
  lemma AllowedKey(attrs: Attrs, other: Attrs, c: Context, d: Context, x: string, y: string)
    requires IsWord(y) && Related(c, d, x, y) && y !in KeyNames(attrs) && KeyAllows(attrs, x, LookupName(c, x))
    requires "wx:key" in attrs && "wx:key" in other && other["wx:key"] == RenameKey(attrs["wx:key"], x, y)
    requires ItemName(other) == ItemName(attrs)
    ensures ResolveKey(other["wx:key"], ItemName(other), d) == ResolveKey(attrs["wx:key"], ItemName(attrs), c)
  {
    var key, item := attrs["wx:key"], ItemName(attrs);
    KeyIsUnread(attrs, y);
    hide ItemName, IsWord, KeyNames;
    RenamedKeyIff(key, item, item, c, d, x, y);
    if FallsToItem(key, c) {
      if key == "*this" {
        StarKept(x, y);
        hide Related, Resolve, PathNames, RenameKey;
        UnreadResolve(item, c, d, x, y);
      } else {
        PlainIsNotSingle(key);
        PlainKeyHeads(key, c, x);
        UnreadKeyKept(key, x, y);
        hide Related, Resolve, PathNames, RenameKey, SinglePath, IsSupportedPath;
        UnreadResolve(item + "." + key, c, d, x, y);
      }
    }
  }

  lemma KeyIsUnread(attrs: Attrs, y: string)
    requires "wx:key" in attrs && y !in KeyNames(attrs)
    ensures var key, item := attrs["wx:key"], ItemName(attrs);
      && (SinglePath(key).Some? ==> y !in SingleNames(key))
      && (key == "*this" ==> y !in PathNames(item))
      && (SinglePath(key).None? && IsSupportedPath(key) ==> y !in PathNames(key) && y !in PathNames(item + "." + key))
  {
    var key := attrs["wx:key"];
    if SinglePath(key).Some? {
      SingleIsNotStar(key);
    }
    if IsSupportedPath(key) {
      PlainIsNotSingle(key);
    }
    hide SinglePath, IsSupportedPath, PathNames, SingleNames, ItemName;
  }

  lemma StarKept(x: string, y: string)
    ensures RenameKey("*this", x, y) == "*this"
  {
    StarIsNotPlain();
    if SinglePath("*this").Some? {
      SingleIsNotStar("*this");
    }
  }

  /** A plain key that names no value starts with `x` only if `x` has no such field. */
  lemma PlainKeyHeads(key: string, c: Context, x: string)
    requires IsSupportedPath(key) && Resolve(c, key).None?
    ensures x in PathNames(key) ==>
              !(LookupName(c, x).Some? && Walk(LookupName(c, x).value, Segments(key)[1..]).Some?)
  {
    hide IsSupportedPath, Segments, Walk;
    if x in PathNames(key) {
      assert Segments(key) == [x] + Segments(key)[1..];
      ResolveBy(c, key, x, Segments(key)[1..]);
    }
  }

  lemma UnreadKeyKept(key: string, x: string, y: string)
    requires IsSupportedPath(key) && x !in PathNames(key)
    ensures RenameKey(key, x, y) == key
  {
    PlainIsNotSingle(key);
    SupportedSegments(key);
    hide SinglePath, IsSupportedPath;
  }

  lemma UnreadResolve(path: string, c: Context, d: Context, x: string, y: string)
    requires Related(c, d, x, y) && x !in PathNames(path) && y !in PathNames(path)
    ensures Resolve(d, path) == Resolve(c, path)
  {
    hide PathNames, Resolve, LookupName;
    ResolveSame(path, c, d);
  }

  lemma ResolveBy(ctx: Context, path: string, first: string, rest: seq<string>)
    requires Segments(path) == [first] + rest
    ensures Resolve(ctx, path) ==
            (if LookupName(ctx, first).Some? then Walk(LookupName(ctx, first).value, rest) else None)
  {
    hide Segments, Walk, LookupName;
    assert ([first] + rest)[1..] == rest;
  }

  /** A field of the item is the same field when the item has the same value. */
  lemma ItemField(item: string, other: string, key: string, c: Context, d: Context)
    requires IsWord(item) && IsWord(other) && LookupName(c, item) == LookupName(d, other)
    ensures Resolve(c, item) == Resolve(d, other)
    ensures Resolve(c, item + "." + key) == Resolve(d, other + "." + key)
  {
    hide *;
    WordSegments(item, key);
    WordSegments(other, key);
    FieldSegments(item, key);
    FieldSegments(other, key);
    assert [item] == [item] + [] && [other] == [other] + [];
    ResolveBy(c, item, item, []);
    ResolveBy(d, other, other, []);
    ResolveBy(c, item + "." + key, item, Segments(key));
    ResolveBy(d, other + "." + key, other, Segments(key));
  }

  lemma FieldSegments(item: string, key: string)
    requires IsWord(item)
    ensures Segments(item + "." + key) == [item] + Segments(key)
  {
    hide IsWord, Trim, Split;
    WordFixed(item);
    WordNotEmpty(item);
    SplitUnfold(item + "." + key, '.', item, key);
    assert ([item] + Split(key, '.'))[1..] == Split(key, '.');
  }

  // ----- one loop round -----

  /** The render key of the copy compiled for a round. */
  function RoundKey(attrs: Attrs, loop: Context): Option<string> {
    var round := RoundAttrs(attrs, loop);
    if RENDER_KEY in round then Some(round[RENDER_KEY]) else None
  }

  function WithKey(attrs: Attrs, key: Option<string>): Attrs {
    if key.Some? then attrs[RENDER_KEY := key.value] else attrs - {RENDER_KEY}
  }

  lemma OwnKey(attrs: Attrs, loop: Context)
    ensures WithKey(RoundAttrs(attrs, loop), RoundKey(attrs, loop)) == RoundAttrs(attrs, loop)
  {
    hide RoundAttrs;
  }

  /** Removing the loop names commutes with renaming, render keys aside. */
  lemma RenamedRoundAttrs(tag: string, attrs: Attrs, other: Attrs, c: Context, d: Context, x: string, y: string)
    requires other.Keys - LOOP_NAMES == attrs.Keys - LOOP_NAMES
    requires forall n | n in attrs.Keys - LOOP_NAMES :: n in other && other[n] == RenameAttr(tag, n, attrs[n], x, y)
    ensures RoundAttrs(other, d) == RenameAttrs(tag, WithKey(RoundAttrs(attrs, c), RoundKey(other, d)), x, y)
  {
    hide ResolveKey, KeyText, ItemName, RenameSingle, RenameValue, RenameKey;
    assert RENDER_KEY !in LOOP_NAMES by { assert RENDER_KEY[0] == 'd'; }
    var r, t := WithKey(RoundAttrs(attrs, c), RoundKey(other, d)), RoundAttrs(other, d);
    RenderKeyKept(tag, attrs, x, y);
    forall n ensures n in t <==> n in r {
      assert n in other.Keys - LOOP_NAMES <==> n in attrs.Keys - LOOP_NAMES;
    }
    forall n | n in r ensures t[n] == RenameAttr(tag, n, r[n], x, y) {
      if n != RENDER_KEY {
        assert n in attrs.Keys - LOOP_NAMES;
      }
    }
  }

  lemma RenderKeyKept(tag: string, attrs: Attrs, x: string, y: string)
    ensures forall v :: RenameAttr(tag, RENDER_KEY, v, x, y) == v
  {
    KindsOfNames(tag, RENDER_KEY);
    assert RENDER_KEY[0] == 'd';
  }

  /** What a round's copy must allow is what the loop element allows of its attributes and children. */
  lemma CopyAllows(e: Node, loop: Context, key: Option<string>, x: string, y: string)
    requires e.Element? && y !in ConditionNames(e.attrs) && y !in AttrNames(e.tag, e.attrs) && AllowsAll(e.children, x, y)
    ensures var copy := Element(e.tag, WithKey(RoundAttrs(e.attrs, loop), key), e.children);
      && "wx:for" !in copy.attrs
      && Allows(copy, x, y)
      && Rename(copy, x, y) == Element(e.tag, RenameAttrs(e.tag, copy.attrs, x, y), RenameAll(e.children, x, y))
  {
    hide ResolveKey, KeyText, ValueNames, SingleNames, RenameAttrs, RenameAll, AllowsAll;
    var attrs := WithKey(RoundAttrs(e.attrs, loop), key);
    assert "wx:for" in LOOP_NAMES && "wx:if" !in LOOP_NAMES && RENDER_KEY != "wx:if";
    assert RENDER_KEY[0] == 'd';
    forall n | n in attrs && IsInterpolated(e.tag, n) ensures n in e.attrs && attrs[n] == e.attrs[n] {
      InterpolatedIsNoLoopName(e.tag, n);
    }
    assert AttrNames(e.tag, attrs) <= AttrNames(e.tag, e.attrs);
  }

  lemma CopyWeighs(e: Node, attrs: Attrs)
    requires e.Element?
    ensures Weight(Element(e.tag, attrs, e.children)) == Weight(e)
  {
  }

  lemma KeyIsRenamed(tag: string, attrs: Attrs, other: Attrs, x: string, y: string)
    requires other.Keys - LOOP_NAMES == attrs.Keys - LOOP_NAMES
    requires forall n | n in attrs.Keys - LOOP_NAMES :: n in other && other[n] == RenameAttr(tag, n, attrs[n], x, y)
    ensures "wx:key" in attrs <==> "wx:key" in other
    ensures "wx:key" in attrs ==> other["wx:key"] == RenameKey(attrs["wx:key"], x, y)
  {
    hide RenameSingle, RenameValue, RenameKey, IsInterpolated;
    assert "wx:key" !in LOOP_NAMES;
    assert "wx:key" in attrs ==> "wx:key" in attrs.Keys - LOOP_NAMES;
    assert "wx:key" in other ==> "wx:key" in other.Keys - LOOP_NAMES;
  }

  lemma SameRoundKey(tag: string, attrs: Attrs, other: Attrs, c: Context, d: Context, x: string, y: string)
    requires other.Keys - LOOP_NAMES == attrs.Keys - LOOP_NAMES
    requires forall n | n in attrs.Keys - LOOP_NAMES :: n in other && other[n] == RenameAttr(tag, n, attrs[n], x, y)
    requires "wx:key" in attrs && "wx:key" in other ==>
               ResolveKey(other["wx:key"], ItemName(other), d) == ResolveKey(attrs["wx:key"], ItemName(attrs), c)
    ensures RoundKey(other, d) == RoundKey(attrs, c)
  {
    KeyIsRenamed(tag, attrs, other, x, y);
    RenderKeyKept(tag, attrs, x, y);
    hide RenameAttr, ResolveKey, KeyText, ItemName;
    assert RENDER_KEY !in LOOP_NAMES by { assert RENDER_KEY[0] == 'd'; }
    assert RENDER_KEY in attrs ==> RENDER_KEY in attrs.Keys - LOOP_NAMES;
    assert RENDER_KEY in other ==> RENDER_KEY in other.Keys - LOOP_NAMES;
  }

  /** In a round the scopes stay related, as long as the loop binds neither name. */
  lemma RelatedInRound(attrs: Attrs, other: Attrs, items: seq<Value>, i: nat, c: Context, d: Context, x: string, y: string)
    requires i < |items| && Related(c, d, x, y)
    requires ItemName(other) == ItemName(attrs) && IndexName(other) == IndexName(attrs)
    requires x !in {ItemName(attrs), IndexName(attrs)} && y !in {ItemName(attrs), IndexName(attrs)}
    ensures var loop, loop' := LoopContext(attrs, items, i, c), LoopContext(other, items, i, d);
      Related(loop, loop', x, y) && LookupName(loop, x) == LookupName(c, x)
  {
    hide ItemName, IndexName, Json.FromNat;
    RoundLookup(attrs, items, i, c);
    RoundLookup(other, items, i, d);
    hide LookupName, LoopContext;
  }

  /** What a name means in a round. */
  lemma RoundLookup(attrs: Attrs, items: seq<Value>, i: nat, ctx: Context)
    requires i < |items|
    ensures forall n :: LookupName(LoopContext(attrs, items, i, ctx), n) ==
                        (if n == IndexName(attrs) then Some(Json.FromNat(i))
                         else if n == ItemName(attrs) then Some(items[i])
                         else LookupName(ctx, n))
  {
    hide ItemName, IndexName, Json.FromNat;
  }

  /** A round of a loop that binds `x` itself reads neither name from outside. */
  lemma ReboundRound(attrs: Attrs, other: Attrs, items: seq<Value>, i: nat, names: set<string>,
                     c: Context, d: Context, x: string, y: string)
    requires i < |items| && Related(c, d, x, y) && y !in names
    requires ItemName(other) == ItemName(attrs) && IndexName(other) == IndexName(attrs)
    requires x in {ItemName(attrs), IndexName(attrs)}
    ensures SameOn(names, LoopContext(attrs, items, i, c), LoopContext(other, items, i, d))
  {
    hide ItemName, IndexName, Json.FromNat;
    RoundLookup(attrs, items, i, c);
    RoundLookup(other, items, i, d);
    hide LookupName, LoopContext;
  }

  // ----- elements -----

  /** Renaming keeps what the compiler looks at first. */
  lemma RenameKeepsLoop(e: Node, x: string, y: string)
    requires e.Element?
    ensures var r := Rename(e, x, y);
      && r.Element? && r.tag == e.tag
      && ("wx:for" in r.attrs <==> "wx:for" in e.attrs)
      && ("wx:for" in e.attrs ==> r.attrs["wx:for"] == RenameSingle(e.attrs["wx:for"], x, y))
      && ItemName(r.attrs) == ItemName(e.attrs) && IndexName(r.attrs) == IndexName(e.attrs)
  {
    hide RenameSingle, RenameValue, RenameAll;
    assert "wx:for-item"[0] == 'w' && DATA[0] == 'd';
    assert !IsInterpolated(e.tag, "wx:for-item") && !IsInterpolated(e.tag, "wx:for-index");
  }

  /** A condition that reads neither name is the same in related scopes. */
  lemma ConditionUnread(attrs: Attrs, other: Attrs, c: Context, d: Context, x: string, y: string)
    requires Related(c, d, x, y) && x !in ConditionNames(attrs) && y !in ConditionNames(attrs)
    requires "wx:if" in attrs <==> "wx:if" in other
    requires "wx:if" in attrs ==> other["wx:if"] == attrs["wx:if"]
    ensures ConditionOf(other, d) == ConditionOf(attrs, c)
  {
    hide SinglePath, PathNames, Resolve;
    ConditionSame(attrs, c, d);
  }

  lemma RenamedCondition'(e: Node, c: Context, d: Context, x: string, y: string)
    requires e.Element? && IsWord(y) && Related(c, d, x, y) && Allows(e, x, y)
    ensures Rename(e, x, y).Element? && ConditionOf(Rename(e, x, y).attrs, d) == ConditionOf(e.attrs, c)
  {
    if Rebinds(e.attrs, x) {
      hide RenameSingle, SinglePath, IsWord, Related, KeyNames, AttrNames, ConditionOf, SingleNames, FreeAll;
      ConditionUnread(e.attrs, Rename(e, x, y).attrs, c, d, x, y);
    } else {
      hide IsWord, Related, RenameAttrs, RenameAll, ConditionOf, LoopAllows, AllowsAll, ConditionNames, AttrNames;
      RenamedCondition(e.tag, e.attrs, c, d, x, y);
    }
  }

  /** A loop compiles to the rounds of its items, and to no nodes when there are none. */
  lemma LoopStep(e: Node, ctx: Context, classes: Classes, counter: nat)
    requires e.Element? && "wx:for" in e.attrs
    ensures var path := SinglePath(e.attrs["wx:for"]);
      var v := if path.Some? then Resolve(ctx, path.value) else None;
      if v.Some? && v.value.Arr? then CompileLoop(e, ctx, classes, counter) == CompileRounds(e, v.value.items, 0, ctx, classes, counter)
      else CompileLoop(e, ctx, classes, counter).nodes == [] && CompileLoop(e, ctx, classes, counter).counter == counter
  {
    hide SinglePath, Resolve, CompileRounds;
  }

  lemma LoopUnread(e: Node, x: string, y: string)
    requires e.Element? && "wx:for" in e.attrs && Allows(e, x, y)
    ensures y !in SingleNames(e.attrs["wx:for"])
  {
    hide SingleNames, IsWord, KeyNames, ConditionNames, AttrNames;
  }

  lemma ReboundAllows(e: Node, x: string, y: string)
    requires e.Element? && Rebinds(e.attrs, x) && Allows(e, x, y)
    ensures y !in KeyNames(e.attrs) + BodyNames(e)
    ensures x in {ItemName(e.attrs), IndexName(e.attrs)}
    ensures var r := Rename(e, x, y);
      r.Element? && r.tag == e.tag && r.children == e.children && "wx:for" in r.attrs && r.attrs == e.attrs["wx:for" := r.attrs["wx:for"]]
  {
    hide SingleNames, IsWord, KeyNames, ConditionNames, AttrNames, FreeAll, RenameSingle, ItemName, IndexName;
  }

  lemma LoopAllowed(e: Node, x: string, y: string)
    requires e.Element? && "wx:for" in e.attrs && !Rebinds(e.attrs, x) && Allows(e, x, y)
    ensures x !in {ItemName(e.attrs), IndexName(e.attrs)} && y !in {ItemName(e.attrs), IndexName(e.attrs)}
    ensures y !in ConditionNames(e.attrs) && y !in AttrNames(e.tag, e.attrs) && AllowsAll(e.children, x, y)
    ensures y !in KeyNames(e.attrs)
    ensures var r := Rename(e, x, y);
      && r.Element? && r.tag == e.tag && r.children == RenameAll(e.children, x, y)
      && r.attrs.Keys == e.attrs.Keys
      && forall n | n in e.attrs :: r.attrs[n] == RenameAttr(e.tag, n, e.attrs[n], x, y)
  {
    hide SingleNames, IsWord, KeyNames, ConditionNames, AttrNames, AllowsAll, RenameAttr, RenameAll, ItemName, IndexName;
  }

  lemma ReboundSame(e: Node, other: Attrs, c: Context, d: Context, classes: Classes, counter: nat)
    requires e.Element? && "wx:for" in e.attrs && "wx:for" in other && other == e.attrs["wx:for" := other["wx:for"]]
    requires SameOn(KeyNames(e.attrs) + BodyNames(e), c, d)
    ensures SameTree(CompileElement(Element(e.tag, RoundAttrs(other, d), e.children), d, classes, counter),
                     CompileElement(Element(e.tag, RoundAttrs(e.attrs, c), e.children), c, classes, counter))
  {
    hide ResolveKey, KeyText, KeyNames, BodyNames, CompileElement, Free, Weight;
    KeySame(e.attrs, c, d);
    assert "wx:for" in LOOP_NAMES;
    assert RoundAttrs(other, d) == RoundAttrs(e.attrs, d);
    var copy := Element(e.tag, RoundAttrs(e.attrs, c), e.children);
    CopyReads(e, copy.attrs);
    ElementSame(copy, c, d, classes, counter);
  }

  lemma OneAllowed(e: Node, x: string, y: string)
    requires e.Element? && "wx:for" !in e.attrs && Allows(e, x, y)
    ensures y !in AttrNames(e.tag, e.attrs) && AllowsAll(e.children, x, y)
    ensures var r := Rename(e, x, y);
      r == Element(e.tag, RenameAttrs(e.tag, e.attrs, x, y), RenameAll(e.children, x, y))
  {
    hide ConditionNames, AttrNames, AllowsAll, RenameAttrs, RenameAll;
  }

  lemma StyleKept(tag: string, attrs: Attrs, classes: Classes, x: string, y: string)
    ensures RenameAttrs(tag, attrs, x, y).Keys == attrs.Keys
    ensures InitialStyle(RenameAttrs(tag, attrs, x, y), classes) == InitialStyle(attrs, classes)
  {
    hide RenameSingle, RenameValue, Words, Wxss.Declarations;
    KindsOfNames(tag, "class");
    KindsOfNames(tag, "style");
  }
}
