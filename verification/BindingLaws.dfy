/** What a template's paths and texts mean: which paths bind, what value each names, and what a text with bindings shows. */
module BindingLaws {
  import opened Wrappers
  import opened Text
  import opened Binding
  import Json
  import Positional

  // ----- the paths that bind -----

  predicate IsLetterOrDigit(c: char) {
    || c in "abcdefghijklmnopqrstuvwxyz" || c in "ABCDEFGHIJKLMNOPQRSTUVWXYZ" || c in "0123456789_"
  }

  /** Words of letters, digits and underscores with single dots between them. */
  predicate IsDotted(path: string) {
    && path != "" && path[0] != '.' && path[|path| - 1] != '.'
    && (forall c | c in path :: IsLetterOrDigit(c) || c == '.')
    && forall i | 0 < i < |path| :: !(path[i - 1] == '.' && path[i] == '.')
  }

  lemma WordChars(c: char)
    ensures IsWordChar(c) <==> IsLetterOrDigit(c)
  {
    RangeIs("abcdefghijklmnopqrstuvwxyz", 'a', c);
    RangeIs("ABCDEFGHIJKLMNOPQRSTUVWXYZ", 'A', c);
    RangeIs("0123456789", '0', c);
    assert c in "0123456789_" <==> c in "0123456789" || c == '_' by {
      assert "0123456789_" == "0123456789" + "_";
    }
  }

  lemma RangeIs(s: string, first: char, c: char)
    requires forall i | 0 <= i < |s| :: s[i] as int == first as int + i
    ensures c in s <==> first as int <= c as int < first as int + |s|
  {
    if first as int <= c as int < first as int + |s| {
      assert s[c as int - first as int] == c;
    }
  }

  /** A path binds exactly if it is dotted words. */
  lemma SupportedIff(path: string)
    ensures IsSupportedPath(path) <==> IsDotted(path)
  {
    hide IsDotted, IsWord, Split;
    WordsIff(path);
    NotDotted();
  }

  lemma NotDotted()
    ensures !IsDotted("")
  {
  }

  predicate AllWords(path: string) {
    forall p | p in Split(path, '.') :: IsWord(p)
  }

  lemma WordIff(s: string)
    ensures IsWord(s) <==> IsWordOf(s)
  {
    hide IsWordChar, IsLetterOrDigit;
    forall c ensures IsWordChar(c) <==> IsLetterOrDigit(c) {
      WordChars(c);
    }
  }

  lemma CutAt(s: string, n: nat, c: char)
    requires n < |s| && s[n] == c
    ensures s == s[..n] + [c] + s[n + 1..]
  {
  }

  lemma SplitStep(path: string)
    ensures var n := Find(path, '.');
      Split(path, '.') == if n == |path| then [path] else [path[..n]] + Split(path[n + 1..], '.')
  {
    hide *;
    var n := Find(path, '.');
    if n == |path| {
      assert path[..n] == path;
      SplitNone(path, '.');
    } else {
      CutAt(path, n, '.');
      SplitUnfold(path, '.', path[..n], path[n + 1..]);
    }
  }

  lemma AllWordsStep(path: string)
    ensures var n := Find(path, '.');
      AllWords(path) <==> if n == |path| then IsWord(path) else IsWord(path[..n]) && AllWords(path[n + 1..])
  {
    hide IsWord, Split, Find;
    SplitStep(path);
  }

  lemma DottedAlone(path: string)
    requires '.' !in path
    ensures IsDotted(path) <==> IsWordOf(path)
  {
    hide IsLetterOrDigit;
    if path != "" {
      assert path[0] in path && path[|path| - 1] in path;
      assert forall i | 0 <= i < |path| :: path[i] in path;
    }
  }

  lemma {:induction false} WordsIff(path: string)
    ensures AllWords(path) <==> IsDotted(path)
    decreases |path|
  {
    hide IsWord, IsWordOf, IsDotted, AllWords, Find;
    var n := Find(path, '.');
    AllWordsStep(path);
    if n == |path| {
      assert path[..n] == path;
      WordIff(path);
      DottedAlone(path);
    } else {
      var head, tail := path[..n], path[n + 1..];
      assert path == head + ['.'] + tail;
      WordIff(head);
      WordsIff(tail);
      DottedSplit(path, head, tail);
    }
  }

  lemma DottedSplit(path: string, head: string, tail: string)
    requires path == head + ['.'] + tail && '.' !in head
    ensures IsDotted(path) <==> IsWordOf(head) && IsDotted(tail)
  {
    hide IsLetterOrDigit;
    var n := |head|;
    assert path[n] == '.' && path[..n] == head && path[n + 1..] == tail;
    if IsDotted(path) {
      assert n > 0;
      assert forall c | c in head :: c in path;
      assert forall c | c in tail :: c in path;
      assert tail != "" by {
        assert n < |path| - 1;
      }
      assert tail[0] == path[n + 1] && tail[|tail| - 1] == path[|path| - 1];
      forall i | 0 < i < |tail| ensures !(tail[i - 1] == '.' && tail[i] == '.') {
        assert tail[i] == path[n + 1 + i] && tail[i - 1] == path[n + 1 + i - 1];
      }
    }
    if IsWordOf(head) && IsDotted(tail) {
      assert path[0] == head[0] && head[0] in head;
      assert path[|path| - 1] == tail[|tail| - 1];
      forall i | 0 < i < |path| ensures !(path[i - 1] == '.' && path[i] == '.') {
        if i < n {
          assert path[i] == head[i] && head[i] in head;
        } else if i == n {
          assert path[i - 1] == head[n - 1] && head[n - 1] in head;
        } else if i == n + 1 {
          assert path[i] == tail[0];
        } else {
          assert path[i] == tail[i - n - 1] && path[i - 1] == tail[i - n - 2];
        }
      }
    }
  }

  predicate IsWordOf(s: string) {
    s != "" && forall c | c in s :: IsLetterOrDigit(c)
  }

  // ----- the value of a path -----

  /** A word alone is a loop variable in scope, or else a member of the data. */
  lemma ValueOfName(ctx: Context, word: string)
    requires IsWordOf(word)
    ensures Resolve(ctx, word) ==
            if word in ctx.locals then Some(ctx.locals[word])
            else if ctx.data.Obj? && word in ctx.data.fields then Some(ctx.data.fields[word]) else None
  {
    hide IsLetterOrDigit, IsWordChar, Trim, Split;
    WordIff(word);
    WordSegment(word);
  }

  lemma WordSegment(word: string)
    requires IsWord(word)
    ensures Segments(word) == [word]
  {
    hide Trim, IsSpace;
    NoDot(word);
    SplitNone(word, '.');
    WordTrims(word);
    assert NonBlank([word]) == [Trim(word)] + NonBlank([word][1..]);
    assert [word][1..] == [];
  }

  lemma NoDot(word: string)
    requires IsWord(word)
    ensures '.' !in word
  {
    assert !IsWordChar('.');
  }

  lemma WordTrims(word: string)
    requires IsWord(word)
    ensures Trim(word) == word
  {
    assert word[0] in word && word[|word| - 1] in word;
    assert forall c | IsWordChar(c) :: !IsSpace(c);
    hide IsSpace, IsWordChar;
    TrimFixed(word);
  }

  /** A longer path is a member of the value of the shorter one; `length` counts items, characters or members. */
  lemma ValueOfMember(ctx: Context, path: string, word: string)
    requires IsDotted(path) && IsWordOf(word)
    ensures Resolve(ctx, path + "." + word) ==
            match Resolve(ctx, path)
            case None => None
            case Some(v) =>
              if word == "length" then
                if v.Arr? then Some(Json.Num(Positional.Decimal(|v.items|), |v.items| == 0))
                else if v.Str? then Some(Json.Num(Positional.Decimal(|v.s|), |v.s| == 0))
                else if v.Obj? then Some(Json.Num(Positional.Decimal(|v.fields|), |v.fields| == 0))
                else None
              else if v.Obj? && word in v.fields then Some(v.fields[word]) else None
  {
    hide IsDotted, IsWordOf, IsWord, Split, Segments, Positional.Decimal;
    WordIff(word);
    SupportedIff(path);
    LongerSegments(path, word);
    WalkFurther(ctx, Segments(path), word);
    hide Walk;
    assert Walk(Json.Null, [word][1..]).Some? by {
      assert [word][1..] == [];
      WalkNothing(Json.Null);
    }
  }

  lemma WalkNothing(v: Json.Value)
    ensures Walk(v, []) == Some(v)
  {
  }

  lemma LongerSegments(path: string, word: string)
    requires IsSupportedPath(path) && IsWord(word)
    ensures Segments(path) != [] && Segments(path + "." + word) == Segments(path) + [word]
  {
    hide IsWord, Trim;
    WordSegment(word);
    assert path + "." + word == path + ['.'] + word;
    SplitConcat(path, word, '.');
    hide Split;
    NonBlankConcat(Split(path, '.'), Split(word, '.'));
    SomeSegment(path);
  }

  lemma SomeSegment(path: string)
    requires IsSupportedPath(path)
    ensures Segments(path) != []
  {
    hide IsWord, Trim;
    var parts := Split(path, '.');
    WordTrims(parts[0]);
    NotEmpty(parts[0]);
  }

  lemma NotEmpty(word: string)
    requires IsWord(word)
    ensures word != ""
  {
  }

  lemma {:induction false} NonBlankConcat(a: seq<string>, b: seq<string>)
    ensures NonBlank(a + b) == NonBlank(a) + NonBlank(b)
    decreases |a|
  {
    hide Trim;
    if a == [] {
      assert a + b == b;
    } else {
      assert (a + b)[1..] == a[1..] + b;
      NonBlankConcat(a[1..], b);
    }
  }

  lemma WalkFurther(ctx: Context, segments: seq<string>, word: string)
    requires segments != []
    ensures ResolveSegments(ctx, segments + [word]) ==
            match ResolveSegments(ctx, segments) case None => None case Some(v) => Member(v, word)
  {
    hide Walk, Member, LookupName;
    assert (segments + [word])[1..] == segments[1..] + [word];
    var first := LookupName(ctx, segments[0]);
    if first.Some? {
      WalkLonger(first.value, segments[1..], word);
    }
  }

  lemma {:induction false} WalkLonger(v: Json.Value, segments: seq<string>, word: string)
    ensures Walk(v, segments + [word]) == match Walk(v, segments) case None => None case Some(w) => Member(w, word)
    decreases |segments|
  {
    hide Member;
    if segments == [] {
      assert [] + [word] == [word] && [word][1..] == [];
    } else {
      assert (segments + [word])[1..] == segments[1..] + [word];
      var next := Member(v, segments[0]);
      if next.Some? {
        WalkLonger(next.value, segments[1..], word);
      }
    }
  }

  /** The pieces of a path that are more than white space, trimmed. */
  function Trimmed(pieces: seq<string>): seq<string>
    decreases |pieces|
  {
    if pieces == [] then [] else
    Trimmed(pieces[..|pieces| - 1]) + if IsBlank(pieces[|pieces| - 1]) then [] else [Trim(pieces[|pieces| - 1])]
  }

  lemma {:induction false} TrimmedFirst(pieces: seq<string>)
    requires pieces != []
    ensures Trimmed(pieces) == (if IsBlank(pieces[0]) then [] else [Trim(pieces[0])]) + Trimmed(pieces[1..])
    decreases |pieces|
  {
    hide IsBlank, Trim;
    if |pieces| > 1 {
      var front := pieces[..|pieces| - 1];
      assert front[1..] == pieces[1..][..|pieces| - 2];
      TrimmedFirst(front);
    } else {
      assert pieces[..0] == [] && pieces[1..] == [];
    }
  }

  lemma {:induction false} NonBlankIs(pieces: seq<string>)
    ensures NonBlank(pieces) == Trimmed(pieces)
    decreases |pieces|
  {
    hide IsBlank, Trim, Trimmed;
    if pieces == [] {
      NoPieces();
    } else {
      BlankTrims(pieces[0]);
      NonBlankIs(pieces[1..]);
      TrimmedFirst(pieces);
      assert [] + Trimmed(pieces[1..]) == Trimmed(pieces[1..]);
    }
  }

  lemma NoPieces()
    ensures Trimmed([]) == []
  {
  }

  lemma BlankTrims(s: string)
    ensures Trim(s) == "" <==> IsBlank(s)
  {
    hide IsSpace, TrimStart, TrimEnd;
    if IsBlank(s) {
      TrimBlank(s);
    } else {
      var t := TrimStart(s);
      var r := TrimEnd(t);
      assert t == r + t[|r|..];
      assert s == s[..|s| - |t|] + t;
    }
  }

  /** White space around the pieces of any path does not count, nor do pieces of nothing else. */
  lemma SpacesDoNotCount(ctx: Context, pieces: seq<string>, other: seq<string>)
    requires pieces != [] && other != [] && (forall p | p in pieces + other :: '.' !in p) && Trimmed(pieces) == Trimmed(other)
    ensures Resolve(ctx, Join(pieces, ".")) == Resolve(ctx, Join(other, "."))
    ensures Trimmed(pieces) == [] ==> Resolve(ctx, Join(pieces, ".")) == None
  {
    hide Split, Join, NonBlank, Trimmed, Walk, LookupName;
    assert ['.'] == ".";
    SplitJoin(pieces, '.');
    SplitJoin(other, '.');
    NonBlankIs(pieces);
    NonBlankIs(other);
  }

  // ----- texts with bindings -----

  /** A stretch of text, or a binding between its braces. */
  datatype Piece = Plain(text: string) | Bound(expression: string)

  /** No brace is doubled, nor would be by the brace that follows. */
  predicate HasNoPair(s: string, c: char) {
    (forall i | 0 < i < |s| :: !(s[i - 1] == c && s[i] == c)) && (s != "" ==> s[|s| - 1] != c)
  }

  predicate ArePieces(ps: seq<Piece>)
    decreases |ps|
  {
    ps != [] ==>
      && (match ps[0]
          case Plain(text) => HasNoPair(text, '{') && (|ps| > 1 ==> ps[1].Bound?)
          case Bound(expression) => HasNoPair(expression, '}'))
      && ArePieces(ps[1..])
  }

  function WritePieces(ps: seq<Piece>): string
    decreases |ps|
  {
    if ps == [] then ""
    else
      match ps[0]
      case Plain(text) => text + WritePieces(ps[1..])
      case Bound(expression) => "{{" + (expression + ("}}" + WritePieces(ps[1..])))
  }

  /** What a value shows: a text itself, a missing or null value nothing, anything else its compact JSON. */
  function Shown(v: Option<Json.Value>): string {
    match v
    case None => ""
    case Some(Null) => ""
    case Some(Bool(b)) => if b then "true" else "false"
    case Some(Num(text, _)) => text
    case Some(Str(s)) => s
    case Some(w) => Json.ToText(w)
  }

  function ShownText(ps: seq<Piece>, ctx: Context): string
    decreases |ps|
  {
    if ps == [] then ""
    else
      (match ps[0]
       case Plain(text) => text
       case Bound(expression) => if IsDotted(Trim(expression)) then Shown(Resolve(ctx, Trim(expression))) else "")
      + ShownText(ps[1..], ctx)
  }

  function Complaints(ps: seq<Piece>): seq<string>
    decreases |ps|
  {
    if ps == [] then []
    else
      (if ps[0].Bound? && !IsDotted(Trim(ps[0].expression)) then
         ["unsupported binding expression `" + Trim(ps[0].expression) + "`"]
       else [])
      + Complaints(ps[1..])
  }

  lemma PairIs(s: string, c: char, tail: string)
    requires HasNoPair(s, c)
    ensures FindPair(s + ([c, c] + tail), c) == |s|
  {
    var t := s + ([c, c] + tail);
    assert t[|s|] == c && t[|s| + 1] == c;
    forall i | 0 <= i < |s| ensures !PairAt(t, i, c) {
      if i + 1 < |s| {
        assert t[i] == s[i] && t[i + 1] == s[i + 1];
        assert !(s[i + 1 - 1] == c && s[i + 1] == c);
      } else {
        assert t[i] == s[|s| - 1];
      }
    }
    FindPairIs(t, c, |s|);
  }

  lemma NoPairIs(s: string, c: char)
    requires forall i | 0 < i < |s| :: !(s[i - 1] == c && s[i] == c)
    ensures FindPair(s, c) == |s|
  {
    forall i ensures !PairAt(s, i, c) {
      assert 0 < i + 1 < |s| ==> !(s[i + 1 - 1] == c && s[i + 1] == c);
    }
  }

  lemma ShowsBinding(expression: string, ctx: Context)
    ensures BindingText(expression, ctx).value == (if IsDotted(expression) then Shown(Resolve(ctx, expression)) else "")
    ensures BindingText(expression, ctx).warnings ==
            if IsDotted(expression) then [] else ["unsupported binding expression `" + expression + "`"]
  {
    hide IsDotted, IsSupportedPath, Resolve;
    SupportedIff(expression);
  }

  lemma BoundStep(source: string, pre: string, expression: string, rest: string, ctx: Context)
    requires HasNoPair(pre, '{') && HasNoPair(expression, '}')
    ensures InterpolateRest(source, pre + ("{{" + (expression + ("}}" + rest))), ctx) ==
            After(pre + BindingText(Trim(expression), ctx).value, BindingText(Trim(expression), ctx).warnings,
                  InterpolateRest(source, rest, ctx))
  {
    hide BindingText, Trim, FindPair, HasNoPair, InterpolateRest;
    var inner := expression + ("}}" + rest);
    var all := pre + ("{{" + inner);
    assert ['{', '{'] == "{{" && ['}', '}'] == "}}";
    PairIs(pre, '{', inner);
    PairIs(expression, '}', rest);
    assert all[|pre| + 2..] == inner && inner[..|expression|] == expression && inner[|expression| + 2..] == rest;
    assert all[..|pre|] == pre;
    InterpolateStep(source, all, ctx);
  }

  /** How a text ends: with what is shown, or in a binding that is never closed, shown as it is with a warning. */
  datatype Ending = Closed | Open(rest: string)

  function WriteEnding(e: Ending): string {
    match e
    case Closed => ""
    case Open(rest) => "{{" + rest
  }

  predicate IsEnding(e: Ending) {
    e.Open? ==> forall i | 0 < i < |e.rest| :: !(e.rest[i - 1] == '}' && e.rest[i] == '}')
  }

  lemma EndStep(source: string, pre: string, e: Ending, ctx: Context)
    requires HasNoPair(pre, '{') && IsEnding(e)
    ensures InterpolateRest(source, pre + WriteEnding(e), ctx) ==
            Rendered(pre + WriteEnding(e), if e.Open? then ["unterminated binding in `" + source + "`"] else [])
  {
    hide BindingText, Trim, FindPair, InterpolateRest;
    var all := pre + WriteEnding(e);
    InterpolateStep(source, all, ctx);
    match e
    case Closed =>
      assert all == pre;
      NoPairIs(pre, '{');
    case Open(rest) =>
      assert ['{', '{'] == "{{";
      assert all == pre + (['{', '{'] + rest);
      PairIs(pre, '{', rest);
      NoPairIs(rest, '}');
      assert all[|pre| + 2..] == rest;
  }

  lemma NothingPlain()
    ensures HasNoPair("", '{')
  {
  }

  lemma {:induction false} PiecesShow(source: string, ps: seq<Piece>, e: Ending, ctx: Context)
    requires ArePieces(ps) && IsEnding(e) && (ps != [] && ps[|ps| - 1].Plain? ==> HasNoPair(ps[|ps| - 1].text, '{'))
    ensures InterpolateRest(source, WritePieces(ps) + WriteEnding(e), ctx) ==
            Rendered(ShownText(ps, ctx) + WriteEnding(e),
                     Complaints(ps) + if e.Open? then ["unterminated binding in `" + source + "`"] else [])
    decreases |ps|
  {
    hide InterpolateRest, BindingText, HasNoPair, IsDotted, Shown, Trim, Resolve;
    NothingPlain();
    if ps == [] {
      EndStep(source, "", e, ctx);
    } else {
      match ps[0]
      case Bound(expression) =>
        PiecesShow(source, ps[1..], e, ctx);
        OneBoundShows(source, ps, expression, e, ctx);
      case Plain(text) =>
        if |ps| == 1 {
          EndStep(source, text, e, ctx);
          PlainAlone(ps, text, ctx);
        } else {
          var tail := ps[1..][1..];
          assert ps[1..][0] == ps[1];
          PiecesShow(source, tail, e, ctx);
          TwoPiecesShow(source, ps, text, ps[1].expression, tail, e, ctx);
        }
    }
  }

  lemma OneBoundShows(source: string, ps: seq<Piece>, expression: string, e: Ending, ctx: Context)
    requires ps != [] && ps[0] == Bound(expression) && HasNoPair(expression, '}')
    requires InterpolateRest(source, WritePieces(ps[1..]) + WriteEnding(e), ctx) ==
             Rendered(ShownText(ps[1..], ctx) + WriteEnding(e),
                      Complaints(ps[1..]) + if e.Open? then ["unterminated binding in `" + source + "`"] else [])
    ensures InterpolateRest(source, WritePieces(ps) + WriteEnding(e), ctx) ==
            Rendered(ShownText(ps, ctx) + WriteEnding(e),
                     Complaints(ps) + if e.Open? then ["unterminated binding in `" + source + "`"] else [])
  {
    hide *;
    NothingPlain();
    var end, more := WriteEnding(e), if e.Open? then ["unterminated binding in `" + source + "`"] else [];
    var rest := WritePieces(ps[1..]) + end;
    WriteBound(ps, expression);
    TextsOf("", expression, WritePieces(ps[1..]), end);
    BoundStep(source, "", expression, rest, ctx);
    ShowsBinding(Trim(expression), ctx);
    Joined("", BindingText(Trim(expression), ctx), ShownText(ps[1..], ctx), end, Complaints(ps[1..]), more);
    BoundFirst(ps, ctx);
    assert "" + ShownText(ps, ctx) == ShownText(ps, ctx);
  }

  lemma WriteBound(ps: seq<Piece>, expression: string)
    requires ps != [] && ps[0] == Bound(expression)
    ensures WritePieces(ps) == "" + ("{{" + (expression + ("}}" + WritePieces(ps[1..]))))
  {
  }

  lemma TwoPiecesShow(source: string, ps: seq<Piece>, text: string, expression: string, tail: seq<Piece>, e: Ending, ctx: Context)
    requires |ps| > 1 && ps[0] == Plain(text) && ps[1] == Bound(expression) && tail == ps[1..][1..]
    requires HasNoPair(text, '{') && HasNoPair(expression, '}')
    requires InterpolateRest(source, WritePieces(tail) + WriteEnding(e), ctx) ==
             Rendered(ShownText(tail, ctx) + WriteEnding(e),
                      Complaints(tail) + if e.Open? then ["unterminated binding in `" + source + "`"] else [])
    ensures InterpolateRest(source, WritePieces(ps) + WriteEnding(e), ctx) ==
            Rendered(ShownText(ps, ctx) + WriteEnding(e),
                     Complaints(ps) + if e.Open? then ["unterminated binding in `" + source + "`"] else [])
  {
    hide *;
    var end, more := WriteEnding(e), if e.Open? then ["unterminated binding in `" + source + "`"] else [];
    var rest := WritePieces(tail) + end;
    PlainThenBound(ps, text, expression, ctx);
    TextsOf(text, expression, WritePieces(tail), end);
    BoundStep(source, text, expression, rest, ctx);
    ShowsBinding(Trim(expression), ctx);
    Joined(text, BindingText(Trim(expression), ctx), ShownText(tail, ctx), end, Complaints(tail), more);
  }

  lemma PlainAlone(ps: seq<Piece>, text: string, ctx: Context)
    requires ps == [Plain(text)]
    ensures WritePieces(ps) == text && ShownText(ps, ctx) == text && Complaints(ps) == []
  {
    assert ps[1..] == [];
    assert text + "" == text;
  }

  lemma BoundFirst(ps: seq<Piece>, ctx: Context)
    requires ps != [] && ps[0].Bound?
    ensures var expression := ps[0].expression;
      && ShownText(ps, ctx) ==
         (if IsDotted(Trim(expression)) then Shown(Resolve(ctx, Trim(expression))) else "") + ShownText(ps[1..], ctx)
      && Complaints(ps) ==
         (if IsDotted(Trim(expression)) then [] else ["unsupported binding expression `" + Trim(expression) + "`"]) + Complaints(ps[1..])
  {
    hide IsDotted, Shown, Trim, Resolve;
  }

  lemma PlainThenBound(ps: seq<Piece>, text: string, expression: string, ctx: Context)
    requires |ps| > 1 && ps[0] == Plain(text) && ps[1] == Bound(expression)
    ensures var tail := ps[1..][1..];
      var shown := if IsDotted(Trim(expression)) then Shown(Resolve(ctx, Trim(expression))) else "";
      && WritePieces(ps) == text + ("{{" + (expression + ("}}" + WritePieces(tail))))
      && ShownText(ps, ctx) == text + (shown + ShownText(tail, ctx))
      && Complaints(ps) ==
         (if IsDotted(Trim(expression)) then [] else ["unsupported binding expression `" + Trim(expression) + "`"]) + Complaints(tail)
  {
    hide IsDotted, Shown, Trim, Resolve;
    assert ps[1..][0] == ps[1];
    assert [] + Complaints(ps[1..]) == Complaints(ps[1..]);
  }

  lemma TextsOf(text: string, expression: string, more: string, end: string)
    ensures text + ("{{" + (expression + ("}}" + more))) + end == text + ("{{" + (expression + ("}}" + (more + end))))
  {
    assert "}}" + more + end == "}}" + (more + end);
    assert expression + ("}}" + more) + end == expression + ("}}" + (more + end));
    assert "{{" + (expression + ("}}" + more)) + end == "{{" + (expression + ("}}" + (more + end)));
  }

  lemma Joined(pre: string, b: Rendered<string>, shown: string, end: string, warnings: seq<string>, last: seq<string>)
    ensures After(pre + b.value, b.warnings, Rendered(shown + end, warnings + last)) ==
            Rendered(pre + (b.value + shown) + end, b.warnings + warnings + last)
  {
    assert pre + b.value + (shown + end) == pre + (b.value + shown) + end;
    assert b.warnings + (warnings + last) == b.warnings + warnings + last;
  }

  /**
    A text shows its plain stretches as they are, and each binding as the value of its path; what is no path shows
    nothing and is complained about. A binding that is never closed is shown as it is written.
   */
  lemma TextShows(ps: seq<Piece>, e: Ending, ctx: Context)
    requires ArePieces(ps) && IsEnding(e)
    ensures var source := WritePieces(ps) + WriteEnding(e);
      Interpolate(source, ctx) ==
      Rendered(ShownText(ps, ctx) + WriteEnding(e),
               Complaints(ps) + if e.Open? then ["unterminated binding in `" + source + "`"] else [])
  {
    hide InterpolateRest, WritePieces, ShownText, Complaints;
    LastIsPlain(ps);
    PiecesShow(WritePieces(ps) + WriteEnding(e), ps, e, ctx);
  }

  lemma {:induction false} LastIsPlain(ps: seq<Piece>)
    requires ArePieces(ps)
    ensures ps != [] && ps[|ps| - 1].Plain? ==> HasNoPair(ps[|ps| - 1].text, '{')
    decreases |ps|
  {
    if |ps| > 1 {
      LastIsPlain(ps[1..]);
    }
  }

  /** A text without a doubled opening brace is shown as it is. */
  lemma PlainTextShows(source: string, ctx: Context)
    requires forall i | 0 < i < |source| :: !(source[i - 1] == '{' && source[i] == '{')
    ensures Interpolate(source, ctx) == Rendered(source, [])
  {
    hide BindingText, FindPair, InterpolateRest;
    NoPairIs(source, '{');
    InterpolateStep(source, source, ctx);
  }

  /** An attribute that is one binding has its value, null if there is none; any other is its text. */
  lemma ValueShows(before: string, inside: string, path: string, behind: string, after: string, ctx: Context)
    requires IsBlank(before) && IsBlank(inside) && IsBlank(behind) && IsBlank(after) && IsDotted(path)
    ensures InterpolateValue(before + ("{{" + (inside + path + behind) + "}}") + after, ctx) ==
            Rendered(match Resolve(ctx, path) { case Some(v) => v case None => Json.Null }, [])
  {
    hide IsDotted, IsSpace, Trim, IsWord, Split, Resolve;
    SupportedIff(path);
    SingleBinding(before, inside, path, behind, after);
  }

  lemma SingleBinding(before: string, inside: string, path: string, behind: string, after: string)
    requires IsBlank(before) && IsBlank(inside) && IsBlank(behind) && IsBlank(after) && IsSupportedPath(path) && IsDotted(path)
    ensures SinglePath(before + ("{{" + (inside + path + behind) + "}}") + after) == Some(path)
  {
    DottedEnds(path);
    Braces(inside + path + behind);
    hide *;
    var t := "{{" + (inside + path + behind) + "}}";
    TrimPadded(before, t, after);
    TrimPadded(inside, path, behind);
    SingleIs(before + t + after, t, path);
  }

  lemma Braces(s: string)
    ensures var t := "{{" + s + "}}";
      && |t| >= 4 && StartsWith(t, "{{") && EndsWith(t, "}}") && t[2..|t| - 2] == s
      && !IsSpace(t[0]) && !IsSpace(t[|t| - 1])
  {
    assert !IsSpace('{') && !IsSpace('}');
    hide IsSpace;
    var t := "{{" + s + "}}";
    assert t[..2] == "{{" && t[|t| - 2..] == "}}";
  }

  lemma SingleIs(source: string, t: string, path: string)
    requires Trim(source) == t && |t| >= 4 && StartsWith(t, "{{") && EndsWith(t, "}}")
    requires Trim(t[2..|t| - 2]) == path && IsSupportedPath(path)
    ensures SinglePath(source) == Some(path)
  {
    hide Trim, StartsWith, EndsWith, IsSupportedPath;
  }

  lemma DottedEnds(path: string)
    requires IsDotted(path)
    ensures path != "" && !IsSpace(path[0]) && !IsSpace(path[|path| - 1])
  {
    assert path[0] in path && path[|path| - 1] in path;
    forall c | IsLetterOrDigit(c) ensures !IsSpace(c) {
      WordChars(c);
    }
  }

  /** A text that is a single binding is written as one. */
  lemma SingleIsWritten(source: string) returns (before: string, inside: string, path: string, behind: string, after: string)
    requires SinglePath(source).Some?
    ensures IsBlank(before) && IsBlank(inside) && IsBlank(behind) && IsBlank(after)
    ensures IsDotted(path) && SinglePath(source) == Some(path)
    ensures source == before + ("{{" + (inside + path + behind) + "}}") + after
  {
    hide IsDotted, IsSupportedPath, IsSpace, IsBlank, TrimStart, TrimEnd, Trim;
    var t := Trim(source);
    before, after := Padding(source);
    var mid := t[2..|t| - 2];
    inside, behind := Padding(mid);
    path := Trim(mid);
    SupportedIff(path);
    assert t[..2] == "{{" && t[|t| - 2..] == "}}";
    assert t == "{{" + mid + "}}";
  }

  lemma Padding(s: string) returns (before: string, after: string)
    ensures IsBlank(before) && IsBlank(after) && s == before + Trim(s) + after
  {
    hide TrimStart, TrimEnd, IsSpace;
    var t := TrimStart(s);
    var r := TrimEnd(t);
    before, after := s[..|s| - |t|], t[|r|..];
    assert t == r + after;
    assert s == before + t;
    Regroup(before, r, after);
  }

  lemma Regroup(a: string, b: string, c: string)
    ensures a + (b + c) == a + b + c
  {
  }

  lemma {:induction false} SameForAnySource(source: string, other: string, rest: string, ctx: Context)
    ensures InterpolateRest(source, rest, ctx).value == InterpolateRest(other, rest, ctx).value
    decreases |rest|
  {
    hide BindingText, Trim, FindPair, InterpolateRest;
    InterpolateStep(source, rest, ctx);
    InterpolateStep(other, rest, ctx);
    var start := FindPair(rest, '{');
    if start < |rest| {
      var after := rest[start + 2..];
      var end := FindPair(after, '}');
      if end < |after| {
        SameForAnySource(source, other, after[end + 2..], ctx);
      }
    }
  }

  /** Between any two texts a binding is shown as its value, if no brace before it joins its own. */
  lemma BindingBetween(pre: string, inside: string, path: string, behind: string, post: string, ctx: Context)
    requires HasNoPair(pre, '{') && IsBlank(inside) && IsDotted(path) && IsBlank(behind)
    ensures Interpolate(pre + ("{{" + (inside + path + behind + ("}}" + post))), ctx).value ==
            pre + Shown(Resolve(ctx, path)) + Interpolate(post, ctx).value
  {
    DottedEnds(path);
    NoBraceIn(inside, path, behind);
    hide *;
    var expression := inside + path + behind;
    var source := pre + ("{{" + (expression + ("}}" + post)));
    TrimPadded(inside, path, behind);
    BoundStep(source, pre, expression, post, ctx);
    ShowsBinding(path, ctx);
    SameForAnySource(source, post, post, ctx);
    WholeText(source, ctx);
    WholeText(post, ctx);
    ValueAfter(pre, BindingText(path, ctx), InterpolateRest(source, post, ctx));
  }

  lemma WholeText(source: string, ctx: Context)
    ensures Interpolate(source, ctx) == InterpolateRest(source, source, ctx)
  {
  }

  lemma ValueAfter(pre: string, b: Rendered<string>, more: Rendered<string>)
    ensures After(pre + b.value, b.warnings, more).value == pre + b.value + more.value
  {
  }

  lemma NoBraceIn(inside: string, path: string, behind: string)
    requires IsBlank(inside) && IsDotted(path) && IsBlank(behind)
    ensures HasNoPair(inside + path + behind, '}')
  {
    assert !IsSpace('}') && !IsLetterOrDigit('}');
    hide IsSpace, IsLetterOrDigit;
    var all := inside + path + behind;
    assert forall c | c in all :: c in inside || c in path || c in behind;
    assert '}' !in all;
    assert forall i | 0 <= i < |all| :: all[i] in all;
  }
}
