/** Where renaming a loop variable does change the tree: the loop's own condition, and keys that reach into the item. */
module CompilerLoopLimits {
  import opened Wrappers
  import opened Text
  import opened Wxml
  import opened Binding
  import opened Compiler
  import opened CompilerScope
  import opened CompilerRename
  import opened CompilerTrees
  import opened CompilerLoops
  import Json

  function Braced(word: string): string {
    "{{" + (word + "}}")
  }

  lemma WordIsPath(word: string)
    requires IsWord(word)
    ensures IsSupportedPath(word) && Segments(word) == [word] && PathNames(word) == {word}
  {
    hide IsWord, Split;
    WordFixed(word);
    WordNotEmpty(word);
    SplitNone(word, '.');
    SupportedSegments(word);
  }

  lemma BracedIsSingle(word: string)
    requires IsWord(word)
    ensures SinglePath(Braced(word)) == Some(word)
  {
    hide IsWord, IsSupportedPath, Trim, Segments, PathNames;
    WordIsPath(word);
    SupportedFixed(word);
    var t := Braced(word);
    BracesNoSpace();
    TrimFixed(t);
    assert t[..2] == "{{" && t[|t| - 2..] == "}}" && t[2..|t| - 2] == word;
  }

  lemma WordResolves(ctx: Context, word: string)
    requires IsWord(word)
    ensures Resolve(ctx, word) == LookupName(ctx, word)
  {
    hide IsWord, LookupName, IsSupportedPath, PathNames;
    WordIsPath(word);
    assert [word] == [word] + [];
    hide Segments;
    ResolveBy(ctx, word, word, []);
  }

  lemma NamesDiffer()
    ensures "wx:for" != "wx:if" && "wx:for" != "wx:key" && "wx:for" != "wx:for-item" && "wx:for" != "wx:for-index"
    ensures "wx:for-item" != "wx:if" && "wx:for-item" != "wx:key" && "wx:for-item" != "wx:for-index"
    ensures "wx:for-index" != "wx:if" && "wx:for-index" != "wx:key" && "wx:if" != "wx:key"
    ensures forall n | n in {"wx:for", "wx:for-item", "wx:for-index", "wx:if", "wx:key"} :: n[0] == 'w'
  {
    assert |"wx:for"| == 6 && |"wx:if"| == 5 && |"wx:for-item"| == 11 && |"wx:for-index"| == 12;
    assert "wx:key"[3] == 'k' && "wx:for"[3] == 'f';
  }

  /** Words that stand for different things. */
  predicate AreWords(x: string, y: string, z: string, list: string) {
    && IsWord(x) && IsWord(y) && IsWord(z) && IsWord(list)
    && x != y && x != z && x != list && y != z && y != list && z != list
    && x != "length" && y != "length"
  }

  lemma NoInterpolation(attrs: Attrs)
    requires forall n | n in attrs :: n != "" && n[0] == 'w'
    ensures AttrNames("view", attrs) == {} && RENDER_KEY !in attrs
  {
    assert RENDER_KEY[0] == 'd' && DATA[0] == 'd' && "src"[0] == 's';
    forall n | n in attrs ensures !IsInterpolated("view", n) {
      DataStarts(n);
    }
  }

  lemma DataStarts(name: string)
    ensures StartsWith(name, DATA) ==> name != "" && name[0] == 'd'
  {
    assert DATA[0] == 'd';
  }

  // ----- the condition is read before the variable exists -----

  /** A loop over `list` in `x` and `z`, shown if `x`. */
  function ConditionLoop(x: string, z: string, list: string): Node {
    Element("view", map["wx:for" := Braced(list), "wx:for-item" := x, "wx:for-index" := z, "wx:if" := Braced(x)], [])
  }

  /** Data in which `x` holds, outside the loop and as its one item. */
  function ConditionData(x: string, list: string): Context {
    Context(Json.Obj(map[x := Json.Bool(true), list := Json.Arr([Json.Bool(true)])]), map[])
  }

  lemma ConditionLoopMay(x: string, y: string, z: string, list: string)
    requires AreWords(x, y, z, list)
    ensures var e, ctx := ConditionLoop(x, z, list), ConditionData(x, list);
      && LoopItems(e.attrs, ctx) == [Json.Bool(true)] && MayRenameLoop(e, ItemSlot, y)
      && ItemName(e.attrs) == x && IndexName(e.attrs) == z && "wx:if" in e.attrs && e.attrs["wx:if"] == Braced(x)
  {
    hide IsWord, SinglePath, Resolve, Braced, PathNames, Segments, IsSupportedPath;
    var e, ctx := ConditionLoop(x, z, list), ConditionData(x, list);
    NamesDiffer();
    BracedIsSingle(list);
    BracedIsSingle(x);
    WordIsPath(x);
    WordResolves(ctx, list);
    NoInterpolation(e.attrs);
  }

  lemma ConditionOutcomes(x: string, y: string, z: string, list: string)
    requires AreWords(x, y, z, list)
    ensures var e, ctx := ConditionLoop(x, z, list), ConditionData(x, list);
      && LoopItems(e.attrs, ctx) == [Json.Bool(true)]
      && ConditionOf(e.attrs, ctx).Holds? && Shown(e, [Json.Bool(true)], 0, ctx)
  {
    hide IsWord, SinglePath, Resolve, Braced, LoopItems, MayRenameLoop, ItemName, IndexName, Json.FromNat;
    var e, ctx := ConditionLoop(x, z, list), ConditionData(x, list);
    ConditionLoopMay(x, y, z, list);
    BracedIsSingle(x);
    WordResolves(ctx, x);
    var loop := LoopContext(e.attrs, [Json.Bool(true)], 0, ctx);
    RoundLookup(e.attrs, [Json.Bool(true)], 0, ctx);
    WordResolves(loop, x);
  }

  lemma RenamedOutcome(x: string, y: string, z: string, list: string)
    requires AreWords(x, y, z, list)
    ensures ConditionOf(RenameLoop(ConditionLoop(x, z, list), ItemSlot, y).attrs, ConditionData(x, list)) == Fails
  {
    var e, ctx := ConditionLoop(x, z, list), ConditionData(x, list);
    hide IsWord, SinglePath, Resolve, Braced, LoopItems, MayRenameLoop, ItemName, IndexName, RenameLoop, RenameAttr, ConditionLoop,
      RenamePath, RenameSingle;
    IsLoop(x, z, list);
    ConditionLoopMay(x, y, z, list);
    var r := RenameLoop(e, ItemSlot, y);
    LoopAttrs(e, ItemSlot, y);
    IfIsRenamed(e, r.attrs, x, y);
    BracedIsSingle(x);
    RenamedSingle(Braced(x), x, y);
    WordRenamed(x, y);
    WordResolves(ctx, y);
  }

  lemma WordRenamed(x: string, y: string)
    requires IsWord(x)
    ensures IsSupportedPath(x) && RenamePath(x, x, y) == y
  {
    hide IsWord, Split, Segments, PathNames;
    WordIsPath(x);
    WordFixed(x);
    SplitNone(x, '.');
    FindNone(x, '.');
    assert y + "" == y;
  }

  /** A loop shown if its own variable is: the variable's name also means something outside, and the new name does not. */
  lemma ConditionReadsOutside(x: string, y: string, z: string, list: string, classes: Classes, counter: nat)
    requires AreWords(x, y, z, list)
    ensures var e, ctx := ConditionLoop(x, z, list), ConditionData(x, list);
      && MayRenameLoop(e, ItemSlot, y)
      && !SameTree(CompileElement(RenameLoop(e, ItemSlot, y), ctx, classes, counter), CompileElement(e, ctx, classes, counter))
  {
    hide *;
    var e, ctx := ConditionLoop(x, z, list), ConditionData(x, list);
    ConditionLoopMay(x, y, z, list);
    ConditionOutcomes(x, y, z, list);
    IsLoop(x, z, list);
    LoopAttrs(e, ItemSlot, y);
    RenamedOutcome(x, y, z, list);
    RenamingLoopVariableIff(e, ItemSlot, y, ctx, classes, counter);
    ShownSomewhere(e, 0, ctx);
    ConditionsDiffer(e, y, ctx);
  }

  lemma IsLoop(x: string, z: string, list: string)
    ensures ConditionLoop(x, z, list).Element? && "wx:for" in ConditionLoop(x, z, list).attrs
  {
  }

  lemma ShownSomewhere(e: Node, i: nat, ctx: Context)
    requires e.Element? && "wx:for" in e.attrs && i < |LoopItems(e.attrs, ctx)| && Shown(e, LoopItems(e.attrs, ctx), i, ctx)
    ensures AnyShown(e, ctx)
  {
  }

  lemma ConditionsDiffer(e: Node, y: string, ctx: Context)
    requires e.Element? && "wx:for" in e.attrs
    requires ConditionOf(e.attrs, ctx).Holds? && !ConditionOf(RenameLoop(e, ItemSlot, y).attrs, ctx).Holds?
    ensures !SameConditionAndKeys(e, ItemSlot, y, ctx)
  {
    hide RenameLoop, ConditionOf, AllAgree;
  }

  /** For instance `wx:if="{{item}}"` on the loop itself, over data where `item` holds, with `item` called `it`. */
  lemma ConditionReadsItem(classes: Classes, counter: nat)
    ensures var e, ctx := ConditionLoop("item", "index", "list"), ConditionData("item", "list");
      && "wx:for" in e.attrs
      && !SameTree(CompileElement(RenameLoop(e, ItemSlot, "it"), ctx, classes, counter), CompileElement(e, ctx, classes, counter))
  {
    SomeWords();
    hide *;
    IsLoop("item", "index", "list");
    ConditionReadsOutside("item", "it", "index", "list", classes, counter);
  }

  lemma SomeWords()
    ensures AreWords("item", "it", "index", "list") && IsWord("f")
  {
    hide IsWordChar;
    Letters();
    assert |"item"| == 4 && |"it"| == 2 && |"index"| == 5 && |"list"| == 4 && |"length"| == 6;
    assert "item"[0] == 'i' && "list"[0] == 'l';
  }

  lemma Letters()
    ensures forall c: char | 'a' <= c <= 'z' :: IsWordChar(c)
  {
  }

  // ----- a longer key falls back to a field of the item -----

  /** A loop over `list` in `x` and `z` whose key is the field `f` of `x`. */
  function KeyLoop(x: string, z: string, list: string, f: string): Node {
    Element("view", map["wx:for" := Braced(list), "wx:for-item" := x, "wx:for-index" := z, "wx:key" := x + "." + f], [])
  }

  /** An item without a field `f`, but with a field called `x` that has one. */
  function KeyItem(x: string, f: string): Value {
    Json.Obj(map[x := Json.Obj(map[f := Json.Str("a")])])
  }

  function KeyData(x: string, list: string, f: string): Context {
    Context(Json.Obj(map[list := Json.Arr([KeyItem(x, f)])]), map[])
  }

  predicate AreKeyWords(x: string, y: string, z: string, list: string, f: string) {
    AreWords(x, y, z, list) && IsWord(f) && f != x && f != "length"
  }

  lemma FieldPath(x: string, f: string)
    requires IsWord(x) && IsWord(f)
    ensures IsSupportedPath(x + "." + f) && Segments(x + "." + f) == [x, f] && PathNames(x + "." + f) == {x}
  {
    hide *;
    var path := x + "." + f;
    WordFixed(x);
    WordFixed(f);
    assert path == x + ['.'] + f;
    SplitUnfold(path, '.', x, f);
    SplitNone(f, '.');
    assert [x] + [f] == [x, f];
    TwoWords(path, x, f);
    SupportedSegments(path);
    FirstName(path, x, f);
  }

  lemma FirstName(path: string, x: string, f: string)
    requires Segments(path) == [x, f]
    ensures PathNames(path) == {x}
  {
    hide Segments;
  }

  lemma TwoWords(path: string, x: string, f: string)
    requires Split(path, '.') == [x, f] && IsWord(x) && IsWord(f) && path != ""
    ensures IsSupportedPath(path)
  {
    hide Split, IsWord;
  }

  lemma KeyLoopMay(x: string, y: string, z: string, list: string, f: string)
    requires AreKeyWords(x, y, z, list, f)
    ensures var e, ctx := KeyLoop(x, z, list, f), KeyData(x, list, f);
      && LoopItems(e.attrs, ctx) == [KeyItem(x, f)] && MayRenameLoop(e, ItemSlot, y)
      && ItemName(e.attrs) == x && IndexName(e.attrs) == z && "wx:if" !in e.attrs && RENDER_KEY !in e.attrs
      && "wx:key" in e.attrs && e.attrs["wx:key"] == x + "." + f
  {
    hide IsWord, SinglePath, Resolve, Braced, PathNames, Segments, IsSupportedPath, KeyItem;
    var e, ctx := KeyLoop(x, z, list, f), KeyData(x, list, f);
    NamesDiffer();
    BracedIsSingle(list);
    WordResolves(ctx, list);
    FieldPath(x, f);
    PlainIsNotSingle(x + "." + f);
    WordSegments(x, x + "." + f);
    NoInterpolation(e.attrs);
  }

  /** The field of the item under the name it is given. */
  lemma KeyReads(ctx: Context, name: string, x: string, f: string)
    requires IsWord(name) && IsWord(x) && IsWord(f) && f != x && x != "length" && name != "length" && f != "length"
    requires LookupName(ctx, name) == Some(KeyItem(x, f))
    ensures ResolveKey(name + "." + f, name, ctx) == if name == x then Some(Json.Str("a")) else None
  {
    hide IsWord, LookupName, IsSupportedPath, PathNames, SinglePath, Segments;
    var item, key := KeyItem(x, f), name + "." + f;
    FieldPath(name, f);
    PlainIsNotSingle(key);
    FieldSegments(name, key);
    assert [name, f] == [name] + [f];
    ResolveBy(ctx, key, name, [f]);
    ResolveBy(ctx, name + "." + key, name, [name, f]);
    assert [name, f][1..] == [f] && [f][1..] == [];
    assert Walk(item, [f]) == None;
    if name == x {
      var inner := Json.Obj(map[f := Json.Str("a")]);
      assert Walk(item, [name, f]) == Walk(inner, [f]);
      assert Walk(inner, [f]) == Walk(Json.Str("a"), []);
    } else {
      assert Walk(item, [name, f]) == None;
    }
  }

  function KeyAt(e: Node, items: seq<Value>, i: nat, ctx: Context): Option<string>
    requires e.Element? && i < |items|
  {
    RoundKey(e.attrs, LoopContext(e.attrs, items, i, ctx))
  }

  lemma KeysOfRound(attrs: Attrs, loop: Context)
    requires "wx:key" in attrs && RENDER_KEY !in attrs
    ensures var v := ResolveKey(attrs["wx:key"], ItemName(attrs), loop);
      RoundKey(attrs, loop) == if v.Some? then Some(KeyText(v.value)) else None
  {
    hide ResolveKey, ItemName, KeyText;
    assert RENDER_KEY !in LOOP_NAMES by { assert RENDER_KEY[0] == 'd'; }
  }

  lemma KeyBefore(x: string, y: string, z: string, list: string, f: string)
    requires AreKeyWords(x, y, z, list, f)
    ensures var e, ctx := KeyLoop(x, z, list, f), KeyData(x, list, f);
      KeyAt(e, [KeyItem(x, f)], 0, ctx) == Some("a") && Shown(e, [KeyItem(x, f)], 0, ctx)
  {
    hide IsWord, ResolveKey, KeyItem, LoopItems, MayRenameLoop, ItemName, IndexName, RoundKey, Json.FromNat;
    var e, ctx := KeyLoop(x, z, list, f), KeyData(x, list, f);
    KeyLoopMay(x, y, z, list, f);
    RoundLookup(e.attrs, [KeyItem(x, f)], 0, ctx);
    var loop := LoopContext(e.attrs, [KeyItem(x, f)], 0, ctx);
    KeysOfRound(e.attrs, loop);
    KeyReads(loop, x, x, f);
  }

  lemma KeyAfter(x: string, y: string, z: string, list: string, f: string)
    requires AreKeyWords(x, y, z, list, f)
    ensures var e, ctx := KeyLoop(x, z, list, f), KeyData(x, list, f);
      KeyAt(RenameLoop(e, ItemSlot, y), [KeyItem(x, f)], 0, ctx) == None
  {
    var e, ctx := KeyLoop(x, z, list, f), KeyData(x, list, f);
    hide IsWord, ResolveKey, KeyItem, LoopItems, MayRenameLoop, ItemName, IndexName, RoundKey, RenameLoop, RenameAttr, KeyLoop,
      RenameKey, LookupName, LoopContext;
    IsKeyLoop(x, z, list, f);
    KeyLoopMay(x, y, z, list, f);
    var r := RenameLoop(e, ItemSlot, y);
    LoopAttrs(e, ItemSlot, y);
    KeyIsRenamed(e.tag, e.attrs, r.attrs, x, y);
    KeyRenamed(x, y, f);
    assert RENDER_KEY !in LOOP_NAMES by { assert RENDER_KEY[0] == 'd'; }
    assert RENDER_KEY !in e.attrs.Keys - LOOP_NAMES;
    assert RENDER_KEY !in r.attrs;
    RoundLookup(r.attrs, [KeyItem(x, f)], 0, ctx);
    var loop := LoopContext(r.attrs, [KeyItem(x, f)], 0, ctx);
    KeysOfRound(r.attrs, loop);
    KeyReads(loop, y, x, f);
  }

  lemma KeyRenamed(x: string, y: string, f: string)
    requires IsWord(x) && IsWord(f)
    ensures RenameKey(x + "." + f, x, y) == y + "." + f
  {
    hide IsWord, SinglePath, Segments, PathNames, Split;
    var key := x + "." + f;
    FieldPath(x, f);
    PlainIsNotSingle(key);
    WordFixed(x);
    SplitUnfold(key, '.', x, f);
    assert key[|x|] == '.' && key[..|x|] == x;
    FindIs(key, '.', |x|);
    assert key[|x|..] == "." + f;
  }

  /** A key that is a field the item lacks is looked up inside the item under the variable's old name. */
  lemma KeyReadsItemField(x: string, y: string, z: string, list: string, f: string, classes: Classes, counter: nat)
    requires AreKeyWords(x, y, z, list, f)
    ensures var e, ctx := KeyLoop(x, z, list, f), KeyData(x, list, f);
      && MayRenameLoop(e, ItemSlot, y)
      && !SameTree(CompileElement(RenameLoop(e, ItemSlot, y), ctx, classes, counter), CompileElement(e, ctx, classes, counter))
  {
    hide *;
    var e, ctx := KeyLoop(x, z, list, f), KeyData(x, list, f);
    KeyLoopMay(x, y, z, list, f);
    KeyBefore(x, y, z, list, f);
    IsKeyLoop(x, z, list, f);
    LoopAttrs(e, ItemSlot, y);
    KeyAfter(x, y, z, list, f);
    RenamingLoopVariableIff(e, ItemSlot, y, ctx, classes, counter);
    ShownSomewhere(e, 0, ctx);
    Unconditional(e.attrs, ctx);
    KeysDiffer(e, y, ctx);
  }

  lemma Unconditional(attrs: Attrs, ctx: Context)
    requires "wx:if" !in attrs
    ensures ConditionOf(attrs, ctx).Holds?
  {
  }

  lemma IsKeyLoop(x: string, z: string, list: string, f: string)
    ensures KeyLoop(x, z, list, f).Element? && "wx:for" in KeyLoop(x, z, list, f).attrs
  {
  }

  lemma KeysDiffer(e: Node, y: string, ctx: Context)
    requires e.Element? && "wx:for" in e.attrs && RenameLoop(e, ItemSlot, y).Element? && ConditionOf(e.attrs, ctx).Holds?
    requires |LoopItems(e.attrs, ctx)| > 0 && Shown(e, LoopItems(e.attrs, ctx), 0, ctx)
    requires var items := LoopItems(e.attrs, ctx);
      KeyAt(RenameLoop(e, ItemSlot, y), items, 0, ctx) != KeyAt(e, items, 0, ctx)
    ensures !SameConditionAndKeys(e, ItemSlot, y, ctx)
  {
    hide ConditionOf, LoopItems, RoundKey, Shown, RenameLoop, BodyStays;
    assert !KeysAgree(e, ItemSlot, y, LoopItems(e.attrs, ctx), 0, ctx);
  }

  /** For instance `wx:key="item.f"` over items `{item: {f: "a"}}`, with `item` called `it`. */
  lemma KeyReadsItem(classes: Classes, counter: nat)
    ensures var e, ctx := KeyLoop("item", "index", "list", "f"), KeyData("item", "list", "f");
      && "wx:for" in e.attrs
      && !SameTree(CompileElement(RenameLoop(e, ItemSlot, "it"), ctx, classes, counter), CompileElement(e, ctx, classes, counter))
  {
    SomeWords();
    assert "f" != "item" && "f" != "length" by {
      assert |"f"| == 1 && |"item"| == 4 && |"length"| == 6;
    }
    assert AreKeyWords("item", "it", "index", "list", "f");
    hide *;
    IsKeyLoop("item", "index", "list", "f");
    KeyReadsItemField("item", "it", "index", "list", "f", classes, counter);
  }
}
