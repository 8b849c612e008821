/** Renaming the variables of a loop: exactly when the tree stays the same. */
module CompilerLoops {
  import opened Wrappers
  import opened Text
  import opened Wxml
  import opened Binding
  import opened Compiler
  import opened CompilerScope
  import opened CompilerRename
  import opened CompilerTrees
  import Json

  // ----- which rounds are shown -----

  /** The element's own condition holds in round `i`. */
  predicate Shown(e: Node, items: seq<Value>, i: nat, ctx: Context)
    requires e.Element? && i < |items|
  {
    ConditionOf(e.attrs, LoopContext(e.attrs, items, i, ctx)).Holds?
  }

  predicate AnyShown(e: Node, ctx: Context)
    requires e.Element? && "wx:for" in e.attrs
  {
    exists i | 0 <= i < |LoopItems(e.attrs, ctx)| :: Shown(e, LoopItems(e.attrs, ctx), i, ctx)
  }

  lemma RoundShown(e: Node, items: seq<Value>, i: nat, ctx: Context, classes: Classes, counter: nat)
    requires e.Element? && i < |items|
    ensures var o := Round(e, items, i, ctx, classes, counter);
      |o.nodes| == (if Shown(e, items, i, ctx) then 1 else 0) && (o.nodes == [] ==> o.counter == counter)
  {
    hide *;
    var loop := LoopContext(e.attrs, items, i, ctx);
    RoundHasCondition(e.attrs, loop);
    ShowsKey(Element(e.tag, RoundAttrs(e.attrs, loop), e.children), loop, classes, counter);
    RoundIs(e, items, i, ctx, classes, counter);
    ShownIs(e, items, i, ctx);
  }

  lemma ShownIs(e: Node, items: seq<Value>, i: nat, ctx: Context)
    requires e.Element? && i < |items|
    ensures Shown(e, items, i, ctx) == ConditionOf(e.attrs, LoopContext(e.attrs, items, i, ctx)).Holds?
  {
    hide ConditionOf, LoopContext;
  }

  /** A loop compiles to no nodes exactly when no round is shown, and then uses no id. */
  lemma {:induction false} RoundsShown(e: Node, items: seq<Value>, i: nat, ctx: Context, classes: Classes, counter: nat)
    requires e.Element? && "wx:for" in e.attrs && i <= |items|
    ensures var o := CompileRounds(e, items, i, ctx, classes, counter);
      && (o.nodes == [] <==> forall k | i <= k < |items| :: !Shown(e, items, k, ctx))
      && (o.nodes == [] ==> o.counter == counter)
    decreases |items| - i
  {
    hide CompileRounds, Round, Shown;
    if i == |items| {
      RoundsDone(e, items, ctx, classes, counter);
    } else {
      RoundsUnfold(e, items, i, ctx, classes, counter);
      RoundShown(e, items, i, ctx, classes, counter);
      RoundsShown(e, items, i + 1, ctx, classes, Round(e, items, i, ctx, classes, counter).counter);
    }
  }

  // ----- a loop and its own variables -----

  datatype Slot = ItemSlot | IndexSlot

  function SlotAttr(slot: Slot): string {
    if slot.ItemSlot? then "wx:for-item" else "wx:for-index"
  }

  function SlotName(attrs: Attrs, slot: Slot): string {
    if slot.ItemSlot? then ItemName(attrs) else IndexName(attrs)
  }

  /** The item of a loop whose index has the same name: the name means the index. */
  predicate IsHidden(attrs: Attrs, slot: Slot) {
    slot.ItemSlot? && ItemName(attrs) == IndexName(attrs)
  }

  /** A loop with its item or index variable called `y`, in its attributes and, where it can be read, in its body. */
  function RenameLoop(e: Node, slot: Slot, y: string): Node
    requires e.Element? && "wx:for" in e.attrs
  {
    var x := SlotName(e.attrs, slot);
    if IsHidden(e.attrs, slot) then Element(e.tag, e.attrs[SlotAttr(slot) := y], e.children)
    else
      Element(e.tag, RenameAttrs(e.tag, e.attrs, x, y)["wx:for" := e.attrs["wx:for"]][SlotAttr(slot) := y],
              RenameAll(e.children, x, y))
  }

  /** `y` is a fresh word: not read in the loop's element, and no loop in it binds it. */
  predicate MayRenameLoop(e: Node, slot: Slot, y: string)
    requires e.Element? && "wx:for" in e.attrs
  {
    && IsWord(y) && y !in {ItemName(e.attrs), IndexName(e.attrs)}
    && y !in ConditionNames(e.attrs) && y !in AttrNames(e.tag, e.attrs) && y !in KeyNames(e.attrs)
    && (if IsHidden(e.attrs, slot) then y !in FreeAll(e.children) else AllowsAll(e.children, SlotName(e.attrs, slot), y))
  }

  /** The loop's attributes after the renaming, those of its variables aside. */
  ghost predicate RenamedBy(e: Node, other: Attrs, x: string, y: string)
    requires e.Element?
  {
    && other.Keys - LOOP_NAMES == e.attrs.Keys - LOOP_NAMES
    && forall n | n in e.attrs.Keys - LOOP_NAMES :: n in other && other[n] == RenameAttr(e.tag, n, e.attrs[n], x, y)
  }

  ghost predicate KeptBy(e: Node, other: Attrs)
    requires e.Element?
  {
    && other.Keys - LOOP_NAMES == e.attrs.Keys - LOOP_NAMES
    && forall n | n in e.attrs.Keys - LOOP_NAMES :: n in other && other[n] == e.attrs[n]
  }

  lemma LoopAttrs(e: Node, slot: Slot, y: string)
    requires e.Element? && "wx:for" in e.attrs
    ensures var x, r := SlotName(e.attrs, slot), RenameLoop(e, slot, y);
      && r.Element? && r.tag == e.tag
      && "wx:for" in r.attrs && r.attrs["wx:for"] == e.attrs["wx:for"]
      && (if IsHidden(e.attrs, slot) then KeptBy(e, r.attrs) && r.children == e.children
          else RenamedBy(e, r.attrs, x, y) && r.children == RenameAll(e.children, x, y))
      && SlotName(r.attrs, slot) == y
      && (slot.ItemSlot? ==> IndexName(r.attrs) == IndexName(e.attrs))
      && (slot.IndexSlot? ==> ItemName(r.attrs) == ItemName(e.attrs))
  {
    hide RenameSingle, RenameValue, RenameAll;
    assert "wx:for" in LOOP_NAMES && SlotAttr(slot) in LOOP_NAMES && SlotAttr(slot) != "wx:for";
    assert "wx:for-item"[0] == 'w' && DATA[0] == 'd';
    assert !IsInterpolated(e.tag, "wx:for-item") && !IsInterpolated(e.tag, "wx:for-index");
    assert "wx:for-item" != "wx:for-index" by {
      assert |"wx:for-item"| == 11 && |"wx:for-index"| == 12;
    }
  }

  /** The scopes of a round before and after renaming a variable that can be read. */
  lemma RelatedByLoop(attrs: Attrs, other: Attrs, slot: Slot, y: string, items: seq<Value>, i: nat, ctx: Context)
    requires i < |items| && !IsHidden(attrs, slot) && y !in {ItemName(attrs), IndexName(attrs)}
    requires SlotName(other, slot) == y
    requires slot.ItemSlot? ==> IndexName(other) == IndexName(attrs)
    requires slot.IndexSlot? ==> ItemName(other) == ItemName(attrs)
    ensures var loop, loop' := LoopContext(attrs, items, i, ctx), LoopContext(other, items, i, ctx);
      Related(loop, loop', SlotName(attrs, slot), y) && LookupName(loop, SlotName(attrs, slot)).Some?
  {
    hide ItemName, IndexName, Json.FromNat;
    RoundLookup(attrs, items, i, ctx);
    RoundLookup(other, items, i, ctx);
    hide LookupName, LoopContext;
  }

  /** Renaming a hidden item changes the meaning of no other name. */
  lemma SameByLoop(attrs: Attrs, other: Attrs, y: string, items: seq<Value>, i: nat, ctx: Context, names: set<string>)
    requires i < |items| && ItemName(attrs) == IndexName(attrs) && y !in names
    requires ItemName(other) == y && IndexName(other) == IndexName(attrs)
    ensures SameOn(names, LoopContext(attrs, items, i, ctx), LoopContext(other, items, i, ctx))
  {
    hide ItemName, IndexName, Json.FromNat;
    RoundLookup(attrs, items, i, ctx);
    RoundLookup(other, items, i, ctx);
    hide LookupName, LoopContext;
  }

  lemma IfIsRenamed(e: Node, other: Attrs, x: string, y: string)
    requires e.Element? && other.Keys - LOOP_NAMES == e.attrs.Keys - LOOP_NAMES
    requires forall n | n in e.attrs.Keys - LOOP_NAMES :: n in other && other[n] == RenameAttr(e.tag, n, e.attrs[n], x, y)
    ensures "wx:if" in other <==> "wx:if" in e.attrs
    ensures "wx:if" in e.attrs ==> other["wx:if"] == RenameSingle(e.attrs["wx:if"], x, y)
  {
    hide RenameSingle, RenameValue, IsInterpolated;
    assert "wx:if" !in LOOP_NAMES;
    assert "wx:if" in e.attrs ==> "wx:if" in e.attrs.Keys - LOOP_NAMES;
    assert "wx:if" in other ==> "wx:if" in other.Keys - LOOP_NAMES;
  }

  // ----- one round -----

  /** Round `i` is not shown, or has the same key in both loops, and so have the loops inside it. */
  ghost predicate KeysAgree(e: Node, slot: Slot, y: string, items: seq<Value>, i: nat, ctx: Context)
    requires e.Element? && "wx:for" in e.attrs && i < |items|
  {
    var r := RenameLoop(e, slot, y);
    var loop, loop' := LoopContext(e.attrs, items, i, ctx), LoopContext(r.attrs, items, i, ctx);
    Shown(e, items, i, ctx) ==>
      && RoundKey(r.attrs, loop') == RoundKey(e.attrs, loop)
      && (IsHidden(e.attrs, slot) || BodyStays(e.tag, e.children, loop, loop', SlotName(e.attrs, slot), y))
  }

  /** Round `i` of the loop and of the renamed loop. */
  lemma OwnRound(e: Node, slot: Slot, y: string, i: nat, ctx: Context, classes: Classes, counter: nat)
    requires e.Element? && "wx:for" in e.attrs && MayRenameLoop(e, slot, y) && i < |LoopItems(e.attrs, ctx)|
    ensures RenameLoop(e, slot, y).Element?
    ensures var items, r := LoopItems(e.attrs, ctx), RenameLoop(e, slot, y);
      Alike(Round(r, items, i, ctx, classes, counter), Round(e, items, i, ctx, classes, counter), KeysAgree(e, slot, y, items, i, ctx))
  {
    LoopAttrs(e, slot, y);
    if IsHidden(e.attrs, slot) {
      HiddenRound(e, slot, y, i, ctx, classes, counter);
    } else {
      SeenRound(e, slot, y, i, ctx, classes, counter);
    }
  }

  lemma SeenRound(e: Node, slot: Slot, y: string, i: nat, ctx: Context, classes: Classes, counter: nat)
    requires e.Element? && "wx:for" in e.attrs && MayRenameLoop(e, slot, y) && !IsHidden(e.attrs, slot)
    requires i < |LoopItems(e.attrs, ctx)|
    ensures RenameLoop(e, slot, y).Element?
    ensures var items, r := LoopItems(e.attrs, ctx), RenameLoop(e, slot, y);
      Alike(Round(r, items, i, ctx, classes, counter), Round(e, items, i, ctx, classes, counter), KeysAgree(e, slot, y, items, i, ctx))
  {
    LoopAttrs(e, slot, y);
    WordNotEmpty(y);
    hide IsWord, ConditionNames, AttrNames, KeyNames, AllowsAll, RenameLoop, RenameAttr, ItemName, IndexName, LoopContext, Related,
      LoopItems, Round, Alike, KeysAgree, RoundStays, RoundAttrs, CompileElement, RenameAll;
    var items, r := LoopItems(e.attrs, ctx), RenameLoop(e, slot, y);
    var x := SlotName(e.attrs, slot);
    var loop, loop' := LoopContext(e.attrs, items, i, ctx), LoopContext(r.attrs, items, i, ctx);
    RelatedByLoop(e.attrs, r.attrs, slot, y, items, i, ctx);
    RenamedRound(e, r.attrs, loop, loop', x, y, classes, counter);
    RoundIs(e, items, i, ctx, classes, counter);
    RoundIs(r, items, i, ctx, classes, counter);
    SeenAgree(e, slot, y, items, i, ctx);
  }

  lemma SeenAgree(e: Node, slot: Slot, y: string, items: seq<Value>, i: nat, ctx: Context)
    requires e.Element? && "wx:for" in e.attrs && i < |items| && !IsHidden(e.attrs, slot)
    ensures RenameLoop(e, slot, y).Element?
    ensures var r := RenameLoop(e, slot, y);
      KeysAgree(e, slot, y, items, i, ctx) <==>
      RoundStays(e, r.attrs, LoopContext(e.attrs, items, i, ctx), LoopContext(r.attrs, items, i, ctx), SlotName(e.attrs, slot), y)
  {
    hide ConditionOf, BodyStays, RoundKey, LoopContext, RenameAttrs, RenameAll;
  }

  lemma HiddenRound(e: Node, slot: Slot, y: string, i: nat, ctx: Context, classes: Classes, counter: nat)
    requires e.Element? && "wx:for" in e.attrs && MayRenameLoop(e, slot, y) && IsHidden(e.attrs, slot)
    requires i < |LoopItems(e.attrs, ctx)|
    ensures RenameLoop(e, slot, y).Element?
    ensures var items, r := LoopItems(e.attrs, ctx), RenameLoop(e, slot, y);
      Alike(Round(r, items, i, ctx, classes, counter), Round(e, items, i, ctx, classes, counter), KeysAgree(e, slot, y, items, i, ctx))
  {
    LoopAttrs(e, slot, y);
    HiddenNames(e, slot, y);
    hide *;
    var items, r := LoopItems(e.attrs, ctx), RenameLoop(e, slot, y);
    var loop, loop' := LoopContext(e.attrs, items, i, ctx), LoopContext(r.attrs, items, i, ctx);
    var attrs, k, l := RoundAttrs(e.attrs, loop), RoundKey(r.attrs, loop'), RoundKey(e.attrs, loop);
    var copy := Element(e.tag, WithKey(attrs, k), e.children);
    SameByLoop(e.attrs, r.attrs, y, items, i, ctx, BodyNames(e));
    HiddenCopy(e, r.attrs, loop, loop');
    ElementSame(copy, loop, loop', classes, counter);
    RoundHasCondition(e.attrs, loop);
    OwnKey(e.attrs, loop);
    KeyedCopies(e, attrs, k, l, loop, classes, counter);
    RoundIs(e, items, i, ctx, classes, counter);
    RoundIs(r, items, i, ctx, classes, counter);
    HiddenAgree(e, slot, y, items, i, ctx);
  }

  lemma HiddenNames(e: Node, slot: Slot, y: string)
    requires e.Element? && "wx:for" in e.attrs && MayRenameLoop(e, slot, y) && IsHidden(e.attrs, slot)
    ensures y !in BodyNames(e) && ItemName(e.attrs) == IndexName(e.attrs) && slot.ItemSlot?
    ensures SlotName(RenameLoop(e, slot, y).attrs, slot) == ItemName(RenameLoop(e, slot, y).attrs)
  {
    hide IsWord, ConditionNames, AttrNames, KeyNames, FreeAll, ItemName, IndexName;
  }

  /** The renamed loop's copy is the loop's copy under another key, and reads what the element reads. */
  lemma HiddenCopy(e: Node, other: Attrs, c: Context, d: Context)
    requires e.Element? && "wx:for" in e.attrs && KeptBy(e, other)
    ensures RoundAttrs(other, d) == WithKey(RoundAttrs(e.attrs, c), RoundKey(other, d))
    ensures Free(Element(e.tag, WithKey(RoundAttrs(e.attrs, c), RoundKey(other, d)), e.children)) == BodyNames(e)
  {
    hide ResolveKey, KeyText, ItemName, BodyNames, Free;
    assert RENDER_KEY !in LOOP_NAMES by { assert RENDER_KEY[0] == 'd'; }
    var r, t := WithKey(RoundAttrs(e.attrs, c), RoundKey(other, d)), RoundAttrs(other, d);
    forall n ensures n in t <==> n in r {
      assert n in other.Keys - LOOP_NAMES <==> n in e.attrs.Keys - LOOP_NAMES;
    }
    forall n | n in r ensures t[n] == r[n] {
      if n != RENDER_KEY {
        assert n in e.attrs.Keys - LOOP_NAMES;
      }
    }
    assert t == r;
    CopyReads(e, r);
  }

  lemma HiddenAgree(e: Node, slot: Slot, y: string, items: seq<Value>, i: nat, ctx: Context)
    requires e.Element? && "wx:for" in e.attrs && i < |items| && IsHidden(e.attrs, slot)
    ensures RenameLoop(e, slot, y).Element?
    ensures var r := RenameLoop(e, slot, y);
      var loop := LoopContext(e.attrs, items, i, ctx);
      KeysAgree(e, slot, y, items, i, ctx) <==>
      (ConditionOf(e.attrs, loop).Holds? ==>
         RoundKey(r.attrs, LoopContext(r.attrs, items, i, ctx)) == RoundKey(e.attrs, loop))
  {
    hide ConditionOf, BodyStays, RoundKey, LoopContext;
  }

  // ----- the theorem -----

  /** The two conditions read before the loop's variables exist agree, and so do the keys of the rounds shown. */
  ghost predicate SameConditionAndKeys(e: Node, slot: Slot, y: string, ctx: Context)
    requires e.Element? && "wx:for" in e.attrs
  {
    && (ConditionOf(RenameLoop(e, slot, y).attrs, ctx).Holds? <==> ConditionOf(e.attrs, ctx).Holds?)
    && (ConditionOf(e.attrs, ctx).Holds? ==> AllAgree(e, slot, y, ctx))
  }

  ghost predicate AllAgree(e: Node, slot: Slot, y: string, ctx: Context)
    requires e.Element? && "wx:for" in e.attrs
  {
    forall i | 0 <= i < |LoopItems(e.attrs, ctx)| :: KeysAgree(e, slot, y, LoopItems(e.attrs, ctx), i, ctx)
  }

  /**
    Renaming a loop's item or index variable to a fresh word leaves the tree unchanged exactly when no round is shown at
    all, or the loop's condition has the same outcome before the loop and in every round shown all keys are the same.
   */
  lemma RenamingLoopVariableIff(e: Node, slot: Slot, y: string, ctx: Context, classes: Classes, counter: nat)
    requires e.Element? && "wx:for" in e.attrs && MayRenameLoop(e, slot, y)
    ensures SameTree(CompileElement(RenameLoop(e, slot, y), ctx, classes, counter), CompileElement(e, ctx, classes, counter))
            <==> !AnyShown(e, ctx) || SameConditionAndKeys(e, slot, y, ctx)
  {
    LoopAttrs(e, slot, y);
    hide *;
    var r := RenameLoop(e, slot, y);
    OwnLoopsAlike(e, slot, y, ctx, classes, counter);
    LoopShown(e, ctx, classes, counter);
    NoneShownAgree(e, slot, y, ctx);
    ByCondition(e, ctx, classes, counter);
    ByCondition(r, ctx, classes, counter);
    Outcomes(e, slot, y, ctx, classes, counter);
  }

  /** A loop whose condition holds compiles to its rounds; otherwise to nothing. */
  ghost predicate CompilesByCondition(e: Node, ctx: Context, classes: Classes, counter: nat)
    requires e.Element? && "wx:for" in e.attrs
  {
    var o := CompileElement(e, ctx, classes, counter);
    if ConditionOf(e.attrs, ctx).Holds? then o == CompileLoop(e, ctx, classes, counter) else o.nodes == [] && o.counter == counter
  }

  lemma ByCondition(e: Node, ctx: Context, classes: Classes, counter: nat)
    requires e.Element? && "wx:for" in e.attrs
    ensures CompilesByCondition(e, ctx, classes, counter)
  {
    hide ConditionOf, CompileLoop;
  }

  lemma LoopShown(e: Node, ctx: Context, classes: Classes, counter: nat)
    requires e.Element? && "wx:for" in e.attrs
    ensures var o := CompileLoop(e, ctx, classes, counter);
      (o.nodes == [] <==> !AnyShown(e, ctx)) && (o.nodes == [] ==> o.counter == counter)
  {
    hide CompileLoop, CompileRounds, LoopItems, Shown;
    LoopIsRounds(e, ctx, classes, counter);
    RoundsShown(e, LoopItems(e.attrs, ctx), 0, ctx, classes, counter);
  }

  lemma NoneShownAgree(e: Node, slot: Slot, y: string, ctx: Context)
    requires e.Element? && "wx:for" in e.attrs
    ensures !AnyShown(e, ctx) ==> AllAgree(e, slot, y, ctx)
  {
    hide LoopItems, Shown, RoundKey, BodyStays, RenameLoop, LoopContext;
  }

  lemma OwnLoopsAlike(e: Node, slot: Slot, y: string, ctx: Context, classes: Classes, counter: nat)
    requires e.Element? && "wx:for" in e.attrs && MayRenameLoop(e, slot, y)
    ensures RenameLoop(e, slot, y).Element? && "wx:for" in RenameLoop(e, slot, y).attrs
    ensures Alike(CompileLoop(RenameLoop(e, slot, y), ctx, classes, counter), CompileLoop(e, ctx, classes, counter),
                  AllAgree(e, slot, y, ctx))
  {
    LoopAttrs(e, slot, y);
    var r, items := RenameLoop(e, slot, y), LoopItems(e.attrs, ctx);
    ghost var same := seq(|items|, i requires 0 <= i < |items| => KeysAgree(e, slot, y, items, i, ctx));
    AgreeIsAll(e, slot, y, ctx, same);
    hide *;
    forall k: nat, n: nat | k < |items|
      ensures Alike(Round(r, items, k, ctx, classes, n), Round(e, items, k, ctx, classes, n), same[k])
    {
      OwnRound(e, slot, y, k, ctx, classes, n);
    }
    RoundsAlike(e, r, items, 0, ctx, ctx, same, classes, counter);
    SameOwnItems(e, r, ctx);
    LoopIsRounds(e, ctx, classes, counter);
    LoopIsRounds(r, ctx, classes, counter);
    AlikeBy(CompileRounds(r, items, 0, ctx, classes, counter), CompileRounds(e, items, 0, ctx, classes, counter),
            CompileLoop(r, ctx, classes, counter), CompileLoop(e, ctx, classes, counter), AllAgree(e, slot, y, ctx));
  }

  lemma AgreeIsAll(e: Node, slot: Slot, y: string, ctx: Context, same: seq<bool>)
    requires e.Element? && "wx:for" in e.attrs && |same| == |LoopItems(e.attrs, ctx)|
    requires forall i: nat | i < |same| :: same[i] == KeysAgree(e, slot, y, LoopItems(e.attrs, ctx), i, ctx)
    ensures AllAgree(e, slot, y, ctx) == forall i | 0 <= i < |same| :: same[i]
  {
    hide KeysAgree, LoopItems;
  }

  lemma SameOwnItems(e: Node, r: Node, ctx: Context)
    requires e.Element? && r.Element? && "wx:for" in e.attrs && "wx:for" in r.attrs && r.attrs["wx:for"] == e.attrs["wx:for"]
    ensures LoopItems(r.attrs, ctx) == LoopItems(e.attrs, ctx)
  {
    hide SinglePath, Resolve;
  }

  /** The four outcomes of the two conditions. */
  lemma Outcomes(e: Node, slot: Slot, y: string, ctx: Context, classes: Classes, counter: nat)
    requires e.Element? && "wx:for" in e.attrs && RenameLoop(e, slot, y).Element? && "wx:for" in RenameLoop(e, slot, y).attrs
    requires var r := RenameLoop(e, slot, y);
      && Alike(CompileLoop(r, ctx, classes, counter), CompileLoop(e, ctx, classes, counter), AllAgree(e, slot, y, ctx))
      && CompilesByCondition(e, ctx, classes, counter) && CompilesByCondition(r, ctx, classes, counter)
    requires var o := CompileLoop(e, ctx, classes, counter);
      (o.nodes == [] <==> !AnyShown(e, ctx)) && (o.nodes == [] ==> o.counter == counter)
    requires !AnyShown(e, ctx) ==> AllAgree(e, slot, y, ctx)
    ensures SameTree(CompileElement(RenameLoop(e, slot, y), ctx, classes, counter), CompileElement(e, ctx, classes, counter))
            <==> !AnyShown(e, ctx) || SameConditionAndKeys(e, slot, y, ctx)
  {
    hide CompileElement, CompileLoop, ConditionOf, AnyShown, AllAgree, RenameLoop, TextOf;
  }

  // ----- what can be told from the template -----

  /** A plain key that starts with the variable is the variable itself, and nothing is read through another item's name. */
  predicate KeyIsKept(attrs: Attrs, slot: Slot) {
    "wx:key" in attrs && SinglePath(attrs["wx:key"]).None? ==>
      var key, item, x := attrs["wx:key"], ItemName(attrs), SlotName(attrs, slot);
      if key == "*this" then slot.ItemSlot? || x !in PathNames(item)
      else if !IsSupportedPath(key) then true
      else if x in PathNames(key) then key == x
      else slot.ItemSlot? || x !in PathNames(item + "." + key)
  }

  /** A variable used as a key is bound, so the renamed key has its value; other keys keep what they read. */
  lemma KeptKey(key: string, slot: Slot, item: string, other: string, c: Context, d: Context, x: string, y: string)
    requires KeyReady(key, slot, item, other, x, y) && Related(c, d, x, y) && LookupName(c, x).Some?
    ensures ResolveKey(RenameKey(key, x, y), other, d) == ResolveKey(key, item, c)
  {
    RenamedKeyIff(key, item, other, c, d, x, y);
    if FallsToItem(key, c) {
      if key == "*this" {
        StarKept(x, y);
        if SinglePath(key).Some? {
          SingleIsNotStar(key);
        }
        hide IsWord, Related, SinglePath, IsSupportedPath, PathNames, Resolve, RenameKey, LookupName;
        if slot.ItemSlot? {
          RelatedLookup(c, d, x, y);
          ItemField(x, y, key, c, d);
        } else {
          UnreadResolve(item, c, d, x, y);
        }
      } else {
        if key == x {
          BoundResolves(c, x);
        }
        UnreadKeyKept(key, x, y);
        hide IsWord, Related, SinglePath, IsSupportedPath, PathNames, Resolve, RenameKey, LookupName;
        if slot.ItemSlot? {
          RelatedLookup(c, d, x, y);
          ItemField(x, y, key, c, d);
        } else {
          UnreadResolve(item + "." + key, c, d, x, y);
        }
      }
    }
  }

  /**
    A plain key that starts with the renamed variable keeps its value exactly when the variable's value has the rest of
    the path, or the item reads the same under the field names `x` and `y`. A key that is the variable always does.
   */
  lemma LongKeyIff(key: string, rest: seq<string>, item: string, other: string, v: Value, w: Value,
                   c: Context, d: Context, x: string, y: string)
    requires IsWord(y) && Related(c, d, x, y) && x != y && LookupName(c, x) == Some(v)
    requires IsSupportedPath(key) && Segments(key) == [x] + rest
    requires IsWord(item) && IsWord(other) && LookupName(c, item) == LookupName(d, other) == Some(w)
    ensures ResolveKey(RenameKey(key, x, y), other, d) == ResolveKey(key, item, c) <==>
            Walk(v, rest).Some? || Walk(w, [y] + rest) == Walk(w, [x] + rest)
    ensures rest == [] ==> Walk(v, rest).Some?
  {
    WalkNothing(v);
    hide *;
    var renamed := RenameKey(key, x, y);
    PlainRenamed(key, rest, x, y);
    PlainIsNotSingle(key);
    assert y !in PathNames(key) by {
      FirstIs(key, x, rest);
    }
    RenamedKeyIff(key, item, other, c, d, x, y);
    ResolveBy(c, key, x, rest);
    PlainFalls(key, item, c);
    PlainFalls(renamed, other, d);
    ItemPart(c, item, key, [x] + rest, w);
    ItemPart(d, other, renamed, [y] + rest, w);
  }

  lemma PlainRenamed(key: string, rest: seq<string>, x: string, y: string)
    requires IsWord(y) && IsSupportedPath(key) && Segments(key) == [x] + rest
    ensures IsSupportedPath(RenameKey(key, x, y)) && Segments(RenameKey(key, x, y)) == [y] + rest
  {
    PlainIsNotSingle(key);
    assert ([x] + rest)[1..] == rest;
    hide IsWord, SinglePath, IsSupportedPath, RenamePath, Segments;
    RenamePathSegments(key, x, y);
  }

  lemma FirstIs(key: string, x: string, rest: seq<string>)
    requires Segments(key) == [x] + rest
    ensures PathNames(key) == {x}
  {
    hide Segments;
  }

  lemma PlainFalls(key: string, item: string, ctx: Context)
    requires IsSupportedPath(key)
    ensures FallsToItem(key, ctx) <==> Resolve(ctx, key).None?
    ensures ItemRead(key, item, ctx) == Resolve(ctx, item + "." + key)
  {
    PlainIsNotSingle(key);
    hide IsSupportedPath, SinglePath, Resolve;
  }

  lemma ItemPart(ctx: Context, item: string, key: string, segments: seq<string>, w: Value)
    requires IsWord(item) && Segments(key) == segments && LookupName(ctx, item) == Some(w)
    ensures Resolve(ctx, item + "." + key) == Walk(w, segments)
  {
    hide *;
    FieldSegments(item, key);
    ResolveBy(ctx, item + "." + key, item, segments);
  }

  lemma WalkNothing(v: Value)
    ensures Walk(v, []) == Some(v)
  {
  }

  lemma RelatedLookup(c: Context, d: Context, x: string, y: string)
    requires Related(c, d, x, y)
    ensures LookupName(c, x) == LookupName(d, y)
  {
    hide LookupName;
  }

  lemma BoundResolves(c: Context, x: string)
    requires IsWord(x) && LookupName(c, x).Some?
    ensures Resolve(c, x) == LookupName(c, x)
  {
    hide IsWord, LookupName;
    WordSegments(x, "");
    assert [x] == [x] + [];
    hide Segments;
    ResolveBy(c, x, x, []);
  }

  /** What the key lemma asks of the template. */
  ghost predicate KeyReady(key: string, slot: Slot, item: string, other: string, x: string, y: string) {
    && IsWord(x) && IsWord(y)
    && (if slot.ItemSlot? then item == x && other == y else other == item)
    && (SinglePath(key).Some? ==> y !in SingleNames(key))
    && (SinglePath(key).None? && IsSupportedPath(key) ==> y !in PathNames(key))
    && (SinglePath(key).None? && key == "*this" && slot.IndexSlot? ==> x !in PathNames(item) && y !in PathNames(item))
    && (SinglePath(key).None? && IsSupportedPath(key) && x in PathNames(key) ==> key == x)
    && (SinglePath(key).None? && IsSupportedPath(key) && x !in PathNames(key) && slot.IndexSlot? ==>
          x !in PathNames(item + "." + key) && y !in PathNames(item + "." + key))
  }

  function SlotValue(slot: Slot, items: seq<Value>, i: nat): Value
    requires i < |items|
  {
    if slot.ItemSlot? then items[i] else Json.FromNat(i)
  }

  /** In a round, the variable has its value, and the item has it under either name. */
  lemma BoundByLoop(attrs: Attrs, other: Attrs, slot: Slot, y: string, items: seq<Value>, i: nat, ctx: Context)
    requires i < |items| && ItemName(attrs) != IndexName(attrs) && y !in {ItemName(attrs), IndexName(attrs)}
    requires SlotName(other, slot) == y
    requires slot.ItemSlot? ==> IndexName(other) == IndexName(attrs)
    requires slot.IndexSlot? ==> ItemName(other) == ItemName(attrs)
    ensures var loop, loop' := LoopContext(attrs, items, i, ctx), LoopContext(other, items, i, ctx);
      && Related(loop, loop', SlotName(attrs, slot), y)
      && LookupName(loop, SlotName(attrs, slot)) == Some(SlotValue(slot, items, i))
      && LookupName(loop, ItemName(attrs)) == LookupName(loop', ItemName(other))
  {
    hide ItemName, IndexName, Json.FromNat;
    RoundLookup(attrs, items, i, ctx);
    RoundLookup(other, items, i, ctx);
    hide LookupName, LoopContext;
  }

  /**
    The variables are two, the renamed one is a word and not read in the loop's own condition, the loop's key does not
    read a field named after it, and in every round the keys of inner loops read it only in its value.
   */
  predicate RenamesFreely(e: Node, slot: Slot, ctx: Context)
    requires e.Element? && "wx:for" in e.attrs
  {
    var x, items := SlotName(e.attrs, slot), LoopItems(e.attrs, ctx);
    && ItemName(e.attrs) != IndexName(e.attrs) && IsWord(x)
    && x !in ConditionNames(e.attrs) && KeyIsKept(e.attrs, slot)
    && forall i | 0 <= i < |items| :: AllKeysKept(e.children, x, Some(SlotValue(slot, items, i)))
  }

  lemma OwnKeyReady(e: Node, slot: Slot, y: string)
    requires e.Element? && "wx:for" in e.attrs && MayRenameLoop(e, slot, y) && ItemName(e.attrs) != IndexName(e.attrs)
    requires IsWord(SlotName(e.attrs, slot)) && KeyIsKept(e.attrs, slot) && "wx:key" in e.attrs
    ensures KeyReady(e.attrs["wx:key"], slot, ItemName(e.attrs), ItemName(RenameLoop(e, slot, y).attrs), SlotName(e.attrs, slot), y)
  {
    KeyIsUnread(e.attrs, y);
    LoopAttrs(e, slot, y);
    var key := e.attrs["wx:key"];
    if IsSupportedPath(key) {
      PlainIsNotSingle(key);
    }
    hide IsWord, SinglePath, IsSupportedPath, PathNames, SingleNames, RenameLoop, KeyNames, AttrNames, ConditionNames,
      AllowsAll, RenameAttr, IndexName, ItemName;
  }

  lemma FreelyAgree(e: Node, slot: Slot, y: string, i: nat, ctx: Context)
    requires e.Element? && "wx:for" in e.attrs && MayRenameLoop(e, slot, y) && RenamesFreely(e, slot, ctx)
    requires i < |LoopItems(e.attrs, ctx)|
    ensures KeysAgree(e, slot, y, LoopItems(e.attrs, ctx), i, ctx)
  {
    LoopAttrs(e, slot, y);
    WordNotEmpty(y);
    var items, r := LoopItems(e.attrs, ctx), RenameLoop(e, slot, y);
    var x := SlotName(e.attrs, slot);
    var loop, loop' := LoopContext(e.attrs, items, i, ctx), LoopContext(r.attrs, items, i, ctx);
    assert AllKeysKept(e.children, x, Some(SlotValue(slot, items, i)));
    assert !IsHidden(e.attrs, slot) && AllowsAll(e.children, x, y);
    if "wx:key" in e.attrs {
      OwnKeyReady(e, slot, y);
    }
    hide IsWord, ConditionNames, AttrNames, KeyNames, AllowsAll, AllKeysKept, RenameLoop, RenameAttr, ItemName, IndexName, LoopContext,
      Related, LoopItems, KeysAgree, RoundStays, RenameAll, KeyReady, KeyIsKept, SlotValue, RoundKey, AllStay, ResolveKey, RenameKey;
    BoundByLoop(e.attrs, r.attrs, slot, y, items, i, ctx);
    KeyIsRenamed(e.tag, e.attrs, r.attrs, x, y);
    if "wx:key" in e.attrs {
      KeptKey(e.attrs["wx:key"], slot, ItemName(e.attrs), ItemName(r.attrs), loop, loop', x, y);
    }
    SameRoundKey(e.tag, e.attrs, r.attrs, loop, loop', x, y);
    AllKeptStay(e.children, loop, loop', x, y);
    BodyIs(e.tag, e.children, loop, loop', x, y);
    StaysIs(e, r.attrs, loop, loop', x, y);
    SeenAgree(e, slot, y, items, i, ctx);
  }

  /** Renaming a loop's variable that may be renamed freely leaves the tree unchanged. */
  lemma RenamingLoopVariable(e: Node, slot: Slot, y: string, ctx: Context, classes: Classes, counter: nat)
    requires e.Element? && "wx:for" in e.attrs && MayRenameLoop(e, slot, y) && RenamesFreely(e, slot, ctx)
    ensures SameTree(CompileElement(RenameLoop(e, slot, y), ctx, classes, counter), CompileElement(e, ctx, classes, counter))
  {
    OwnConditionKept(e, slot, y, ctx);
    hide *;
    RenamingLoopVariableIff(e, slot, y, ctx, classes, counter);
    forall i: nat | i < |LoopItems(e.attrs, ctx)| ensures KeysAgree(e, slot, y, LoopItems(e.attrs, ctx), i, ctx) {
      FreelyAgree(e, slot, y, i, ctx);
    }
    Agreed(e, slot, y, ctx);
  }

  lemma Agreed(e: Node, slot: Slot, y: string, ctx: Context)
    requires e.Element? && "wx:for" in e.attrs && ConditionOf(RenameLoop(e, slot, y).attrs, ctx) == ConditionOf(e.attrs, ctx)
    requires forall i | 0 <= i < |LoopItems(e.attrs, ctx)| :: KeysAgree(e, slot, y, LoopItems(e.attrs, ctx), i, ctx)
    ensures SameConditionAndKeys(e, slot, y, ctx)
  {
    hide ConditionOf, LoopItems, KeysAgree, RenameLoop;
  }

  lemma OwnConditionKept(e: Node, slot: Slot, y: string, ctx: Context)
    requires e.Element? && "wx:for" in e.attrs && MayRenameLoop(e, slot, y) && RenamesFreely(e, slot, ctx)
    ensures ConditionOf(RenameLoop(e, slot, y).attrs, ctx) == ConditionOf(e.attrs, ctx)
  {
    LoopAttrs(e, slot, y);
    hide IsWord, ConditionNames, AttrNames, KeyNames, AllowsAll, AllKeysKept, RenameLoop, ConditionOf, RenameAttr, ItemName, IndexName,
      LoopItems, KeyIsKept;
    IfIsRenamed(e, RenameLoop(e, slot, y).attrs, SlotName(e.attrs, slot), y);
    LoopCondition(e, slot, y, ctx);
  }

  lemma LoopCondition(e: Node, slot: Slot, y: string, ctx: Context)
    requires e.Element? && "wx:for" in e.attrs && IsWord(y)
    requires SlotName(e.attrs, slot) !in ConditionNames(e.attrs)
    requires var r := RenameLoop(e, slot, y); "wx:if" in r.attrs <==> "wx:if" in e.attrs
    requires var r := RenameLoop(e, slot, y);
      "wx:if" in e.attrs ==> r.attrs["wx:if"] == RenameSingle(e.attrs["wx:if"], SlotName(e.attrs, slot), y)
    ensures ConditionOf(RenameLoop(e, slot, y).attrs, ctx) == ConditionOf(e.attrs, ctx)
  {
    hide RenameLoop, SinglePath, Truthy, IsWord, SlotName, Split;
    if "wx:if" in e.attrs {
      var s, x := e.attrs["wx:if"], SlotName(e.attrs, slot);
      RenamedSingle(s, x, y);
      if SinglePath(s).Some? {
        SingleIsSupported(s);
        SupportedSegments(SinglePath(s).value);
      }
    }
  }

}
