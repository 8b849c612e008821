/** `setData`: writes to component data through dotted paths, and what the template's paths then read. */
module SetData {
  import opened Wrappers
  import Binding
  import Json
  import Positional
  import Text

  type Value = Json.Value
  type Fields = map<string, Value>

  function NonEmpty(parts: seq<string>): (r: seq<string>)
    ensures forall p | p in r :: p != ""
  {
    if parts == [] then []
    else (if parts[0] == "" then [] else [parts[0]]) + NonEmpty(parts[1..])
  }

  function Parts(path: string): (r: seq<string>)
    ensures forall p | p in r :: p != ""
  {
    NonEmpty(Text.Split(path, '.'))
  }

  /** The object in member `key`, or a new one where there is none. */
  function Child(fields: Fields, key: string): Fields {
    if key in fields && fields[key].Obj? then fields[key].fields else map[]
  }

  /** `fields` with `value` written at `parts`; whatever is not an object on the way is replaced by one. */
  function SetPath(fields: Fields, parts: seq<string>, value: Value): Fields
    decreases |parts|
  {
    if parts == [] then fields
    else if |parts| == 1 then fields[parts[0] := value]
    else fields[parts[0] := Json.Obj(SetPath(Child(fields, parts[0]), parts[1..], value))]
  }

  datatype Update = Update(key: string, value: Value)

  function ApplyOne(fields: Fields, u: Update): Fields {
    if '.' in u.key then SetPath(fields, Parts(u.key), u.value) else fields[u.key := u.value]
  }

  function ApplyAll(fields: Fields, updates: seq<Update>): Fields
    decreases |updates|
  {
    if updates == [] then fields else ApplyAll(ApplyOne(fields, updates[0]), updates[1..])
  }

  // ----- in place -----

  /** The object a cursor stands on, after descending through `path`. */
  function At(fields: Fields, path: seq<string>): Option<Fields>
    decreases |path|
  {
    if path == [] then Some(fields)
    else if path[0] in fields && fields[path[0]].Obj? then At(fields[path[0]].fields, path[1..])
    else None
  }

  /** A write of member `key` through the cursor at `path`. */
  function WriteAt(fields: Fields, path: seq<string>, key: string, value: Value): Fields
    requires At(fields, path).Some?
    decreases |path|
  {
    if path == [] then fields[key := value]
    else fields[path[0] := Json.Obj(WriteAt(fields[path[0]].fields, path[1..], key, value))]
  }

  lemma {:induction false} AtWritten(fields: Fields, path: seq<string>, key: string, value: Value)
    requires At(fields, path).Some?
    ensures At(WriteAt(fields, path, key, value), path) == Some(At(fields, path).value[key := value])
    decreases |path|
  {
    if path != [] {
      AtWritten(fields[path[0]].fields, path[1..], key, value);
    }
  }

  lemma {:induction false} AtFurther(fields: Fields, path: seq<string>, key: string)
    requires At(fields, path).Some? && key in At(fields, path).value && At(fields, path).value[key].Obj?
    ensures At(fields, path + [key]) == Some(At(fields, path).value[key].fields)
    decreases |path|
  {
    if path != [] {
      assert (path + [key])[1..] == path[1..] + [key];
      AtFurther(fields[path[0]].fields, path[1..], key);
    } else {
      assert (path + [key])[1..] == [];
    }
  }

  /** Putting an empty object where there is none does not change what a longer path writes. */
  lemma {:induction false} OpeningKeepsWrite(fields: Fields, parts: seq<string>, i: nat, value: Value)
    requires i + 1 < |parts| && At(fields, parts[..i]).Some?
    requires Child(At(fields, parts[..i]).value, parts[i]) == map[]
    ensures SetPath(WriteAt(fields, parts[..i], parts[i], Json.EMPTY_OBJECT), parts, value) == SetPath(fields, parts, value)
    decreases i
  {
    if i > 0 {
      assert parts[..i][1..] == parts[1..][..i - 1];
      OpeningKeepsWrite(fields[parts[0]].fields, parts[1..], i - 1, value);
    }
  }

  lemma {:induction false} LastWrite(fields: Fields, parts: seq<string>, value: Value)
    requires parts != [] && At(fields, parts[..|parts| - 1]).Some?
    ensures WriteAt(fields, parts[..|parts| - 1], parts[|parts| - 1], value) == SetPath(fields, parts, value)
    decreases |parts|
  {
    if |parts| > 1 {
      assert parts[..|parts| - 1][1..] == parts[1..][..|parts| - 2];
      LastWrite(fields[parts[0]].fields, parts[1..], value);
    }
  }

  class Target {
    var data: Fields

    constructor (data: Fields)
      ensures this.data == data
    {
      this.data := data;
    }

    /** The cursor `current` is the path walked so far. */
    method SetByPath(path: string, value: Value)
      modifies this
      ensures data == SetPath(old(data), Parts(path), value)
    {
      hide SetPath, Parts;
      var parts := Parts(path);
      if |parts| == 0 {
        SetNothing(data, value);
        return;
      }
      for index := 0 to |parts| - 1
        invariant At(data, parts[..index]).Some?
        invariant SetPath(data, parts, value) == SetPath(old(data), parts, value)
      {
        var part, current := parts[index], At(data, parts[..index]).value;
        assert parts[..index + 1] == parts[..index] + [part];
        if part !in current || !current[part].Obj? {
          OpeningKeepsWrite(data, parts, index, value);
          AtWritten(data, parts[..index], part, Json.EMPTY_OBJECT);
          data := WriteAt(data, parts[..index], part, Json.EMPTY_OBJECT);
        }
        AtFurther(data, parts[..index], part);
      }
      LastWrite(data, parts, value);
      data := WriteAt(data, parts[..|parts| - 1], parts[|parts| - 1], value);
    }

    method ApplySetData(updates: seq<Update>)
      modifies this
      ensures data == ApplyAll(old(data), updates)
    {
      hide SetPath, Parts;
      assert updates[0..] == updates;
      for i := 0 to |updates|
        invariant ApplyAll(data, updates[i..]) == ApplyAll(old(data), updates)
      {
        assert updates[i..][1..] == updates[i + 1..];
        if '.' in updates[i].key {
          SetByPath(updates[i].key, updates[i].value);
        } else {
          data := data[updates[i].key := updates[i].value];
        }
      }
    }
  }

  lemma SetNothing(fields: Fields, value: Value)
    ensures SetPath(fields, [], value) == fields
  {
  }

  // ----- what the template reads -----

  /** The value of a path in component data, none of whose loop variables hides the path's first name. */
  function Read(fields: Fields, parts: seq<string>): Option<Value> {
    Binding.ResolveSegments(Binding.Context(Json.Obj(fields), map[]), parts)
  }

  /** No name after the first is `length`, which the template reads as a length. */
  predicate NoLength(parts: seq<string>) {
    forall i | 1 <= i < |parts| :: parts[i] != "length"
  }

  lemma WordTrimmed(p: string)
    requires Binding.IsWord(p)
    ensures Text.Trim(p) == p && p != ""
  {
    assert Binding.IsWordChar(p[0]) && Binding.IsWordChar(p[|p| - 1]);
    Text.TrimFixed(p);
  }

  lemma {:induction false} WordsKept(parts: seq<string>)
    requires forall p | p in parts :: Binding.IsWord(p)
    ensures NonEmpty(parts) == parts == Binding.NonBlank(parts)
    decreases |parts|
  {
    hide Binding.IsWord;
    if parts != [] {
      assert parts[0] in parts;
      WordTrimmed(parts[0]);
      WordsKept(parts[1..]);
      assert [parts[0]] + parts[1..] == parts;
    }
  }

  /** For a path the template can bind, the writer and the reader split it alike. */
  lemma SamePath(path: string)
    requires Binding.IsSupportedPath(path)
    ensures Parts(path) == Binding.Segments(path) == Text.Split(path, '.')
  {
    WordsKept(Text.Split(path, '.'));
  }

  /** One member at a time. */
  lemma WalkStep(v: Value, segments: seq<string>)
    ensures Binding.Walk(v, segments) ==
            if segments == [] then Some(v)
            else if Binding.Member(v, segments[0]).None? then None
            else Binding.Walk(Binding.Member(v, segments[0]).value, segments[1..])
  {
  }

  lemma SetStep(fields: Fields, parts: seq<string>, value: Value)
    requires parts != []
    ensures SetPath(fields, parts, value) ==
            fields[parts[0] := if |parts| == 1 then value else Json.Obj(SetPath(Child(fields, parts[0]), parts[1..], value))]
  {
  }

  lemma {:induction false} WalkWritten(fields: Fields, parts: seq<string>, more: seq<string>, value: Value)
    requires parts != [] && forall p | p in parts :: p != "length"
    ensures Binding.Walk(Json.Obj(SetPath(fields, parts, value)), parts + more) == Binding.Walk(value, more)
    decreases |parts|
  {
    hide Binding.Walk, SetPath;
    WalkStep(Json.Obj(SetPath(fields, parts, value)), parts + more);
    SetStep(fields, parts, value);
    assert parts[0] in parts;
    assert (parts + more)[1..] == parts[1..] + more;
    if |parts| > 1 {
      assert forall p | p in parts[1..] :: p in parts;
      WalkWritten(Child(fields, parts[0]), parts[1..], more, value);
    } else {
      assert parts[1..] + more == more;
    }
  }

  /** After a write, its path reads the value, and a longer path reads inside the value. */
  lemma WrittenReadsBack(fields: Fields, parts: seq<string>, more: seq<string>, value: Value)
    requires parts != [] && NoLength(parts)
    ensures Read(SetPath(fields, parts, value), parts) == Some(value)
    ensures Read(SetPath(fields, parts, value), parts + more) == Binding.Walk(value, more)
  {
    hide Binding.Walk, SetPath;
    SetStep(fields, parts, value);
    WalkStep(value, []);
    assert (parts + more)[1..] == parts[1..] + more;
    if |parts| > 1 {
      var rest := parts[1..];
      forall p | p in rest ensures p != "length" {
        var i :| 0 <= i < |rest| && rest[i] == p;
        assert parts[i + 1] == p;
      }
      WalkWritten(Child(fields, parts[0]), rest, [], value);
      WalkWritten(Child(fields, parts[0]), rest, more, value);
      assert rest + [] == rest;
    } else {
      assert parts[1..] == [] && [] + more == more;
    }
  }

  /** The first position where two paths differ. */
  predicate DivergeAt(p: seq<string>, q: seq<string>, d: nat) {
    d < |p| && d < |q| && p[..d] == q[..d] && p[d] != q[d]
  }

  lemma DivergeBelow(p: seq<string>, q: seq<string>, d: nat)
    requires DivergeAt(p, q, d) && d > 0
    ensures p[0] == q[0] && DivergeAt(p[1..], q[1..], d - 1)
  {
    assert p[0] == p[..d][0] && q[0] == q[..d][0];
    assert p[1..][..d - 1] == p[..d][1..] && q[1..][..d - 1] == q[..d][1..];
  }

  /** Nothing is found below a value that is not an object, except its length. */
  lemma NothingBelow(v: Value, segments: seq<string>)
    requires !v.Obj? && segments != [] && segments != ["length"]
    ensures Binding.Walk(v, segments) == None
  {
    hide Binding.Walk;
    WalkStep(v, segments);
    if segments[0] == "length" {
      assert segments[1..] != [];
      var n := Binding.LengthOf(v);
      if n.Some? {
        WalkStep(n.value, segments[1..]);
      }
    }
  }

  lemma NothingInEmpty(segments: seq<string>)
    requires segments != [] && segments != ["length"]
    ensures Binding.Walk(Json.Obj(map[]), segments) == None
  {
    hide Binding.Walk;
    WalkStep(Json.Obj(map[]), segments);
    if segments[0] == "length" {
      assert segments[1..] != [];
      WalkStep(Json.FromNat(0), segments[1..]);
    }
  }

  lemma LengthIsNumber(v: Value, segments: seq<string>)
    requires |segments| > 1 && segments[0] == "length"
    ensures Binding.Walk(v, segments) == None
  {
    hide Binding.Walk;
    WalkStep(v, segments);
    var n := Binding.LengthOf(v);
    if n.Some? {
      WalkStep(n.value, segments[1..]);
    }
  }

  /** What a member looks like before and after a write below it. */
  lemma ChildReads(fields: Fields, key: string, segments: seq<string>)
    requires segments != [] && segments != ["length"]
    ensures Binding.Walk(Json.Obj(Child(fields, key)), segments) ==
            if key in fields then Binding.Walk(fields[key], segments) else None
  {
    hide Binding.Walk;
    if key !in fields || !fields[key].Obj? {
      NothingInEmpty(segments);
      if key in fields {
        NothingBelow(fields[key], segments);
      }
    }
  }

  lemma {:induction false} WalkElsewhere(fields: Fields, p: seq<string>, q: seq<string>, d: nat, value: Value)
    requires DivergeAt(p, q, d) && q[d] != "length"
    ensures Binding.Walk(Json.Obj(SetPath(fields, p, value)), q) == Binding.Walk(Json.Obj(fields), q)
    decreases d
  {
    hide Binding.Walk, SetPath;
    var after := SetPath(fields, p, value);
    SetStep(fields, p, value);
    WalkStep(Json.Obj(after), q);
    WalkStep(Json.Obj(fields), q);
    if d > 0 {
      DivergeBelow(p, q, d);
      if q[0] == "length" {
        LengthIsNumber(Json.Obj(after), q);
        LengthIsNumber(Json.Obj(fields), q);
      } else {
        WalkElsewhere(Child(fields, p[0]), p[1..], q[1..], d - 1, value);
        assert q[1..] != ["length"] by {
          assert q[1..][d - 1] == q[d];
        }
        ChildReads(fields, p[0], q[1..]);
      }
    }
  }

  /** A path that differs from the written one reads as before, unless it asks for a length where they part. */
  lemma ElsewhereUnchanged(fields: Fields, p: seq<string>, q: seq<string>, d: nat, value: Value)
    requires DivergeAt(p, q, d) && (d > 0 ==> q[d] != "length")
    ensures Read(SetPath(fields, p, value), q) == Read(fields, q)
  {
    hide Binding.Walk, SetPath;
    SetStep(fields, p, value);
    if d > 0 {
      DivergeBelow(p, q, d);
      WalkElsewhere(Child(fields, p[0]), p[1..], q[1..], d - 1, value);
      assert q[1..] != ["length"] by {
        assert q[1..][d - 1] == q[d];
      }
      ChildReads(fields, p[0], q[1..]);
    }
  }

  // ----- lengths -----

  function WalkIn(v: Option<Value>, segments: seq<string>): Option<Value> {
    if v.Some? then Binding.Walk(v.value, segments) else None
  }

  function FieldsOf(v: Option<Value>): Fields {
    if v.Some? && v.value.Obj? then v.value.fields else map[]
  }

  /** A path with something after a length, past its first name, reads nothing. */
  lemma {:induction false} NothingAfterLength(v: Value, q: seq<string>, i: nat)
    requires i + 1 < |q| && q[i] == "length"
    ensures Binding.Walk(v, q) == None
    decreases i
  {
    hide Binding.Walk;
    if i == 0 {
      LengthIsNumber(v, q);
    } else {
      WalkStep(v, q);
      var m := Binding.Member(v, q[0]);
      if m.Some? {
        NothingAfterLength(m.value, q[1..], i - 1);
      }
    }
  }

  lemma NothingAfterLengthRead(fields: Fields, q: seq<string>, i: nat)
    requires 1 <= i && i + 1 < |q| && q[i] == "length"
    ensures Read(fields, q) == None
  {
    hide Binding.Walk;
    if q[0] in fields {
      NothingAfterLength(fields[q[0]], q[1..], i - 1);
    }
  }

  /** The path asks for the length of what stands where it parts from the written path, and for nothing else. */
  predicate AsksLength(q: seq<string>, d: nat) {
    0 < d && |q| == d + 1 && q[d] == "length" && forall i | 1 <= i < d :: q[i] != "length"
  }

  /** What stands there keeps its length: an object that has the written member, or an array or text of length one. */
  predicate KeepsLength(at: Option<Value>, member: string) {
    at.Some? &&
    match at.value
    case Obj(fields) => member in fields
    case Arr(items) => |items| == 1
    case Str(s) => |s| == 1
    case _ => false
  }

  lemma SameNumber(m: nat, n: nat)
    ensures Json.FromNat(m) == Json.FromNat(n) <==> m == n
  {
    hide Positional.Decimal;
    if Json.FromNat(m) == Json.FromNat(n) {
      Positional.DecimalInjective(m, n);
    }
  }

  lemma LengthHere(v: Option<Value>, p: seq<string>, value: Value)
    requires p != []
    ensures WalkIn(Some(Json.Obj(SetPath(FieldsOf(v), p, value))), ["length"]) == WalkIn(v, ["length"]) <==> KeepsLength(v, p[0])
  {
    hide Binding.Walk, SetPath, Json.FromNat;
    var after := SetPath(FieldsOf(v), p, value);
    SetStep(FieldsOf(v), p, value);
    assert ["length"][1..] == [];
    WalkStep(Json.Obj(after), ["length"]);
    WalkStep(Json.FromNat(|after|), []);
    MemberCount(FieldsOf(v), p[0], after[p[0]]);
    if v.Some? {
      WalkStep(v.value, ["length"]);
      var n := Binding.LengthOf(v.value);
      if n.Some? {
        WalkStep(n.value, []);
        match v.value
        case Arr(items) => SameNumber(1, |items|);
        case Str(s) => SameNumber(1, |s|);
        case Obj(fields) => SameNumber(|after|, |fields|);
      }
    }
  }

  lemma MemberCount(fields: Fields, key: string, value: Value)
    ensures |fields[key := value]| == if key in fields then |fields| else |fields| + 1
  {
    assert fields[key := value].Keys == fields.Keys + {key};
  }

  lemma {:induction false} LengthBelow(v: Option<Value>, p: seq<string>, q: seq<string>, d: nat, value: Value)
    requires DivergeAt(p, q, d) && |q| == d + 1 && q[d] == "length" && forall i | 0 <= i < d :: q[i] != "length"
    ensures WalkIn(Some(Json.Obj(SetPath(FieldsOf(v), p, value))), q) == WalkIn(v, q) <==> KeepsLength(WalkIn(v, q[..d]), p[d])
    decreases d
  {
    hide Binding.Walk, SetPath;
    if d == 0 {
      assert q == ["length"] && q[..0] == [];
      if v.Some? {
        WalkStep(v.value, []);
      }
      LengthHere(v, p, value);
    } else {
      DivergeBelow(p, q, d);
      SetStep(FieldsOf(v), p, value);
      var after := Json.Obj(SetPath(FieldsOf(v), p, value));
      WalkStep(after, q);
      assert q[..d][0] == q[0] && q[..d][1..] == q[1..][..d - 1];
      var next := if v.Some? then Json.Get(v.value, q[0]) else None;
      if v.Some? {
        WalkStep(v.value, q);
        WalkStep(v.value, q[..d]);
      }
      assert FieldsOf(next) == Child(FieldsOf(v), p[0]);
      LengthBelow(next, p[1..], q[1..], d - 1, value);
    }
  }

  lemma LengthUnchangedIff(fields: Fields, p: seq<string>, q: seq<string>, d: nat, value: Value)
    requires DivergeAt(p, q, d) && AsksLength(q, d)
    ensures Read(SetPath(fields, p, value), q) == Read(fields, q) <==> KeepsLength(Read(fields, q[..d]), p[d])
  {
    hide Binding.Walk, SetPath;
    SetStep(fields, p, value);
    DivergeBelow(p, q, d);
    var v := if p[0] in fields then Some(fields[p[0]]) else None;
    assert FieldsOf(v) == Child(fields, p[0]);
    assert q[..d][0] == q[0] && q[..d][1..] == q[1..][..d - 1];
    LengthBelow(v, p[1..], q[1..], d - 1, value);
  }

  /**
    A path that parts from the written one reads as before, exactly unless it asks for the length of what stands where
    they part, and the write changes that length.
   */
  lemma ReadElsewhereIff(fields: Fields, p: seq<string>, q: seq<string>, d: nat, value: Value)
    requires DivergeAt(p, q, d)
    ensures Read(SetPath(fields, p, value), q) == Read(fields, q) <==>
            (AsksLength(q, d) ==> KeepsLength(Read(fields, q[..d]), p[d]))
  {
    hide Binding.Walk, SetPath, Read, KeepsLength;
    if AsksLength(q, d) {
      LengthUnchangedIff(fields, p, q, d, value);
    } else if d > 0 && q[d] == "length" {
      var i := d;
      if |q| == d + 1 {
        i := EarlierLength(q, d);
      }
      NothingAfterLengthRead(fields, q, i);
      NothingAfterLengthRead(SetPath(fields, p, value), q, i);
    } else {
      ElsewhereUnchanged(fields, p, q, d, value);
    }
  }

  lemma EarlierLength(q: seq<string>, d: nat) returns (i: nat)
    requires 0 < d && |q| == d + 1 && q[d] == "length" && !AsksLength(q, d)
    ensures 1 <= i < d && q[i] == "length"
  {
    i :| 1 <= i < d && q[i] == "length";
  }

  /** The object a path leads to, and the empty one where the write opens it. */
  function Opened(fields: Fields, path: seq<string>): Fields
    decreases |path|
  {
    if path == [] then fields else Opened(Child(fields, path[0]), path[1..])
  }

  lemma {:induction false} WrittenLength(fields: Fields, parts: seq<string>, value: Value)
    requires parts != [] && parts[|parts| - 1] == "length" && forall i | 0 <= i < |parts| - 1 :: parts[i] != "length"
    ensures Binding.Walk(Json.Obj(SetPath(fields, parts, value)), parts) ==
            Some(Json.FromNat(|Opened(fields, parts[..|parts| - 1])["length" := value]|))
    decreases |parts|
  {
    hide Binding.Walk, SetPath, Json.FromNat;
    WalkStep(Json.Obj(SetPath(fields, parts, value)), parts);
    SetStep(fields, parts, value);
    if |parts| == 1 {
      WalkStep(Json.FromNat(|fields["length" := value]|), []);
      assert parts[..0] == [] && parts[1..] == [];
    } else {
      var front := parts[..|parts| - 1];
      assert front[0] == parts[0] && front[1..] == parts[1..][..|parts| - 2];
      WrittenLength(Child(fields, parts[0]), parts[1..], value);
    }
  }

  /**
    A written path reads its value back exactly when no name between its first and last is `length`, and, if the last
    one is, the value is the number of members of the object it was written into.
   */
  lemma WrittenReadsBackIff(fields: Fields, parts: seq<string>, value: Value)
    requires parts != []
    ensures Read(SetPath(fields, parts, value), parts) == Some(value) <==>
            && (forall i | 1 <= i < |parts| - 1 :: parts[i] != "length")
            && (|parts| > 1 && parts[|parts| - 1] == "length" ==>
                  value == Json.FromNat(|Opened(fields, parts[..|parts| - 1])["length" := value]|))
  {
    hide Binding.Walk, SetPath, Json.FromNat;
    var after := SetPath(fields, parts, value);
    if i :| 1 <= i < |parts| - 1 && parts[i] == "length" {
      NothingAfterLengthRead(after, parts, i);
    } else if |parts| > 1 && parts[|parts| - 1] == "length" {
      SetStep(fields, parts, value);
      var front := parts[..|parts| - 1];
      assert front[0] == parts[0] && front[1..] == parts[1..][..|parts| - 2];
      WrittenLength(Child(fields, parts[0]), parts[1..], value);
    } else {
      WrittenReadsBack(fields, parts, [], value);
    }
  }

  /** A text written under the name `length` is not what the template reads there. */
  lemma LengthHidesWrite()
    ensures Read(SetPath(map[], ["a", "length"], Json.Str("x")), ["a", "length"]) != Some(Json.Str("x"))
  {
    hide Read, SetPath, Opened;
    WrittenReadsBackIff(map[], ["a", "length"], Json.Str("x"));
  }

  /** Such a write: a text of three characters becomes an object of one member. */
  lemma LengthSeesWrite()
    ensures var before := map["a" := Json.Str("xyz")];
      && DivergeAt(["a", "b"], ["a", "length"], 1)
      && Read(before, ["a", "length"]) == Some(Json.FromNat(3))
      && Read(SetPath(before, ["a", "b"], Json.Null), ["a", "length"]) == Some(Json.FromNat(1))
  {
    hide Binding.Walk;
    var before: Fields := map["a" := Json.Str("xyz")];
    assert "b"[0] != "length"[0];
    assert ["a", "length"][1..] == ["length"] && ["a", "b"][1..] == ["b"] && ["length"][1..] == [];
    WalkStep(Json.Str("xyz"), ["length"]);
    WalkStep(Json.FromNat(3), []);
    WalkStep(Json.FromNat(1), []);
    WalkStep(Json.Obj(map["b" := Json.Null]), ["length"]);
    assert SetPath(before, ["a", "b"], Json.Null) == map["a" := Json.Obj(map["b" := Json.Null])];
  }

  /** Writes to paths that part ways can be made in either order. */
  lemma {:induction false} WritesCommute(fields: Fields, p: seq<string>, v: Value, q: seq<string>, w: Value, d: nat)
    requires DivergeAt(p, q, d)
    ensures SetPath(SetPath(fields, p, v), q, w) == SetPath(SetPath(fields, q, w), p, v)
    decreases d
  {
    hide SetPath;
    SetStep(fields, p, v);
    SetStep(fields, q, w);
    SetStep(SetPath(fields, p, v), q, w);
    SetStep(SetPath(fields, q, w), p, v);
    if d > 0 {
      DivergeBelow(p, q, d);
      WritesCommute(Child(fields, p[0]), p[1..], v, q[1..], w, d - 1);
    }
  }

  // ----- one setData call -----

  predicate Diverge(p: seq<string>, q: seq<string>) {
    exists d: nat :: d < |p| && d < |q| && DivergeAt(p, q, d)
  }

  /** Every key of the call is a path the template can bind, and no two overlap. */
  predicate Independent(updates: seq<Update>) {
    && (forall u | u in updates :: Binding.IsSupportedPath(u.key) && NoLength(Text.Split(u.key, '.')))
    && (forall i, j | 0 <= i < |updates| && 0 <= j < |updates| && i != j ::
          Diverge(Text.Split(updates[i].key, '.'), Text.Split(updates[j].key, '.')))
  }

  lemma ApplyIsSet(fields: Fields, u: Update)
    requires Binding.IsSupportedPath(u.key)
    ensures ApplyOne(fields, u) == SetPath(fields, Text.Split(u.key, '.'), u.value)
  {
    hide Text.Split, SetPath, Binding.IsSupportedPath, Binding.Segments;
    SamePath(u.key);
    if '.' !in u.key {
      Text.SplitNone(u.key, '.');
      SetStep(fields, [u.key], u.value);
    }
  }

  lemma OneElsewhere(fields: Fields, u: Update, q: seq<string>)
    requires Binding.IsSupportedPath(u.key) && Diverge(Text.Split(u.key, '.'), q) && NoLength(q)
    ensures Read(ApplyOne(fields, u), q) == Read(fields, q)
  {
    hide Text.Split, SetPath, Binding.IsSupportedPath, Read;
    ApplyIsSet(fields, u);
    var d: nat :| d < |q| && DivergeAt(Text.Split(u.key, '.'), q, d);
    ElsewhereUnchanged(fields, Text.Split(u.key, '.'), q, d, u.value);
  }

  lemma {:induction false} AllElsewhere(fields: Fields, updates: seq<Update>, q: seq<string>)
    requires forall u | u in updates :: Binding.IsSupportedPath(u.key) && Diverge(Text.Split(u.key, '.'), q)
    requires NoLength(q)
    ensures Read(ApplyAll(fields, updates), q) == Read(fields, q)
    decreases |updates|
  {
    hide Text.Split, ApplyOne, Binding.IsSupportedPath, Diverge, Read, NoLength;
    if updates != [] {
      assert updates[0] in updates;
      OneElsewhere(fields, updates[0], q);
      AllElsewhere(ApplyOne(fields, updates[0]), updates[1..], q);
    }
  }

  /** After a `setData` call with independent keys, in whatever order they come, every key reads its value. */
  lemma {:induction false} EveryKeyReadsBack(fields: Fields, updates: seq<Update>, i: nat)
    requires Independent(updates) && i < |updates|
    ensures Binding.Resolve(Binding.Context(Json.Obj(ApplyAll(fields, updates)), map[]), updates[i].key) == Some(updates[i].value)
    decreases i
  {
    hide Text.Split, ApplyOne, Binding.IsSupportedPath, Binding.ResolveSegments, Binding.Segments, NoLength, SetPath, Diverge, Parts;
    var u, rest := updates[0], updates[1..];
    assert u in updates;
    RestIndependent(updates);
    if i > 0 {
      EveryKeyReadsBack(ApplyOne(fields, u), rest, i - 1);
    } else {
      var path := Text.Split(u.key, '.');
      ApplyIsSet(fields, u);
      WrittenReadsBack(fields, path, [], u.value);
      forall w | w in rest ensures Binding.IsSupportedPath(w.key) && Diverge(Text.Split(w.key, '.'), path) {
        var j :| 0 <= j < |rest| && rest[j] == w;
        assert updates[j + 1] == w && w in updates;
      }
      AllElsewhere(ApplyOne(fields, u), rest, path);
      SamePath(u.key);
    }
  }

  lemma RestIndependent(updates: seq<Update>)
    requires Independent(updates) && updates != []
    ensures Independent(updates[1..])
  {
    hide Text.Split, Binding.IsSupportedPath, NoLength, Diverge;
    var rest := updates[1..];
    forall i, j | 0 <= i < |rest| && 0 <= j < |rest| && i != j
      ensures Diverge(Text.Split(rest[i].key, '.'), Text.Split(rest[j].key, '.'))
    {
      assert rest[i] == updates[i + 1] && rest[j] == updates[j + 1];
    }
  }
}
