/** What `setData` leaves at every path, and what its keys and its order mean. */
module SetDataLaws {
  import opened Wrappers
  import opened SetData
  import Json
  import Text

  /** The member at a path through objects; the empty path is the object itself. */
  function LookAt(v: Value, path: seq<string>): Option<Value>
    decreases |path|
  {
    if path == [] then Some(v)
    else if v.Obj? && path[0] in v.fields then LookAt(v.fields[path[0]], path[1..])
    else None
  }

  /** The object at a path, empty if there is none. */
  function ObjectAt(v: Value, path: seq<string>): Fields {
    match LookAt(v, path)
    case Some(Obj(fields)) => fields
    case _ => map[]
  }

  predicate IsPrefix(a: seq<string>, b: seq<string>) {
    |a| <= |b| && forall i | 0 <= i < |a| :: a[i] == b[i]
  }

  lemma PrefixStep(a: seq<string>, b: seq<string>)
    requires a != [] && b != [] && a[0] == b[0]
    ensures IsPrefix(a, b) <==> IsPrefix(a[1..], b[1..])
  {
    if IsPrefix(a[1..], b[1..]) {
      forall i | 0 <= i < |a| ensures a[i] == b[i] {
        if i > 0 {
          assert a[1..][i - 1] == b[1..][i - 1];
        }
      }
    }
  }

  /**
    After a write every path holds: inside the written one, the value's part; along it, an object, whatever was there;
    anywhere else, what it held before.
   */
  lemma {:induction false} AfterWrite(fields: Fields, parts: seq<string>, value: Value, q: seq<string>)
    requires parts != []
    ensures var after := LookAt(Json.Obj(SetPath(fields, parts, value)), q);
      && (IsPrefix(parts, q) ==> after == LookAt(value, q[|parts|..]))
      && (IsPrefix(q, parts) && |q| < |parts| ==> after.Some? && after.value.Obj?)
      && (!IsPrefix(parts, q) && !IsPrefix(q, parts) ==> after == LookAt(Json.Obj(fields), q))
    decreases |parts|
  {
    if q != [] {
      if parts[0] == q[0] {
        PrefixStep(parts, q);
        PrefixStep(q, parts);
        if |parts| > 1 {
          AfterWrite(Child(fields, parts[0]), parts[1..], value, q[1..]);
          assert |q| >= |parts| ==> q[|parts|..] == q[1..][|parts| - 1..];
          ChildLooks(fields, parts[0], q[1..]);
        }
      }
    }
  }

  lemma ChildLooks(fields: Fields, key: string, q: seq<string>)
    ensures q != [] ==> LookAt(Json.Obj(Child(fields, key)), q) == if key in fields then LookAt(fields[key], q) else None
  {
  }

  lemma {:induction false} LookFurther(v: Value, path: seq<string>, key: string)
    ensures LookAt(v, path + [key]) ==
            match LookAt(v, path) case Some(Obj(fields)) => (if key in fields then Some(fields[key]) else None) case _ => None
    decreases |path|
  {
    if path == [] {
      assert path + [key] == [key] && [key][1..] == [];
    } else {
      assert (path + [key])[1..] == path[1..] + [key];
      if v.Obj? && path[0] in v.fields {
        LookFurther(v.fields[path[0]], path[1..], key);
      }
    }
  }

  /** Along the path an object keeps its other members. */
  lemma MembersStay(fields: Fields, parts: seq<string>, value: Value, d: nat, key: string)
    requires d < |parts| && key != parts[d]
    ensures key in ObjectAt(Json.Obj(SetPath(fields, parts, value)), parts[..d]) <==> key in ObjectAt(Json.Obj(fields), parts[..d])
  {
    var q := parts[..d] + [key];
    assert q[d] == key;
    AfterWrite(fields, parts, value, q);
    LookFurther(Json.Obj(fields), parts[..d], key);
    LookFurther(Json.Obj(SetPath(fields, parts, value)), parts[..d], key);
  }

  // ----- keys -----

  function WithoutEmpty(pieces: seq<string>): seq<string>
    decreases |pieces|
  {
    if pieces == [] then []
    else WithoutEmpty(pieces[..|pieces| - 1]) + if pieces[|pieces| - 1] == "" then [] else [pieces[|pieces| - 1]]
  }

  lemma {:induction false} WithoutEmptyFirst(pieces: seq<string>)
    requires pieces != []
    ensures WithoutEmpty(pieces) == (if pieces[0] == "" then [] else [pieces[0]]) + WithoutEmpty(pieces[1..])
    decreases |pieces|
  {
    if |pieces| > 1 {
      var front := pieces[..|pieces| - 1];
      assert front[1..] == pieces[1..][..|pieces| - 2];
      WithoutEmptyFirst(front);
    } else {
      assert pieces[..0] == [] && pieces[1..] == [];
    }
  }

  lemma {:induction false} NonEmptyIs(pieces: seq<string>)
    ensures NonEmpty(pieces) == WithoutEmpty(pieces)
    decreases |pieces|
  {
    hide WithoutEmpty;
    if pieces == [] {
      NoPieces();
    } else {
      NonEmptyIs(pieces[1..]);
      WithoutEmptyFirst(pieces);
    }
  }

  lemma NoPieces()
    ensures WithoutEmpty([]) == []
  {
  }

  /** A key names the member it is; one with dots, the path of its non-empty pieces, and without any it writes nothing. */
  lemma KeyIs(fields: Fields, pieces: seq<string>, value: Value)
    requires pieces != [] && forall p | p in pieces :: '.' !in p
    ensures var path := if |pieces| == 1 then pieces else WithoutEmpty(pieces);
      ApplyOne(fields, Update(Text.Join(pieces, "."), value)) == if path == [] then fields else SetPath(fields, path, value)
  {
    hide WithoutEmpty, NonEmpty, Text.Split;
    Text.SplitJoin(pieces, '.');
    assert ['.'] == ".";
    NonEmptyIs(pieces);
    DotIn(pieces);
  }

  lemma DotIn(pieces: seq<string>)
    requires pieces != [] && forall p | p in pieces :: '.' !in p
    ensures '.' in Text.Join(pieces, ".") <==> |pieces| > 1
  {
    if |pieces| > 1 {
      assert Text.Join(pieces, ".") == pieces[0] + "." + Text.Join(pieces[1..], ".");
      assert (pieces[0] + "." + Text.Join(pieces[1..], "."))[|pieces[0]|] == '.';
    } else {
      assert pieces[0] in pieces;
    }
  }

  // ----- several updates -----

  /** Updates are applied one after the other. */
  lemma {:induction false} AppliedInOrder(fields: Fields, a: seq<Update>, b: seq<Update>)
    ensures ApplyAll(fields, a + b) == ApplyAll(ApplyAll(fields, a), b)
    decreases |a|
  {
    hide ApplyOne;
    if a == [] {
      assert a + b == b;
    } else {
      assert (a + b)[1..] == a[1..] + b;
      AppliedInOrder(ApplyOne(fields, a[0]), a[1..], b);
    }
  }

  /** Whatever came before, the last update stands. */
  lemma LastUpdateStands(fields: Fields, front: seq<Update>, pieces: seq<string>, value: Value)
    requires pieces != [] && forall p | p in pieces :: '.' !in p
    ensures var path := if |pieces| == 1 then pieces else WithoutEmpty(pieces);
      path != [] ==> LookAt(Json.Obj(ApplyAll(fields, front + [Update(Text.Join(pieces, "."), value)])), path) == Some(value)
  {
    hide ApplyOne, WithoutEmpty;
    var last := Update(Text.Join(pieces, "."), value);
    AppliedInOrder(fields, front, [last]);
    assert [last][1..] == [];
    var path := if |pieces| == 1 then pieces else WithoutEmpty(pieces);
    KeyIs(ApplyAll(fields, front), pieces, value);
    if path != [] {
      AfterWrite(ApplyAll(fields, front), path, value, path);
      assert path[|path|..] == [];
    }
  }
}
