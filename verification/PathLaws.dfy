/** Where a specifier leads: names and the `..` that take them back, from the requiring module's directory. */
module PathLaws {
  import opened Wrappers
  import opened Text
  import opened ModulePath

  // ----- moving -----

  lemma {:induction false} MoveTwice(base: seq<string>, a: seq<string>, b: seq<string>)
    ensures Move(base, a + b) == match Move(base, a) case None => None case Some(there) => Move(there, b)
    decreases |a|
  {
    if a == [] {
      assert a + b == b;
    } else {
      assert (a + b)[1..] == a[1..] + b;
      if a[0] == "" || a[0] == "." {
        MoveTwice(base, a[1..], b);
      } else if a[0] == ".." {
        if base != [] {
          MoveTwice(base[..|base| - 1], a[1..], b);
        }
      } else {
        MoveTwice(base + [a[0]], a[1..], b);
      }
    }
  }

  lemma MoveInAndOut(base: seq<string>, name: string)
    requires IsName(name)
    ensures Move(base, [name, ".."]) == Some(base)
  {
    assert [name, ".."][1..] == [".."] && [".."][1..] == [];
    assert (base + [name])[..|base + [name]| - 1] == base;
  }

  /** A name and the `..` after it cancel, wherever they are. */
  lemma DetourCancels(base: seq<string>, before: seq<string>, name: string, after: seq<string>)
    requires IsName(name)
    ensures Move(base, before + [name, ".."] + after) == Move(base, before + after)
  {
    hide Move;
    MoveTwice(base, before + [name, ".."], after);
    MoveTwice(base, before, [name, ".."]);
    MoveTwice(base, before, after);
    if Move(base, before).Some? {
      MoveInAndOut(Move(base, before).value, name);
    }
  }

  lemma StayStep(base: seq<string>, here: string)
    requires here == "" || here == "."
    ensures Move(base, [here]) == Some(base)
  {
    assert [here][1..] == [];
  }

  /** An empty segment and `.` change nothing. */
  lemma HereIsNothing(base: seq<string>, before: seq<string>, here: string, after: seq<string>)
    requires here == "" || here == "."
    ensures Move(base, before + [here] + after) == Move(base, before + after)
  {
    hide Move;
    MoveTwice(base, before + [here], after);
    MoveTwice(base, before, [here]);
    MoveTwice(base, before, after);
    if Move(base, before).Some? {
      StayStep(Move(base, before).value, here);
    }
  }

  function Ups(k: nat): seq<string> {
    seq(k, _ => "..")
  }

  lemma {:induction false} MoveUp(base: seq<string>, k: nat)
    ensures Move(base, Ups(k)) == if k <= |base| then Some(base[..|base| - k]) else None
    decreases k
  {
    if k == 0 {
      assert base[..|base|] == base;
    } else {
      assert Ups(k)[0] == ".." && Ups(k)[1..] == Ups(k - 1);
      if base != [] {
        var above := base[..|base| - 1];
        MoveUp(above, k - 1);
        assert k <= |base| ==> above[..|above| - (k - 1)] == base[..|base| - k];
      }
    }
  }

  /** Up `k` directories and then down by names: the last `k` parts go, and leaving the root is refused. */
  lemma UpThenDown(base: seq<string>, k: nat, names: seq<string>)
    requires AreNames(names)
    ensures Move(base, Ups(k) + names) == if k <= |base| then Some(base[..|base| - k] + names) else None
  {
    hide Move;
    MoveTwice(base, Ups(k), names);
    MoveUp(base, k);
    if k <= |base| {
      MoveNames(base[..|base| - k], names);
    }
  }

  // ----- requiring -----

  predicate At(s: string, needle: string, i: int) {
    0 <= i && i + |needle| <= |s| && s[i..i + |needle|] == needle
  }

  lemma ContainsIff(s: string, needle: string)
    ensures Contains(s, needle) <==> exists i | 0 <= i <= |s| :: At(s, needle, i)
  {
    if Contains(s, needle) {
      var i := ContainsAt(s, needle);
      assert At(s, needle, i);
    } else if exists i | 0 <= i <= |s| :: At(s, needle, i) {
      var i :| 0 <= i <= |s| && At(s, needle, i);
      AtContains(s, needle, i);
    }
  }

  lemma {:induction false} AtContains(s: string, needle: string, i: nat)
    requires At(s, needle, i)
    ensures Contains(s, needle)
    decreases i
  {
    if i == 0 {
      assert s[..|needle|] == needle;
    } else {
      assert s[1..][i - 1..i - 1 + |needle|] == needle;
      AtContains(s[1..], needle, i - 1);
    }
  }

  /** What is refused outright: the empty specifier, a NUL, a scheme, a leading slash or backslash. */
  lemma RefusedOutright(parent: string, specifier: string, modules: set<string>, i: nat)
    ensures specifier == "" ==> Normalize(parent, specifier, modules) == Err(EmptySpecifier)
    ensures specifier != "" && ('\0' in specifier || specifier[0] == '/' || specifier[0] == '\\' || At(specifier, "://", i)) ==>
              Normalize(parent, specifier, modules) == Err(OutsidePackage(specifier))
  {
    hide Move, Split, Join, StripJs, Contains;
    ContainsIff(specifier, "://");
    if specifier != "" {
      assert specifier[..1] == [specifier[0]];
    }
  }

  /** A specifier: `.` first or not, up, down by names, and the extension or not. */
  datatype Specifier = Specifier(dotted: bool, ups: nat, names: seq<string>, extension: bool)

  function StepsOf(s: Specifier): seq<string> {
    (if s.dotted then ["."] else []) + Ups(s.ups) + s.names
  }

  predicate IsSpecifier(s: Specifier) {
    && s.names != [] && AreNames(s.names) && !EndsWith(s.names[|s.names| - 1], ".js")
    && (forall n | n in s.names :: '\0' !in n)
    && (!s.dotted && s.ups == 0 ==> !StartsWith(s.names[0], "\\") && !StartsWith(s.names[0], "."))
  }

  predicate IsRelative(s: Specifier) {
    s.dotted || s.ups > 0
  }

  function WriteSpecifier(s: Specifier): string {
    Join(StepsOf(s), "/") + if s.extension then ".js" else ""
  }

  /** The steps with the extension on the last. */
  function StepsWithEnd(s: Specifier): seq<string>
    requires s.names != []
  {
    StepsOf(s)[..|StepsOf(s)| - 1] + [s.names[|s.names| - 1] + if s.extension then ".js" else ""]
  }

  lemma StepsShape(s: Specifier)
    requires IsSpecifier(s)
    ensures var ended := s.names[..|s.names| - 1] + [s.names[|s.names| - 1] + if s.extension then ".js" else ""];
      && StepsWithEnd(s) == (if s.dotted then ["."] else []) + Ups(s.ups) + ended
      && AreNames(ended) && AreSteps(StepsWithEnd(s)) && StepsWithEnd(s) != []
  {
    var last := s.names[|s.names| - 1];
    var ended := s.names[..|s.names| - 1] + [last + if s.extension then ".js" else ""];
    assert IsName(last);
    EndedName(last, s.extension);
    forall n | n in ended ensures IsName(n) {
      if n != last + (if s.extension then ".js" else "") {
        assert n in s.names;
      }
    }
    assert forall n | n in Ups(s.ups) :: n == "..";
    NamesAreSteps(ended);
    assert StepsWithEnd(s) == (if s.dotted then ["."] else []) + Ups(s.ups) + ended;
  }

  lemma EndedName(last: string, extension: bool)
    requires IsName(last)
    ensures IsName(last + if extension then ".js" else "")
  {
    var all := last + if extension then ".js" else "";
    assert '/' !in ".js" && '/' !in "";
    if extension {
      assert |all| == |last| + 3 && all[|last| + 1] == 'j';
    } else {
      assert all == last;
    }
  }

  lemma WrittenSteps(s: Specifier)
    requires IsSpecifier(s)
    ensures WriteSpecifier(s) == Join(StepsWithEnd(s), "/")
    ensures Split(WriteSpecifier(s), '/') == StepsWithEnd(s)
  {
    hide Join, Split, Ups, EndsWith;
    var front, last := StepsOf(s)[..|StepsOf(s)| - 1], s.names[|s.names| - 1];
    assert StepsOf(s) == front + [last];
    JoinLast(front, last, if s.extension then ".js" else "");
    StepsShape(s);
    SplitJoin(StepsWithEnd(s), '/');
    assert ['/'] == "/";
  }

  lemma {:induction false} JoinChars(parts: seq<string>, c: char)
    requires c != '/' && forall p | p in parts :: c !in p
    ensures c !in Join(parts, "/")
    decreases |parts|
  {
    if |parts| > 1 {
      JoinChars(parts[1..], c);
    }
  }

  lemma FirstStep(s: Specifier)
    requires IsSpecifier(s)
    ensures WriteSpecifier(s) != ""
    ensures WriteSpecifier(s)[0] == '.' <==> IsRelative(s)
    ensures WriteSpecifier(s)[0] != '/' && WriteSpecifier(s)[0] != '\\'
  {
    hide Split, EndsWith, WriteSpecifier, Join;
    WrittenSteps(s);
    StepsShape(s);
    var steps := StepsWithEnd(s);
    assert steps[0] in steps;
    JoinStart(steps);
    if s.dotted {
      assert steps[0] == ".";
    } else if s.ups > 0 {
      assert Ups(s.ups)[0] == "..";
      assert steps[0] == "..";
    } else {
      assert s.names[0] in s.names;
      assert IsName(s.names[0]);
      assert steps[0][0] == s.names[0][0];
      assert s.names[0][..1] == [s.names[0][0]];
    }
  }

  lemma NoNul(s: Specifier)
    requires IsSpecifier(s)
    ensures '\0' !in WriteSpecifier(s)
  {
    hide EndsWith, AreNames;
    forall p | p in StepsOf(s) ensures '\0' !in p {
      if p !in s.names {
        assert p == "." || p in Ups(s.ups);
        assert '\0' !in "." && '\0' !in "..";
      }
    }
    JoinChars(StepsOf(s), '\0');
    assert '\0' !in ".js";
  }

  lemma NotRefused(s: Specifier)
    requires IsSpecifier(s)
    ensures !IsRefused(WriteSpecifier(s)) && WriteSpecifier(s) != ""
    ensures StartsWith(WriteSpecifier(s), ".") <==> IsRelative(s)
  {
    hide Split, EndsWith, Join, WriteSpecifier, StepsWithEnd, Contains, AreNames;
    var text := WriteSpecifier(s);
    WrittenSteps(s);
    StepsShape(s);
    FirstStep(s);
    NoNul(s);
    forall i | 0 <= i < |text| ensures !EmptyStepAt(text, i) {
      if i + 1 < |text| {
        NamesHaveNoEmptyStep(StepsWithEnd(s), i);
      }
    }
    if Contains(text, "://") {
      SchemeHasEmptyStep(text);
    }
    assert text[..1] == [text[0]];
  }

  lemma DirectoryIs(dir: seq<string>, file: string)
    requires '/' !in file && forall p | p in dir :: '/' !in p
    ensures Directory(Join(dir + [file], "/")) == dir
  {
    hide Split, Join;
    SplitJoin(dir + [file], '/');
    assert ['/'] == "/";
  }

  lemma MovedBy(base: seq<string>, s: Specifier)
    requires IsSpecifier(s)
    ensures Move(base, StepsWithEnd(s)) ==
            if s.ups > |base| then None
            else Some(base[..|base| - s.ups] + s.names[..|s.names| - 1] + [s.names[|s.names| - 1] + if s.extension then ".js" else ""])
  {
    hide *;
    SomeName(s);
    StepsShape(s);
    var ended := s.names[..|s.names| - 1] + [s.names[|s.names| - 1] + if s.extension then ".js" else ""];
    UpThenDown(base, s.ups, ended);
    MovedHere(base, s.dotted, Ups(s.ups), ended);
    if s.ups <= |base| {
      Regroup(base[..|base| - s.ups], s.names[..|s.names| - 1], [s.names[|s.names| - 1] + if s.extension then ".js" else ""]);
    }
  }

  lemma SomeName(s: Specifier)
    requires IsSpecifier(s)
    ensures s.names != []
  {
  }

  lemma Regroup(a: seq<string>, b: seq<string>, c: seq<string>)
    ensures a + (b + c) == a + b + c
  {
  }

  lemma MovedHere(base: seq<string>, dotted: bool, ups: seq<string>, names: seq<string>)
    ensures Move(base, (if dotted then ["."] else []) + ups + names) == Move(base, ups + names)
  {
    hide *;
    if dotted {
      HereIsNothing(base, [], ".", ups + names);
      assert [] + ["."] + (ups + names) == ["."] + ups + names;
      assert [] + (ups + names) == ups + names;
    } else {
      assert [] + ups + names == ups + names;
    }
  }

  lemma JsEnd(s: string)
    ensures EndsWith(s, ".js") <==> |s| >= 3 && s[|s| - 3] == '.' && s[|s| - 2] == 'j' && s[|s| - 1] == 's'
  {
    if |s| >= 3 {
      var end := s[|s| - 3..];
      assert end[0] == s[|s| - 3] && end[1] == s[|s| - 2] && end[2] == s[|s| - 1];
      assert end == ".js" <==> end[0] == '.' && end[1] == 'j' && end[2] == 's';
    }
  }

  lemma EndOfJoin(front: seq<string>, last: string)
    requires last != "" && '/' !in last && !EndsWith(last, ".js")
    ensures !EndsWith(Join(front + [last], "/"), ".js")
  {
    JoinEnd(front, last);
    hide Join, EndsWith;
    var all := Join(front + [last], "/");
    JsEnd(all);
    JsEnd(last);
    assert forall i | 0 <= i < |last| :: all[|all| - |last|..][i] == last[i];
    assert last[|last| - 1] == all[|all| - 1];
    assert |last| >= 2 ==> last[|last| - 2] == all[|all| - 2];
    assert |last| >= 3 ==> last[|last| - 3] == all[|all| - 3];
  }

  lemma {:induction false} JoinEnd(front: seq<string>, last: string)
    ensures var all := Join(front + [last], "/");
      |last| <= |all| && all[|all| - |last|..] == last && (front != [] ==> |last| < |all| && all[|all| - |last| - 1] == '/')
      && (front == [] ==> all == last)
    decreases |front|
  {
    if front == [] {
      assert front + [last] == [last];
    } else {
      assert (front + [last])[1..] == front[1..] + [last];
      JoinEnd(front[1..], last);
      var rest := Join(front[1..] + [last], "/");
      var all := front[0] + "/" + rest;
      assert all[|all| - |last|..] == rest[|rest| - |last|..];
    }
  }

  lemma StripIs(front: seq<string>, last: string, extension: bool)
    requires last != "" && '/' !in last && !EndsWith(last, ".js")
    ensures StripJs(Join(front + [last + if extension then ".js" else ""], "/")) == Join(front + [last], "/")
  {
    hide Join, EndsWith;
    EndOfJoin(front, last);
    if extension {
      JoinLast(front, last, ".js");
      StripJsBack(Join(front + [last], "/"));
    } else {
      assert last + "" == last;
      NothingStripped(Join(front + [last], "/"));
    }
  }

  lemma NothingStripped(s: string)
    requires !EndsWith(s, ".js")
    ensures StripJs(s) == s
  {
  }

  /**
    A specifier leads from the directory of the requiring module, or from the root when it starts with a name: up by
    its `..`, down by its names, the extension aside; above the root it is refused.
   */
  lemma RequireLeadsTo(dir: seq<string>, file: string, s: Specifier, modules: set<string>)
    requires IsSpecifier(s) && '/' !in file && forall p | p in dir :: '/' !in p
    ensures var base, text := if IsRelative(s) then dir else [], WriteSpecifier(s);
      Normalize(Join(dir + [file], "/"), text, modules) ==
      if s.ups > |base| then Err(OutsidePackage(text))
      else
        var id := Join(base[..|base| - s.ups] + s.names, "/");
        if id in modules then Ok(id) else Err(ModuleNotFound(text))
  {
    hide Move, Split, Join, StripJs, Directory, EndsWith, WriteSpecifier, StepsWithEnd, IsRefused, AreNames;
    DirectoryIs(dir, file);
    NotRefused(s);
    WrittenSteps(s);
    var base := if IsRelative(s) then dir else [];
    MovedBy(base, s);
    if s.ups <= |base| {
      var last := s.names[|s.names| - 1];
      var front := base[..|base| - s.ups] + s.names[..|s.names| - 1];
      LastName(s.names);
      StripIs(front, last, s.extension);
      assert front + [last] == base[..|base| - s.ups] + s.names;
    }
  }

  lemma LastName(names: seq<string>)
    requires names != [] && AreNames(names)
    ensures IsName(names[|names| - 1])
  {
  }

  lemma SplitOfSteps(steps: seq<string>)
    requires steps != [] && forall p | p in steps :: '/' !in p
    ensures Split(Join(steps, "/"), '/') == steps
  {
    SplitJoin(steps, '/');
    assert ['/'] == "/";
  }

  /** A detour in a specifier does not change where it leads. */
  lemma DetourLeadsToTheSame(parent: string, before: seq<string>, name: string, after: seq<string>, modules: set<string>)
    requires IsName(name) && before != [] && forall p | p in before + after :: '/' !in p
    ensures var text, short := Join(before + [name, ".."] + after, "/"), Join(before + after, "/");
      !IsRefused(text) && !IsRefused(short) && text != "" && short != "" && (StartsWith(text, ".") <==> StartsWith(short, ".")) ==>
        match Normalize(parent, short, modules)
        case Ok(id) => Normalize(parent, text, modules) == Ok(id)
        case Err(OutsidePackage(_)) => Normalize(parent, text, modules) == Err(OutsidePackage(text))
        case Err(_) => Normalize(parent, text, modules) == Err(ModuleNotFound(text))
  {
    hide Move, Split, Join, StripJs, Directory, IsRefused;
    var long := before + [name, ".."] + after;
    forall p | p in long ensures '/' !in p {
      assert p in before + after || p == name || p == "..";
    }
    SplitOfSteps(long);
    SplitOfSteps(before + after);
    DetourCancels(Base(parent, Join(before + after, "/")), before, name, after);
  }

  // ----- ids of files -----

  /** The normal parts of a file path. */
  function PartsOf(path: seq<Component>): seq<string>
    decreases |path|
  {
    if path == [] then [] else
    var front, last := PartsOf(path[..|path| - 1]), path[|path| - 1];
    if last.Normal? && last.part.Some? then front + [last.part.value] else front
  }

  predicate IsPlain(c: Component) {
    c.CurDir? || (c.Normal? && c.part.Some?)
  }

  predicate AllPlain(path: seq<Component>) {
    forall c | c in path :: IsPlain(c)
  }

  lemma {:induction false} PartsFirst(path: seq<Component>)
    requires path != []
    ensures PartsOf(path) == (if path[0].Normal? && path[0].part.Some? then [path[0].part.value] else []) + PartsOf(path[1..])
    decreases |path|
  {
    if |path| > 1 {
      var front := path[..|path| - 1];
      assert front[1..] == path[1..][..|path| - 2];
      PartsFirst(front);
    } else {
      assert path[..0] == [] && path[1..] == [];
    }
  }

  lemma {:induction false} NormalPartsAre(path: seq<Component>)
    ensures NormalParts(path) == if AllPlain(path) then Some(PartsOf(path)) else None
    decreases |path|
  {
    hide PartsOf;
    if path == [] {
      NoParts();
    } else {
      NormalPartsAre(path[1..]);
      PartsFirst(path);
      assert AllPlain(path) <==> IsPlain(path[0]) && AllPlain(path[1..]) by {
        assert forall c :: c in path <==> c == path[0] || c in path[1..];
      }
      assert [] + PartsOf(path[1..]) == PartsOf(path[1..]);
    }
  }

  lemma NoParts()
    ensures PartsOf([]) == []
  {
  }

  /**
    A file has an id exactly if its path is relative, all of names and `.`, with at least one name; the id is the names
    between slashes, without the extension of the last.
   */
  lemma IdOfFile(path: seq<Component>, absolute: bool)
    ensures var parts := PartsOf(path);
      if absolute || !AllPlain(path) || parts == [] then ModuleId(path, absolute) == Err(UnsafeModulePath)
      else
        && ModuleId(path, absolute).Ok?
        && var id, whole, last := ModuleId(path, absolute).value, Join(parts, "/"), parts[|parts| - 1];
           if |last| >= 3 && last[|last| - 3..] == ".js" then id + ".js" == whole else id == whole
  {
    hide Join, PartsOf;
    NormalPartsAre(path);
    var parts := PartsOf(path);
    if parts != [] {
      var front, last := parts[..|parts| - 1], parts[|parts| - 1];
      assert front + [last] == parts;
      if EndsWith(last, ".js") {
        assert last == last[..|last| - 3] + ".js";
        JoinLast(front, last[..|last| - 3], ".js");
      }
    }
  }
}
