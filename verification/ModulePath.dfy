/** Module ids: how they are made from file paths, and how `require` resolves a specifier to one. */
module ModulePath {
  import opened Wrappers
  import opened Text

  datatype PathError =
    | UnsafeModulePath
    | EmptySpecifier
    | OutsidePackage(specifier: string)
    | ModuleNotFound(specifier: string)

  // ----- ids from file paths -----

  /** The components of a file path; a normal component may not be UTF-8. */
  datatype Component = Normal(part: Option<string>) | CurDir | ParentDir | Root

  function StripJs(s: string): string {
    if EndsWith(s, ".js") then s[..|s| - 3] else s
  }

  /** The parts of a relative path, or none where it is not allowed. */
  function NormalParts(path: seq<Component>): Option<seq<string>>
    decreases |path|
  {
    if path == [] then Some([]) else
    match path[0]
    case Normal(part) =>
      var p :- part;
      var rest :- NormalParts(path[1..]);
      Some([p] + rest)
    case CurDir => NormalParts(path[1..])
    case _ => None
  }

  function ModuleId(path: seq<Component>, absolute: bool): Result<string, PathError> {
    if absolute then Err(UnsafeModulePath) else
    match NormalParts(path)
    case None => Err(UnsafeModulePath)
    case Some(parts) =>
      if parts == [] then Err(UnsafeModulePath)
      else Ok(Join(parts[..|parts| - 1] + [StripJs(parts[|parts| - 1])], "/"))
  }

  method MakeModuleId(path: seq<Component>, absolute: bool) returns (r: Result<string, PathError>)
    ensures r == ModuleId(path, absolute)
  {
    if absolute {
      return Err(UnsafeModulePath);
    }
    var parts: seq<string> := [];
    assert path[0..] == path;
    ghost var all := NormalParts(path);
    assert all.Some? ==> [] + all.value == all.value;
    for i := 0 to |path|
      invariant all == if NormalParts(path[i..]).Some? then Some(parts + NormalParts(path[i..]).value) else None
    {
      assert path[i..][0] == path[i] && path[i..][1..] == path[i + 1..];
      match path[i] {
        case Normal(part) =>
          if part.None? {
            return Err(UnsafeModulePath);
          }
          parts := parts + [part.value];
          ghost var rest := NormalParts(path[i + 1..]);
          assert rest.Some? ==> parts + rest.value == parts[..|parts| - 1] + ([part.value] + rest.value);
        case CurDir =>
        case _ =>
          return Err(UnsafeModulePath);
      }
    }
    assert parts + [] == parts;
    if parts == [] {
      return Err(UnsafeModulePath);
    }
    var last := parts[|parts| - 1];
    if EndsWith(last, ".js") {
      last := last[..|last| - 3];
    }
    return Ok(Join(parts[..|parts| - 1] + [last], "/"));
  }

  // ----- specifiers -----

  /** The parts of `base` moved by the segments of a specifier; leaving the package yields nothing. */
  function Move(base: seq<string>, segments: seq<string>): Option<seq<string>>
    decreases |segments|
  {
    if segments == [] then Some(base)
    else if segments[0] == "" || segments[0] == "." then Move(base, segments[1..])
    else if segments[0] == ".." then
      if base == [] then None else Move(base[..|base| - 1], segments[1..])
    else Move(base + [segments[0]], segments[1..])
  }

  predicate IsRefused(specifier: string) {
    || '\0' in specifier
    || Contains(specifier, "://")
    || StartsWith(specifier, "/")
    || StartsWith(specifier, "\\")
  }

  /** The directory of a module, as parts. */
  function Directory(id: string): seq<string> {
    var parts := Split(id, '/');
    parts[..|parts| - 1]
  }

  function Base(parent: string, specifier: string): seq<string> {
    if StartsWith(specifier, ".") then Directory(parent) else []
  }

  function Normalize(parent: string, specifier: string, modules: set<string>): Result<string, PathError> {
    if specifier == "" then Err(EmptySpecifier)
    else if IsRefused(specifier) then Err(OutsidePackage(specifier))
    else
      var parts := Move(Base(parent, specifier), Split(specifier, '/'));
      if parts.None? then Err(OutsidePackage(specifier)) else
      var id := StripJs(Join(parts.value, "/"));
      if id in modules then Ok(id) else Err(ModuleNotFound(specifier))
  }

  method NormalizeRequire(parent: string, specifier: string, modules: set<string>) returns (r: Result<string, PathError>)
    ensures r == Normalize(parent, specifier, modules)
  {
    hide Split, Join, Contains;
    if specifier == "" {
      return Err(EmptySpecifier);
    }
    if '\0' in specifier || Contains(specifier, "://") || StartsWith(specifier, "/") || StartsWith(specifier, "\\") {
      return Err(OutsidePackage(specifier));
    }
    var parentParts := Split(parent, '/');
    parentParts := parentParts[..|parentParts| - 1];
    var parts := if StartsWith(specifier, ".") then parentParts else [];
    ghost var base := parts;
    var segments := Split(specifier, '/');
    assert segments[0..] == segments;
    for i := 0 to |segments|
      invariant Move(base, segments) == Move(parts, segments[i..])
    {
      assert segments[i..][0] == segments[i] && segments[i..][1..] == segments[i + 1..];
      if segments[i] == "" || segments[i] == "." {
        continue;
      }
      if segments[i] == ".." {
        if |parts| == 0 {
          return Err(OutsidePackage(specifier));
        }
        parts := parts[..|parts| - 1];
        continue;
      }
      parts := parts + [segments[i]];
    }
    var id := Join(parts, "/");
    if EndsWith(id, ".js") {
      id := id[..|id| - 3];
    }
    if id !in modules {
      return Err(ModuleNotFound(specifier));
    }
    return Ok(id);
  }

  // ----- resolution stays in the package -----

  /** How deep the segments go, counting names up and `..` down. */
  function Depth(segments: seq<string>): int {
    if segments == [] then 0 else
    Depth(segments[..|segments| - 1]) +
    (var last := segments[|segments| - 1]; if last == "" || last == "." then 0 else if last == ".." then -1 else 1)
  }

  lemma {:induction false} DepthCons(s: string, segments: seq<string>)
    ensures Depth([s] + segments) == Depth([s]) + Depth(segments)
    decreases |segments|
  {
    if segments == [] {
      assert [s] + segments == [s];
    } else {
      var all := [s] + segments;
      assert all[..|all| - 1] == [s] + segments[..|segments| - 1];
      DepthCons(s, segments[..|segments| - 1]);
    }
  }

  /** A specifier escapes the package exactly when it is ever above the root. */
  lemma {:induction false} EscapesIffAboveRoot(base: seq<string>, segments: seq<string>)
    ensures Move(base, segments).None? <==> exists k | 0 <= k <= |segments| :: |base| + Depth(segments[..k]) < 0
    ensures Move(base, segments).Some? ==> |Move(base, segments).value| == |base| + Depth(segments)
    decreases |segments|
  {
    if segments == [] {
      assert Depth(segments[..0]) == 0;
    } else {
      var s, rest := segments[0], segments[1..];
      assert segments == [s] + rest;
      DepthCons(s, rest);
      assert Depth([]) == 0;
      assert [s][..0] == [];
      assert Depth([s]) == if s == "" || s == "." then 0 else if s == ".." then -1 else 1;
      forall k | 1 <= k <= |segments| ensures Depth(segments[..k]) == Depth([s]) + Depth(rest[..k - 1]) {
        assert segments[..k] == [s] + rest[..k - 1];
        DepthCons(s, rest[..k - 1]);
      }
      assert Depth(segments[..0]) == 0;
      var next := if s == "" || s == "." then base else if s == ".." then base[..if base == [] then 0 else |base| - 1] else base + [s];
      if s == ".." && base == [] {
        assert |base| + Depth(segments[..1]) < 0 by {
          assert rest[..0] == [];
        }
      } else {
        EscapesIffAboveRoot(next, rest);
        assert |next| == |base| + Depth([s]);
        if Move(next, rest).None? {
          var k :| 0 <= k <= |rest| && |next| + Depth(rest[..k]) < 0;
          assert |base| + Depth(segments[..k + 1]) < 0;
        }
        if exists k | 0 <= k <= |segments| :: |base| + Depth(segments[..k]) < 0 {
          var k :| 0 <= k <= |segments| && |base| + Depth(segments[..k]) < 0;
          assert k != 0;
          assert |next| + Depth(rest[..k - 1]) < 0;
        }
      }
    }
  }

  // ----- ids resolve back to themselves -----

  /** A component of a relative Unix path. */
  predicate IsName(s: string) {
    s != "" && '/' !in s && s != "." && s != ".."
  }

  predicate AreNames(parts: seq<string>) {
    forall p | p in parts :: IsName(p)
  }

  /** `m` is the id of a file with these path components. */
  predicate IsIdOf(m: string, parts: seq<string>) {
    && parts != [] && AreNames(parts)
    && m == Join(parts[..|parts| - 1] + [StripJs(parts[|parts| - 1])], "/")
  }

  /** The parts of `m` with the extension put back. */
  function WithJs(parts: seq<string>): seq<string>
    requires parts != []
  {
    parts[..|parts| - 1] + [StripJs(parts[|parts| - 1]) + ".js"]
  }

  lemma StripJsBack(s: string)
    ensures StripJs(s + ".js") == s
  {
    assert (s + ".js")[|s|..] == ".js";
  }

  lemma {:induction false} JoinLast(front: seq<string>, last: string, more: string)
    ensures Join(front + [last + more], "/") == Join(front + [last], "/") + more
    decreases |front|
  {
    if front == [] {
      assert front + [last + more] == [last + more] && front + [last] == [last];
    } else {
      assert (front + [last + more])[1..] == front[1..] + [last + more];
      assert (front + [last])[1..] == front[1..] + [last];
      JoinLast(front[1..], last, more);
      var a := front[0] + "/" + Join(front[1..] + [last], "/");
      assert front[0] + "/" + (Join(front[1..] + [last], "/") + more) == a + more;
    }
  }

  lemma WithJsNames(parts: seq<string>)
    requires parts != [] && AreNames(parts)
    ensures AreNames(WithJs(parts))
  {
    var last := StripJs(parts[|parts| - 1]);
    assert parts[|parts| - 1] in parts;
    assert forall c | c in last :: c in parts[|parts| - 1];
    assert '/' !in ".js";
    assert (last + ".js")[|last| + 1] == 'j';
    forall p | p in WithJs(parts) ensures IsName(p) {
      if p != last + ".js" {
        assert p in parts[..|parts| - 1];
        assert p in parts;
      }
    }
  }

  lemma {:induction false} MoveNames(base: seq<string>, parts: seq<string>)
    requires AreNames(parts)
    ensures Move(base, parts) == Some(base + parts)
    decreases |parts|
  {
    if parts == [] {
      assert base + parts == base;
    } else {
      assert IsName(parts[0]);
      assert base + [parts[0]] + parts[1..] == base + parts;
      MoveNames(base + [parts[0]], parts[1..]);
    }
  }

  predicate AreSteps(parts: seq<string>) {
    forall p | p in parts :: p != "" && '/' !in p
  }

  lemma {:induction false} NamesHaveNoEmptyStep(parts: seq<string>, i: nat)
    requires parts != [] && AreSteps(parts) && i + 1 < |Join(parts, "/")|
    ensures !(Join(parts, "/")[i] == '/' && Join(parts, "/")[i + 1] == '/')
    ensures Join(parts, "/")[0] != '/'
    decreases |parts|
  {
    var s, first := Join(parts, "/"), parts[0];
    assert first in parts;
    if |parts| > 1 {
      var rest := Join(parts[1..], "/");
      assert s == first + "/" + rest;
      assert parts[1] in parts && forall p | p in parts[1..] :: p in parts;
      JoinStart(parts[1..]);
      if i > |first| {
        NamesHaveNoEmptyStep(parts[1..], i - |first| - 1);
        assert s[i] == rest[i - |first| - 1] && s[i + 1] == rest[i - |first|];
      }
    }
  }

  lemma NamesAreSteps(parts: seq<string>)
    requires AreNames(parts)
    ensures AreSteps(parts)
  {
    forall p | p in parts ensures p != "" && '/' !in p {
      assert IsName(p);
    }
  }

  lemma JoinStart(parts: seq<string>)
    requires parts != [] && parts[0] != ""
    ensures Join(parts, "/") != "" && Join(parts, "/")[0] == parts[0][0]
  {
  }

  predicate EmptyStepAt(s: string, i: int) {
    0 <= i && i + 1 < |s| && s[i] == '/' && s[i + 1] == '/'
  }

  lemma SchemeHasEmptyStep(s: string)
    requires Contains(s, "://")
    ensures exists i | 0 <= i < |s| :: EmptyStepAt(s, i)
  {
    var i := ContainsAt(s, "://");
    assert s[i + 1] == s[i..i + 3][1] && s[i + 2] == s[i..i + 3][2];
    assert EmptyStepAt(s, i + 1);
  }

  /** An id with its extension is refused only for a NUL or a leading backslash. */
  lemma IdIsRefusedIff(m: string, parts: seq<string>)
    requires IsIdOf(m, parts)
    ensures m + ".js" == Join(WithJs(parts), "/")
    ensures IsRefused(m + ".js") <==> '\0' in m || (m != "" && m[0] == '\\')
  {
    hide Join, StripJs;
    var spec := m + ".js";
    JoinLast(parts[..|parts| - 1], StripJs(parts[|parts| - 1]), ".js");
    WithJsNames(parts);
    NamesAreSteps(WithJs(parts));
    forall i | 0 <= i < |spec| ensures !EmptyStepAt(spec, i) {
      if i + 1 < |spec| {
        NamesHaveNoEmptyStep(WithJs(parts), i);
      }
    }
    if Contains(spec, "://") {
      SchemeHasEmptyStep(spec);
    }
    NamesHaveNoEmptyStep(WithJs(parts), 0);
    assert '\0' !in ".js";
    assert spec[..1] == [spec[0]];
  }

  lemma {:induction false} LongerJoin(base: seq<string>, parts: seq<string>)
    requires base != [] && parts != []
    ensures |Join(base + parts, "/")| > |Join(parts, "/")|
    decreases |base|
  {
    assert (base + parts)[1..] == base[1..] + parts;
    if |base| > 1 {
      LongerJoin(base[1..], parts);
    } else {
      assert base[1..] + parts == parts;
    }
  }

  /** When an id with `.js` put back resolves to the id. */
  predicate ResolvesBack(parent: string, m: string) {
    && '\0' !in m
    && (m == "" || m[0] != '\\')
    && (m == "" || m[0] == '.' ==> Directory(parent) == [])
  }

  /**
    For every id made from a file path, requiring it with its extension yields it back exactly when it holds no NUL,
    starts with no backslash, and, if the specifier starts with a dot, the requiring module is at the root.
   */
  lemma IdResolvesBackIff(parent: string, m: string, parts: seq<string>, modules: set<string>)
    requires IsIdOf(m, parts) && m in modules
    ensures Normalize(parent, m + ".js", modules) == Ok(m) <==> ResolvesBack(parent, m)
  {
    hide Join, Split, StripJs, Directory, Contains, AreNames;
    var spec := m + ".js";
    var js := WithJs(parts);
    IdIsRefusedIff(m, parts);
    assert spec[..1] == [spec[0]];
    assert StartsWith(spec, ".") <==> m == "" || m[0] == '.';
    if !IsRefused(spec) {
      WithJsNames(parts);
      NamesSplit(js);
      MoveNames(Base(parent, spec), js);
      StripJsBack(m);
      if Base(parent, spec) == [] {
        assert [] + js == js;
      } else {
        var base := Base(parent, spec);
        LongerJoin(base, js);
        StripLength(Join(base + js, "/"));
      }
    }
  }

  lemma StripLength(s: string)
    ensures |StripJs(s)| >= |s| - 3
  {
  }

  lemma NamesSplit(parts: seq<string>)
    requires parts != [] && AreNames(parts)
    ensures Split(Join(parts, "/"), '/') == parts
  {
    hide Join, Split;
    assert forall p | p in parts :: '/' !in p by {
      forall p | p in parts ensures '/' !in p {
        assert IsName(p);
      }
    }
    SplitJoin(parts, '/');
    assert ['/'] == "/";
  }

  lemma HiddenFileId()
    ensures IsIdOf("", [".js"])
  {
    assert ".js"[0..] == ".js" && EndsWith(".js", ".js");
    assert [".js"][..0] + [StripJs(".js")] == [""];
    assert IsName(".js");
  }

  lemma DirectoryOfApi()
    ensures Directory("apis/order") == ["apis"]
  {
    hide Split;
    assert "apis/order" == "apis" + ['/'] + "order";
    SplitUnfold("apis/order", '/', "apis", "order");
    SplitNone("order", '/');
  }

  /** A file called `.js` in the root has the empty id, which a module in a directory cannot require by its file name. */
  lemma EmptyIdDoesNotResolveBack()
    ensures IsIdOf("", [".js"])
    ensures Normalize("apis/order", "" + ".js", {"", "apis/order"}) != Ok("")
  {
    hide Normalize, Directory, IsIdOf;
    HiddenFileId();
    DirectoryOfApi();
    IdResolvesBackIff("apis/order", "", [".js"], {"", "apis/order"});
  }
}
