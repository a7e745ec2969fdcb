/** Lexical normalisation of file paths. */
module PathNormalization {

  type Path = string

  // ---- What a path means ----

  function ComponentLength(path: Path): (n: nat)
    ensures n <= |path|
    ensures forall i :: 0 <= i < n ==> path[i] != '/'
    ensures n == |path| || path[n] == '/'
  {
    if path == "" || path[0] == '/' then 0 else 1 + ComponentLength(path[1..])
  }

  /** The names between slashes, empty ones dropped. */
  function Components(path: Path): seq<string>
    decreases |path|
  {
    if path == "" then []
    else if path[0] == '/' then Components(path[1..])
    else
      var n := ComponentLength(path);
      [path[..n]] + Components(path[n..])
  }

  predicate Absolute(path: Path) {
    |path| > 0 && path[0] == '/'
  }

  function Step(dir: seq<string>, name: string): seq<string> {
    if name == "." then dir
    else if name == ".." then if dir == [] then [] else dir[..|dir| - 1]
    else dir + [name]
  }

  /** Where following names one by one from a directory leads; the parent of the
      root is the root. */
  function Walk(dir: seq<string>, names: seq<string>): seq<string> {
    if names == [] then dir
    else Step(Walk(dir, names[..|names| - 1]), names[|names| - 1])
  }

  /** The directory or file a path denotes when used in `cwd`. */
  function Denotes(cwd: seq<string>, path: Path): seq<string> {
    Walk(if Absolute(path) then [] else cwd, Components(path))
  }

  // ---- What the function computes ----

  predicate EndsName(path: Path, k: nat) {
    k >= |path| || path[k] == '/'
  }

  /** A `.` or `..` component starts at `i`, or a second slash follows. */
  predicate Untidy(path: Path, i: nat)
    requires i < |path|
  {
    if path[i] == '.' then
      && (i == 0 || path[i - 1] == '/')
      && (EndsName(path, i + 1) || (path[i + 1] == '.' && EndsName(path, i + 2)))
    else path[i] == '/' && i + 1 < |path| && path[i + 1] == '/'
  }

  predicate NeedsWork(path: Path) {
    exists i :: 0 <= i < |path| && Untidy(path, i)
  }

  function Push(absolute: bool, parts: seq<string>, name: string): seq<string> {
    if name == "." then parts
    else if name == ".." then
      if parts != [] && parts[|parts| - 1] != ".." then parts[..|parts| - 1]
      else if !absolute then parts + [name]
      else parts
    else parts + [name]
  }

  function Resolve(absolute: bool, names: seq<string>): seq<string> {
    if names == [] then []
    else Push(absolute, Resolve(absolute, names[..|names| - 1]), names[|names| - 1])
  }

  function Join(parts: seq<string>): string {
    if parts == [] then ""
    else if |parts| == 1 then parts[0]
    else Join(parts[..|parts| - 1]) + "/" + parts[|parts| - 1]
  }

  function Render(absolute: bool, parts: seq<string>): Path {
    var text := (if absolute then "/" else "") + Join(parts);
    if text == "" then "." else text
  }

  function Rebuilt(path: Path): Path {
    Render(Absolute(path), Resolve(Absolute(path), Components(path)))
  }

  function Normalized(path: Path): Path {
    if path == "" || !NeedsWork(path) then path else Rebuilt(path)
  }

  method NeedsNormalize(path: Path) returns (needed: bool)
    ensures needed <==> NeedsWork(path)
  {
    for i := 0 to |path|
      invariant forall j :: 0 <= j < i ==> !Untidy(path, j)
    {
      if path[i] == '.' {
        if i == 0 || path[i - 1] == '/' {
          var next := i + 1;
          if next >= |path| || path[next] == '/' {
            assert Untidy(path, i);
            return true;
          }
          if path[next] == '.' && (next + 1 >= |path| || path[next + 1] == '/') {
            assert Untidy(path, i);
            return true;
          }
        }
      } else if path[i] == '/' && i + 1 < |path| && path[i + 1] == '/' {
        assert Untidy(path, i);
        return true;
      }
    }
    return false;
  }

  lemma ComponentsSkipSlash(path: Path, i: nat)
    requires i < |path| && path[i] == '/'
    ensures Components(path[i..]) == Components(path[i + 1..])
  {
    assert path[i..][1..] == path[i + 1..];
  }

  lemma ComponentsTakeName(path: Path, i: nat, j: nat)
    requires i < j <= |path| && (forall k :: i <= k < j ==> path[k] != '/') && EndsName(path, j)
    ensures Components(path[i..]) == [path[i..j]] + Components(path[j..])
  {
    var rest := path[i..];
    assert forall k :: 0 <= k < j - i ==> rest[k] != '/';
    assert ComponentLength(rest) == j - i;
    assert rest[..j - i] == path[i..j] && rest[j - i..] == path[j..];
  }

  lemma ResolveSnoc(absolute: bool, names: seq<string>, name: string)
    ensures Resolve(absolute, names + [name]) == Push(absolute, Resolve(absolute, names), name)
  {
    assert (names + [name])[..|names|] == names;
  }

  lemma JoinSnoc(parts: seq<string>, part: string)
    ensures Join(parts + [part]) == if parts == [] then part else Join(parts) + "/" + part
  {
    assert (parts + [part])[..|parts|] == parts;
  }

  lemma NothingYet(absolute: bool)
    ensures Resolve(absolute, []) == []
  {
  }

  lemma NothingLeft(path: Path, i: nat)
    requires i == |path|
    ensures Components(path[i..]) == []
  {
  }

  method ResolveComponents(path: Path, absolute: bool) returns (parts: seq<string>)
    ensures parts == Resolve(absolute, Components(path))
  {
    hide Components, Resolve;
    parts := [];
    var i := 0;
    ghost var names: seq<string> := [];
    assert path[0..] == path;
    NothingYet(absolute);
    while i < |path|
      invariant 0 <= i <= |path|
      invariant names + Components(path[i..]) == Components(path)
      invariant parts == Resolve(absolute, names)
      decreases |path| - i
    {
      ghost var entry := i;
      while i < |path| && path[i] == '/'
        invariant entry <= i <= |path|
        invariant Components(path[i..]) == Components(path[entry..])
      {
        ComponentsSkipSlash(path, i);
        i := i + 1;
      }
      var start := i;
      while i < |path| && path[i] != '/'
        invariant start <= i <= |path|
        invariant forall k :: start <= k < i ==> path[k] != '/'
      {
        i := i + 1;
      }
      if i > start {
        ComponentsTakeName(path, start, i);
        var comp := path[start..i];
        ResolveSnoc(absolute, names, comp);
        assert names + ([comp] + Components(path[i..])) == (names + [comp]) + Components(path[i..]);
        if comp == "." {
        } else if comp == ".." {
          if parts != [] && parts[|parts| - 1] != ".." {
            parts := parts[..|parts| - 1];
          } else if !absolute {
            parts := parts + [comp];
          }
        } else {
          parts := parts + [comp];
        }
        names := names + [comp];
      }
    }
    NothingLeft(path, i);
    assert names + [] == names;
  }

  lemma NothingJoined()
    ensures Join([]) == ""
  {
  }

  method NormalizePath(path: Path) returns (result: Path)
    ensures result == Normalized(path)
  {
    hide NeedsWork, Resolve, Components, Join;
    NothingJoined();
    if path == "" {
      return path;
    }
    var needed := NeedsNormalize(path);
    if !needed {
      return path;
    }
    var absolute := path[0] == '/';
    var parts := ResolveComponents(path, absolute);
    result := if absolute then "/" else "";
    for j := 0 to |parts|
      invariant result == (if absolute then "/" else "") + Join(parts[..j])
    {
      assert parts[..j + 1] == parts[..j] + [parts[j]];
      JoinSnoc(parts[..j], parts[j]);
      if j > 0 {
        result := result + "/";
      }
      result := result + parts[j];
    }
    assert parts[..|parts|] == parts;
    if result == "" {
      result := ".";
    }
  }

  // ---- Normalising keeps what a path denotes ----

  ghost predicate Plain(names: seq<string>) {
    forall i :: 0 <= i < |names| ==> names[i] != "" && '/' !in names[i]
  }

  ghost predicate IsName(name: string) {
    name != "" && name != "." && '/' !in name
  }

  ghost predicate Names(names: seq<string>) {
    forall i :: 0 <= i < |names| ==> IsName(names[i])
  }

  /** Names with every `..` in front, and none in an absolute path. */
  ghost predicate Settled(absolute: bool, parts: seq<string>) {
    && Names(parts)
    && (absolute ==> ".." !in parts)
    && (forall i, j :: 0 <= i < j < |parts| && parts[j] == ".." ==> parts[i] == "..")
  }

  lemma {:induction false} ComponentsAreNames(path: Path)
    ensures Plain(Components(path))
    decreases |path|
  {
    if path != "" {
      if path[0] == '/' {
        ComponentsAreNames(path[1..]);
      } else {
        ComponentsAreNames(path[ComponentLength(path)..]);
      }
    }
  }

  lemma {:induction false} ResolveSettled(absolute: bool, names: seq<string>)
    requires Plain(names)
    ensures Settled(absolute, Resolve(absolute, names))
  {
    if names != [] {
      ResolveSettled(absolute, names[..|names| - 1]);
    }
  }

  lemma {:induction false} WalkAfter(dir: seq<string>, a: seq<string>, b: seq<string>)
    ensures Walk(dir, a + b) == Walk(Walk(dir, a), b)
  {
    if b == [] {
      assert a + b == a;
    } else {
      WalkAfter(dir, a, b[..|b| - 1]);
      assert (a + b)[..|a + b| - 1] == a + b[..|b| - 1];
    }
  }

  lemma WalkOne(dir: seq<string>, a: seq<string>, name: string)
    ensures Walk(dir, a + [name]) == Step(Walk(dir, a), name)
  {
    assert (a + [name])[..|a|] == a;
  }

  /** An absolute path resolves to the very stack it walks to. */
  lemma {:induction false} ResolveAbsolute(names: seq<string>)
    requires Plain(names)
    ensures Resolve(true, names) == Walk([], names)
  {
    if names != [] {
      var front := names[..|names| - 1];
      ResolveAbsolute(front);
      ResolveSettled(true, front);
    }
  }

  /** A relative path and its resolved form lead to the same place from everywhere. */
  lemma {:induction false} ResolveRelative(dir: seq<string>, names: seq<string>)
    requires Plain(names)
    ensures Walk(dir, Resolve(false, names)) == Walk(dir, names)
  {
    if names != [] {
      var front, name := names[..|names| - 1], names[|names| - 1];
      var parts := Resolve(false, front);
      ResolveRelative(dir, front);
      ResolveSettled(false, front);
      assert front + [name] == names;
      if name == ".." && parts != [] && parts[|parts| - 1] != ".." {
        var kept, last := parts[..|parts| - 1], parts[|parts| - 1];
        assert kept + [last] == parts;
        WalkOne(dir, kept, last);
      } else if name != "." {
        WalkOne(dir, parts, name);
      }
    }
  }

  // ---- Reading back what was rendered ----

  lemma NameIsComponent(name: string, rest: Path)
    requires name != "" && '/' !in name && (rest == "" || rest[0] == '/')
    ensures Components(name + rest) == [name] + Components(rest)
  {
    var path := name + rest;
    assert path[0..] == path && path[0..|name|] == name && path[|name|..] == rest;
    ComponentsTakeName(path, 0, |name|);
  }

  /** Text after a slash or the end is split on its own. */
  lemma {:induction false} ComponentsOfJoined(a: Path, b: Path)
    requires b == "" || b[0] == '/'
    ensures Components(a + b) == Components(a) + Components(b)
    decreases |a|
  {
    if a == "" {
      assert a + b == b;
    } else if a[0] == '/' {
      assert (a + b)[1..] == a[1..] + b;
      ComponentsOfJoined(a[1..], b);
    } else {
      var n := ComponentLength(a);
      var name, rest := a[..n], a[n..];
      assert a + b == name + (rest + b);
      NameIsComponent(name, rest + b);
      ComponentsOfJoined(rest, b);
      assert [name] + (Components(rest) + Components(b)) == [name] + Components(rest) + Components(b);
    }
  }

  lemma SlashName(name: string)
    requires name != "" && '/' !in name
    ensures Components("/" + name) == [name] && Components(name) == [name]
  {
    NameIsComponent(name, "");
    assert name + "" == name && ("/" + name)[1..] == name;
    assert Components("") == [];
  }

  lemma {:induction false} ComponentsOfJoin(parts: seq<string>)
    requires Names(parts)
    ensures Components(Join(parts)) == parts
    ensures parts != [] ==> Join(parts) != "" && Join(parts)[0] != '/'
  {
    if |parts| == 1 {
      SlashName(parts[0]);
      assert parts[0][0] in parts[0];
    } else if |parts| > 1 {
      var front, last := parts[..|parts| - 1], parts[|parts| - 1];
      ComponentsOfJoin(front);
      SlashName(last);
      assert Join(parts) == Join(front) + ("/" + last);
      ComponentsOfJoined(Join(front), "/" + last);
    }
  }

  lemma RenderReadsBack(absolute: bool, parts: seq<string>)
    requires Names(parts)
    ensures Absolute(Render(absolute, parts)) == absolute
    ensures Components(Render(absolute, parts)) == if parts == [] && !absolute then ["."] else parts
  {
    ComponentsOfJoin(parts);
    if absolute {
      assert Render(true, parts)[1..] == Join(parts);
    } else if parts == [] {
      SlashName(".");
    } else {
      assert Render(false, parts) == Join(parts);
    }
  }

  /** For every starting directory, a path and its normal form denote the same place. */
  lemma MeaningKept(cwd: seq<string>, path: Path)
    ensures Denotes(cwd, Normalized(path)) == Denotes(cwd, path)
  {
    if path != "" && NeedsWork(path) {
      var absolute, names := Absolute(path), Components(path);
      ComponentsAreNames(path);
      ResolveSettled(absolute, names);
      RenderReadsBack(absolute, Resolve(absolute, names));
      if absolute {
        ResolveAbsolute(names);
        WalkNames([], Resolve(true, names));
      } else {
        ResolveRelative(cwd, names);
        assert Walk(cwd, ["."]) == cwd by {
          WalkOne(cwd, [], ".");
        }
      }
    }
  }

  lemma {:induction false} WalkNames(dir: seq<string>, names: seq<string>)
    requires forall i :: 0 <= i < |names| ==> names[i] != "." && names[i] != ".."
    ensures Walk(dir, names) == dir + names
  {
    if names != [] {
      WalkNames(dir, names[..|names| - 1]);
      assert names == names[..|names| - 1] + [names[|names| - 1]];
    }
  }

  // ---- The normal form ----

  lemma {:induction false} SettledStays(absolute: bool, parts: seq<string>)
    requires Settled(absolute, parts)
    ensures Resolve(absolute, parts) == parts
  {
    if parts != [] {
      var front, last := parts[..|parts| - 1], parts[|parts| - 1];
      SettledStays(absolute, front);
      assert front + [last] == parts;
      assert last == ".." ==> last in parts;
    }
  }

  lemma RenderStays(absolute: bool, parts: seq<string>)
    requires Settled(absolute, parts)
    ensures Rebuilt(Render(absolute, parts)) == Render(absolute, parts)
  {
    RenderReadsBack(absolute, parts);
    SettledStays(absolute, parts);
    hide Render, Components;
    if parts == [] && !absolute {
      ResolveSnoc(false, [], ".");
      assert [] + ["."] == ["."];
    }
  }

  /** Normalising twice is normalising once. */
  lemma Idempotent(path: Path)
    ensures Normalized(Normalized(path)) == Normalized(path)
  {
    hide Components, NeedsWork, Join, Resolve, Render;
    if path != "" && NeedsWork(path) {
      ComponentsAreNames(path);
      ResolveSettled(Absolute(path), Components(path));
      RenderStays(Absolute(path), Resolve(Absolute(path), Components(path)));
    }
  }

  /** A position from which the rest of the path splits like the path itself. */
  predicate Boundary(path: Path, i: nat)
    requires i <= |path|
  {
    i == 0 || i == |path| || path[i] == '/' || path[i - 1] == '/'
  }

  ghost predicate HasDots(names: seq<string>) {
    exists k :: 0 <= k < |names| && (names[k] == "." || names[k] == "..")
  }

  ghost predicate NoDoubleSlash(text: Path) {
    forall i :: 0 <= i < |text| - 1 ==> !(text[i] == '/' && text[i + 1] == '/')
  }

  lemma TidyHasNoDoubleSlash(path: Path)
    requires !NeedsWork(path)
    ensures NoDoubleSlash(path)
  {
    forall i | 0 <= i < |path| - 1 ensures !(path[i] == '/' && path[i + 1] == '/') {
      assert !Untidy(path, i);
    }
  }

  lemma NameEnd(path: Path, i: nat) returns (j: nat)
    requires i < |path| && path[i] != '/'
    ensures i < j <= |path| && EndsName(path, j) && forall k :: i <= k < j ==> path[k] != '/'
  {
    var n := ComponentLength(path[i..]);
    j := i + n;
    assert forall k :: i <= k < j ==> path[k] == path[i..][k - i];
    assert j < |path| ==> path[j] == path[i..][n];
  }

  lemma TidyName(path: Path, i: nat, j: nat)
    requires i < j <= |path| && EndsName(path, j) && !Untidy(path, i)
    requires i == 0 || path[i - 1] == '/'
    ensures path[i..j] != "." && path[i..j] != ".."
  {
    var name := path[i..j];
    assert name[0] == path[i];
    if j == i + 2 {
      assert name[1] == path[i + 1];
    }
  }

  /** Without an untidy position there is no dot component to resolve. */
  lemma {:induction false} TidyHasNoDots(path: Path, i: nat)
    requires i <= |path| && Boundary(path, i) && !NeedsWork(path)
    ensures !HasDots(Components(path[i..]))
    decreases |path| - i
  {
    hide Components, Untidy;
    if i == |path| {
      NothingLeft(path, i);
    } else if path[i] == '/' {
      ComponentsSkipSlash(path, i);
      TidyHasNoDots(path, i + 1);
    } else {
      var j := NameEnd(path, i);
      ComponentsTakeName(path, i, j);
      TidyHasNoDots(path, j);
      TidyName(path, i, j);
    }
  }

  lemma {:induction false} NoDotsStay(absolute: bool, names: seq<string>)
    requires !HasDots(names)
    ensures Resolve(absolute, names) == names
  {
    if names != [] {
      var front, last := names[..|names| - 1], names[|names| - 1];
      assert !HasDots(front);
      NoDotsStay(absolute, front);
      assert front + [last] == names;
    }
  }

  /** A path with single slashes is its components joined, up to a slash in front
      and one at the end. */
  lemma {:induction false} SingleSlashes(path: Path)
    requires NoDoubleSlash(path) && !Absolute(path)
    ensures path == Join(Components(path)) || path == Join(Components(path)) + "/"
    decreases |path|
  {
    if path != "" {
      var n := ComponentLength(path);
      var name, rest := path[..n], path[n..];
      if rest != "" {
        var tail := rest[1..];
        assert Components(rest) == Components(tail);
        assert path == name + "/" + tail;
        assert tail == path[n + 1..];
        assert tail != "" ==> tail[0] == path[n + 1];
        assert NoDoubleSlash(tail) && !Absolute(tail);
        SingleSlashes(tail);
        if tail == "" {
          assert Components(path) == [name];
        } else {
          JoinCons(name, Components(tail));
          ComponentsNonEmpty(tail);
        }
      } else {
        assert path == name && Components(path) == [name];
      }
    }
  }

  lemma ComponentsNonEmpty(path: Path)
    requires path != "" && path[0] != '/'
    ensures Components(path) != []
  {
  }

  lemma {:induction false} JoinCons(first: string, parts: seq<string>)
    ensures Join([first] + parts) == if parts == [] then first else first + "/" + Join(parts)
  {
    if |parts| <= 1 {
      assert [first] + parts == if parts == [] then [first] else [first, parts[0]];
      if |parts| == 1 {
        assert ([first] + parts)[..1] == [first];
      }
    } else {
      var front, last := parts[..|parts| - 1], parts[|parts| - 1];
      JoinCons(first, front);
      assert ([first] + parts)[..|parts|] == [first] + front;
    }
  }

  /** Where nothing needs work the rebuilt path is the path, up to one trailing slash. */
  lemma FastPathAgrees(path: Path)
    requires path != "" && !NeedsWork(path)
    ensures Rebuilt(path) == path || Rebuilt(path) + "/" == path
  {
    assert path[0..] == path;
    TidyHasNoDots(path, 0);
    NoDotsStay(Absolute(path), Components(path));
    TidyHasNoDoubleSlash(path);
    hide NeedsWork, Resolve;
    if Absolute(path) {
      var tail := path[1..];
      assert Components(path) == Components(tail);
      assert path == "/" + tail;
      assert tail != "" ==> tail[0] == path[1];
      SingleSlashes(tail);
    } else {
      ComponentsNonEmpty(path);
      SingleSlashes(path);
    }
  }

  /** Every component of a normal form is a real name, except that a relative one
      may be `.` alone or start with parent steps. */
  lemma NormalFormIsSettled(path: Path)
    requires path != ""
    ensures var r := Normalized(path);
      && Absolute(r) == Absolute(path)
      && (r == "." || Settled(Absolute(path), Components(r)))
      && NoDoubleSlash(r)
  {
    var absolute, names := Absolute(path), Components(path);
    ComponentsAreNames(path);
    if NeedsWork(path) {
      var parts := Resolve(absolute, names);
      ResolveSettled(absolute, names);
      RenderReadsBack(absolute, parts);
      RenderSingleSlashes(absolute, parts);
    } else {
      assert path[0..] == path;
      TidyHasNoDots(path, 0);
      NoDotsStay(absolute, names);
      ResolveSettled(absolute, names);
      TidyHasNoDoubleSlash(path);
    }
  }

  lemma {:induction false} JoinSingleSlashes(parts: seq<string>)
    requires Names(parts)
    ensures NoDoubleSlash(Join(parts))
    ensures parts != [] ==> Join(parts) != "" && Join(parts)[0] != '/' && Join(parts)[|Join(parts)| - 1] != '/'
  {
    if parts != [] {
      var front, last := parts[..|parts| - 1], parts[|parts| - 1];
      JoinSingleSlashes(front);
      assert IsName(last);
      assert last[0] in last && last[|last| - 1] in last;
      assert forall i :: 0 <= i < |last| ==> last[i] != '/' by {
        assert forall i :: 0 <= i < |last| ==> last[i] in last;
      }
    }
  }

  lemma RenderSingleSlashes(absolute: bool, parts: seq<string>)
    requires Names(parts)
    ensures NoDoubleSlash(Render(absolute, parts))
  {
    JoinSingleSlashes(parts);
  }

  // ---- One normal form per meaning ----

  /** How many parent steps a settled list starts with. */
  function Ups(parts: seq<string>): (k: nat)
    ensures k <= |parts| && (forall i :: 0 <= i < k ==> parts[i] == "..")
    ensures k < |parts| ==> parts[k] != ".."
  {
    if parts != [] && parts[0] == ".." then 1 + Ups(parts[1..]) else 0
  }

  lemma {:induction false} WalkUps(dir: seq<string>, ups: seq<string>)
    requires |ups| <= |dir| && forall i :: 0 <= i < |ups| ==> ups[i] == ".."
    ensures Walk(dir, ups) == dir[..|dir| - |ups|]
  {
    if ups != [] {
      WalkUps(dir, ups[..|ups| - 1]);
    }
  }

  lemma NamesAfterUps(parts: seq<string>)
    requires Settled(false, parts)
    ensures forall i :: Ups(parts) <= i < |parts| ==> parts[i] != "." && parts[i] != ".."
  {
    var k := Ups(parts);
    forall i | k <= i < |parts| ensures parts[i] != "." && parts[i] != ".." {
      assert IsName(parts[i]);
      assert parts[k] != "..";
    }
  }

  lemma WalkSettled(dir: seq<string>, parts: seq<string>)
    requires Settled(false, parts) && Ups(parts) <= |dir|
    ensures Walk(dir, parts) == dir[..|dir| - Ups(parts)] + parts[Ups(parts)..]
  {
    hide Walk, Ups, Settled, Names;
    var k := Ups(parts);
    NamesAfterUps(parts);
    WalkAfter(dir, parts[..k], parts[k..]);
    assert parts[..k] + parts[k..] == parts;
    WalkUps(dir, parts[..k]);
    WalkNames(dir[..|dir| - k], parts[k..]);
  }

  ghost predicate LeadAlike(a: seq<string>, b: seq<string>) {
    forall dir :: Walk(dir, a) == Walk(dir, b)
  }

  /** Walking down from directories named by the empty string, which no component
      is, shows how far a settled list climbs and what it adds. */
  lemma SettledIsUnique(a: seq<string>, b: seq<string>)
    requires Settled(false, a) && Settled(false, b) && LeadAlike(a, b)
    ensures a == b
  {
    hide Walk;
    var j, k := Ups(a), Ups(b);
    var dir := seq(j + k, _ => "");
    WalkSettled(dir, a);
    WalkSettled(dir, b);
    assert Walk(dir, a) == Walk(dir, b);
    ClimbsAlike(a, j, b, k, dir);
    ClimbsAlike(b, k, a, j, dir);
    assert a == a[..j] + a[j..] && b == b[..k] + b[k..];
    assert a[..j] == b[..k];
    assert a[j..] == (dir[..|dir| - j] + a[j..])[|dir| - j..];
  }

  lemma ClimbsAlike(a: seq<string>, j: nat, b: seq<string>, k: nat, dir: seq<string>)
    requires Names(a) && Names(b) && j <= |a| && k <= |b| && |dir| == j + k
    requires forall i :: 0 <= i < |dir| ==> dir[i] == ""
    requires dir[..|dir| - j] + a[j..] == dir[..|dir| - k] + b[k..]
    ensures j >= k
  {
    var x, y := dir[..k] + a[j..], dir[..j] + b[k..];
    assert x == y && |x| >= k;
    assert forall i :: 0 <= i < |x| ==> (x[i] == "" <==> i < k);
    assert forall i :: 0 <= i < |y| ==> (y[i] == "" <==> i < j);
    assert j < |x| ==> (x[j] == "" <==> j < k) && (y[j] == "" <==> j < j);
  }

  /** An absolute path and a relative one part ways in a deep enough directory. */
  lemma AbsoluteIsNotRelative(p: Path, q: Path)
    requires Absolute(p) && !Absolute(q)
    ensures Rebuilt(p) != Rebuilt(q) && exists cwd :: Denotes(cwd, p) != Denotes(cwd, q)
  {
    var a, b := Resolve(true, Components(p)), Resolve(false, Components(q));
    ComponentsAreNames(p);
    ComponentsAreNames(q);
    ResolveSettled(true, Components(p));
    ResolveSettled(false, Components(q));
    ResolveAbsolute(Components(p));
    var cwd := seq(Ups(b) + |a| + 1, _ => "");
    ResolveRelative(cwd, Components(q));
    hide Components, Resolve, Walk;
    RenderReadsBack(true, a);
    RenderReadsBack(false, b);
    WalkSettled(cwd, b);
    assert |Denotes(cwd, q)| > |a| && Denotes(cwd, p) == a;
  }

  /** Two paths are rebuilt alike exactly when they denote the same place from
      every directory. */
  lemma OneFormPerMeaning(p: Path, q: Path)
    ensures Rebuilt(p) == Rebuilt(q) <==> forall cwd :: Denotes(cwd, p) == Denotes(cwd, q)
  {
    hide Rebuilt, Denotes;
    if Absolute(p) == Absolute(q) {
      OneFormAmongAlike(p, q);
    } else if Absolute(p) {
      AbsoluteIsNotRelative(p, q);
    } else {
      AbsoluteIsNotRelative(q, p);
    }
  }

  lemma OneFormAmongAlike(p: Path, q: Path)
    requires Absolute(p) == Absolute(q)
    ensures Rebuilt(p) == Rebuilt(q) <==> forall cwd :: Denotes(cwd, p) == Denotes(cwd, q)
  {
    var absolute := Absolute(p);
    var a, b := Resolve(absolute, Components(p)), Resolve(absolute, Components(q));
    ComponentsAreNames(p);
    ComponentsAreNames(q);
    ResolveSettled(absolute, Components(p));
    ResolveSettled(absolute, Components(q));
    hide Components, Resolve;
    RenderReadsBack(absolute, a);
    RenderReadsBack(absolute, b);
    if Rebuilt(p) == Rebuilt(q) {
      RenderInjective(absolute, a, b);
    }
    if absolute {
      ResolveAbsolute(Components(p));
      ResolveAbsolute(Components(q));
      assert Denotes([], p) == a && Denotes([], q) == b;
    } else {
      forall cwd ensures Denotes(cwd, p) == Walk(cwd, a) && Denotes(cwd, q) == Walk(cwd, b) {
        ResolveRelative(cwd, Components(p));
        ResolveRelative(cwd, Components(q));
      }
      if forall cwd :: Denotes(cwd, p) == Denotes(cwd, q) {
        assert LeadAlike(a, b);
        SettledIsUnique(a, b);
      }
    }
  }

  lemma RenderInjective(absolute: bool, a: seq<string>, b: seq<string>)
    requires Names(a) && Names(b) && Render(absolute, a) == Render(absolute, b)
    ensures a == b
  {
    RenderReadsBack(absolute, a);
    RenderReadsBack(absolute, b);
  }

  // ---- Paths relative to a working directory ----

  /** `cwd` is the cached working directory, or what the kernel reports; empty if neither is known. */
  method ResolvePath(cwd: Path, path: Path) returns (result: Path)
    ensures path == "" || (!Absolute(path) && cwd == "") ==> result == path
    ensures Absolute(path) ==> result == Normalized(path)
    ensures path != "" && !Absolute(path) && cwd != "" ==> result == Normalized(cwd + "/" + path)
  {
    if path == "" {
      return path;
    }
    var full;
    if path[0] == '/' {
      full := path;
    } else {
      if cwd == "" {
        return path;
      }
      full := cwd + "/" + path;
    }
    result := NormalizePath(full);
  }

  /** Prefixing the working directory denotes the path seen from that directory. */
  lemma PrefixedMeaning(base: seq<string>, cwd: Path, path: Path)
    requires cwd != "" && path != "" && !Absolute(path)
    ensures Denotes(base, Normalized(cwd + "/" + path)) == Denotes(Denotes(base, cwd), path)
  {
    MeaningKept(base, cwd + "/" + path);
    assert cwd + "/" + path == cwd + ("/" + path);
    ComponentsOfJoined(cwd, "/" + path);
    assert ("/" + path)[1..] == path;
    WalkAfter(if Absolute(cwd) then [] else base, Components(cwd), Components(path));
  }
}
