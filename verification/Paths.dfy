/**
 Absolute paths as text and as lists of components: where a comparison of texts agrees with one of
 components, and where it does not.
 */
module Paths {
  import opened Basics
  import opened Text

  function Join(components: seq<string>): string {
    if components == [] then "" else "/" + components[0] + Join(components[1..])
  }

  lemma {:induction false} JoinAppend(a: seq<string>, b: seq<string>)
    ensures Join(a + b) == Join(a) + Join(b)
  {
    if a == [] {
      assert a + b == b;
    } else {
      assert (a + b)[1..] == a[1..] + b;
      JoinAppend(a[1..], b);
    }
  }

  lemma JoinThree(a: string, b: string, c: string)
    ensures Join([a, b, c]) == "/" + a + "/" + b + "/" + c
  {
    assert [a, b, c][1..] == [b, c] && [b, c][1..] == [c] && [c][1..] == [];
    assert Join([c]) == "/" + c;
    assert Join([b, c]) == "/" + b + ("/" + c);
    assert Join([a, b, c]) == "/" + a + ("/" + b + ("/" + c));
  }

  predicate Slashless(components: seq<string>) {
    forall i | 0 <= i < |components| :: '/' !in components[i]
  }

  /** The components of the text of an absolute path, empty ones included. */
  function Components(s: string): (c: seq<string>)
    requires s == "" || s[0] == '/'
    ensures Slashless(c)
    decreases |s|
  {
    if s == "" then []
    else
      var n := IndexOf(s[1..], '/');
      assert '/' !in s[1..][..n];
      [s[1..][..n]] + Components(s[1..][n..])
  }

  lemma JoinCons(first: string, rest: seq<string>)
    ensures Join([first] + rest) == "/" + first + Join(rest)
  {
    assert ([first] + rest)[1..] == rest;
  }

  lemma FirstComponent(s: string, n: nat)
    requires s != "" && s[0] == '/' && n < |s|
    ensures s == "/" + s[1..][..n] + s[1..][n..]
  {
  }

  lemma {:induction false} JoinOfComponents(s: string)
    requires s == "" || s[0] == '/'
    ensures Join(Components(s)) == s
    decreases |s|
  {
    if s != "" {
      var n := IndexOf(s[1..], '/');
      JoinOfComponents(s[1..][n..]);
      JoinCons(s[1..][..n], Components(s[1..][n..]));
      FirstComponent(s, n);
    }
  }

  lemma ComponentsCons(first: string, rest: string)
    requires '/' !in first && (rest == "" || rest[0] == '/')
    ensures Components("/" + first + rest) == [first] + Components(rest)
  {
    var s := first + rest;
    if rest == "" {
      assert s == first;
    } else {
      assert s == first + ['/'] + rest[1..];
      IndexOfFirst(first, '/', rest[1..]);
    }
    assert IndexOf(s, '/') == |first|;
    assert ("/" + first + rest)[1..] == s;
    assert s[..|first|] == first && s[|first|..] == rest;
  }

  lemma SlashlessRest(c: seq<string>)
    requires Slashless(c) && c != []
    ensures Slashless(c[1..]) && '/' !in c[0]
  {
    assert forall i | 0 <= i < |c[1..]| :: c[1..][i] == c[i + 1];
  }

  /** Slashless components are read back from their text. */
  lemma {:induction false} ComponentsOfJoin(c: seq<string>)
    requires Slashless(c)
    ensures Components(Join(c)) == c
  {
    if c != [] {
      SlashlessRest(c);
      ComponentsOfJoin(c[1..]);
      ComponentsCons(c[0], Join(c[1..]));
      assert c == [c[0]] + c[1..];
    }
  }

  function Ups(n: nat): seq<string> {
    if n == 0 then [] else [".."] + Ups(n - 1)
  }

  // ---------------------------------------------------------------- what a path names

  /** The directory that one more component leads to. */
  function Enter(base: seq<string>, c: string): seq<string> {
    if c == "" || c == "." then base
    else if c != ".." then base + [c]
    else if base == [] then [] else base[..|base| - 1]
  }

  /** Where the components lead from a directory, with no symbolic links on the way. */
  function Resolve(base: seq<string>, components: seq<string>): seq<string>
    decreases |components|
  {
    if components == [] then base else Resolve(Enter(base, components[0]), components[1..])
  }

  predicate IsName(c: string) {
    c != "" && c != "." && c != ".." && '/' !in c
  }

  predicate Names(components: seq<string>) {
    forall i | 0 <= i < |components| :: IsName(components[i])
  }

  lemma {:induction false} NamesResolveToThemselves(base: seq<string>, components: seq<string>)
    requires Names(components)
    ensures Resolve(base, components) == base + components
    decreases |components|
  {
    if components != [] {
      assert IsName(components[0]);
      assert forall i | 0 <= i < |components[1..]| :: components[1..][i] == components[i + 1];
      NamesResolveToThemselves(base + [components[0]], components[1..]);
    }
  }

  lemma {:induction false} ResolveInParts(base: seq<string>, a: seq<string>, b: seq<string>)
    ensures Resolve(base, a + b) == Resolve(Resolve(base, a), b)
    decreases |a|
  {
    if a == [] {
      assert a + b == b;
    } else {
      assert (a + b)[1..] == a[1..] + b;
      ResolveInParts(Enter(base, a[0]), a[1..], b);
    }
  }

  // ---------------------------------------------------------------- walks that leave and come back

  /** How far below its start a walk has been, and the names it has entered above that lowest point. */
  datatype Route = Route(low: nat, tail: seq<string>) {

    function Then(c: string): Route {
      if c == "" || c == "." then this
      else if c != ".." then Route(low, tail + [c])
      else if tail != [] then Route(low, tail[..|tail| - 1])
      else Route(low + 1, [])
    }

    function Along(components: seq<string>): Route
      decreases |components|
    {
      if components == [] then this else Then(components[0]).Along(components[1..])
    }

    /** Where the walk ends when it starts at `base`; the root is its own parent. */
    function From(base: seq<string>): seq<string> {
      base[..|base| - Min(low, |base|)] + tail
    }
  }

  const STILL := Route(0, [])

  lemma {:induction false} WalkEnds(base: seq<string>, w: Route, components: seq<string>)
    ensures Resolve(w.From(base), components) == w.Along(components).From(base)
    decreases |components|
  {
    if components != [] {
      OneStep(base, w, components[0]);
      WalkEnds(base, w.Then(components[0]), components[1..]);
    }
  }

  lemma OneStep(base: seq<string>, w: Route, c: string)
    ensures Enter(w.From(base), c) == w.Then(c).From(base)
  {
    var at := w.From(base);
    if c == ".." && w.tail != [] {
      assert at[..|at| - 1] == base[..|base| - Min(w.low, |base|)] + w.tail[..|w.tail| - 1];
    } else if c == ".." && at != [] {
      assert at == base[..|base| - Min(w.low, |base|)];
      assert at[..|at| - 1] == base[..|base| - Min(w.low + 1, |base|)];
    }
  }

  /** How many names two paths share at the front. */
  function Shared(a: seq<string>, b: seq<string>): (n: nat)
    ensures n <= |a| && n <= |b| && a[..n] == b[..n]
    ensures n < |a| && n < |b| ==> a[n] != b[n]
  {
    if a == [] || b == [] || a[0] != b[0] then 0
    else
      var n := Shared(a[1..], b[1..]);
      assert a[..n + 1] == [a[0]] + a[1..][..n] && b[..n + 1] == [b[0]] + b[1..][..n];
      n + 1
  }

  /** From where it parts with `dir`, the path walks on, gives up some of the shared names, and ends
      below these and the rest of `dir` again. */
  predicate ComesBack(dir: seq<string>, path: seq<string>) {
    var n := Shared(dir, path);
    var w := STILL.Along(path[n..]);
    dir[n - Min(w.low, n)..] <= w.tail
  }

  lemma StillIsHere(base: seq<string>)
    ensures STILL.From(base) == base
  {
    assert base[..|base|] == base;
  }

  lemma ResolveIsARoute(base: seq<string>, components: seq<string>)
    ensures Resolve(base, components) == STILL.Along(components).From(base)
  {
    StillIsHere(base);
    WalkEnds(base, STILL, components);
  }

  lemma ResolveBelow(front: seq<string>, rest: seq<string>)
    requires Names(front)
    ensures Resolve([], front + rest) == STILL.Along(rest).From(front)
  {
    ResolveInParts([], front, rest);
    NamesResolveToThemselves([], front);
    assert [] + front == front;
    ResolveIsARoute(front, rest);
  }

  lemma PrefixFacts(dir: seq<string>, front: seq<string>, kept: nat)
    requires Names(dir) && front <= dir && kept <= |front|
    ensures Names(front) && front[..kept] == dir[..kept]
  {
    assert forall i | 0 <= i < |front| :: front[i] == dir[i];
  }

  lemma ResolveFromShared(dir: seq<string>, front: seq<string>, rest: seq<string>)
    requires Names(dir) && front <= dir
    ensures var w := STILL.Along(rest);
            Resolve([], front + rest) == dir[..|front| - Min(w.low, |front|)] + w.tail
  {
    PrefixFacts(dir, front, |front| - Min(STILL.Along(rest).low, |front|));
    ResolveBelow(front, rest);
  }

  /** An arbitrary path ends inside a directory exactly when its walk comes back to it. */
  lemma InsideIffItComesBack(dir: seq<string>, path: seq<string>)
    requires Names(dir)
    ensures dir <= Resolve([], path) <==> ComesBack(dir, path)
  {
    var n := Shared(dir, path);
    var front, rest := dir[..n], path[n..];
    var w := STILL.Along(rest);
    assert path == front + rest;
    ResolveFromShared(dir, front, rest);
    PrefixOfConcat(dir, n - Min(w.low, n), w.tail);
  }

  lemma PrefixOfConcat(dir: seq<string>, k: nat, tail: seq<string>)
    requires k <= |dir|
    ensures dir <= dir[..k] + tail <==> dir[k..] <= tail
  {
    assert dir == dir[..k] + dir[k..];
    var all := dir[..k] + tail;
    if dir <= all {
      assert all[k..] == tail && dir[k..] == all[..|dir|][k..];
    }
  }

  lemma SharedIsAll(dir: seq<string>, rest: seq<string>)
    ensures Shared(dir, dir + rest) == |dir|
  {
    assert forall i | 0 <= i < |dir| :: (dir + rest)[i] == dir[i];
  }

  /** For a path that starts with the directory: it may go up only as far as it names again. */
  lemma BelowComesBack(dir: seq<string>, rest: seq<string>)
    ensures ComesBack(dir, dir + rest) <==>
              var w := STILL.Along(rest); dir[|dir| - Min(w.low, |dir|)..] <= w.tail
  {
    SharedIsAll(dir, rest);
    assert (dir + rest)[|dir|..] == rest;
  }

  /** All the way up and then to one name. */
  lemma {:induction false} UpsThenName(w: Route, n: nat, name: string)
    requires w.tail == [] && IsName(name)
    ensures w.Along(Ups(n) + [name]) == Route(w.low + n, [name])
    decreases n
  {
    var path := Ups(n) + [name];
    if n == 0 {
      assert path == [name] && path[1..] == [];
      assert [] + [name] == [name];
    } else {
      assert path[0] == ".." && path[1..] == Ups(n - 1) + [name];
      UpsThenName(w.Then(".."), n - 1, name);
    }
  }

  // ---------------------------------------------------------------- comparing texts

  /** A path beside `dir` or below such a one, whose name goes on where the last name of `dir` ends. */
  predicate BesideWithLongerName(path: seq<string>, dir: seq<string>) {
    && dir != [] && |path| >= |dir| && path[..|dir| - 1] == dir[..|dir| - 1]
    && path[|dir| - 1] != dir[|dir| - 1] && StartsWith(path[|dir| - 1], dir[|dir| - 1])
  }

  /** The text of one path starts with that of another exactly when it lies inside, or beside it
      under a longer name. */
  lemma {:induction false} TextPrefixIff(path: seq<string>, dir: seq<string>)
    requires Slashless(path) && Slashless(dir)
    ensures StartsWith(Join(path), Join(dir)) <==> dir <= path || BesideWithLongerName(path, dir)
    decreases |dir|
  {
    if dir != [] && path != [] {
      var p, d := path[0], dir[0];
      var x, y := Join(path[1..]), Join(dir[1..]);
      assert forall i | 0 <= i < |path[1..]| :: path[1..][i] == path[i + 1];
      assert forall i | 0 <= i < |dir[1..]| :: dir[1..][i] == dir[i + 1];
      FirstNames(p, x, d, y);
      TextPrefixIff(path[1..], dir[1..]);
      if p == d {
        UnderOneName(path, dir);
      } else if y == "" {
        assert dir[1..] == [];
      }
    }
  }

  lemma UnderOneName(path: seq<string>, dir: seq<string>)
    requires path != [] && dir != [] && path[0] == dir[0]
    ensures dir <= path <==> dir[1..] <= path[1..]
    ensures BesideWithLongerName(path, dir) <==> BesideWithLongerName(path[1..], dir[1..])
  {
    var p, d := path[1..], dir[1..];
    assert path == [path[0]] + p && dir == [dir[0]] + d;
    if |dir| > 1 && |path| >= |dir| {
      assert path[..|dir| - 1] == [path[0]] + p[..|d| - 1] && dir[..|dir| - 1] == [dir[0]] + d[..|d| - 1];
    }
  }

  /** Two texts that begin with a name each. */
  lemma FirstNames(p: string, x: string, d: string, y: string)
    requires '/' !in p && '/' !in d && (x == "" || x[0] == '/') && (y == "" || y[0] == '/')
    ensures StartsWith("/" + p + x, "/" + d + y) <==>
              if p == d then StartsWith(x, y) else y == "" && StartsWith(p, d)
  {
    var a, b := "/" + p + x, "/" + d + y;
    if p == d {
      CommonFront("/" + p, x, y);
    } else {
      if StartsWith(a, b) {
        assert forall i | 0 <= i < |b| :: a[i] == b[i];
        NamesDifferEarly(p, x, d, y);
      }
      if y == "" && StartsWith(p, d) {
        assert a[..|b|] == "/" + p[..|d|];
      }
    }
  }

  lemma CommonFront(front: string, x: string, y: string)
    ensures StartsWith(front + x, front + y) <==> StartsWith(x, y)
  {
    var a, b := front + x, front + y;
    if StartsWith(a, b) {
      assert x[..|y|] == a[..|b|][|front|..];
    }
    if StartsWith(x, y) {
      assert a[..|b|] == front + x[..|y|];
    }
  }

  lemma NamesDifferEarly(p: string, x: string, d: string, y: string)
    requires '/' !in p && '/' !in d && (x == "" || x[0] == '/') && (y == "" || y[0] == '/') && p != d
    requires var a, b := "/" + p + x, "/" + d + y; |b| <= |a| && forall i | 0 <= i < |b| :: a[i] == b[i]
    ensures y == "" && StartsWith(p, d)
  {
    var a, b := "/" + p + x, "/" + d + y;
    assert forall i | 0 <= i < |y| :: b[1 + |d| + i] == y[i];
    assert forall i | 0 <= i < |d| :: b[1 + i] == d[i];
    assert forall i | 0 <= i < |p| :: a[1 + i] == p[i];
    assert x != "" ==> a[1 + |p|] == '/';
    assert |d| <= |p| && p[..|d|] == d;
  }
}
