/** File names as Go's path/filepath package treats them on Unix. */
module Paths {
  import opened Options

  predicate IsAbs(p: string) {
    |p| > 0 && p[0] == '/'
  }

  // ----- Clean -----

  /** The components between slashes; consecutive slashes give empty components. */
  function Split(s: string): (parts: seq<string>)
    ensures |parts| > 0
  {
    if s == "" then [""]
    else
      var rest := Split(s[1..]);
      if s[0] == '/' then [""] + rest else [[s[0]] + rest[0]] + rest[1..]
  }

  function Join(parts: seq<string>): string {
    if |parts| == 0 then ""
    else if |parts| == 1 then parts[0]
    else parts[0] + "/" + Join(parts[1..])
  }

  /** Drops "" and ".", and lets ".." cancel the component before it. */
  function Resolve(parts: seq<string>, rooted: bool, acc: seq<string>): seq<string> {
    if parts == [] then acc
    else Resolve(parts[1..], rooted, Absorb(parts[0], rooted, acc))
  }

  function Absorb(part: string, rooted: bool, acc: seq<string>): seq<string> {
    if part == "" || part == "." then acc
    else if part != ".." then acc + [part]
    else if |acc| > 0 && acc[|acc| - 1] != ".." then acc[..|acc| - 1]
    else if rooted then acc
    else acc + [".."]
  }

  function Clean(p: string): string {
    var body := Join(Resolve(Split(p), IsAbs(p), []));
    if IsAbs(p) then "/" + body else if body == "" then "." else body
  }

  /** What Resolve leaves: real names, preceded by ".." only in a relative path. */
  ghost predicate Canonical(parts: seq<string>, rooted: bool) {
    forall i :: 0 <= i < |parts| ==>
      && '/' !in parts[i] && parts[i] != "" && parts[i] != "."
      && (parts[i] == ".." ==> !rooted && (i == 0 || parts[i - 1] == ".."))
  }

  lemma {:induction false} SplitHasNoSlash(s: string)
    ensures forall part :: part in Split(s) ==> '/' !in part
  {
    if s != "" {
      SplitHasNoSlash(s[1..]);
      assert Split(s[1..])[0] in Split(s[1..]);
    }
  }

  lemma {:induction false} SplitOne(a: string)
    requires '/' !in a
    ensures Split(a) == [a]
  {
    if a != "" {
      SplitOne(a[1..]);
      assert [a[0]] + a[1..] == a;
    }
  }

  lemma {:induction false} SplitConcat(p: string, q: string)
    ensures Split(p + "/" + q) == Split(p) + Split(q)
  {
    var whole := p + "/" + q;
    if p == "" {
      assert whole[1..] == q;
    } else {
      assert whole[1..] == p[1..] + "/" + q;
      SplitConcat(p[1..], q);
    }
  }

  lemma {:induction false} SplitJoin(parts: seq<string>)
    requires |parts| > 0 && forall part :: part in parts ==> '/' !in part
    ensures Split(Join(parts)) == parts
  {
    if |parts| == 1 {
      SplitOne(parts[0]);
    } else {
      SplitJoin(parts[1..]);
      SplitConcat(parts[0], Join(parts[1..]));
      SplitOne(parts[0]);
    }
  }

  lemma {:induction false} ResolveIsCanonical(parts: seq<string>, rooted: bool, acc: seq<string>)
    requires Canonical(acc, rooted) && forall part :: part in parts ==> '/' !in part
    ensures Canonical(Resolve(parts, rooted, acc), rooted)
  {
    if parts != [] {
      assert parts[0] in parts;
      ResolveIsCanonical(parts[1..], rooted, Absorb(parts[0], rooted, acc));
    }
  }

  lemma {:induction false} ResolveKeepsCanonical(parts: seq<string>, rooted: bool, acc: seq<string>)
    requires Canonical(acc + parts, rooted)
    ensures Resolve(parts, rooted, acc) == acc + parts
  {
    if parts != [] {
      assert (acc + parts)[|acc|] == parts[0];
      assert |acc| > 0 ==> (acc + parts)[|acc| - 1] == acc[|acc| - 1];
      assert Absorb(parts[0], rooted, acc) == acc + [parts[0]];
      assert acc + [parts[0]] + parts[1..] == acc + parts;
      ResolveKeepsCanonical(parts[1..], rooted, acc + [parts[0]]);
    } else {
      assert acc + parts == acc;
    }
  }

  lemma JoinOfCanonical(parts: seq<string>, rooted: bool)
    requires Canonical(parts, rooted)
    ensures !IsAbs(Join(parts)) && (Join(parts) == "" <==> parts == [])
    ensures Resolve(Split(Join(parts)), rooted, []) == parts
  {
    if parts == [] {
      assert Resolve([""], rooted, []) == Resolve([], rooted, []) == [];
    } else {
      assert parts[0] in parts && parts[0] != "" && parts[0][0] != '/';
      SplitJoin(parts);
      assert [] + parts == parts;
      ResolveKeepsCanonical(parts, rooted, []);
    }
  }

  /** Cleaning a cleaned path changes nothing, and cleaning keeps a path absolute or relative. */
  lemma CleanIdempotent(p: string)
    ensures Clean(Clean(p)) == Clean(p)
    ensures IsAbs(Clean(p)) <==> IsAbs(p)
  {
    var rooted := IsAbs(p);
    var parts := Resolve(Split(p), rooted, []);
    SplitHasNoSlash(p);
    ResolveIsCanonical(Split(p), rooted, []);
    JoinOfCanonical(parts, rooted);
    if rooted {
      assert Clean(p)[1..] == Join(parts);
      assert Split(Clean(p)) == [""] + Split(Join(parts));
      assert Resolve(Split(Clean(p)), true, []) == Resolve(Split(Join(parts)), true, []);
    } else if parts == [] {
      assert Resolve(["."], false, []) == Resolve([], false, []) == [];
      SplitOne(".");
    }
  }

  lemma {:induction false} ResolveSkipsEmpty(xs: seq<string>, ys: seq<string>, rooted: bool, acc: seq<string>)
    ensures Resolve(xs + [""] + ys, rooted, acc) == Resolve(xs + ys, rooted, acc)
  {
    if xs == [] {
      assert ([""] + ys)[1..] == ys;
      assert [] + [""] + ys == [""] + ys && [] + ys == ys;
    } else {
      assert (xs + [""] + ys)[1..] == xs[1..] + [""] + ys;
      assert (xs + ys)[1..] == xs[1..] + ys;
      ResolveSkipsEmpty(xs[1..], ys, rooted, Absorb(xs[0], rooted, acc));
    }
  }

  /** A doubled slash spells the same path, anywhere in any path. */
  lemma DoubleSlash(p: string, q: string)
    ensures Clean(p + "//" + q) == Clean(p + "/" + q)
  {
    assert p + "//" + q == p + "/" + ("/" + q) && "/" + q == "" + "/" + q;
    SplitConcat(p, "/" + q);
    SplitConcat("", q);
    SplitConcat(p, q);
    assert Split(p + "//" + q) == Split(p) + [""] + Split(q);
    ResolveSkipsEmpty(Split(p), Split(q), IsAbs(p + "/" + q), []);
  }

  /** A name followed by ".." leaves no trace, anywhere in any list of components. */
  lemma {:induction false} ResolveParentStep(xs: seq<string>, x: string, ys: seq<string>, rooted: bool, acc: seq<string>)
    requires PlainName(x)
    ensures Resolve(xs + [x, ".."] + ys, rooted, acc) == Resolve(xs + ys, rooted, acc)
  {
    var all := xs + [x, ".."] + ys;
    if xs == [] {
      assert all[0] == x && all[1..] == [".."] + ys && all[1..][0] == ".." && all[1..][1..] == ys && xs + ys == ys;
      assert Absorb("..", rooted, acc + [x]) == acc;
    } else {
      assert all[1..] == xs[1..] + [x, ".."] + ys && (xs + ys)[1..] == xs[1..] + ys;
      ResolveParentStep(xs[1..], x, ys, rooted, Absorb(xs[0], rooted, acc));
    }
  }

  lemma {:induction false} ResolveSkipsDot(xs: seq<string>, ys: seq<string>, rooted: bool, acc: seq<string>)
    ensures Resolve(xs + ["."] + ys, rooted, acc) == Resolve(xs + ys, rooted, acc)
  {
    var all := xs + ["."] + ys;
    if xs == [] {
      assert all[0] == "." && all[1..] == ys && xs + ys == ys;
    } else {
      assert all[1..] == xs[1..] + ["."] + ys && (xs + ys)[1..] == xs[1..] + ys;
      ResolveSkipsDot(xs[1..], ys, rooted, Absorb(xs[0], rooted, acc));
    }
  }

  lemma SplitThree(p: string, x: string, q: string)
    requires '/' !in x
    ensures Split(p + "/" + x + "/" + q) == Split(p) + [x] + Split(q)
  {
    assert p + "/" + x + "/" + q == p + "/" + (x + "/" + q);
    SplitConcat(p, x + "/" + q);
    SplitConcat(x, q);
    SplitOne(x);
  }

  /** Going into a directory and back out again spells the same path. */
  lemma ParentStep(p: string, x: string, q: string)
    requires PlainName(x)
    ensures Clean(p + "/" + x + "/../" + q) == Clean(p + "/" + q)
  {
    hide Resolve, Absorb, Join;
    assert p + "/" + x + "/../" + q == p + "/" + x + "/" + ("../" + q) && "../" + q == ".." + "/" + q;
    SplitThree(p, x, "../" + q);
    SplitConcat("..", q);
    SplitOne("..");
    SplitConcat(p, q);
    assert Split(p) + [x] + ([".."] + Split(q)) == Split(p) + [x, ".."] + Split(q);
    ResolveParentStep(Split(p), x, Split(q), IsAbs(p + "/" + q), []);
  }

  lemma DotStep(p: string, q: string)
    ensures Clean(p + "/./" + q) == Clean(p + "/" + q)
  {
    hide Resolve, Absorb, Join;
    assert p + "/./" + q == p + "/" + "." + "/" + q;
    SplitThree(p, ".", q);
    SplitConcat(p, q);
    ResolveSkipsDot(Split(p), Split(q), IsAbs(p + "/" + q), []);
  }

  /** The root is its own parent. */
  lemma RootParent(q: string)
    ensures Clean("/../" + q) == Clean("/" + q)
  {
    hide Absorb, Join;
    assert "/../" + q == "" + "/" + ".." + "/" + q && "/" + q == "" + "/" + q;
    SplitThree("", "..", q);
    SplitConcat("", q);
    assert Split("/../" + q) == ["", ".."] + Split(q) && Split("/" + q) == [""] + Split(q);
    RootSteps(Split(q));
  }

  lemma RootSteps(parts: seq<string>)
    ensures Resolve(["", ".."] + parts, true, []) == Resolve(parts, true, []) == Resolve([""] + parts, true, [])
  {
    var a, b := ["", ".."] + parts, [""] + parts;
    assert a[0] == "" && a[1..] == [".."] + parts && a[1..][0] == ".." && a[1..][1..] == parts;
    assert b[0] == "" && b[1..] == parts;
    assert Absorb("..", true, []) == [] == Absorb("", true, []);
  }

  /** A relative path keeps its names and its leading steps up; with none left it is the current directory. */
  lemma CleanOfRelative(parts: seq<string>)
    requires Canonical(parts, false)
    ensures Clean(Join(parts)) == if parts == [] then "." else Join(parts)
  {
    JoinOfCanonical(parts, false);
  }

  lemma CleanOfCanonical(parts: seq<string>)
    requires Canonical(parts, true)
    ensures Clean("/" + Join(parts)) == "/" + Join(parts)
  {
    var p := "/" + Join(parts);
    JoinOfCanonical(parts, true);
    assert p[1..] == Join(parts);
    assert Resolve(Split(p), true, []) == Resolve(Split(Join(parts)), true, []);
  }

  predicate PlainName(part: string) {
    '/' !in part && part !in ["", ".", ".."]
  }

  lemma CleanOfTwo(a: string, b: string)
    requires PlainName(a) && PlainName(b)
    ensures Clean("/" + a + "/" + b) == "/" + a + "/" + b
  {
    assert Join([b]) == b && Join([a, b]) == a + "/" + b;
    assert "/" + (a + "/" + b) == "/" + a + "/" + b;
    CleanOfCanonical([a, b]);
  }

  // ----- Joining -----

  function DropEmpty(parts: seq<string>): seq<string> {
    if parts != [] && parts[0] == "" then DropEmpty(parts[1..]) else parts
  }

  /** path.Join: empty elements at the front do not count. */
  function JoinAll(parts: seq<string>): string {
    var rest := DropEmpty(parts);
    if rest == [] then "" else Clean(Join(rest))
  }

  // ----- Abs -----

  /** filepath.Abs: a relative path is joined to the working directory, which may be unknown. */
  function Abs(cwd: Option<string>, p: string): Option<string> {
    if IsAbs(p) then Some(Clean(p))
    else if cwd.None? then None
    else if cwd.value == "" then Some(Clean(p))
    else Some(Clean(cwd.value + "/" + p))
  }

  /** An absolute path is cleaned; a relative one means the same as written out in full under the working directory. */
  lemma AbsIs(cwd: string, p: string)
    requires IsAbs(cwd)
    ensures var abs := if IsAbs(p) then Clean(p) else Clean(cwd + "/" + p);
      Abs(Some(cwd), p) == Some(abs) && IsAbs(abs)
    ensures IsAbs(p) ==> Abs(None, p) == Some(Clean(p))
  {
    CleanIdempotent(cwd + "/" + p);
    CleanIdempotent(p);
  }

  // ----- Base and Dir -----

  /** Index of the last slash, or -1. */
  function LastSlash(p: string): (i: int)
    ensures -1 <= i < |p|
    ensures i >= 0 ==> p[i] == '/'
    ensures forall k :: i < k < |p| ==> p[k] != '/'
  {
    if p == "" then -1
    else if p[|p| - 1] == '/' then |p| - 1
    else LastSlash(p[..|p| - 1])
  }

  function TrimSlashes(p: string): string {
    if p != "" && p[|p| - 1] == '/' then TrimSlashes(p[..|p| - 1]) else p
  }

  function Base(p: string): string {
    if p == "" then "."
    else
      var q := TrimSlashes(p);
      if q == "" then "/" else q[LastSlash(q) + 1..]
  }

  function Dir(p: string): string {
    Clean(p[..LastSlash(p) + 1])
  }

  /** The parent and the name of a child, whatever the parent. */
  lemma DirAndBaseOfChild(p: string, name: string)
    requires '/' !in name
    ensures Dir(p + "/" + name) == Clean(p + "/")
    ensures name != "" ==> Base(p + "/" + name) == name && Base(name) == name
    ensures Dir(name) == "."
  {
    hide Clean;
    var path := p + "/" + name;
    LastSlashBefore(p + "/", name);
    assert path[..|p| + 1] == p + "/" && path[|p| + 1..] == name;
    LastSlashBefore("", name);
    assert "" + name == name && name[..0] == "" && name[0..] == name;
    if name != "" { assert path[|path| - 1] == name[|name| - 1]; }
    assert Clean("") == "." by { CleanOfNothing(); }
  }

  lemma CleanOfNothing()
    ensures Clean("") == "." && Clean("/") == "/"
  {
    assert Resolve([""], false, []) == Resolve([], false, []) == [];
    assert "/"[1..] == "" && Split("/") == ["", ""];
    assert ["", ""][1..] == [""] && [""][1..] == [];
    assert Resolve(["", ""], true, []) == Resolve([""], true, []) == Resolve([], true, []) == [];
  }

  /** Trailing slashes do not matter to the name. */
  lemma BaseIgnoresTrailingSlash(p: string)
    requires p != ""
    ensures Base(p + "/") == Base(p) && Base("/") == "/" && Base("") == "."
  {
    assert (p + "/")[..|p|] == p;
    assert "/"[..0] == "";
  }

  // ----- Temporary names -----

  const TMP := ".tmp."

  predicate TmpAt(name: string, i: nat)
    requires i <= |name| - |TMP|
  {
    name[i..i + |TMP|] == TMP
  }

  /** The glob pattern *.tmp.* on a name without slashes. */
  predicate MatchesTmp(name: string) {
    exists i :: 0 <= i <= |name| - |TMP| && TmpAt(name, i)
  }

  function TempName(path: string, suffix: string): string {
    path + TMP + suffix
  }

  predicate IsTemp(path: string) {
    MatchesTmp(Base(path))
  }

  lemma {:induction false} LastSlashBefore(p: string, tail: string)
    requires '/' !in tail
    ensures LastSlash(p + tail) == LastSlash(p)
  {
    if tail == "" {
      assert p + tail == p;
    } else {
      var n := |tail| - 1;
      assert (p + tail)[..|p + tail| - 1] == p + tail[..n];
      LastSlashBefore(p, tail[..n]);
    }
  }

  lemma TmpAfter(name: string, suffix: string)
    ensures MatchesTmp(name + (TMP + suffix))
  {
    var s := name + (TMP + suffix);
    assert s[|name|..] == TMP + suffix;
    assert s[|name|..|name| + |TMP|] == s[|name|..][..|TMP|] == TMP;
    assert TmpAt(s, |name|);
  }

  lemma TempBase(path: string, suffix: string)
    requires '/' !in suffix
    ensures LastSlash(TempName(path, suffix)) == LastSlash(path)
    ensures Base(TempName(path, suffix)) == path[LastSlash(path) + 1..] + (TMP + suffix)
  {
    var temp := TempName(path, suffix);
    var tail := TMP + suffix;
    assert temp == path + tail && temp[|temp| - 1] == tail[|tail| - 1];
    LastSlashBefore(path, tail);
    assert TrimSlashes(temp) == temp;
    assert temp[LastSlash(path) + 1..] == path[LastSlash(path) + 1..] + tail;
  }

  /** What the glob pattern means: the literal infix between any two strings. */
  lemma MatchesTmpIff(name: string)
    ensures MatchesTmp(name) <==> exists a: string, b: string :: name == a + (".tmp." + b)
  {
    if MatchesTmp(name) {
      var i :| 0 <= i <= |name| - |TMP| && TmpAt(name, i);
      assert name == name[..i] + (".tmp." + name[i + 5..]);
    }
    if a: string, b: string :| name == a + (".tmp." + b) { TmpAfter(a, b); }
  }

  /** A temp file lies in the directory of its target and its name matches the sweep's pattern. */
  lemma TempNameIsSwept(path: string, suffix: string)
    requires '/' !in suffix
    ensures Dir(TempName(path, suffix)) == Dir(path)
    ensures IsTemp(TempName(path, suffix))
  {
    hide Clean, TempName, Base, MatchesTmp;
    TempBase(path, suffix);
    TmpAfter(path[LastSlash(path) + 1..], suffix);
    var i := LastSlash(path) + 1;
    assert TempName(path, suffix)[..i] == path[..i] by { TempPrefix(path, suffix, i); }
  }

  lemma TempPrefix(path: string, suffix: string, i: nat)
    requires i <= |path|
    ensures i <= |TempName(path, suffix)| && TempName(path, suffix)[..i] == path[..i]
  {
  }
}
