/** Path normalization (kernel/fs/path.c) and the choice of a mount (kernel/fs/vfs.c).
 *
 *  A path is a sequence of characters without the terminating NUL.
 */
module PathSpec {
  import opened Options

  const WORK: nat := 512
  const MAX_COMPONENTS: nat := 32

  type Name = string

  // ---- Components -----------------------------------------------------------------

  /** Length of the part before the first slash. */
  function NameLen(s: string): (n: nat)
    ensures n <= |s| && (n < |s| ==> s[n] == '/') && forall k :: 0 <= k < n ==> s[k] != '/'
  {
    if s == [] || s[0] == '/' then 0 else 1 + NameLen(s[1..])
  }

  /** The non-empty parts between slashes. */
  function Comps(s: string): (cs: seq<Name>)
    ensures forall i :: 0 <= i < |cs| ==> IsName(cs[i])
  {
    if s == [] then []
    else if s[0] == '/' then Comps(s[1..])
    else [s[..NameLen(s)]] + Comps(s[NameLen(s)..])
  }

  predicate IsName(c: Name) {
    c != [] && '/' !in c
  }

  /** A component that stands for itself. */
  predicate IsEntry(c: Name) {
    IsName(c) && c != "." && c != ".."
  }

  ghost predicate Entries(cs: seq<Name>) {
    forall i :: 0 <= i < |cs| ==> IsEntry(cs[i])
  }

  /** "/a/b/c" without the special case of the root. */
  function Glue(cs: seq<Name>): (s: string) {
    if cs == [] then "" else Glue(cs[..|cs| - 1]) + "/" + cs[|cs| - 1]
  }

  function Join(cs: seq<Name>): (s: string) {
    if cs == [] then "/" else Glue(cs)
  }

  // ---- The component stack --------------------------------------------------------

  /** Apply components to a stack; `None` when it would grow past its capacity. */
  function Walk(stack: seq<Name>, cs: seq<Name>): (r: Option<seq<Name>>)
    decreases |cs|
  {
    if cs == [] then Some(stack)
    else if cs[0] == "." then Walk(stack, cs[1..])
    else if cs[0] == ".." then Walk(if stack == [] then [] else stack[..|stack| - 1], cs[1..])
    else if |stack| >= MAX_COMPONENTS then None
    else Walk(stack + [cs[0]], cs[1..])
  }

  datatype Result = Ok(path: string) | Invalid | TooLong

  /** The working copy: the path itself if absolute, else the base, a slash and the path. */
  function Work(cwd: string, path: string): (w: Option<string>) {
    if path != [] && path[0] == '/' then if |path| >= WORK then None else Some(path)
    else
      var base := if cwd == [] then "/" else cwd;
      if |base| >= WORK - 2 || |base| + 1 + |path| >= WORK then None else Some(base + "/" + path)
  }

  function Resolve(cwd: string, path: string, outSize: nat): (r: Result) {
    if outSize < 2 then Invalid
    else
      match Work(cwd, path)
      case None => TooLong
      case Some(w) =>
        match Walk([], Comps(w))
        case None => TooLong
        case Some(stack) => if stack != [] && |Join(stack)| >= outSize then TooLong else Ok(Join(stack))
  }

  // ---- Splitting and joining ------------------------------------------------------

  lemma {:induction false} NameLenOf(c: Name, s: string)
    requires '/' !in c && (s == [] || s[0] == '/')
    ensures NameLen(c + s) == |c|
  {
    if c != [] {
      assert (c + s)[1..] == c[1..] + s;
      assert c[0] in c;
      NameLenOf(c[1..], s);
    } else {
      assert c + s == s;
    }
  }

  lemma {:induction false} CompsName(c: Name, s: string)
    requires IsName(c) && (s == [] || s[0] == '/')
    ensures Comps(c + s) == [c] + Comps(s)
  {
    NameLenOf(c, s);
    assert (c + s)[0] == c[0] && c[0] in c;
    assert (c + s)[..|c|] == c && (c + s)[|c|..] == s;
  }

  /** Splitting distributes over a slash. */
  lemma {:induction false} CompsSlash(a: string, b: string)
    ensures Comps(a + "/" + b) == Comps(a) + Comps(b)
    decreases |a|
  {
    var w := a + "/" + b;
    if a == [] {
      assert w[1..] == b;
    } else if a[0] == '/' {
      assert w[1..] == a[1..] + "/" + b;
      CompsSlash(a[1..], b);
    } else {
      var n := NameLen(a);
      var c, rest := a[..n], a[n..];
      CompsSlash(rest, b);
      var tail := rest + "/" + b;
      assert w == c + tail;
      assert tail[0] == '/';
      CompsName(c, tail);
      assert a == c + rest;
      CompsName(c, rest);
      assert [c] + (Comps(rest) + Comps(b)) == [c] + Comps(rest) + Comps(b);
    }
  }

  lemma {:induction false} CompsOne(c: Name)
    requires IsName(c)
    ensures Comps(c) == [c]
  {
    CompsName(c, []);
    assert c + [] == c;
  }

  /** Round trip: splitting a joined path gives its components back. */
  lemma {:induction false} CompsGlue(cs: seq<Name>)
    requires forall i :: 0 <= i < |cs| ==> IsName(cs[i])
    ensures Comps(Glue(cs)) == cs && Comps(Join(cs)) == cs
  {
    hide Comps;
    if cs == [] {
      NoComps();
      RootComps();
    } else {
      var front, c := cs[..|cs| - 1], cs[|cs| - 1];
      CompsGlue(front);
      CompsSlash(Glue(front), c);
      CompsOne(c);
    }
  }

  // ---- The walk -------------------------------------------------------------------

  /** Walking is done piece by piece: the meaning of a path in a directory. */
  lemma {:induction false} WalkConcat(stack: seq<Name>, a: seq<Name>, b: seq<Name>)
    ensures Walk(stack, a + b) == match Walk(stack, a) case None => None case Some(s) => Walk(s, b)
    decreases |a|
  {
    if a == [] {
      assert a + b == b;
    } else {
      assert (a + b)[1..] == a[1..] + b && (a + b)[0] == a[0];
      if a[0] == "." {
        WalkConcat(stack, a[1..], b);
      } else if a[0] == ".." {
        WalkConcat(if stack == [] then [] else stack[..|stack| - 1], a[1..], b);
      } else if |stack| < MAX_COMPONENTS {
        WalkConcat(stack + [a[0]], a[1..], b);
      }
    }
  }

  /** The stack only ever holds entries, at most 32 of them. */
  lemma {:induction false} WalkEntries(stack: seq<Name>, cs: seq<Name>)
    requires Entries(stack) && |stack| <= MAX_COMPONENTS && forall i :: 0 <= i < |cs| ==> IsName(cs[i])
    ensures Walk(stack, cs).Some? ==> Entries(Walk(stack, cs).value) && |Walk(stack, cs).value| <= MAX_COMPONENTS
    decreases |cs|
  {
    if cs != [] {
      assert IsName(cs[0]);
      if cs[0] == "." {
        WalkEntries(stack, cs[1..]);
      } else if cs[0] == ".." {
        WalkEntries(if stack == [] then [] else stack[..|stack| - 1], cs[1..]);
      } else if |stack| < MAX_COMPONENTS {
        WalkEntries(stack + [cs[0]], cs[1..]);
      }
    }
  }

  /** Walking entries pushes them one by one. */
  lemma {:induction false} WalkPushes(stack: seq<Name>, cs: seq<Name>)
    requires Entries(cs)
    ensures Walk(stack, cs) == if |stack| + |cs| <= MAX_COMPONENTS || cs == [] then Some(stack + cs) else None
    decreases |cs|
  {
    if cs == [] {
      assert stack + [] == stack;
    } else {
      assert IsEntry(cs[0]);
      if |stack| < MAX_COMPONENTS {
        WalkPushes(stack + [cs[0]], cs[1..]);
        assert stack + [cs[0]] + cs[1..] == stack + cs;
      }
    }
  }

  /** Depth after the components, without a bound. */
  function Height(h: nat, cs: seq<Name>): (r: nat)
    decreases |cs|
  {
    if cs == [] then h
    else if cs[0] == "." then Height(h, cs[1..])
    else if cs[0] == ".." then Height(if h == 0 then 0 else h - 1, cs[1..])
    else Height(h + 1, cs[1..])
  }

  /** Some prefix of the components climbs above the capacity. */
  ghost predicate TooDeep(h: nat, cs: seq<Name>) {
    exists k :: 0 <= k <= |cs| && Height(h, cs[..k]) > MAX_COMPONENTS
  }

  lemma {:induction false} TooDeepStep(h: nat, next: nat, cs: seq<Name>)
    requires cs != [] && h <= MAX_COMPONENTS
    requires next == if cs[0] == "." then h else if cs[0] == ".." then (if h == 0 then 0 else h - 1) else h + 1
    ensures TooDeep(h, cs) <==> TooDeep(next, cs[1..])
  {
    forall k | 0 <= k <= |cs| - 1 ensures Height(h, cs[..k + 1]) == Height(next, cs[1..][..k]) {
      assert cs[..k + 1][1..] == cs[1..][..k];
    }
    if TooDeep(h, cs) {
      var k :| 0 <= k <= |cs| && Height(h, cs[..k]) > MAX_COMPONENTS;
      assert k > 0;
      assert Height(next, cs[1..][..k - 1]) > MAX_COMPONENTS;
    }
    if TooDeep(next, cs[1..]) {
      var k :| 0 <= k <= |cs[1..]| && Height(next, cs[1..][..k]) > MAX_COMPONENTS;
      assert Height(h, cs[..k + 1]) > MAX_COMPONENTS;
    }
  }

  /** The walk fails exactly when some prefix is too deep; otherwise it ends at the height. */
  lemma {:induction false} WalkFailsIff(stack: seq<Name>, cs: seq<Name>)
    requires |stack| <= MAX_COMPONENTS
    ensures Walk(stack, cs) == None <==> TooDeep(|stack|, cs)
    ensures Walk(stack, cs).Some? ==> |Walk(stack, cs).value| == Height(|stack|, cs)
    decreases |cs|
  {
    hide TooDeep;
    if cs == [] {
      NotTooDeep(|stack|);
    } else if cs[0] == "." {
      TooDeepStep(|stack|, |stack|, cs);
      WalkFailsIff(stack, cs[1..]);
    } else if cs[0] == ".." {
      var s := if stack == [] then [] else stack[..|stack| - 1];
      TooDeepStep(|stack|, |s|, cs);
      WalkFailsIff(s, cs[1..]);
    } else {
      TooDeepStep(|stack|, |stack| + 1, cs);
      if |stack| < MAX_COMPONENTS {
        WalkFailsIff(stack + [cs[0]], cs[1..]);
      } else {
        AtOnce(|stack| + 1, cs[1..]);
      }
    }
  }

  lemma {:induction false} NotTooDeep(h: nat)
    requires h <= MAX_COMPONENTS
    ensures !TooDeep(h, [])
  {
  }

  lemma {:induction false} AtOnce(h: nat, cs: seq<Name>)
    requires h > MAX_COMPONENTS
    ensures TooDeep(h, cs)
  {
    assert cs[..0] == [];
    assert Height(h, cs[..0]) > MAX_COMPONENTS;
  }

  // ---- What the dots do -----------------------------------------------------------

  /** The components read from the end: each ".." drops the nearest entry before it that no
   *  other ".." drops, and the entries left over stay. `drop` of them are still to be dropped. */
  function Remaining(cs: seq<Name>, drop: nat): (r: seq<Name>) {
    if cs == [] then []
    else
      var front, c := cs[..|cs| - 1], cs[|cs| - 1];
      if c == "." then Remaining(front, drop)
      else if c == ".." then Remaining(front, drop + 1)
      else if drop > 0 then Remaining(front, drop - 1)
      else Remaining(front, 0) + [c]
  }

  /** The stack after one component. */
  function Stepped(t: seq<Name>, c: Name): (r: Option<seq<Name>>) {
    if c == "." then Some(t)
    else if c == ".." then Some(if t == [] then [] else t[..|t| - 1])
    else if |t| >= MAX_COMPONENTS then None else Some(t + [c])
  }

  lemma {:induction false} WalkOne(t: seq<Name>, c: Name)
    ensures Walk(t, [c]) == Stepped(t, c)
  {
    assert [c][1..] == [];
  }

  lemma {:induction false} WalkLast(front: seq<Name>, c: Name)
    ensures Walk([], front + [c]) == match Walk([], front) case None => None case Some(t) => Stepped(t, c)
  {
    hide Walk;
    WalkConcat([], front, [c]);
    if Walk([], front).Some? {
      WalkOne(Walk([], front).value, c);
    }
  }

  lemma {:induction false} WalkIsRemaining(cs: seq<Name>, drop: nat)
    requires Walk([], cs).Some?
    ensures var s := Walk([], cs).value;
      Remaining(cs, drop) == s[..if drop <= |s| then |s| - drop else 0]
    decreases |cs|
  {
    hide Walk;
    if cs == [] {
      WalkNothing();
    } else {
      var front, c := cs[..|cs| - 1], cs[|cs| - 1];
      assert cs == front + [c];
      WalkLast(front, c);
      var d := if c == "." then drop else if c == ".." then drop + 1 else if drop > 0 then drop - 1 else 0;
      WalkIsRemaining(front, d);
    }
  }

  lemma {:induction false} WalkNothing()
    ensures Walk([], []) == Some([])
  {
  }

  /** An entry followed by ".." is as if neither were there, unless the stack could not hold the
   *  entry. */
  lemma {:induction false} UpCancels(a: seq<Name>, x: Name, b: seq<Name>)
    requires IsEntry(x)
    ensures Walk([], a + [x, ".."] + b) == if TooDeep(0, a + [x]) then None else Walk([], a + b)
  {
    hide Walk;
    hide TooDeep;
    var up := [x, ".."];
    assert a + up == a + [x] + [".."];
    WalkFailsIff([], a + [x]);
    WalkLast(a, x);
    WalkLast(a + [x], "..");
    WalkConcat([], a + up, b);
    WalkConcat([], a, b);
    if Walk([], a).Some? {
      var t := Walk([], a).value;
      assert (t + [x])[..|t + [x]| - 1] == t;
    }
  }

  /** At the root ".." changes nothing. */
  lemma {:induction false} UpAtRoot(a: seq<Name>, b: seq<Name>)
    requires Walk([], a) == Some([])
    ensures Walk([], a + [".."] + b) == Walk([], a + b) == Walk([], b)
  {
    hide Walk;
    WalkLast(a, "..");
    WalkConcat([], a + [".."], b);
    WalkConcat([], a, b);
  }

  /** "." changes nothing anywhere. */
  lemma {:induction false} DotIsNothing(a: seq<Name>, b: seq<Name>)
    ensures Walk([], a + ["."] + b) == Walk([], a + b)
  {
    hide Walk;
    WalkLast(a, ".");
    WalkConcat([], a + ["."], b);
    WalkConcat([], a, b);
  }

  // ---- Lengths --------------------------------------------------------------------

  predicate Rooted(s: string) {
    s == [] || s[0] == '/'
  }

  lemma {:induction false} GlueConcat(a: seq<Name>, b: seq<Name>)
    ensures Glue(a + b) == Glue(a) + Glue(b)
    decreases |b|
  {
    if b == [] {
      assert a + b == a && Glue(a) + "" == Glue(a);
    } else {
      var front, c := b[..|b| - 1], b[|b| - 1];
      GlueConcat(a, front);
      assert (a + b)[..|a + b| - 1] == a + front && (a + b)[|a + b| - 1] == c;
      assert Glue(a) + Glue(front) + "/" + c == Glue(a) + (Glue(front) + "/" + c);
    }
  }

  lemma {:induction false} GlueOne(c: Name)
    ensures Glue([c]) == "/" + c
  {
    assert Glue([]) == "" && [c][..0] == [];
    assert "" + "/" + c == "/" + c;
  }

  /** Splitting and joining does not lengthen a path, except for a missing leading slash. */
  lemma {:induction false} CompsLength(s: string)
    ensures |Glue(Comps(s))| <= |s| + (if Rooted(s) then 0 else 1)
    decreases |s|
  {
    if s != [] && s[0] == '/' {
      CompsLength(s[1..]);
    } else if s != [] {
      var n := NameLen(s);
      CompsLength(s[n..]);
      GlueConcat([s[..n]], Comps(s[n..]));
      GlueOne(s[..n]);
    }
  }

  lemma {:induction false} WalkLength(stack: seq<Name>, cs: seq<Name>)
    requires Walk(stack, cs).Some?
    ensures |Glue(Walk(stack, cs).value)| <= |Glue(stack)| + |Glue(cs)|
    decreases |cs|
  {
    if cs != [] {
      assert cs == [cs[0]] + cs[1..];
      GlueConcat([cs[0]], cs[1..]);
      GlueOne(cs[0]);
      if cs[0] == "." {
        WalkLength(stack, cs[1..]);
      } else if cs[0] == ".." {
        WalkLength(if stack == [] then [] else stack[..|stack| - 1], cs[1..]);
      } else {
        WalkLength(stack + [cs[0]], cs[1..]);
        GlueConcat(stack, [cs[0]]);
      }
    }
  }

  // ---- Main results ---------------------------------------------------------------

  /** A normalized path: entries joined by slashes, the root being "/". */
  ghost predicate Canonical(p: string) {
    Entries(Comps(p)) && |Comps(p)| <= MAX_COMPONENTS && p == Join(Comps(p))
  }

  /** Every result is canonical, and its components are those of the base and of the path that
   *  remain when every ".." has dropped the entry before it. */
  lemma {:induction false} ResolveMeaning(cwd: string, path: string, outSize: nat)
    requires Resolve(cwd, path, outSize).Ok?
    ensures var r := Resolve(cwd, path, outSize).path;
      var base := if path != [] && path[0] == '/' then "/" else if cwd == [] then "/" else cwd;
      && Canonical(r)
      && Walk([], Comps(base) + Comps(path)) == Some(Comps(r))
      && Comps(r) == Remaining(Comps(base) + Comps(path), 0)
      && (r == "/" || |r| < outSize)
  {
    hide Remaining;
    var w := Work(cwd, path).value;
    WalkEntries([], Comps(w));
    var stack := Walk([], Comps(w)).value;
    CompsGlue(stack);
    var base := if path != [] && path[0] == '/' then "/" else if cwd == [] then "/" else cwd;
    if path != [] && path[0] == '/' {
      CompsGlue([]);
      assert [] + Comps(path) == Comps(path);
    } else {
      CompsSlash(base, path);
    }
    WalkIsRemaining(Comps(base) + Comps(path), 0);
    assert stack[..|stack|] == stack;
  }

  /** It fails only on sizes: the output too small for the root, the working copy full, more
   *  than 32 levels after some prefix of the components, or the result not fitting the output. */
  lemma {:induction false} ResolveFails(cwd: string, path: string, outSize: nat)
    ensures Resolve(cwd, path, outSize) == Invalid <==> outSize < 2
    ensures var absolute := path != [] && path[0] == '/';
      var base := if cwd == [] then "/" else cwd;
      var from := if absolute then [] else Comps(base);
      Resolve(cwd, path, outSize) == TooLong <==>
        outSize >= 2 &&
        (|| (if absolute then |path| >= WORK else |base| >= WORK - 2 || |base| + 1 + |path| >= WORK)
         || TooDeep(0, from + Comps(path))
         || (var s := Walk([], from + Comps(path)); s.Some? && s.value != [] && |Join(s.value)| >= outSize))
  {
    hide TooDeep;
    var from := if path != [] && path[0] == '/' then [] else Comps(if cwd == [] then "/" else cwd);
    WalkFailsIff([], from + Comps(path));
    if path != [] && path[0] == '/' {
      assert [] + Comps(path) == Comps(path);
    } else {
      CompsSlash(if cwd == [] then "/" else cwd, path);
    }
  }

  /** A canonical path that fits resolves to itself, whatever the current directory. */
  lemma {:induction false} FixedPoint(cwd: string, p: string, outSize: nat)
    requires Canonical(p) && |p| < WORK && 2 <= outSize && |p| < outSize
    ensures Resolve(cwd, p, outSize) == Ok(p)
  {
    CompsGlue(Comps(p));
    GlueStart(Comps(p));
    WalkPushes([], Comps(p));
    assert [] + Comps(p) == Comps(p);
  }

  lemma {:induction false} GlueStart(cs: seq<Name>)
    ensures cs != [] ==> Glue(cs) != [] && Glue(cs)[0] == '/'
  {
    if |cs| > 1 {
      GlueStart(cs[..|cs| - 1]);
    }
  }

  /** Whether the working copy begins at the root. */
  predicate FromRoot(cwd: string, path: string) {
    (path != [] && path[0] == '/') || Rooted(cwd)
  }

  /** A result is no longer than the working copy, plus a slash if that does not begin with one. */
  lemma {:induction false} ResultLength(cwd: string, path: string, n: nat)
    requires Resolve(cwd, path, n).Ok?
    ensures var r := Resolve(cwd, path, n).path;
      && r != [] && r[0] == '/'
      && |r| <= |Work(cwd, path).value| + (if FromRoot(cwd, path) then 0 else 1)
      && |r| <= WORK && (FromRoot(cwd, path) ==> |r| < WORK)
  {
    hide Comps;
    hide Walk;
    hide Glue;
    var w := Work(cwd, path).value;
    var stack := Walk([], Comps(w)).value;
    CompsLength(w);
    WalkLength([], Comps(w));
    GlueLast([]);
    GlueStart(stack);
  }

  /** A result resolves to itself, in every directory, exactly when it fits the working copy;
   *  it does whenever the path or the directory is absolute or the directory is empty. */
  lemma {:induction false} ResultFixed(cwd: string, path: string, n: nat, dir: string, m: nat)
    requires Resolve(cwd, path, n).Ok? && 2 <= m && |Resolve(cwd, path, n).path| < m
    ensures var r := Resolve(cwd, path, n).path;
      && (Resolve(dir, r, m) == Ok(r) <==> |r| < WORK)
      && (FromRoot(cwd, path) ==> Resolve(dir, r, m) == Ok(r))
  {
    hide Comps;
    hide Walk;
    var r := Resolve(cwd, path, n).path;
    ResolveMeaning(cwd, path, n);
    ResultLength(cwd, path, n);
    if |r| < WORK {
      FixedPoint(dir, r, m);
    }
  }

  function Letters(n: nat): (s: string)
    ensures |s| == n && '/' !in s
  {
    seq(n, i => 'a')
  }

  /** In a relative directory of 509 letters the result has 512 characters and does not
   *  resolve again. */
  lemma {:induction false} LongResult(n: nat, m: nat)
    requires n > WORK && m > WORK
    ensures var r := Resolve(Letters(509), "b", n);
      r.Ok? && |r.path| == WORK && Resolve("/", r.path, m) == TooLong
  {
    hide Letters;
    hide Comps;
    hide Walk;
    hide Glue;
    var c := Letters(509);
    var cs := [c, "b"];
    CompsSlash(c, "b");
    CompsOne(c);
    CompsOne("b");
    assert [c] + ["b"] == cs;
    assert IsEntry(c) && IsEntry("b");
    assert Entries(cs);
    WalkPushes([], cs);
    assert [] + cs == cs;
    GlueConcat([c], ["b"]);
    GlueOne(c);
    GlueOne("b");
    GlueStart(cs);
  }

  /** Resolving in two stages: a relative path means the same in a directory and in the
   *  directory's normal form, exactly when that form leaves room for it. An absolute
   *  directory's always does. */
  lemma {:induction false} ResolveTwice(cwd: string, path: string, n: nat, m: nat)
    requires cwd != [] && (path == [] || path[0] != '/')
    requires Resolve("/", cwd, n).Ok? && Resolve(cwd, path, m).Ok?
    ensures var d := Resolve("/", cwd, n).path;
      && (Resolve(d, path, m) == Resolve(cwd, path, m) <==> |d| < WORK - 2 && |d| + 1 + |path| < WORK)
      && (cwd[0] == '/' ==> Resolve(d, path, m) == Resolve(cwd, path, m))
  {
    hide Comps;
    hide Walk;
    hide Canonical;
    var d := Resolve("/", cwd, n).path;
    ResultLength("/", cwd, n);
    if |d| < WORK - 2 && |d| + 1 + |path| < WORK {
      SameWalk(cwd, d, path, n);
    }
  }

  lemma {:induction false} SameWalk(cwd: string, d: string, path: string, n: nat)
    requires cwd != [] && Resolve("/", cwd, n) == Ok(d)
    ensures Walk([], Comps(cwd + "/" + path)) == Walk([], Comps(d + "/" + path))
  {
    hide Comps;
    hide Walk;
    ResolveMeaning("/", cwd, n);
    CompsGlue([]);
    assert [] + Comps(cwd) == Comps(cwd);
    CompsSlash(cwd, path);
    CompsSlash(d, path);
    WalkConcat([], Comps(cwd), Comps(path));
    WalkConcat([], Comps(d), Comps(path));
    WalkPushes([], Comps(d));
    assert [] + Comps(d) == Comps(d);
  }

  // ---- Parent and last component --------------------------------------------------

  /** Length left after the trailing name is stripped. */
  function StripName(p: string, n: nat): (m: nat)
    requires n <= |p|
    ensures m <= n && (m > 0 ==> p[m - 1] == '/') && forall k :: m <= k < n ==> p[k] != '/'
  {
    if n > 0 && p[n - 1] != '/' then StripName(p, n - 1) else n
  }

  /** Length left after trailing slashes are stripped, keeping one character. */
  function StripSlashes(p: string, n: nat): (m: nat)
    requires n <= |p|
    ensures m <= n
  {
    if n > 1 && p[n - 1] == '/' then StripSlashes(p, n - 1) else n
  }

  function Parent(p: string, outSize: nat): (r: Result) {
    if p == [] || outSize < 2 then Invalid
    else
      var n := StripSlashes(p, StripName(p, |p|));
      var m := if n == 0 then 1 else n;
      if m >= outSize then TooLong else Ok(p[..m])
  }

  function Basename(p: string): (s: string) {
    p[StripName(p, |p|)..]
  }

  lemma {:induction false} StripNameOf(a: string, c: Name, n: nat)
    requires '/' !in c && (a == [] || a[|a| - 1] == '/') && |a| <= n <= |a + c|
    ensures StripName(a + c, n) == |a|
  {
    if n > |a| {
      assert (a + c)[n - 1] == c[n - 1 - |a|] && c[n - 1 - |a|] in c;
      StripNameOf(a, c, n - 1);
    } else if a != [] {
      assert (a + c)[n - 1] == a[|a| - 1];
    }
  }

  /** A joined path does not end in a slash. */
  lemma {:induction false} GlueEnd(cs: seq<Name>)
    requires cs != [] && forall i :: 0 <= i < |cs| ==> IsName(cs[i])
    ensures |Glue(cs)| >= 2 && Glue(cs)[|Glue(cs)| - 1] != '/'
  {
    var c := cs[|cs| - 1];
    assert IsName(c) && c[|c| - 1] in c;
    assert Glue(cs)[|Glue(cs)| - 1] == c[|c| - 1];
  }

  /** Parent and last component take a canonical path apart and put it back together. */
  lemma {:induction false} ParentBasename(p: string, outSize: nat)
    requires Canonical(p) && p != "/" && |p| < outSize
    ensures var cs := Comps(p);
      && cs != []
      && Basename(p) == cs[|cs| - 1]
      && Parent(p, outSize) == Ok(Join(cs[..|cs| - 1]))
      && p == (if |cs| == 1 then "" else Join(cs[..|cs| - 1])) + "/" + Basename(p)
  {
    hide Comps;
    hide Glue;
    hide StripName;
    hide StripSlashes;
    var cs := Comps(p);
    GlueLast(cs);
    var front, c := cs[..|cs| - 1], cs[|cs| - 1];
    GlueLast(front);
    var a := Glue(front) + "/";
    assert IsEntry(c) && p == a + c;
    assert forall i :: 0 <= i < |front| ==> IsName(front[i]);
    StripNameOf(a, c, |p|);
    assert (a + c)[|a|..] == c;
    StripRest(front, c);
  }

  lemma {:induction false} GlueLast(cs: seq<Name>)
    ensures cs == [] ==> Glue(cs) == ""
    ensures cs != [] ==> Glue(cs) == Glue(cs[..|cs| - 1]) + "/" + cs[|cs| - 1]
  {
  }

  /** The slash before the last component goes, unless it is the root's. */
  lemma {:induction false} StripRest(front: seq<Name>, c: Name)
    requires forall i :: 0 <= i < |front| ==> IsName(front[i])
    ensures var p := Glue(front) + "/" + c;
      var n := StripSlashes(p, |Glue(front)| + 1);
      n > 0 && p[..n] == Join(front)
  {
    var p := Glue(front) + "/" + c;
    if front != [] {
      GlueEnd(front);
      var n := |Glue(front)|;
      assert p[n] == '/' && p[n - 1] == Glue(front)[n - 1];
      assert StripSlashes(p, n) == n;
    }
  }

  /** "/.." after a path is the parent of what the path resolves to, as long as the three
   *  characters fit the working copy. */
  lemma {:induction false} UpIsParent(cwd: string, p: string, n: nat)
    requires p != [] && Resolve(cwd, p, n).Ok?
    ensures var d := Resolve(cwd, p, n).path;
      Resolve(cwd, p + "/..", n) ==
        if |Work(cwd, p).value| + 3 < WORK then Parent(d, n) else TooLong
  {
    hide Comps;
    hide Walk;
    hide Glue;
    hide Parent;
    var q := p + "/..";
    var w := Work(cwd, p).value;
    assert q[0] == p[0];
    if |w| + 3 < WORK {
      var d := Resolve(cwd, p, n).path;
      var base := if cwd == [] then "/" else cwd;
      assert p[0] != '/' ==> base + "/" + q == base + "/" + p + "/..";
      assert Work(cwd, q) == Some(w + "/..");
      WalkUp(w);
      var stack := Walk([], Comps(w)).value;
      WalkEntries([], Comps(w));
      CompsGlue(stack);
      ParentResolved(stack, n);
    }
  }

  lemma {:induction false} WalkUp(w: string)
    requires Walk([], Comps(w)).Some?
    ensures var stack := Walk([], Comps(w)).value;
      Walk([], Comps(w + "/..")) == Some(if stack == [] then [] else stack[..|stack| - 1])
  {
    hide Walk;
    hide Comps;
    assert w + "/.." == w + "/" + "..";
    CompsSlash(w, "..");
    CompsOne("..");
    WalkLast(Comps(w), "..");
  }

  /** The parent of a result, by components. */
  lemma {:induction false} ParentResolved(stack: seq<Name>, n: nat)
    requires Entries(stack) && |stack| <= MAX_COMPONENTS && Comps(Join(stack)) == stack && n >= 2
    requires stack == [] || |Join(stack)| < n
    ensures var up := if stack == [] then [] else stack[..|stack| - 1];
      Parent(Join(stack), n) == Ok(Join(up)) && (up == [] || |Join(up)| < n)
  {
    hide Comps;
    hide Glue;
    if stack == [] {
      assert StripName("/", 1) == 1;
    } else {
      GlueLast(stack);
      GlueLast(stack[..|stack| - 1]);
      RootComps();
      ParentBasename(Join(stack), n);
    }
  }

  lemma {:induction false} RootComps()
    ensures Comps("/") == []
  {
    assert "/"[1..] == "";
  }

  /** The same for strings: "x/../" in the middle of a path can be left out, as long as the path
   *  with it fits the working copy and the stack can hold x. */
  lemma {:induction false} UpInTheMiddle(cwd: string, p: string, x: Name, q: string, n: nat)
    requires IsEntry(x)
    ensures var long, short := p + "/" + x + "/../" + q, p + "/" + q;
      var base := if p == [] || p[0] == '/' then [] else Comps(if cwd == [] then "/" else cwd);
      Work(cwd, long).Some? && !TooDeep(0, base + Comps(p) + [x]) ==> Resolve(cwd, long, n) == Resolve(cwd, short, n)
  {
    hide Comps;
    hide Walk;
    hide Glue;
    hide TooDeep;
    var long, short := p + "/" + x + "/../" + q, p + "/" + q;
    var base := if p == [] || p[0] == '/' then [] else Comps(if cwd == [] then "/" else cwd);
    MiddleComps(p, x, q);
    assert long[0] == short[0] && (p != [] ==> long[0] == p[0]);
    var a := base + Comps(p);
    UpCancels(a, x, Comps(q));
    assert base + (Comps(p) + [x, ".."] + Comps(q)) == a + [x, ".."] + Comps(q);
    assert base + (Comps(p) + Comps(q)) == a + Comps(q);
    if long[0] != '/' {
      CompsSlash(if cwd == [] then "/" else cwd, long);
      CompsSlash(if cwd == [] then "/" else cwd, short);
    } else {
      assert base + Comps(long) == Comps(long) && base + Comps(short) == Comps(short);
    }
  }

  lemma {:induction false} MiddleComps(p: string, x: Name, q: string)
    requires IsEntry(x)
    ensures Comps(p + "/" + x + "/../" + q) == Comps(p) + [x, ".."] + Comps(q)
    ensures Comps(p + "/" + q) == Comps(p) + Comps(q)
  {
    hide Comps;
    CompsSlash(p, q);
    CompsSlash(p, x);
    CompsSlash(p + "/" + x, "..");
    CompsSlash(p + "/" + x + "/" + "..", q);
    CompsOne(x);
    CompsOne("..");
    assert p + "/" + x + "/../" + q == p + "/" + x + "/" + ".." + "/" + q;
    assert Comps(p) + [x] + [".."] == Comps(p) + [x, ".."];
  }

  // ---- Mounts ---------------------------------------------------------------------

  datatype Mount = Mount(used: bool, path: string)

  predicate Matches(mp: string, p: string) {
    mp == "/" || (|mp| <= |p| && p[..|mp|] == mp && (|p| == |mp| || p[|mp|] == '/'))
  }

  /** The best of the first `k` mounts: the longest match, the last one where lengths tie. */
  function Best(ms: seq<Mount>, p: string, k: nat): (r: Option<nat>)
    requires k <= |ms|
    ensures r.Some? ==> r.value < k && ms[r.value].used && Matches(ms[r.value].path, p)
    ensures r.Some? ==>
      forall i :: 0 <= i < k && ms[i].used && Matches(ms[i].path, p) ==>
        |ms[i].path| <= |ms[r.value].path| && (i > r.value ==> |ms[i].path| < |ms[r.value].path|)
    ensures r == None ==> forall i :: 0 <= i < k ==> !(ms[i].used && Matches(ms[i].path, p))
  {
    if k == 0 then None
    else
      var b := Best(ms, p, k - 1);
      if ms[k - 1].used && Matches(ms[k - 1].path, p) && (b == None || |ms[k - 1].path| >= |ms[b.value].path|)
      then Some(k - 1) else b
  }

  function SkipSlashes(s: string): (r: string) {
    if s != [] && s[0] == '/' then SkipSlashes(s[1..]) else s
  }

  /** What is left of the path inside the chosen file system. */
  function Rest(ms: seq<Mount>, p: string): (r: Option<string>) {
    match Best(ms, p, |ms|)
    case None => None
    case Some(i) => if |ms[i].path| <= |p| then Some(SkipSlashes(p[|ms[i].path|..])) else Some("")
  }

  /** A mount path that can be found: the empty one or a canonical one whose components begin
   *  the path's. */
  ghost predicate Reaches(mp: string, p: string) {
    (mp == "" || Canonical(mp)) && Comps(mp) <= Comps(p)
  }

  /** Whatever string a mount was given as its path, a canonical path matches it exactly when
   *  it reaches it. */
  lemma {:induction false} MatchesIffReaches(mp: string, p: string)
    requires Canonical(p)
    ensures Matches(mp, p) <==> Reaches(mp, p)
    ensures Matches(mp, p) ==> |mp| <= |p|
    ensures Matches(mp, p) ==> Comps(p[|mp|..]) == Comps(p)[|Comps(mp)|..]
  {
    CompsGlue([]);
    GlueStart(Comps(p));
    assert p != [] && p[0] == '/';
    if mp == "/" {
      assert Comps(p) == Comps(p[1..]);
    } else if mp == "" {
      assert p[0..] == p;
    } else if Matches(mp, p) {
      MatchSplits(mp, p);
    } else if Reaches(mp, p) {
      PrefixMatches(mp, p);
    }
  }

  lemma {:induction false} MatchSplits(mp: string, p: string)
    requires Canonical(p) && mp != "" && mp != "/" && Matches(mp, p)
    ensures Reaches(mp, p) && Comps(p[|mp|..]) == Comps(p)[|Comps(mp)|..]
  {
    hide Comps;
    hide Glue;
    var tail := p[|mp|..];
    assert p == mp + tail;
    SplitAt(mp, tail);
    GlueConcat(Comps(mp), Comps(tail));
    CompsGlue([]);
    GlueStart(Comps(p));
    assert Rooted(mp) && Rooted(tail);
    CompsLength(mp);
    CompsLength(tail);
    GlueLast([]);
    assert mp == p[..|mp|] == Glue(Comps(mp));
    assert Entries(Comps(mp)) by {
      forall i | 0 <= i < |Comps(mp)| ensures IsEntry(Comps(mp)[i]) {
        assert Comps(mp)[i] == Comps(p)[i];
      }
    }
  }

  lemma {:induction false} SplitAt(a: string, tail: string)
    requires tail == [] || tail[0] == '/'
    ensures Comps(a + tail) == Comps(a) + Comps(tail)
  {
    if tail == [] {
      assert a + tail == a;
    } else {
      assert tail == "/" + tail[1..];
      CompsSlash(a, tail[1..]);
      assert a + tail == a + "/" + tail[1..];
    }
  }

  lemma {:induction false} PrefixMatches(mp: string, p: string)
    requires Canonical(p) && Canonical(mp) && mp != "/" && Comps(mp) <= Comps(p)
    ensures Matches(mp, p)
  {
    var a, b := Comps(mp), Comps(p);
    CompsGlue([]);
    var rest := b[|a|..];
    assert b == a + rest;
    GlueConcat(a, rest);
    GlueStart(rest);
  }

  /** A longer prefix of the components joins to a longer path. */
  lemma {:induction false} PrefixLength(a: seq<Name>, b: seq<Name>)
    requires b < a && forall i :: 0 <= i < |a| ==> IsName(a[i])
    ensures |Join(b)| < |Join(a)|
  {
    var rest := a[|b|..];
    assert a == b + rest;
    GlueConcat(b, rest);
    assert forall i :: 0 <= i < |rest| ==> rest[i] == a[|b| + i];
    GlueEnd(rest);
  }

  lemma {:induction false} SkipComps(s: string)
    ensures Comps(SkipSlashes(s)) == Comps(s)
  {
    if s != [] && s[0] == '/' {
      SkipComps(s[1..]);
    }
  }

  /** `find_mount` picks a mount that reaches the path, no used mount that does is deeper, and
   *  the remainder is the rest of the components. It fails only if none does. */
  lemma {:induction false} DeepestMount(ms: seq<Mount>, p: string)
    requires Canonical(p)
    ensures var r := Best(ms, p, |ms|);
      && (r == None <==> forall i :: 0 <= i < |ms| && ms[i].used ==> !Reaches(ms[i].path, p))
      && (r.Some? ==>
            var cs := Comps(ms[r.value].path);
            && ms[r.value].used && Reaches(ms[r.value].path, p)
            && (forall i :: 0 <= i < |ms| && ms[i].used && Reaches(ms[i].path, p) ==> |Comps(ms[i].path)| <= |cs|)
            && Rest(ms, p).Some? && Comps(Rest(ms, p).value) == Comps(p)[|cs|..])
  {
    hide Matches;
    hide Canonical;
    hide Comps;
    hide Reaches;
    var r := Best(ms, p, |ms|);
    forall i | 0 <= i < |ms| && ms[i].used
      ensures Matches(ms[i].path, p) <==> Reaches(ms[i].path, p)
      ensures r.Some? && Reaches(ms[i].path, p) ==> |Comps(ms[i].path)| <= |Comps(ms[r.value].path)|
    {
      MatchesIffReaches(ms[i].path, p);
      if r.Some? && Reaches(ms[i].path, p) {
        MatchesIffReaches(ms[r.value].path, p);
        DeeperIsLonger(ms[i].path, ms[r.value].path, p);
      }
    }
    if r.Some? {
      MatchesIffReaches(ms[r.value].path, p);
      SkipComps(p[|ms[r.value].path|..]);
    }
  }

  lemma {:induction false} DeeperIsLonger(a: string, b: string, p: string)
    requires Reaches(a, p) && Reaches(b, p) && |a| <= |b|
    ensures |Comps(a)| <= |Comps(b)|
  {
    if a != "" {
      JoinedLength(a);
      if Comps(b) < Comps(a) {
        PrefixLength(Comps(a), Comps(b));
      }
    }
  }

  /** A mount path is stored as it was given. One with a trailing slash is never found: for
   *  "/mnt/" and the path "/mnt/a" the components match and the mount does not. */
  lemma {:induction false} TrailingSlash(mp: string, p: string)
    requires Canonical(p) && |mp| > 1 && mp[|mp| - 1] == '/'
    ensures !Matches(mp, p)
  {
    MatchesIffReaches(mp, p);
    if Canonical(mp) {
      GlueEnd(Comps(mp));
    }
  }

  lemma {:induction false} UnreachableMount(c: Name, d: Name)
    requires IsEntry(c) && IsEntry(d)
    ensures var mp, p := "/" + c + "/", "/" + c + "/" + d;
      && Canonical(p) && Comps(mp) == [c] && Comps(p) == [c, d]
      && Best([Mount(true, mp)], p, 1) == None
  {
    hide Comps;
    hide Glue;
    hide Matches;
    hide Best;
    var mp, p := "/" + c + "/", "/" + c + "/" + d;
    GlueOne(c);
    GlueOne(d);
    GlueConcat([c], [d]);
    assert [c] + [d] == [c, d];
    CompsGlue([c]);
    CompsGlue([c, d]);
    CompsSlash("/" + c, "");
    NoComps();
    assert "/" + c + "/" + "" == mp && p == Glue([c, d]);
    assert Entries([c, d]);
    TrailingSlash(mp, p);
    NoMatch(mp, p);
  }

  lemma {:induction false} NoComps()
    ensures Comps("") == []
  {
  }

  lemma {:induction false} NoMatch(mp: string, p: string)
    requires !Matches(mp, p)
    ensures Best([Mount(true, mp)], p, 1) == None
  {
  }

  lemma {:induction false} JoinedLength(p: string)
    requires Canonical(p)
    ensures p == Join(Comps(p))
  {
  }
}

/** The character loops. */
module Path {
  import opened Options
  import opened PathSpec

  method ResolvePath(cwd: string, path: string, outSize: nat) returns (r: Result)
    ensures r == Resolve(cwd, path, outSize)
    ensures r.Ok? ==>
      var base := if path != [] && path[0] == '/' then "/" else if cwd == [] then "/" else cwd;
      Canonical(r.path) && Comps(r.path) == Remaining(Comps(base) + Comps(path), 0)
  {
    hide Canonical;
    hide Remaining;
    if outSize < 2 {
      return Invalid;
    }
    var w := Work(cwd, path);
    if w == None {
      return TooLong;
    }
    var stack := Tokenize(w.value);
    if stack == None {
      return TooLong;
    }
    r := Rebuild(stack.value, outSize);
    if r.Ok? {
      ResolveMeaning(cwd, path, outSize);
    }
  }

  /** Split on slashes, applying "." and ".." to the component stack. */
  method Tokenize(w: string) returns (r: Option<seq<Name>>)
    ensures r == Walk([], Comps(w))
    ensures r.Some? ==> r.value == Remaining(Comps(w), 0)
  {
    hide Comps;
    hide Remaining;
    NoNames();
    var stack: seq<Name> := [];
    var i := 0;
    assert w[0..] == w;
    while i < |w|
      invariant i <= |w| && Walk(stack, Comps(w[i..])) == Walk([], Comps(w))
    {
      ghost var from := i;
      while i < |w| && w[i] == '/'
        invariant from <= i <= |w| && Comps(w[i..]) == Comps(w[from..])
      {
        NextSlash(w, i);
        i := i + 1;
      }
      var start := i;
      while i < |w| && w[i] != '/'
        invariant start <= i <= |w| && forall k :: start <= k < i ==> w[k] != '/'
      {
        i := i + 1;
      }
      if i == start {
        assert w[i..] == [];
        continue;
      }
      var c := w[start..i];
      NextName(w, start, i);
      if c == "." {
        continue;
      }
      if c == ".." {
        if stack != [] {
          stack := stack[..|stack| - 1];
        }
        continue;
      }
      if |stack| >= MAX_COMPONENTS {
        return None;
      }
      stack := stack + [c];
    }
    assert w[i..] == [];
    WalkIsRemaining(Comps(w), 0);
    assert stack[..|stack|] == stack;
    r := Some(stack);
  }

  lemma {:induction false} NoNames()
    ensures Comps([]) == []
  {
  }

  lemma {:induction false} NextSlash(w: string, i: nat)
    requires i < |w| && w[i] == '/'
    ensures Comps(w[i..]) == Comps(w[i + 1..])
  {
    assert w[i..][1..] == w[i + 1..];
  }

  lemma {:induction false} NextName(w: string, start: nat, i: nat)
    requires start < i <= |w| && (forall k :: start <= k < i ==> w[k] != '/') && (i < |w| ==> w[i] == '/')
    ensures Comps(w[start..]) == [w[start..i]] + Comps(w[i..])
    ensures ([w[start..i]] + Comps(w[i..]))[1..] == Comps(w[i..])
  {
    var c, rest := w[start..i], w[i..];
    assert w[start..] == c + rest;
    forall k | 0 <= k < |c| ensures c[k] != '/' {}
    CompsName(c, rest);
  }

  /** Write "/a/b/c", checking the room before each component. */
  method Rebuild(stack: seq<Name>, outSize: nat) returns (r: Result)
    requires outSize >= 2
    ensures r == if stack != [] && |Join(stack)| >= outSize then TooLong else Ok(Join(stack))
  {
    hide Glue;
    if stack == [] {
      return Ok("/");
    }
    GlueLast([]);
    var out := "";
    for c := 0 to |stack|
      invariant out == Glue(stack[..c]) && (c > 0 ==> |out| < outSize)
    {
      assert stack[..c + 1][..c] == stack[..c] && stack[..c + 1][c] == stack[c];
      GlueLast(stack[..c + 1]);
      if |out| + 1 + |stack[c]| >= outSize {
        Longer(stack, c + 1);
        return TooLong;
      }
      out := out + "/" + stack[c];
    }
    assert stack[..|stack|] == stack;
    r := Ok(out);
  }

  lemma {:induction false} Longer(stack: seq<Name>, k: nat)
    requires k <= |stack|
    ensures |Glue(stack[..k])| <= |Glue(stack)|
  {
    assert stack == stack[..k] + stack[k..];
    GlueConcat(stack[..k], stack[k..]);
  }

  method ParentOf(p: string, outSize: nat) returns (r: Result)
    ensures r == Parent(p, outSize)
  {
    var n: nat := |p|;
    if n == 0 || outSize < 2 {
      return Invalid;
    }
    while n > 0 && p[n - 1] != '/'
      invariant n <= |p| && StripName(p, n) == StripName(p, |p|)
    {
      n := n - 1;
    }
    ghost var m: nat := n;
    while n > 1 && p[n - 1] == '/'
      invariant n <= m && StripSlashes(p, n) == StripSlashes(p, m)
    {
      n := n - 1;
    }
    if n == 0 {
      n := 1;
    }
    if n >= outSize {
      return TooLong;
    }
    r := Ok(p[..n]);
  }

  /** `find_mount`: the loop over the mount table. */
  method FindMount(ms: seq<Mount>, p: string) returns (r: Option<nat>)
    ensures r == Best(ms, p, |ms|)
  {
    r := None;
    var bestLen := 0;
    for i := 0 to |ms|
      invariant r == Best(ms, p, i) && bestLen == (if r.Some? then |ms[r.value].path| else 0)
    {
      if ms[i].used {
        var mp := ms[i].path;
        var matched := mp == "/" || (|mp| <= |p| && p[..|mp|] == mp && (|p| == |mp| || p[|mp|] == '/'));
        if matched && |mp| >= bestLen {
          r := Some(i);
          bestLen := |mp|;
        }
      }
    }
  }
}
