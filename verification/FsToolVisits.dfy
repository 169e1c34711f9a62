/** fstool: which visits the walk makes, and in which order. */
module FsToolVisits {
  import opened FsTool

  // ---- exactly what is visible ----

  /** A chain of directories, each in the one before it, that are all entered. */
  ghost predicate Chain(args: Arguments, n: Node, ns: seq<Node>) {
    |ns| > 0 && ns[0] == n && forall i :: 0 < i < |ns| ==> Goes(args, ns[i - 1], ns[i])
  }

  function NamesOf(ns: seq<Node>): Path
    requires |ns| > 0
  {
    seq(|ns| - 1, i requires 0 <= i < |ns| - 1 => ns[i + 1].name)
  }

  /** An entry that is shown by itself: lstat finds it, and it is not a directory to go into. */
  predicate Plain(args: Arguments, e: Node) {
    !Hidden(args, e.name) && !e.faults.first && (!e.isDir || !args.recurse)
  }

  /** A visit at the end of a chain: to the last directory itself, or to an entry in it. */
  ghost predicate AtEnd(args: Arguments, ns: seq<Node>, path: Path, v: Visit)
    requires |ns| > 0
  {
    var d := ns[|ns| - 1];
    && !d.faults.open
    && (|| (!d.faults.dot && v == Visit(path + NamesOf(ns), true))
        || (exists e :: e in d.children && Plain(args, e) && v == Visit(path + NamesOf(ns) + [e.name], false)))
  }

  ghost predicate Visible(args: Arguments, n: Node, path: Path, v: Visit) {
    exists ns :: Chain(args, n, ns) && AtEnd(args, ns, path, v)
  }

  lemma PlainIs(args: Arguments, e: Node)
    ensures Plain(args, e) <==> Handled(args, e)
  {
    HiddenIs(args, e.name);
  }

  lemma {:induction false} FilesAre(args: Arguments, es: seq<Node>, path: Path, v: Visit)
    ensures v in Files(args, es, path) <==>
      exists e :: e in es && Plain(args, e) && v == Visit(path + [e.name], false)
    decreases |es|
  {
    if es != [] {
      var n := |es| - 1;
      FilesAre(args, es[..n], path, v);
      PlainIs(args, es[n]);
      assert forall e :: e in es <==> e in es[..n] || e == es[n];
      hide Plain, Handled;
    }
  }

  lemma {:induction false} DirsAre(args: Arguments, es: seq<Node>, dev: nat, path: Path, v: Visit)
    ensures v in Dirs(args, es, dev, path) <==>
      exists e :: e in es && Entered(args, dev, e) && v in Walk(args, e, path + [e.name])
    decreases |es|
  {
    hide Walk, Entered;
    if es != [] {
      var n := |es| - 1;
      DirsAre(args, es[..n], dev, path, v);
      assert forall e :: e in es <==> e in es[..n] || e == es[n];
    }
  }

  lemma {:induction false} BelowIs(args: Arguments, n: Node, path: Path, v: Visit)
    requires !n.faults.open
    ensures v in Below(args, n, path) <==> exists e :: Goes(args, n, e) && v in Walk(args, e, path + [e.name])
  {
    DirsAre(args, n.children, SeenDev(n), path, v);
    forall e ensures Goes(args, n, e) <==> Again(args, n.children) && e in n.children && Entered(args, SeenDev(n), e) {
      GoesIs(args, n, e);
    }
    hide Walk, Entered, Again, Goes;
  }

  lemma LongerChain(args: Arguments, n: Node, ns: seq<Node>, path: Path, v: Visit)
    requires |ns| > 0 && Goes(args, n, ns[0])
    ensures Chain(args, ns[0], ns) ==> Chain(args, n, [n] + ns)
    ensures AtEnd(args, [n] + ns, path, v) <==> AtEnd(args, ns, path + [ns[0].name], v)
  {
    hide Goes, Plain;
    var ms := [n] + ns;
    assert forall i :: 0 < i < |ms| ==> ms[i] == ns[i - 1];
    assert NamesOf(ms) == [ns[0].name] + NamesOf(ns);
    assert path + NamesOf(ms) == path + [ns[0].name] + NamesOf(ns);
  }

  lemma ShorterChain(args: Arguments, n: Node, ns: seq<Node>)
    requires Chain(args, n, ns) && |ns| > 1
    ensures Goes(args, n, ns[1]) && Chain(args, ns[1], ns[1..]) && ns == [n] + ns[1..]
  {
  }

  /** Every visible entry is visited, and nothing else. */
  lemma {:induction false} VisitsTheVisible(args: Arguments, n: Node, path: Path, v: Visit)
    ensures v in Walk(args, n, path) <==> Visible(args, n, path, v)
    decreases n
  {
    if v in Walk(args, n, path) { WalkedIsVisible(args, n, path, v); }
    if ns :| Chain(args, n, ns) && AtEnd(args, ns, path, v) { VisibleIsWalked(args, n, ns, path, v); }
  }

  lemma {:induction false} WalkedIsVisible(args: Arguments, n: Node, path: Path, v: Visit)
    requires v in Walk(args, n, path)
    ensures Visible(args, n, path, v)
    decreases n
  {
    FilesAre(args, n.children, path, v);
    BelowIs(args, n, path, v);
    hide Files, Below, Goes;
    if v in Below(args, n, path) {
      var e :| Goes(args, n, e) && v in Walk(args, e, path + [e.name]);
      ChildIsSmaller(args, n, e);
      WalkedIsVisible(args, e, path + [e.name], v);
      var ns :| Chain(args, e, ns) && AtEnd(args, ns, path + [e.name], v);
      LongerChain(args, n, ns, path, v);
    } else {
      assert path + NamesOf([n]) == path;
      assert Chain(args, n, [n]) && AtEnd(args, [n], path, v);
    }
  }

  lemma ChildIsSmaller(args: Arguments, n: Node, e: Node)
    requires Goes(args, n, e)
    ensures e in n.children
  {
  }

  lemma {:induction false} VisibleIsWalked(args: Arguments, n: Node, ns: seq<Node>, path: Path, v: Visit)
    requires Chain(args, n, ns) && AtEnd(args, ns, path, v)
    ensures v in Walk(args, n, path)
    decreases |ns|
  {
    FilesAre(args, n.children, path, v);
    if |ns| == 1 {
      assert path + NamesOf(ns) == path;
      hide Files, Below;
    } else {
      ShorterChain(args, n, ns);
      assert !n.faults.open;
      LongerChain(args, n, ns[1..], path, v);
      VisibleIsWalked(args, ns[1], ns[1..], path + [ns[1].name], v);
      BelowIs(args, n, path, v);
      hide Files, Below, Goes;
    }
  }

  // ---- when nothing fails ----

  ghost predicate Sound(n: Node)
    decreases n
  {
    && !n.faults.first && !n.faults.second && !n.faults.enter && !n.faults.open && !n.faults.dot
    && forall k :: 0 <= k < |n.children| ==> Sound(n.children[k])
  }

  /** An entry of a directory whose name is shown. */
  predicate Shows(args: Arguments, d: Node, e: Node) {
    d.isDir && e in d.children && !Hidden(args, e.name)
  }

  /** A chain of entries below a directory, each in the one before it, of which all names are shown
      and all but the last are directories. */
  ghost predicate ShownChain(args: Arguments, n: Node, ns: seq<Node>) {
    |ns| > 0 && ns[0] == n && forall i :: 0 < i < |ns| ==> Shows(args, ns[i - 1], ns[i])
  }

  lemma {:induction false} SoundChain(args: Arguments, n: Node, ns: seq<Node>, i: nat)
    requires Sound(n) && ShownChain(args, n, ns) && i < |ns|
    ensures Sound(ns[i])
  {
    if i > 0 {
      SoundChain(args, n, ns, i - 1);
      assert Shows(args, ns[i - 1], ns[i]);
    }
  }

  /** With recursion on all file systems and without failing calls, exactly the entries are visited
      of which no name on the way is hidden. */
  lemma {:induction false} VisitsTheShown(args: Arguments, n: Node, path: Path, v: Visit)
    requires args.recurse && !args.localFs && Sound(n) && n.isDir
    ensures v in Walk(args, n, path) <==>
      exists ns: seq<Node> :: ShownChain(args, n, ns) && v == Visit(path + NamesOf(ns), ns[|ns| - 1].isDir)
  {
    VisitsTheVisible(args, n, path, v);
    if v in Walk(args, n, path) { VisibleIsShown(args, n, path, v); }
    if ns: seq<Node> :| ShownChain(args, n, ns) && v == Visit(path + NamesOf(ns), ns[|ns| - 1].isDir) {
      ShownIsVisible(args, n, ns, path, v);
    }
  }

  lemma VisibleIsShown(args: Arguments, n: Node, path: Path, v: Visit)
    requires args.recurse && Visible(args, n, path, v) && n.isDir
    ensures exists ns: seq<Node> :: ShownChain(args, n, ns) && v == Visit(path + NamesOf(ns), ns[|ns| - 1].isDir)
  {
    var ns: seq<Node> :| Chain(args, n, ns) && AtEnd(args, ns, path, v);
    GoesIsShown(args, n, ns);
    hide Chain, Goes;
    var d := ns[|ns| - 1];
    if v != Visit(path + NamesOf(ns), true) {
      var e :| e in d.children && Plain(args, e) && v == Visit(path + NamesOf(ns) + [e.name], false);
      assert Shows(args, d, e);
      var ms := ns + [e];
      hide Shows, Plain;
      assert ShownChain(args, n, ms);
      assert NamesOf(ms) == NamesOf(ns) + [e.name];
      assert path + NamesOf(ms) == path + NamesOf(ns) + [e.name];
    }
  }

  lemma GoesIsShown(args: Arguments, n: Node, ns: seq<Node>)
    requires Chain(args, n, ns) && n.isDir
    ensures ShownChain(args, n, ns) && ns[|ns| - 1].isDir
  {
    forall i | 0 <= i < |ns| ensures ns[i].isDir { assert i > 0 ==> Goes(args, ns[i - 1], ns[i]); }
    forall i | 0 < i < |ns| ensures Shows(args, ns[i - 1], ns[i]) { assert Goes(args, ns[i - 1], ns[i]); }
  }

  lemma {:induction false} ShownGoes(args: Arguments, d: Node, e: Node)
    requires args.recurse && !args.localFs && Sound(d) && Sound(e) && Shows(args, d, e) && e.isDir
    ensures Goes(args, d, e)
  {
  }

  /** The directories of a chain without its last entry, if that is none. */
  lemma {:induction false} ShownDirs(args: Arguments, n: Node, ns: seq<Node>, ms: seq<Node>)
    requires args.recurse && !args.localFs && Sound(n) && n.isDir && ShownChain(args, n, ns)
    requires 0 < |ms| && ms <= ns && (|ms| == |ns| ==> ns[|ns| - 1].isDir)
    ensures Chain(args, n, ms)
  {
    forall i | 0 < i < |ms| ensures Goes(args, ms[i - 1], ms[i]) {
      SoundChain(args, n, ns, i - 1);
      SoundChain(args, n, ns, i);
      assert Shows(args, ns[i - 1], ns[i]);
      assert i + 1 < |ns| ==> Shows(args, ns[i], ns[i + 1]);
      ShownGoes(args, ns[i - 1], ns[i]);
    }
  }

  lemma {:induction false} ShownIsVisible(args: Arguments, n: Node, ns: seq<Node>, path: Path, v: Visit)
    requires args.recurse && !args.localFs && Sound(n) && n.isDir && ShownChain(args, n, ns)
    requires v == Visit(path + NamesOf(ns), ns[|ns| - 1].isDir)
    ensures Visible(args, n, path, v)
  {
    var m := |ns| - 1;
    SoundChain(args, n, ns, m);
    if ns[m].isDir {
      ShownDirs(args, n, ns, ns);
      assert AtEnd(args, ns, path, v);
    } else {
      var ms := ns[..m];
      SoundChain(args, n, ns, m - 1);
      ShownDirs(args, n, ns, ms);
      assert Shows(args, ns[m - 1], ns[m]);
      assert Plain(args, ns[m]) && ns[m] in ms[m - 1].children && !ms[m - 1].faults.open;
      hide Chain, Sound, Shows, Plain;
      assert NamesOf(ns) == NamesOf(ms) + [ns[m].name];
      assert path + NamesOf(ns) == path + NamesOf(ms) + [ns[m].name];
      assert AtEnd(args, ms, path, v);
    }
  }

  // ---- once, and in order ----

  /** Names in a directory are unique. */
  ghost predicate Tree(n: Node)
    decreases n
  {
    && (forall i, j :: 0 <= i < j < |n.children| ==> n.children[i].name != n.children[j].name)
    && (forall k :: 0 <= k < |n.children| ==> Tree(n.children[k]))
  }

  predicate Above(a: Path, b: Path) {
    |a| < |b| && a <= b
  }

  predicate Siblings(a: Path, b: Path) {
    0 < |a| == |b| && a[..|a| - 1] == b[..|b| - 1]
  }

  /** `a` has to come before `b`: a directory before what is in it, and the plain entries of a
      directory before the directories in it that are entered. */
  predicate First(a: Visit, b: Visit) {
    Above(a.path, b.path) || (Siblings(a.path, b.path) && !a.entered && b.entered)
  }

  /** No path twice, and everything after what has to come before it. */
  ghost predicate InOrder(s: seq<Visit>) {
    && (forall i, j :: 0 <= i < j < |s| ==> s[i].path != s[j].path)
    && (forall i, j :: 0 <= i < j < |s| ==> !First(s[j], s[i]))
  }

  ghost predicate NoClash(a: seq<Visit>, b: seq<Visit>) {
    forall x, y :: x in a && y in b ==> x.path != y.path && !First(y, x)
  }

  lemma InOrderConcat(a: seq<Visit>, b: seq<Visit>)
    requires InOrder(a) && InOrder(b) && NoClash(a, b)
    ensures InOrder(a + b)
  {
  }

  /** All visits below `path` lie at or below it, and only the first is at it. */
  lemma {:induction false} WalkIsBelow(args: Arguments, n: Node, path: Path, v: Visit)
    requires v in Walk(args, n, path)
    ensures path <= v.path && (v.path == path ==> v == Visit(path, true))
  {
    VisitsTheVisible(args, n, path, v);
    hide Walk, Plain;
    var ns: seq<Node> :| Chain(args, n, ns) && AtEnd(args, ns, path, v);
    assert path <= path + NamesOf(ns);
  }

  /** The plain entries of a directory do not disturb each other. */
  lemma {:induction false} FilesInOrder(args: Arguments, es: seq<Node>, path: Path)
    requires forall i, j :: 0 <= i < j < |es| ==> es[i].name != es[j].name
    ensures InOrder(Files(args, es, path))
    decreases |es|
  {
    if es != [] {
      var n := |es| - 1;
      var last := if Plain(args, es[n]) then [Visit(path + [es[n].name], false)] else [];
      PlainIs(args, es[n]);
      FilesInOrder(args, es[..n], path);
      forall x, y | x in Files(args, es[..n], path) && y in last ensures x.path != y.path && !First(y, x) {
        FilesAre(args, es[..n], path, x);
        var e :| e in es[..n] && Plain(args, e) && x == Visit(path + [e.name], false);
        assert e.name != es[n].name;
        assert x.path[|path|] == e.name && y.path[|path|] == es[n].name;
      }
      InOrderConcat(Files(args, es[..n], path), last);
    }
  }

  /** Below different names nothing is ordered. */
  lemma ApartNames(path: Path, a: string, b: string, x: Visit, y: Visit)
    requires a != b && path + [a] <= x.path && path + [b] <= y.path
    ensures x.path[|path|] != y.path[|path|]
    ensures x.path != y.path && !Above(x.path, y.path)
    ensures Siblings(x.path, y.path) ==> x.path == path + [a] && y.path == path + [b]
  {
  }

  lemma {:induction false} WalksApart(args: Arguments, e: Node, f: Node, path: Path, x: Visit, y: Visit)
    requires e.name != f.name
    requires x == Visit(path + [e.name], false) || x in Walk(args, e, path + [e.name])
    requires y in Walk(args, f, path + [f.name])
    ensures x.path != y.path && !First(y, x)
  {
    hide Walk;
    if x in Walk(args, e, path + [e.name]) { WalkIsBelow(args, e, path + [e.name], x); }
    WalkIsBelow(args, f, path + [f.name], y);
    ApartNames(path, f.name, e.name, y, x);
  }

  lemma {:induction false} DirsInOrder(args: Arguments, es: seq<Node>, dev: nat, path: Path)
    requires forall i, j :: 0 <= i < j < |es| ==> es[i].name != es[j].name
    requires forall k :: 0 <= k < |es| ==> Entered(args, dev, es[k]) ==> InOrder(Walk(args, es[k], path + [es[k].name]))
    ensures InOrder(Dirs(args, es, dev, path))
    decreases |es|
  {
    hide Walk, First, Entered;
    if es != [] {
      var n := |es| - 1;
      var before := Dirs(args, es[..n], dev, path);
      var last := if Entered(args, dev, es[n]) then Walk(args, es[n], path + [es[n].name]) else [];
      DirsInOrder(args, es[..n], dev, path);
      forall x, y | x in before && y in last ensures x.path != y.path && !First(y, x) {
        DirsAre(args, es[..n], dev, path, x);
        var e :| e in es[..n] && Entered(args, dev, e) && x in Walk(args, e, path + [e.name]);
        assert e.name != es[n].name;
        WalksApart(args, e, es[n], path, x, y);
      }
      InOrderConcat(before, last);
    }
  }

  lemma {:induction false} OtherName(n: Node, e: Node, f: Node)
    requires Tree(n) && e in n.children && f in n.children && e != f
    ensures e.name != f.name
  {
  }

  /** A plain entry is not entered: it is no directory, or there is no recursion. */
  lemma {:induction false} FilesBeforeDirs(args: Arguments, n: Node, path: Path)
    requires Tree(n) && !n.faults.open
    ensures NoClash(Files(args, n.children, path), Below(args, n, path))
  {
    forall x, y | x in Files(args, n.children, path) && y in Below(args, n, path)
      ensures x.path != y.path && !First(y, x)
    {
      FilesAre(args, n.children, path, x);
      BelowIs(args, n, path, y);
      var e :| e in n.children && Plain(args, e) && x == Visit(path + [e.name], false);
      var f :| Goes(args, n, f) && y in Walk(args, f, path + [f.name]);
      assert e != f && f in n.children;
      hide *;
      OtherName(n, e, f);
      WalksApart(args, e, f, path, x, y);
    }
  }

  lemma {:induction false} DirectoryFirst(args: Arguments, n: Node, path: Path)
    requires !n.faults.open
    ensures NoClash(Top(n, path), Files(args, n.children, path) + Below(args, n, path))
  {
    hide Walk, Files, Below, Goes, Plain;
    forall y | y in Files(args, n.children, path) + Below(args, n, path)
      ensures y.path != path && !First(y, Visit(path, true))
    {
      FilesAre(args, n.children, path, y);
      BelowIs(args, n, path, y);
      if y in Below(args, n, path) {
        var f :| Goes(args, n, f) && y in Walk(args, f, path + [f.name]);
        WalkIsBelow(args, f, path + [f.name], y);
      }
      assert |y.path| > |path|;
    }
  }

  /** Nothing is visited twice, a directory comes before its content, and in it the plain entries
      come before the directories that are entered. */
  lemma {:induction false} WalkInOrder(args: Arguments, n: Node, path: Path)
    requires Tree(n)
    ensures InOrder(Walk(args, n, path))
    decreases n
  {
    FewInOrder(n, path);
    if !n.faults.open {
      var files, below := Files(args, n.children, path), Below(args, n, path);
      assert Walk(args, n, path) == Top(n, path) + (files + below);
      forall k | 0 <= k < |n.children| ensures InOrder(Walk(args, n.children[k], path + [n.children[k].name])) {
        hide *;
        WalkInOrder(args, n.children[k], path + [n.children[k].name]);
      }
      hide InOrder, Walk, Files, Dirs, Top;
      FilesInOrder(args, n.children, path);
      DirsInOrder(args, n.children, SeenDev(n), path);
      assert InOrder(below);
      FilesBeforeDirs(args, n, path);
      InOrderConcat(files, below);
      DirectoryFirst(args, n, path);
      InOrderConcat(Top(n, path), files + below);
    }
  }

  lemma FewInOrder(n: Node, path: Path)
    ensures InOrder([]) && InOrder(Top(n, path))
  {
  }
}
