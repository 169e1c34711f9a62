/** mkdirRecursive: creating the directories above a path. */
module MakeDirs {

  import opened PathNames

  // ---- the file system ----

  datatype Errno = Ok | EEXIST | ENOENT | EOther

  class Tree {
    var dirs: set<seq<string>>
    const others: set<seq<string>>      // names of files that are no directories
    const faults: nat -> bool           // the calls that fail for reasons of their own
    var calls: nat
    var refused: bool                   // some call failed with neither EEXIST nor ENOENT

    ghost predicate Valid()
      reads this
    {
      && [] in dirs && dirs !! others
      && forall c :: c in dirs + others && c != [] ==> c[..|c| - 1] in dirs
    }

    ghost predicate Exists(c: seq<string>)
      reads this
    {
      c in dirs + others
    }

    /** A directory `c` may be impossible to make: calls fail for reasons of their own, or a name
        on the way to it is no directory. */
    ghost predicate Hindered(c: seq<string>) {
      (exists n :: faults(n)) || exists k :: 0 <= k < |c| && c[..k] in others
    }

    constructor (dirs: set<seq<string>>, others: set<seq<string>>, faults: nat -> bool)
      requires [] in dirs && dirs !! others && forall c :: c in dirs + others && c != [] ==> c[..|c| - 1] in dirs
      ensures Valid() && this.dirs == dirs && this.others == others && !refused
    {
      this.dirs, this.others, this.faults, calls, refused := dirs, others, faults, 0, false;
    }

    /** mkdir(2) */
    method Mkdir(path: string) returns (e: Errno)
      requires Valid()
      modifies this
      ensures Valid()
      ensures dirs == if e == Ok then old(dirs) + {Components(path)} else old(dirs)
      ensures refused <==> old(refused) || e == EOther
      ensures e == EEXIST ==> Exists(Components(path)) && path != ""
      ensures e == Ok ==> path != ""
      ensures e == ENOENT ==> path == "" || |Components(path)| >= 2
      ensures e == ENOENT && path != "" ==>
        !Exists(Components(path)) && !Exists(Components(path)[..|Components(path)| - 1])
      ensures path == "" ==> e == ENOENT || e == EOther
      ensures e == EOther ==> Hindered(Components(path))
      // exactly: a call fails for a reason of its own, or else the path decides
      ensures calls == old(calls) + 1
      ensures e == Ok <==>
        && !faults(old(calls)) && path != "" && Components(path) !in old(dirs) + others
        && Components(path)[..|Components(path)| - 1] in old(dirs)
      ensures e == EEXIST <==> !faults(old(calls)) && path != "" && Components(path) in old(dirs) + others
    {
      hide Components, LastSlash;
      var c := Components(path);
      var fault := faults(calls);
      calls := calls + 1;
      if fault { e := EOther; }
      else if path == "" { e := ENOENT; }
      else if c in dirs || c in others { e := EEXIST; }
      else if c[..|c| - 1] in dirs {
        dirs := dirs + {c};
        e := Ok;
      }
      else if exists k :: 0 <= k < |c| && c[..k] in others { e := EOther; }  // ENOTDIR
      else { e := ENOENT; }
      refused := refused || e == EOther;
    }
  }

  // ---- the program ----

  datatype Single = Fail | Success | Skip

  /** mkdirSingle: the buffer is cut at `end` for the call, and mended unless the call fails. */
  method MkdirSingle(tree: Tree, buf: array<char>, end: nat, skipMissing: bool) returns (r: Single)
    requires tree.Valid() && end < buf.Length && buf[end] == '/'
    modifies tree, buf
    ensures tree.Valid() && (r != Fail ==> buf[..] == old(buf[..]))
    ensures var path := old(buf[..end]); var c := Components(path);
      && (r == Success ==>
            path != "" && tree.Exists(c) && (tree.dirs == old(tree.dirs) || tree.dirs == old(tree.dirs) + {c}))
      && (r != Success ==> tree.dirs == old(tree.dirs))
      && (r == Skip ==> skipMissing && (path == "" || (|c| >= 2 && !tree.Exists(c))))
      && (r == Fail ==> tree.refused || (!skipMissing && (path == "" || (c != [] && !tree.Exists(c[..|c| - 1])))))
    ensures r != Fail ==> tree.refused == old(tree.refused)
    ensures old(tree.refused) ==> tree.refused
    ensures tree.refused ==> old(tree.refused) || tree.Hindered(Components(old(buf[..end])))
    ensures old(buf[..end]) == "" ==> r != Success
  {
    buf[end] := '\0';
    assert buf[..end] == old(buf[..end]);
    var e := tree.Mkdir(buf[..end]);
    if e == Ok || e == EEXIST {
      buf[end] := '/';
      r := Success;
    } else if e == ENOENT && skipMissing {
      buf[end] := '/';
      r := Skip;
    } else {
      r := Fail;
    }
  }

  /** rstrchr; the leading slash stops it. */
  method FindBackward(buf: array<char>, from: nat) returns (i: nat)
    requires from < buf.Length && buf[0] == '/'
    ensures i <= from && buf[i] == '/' && forall j :: i < j <= from ==> buf[j] != '/'
  {
    i := from;
    while buf[i] != '/'
      invariant 0 <= i <= from && forall j :: i < j <= from ==> buf[j] != '/'
      decreases i
    {
      i := i - 1;
    }
  }

  /** strchr; -1 when there is none in front of the terminator. */
  method FindForward(buf: array<char>, from: nat) returns (i: int)
    requires from < buf.Length
    ensures i == -1 || (from <= i < buf.Length - 1 && buf[i] == '/')
    ensures forall j :: from <= j < (if i == -1 then buf.Length - 1 else i) ==> buf[j] != '/'
  {
    i := from;
    while i < buf.Length - 1
      invariant from <= i <= buf.Length - 1 || i == from
      invariant forall j :: from <= j < i ==> buf[j] != '/'
    {
      if buf[i] == '/' { return; }
      i := i + 1;
    }
    i := -1;
  }

  predicate OnlyLeadingSlash(p: string) {
    |p| > 1 && forall j :: 1 <= j < |p| ==> p[j] != '/'
  }

  /** The directories that a path may need: those named up to one of its slashes. */
  ghost predicate Ancestor(p: string, c: seq<string>) {
    exists j :: SlashAt(p, j) && c == Components(p[..j])
  }

  ghost predicate Hindered(tree: Tree, p: string) {
    exists j :: SlashAt(p, j) && tree.Hindered(Components(p[..j]))
  }

  ghost predicate OnlyAncestorsAdded(p: string, before: set<seq<string>>, after: set<seq<string>>) {
    before <= after && forall c :: c in after && c !in before ==> Ancestor(p, c)
  }

  ghost predicate AncestorsExist(tree: Tree, p: string, upto: int)
    reads tree
  {
    forall j :: SlashAt(p, j) && j <= upto ==> tree.Exists(Components(p[..j]))
  }

  lemma {:induction false} PrefixExists(tree: Tree, c: seq<string>, d: seq<string>)
    requires tree.Valid() && tree.Exists(d) && c <= d
    ensures tree.Exists(c) && (c != d ==> c in tree.dirs)
    decreases |d|
  {
    if c != d {
      assert d[..|d| - 1] in tree.dirs;
      assert c <= d[..|d| - 1];
      PrefixExists(tree, c, d[..|d| - 1]);
    }
  }

  lemma AllBelowExist(tree: Tree, p: string, i: int)
    requires tree.Valid() && SlashAt(p, i) && tree.Exists(Components(p[..i]))
    ensures AncestorsExist(tree, p, i)
  {
    forall j | SlashAt(p, j) && j <= i ensures tree.Exists(Components(p[..j])) {
      EarlierSlash(p, j, i);
      PrefixExists(tree, Components(p[..j]), Components(p[..i]));
    }
  }

  /** One round of the first loop: the nearest slash at or before `from`. */
  method TryBackward(tree: Tree, buf: array<char>, path: string, from: nat) returns (r: Single, s: int)
    requires tree.Valid() && 0 < from < |path| && path[0] == '/' && buf[..] == path + ['\0']
    modifies tree, buf
    ensures tree.Valid() && 0 <= s <= from && SlashAt(path, s) && forall j :: s < j <= from ==> path[j] != '/'
    ensures OnlyAncestorsAdded(path, old(tree.dirs), tree.dirs)
    ensures r != Fail ==> buf[..] == path + ['\0'] && tree.refused == old(tree.refused)
    ensures r == Success ==> s > 0 && AncestorsExist(tree, path, s)
    ensures r == Skip ==> tree.dirs == old(tree.dirs) && (s > 0 ==> |Components(path[..s])| >= 2)
    ensures r == Fail ==> tree.refused
    ensures tree.refused ==> old(tree.refused) || Hindered(tree, path)
    ensures old(tree.refused) ==> tree.refused
  {
    hide Components, LastSlash;
    assert forall j :: 0 <= j < |path| ==> buf[j] == path[j];
    s := FindBackward(buf, from);
    assert buf[..s] == path[..s] && SlashAt(path, s);
    r := MkdirSingle(tree, buf, s, true);
    if r == Success { AllBelowExist(tree, path, s); }
    assert Ancestor(path, Components(path[..s]));
  }

  /** The first loop: from the last slash backward to a directory that exists or can be made.  It
      stops at -1 only if the path has no slash but the leading one. */
  method FindExisting(tree: Tree, buf: array<char>, path: string) returns (r: Single, at: int)
    requires tree.Valid() && |path| > 1 && path[0] == '/' && buf[..] == path + ['\0']
    modifies tree, buf
    ensures tree.Valid() && OnlyAncestorsAdded(path, old(tree.dirs), tree.dirs)
    ensures r == Success ==> SlashAt(path, at) && AncestorsExist(tree, path, at)
    ensures r == Skip ==> OnlyLeadingSlash(path)
    ensures r != Fail ==> buf[..] == path + ['\0'] && tree.refused == old(tree.refused)
    ensures r == Fail ==> tree.refused
    ensures tree.refused ==> old(tree.refused) || Hindered(tree, path)
    ensures old(tree.refused) ==> tree.refused
    ensures OnlyLeadingSlash(path) ==> r != Success
  {
    hide Components, LastSlash, AncestorsExist, Ancestor, DeepBeyond;
    DeepStart(path);
    var ptr: int := |path| - 1;
    while ptr > 0
      invariant -1 <= ptr < |path| && ptr != 0 && buf[..] == path + ['\0'] && tree.Valid()
      invariant tree.dirs == old(tree.dirs) && tree.refused == old(tree.refused)
      invariant DeepBeyond(path, ptr)
    {
      r, at := TryBackward(tree, buf, path, ptr);
      if r != Skip { return; }
      DeepStep(path, ptr, at);
      ptr := at - 1;
    }
    r, at := Skip, ptr;
    NoSecondSlash(path);
  }

  /** Every slash behind `ptr` ends a path of two names or more. */
  ghost predicate DeepBeyond(path: string, ptr: int) {
    forall j :: ptr < j && SlashAt(path, j) && j > 0 ==> |Components(path[..j])| >= 2
  }

  lemma DeepStart(path: string)
    ensures DeepBeyond(path, |path| - 1)
  {
  }

  lemma DeepStep(path: string, ptr: int, s: int)
    requires |path| > 1 && path[0] == '/' && DeepBeyond(path, ptr) && ptr < |path| && SlashAt(path, s)
    requires (forall j :: s < j <= ptr ==> path[j] != '/') && (s > 0 ==> |Components(path[..s])| >= 2)
    ensures DeepBeyond(path, s - 1) && s != 1
  {
  }

  lemma RootExists(tree: Tree, path: string)
    requires tree.Valid() && |path| == 1
    ensures AncestorsExist(tree, path, 0)
  {
  }

  lemma RootHasNoNames(path: string)
    requires |path| > 1 && path[0] == '/'
    ensures path[1] == '/' ==> Components(path[..1]) == []
    ensures Components("") == []
  {
  }

  lemma NoSecondSlash(path: string)
    requires |path| > 1 && path[0] == '/' && DeepBeyond(path, -1)
    ensures OnlyLeadingSlash(path)
  {
    forall j | 1 <= j < |path| ensures path[j] != '/' {
      if path[j] == '/' {
        var i := FirstSlashAfter(path, 1, j);
        NextSlash(path, 0, i);
        RootHasNoNames(path);
        assert false;
      }
    }
  }

  ghost function FirstSlashAfter(path: string, from: int, j: int): (i: int)
    requires 0 <= from <= j < |path| && path[j] == '/'
    ensures from <= i <= j && path[i] == '/' && forall k :: from <= k < i ==> path[k] != '/'
    decreases j - from
  {
    if path[from] == '/' then from else FirstSlashAfter(path, from + 1, j)
  }

  /** What is above the next slash is there when what is above this one is. */
  lemma NextParentExists(tree: Tree, path: string, i: int, j: int)
    requires tree.Valid() && SlashAt(path, i) && SlashAt(path, j) && i < j && forall k :: i < k < j ==> path[k] != '/'
    requires tree.Exists(Components(path[..i]))
    ensures var c := Components(path[..j]); c != [] ==> tree.Exists(c[..|c| - 1])
  {
    NextSlash(path, i, j);
    var b, c := Components(path[..i]), Components(path[..j]);
    if c != [] && c != b { assert c[..|c| - 1] == b; }
  }

  /** One round of the second loop. */
  method TryForward(tree: Tree, buf: array<char>, path: string, done: int, next: int) returns (ok: bool)
    requires tree.Valid() && SlashAt(path, done) && SlashAt(path, next) && done < next
    requires forall k :: done < k < next ==> path[k] != '/'
    requires buf[..] == path + ['\0'] && AncestorsExist(tree, path, done)
    modifies tree, buf
    ensures tree.Valid() && OnlyAncestorsAdded(path, old(tree.dirs), tree.dirs)
    ensures ok ==> AncestorsExist(tree, path, next) && buf[..] == path + ['\0'] && tree.refused == old(tree.refused)
    ensures !ok ==> tree.refused
    ensures tree.refused ==> old(tree.refused) || Hindered(tree, path)
  {
    NextParentExists(tree, path, done, next);
    hide Components, LastSlash;
    assert buf[..next] == path[..next] && path[..next] != "";
    ghost var dirs := tree.dirs;
    assert forall c :: tree.Exists(c) ==> c in dirs + tree.others;
    var r := MkdirSingle(tree, buf, next, false);
    if r == Success { AllBelowExist(tree, path, next); }
    assert Ancestor(path, Components(path[..next]));
    ok := r == Success;
  }

  /** mkdirRecursive: it succeeds exactly if the path is absolute, is not a single name below the
      root, and no call fails for a reason other than EEXIST and ENOENT; then everything above the
      path is a directory, but that a file may stand in the place of the deepest one.  Whatever
      happens, nothing but ancestors of the path is created.  If calls do not fail for reasons of
      their own, what decides is whether a name above the deepest directory is a file. */
  method MkdirRecursive(tree: Tree, path: string) returns (ok: bool)
    requires tree.Valid() && !tree.refused
    modifies tree
    ensures tree.Valid() && OnlyAncestorsAdded(path, old(tree.dirs), tree.dirs)
    ensures ok <==>
      && path != "" && path[0] == '/' && !tree.refused
      && (path == "/" || exists k :: 0 < k < |path| && path[k] == '/')
    ensures ok ==> AncestorsAreDirectories(tree, path)
    ensures tree.refused ==> Hindered(tree, path)
    ensures path != "" && path[0] == '/' && (forall n :: !tree.faults(n))
            && (path == "/" || exists k :: 0 < k < |path| && path[k] == '/') ==>
      (ok <==> !exists k :: 0 <= k < |Deepest(path)| && Deepest(path)[..k] in tree.others)
  {
    ok := MakeAncestors(tree, path);
    if path != "" && path[0] == '/' {
      hide Components, LastSlash, Hindered, AncestorsExist, AncestorsAreDirectories, OnlyAncestorsAdded;
      if ok { AllButDeepest(tree, path); }
      if (forall n :: !tree.faults(n)) && tree.refused { FileOnTheWay(tree, path); }
    }
  }

  /** The directory that the path lies in. */
  function Deepest(p: string): seq<string>
    requires p != "" && p[0] == '/'
  {
    Components(p[..LastSlash(p)])
  }

  /** EEXIST counts as success, so that a file may stand in the place of the deepest directory: it is
      the only ancestor that may be a file. */
  ghost predicate AncestorsAreDirectories(tree: Tree, p: string)
    reads tree
  {
    forall j :: 0 <= j < |p| && p[j] == '/' ==>
      var c := Components(p[..j]); c in tree.dirs || (p[0] == '/' && c == Deepest(p) && c in tree.others)
  }

  lemma AllButDeepest(tree: Tree, path: string)
    requires tree.Valid() && path != "" && path[0] == '/' && AncestorsExist(tree, path, |path|)
    ensures AncestorsAreDirectories(tree, path)
    ensures !exists k :: 0 <= k < |Deepest(path)| && Deepest(path)[..k] in tree.others
  {
    hide Components;
    var i := LastSlash(path);
    assert SlashAt(path, i) && Deepest(path) == Components(path[..i]);
    forall j | SlashAt(path, j) && Components(path[..j]) != Deepest(path) ensures Components(path[..j]) in tree.dirs {
      EarlierSlash(path, j, i);
      PrefixExists(tree, Components(path[..j]), Deepest(path));
    }
    forall k | 0 <= k < |Deepest(path)| ensures Deepest(path)[..k] !in tree.others {
      PrefixExists(tree, Deepest(path)[..k], Deepest(path));
    }
  }

  lemma FileOnTheWay(tree: Tree, path: string)
    requires path != "" && path[0] == '/' && Hindered(tree, path) && forall n :: !tree.faults(n)
    ensures exists k :: 0 <= k < |Deepest(path)| && Deepest(path)[..k] in tree.others
  {
    hide Components;
    var j :| SlashAt(path, j) && tree.Hindered(Components(path[..j]));
    var c, d := Components(path[..j]), Deepest(path);
    var k :| 0 <= k < |c| && c[..k] in tree.others;
    EarlierSlash(path, j, LastSlash(path));
    assert d[..k] == c[..k];
  }

  method MakeAncestors(tree: Tree, path: string) returns (ok: bool)
    requires tree.Valid() && !tree.refused
    modifies tree
    ensures tree.Valid() && OnlyAncestorsAdded(path, old(tree.dirs), tree.dirs)
    ensures ok <==> path != "" && path[0] == '/' && !OnlyLeadingSlash(path) && !tree.refused
    ensures ok ==> AncestorsExist(tree, path, |path|)
    ensures tree.refused ==> Hindered(tree, path)
  {
    if path == "" || path[0] != '/' { return false; }
    var buf := new char[|path| + 1](i requires 0 <= i <= |path| => if i < |path| then path[i] else '\0');
    assert buf[..] == path + ['\0'];
    var r, at := Success, 0;
    if |path| == 1 { RootExists(tree, path); } else { r, at := FindExisting(tree, buf, path); }
    if r == Fail { return false; }
    if r == Skip {
      // the second loop starts at the leading slash and tries to create ""
      assert buf[0] == '/' && buf[..0] == path[..0] == "" && SlashAt(path, 0);
      var s := MkdirSingle(tree, buf, 0, false);
      return false;
    }
    ok := MakeForward(tree, buf, path, at);
  }

  method MakeForward(tree: Tree, buf: array<char>, path: string, at: int) returns (ok: bool)
    requires tree.Valid() && SlashAt(path, at) && AncestorsExist(tree, path, at) && buf[..] == path + ['\0']
    modifies tree, buf
    ensures tree.Valid() && OnlyAncestorsAdded(path, old(tree.dirs), tree.dirs)
    ensures ok ==> AncestorsExist(tree, path, |path|) && buf[..] == path + ['\0'] && tree.refused == old(tree.refused)
    ensures !ok ==> tree.refused
    ensures tree.refused ==> old(tree.refused) || Hindered(tree, path)
  {
    hide Components, LastSlash;
    var done := at;
    while true
      invariant SlashAt(path, done) && tree.Valid() && AncestorsExist(tree, path, done)
      invariant buf[..] == path + ['\0'] && tree.refused == old(tree.refused)
      invariant OnlyAncestorsAdded(path, old(tree.dirs), tree.dirs)
      decreases |path| - done
    {
      assert forall j :: 0 <= j < |path| ==> buf[j] == path[j];
      var next := FindForward(buf, done + 1);
      if next == -1 { return true; }
      ok := TryForward(tree, buf, path, done, next);
      if !ok { return false; }
      done := next;
    }
  }
}
