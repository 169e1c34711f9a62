/** fstool: the walk that lsxid, chxid, setattr and showattr share. */
module FsTool {
  import opened Optional

  /** Which calls fail on a node: lstat of it in the first and in the second pass over the directory
      that holds it, chdir into it, and, once inside, opendir(".") and lstat(".").  After a failed
      lstat(".") the device that is compared is whatever the memory holds. */
  datatype Faults = Faults(first: bool, second: bool, enter: bool, open: bool, dot: bool, garbage: nat)

  datatype Node = Node(name: string, isDir: bool, dev: nat, children: seq<Node>, faults: Faults)

  datatype Arguments = Arguments(recurse: bool, displayDot: bool, displayDir: bool, localFs: bool)

  type Path = seq<string>

  /** A call of handleFile: for a directory that is entered, as ".", or for an entry in it. */
  datatype Visit = Visit(path: Path, entered: bool)

  /** isSpecialDir */
  predicate IsSpecial(args: Arguments, d: string) {
    || (d != "" && d[0] == '.' && !args.displayDot)
    || d == "." || d == ".."
  }

  /** The device that entries are compared with. */
  function SeenDev(n: Node): nat {
    if n.faults.dot then n.faults.garbage else n.dev
  }

  /** Entries that the first pass handles. */
  predicate Handled(args: Arguments, e: Node) {
    !IsSpecial(args, e.name) && !e.faults.first && !(e.isDir && args.recurse)
  }

  /** Entries for which the first pass asks for a second one. */
  predicate Deferred(args: Arguments, e: Node) {
    !IsSpecial(args, e.name) && !e.faults.first && e.isDir && args.recurse
  }

  predicate Again(args: Arguments, es: seq<Node>) {
    exists k :: 0 <= k < |es| && Deferred(args, es[k])
  }

  /** Entries that the second pass wants to enter, and those that it does. */
  predicate Wanted(args: Arguments, dev: nat, e: Node) {
    !IsSpecial(args, e.name) && !e.faults.second && e.isDir && (args.localFs ==> e.dev == dev)
  }

  predicate Entered(args: Arguments, dev: nat, e: Node) {
    Wanted(args, dev, e) && !e.faults.enter
  }

  // ---- what is visited, in order ----

  function Files(args: Arguments, es: seq<Node>, path: Path): seq<Visit> {
    if es == [] then []
    else
      var e := es[|es| - 1];
      Files(args, es[..|es| - 1], path) + EntryFile(args, e, path)
  }

  function EntryFile(args: Arguments, e: Node, path: Path): seq<Visit> {
    if Handled(args, e) then [Visit(path + [e.name], false)] else []
  }

  function Dirs(args: Arguments, es: seq<Node>, dev: nat, path: Path): seq<Visit>
    decreases es, 0
  {
    if es == [] then []
    else
      var e := es[|es| - 1];
      Dirs(args, es[..|es| - 1], dev, path) + EntryVisits(args, e, dev, path)
  }

  function EntryVisits(args: Arguments, e: Node, dev: nat, path: Path): seq<Visit>
    decreases e, 3
  {
    if Entered(args, dev, e) then Walk(args, e, path + [e.name]) else []
  }

  function Top(n: Node, path: Path): seq<Visit> {
    if n.faults.dot then [] else [Visit(path, true)]
  }

  function Below(args: Arguments, n: Node, path: Path): seq<Visit>
    decreases n, 1
  {
    if Again(args, n.children) then Dirs(args, n.children, SeenDev(n), path) else []
  }

  function Walk(args: Arguments, n: Node, path: Path): seq<Visit>
    decreases n, 2
  {
    if n.faults.open then [] else Top(n, path) + Files(args, n.children, path) + Below(args, n, path)
  }

  // ---- what goes wrong ----

  function Failures(log: seq<Visit>, ok: Visit -> bool): nat {
    if log == [] then 0 else Failures(log[..|log| - 1], ok) + if ok(log[|log| - 1]) then 0 else 1
  }

  lemma {:induction false} FailuresConcat(a: seq<Visit>, b: seq<Visit>, ok: Visit -> bool)
    ensures Failures(a + b, ok) == Failures(a, ok) + Failures(b, ok)
    decreases |b|
  {
    if b == [] {
      assert a + b == a;
    } else {
      FailuresConcat(a, b[..|b| - 1], ok);
      assert (a + b)[..|a + b| - 1] == a + b[..|b| - 1];
    }
  }

  /** The failed calls other than handleFile that are counted; lstat(".") is not. */
  function FirstErrors(args: Arguments, es: seq<Node>): nat {
    if es == [] then 0
    else
      var e := es[|es| - 1];
      FirstErrors(args, es[..|es| - 1]) + if FailsFirst(args, e) then 1 else 0
  }

  predicate FailsFirst(args: Arguments, e: Node) {
    !IsSpecial(args, e.name) && e.faults.first
  }

  function SecondErrors(args: Arguments, es: seq<Node>, dev: nat): nat
    decreases es, 0
  {
    if es == [] then 0
    else
      var e := es[|es| - 1];
      SecondErrors(args, es[..|es| - 1], dev) + EntryErrors(args, e, dev)
  }

  function EntryErrors(args: Arguments, e: Node, dev: nat): nat
    decreases e, 2
  {
    if !IsSpecial(args, e.name) && e.faults.second then 1
    else if Entered(args, dev, e) then Errors(args, e)
    else if Wanted(args, dev, e) then 1 else 0
  }

  function Errors(args: Arguments, n: Node): nat
    decreases n, 1
  {
    if n.faults.open then 1
    else
      FirstErrors(args, n.children) +
      if Again(args, n.children) then SecondErrors(args, n.children, SeenDev(n)) else 0
  }

  // ---- the same in terms of the entries and the failing calls alone ----

  /** A name that is never shown, or only on demand. */
  predicate Hidden(args: Arguments, name: string) {
    name == "." || name == ".." || (name != "" && name[0] == '.' && !args.displayDot)
  }

  /** With recursion, a directory is gone through a second time if it holds a directory that is shown
      and that lstat finds. */
  ghost predicate GoesOn(args: Arguments, d: Node) {
    && !d.faults.open && args.recurse
    && exists e :: e in d.children && e.isDir && !Hidden(args, e.name) && !e.faults.first
  }

  /** A directory that is then to be entered: not one on another file system, if that matters. */
  predicate ToEnter(args: Arguments, d: Node, e: Node) {
    && e.isDir && !Hidden(args, e.name) && !e.faults.second
    && (args.localFs ==> e.dev == if d.faults.dot then d.faults.garbage else d.dev)
  }

  /** A directory is gone through, and `e` in it is entered. */
  ghost predicate Goes(args: Arguments, d: Node, e: Node) {
    GoesOn(args, d) && e in d.children && ToEnter(args, d, e) && !e.faults.enter
  }

  lemma HiddenIs(args: Arguments, name: string)
    ensures Hidden(args, name) <==> IsSpecial(args, name)
  {
  }

  lemma GoesOnIs(args: Arguments, d: Node)
    requires !d.faults.open
    ensures GoesOn(args, d) <==> Again(args, d.children)
  {
    forall e: Node ensures Hidden(args, e.name) <==> IsSpecial(args, e.name) { HiddenIs(args, e.name); }
    hide Hidden, IsSpecial;
  }

  lemma GoesIs(args: Arguments, d: Node, e: Node)
    ensures Goes(args, d, e) <==>
      !d.faults.open && Again(args, d.children) && e in d.children && Entered(args, SeenDev(d), e)
  {
    if !d.faults.open { GoesOnIs(args, d); }
    HiddenIs(args, e.name);
    hide GoesOn, Again, Hidden, IsSpecial;
  }

  /** The entry that a chain of child positions leads to. */
  function NodeAt(n: Node, ks: seq<nat>): Option<Node> {
    if ks == [] then Some(n)
    else if ks[0] < |n.children| then NodeAt(n.children[ks[0]], ks[1..]) else None
  }

  /** The directory after the first `i` positions is gone through, and the one at the next is entered. */
  ghost predicate GoesAt(args: Arguments, n: Node, ks: seq<nat>, i: nat)
    requires i < |ks|
  {
    var d, e := NodeAt(n, ks[..i]), NodeAt(n, ks[..i + 1]);
    d.Some? && e.Some? && Goes(args, d.value, e.value)
  }

  /** A chain of positions of directories that are all entered. */
  ghost predicate Reached(args: Arguments, n: Node, ks: seq<nat>) {
    NodeAt(n, ks).Some? && forall i :: 0 <= i < |ks| ==> GoesAt(args, n, ks, i)
  }

  /** A call other than handleFile whose failure is counted: opendir of a directory, lstat of an entry in
      it in the first and in the second pass, and chdir into it. */
  datatype Call = Opendir(at: seq<nat>) | FirstLstat(at: seq<nat>, k: nat)
                | SecondLstat(at: seq<nat>, k: nat) | Chdir(at: seq<nat>, k: nat)

  /** A call that fails when the directory `d` is walked. */
  ghost predicate FailsIn(args: Arguments, d: Node, c: Call) {
    if c.Opendir? then d.faults.open
    else
      && !d.faults.open && c.k < |d.children|
      && var e := d.children[c.k];
         match c
         case FirstLstat(_, _) => !Hidden(args, e.name) && e.faults.first
         case SecondLstat(_, _) => GoesOn(args, d) && !Hidden(args, e.name) && e.faults.second
         case Chdir(_, _) => GoesOn(args, d) && ToEnter(args, d, e) && e.faults.enter
  }

  /** The call is made, and fails. */
  ghost predicate CallFails(args: Arguments, n: Node, c: Call) {
    Reached(args, n, c.at) && FailsIn(args, NodeAt(n, c.at).value, c)
  }

  // ---- the failing calls, counted ----

  function Under(k: nat, c: Call): Call {
    match c
    case Opendir(at) => Opendir([k] + at)
    case FirstLstat(at, i) => FirstLstat([k] + at, i)
    case SecondLstat(at, i) => SecondLstat([k] + at, i)
    case Chdir(at, i) => Chdir([k] + at, i)
  }

  ghost function AllUnder(k: nat, cs: seq<Call>): (r: seq<Call>) {
    seq(|cs|, i requires 0 <= i < |cs| => Under(k, cs[i]))
  }

  ghost function FirstFailing(args: Arguments, es: seq<Node>): seq<Call> {
    if es == [] then []
    else
      var n := |es| - 1;
      FirstFailing(args, es[..n]) + if FailsFirst(args, es[n]) then [FirstLstat([], n)] else []
  }

  ghost function SecondFailing(args: Arguments, es: seq<Node>, dev: nat): seq<Call>
    decreases es, 0
  {
    if es == [] then []
    else
      var n := |es| - 1;
      SecondFailing(args, es[..n], dev) + EntryFailing(args, es[n], n, dev)
  }

  ghost function EntryFailing(args: Arguments, e: Node, k: nat, dev: nat): seq<Call>
    decreases e, 2
  {
    if !IsSpecial(args, e.name) && e.faults.second then [SecondLstat([], k)]
    else if Entered(args, dev, e) then AllUnder(k, Failing(args, e))
    else if Wanted(args, dev, e) then [Chdir([], k)] else []
  }

  ghost function Failing(args: Arguments, n: Node): seq<Call>
    decreases n, 1
  {
    if n.faults.open then [Opendir([])]
    else
      FirstFailing(args, n.children) +
      if Again(args, n.children) then SecondFailing(args, n.children, SeenDev(n)) else []
  }

  lemma {:induction false} FirstFailingCount(args: Arguments, es: seq<Node>)
    ensures |FirstFailing(args, es)| == FirstErrors(args, es)
  {
    if es != [] {
      hide FailsFirst;
      FirstFailingCount(args, es[..|es| - 1]);
    }
  }

  lemma {:induction false} FailingCount(args: Arguments, n: Node)
    ensures |Failing(args, n)| == Errors(args, n)
    decreases n, 1
  {
    hide Again, FirstFailing, SecondFailing, FirstErrors, SecondErrors;
    FirstFailingCount(args, n.children);
    SecondFailingCount(args, n.children, SeenDev(n));
  }

  lemma {:induction false} SecondFailingCount(args: Arguments, es: seq<Node>, dev: nat)
    ensures |SecondFailing(args, es, dev)| == SecondErrors(args, es, dev)
    decreases es, 0
  {
    if es != [] {
      var n := |es| - 1;
      SecondFailingCount(args, es[..n], dev);
      FailingCount(args, es[n]);
      hide Failing, Errors, IsSpecial, Wanted, Entered;
    }
  }

  // ---- no failing call is left out, or counted twice ----

  function Deeper(c: Call): Call
    requires c.at != []
  {
    c.(at := c.at[1..])
  }

  ghost predicate FailsFrom(args: Arguments, n: Node, c: Call)
    decreases |c.at|
  {
    if c.at == [] then FailsIn(args, n, c)
    else
      && c.at[0] < |n.children| && Goes(args, n, n.children[c.at[0]])
      && FailsFrom(args, n.children[c.at[0]], Deeper(c))
  }

  lemma {:induction false} FirstFailingAre(args: Arguments, es: seq<Node>, c: Call)
    ensures c in FirstFailing(args, es) <==>
      c.FirstLstat? && c.at == [] && c.k < |es| && FailsFirst(args, es[c.k])
    decreases |es|
  {
    if es != [] {
      hide FailsFirst;
      FirstFailingAre(args, es[..|es| - 1], c);
    }
  }

  lemma UnderIs(k: nat, cs: seq<Call>, c: Call)
    ensures c in AllUnder(k, cs) <==> c.at != [] && c.at[0] == k && Deeper(c) in cs
  {
    if c.at != [] && c.at[0] == k && Deeper(c) in cs {
      var i :| 0 <= i < |cs| && cs[i] == Deeper(c);
      assert c.at == [k] + c.at[1..];
      assert AllUnder(k, cs)[i] == c;
    }
  }

  lemma {:induction false} EntryFailingAre(args: Arguments, e: Node, k: nat, dev: nat, c: Call)
    ensures c in EntryFailing(args, e, k, dev) <==>
      || (c == SecondLstat([], k) && !IsSpecial(args, e.name) && e.faults.second)
      || (c == Chdir([], k) && Wanted(args, dev, e) && e.faults.enter)
      || (c.at != [] && c.at[0] == k && Entered(args, dev, e) && Deeper(c) in Failing(args, e))
  {
    UnderIs(k, Failing(args, e), c);
    hide Failing, IsSpecial, AllUnder;
  }

  lemma {:induction false} SecondFailingAre(args: Arguments, es: seq<Node>, dev: nat, c: Call)
    ensures c in SecondFailing(args, es, dev) <==>
      if c.at == [] then
        && !c.Opendir? && c.k < |es|
        && var e := es[c.k];
           || (c.SecondLstat? && !IsSpecial(args, e.name) && e.faults.second)
           || (c.Chdir? && Wanted(args, dev, e) && e.faults.enter)
      else c.at[0] < |es| && Entered(args, dev, es[c.at[0]]) && FailsFrom(args, es[c.at[0]], Deeper(c))
    decreases es, 0
  {
    if es != [] {
      var n := |es| - 1;
      SecondFailingAre(args, es[..n], dev, c);
      EntryFailingAre(args, es[n], n, dev, c);
      if c.at != [] { FailingAre(args, es[n], Deeper(c)); }
      hide Failing, IsSpecial, Wanted, Entered, EntryFailing, FailsFrom, Deeper;
    }
  }

  lemma {:induction false} FailingAre(args: Arguments, n: Node, c: Call)
    ensures c in Failing(args, n) <==> FailsFrom(args, n, c)
    decreases n, 1
  {
    FirstFailingAre(args, n.children, c);
    SecondFailingAre(args, n.children, SeenDev(n), c);
    if !n.faults.open { GoesOnIs(args, n); }
    hide FirstFailing, SecondFailing, GoesOn, Again;
    if c.at == [] {
      FailsInIs(args, n, c);
      hide FailsIn, FailsFirst, IsSpecial;
    } else if c.at[0] < |n.children| {
      GoesIs(args, n, n.children[c.at[0]]);
      hide Goes, Entered, Deeper;
    }
  }

  lemma FailsInIs(args: Arguments, n: Node, c: Call)
    ensures c.Opendir? ==> (FailsIn(args, n, c) <==> n.faults.open)
    ensures !c.Opendir? && c.k < |n.children| && !n.faults.open ==>
      var e := n.children[c.k];
      FailsIn(args, n, c) <==>
        || (c.FirstLstat? && FailsFirst(args, e))
        || (c.SecondLstat? && Again(args, n.children) && !IsSpecial(args, e.name) && e.faults.second)
        || (c.Chdir? && Again(args, n.children) && Wanted(args, SeenDev(n), e) && e.faults.enter)
  {
    if !n.faults.open { GoesOnIs(args, n); }
    if !c.Opendir? && c.k < |n.children| { HiddenIs(args, n.children[c.k].name); }
    hide GoesOn, Again, IsSpecial, Hidden;
  }

  ghost predicate Distinct(cs: seq<Call>) {
    forall i, j :: 0 <= i < j < |cs| ==> cs[i] != cs[j]
  }

  lemma DistinctConcat(a: seq<Call>, b: seq<Call>)
    requires Distinct(a) && Distinct(b) && forall c :: c in a ==> c !in b
    ensures Distinct(a + b)
  {
    forall i, j | 0 <= i < j < |a + b| ensures (a + b)[i] != (a + b)[j] {
      if i < |a| <= j { assert a[i] in a && b[j - |a|] in b; }
    }
  }

  lemma {:induction false} FirstFailingDiffer(args: Arguments, es: seq<Node>)
    ensures Distinct(FirstFailing(args, es))
    decreases |es|
  {
    if es != [] {
      var n := |es| - 1;
      FirstFailingDiffer(args, es[..n]);
      FirstFailingAre(args, es[..n], FirstLstat([], n));
      hide FailsFirst;
    }
  }

  lemma {:induction false} EntryFailingDiffer(args: Arguments, e: Node, k: nat, dev: nat)
    ensures Distinct(EntryFailing(args, e, k, dev))
    decreases e, 2
  {
    FailingDiffer(args, e);
    hide Failing, IsSpecial;
    var cs := Failing(args, e);
    forall i, j | 0 <= i < j < |cs| ensures Under(k, cs[i]) != Under(k, cs[j]) {
      assert Deeper(Under(k, cs[i])) == cs[i] && Deeper(Under(k, cs[j])) == cs[j];
    }
  }

  lemma {:induction false} SecondFailingDiffer(args: Arguments, es: seq<Node>, dev: nat)
    ensures Distinct(SecondFailing(args, es, dev))
    decreases es, 0
  {
    if es != [] {
      var n := |es| - 1;
      SecondFailingDiffer(args, es[..n], dev);
      EntryFailingDiffer(args, es[n], n, dev);
      hide EntryFailing, IsSpecial, Wanted, Entered, FailsFrom;
      forall c | c in SecondFailing(args, es[..n], dev) ensures c !in EntryFailing(args, es[n], n, dev) {
        SecondFailingAre(args, es[..n], dev, c);
        EntryFailingAre(args, es[n], n, dev, c);
      }
      DistinctConcat(SecondFailing(args, es[..n], dev), EntryFailing(args, es[n], n, dev));
    }
  }

  lemma {:induction false} FailingDiffer(args: Arguments, n: Node)
    ensures Distinct(Failing(args, n))
    decreases n, 1
  {
    if !n.faults.open {
      FirstFailingDiffer(args, n.children);
      SecondFailingDiffer(args, n.children, SeenDev(n));
      hide FirstFailing, SecondFailing, Again, FailsFrom;
      forall c | c in FirstFailing(args, n.children) ensures c !in SecondFailing(args, n.children, SeenDev(n)) {
        FirstFailingAre(args, n.children, c);
        SecondFailingAre(args, n.children, SeenDev(n), c);
      }
      DistinctConcat(FirstFailing(args, n.children), SecondFailing(args, n.children, SeenDev(n)));
    }
  }

  lemma ReachedStep(args: Arguments, n: Node, ks: seq<nat>)
    requires ks != []
    ensures Reached(args, n, ks) <==>
      ks[0] < |n.children| && Goes(args, n, n.children[ks[0]]) && Reached(args, n.children[ks[0]], ks[1..])
  {
    hide Goes;
    assert ks[..0] == [];
    assert ks[..1][0] == ks[0] && ks[..1][1..] == [];
    if ks[0] < |n.children| {
      var c, rest := n.children[ks[0]], ks[1..];
      forall i | 0 <= i < |rest| ensures GoesAt(args, n, ks, i + 1) <==> GoesAt(args, c, rest, i) {
        assert ks[..i + 1][1..] == rest[..i] && ks[..i + 1][0] == ks[0];
        assert ks[..i + 2][1..] == rest[..i + 1] && ks[..i + 2][0] == ks[0];
      }
      assert NodeAt(n, ks) == NodeAt(c, rest);
      assert NodeAt(n, ks[..0]) == Some(n) && NodeAt(n, ks[..1]) == Some(c);
      assert GoesAt(args, n, ks, 0) <==> Goes(args, n, c);
      hide GoesAt, NodeAt;
      if forall i :: 0 <= i < |rest| ==> GoesAt(args, c, rest, i) {
        forall i | 0 < i < |ks| ensures GoesAt(args, n, ks, i) { assert GoesAt(args, c, rest, i - 1); }
      }
      if forall i :: 0 <= i < |ks| ==> GoesAt(args, n, ks, i) {
        forall i | 0 <= i < |rest| ensures GoesAt(args, c, rest, i) { assert GoesAt(args, n, ks, i + 1); }
      }
    }
  }

  lemma {:induction false} FailsFromIs(args: Arguments, n: Node, c: Call)
    ensures FailsFrom(args, n, c) <==> CallFails(args, n, c)
    decreases |c.at|
  {
    hide Goes, FailsIn;
    if c.at != [] {
      ReachedStep(args, n, c.at);
      hide Reached;
      if c.at[0] < |n.children| {
        FailsFromIs(args, n.children[c.at[0]], Deeper(c));
        SameFailure(args, NodeAt(n, c.at), c);
      }
    }
  }

  lemma SameFailure(args: Arguments, d: Option<Node>, c: Call)
    requires c.at != []
    ensures d.Some? ==> (FailsIn(args, d.value, Deeper(c)) <==> FailsIn(args, d.value, c))
  {
  }

  /** All calls that fail, each once. */
  ghost function FailedCalls(args: Arguments, n: Node): (calls: seq<Call>)
    ensures Distinct(calls) && forall c :: c in calls <==> CallFails(args, n, c)
  {
    FailingDiffer(args, n);
    FailingAreAll(args, n);
    Failing(args, n)
  }

  lemma {:induction false} FailingAreAll(args: Arguments, n: Node)
    ensures forall c :: c in Failing(args, n) <==> CallFails(args, n, c)
  {
    hide Failing, CallFails, FailsFrom;
    forall c ensures c in Failing(args, n) <==> CallFails(args, n, c) {
      FailingAre(args, n, c);
      FailsFromIs(args, n, c);
    }
  }

  /** They are as many as are counted. */
  lemma {:induction false} ErrorsAreFailingCalls(args: Arguments, n: Node)
    ensures |FailedCalls(args, n)| == Errors(args, n)
  {
    FailingCount(args, n);
  }

  /** The positions of a log at which handleFile failed. */
  ghost function Rejected(log: seq<Visit>, ok: Visit -> bool): set<nat> {
    set i: nat | i < |log| && !ok(log[i])
  }

  lemma {:induction false} FailuresAreRejected(log: seq<Visit>, ok: Visit -> bool)
    ensures Failures(log, ok) == |Rejected(log, ok)|
  {
    if log != [] {
      var n := |log| - 1;
      FailuresAreRejected(log[..n], ok);
      assert Rejected(log, ok) == Rejected(log[..n], ok) + if ok(log[n]) then {} else {n};
    }
  }

  /** An error count is the number of visits that handleFile rejects and of other calls that fail; so it
      is zero if and only if nothing fails. */
  ghost predicate CountRight(args: Arguments, n: Node, log: seq<Visit>, ok: Visit -> bool, err: nat) {
    && err == |Rejected(log, ok)| + |FailedCalls(args, n)|
    && (err == 0 <==> (forall i :: 0 <= i < |log| ==> ok(log[i])) && forall c :: !CallFails(args, n, c))
  }

  lemma {:induction false} CountIsRight(args: Arguments, n: Node, log: seq<Visit>, ok: Visit -> bool)
    ensures CountRight(args, n, log, ok, Failures(log, ok) + Errors(args, n))
  {
    ErrorsAreFailingCalls(args, n);
    FailuresAreRejected(log, ok);
    hide Failures, Errors, CallFails, Distinct, Failing;
    assert Rejected(log, ok) == {} <==> forall i :: 0 <= i < |log| ==> ok(log[i]) by {
      if i :| 0 <= i < |log| && !ok(log[i]) { assert i in Rejected(log, ok); }
    }
    var failed := FailedCalls(args, n);
    if failed != [] { assert failed[0] in failed; }
  }

  // ---- the program ----

  class Walker {
    const args: Arguments
    const ok: Visit -> bool   // what handleFile returns
    var log: seq<Visit>

    constructor (args: Arguments, ok: Visit -> bool)
      ensures this.args == args && this.ok == ok && log == []
    {
      this.args, this.ok, log := args, ok, [];
    }

    method HandleFile(v: Visit) returns (err: nat)
      modifies `log
      ensures log == old(log) + [v] && err == Failures([v], ok) == if ok(v) then 0 else 1
    {
      log := log + [v];
      err := if ok(v) then 0 else 1;
      assert [v][..0] == [];
    }

    /** iterateFilesystem */
    method IterateFilesystem(n: Node, path: Path) returns (err: nat)
      modifies `log
      ensures log == old(log) + Walk(args, n, path) && err == Failures(Walk(args, n, path), ok) + Errors(args, n)
      ensures CountRight(args, n, log[|old(log)|..], ok, err)
      decreases n, 1
    {
      CountIsRight(args, n, Walk(args, n, path), ok);
      hide CountRight;
      NoFailures(ok);
      hide Files, Dirs, Failures, IsSpecial, Again, FirstErrors, SecondErrors;
      if n.faults.open { return 1; }
      ghost var a, b, c := Top(n, path), Files(args, n.children, path), Below(args, n, path);
      FailuresConcat(a, b, ok);
      FailuresConcat(a + b, c, ok);
      err := 0;
      if !n.faults.dot { err := HandleFile(Visit(path, true)); }
      assert log == old(log) + a;
      var more, doAgain := FirstPass(n.children, path);
      err := err + more;
      assert log == old(log) + (a + b);
      if doAgain {
        more := SecondPass(n.children, SeenDev(n), path);
        err := err + more;
      }
      assert log == old(log) + (a + b + c);
    }

    method FirstPass(es: seq<Node>, path: Path) returns (err: nat, doAgain: bool)
      modifies `log
      ensures log == old(log) + Files(args, es, path)
      ensures err == Failures(Files(args, es, path), ok) + FirstErrors(args, es)
      ensures doAgain <==> Again(args, es)
    {
      Nothing(args, 0, path, ok);
      hide Files, FirstErrors, Again, Failures, Handled;
      err, doAgain := 0, false;
      var i := 0;
      assert es[..0] == [];
      while i < |es|
        invariant 0 <= i <= |es| && log == old(log) + Files(args, es[..i], path)
        invariant err == Failures(Files(args, es[..i], path), ok) + FirstErrors(args, es[..i])
        invariant doAgain <==> Again(args, es[..i])
      {
        FirstStep(args, es, i, path, ok);
        ghost var done := Files(args, es[..i], path);
        var more, again := FirstEntry(es[i], path);
        err, doAgain, i := err + more, doAgain || again, i + 1;
        assert log == old(log) + (done + EntryFile(args, es[i - 1], path));
      }
      assert es[..i] == es;
    }

    method FirstEntry(e: Node, path: Path) returns (err: nat, again: bool)
      modifies `log
      ensures log == old(log) + EntryFile(args, e, path)
      ensures err == Failures(EntryFile(args, e, path), ok) + if FailsFirst(args, e) then 1 else 0
      ensures again <==> Deferred(args, e)
    {
      NoFailures(ok);
      hide Failures;
      assert log + [] == log;
      err, again := 0, false;
      if !IsSpecial(args, e.name) {
        if e.faults.first {
          err := 1;
        } else if e.isDir && args.recurse {
          again := true;
        } else {
          err := HandleFile(Visit(path + [e.name], false));
        }
      }
    }

    method SecondPass(es: seq<Node>, dev: nat, path: Path) returns (err: nat)
      modifies `log
      ensures log == old(log) + Dirs(args, es, dev, path)
      ensures err == Failures(Dirs(args, es, dev, path), ok) + SecondErrors(args, es, dev)
      decreases es, 0
    {
      Nothing(args, dev, path, ok);
      hide *;
      err := 0;
      var i := 0;
      assert es[..0] == [];
      while i < |es|
        invariant 0 <= i <= |es| && log == old(log) + Dirs(args, es[..i], dev, path)
        invariant err == Failures(Dirs(args, es[..i], dev, path), ok) + SecondErrors(args, es[..i], dev)
      {
        SecondStep(args, es, i, dev, path, ok);
        ghost var done := Dirs(args, es[..i], dev, path);
        var more := SecondEntry(es[i], dev, path);
        err, i := err + more, i + 1;
        assert log == old(log) + (done + EntryVisits(args, es[i - 1], dev, path));
      }
      assert es[..i] == es;
    }

    method SecondEntry(e: Node, dev: nat, path: Path) returns (err: nat)
      modifies `log
      ensures log == old(log) + EntryVisits(args, e, dev, path)
      ensures err == Failures(EntryVisits(args, e, dev, path), ok) + EntryErrors(args, e, dev)
      decreases e, 2
    {
      NoFailures(ok);
      hide Walk, Errors, Failures;
      assert log + [] == log;
      err := 0;
      if !IsSpecial(args, e.name) {
        if e.faults.second {
          err := 1;
        } else if e.isDir && !(args.localFs && e.dev != dev) {
          if e.faults.enter {
            err := 1;
          } else {
            err := IterateFilesystem(e, path + [e.name]);
          }
        }
      }
    }
  }

  lemma NoFailures(ok: Visit -> bool)
    ensures Failures([], ok) == 0
  {
  }

  lemma {:induction false} Nothing(args: Arguments, dev: nat, path: Path, ok: Visit -> bool)
    ensures Files(args, [], path) == [] && Dirs(args, [], dev, path) == [] && Failures([], ok) == 0
    ensures FirstErrors(args, []) == SecondErrors(args, [], dev) == 0 && !Again(args, [])
  {
  }

  lemma {:induction false} FirstStep(args: Arguments, es: seq<Node>, i: nat, path: Path, ok: Visit -> bool)
    requires i < |es|
    ensures Files(args, es[..i + 1], path) == Files(args, es[..i], path) + EntryFile(args, es[i], path)
    ensures Failures(Files(args, es[..i + 1], path), ok) ==
      Failures(Files(args, es[..i], path), ok) + Failures(EntryFile(args, es[i], path), ok)
    ensures FirstErrors(args, es[..i + 1]) == FirstErrors(args, es[..i]) + if FailsFirst(args, es[i]) then 1 else 0
    ensures Again(args, es[..i + 1]) <==> Again(args, es[..i]) || Deferred(args, es[i])
  {
    var s := es[..i + 1];
    assert s[..i] == es[..i] && s[i] == es[i];
    AgainStep(args, es, i);
    FailuresConcat(Files(args, es[..i], path), EntryFile(args, es[i], path), ok);
    hide EntryFile, FailsFirst, Again, Failures;
  }

  lemma {:induction false} SecondStep(args: Arguments, es: seq<Node>, i: nat, dev: nat, path: Path, ok: Visit -> bool)
    requires i < |es|
    ensures Dirs(args, es[..i + 1], dev, path) == Dirs(args, es[..i], dev, path) + EntryVisits(args, es[i], dev, path)
    ensures Failures(Dirs(args, es[..i + 1], dev, path), ok) ==
      Failures(Dirs(args, es[..i], dev, path), ok) + Failures(EntryVisits(args, es[i], dev, path), ok)
    ensures SecondErrors(args, es[..i + 1], dev) == SecondErrors(args, es[..i], dev) + EntryErrors(args, es[i], dev)
  {
    var s := es[..i + 1];
    assert s[..i] == es[..i] && s[i] == es[i];
    FailuresConcat(Dirs(args, es[..i], dev, path), EntryVisits(args, es[i], dev, path), ok);
    hide EntryVisits, EntryErrors, Failures;
  }

  lemma AgainStep(args: Arguments, es: seq<Node>, i: nat)
    requires i < |es|
    ensures Again(args, es[..i + 1]) <==> Again(args, es[..i]) || Deferred(args, es[i])
  {
  }

  /** processFile; `stat` is whether lstat of the path fails. */
  method ProcessFile(args: Arguments, n: Node, path: Path, stat: bool, ok: Visit -> bool)
    returns (err: nat, log: seq<Visit>)
    ensures log ==
      if stat then [] else if n.isDir && !args.displayDir then Walk(args, n, path) else [Visit(path, false)]
    ensures if stat then err == 1
            else if n.isDir && !args.displayDir then CountRight(args, n, log, ok, err)
            else err == if ok(Visit(path, false)) then 0 else 1
  {
    hide Walk, Errors, Failures, CountRight;
    if stat { return 1, []; }
    var w := new Walker(args, ok);
    if n.isDir && !args.displayDir {
      err := w.IterateFilesystem(n, path);
      assert w.log[0..] == w.log;
    } else {
      err := w.HandleFile(Visit(path, false));
    }
    log := w.log;
  }
}
