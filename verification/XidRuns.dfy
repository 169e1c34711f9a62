/** Sequences of lookups in lsxid's cache, and the sets of ids for which it is transparent. */
module XidRuns {
  import opened Optional
  import opened SelfOrg
  import opened Sets
  import opened XidCache
  import Vector

  /** A lookup, with what the resolver would say at that time. */
  datatype Ask = Ask(xid: nat, answer: Name)

  /** When an id is asked for the first time. */
  function FirstAsk(asks: seq<Ask>, xid: nat): (k: nat)
    ensures k <= |asks| && (k < |asks| ==> asks[k].xid == xid) && forall i :: 0 <= i < k ==> asks[i].xid != xid
  {
    FirstMatch(asks, (a: Ask) => a.xid == xid)
  }

  function Distinct(asks: seq<Ask>): set<nat> {
    set i | 0 <= i < |asks| :: asks[i].xid
  }

  /** What the cache knows after `n` lookups. */
  function After(asks: seq<Ask>, n: nat): map<nat, Name>
    requires n <= |asks|
  {
    if n == 0 then map[]
    else
      var prev := After(asks, n - 1);
      if asks[n - 1].xid in prev then prev else prev[asks[n - 1].xid := asks[n - 1].answer]
  }

  /** It is the answers that were given when each id was first asked for. */
  lemma {:induction false} AfterIsFirst(asks: seq<Ask>, n: nat, xid: nat)
    requires n <= |asks|
    ensures xid in After(asks, n) <==> FirstAsk(asks, xid) < n
    ensures xid in After(asks, n) ==> After(asks, n)[xid] == asks[FirstAsk(asks, xid)].answer
  {
    if n > 0 { AfterIsFirst(asks, n - 1, xid); }
  }

  lemma {:induction false} AfterKeys(asks: seq<Ask>)
    ensures After(asks, |asks|).Keys == Distinct(asks)
  {
    forall x ensures x in After(asks, |asks|) <==> x in Distinct(asks) {
      if x in After(asks, |asks|) || x in Distinct(asks) {
        AfterIsFirst(asks, |asks|, x);
        if x in Distinct(asks) {
          var i :| 0 <= i < |asks| && asks[i].xid == x;
          assert !(i < FirstAsk(asks, x));
        }
      }
    }
  }

  /** The vector after `n` lookups. */
  function VectorAfter(asks: seq<Ask>, n: nat): seq<Mapping>
    requires n <= |asks|
  {
    if n == 0 then [] else Looked(VectorAfter(asks, n - 1), asks[n - 1].xid, asks[n - 1].answer)
  }

  /** How often the resolver has been asked in `n` lookups. */
  function Calls(asks: seq<Ask>, n: nat): nat
    requires n <= |asks|
  {
    if n == 0 then 0 else Calls(asks, n - 1) + if Found(VectorAfter(asks, n - 1), asks[n - 1].xid) < 0 then 1 else 0
  }

  lemma Unfold(asks: seq<Ask>, n: nat)
    requires n < |asks|
    ensures VectorAfter(asks, n + 1) == Looked(VectorAfter(asks, n), asks[n].xid, asks[n].answer)
    ensures Calls(asks, n + 1) == Calls(asks, n) + if Found(VectorAfter(asks, n), asks[n].xid) < 0 then 1 else 0
  {
  }

  /** Any sequence of lookups, in one window or not. */
  method LookupAll(asks: seq<Ask>) returns (names: seq<Name>, calls: nat)
    ensures |names| == |asks| && calls == Calls(asks, |asks|)
    ensures forall i :: 0 <= i < |asks| ==> names[i] == Told(VectorAfter(asks, i), asks[i].xid, asks[i].answer)
  {
    var cache := new Cache();
    names, calls := [], 0;
    assert Progress(asks, names, calls, []);
    while |names| < |asks|
      invariant cache.Valid() && fresh(cache) && fresh(cache.vec) && fresh(cache.vec.data)
      invariant Progress(asks, names, calls, cache.vec.Contents())
    {
      ghost var s := cache.vec.Contents();
      var xid, answer := asks[|names|].xid, asks[|names|].answer;
      var name, asked := cache.LookupContext(xid, answer);
      OneMore(asks, names, calls, s);
      hide *;
      names := names + [name];
      if asked { calls := calls + 1; }
    }
  }

  /** Where a sequence of lookups stands after the first |names| of them. */
  ghost predicate Progress(asks: seq<Ask>, names: seq<Name>, calls: nat, s: seq<Mapping>) {
    && |names| <= |asks| && s == VectorAfter(asks, |names|) && calls == Calls(asks, |names|)
    && forall i :: 0 <= i < |names| ==> names[i] == Told(VectorAfter(asks, i), asks[i].xid, asks[i].answer)
  }

  lemma OneMore(asks: seq<Ask>, names: seq<Name>, calls: nat, s: seq<Mapping>)
    requires |names| < |asks| && Progress(asks, names, calls, s)
    ensures var Ask(xid, answer) := asks[|names|];
      Progress(asks, names + [Told(s, xid, answer)], calls + (if Found(s, xid) < 0 then 1 else 0),
               Looked(s, xid, answer))
  {
    hide VectorAfter, Calls, Told, Found, Looked;
    Unfold(asks, |names|);
    var t := names + [Told(s, asks[|names|].xid, asks[|names|].answer)];
    forall i | 0 <= i < |t| ensures t[i] == Told(VectorAfter(asks, i), asks[i].xid, asks[i].answer) {
      assert i < |names| ==> t[i] == names[i];
    }
  }

  // ---- transparency ----

  /** Whatever the resolver says later, every lookup returns what it said when the id was first
      asked for, and it is asked once for each id. */
  ghost predicate Transparent(asks: seq<Ask>) {
    && (forall i :: 0 <= i < |asks| ==> FirstAsk(asks, asks[i].xid) <= i && ToldFirst(asks, i))
    && Calls(asks, |asks|) == |Distinct(asks)|
  }

  ghost predicate ToldFirst(asks: seq<Ask>, i: nat)
    requires i < |asks| && FirstAsk(asks, asks[i].xid) <= i
  {
    Told(VectorAfter(asks, i), asks[i].xid, asks[i].answer) == asks[FirstAsk(asks, asks[i].xid)].answer
  }

  ghost predicate From(asks: seq<Ask>, ids: set<nat>) {
    forall i :: 0 <= i < |asks| ==> asks[i].xid in ids
  }

  ghost predicate OneWindow(ids: set<nat>, lo: int) {
    forall x :: x in ids ==> InWindow(lo, x)
  }

  /** Exactly 2^31 apart: each of the two ids compares as below the other. */
  ghost predicate Opposite(x: nat, y: nat) {
    (x - y) % TWO32 == TWO31
  }

  /** Two ids, or three of which no two are opposite. */
  ghost predicate Few(ids: set<nat>) {
    |ids| <= 2 || (|ids| == 3 && forall x, y :: x in ids && y in ids ==> !Opposite(x, y))
  }

  ghost predicate Safe(ids: set<nat>) {
    (exists lo :: OneWindow(ids, lo)) || Few(ids)
  }

  // ---- few ids ----

  /** The shapes that a vector of at most three ids takes. */
  ghost predicate Lined(s: seq<Mapping>) {
    && |s| <= 3 && (forall i :: 0 <= i < |s| ==> s[i].xid < TWO32)
    && (|s| >= 2 ==> CmpMap(s[0].xid, s[1]) < 0)
    && (|s| == 3 ==> CmpMap(s[2].xid, s[1]) > 0)
  }

  lemma LinedIsSearchable(s: seq<Mapping>)
    requires Lined(s)
    ensures Searchable(s)
  {
    forall i | 0 <= i < |s| ensures Found(s, s[i].xid) == i {
      assert CmpMap(s[i].xid, s[i]) == 0;
      hide CmpMap;
      if |s| == 2 && i == 0 {
        assert Vector.Bsearch(s, Cmp(s[0].xid), 0, 1) == 0;
      }
      if |s| == 3 && i == 0 {
        assert Vector.Bsearch(s, Cmp(s[0].xid), 0, 1) == 0;
      }
      if |s| == 3 && i == 2 {
        assert Vector.Bsearch(s, Cmp(s[2].xid), 2, 3) == 2;
      }
    }
  }

  /** Of two ids one compares as below the other; only opposite ones do so both ways. */
  lemma CmpTurns(x: nat, y: nat, m: Mapping, n: Mapping)
    requires x < TWO32 && y < TWO32 && m.xid == x && n.xid == y
    ensures CmpMap(x, n) > 0 ==> CmpMap(y, m) < 0
    ensures CmpMap(x, n) < 0 && !Opposite(x, y) ==> CmpMap(y, m) > 0
    ensures CmpMap(x, n) == 0 <==> x == y
  {
  }

  lemma {:induction false} LinedInsert(ids: set<nat>, s: seq<Mapping>, m: Mapping)
    requires Few(ids) && Lined(s) && |s| < |ids| && m.xid in ids && m.xid < TWO32
    requires forall i :: 0 <= i < |s| ==> s[i].xid in ids && s[i].xid != m.xid
    ensures Lined(Inserted(s, FirstMatch(s, Below(m.xid)), m))
  {
    hide CmpMap, Opposite, Inserted;
    var at := FirstMatch(s, Below(m.xid));
    assert forall i :: 0 <= i < at ==> !Below(m.xid)(s[i]);
    assert at < |s| ==> Below(m.xid)(s[at]);
    if |s| > 0 { CmpTurns(m.xid, s[0].xid, m, s[0]); }
    if |s| == 2 {
      CmpTurns(m.xid, s[1].xid, m, s[1]);
      CmpTurns(s[0].xid, s[1].xid, s[0], s[1]);
    }
    LinedAt(s, at, m);
  }

  lemma LinedAt(s: seq<Mapping>, at: nat, m: Mapping)
    requires at <= |s| < 3 && Lined(s) && m.xid < TWO32
    requires at < |s| ==> CmpMap(m.xid, s[at]) < 0
    requires 0 < at ==> CmpMap(s[at - 1].xid, m) < 0
    requires |s| == 2 && at == 0 ==> CmpMap(s[1].xid, s[0]) > 0
    requires |s| == 2 && at == 1 ==> CmpMap(s[1].xid, m) > 0
    requires |s| == 2 && at == 2 ==> CmpMap(m.xid, s[1]) > 0
    ensures Lined(Inserted(s, at, m))
  {
  }

  // ---- safe sets are transparent ----

  /** The vector of a run from `ids` is sorted by a window, or one of few ids. */
  ghost predicate Arranged(ids: set<nat>, s: seq<Mapping>) {
    (exists lo :: OneWindow(ids, lo) && Sorted(s, lo)) || (Few(ids) && Lined(s))
  }

  lemma ArrangedIsSearchable(ids: set<nat>, s: seq<Mapping>)
    requires Arranged(ids, s)
    ensures Searchable(s)
  {
    hide Sorted, Lined, Searchable, Few;
    if lo :| OneWindow(ids, lo) && Sorted(s, lo) { SortedIsSearchable(s, lo); } else { LinedIsSearchable(s); }
  }

  lemma {:induction false} ArrangedInsert(ids: set<nat>, s: seq<Mapping>, m: Mapping)
    requires Arranged(ids, s) && |s| < |ids| && m.xid in ids && m.xid < TWO32
    requires forall i :: 0 <= i < |s| ==> s[i].xid in ids && s[i].xid != m.xid
    ensures Arranged(ids, Inserted(s, FirstMatch(s, Below(m.xid)), m))
  {
    hide Sorted, Lined, Few, FirstMatch, Inserted, InWindow;
    if lo :| OneWindow(ids, lo) && Sorted(s, lo) { InsertKeepsSorted(s, lo, m); } else { LinedInsert(ids, s, m); }
  }

  ghost predicate Ids32(ids: set<nat>) {
    forall x :: x in ids ==> x < TWO32
  }

  /** What holds after any number of lookups from a safe set. */
  ghost predicate Going(ids: set<nat>, s: seq<Mapping>, known: map<nat, Name>) {
    Arranged(ids, s) && Holds(s, known) && |s| == |known| && known.Keys <= ids
  }

  lemma GoingOn(ids: set<nat>, s: seq<Mapping>, known: map<nat, Name>, xid: nat, answer: Name)
    requires Going(ids, s, known) && xid in ids && xid < TWO32
    ensures var name := if xid in known then known[xid] else answer;
      && Told(s, xid, answer) == name && (Found(s, xid) < 0 <==> xid !in known)
      && Going(ids, Looked(s, xid, answer), known[xid := name])
  {
    ArrangedIsSearchable(ids, s);
    LookupKeeps(s, known, xid, answer);
    if xid !in known { NewIsArranged(ids, s, known, Mapping(xid, answer)); }
    hide Arranged, Searchable, Holds, Found, FirstMatch, Inserted;
    KnownGrows(known, xid, if xid in known then known[xid] else answer);
  }

  lemma KnownGrows(known: map<nat, Name>, xid: nat, name: Name)
    requires xid in known ==> known[xid] == name
    ensures xid in known ==> known[xid := name] == known
    ensures known[xid := name].Keys == known.Keys + {xid}
    ensures |known[xid := name]| == if xid in known then |known| else |known| + 1
  {
  }

  lemma {:induction false} NewIsArranged(ids: set<nat>, s: seq<Mapping>, known: map<nat, Name>, m: Mapping)
    requires Going(ids, s, known) && m.xid in ids && m.xid < TWO32 && m.xid !in known
    ensures Arranged(ids, Inserted(s, FirstMatch(s, Below(m.xid)), m))
  {
    hide Arranged;
    SmallerSet(known.Keys, ids, m.xid);
    assert |known.Keys| == |known|;
    assert forall i :: 0 <= i < |s| ==> s[i].xid in known;
    hide Holds, FirstMatch, Inserted;
    ArrangedInsert(ids, s, m);
  }

  lemma {:induction false} AfterStep(asks: seq<Ask>, n: nat)
    requires n < |asks|
    ensures var Ask(xid, answer) := asks[n]; var prev := After(asks, n);
      var name := if xid in prev then prev[xid] else answer;
      && After(asks, n + 1) == prev[xid := name]
      && |After(asks, n + 1)| == (if xid in prev then |prev| else |prev| + 1)
  {
  }

  lemma {:induction false} VectorIsGoing(asks: seq<Ask>, n: nat, ids: set<nat>)
    requires n <= |asks| && Ids32(ids) && Safe(ids) && From(asks, ids)
    ensures Going(ids, VectorAfter(asks, n), After(asks, n)) && Calls(asks, n) == |After(asks, n)|
  {
    if n == 0 {
      assert Going(ids, [], map[]) by { StartIsGoing(ids); }
    } else {
      var m := n - 1;
      Unfold(asks, m);
      AfterStep(asks, m);
      assert asks[m].xid in ids && asks[m].xid < TWO32;
      hide *;
      VectorIsGoing(asks, m, ids);
      GoingOn(ids, VectorAfter(asks, m), After(asks, m), asks[m].xid, asks[m].answer);
    }
  }

  lemma StartIsGoing(ids: set<nat>)
    requires Safe(ids)
    ensures Going(ids, [], map[])
  {
  }

  /** The cache is transparent for the ids of any window, such as all ids below 2^31, and for few
      ids. */
  lemma CacheIsTransparent(asks: seq<Ask>, ids: set<nat>)
    requires Ids32(ids) && Safe(ids) && From(asks, ids)
    ensures Transparent(asks)
  {
    assert Transparent(asks) by {
      hide *;
      forall i | 0 <= i < |asks|
        ensures FirstAsk(asks, asks[i].xid) <= i && ToldFirst(asks, i)
      {
        FirstIsTold(asks, i, ids);
      }
      VectorIsGoing(asks, |asks|, ids);
      AfterKeys(asks);
      assert |After(asks, |asks|)| == |After(asks, |asks|).Keys|;
      AllTold(asks);
    }
  }

  lemma {:induction false} AllTold(asks: seq<Ask>)
    requires forall i :: 0 <= i < |asks| ==> FirstAsk(asks, asks[i].xid) <= i && ToldFirst(asks, i)
    requires Calls(asks, |asks|) == |Distinct(asks)|
    ensures Transparent(asks)
  {
  }

  lemma FirstIsTold(asks: seq<Ask>, i: nat, ids: set<nat>)
    requires i < |asks| && Ids32(ids) && Safe(ids) && From(asks, ids)
    ensures FirstAsk(asks, asks[i].xid) <= i && ToldFirst(asks, i)
  {
    hide Looked, Found, Told, Going, VectorAfter;
    VectorIsGoing(asks, i, ids);
    GoingOn(ids, VectorAfter(asks, i), After(asks, i), asks[i].xid, asks[i].answer);
    AfterIsFirst(asks, i, asks[i].xid);
  }

  // ---- all other sets are not ----

  /** The first id is less than 2^31 below the second, going round at 2^32. */
  ghost predicate Precedes(x: nat, y: nat) {
    0 < (y - x) % TWO32 < TWO31
  }

  lemma PrecedesIsCmp(x: nat, y: nat, m: Mapping, n: Mapping)
    requires x < TWO32 && y < TWO32 && m.xid == x && n.xid == y && Precedes(x, y)
    ensures CmpMap(x, n) < 0 && CmpMap(y, m) > 0 && x != y
  {
  }

  lemma NewIsMissed(s: seq<Mapping>, xid: nat)
    requires xid < TWO32 && forall i :: 0 <= i < |s| ==> s[i].xid < TWO32 && s[i].xid != xid
    ensures Found(s, xid) < 0
  {
  }

  /** A lookup that misses, and inserts at `at`. */
  lemma Missed(asks: seq<Ask>, n: nat, s: seq<Mapping>, at: nat, t: seq<Mapping>)
    requires n < |asks| && VectorAfter(asks, n) == s && at <= |s|
    requires var Ask(xid, answer) := asks[n];
      && Found(s, xid) < 0 && t == Inserted(s, at, Mapping(xid, answer))
      && (forall i :: 0 <= i < at ==> CmpMap(xid, s[i]) > 0)
      && (at < |s| ==> CmpMap(xid, s[at]) < 0)
    ensures VectorAfter(asks, n + 1) == t && Calls(asks, n + 1) == Calls(asks, n) + 1
    ensures Told(s, asks[n].xid, asks[n].answer) == asks[n].answer
  {
    Unfold(asks, n);
    hide VectorAfter, Calls, Found, CmpMap, FirstMatch;
    FirstMatchIs(s, Below(asks[n].xid), at);
  }

  lemma {:induction false} NoneYet(asks: seq<Ask>)
    ensures VectorAfter(asks, 0) == [] && Calls(asks, 0) == 0
  {
  }

  /** Two opposite ids, and a third one going up from the first: the vector is [z, y, x], binary
      search does not find x in it, the resolver is asked for x again, and its second answer is
      returned. */
  lemma OppositesMiss(x: nat, y: nat, z: nat, a: Name, b: Name, c: Name, d: Name)
    requires x < TWO32 && y < TWO32 && z < TWO32 && Opposite(x, y) && Precedes(x, z)
    ensures var asks := [Ask(x, a), Ask(y, b), Ask(z, c), Ask(x, d)];
      && VectorAfter(asks, 3) == [Mapping(z, c), Mapping(y, b), Mapping(x, a)]
      && Told(VectorAfter(asks, 3), x, d) == d
      && Calls(asks, 4) == 4 && |Distinct(asks)| == 3
  {
    var asks := [Ask(x, a), Ask(y, b), Ask(z, c), Ask(x, d)];
    var p, q, r := Mapping(x, a), Mapping(y, b), Mapping(z, c);
    OppositeSigns(x, y, z, p, q, r);
    ThreeIds(asks);
    hide CmpMap, Opposite, Precedes;
    NewIsMissed([], x);
    NewIsMissed([p], y);
    NewIsMissed([q, p], z);
    assert Vector.Bsearch([r, q, p], Cmp(x), 0, 1) == -1;
    assert Found([r, q, p], x) == -1;
    NoneYet(asks);
    hide *;
    assert Inserted([], 0, p) == [p] && Inserted([p], 0, q) == [q, p] && Inserted([q, p], 0, r) == [r, q, p] by {
      Fronts(p, q, r);
    }
    Missed(asks, 0, [], 0, [p]);
    Missed(asks, 1, [p], 0, [q, p]);
    Missed(asks, 2, [q, p], 0, [r, q, p]);
    Missed(asks, 3, [r, q, p], 0, Inserted([r, q, p], 0, Mapping(x, d)));
  }

  /** Ids 0, 2^31, 2^30, and 0 again. */
  lemma AskedTwice(a: Name, b: Name, c: Name, d: Name)
    ensures var asks := [Ask(0, a), Ask(TWO31, b), Ask(TWO31 / 2, c), Ask(0, d)];
      && VectorAfter(asks, 3) == [Mapping(TWO31 / 2, c), Mapping(TWO31, b), Mapping(0, a)]
      && Told(VectorAfter(asks, 3), 0, d) == d
      && Calls(asks, 4) == 4 && |Distinct(asks)| == 3
  {
    assert Opposite(0, TWO31) && Precedes(0, TWO31 / 2);
    hide *;
    OppositesMiss(0, TWO31, TWO31 / 2, a, b, c, d);
  }

  lemma ThreeIds(asks: seq<Ask>)
    requires |asks| == 4 && asks[3].xid == asks[0].xid
    requires asks[0].xid != asks[1].xid && asks[1].xid != asks[2].xid && asks[2].xid != asks[0].xid
    ensures |Distinct(asks)| == 3
  {
    assert Distinct(asks) == {asks[0].xid, asks[1].xid, asks[2].xid};
  }

  lemma Fronts(p: Mapping, q: Mapping, r: Mapping)
    ensures Inserted([], 0, p) == [p] && Inserted([p], 0, q) == [q, p] && Inserted([q, p], 0, r) == [r, q, p]
  {
  }

  lemma OppositeSigns(x: nat, y: nat, z: nat, p: Mapping, q: Mapping, r: Mapping)
    requires x < TWO32 && y < TWO32 && z < TWO32 && Opposite(x, y) && Precedes(x, z)
    requires p.xid == x && q.xid == y && r.xid == z
    ensures x != y && x != z && y != z
    ensures CmpMap(y, p) < 0 && CmpMap(x, q) < 0 && CmpMap(z, q) < 0 && CmpMap(x, r) < 0
  {
  }

  /** Three ids in a circle, the middle one below a fourth, which is below the first: the vector is
      [d, s0, s1, s2], and binary search does not find d in it. */
  lemma CircleMisses(s0: nat, s1: nat, s2: nat, d: nat, a: Name, b: Name)
    requires s0 < TWO32 && s1 < TWO32 && s2 < TWO32 && d < TWO32
    requires Circle(s0, s1, s2) && Precedes(d, s0) && Precedes(s1, d) && d != s2
    ensures var asks := [Ask(s1, a), Ask(s2, a), Ask(s0, a), Ask(d, a), Ask(d, b)];
      && VectorAfter(asks, 4) == [Mapping(d, a), Mapping(s0, a), Mapping(s1, a), Mapping(s2, a)]
      && Told(VectorAfter(asks, 4), d, b) == b
  {
    var asks := [Ask(s1, a), Ask(s2, a), Ask(s0, a), Ask(d, a), Ask(d, b)];
    var m0, m1, m2, m3 := Mapping(s0, a), Mapping(s1, a), Mapping(s2, a), Mapping(d, a);
    CircleSigns(m0, m1, m2, m3);
    LastIsMissed([m3, m0, m1, m2], d);
    hide *;
    FourMissed(asks, m0, m1, m2, m3);
    NotFoundIsAnswered([m3, m0, m1, m2], d, b);
  }

  lemma {:induction false} FourMissed(asks: seq<Ask>, m0: Mapping, m1: Mapping, m2: Mapping, m3: Mapping)
    requires |asks| >= 4 && asks[0] == Ask(m1.xid, m1.name) && asks[1] == Ask(m2.xid, m2.name)
    requires asks[2] == Ask(m0.xid, m0.name) && asks[3] == Ask(m3.xid, m3.name)
    requires m0.xid < TWO32 && m1.xid < TWO32 && m2.xid < TWO32 && m3.xid < TWO32
    requires m0.xid != m1.xid && m1.xid != m2.xid && m2.xid != m0.xid && m3.xid !in {m0.xid, m1.xid, m2.xid}
    requires CmpMap(m2.xid, m1) > 0 && CmpMap(m0.xid, m1) < 0 && CmpMap(m3.xid, m0) < 0
    ensures VectorAfter(asks, 4) == [m3, m0, m1, m2]
  {
    hide CmpMap, Found, VectorAfter, Told, Calls;
    NewIsMissed([], m1.xid);
    NewIsMissed([m1], m2.xid);
    NewIsMissed([m1, m2], m0.xid);
    NewIsMissed([m0, m1, m2], m3.xid);
    NoneYet(asks);
    assert Inserted([], 0, m1) == [m1] && Inserted([m1], 1, m2) == [m1, m2];
    assert Inserted([m1, m2], 0, m0) == [m0, m1, m2] && Inserted([m0, m1, m2], 0, m3) == [m3, m0, m1, m2];
    hide *;
    Missed(asks, 0, [], 0, [m1]);
    Missed(asks, 1, [m1], 1, [m1, m2]);
    Missed(asks, 2, [m1, m2], 0, [m0, m1, m2]);
    Missed(asks, 3, [m0, m1, m2], 0, [m3, m0, m1, m2]);
  }

  lemma CircleSigns(m0: Mapping, m1: Mapping, m2: Mapping, m3: Mapping)
    requires m0.xid < TWO32 && m1.xid < TWO32 && m2.xid < TWO32 && m3.xid < TWO32
    requires Circle(m0.xid, m1.xid, m2.xid) && Precedes(m3.xid, m0.xid) && Precedes(m1.xid, m3.xid) && m3.xid != m2.xid
    ensures CmpMap(m2.xid, m1) > 0 && CmpMap(m0.xid, m1) < 0 && CmpMap(m3.xid, m0) < 0
    ensures CmpMap(m3.xid, m1) > 0 && CmpMap(m3.xid, m2) != 0
    ensures m0.xid != m1.xid && m1.xid != m2.xid && m2.xid != m0.xid && m3.xid !in {m0.xid, m1.xid, m2.xid}
  {
    hide CmpMap, Precedes;
    PrecedesIsCmp(m0.xid, m1.xid, m0, m1);
    PrecedesIsCmp(m1.xid, m2.xid, m1, m2);
    PrecedesIsCmp(m2.xid, m0.xid, m2, m0);
    PrecedesIsCmp(m3.xid, m0.xid, m3, m0);
    PrecedesIsCmp(m1.xid, m3.xid, m1, m3);
    CmpTurns(m3.xid, m2.xid, m3, m2);
  }

  lemma LastIsMissed(s: seq<Mapping>, xid: nat)
    requires |s| == 4 && CmpMap(xid, s[2]) > 0 && CmpMap(xid, s[3]) != 0
    ensures Found(s, xid) == -1
  {
  }

  lemma NotFoundIsAnswered(s: seq<Mapping>, xid: nat, answer: Name)
    requires Found(s, xid) < 0
    ensures Told(s, xid, answer) == answer
  {
  }

  // ---- such ids exist in every other set ----

  /** Three ids that lie in no window: each is below the next. */
  ghost predicate Circle(a: nat, b: nat, c: nat) {
    Precedes(a, b) && Precedes(b, c) && Precedes(c, a)
  }

  ghost predicate NoOpposites(ids: set<nat>) {
    forall x, y :: x in ids && y in ids ==> !Opposite(x, y)
  }

  lemma OneOrOther(x: nat, y: nat)
    requires x < TWO32 && y < TWO32 && x != y && !Opposite(x, y)
    ensures Precedes(x, y) != Precedes(y, x)
  {
  }

  /** A set without opposite ids has a first one, or three in a circle. */
  lemma {:induction false} FirstOrCircle(ids: set<nat>) returns (first: nat, circle: seq<nat>)
    requires Ids32(ids) && NoOpposites(ids) && ids != {}
    ensures circle == [] ==> first in ids && forall x :: x in ids && x != first ==> Precedes(first, x)
    ensures circle != [] ==>
      |circle| == 3 && (forall x :: x in circle ==> x in ids) && Circle(circle[0], circle[1], circle[2])
  {
    hide Precedes, Opposite;
    var x :| x in ids;
    first, circle := x, [];
    if ids != {x} {
      var others := ids - {x};
      first, circle := FirstOrCircle(others);
      if circle == [] {
        OneOrOther(x, first);
        if Precedes(x, first) {
          if y :| y in others && !Precedes(x, y) {
            OneOrOther(x, y);
            circle := [x, first, y];
          } else {
            first := x;
          }
        }
      }
    }
  }

  /** A fourth id is neither below nor above all three of a circle. */
  lemma CircleIsMixed(a: nat, b: nat, c: nat, d: nat)
    requires a < TWO32 && b < TWO32 && c < TWO32 && d < TWO32 && Circle(a, b, c)
    ensures !(Precedes(d, a) && Precedes(d, b) && Precedes(d, c))
    ensures !(Precedes(a, d) && Precedes(b, d) && Precedes(c, d))
  {
    var k, l, m := Mapping(a, None), Mapping(b, None), Mapping(c, None);
    PrecedesIsCmp(a, b, k, l);
    PrecedesIsCmp(b, c, l, m);
    PrecedesIsCmp(c, a, m, k);
    if Precedes(d, a) && Precedes(d, b) && Precedes(d, c) {
      CircleNeedsRoom(d, k, l, m);
    } else if Precedes(a, d) && Precedes(b, d) && Precedes(c, d) {
      PrecedesIsWindow(a, d);
      PrecedesIsWindow(b, d);
      PrecedesIsWindow(c, d);
      CircleNeedsRoom(d - TWO31 + 1, k, l, m);
    }
  }

  lemma PrecedesIsWindow(x: nat, d: nat)
    requires x < TWO32 && d < TWO32 && Precedes(x, d)
    ensures InWindow(d - TWO31 + 1, x)
  {
  }

  lemma CircleNeedsRoom(lo: int, k: Mapping, l: Mapping, m: Mapping)
    requires InWindow(lo, k.xid) && InWindow(lo, l.xid) && InWindow(lo, m.xid)
    ensures !(CmpMap(k.xid, l) < 0 && CmpMap(l.xid, m) < 0 && CmpMap(m.xid, k) < 0)
  {
    hide CmpMap, InWindow, Offset;
    CmpInWindow(lo, k.xid, l);
    CmpInWindow(lo, l.xid, m);
    CmpInWindow(lo, m.xid, k);
  }

  /** Of a circle and a fourth id, the four that the failing run looks up. */
  lemma FourOf(a: nat, b: nat, c: nat, d: nat) returns (s0: nat, s1: nat, s2: nat, e: nat)
    requires Circle(a, b, c) && Ids32({a, b, c, d}) && NoOpposites({a, b, c, d}) && d !in {a, b, c}
    ensures {s0, s1, s2, e} <= {a, b, c, d}
    ensures Circle(s0, s1, s2) && Precedes(e, s0) && Precedes(s1, e) && e != s2
  {
    hide Precedes, Opposite;
    CircleIsMixed(a, b, c, d);
    OneOrOther(a, d);
    OneOrOther(b, d);
    OneOrOther(c, d);
    if Precedes(c, d) && Precedes(d, a) {
      s0, s1, s2, e := Between(a, b, c, d);
    } else if Precedes(a, d) && Precedes(d, b) {
      s0, s1, s2, e := Between(b, c, a, d);
    } else {
      s0, s1, s2, e := Between(c, a, b, d);
    }
  }

  lemma Between(a: nat, b: nat, c: nat, d: nat) returns (s0: nat, s1: nat, s2: nat, e: nat)
    requires Circle(a, b, c) && Precedes(c, d) && Precedes(d, a)
    requires d != a && d != c && (Precedes(b, d) || Precedes(d, b))
    ensures {s0, s1, s2, e} <= {a, b, c, d}
    ensures Circle(s0, s1, s2) && Precedes(e, s0) && Precedes(s1, e) && e != s2
  {
    hide Precedes;
    s0, s1, s2, e := a, b, c, d;
    if !Precedes(b, d) { s0, s1, s2, e := b, c, d, a; }
  }

  // ---- the exact condition ----

  lemma {:induction false} SecondAnswerShows(asks: seq<Ask>, i: nat, k: nat)
    requires k < i < |asks| && asks[k].xid == asks[i].xid && forall j :: 0 <= j < k ==> asks[j].xid != asks[i].xid
    requires Told(VectorAfter(asks, i), asks[i].xid, asks[i].answer) == asks[i].answer != asks[k].answer
    ensures !Transparent(asks)
  {
    hide Told, VectorAfter, FirstMatch;
    assert FirstAsk(asks, asks[i].xid) == k;
    assert !ToldFirst(asks, i);
  }

  lemma OppositesFail(ids: set<nat>, x: nat, y: nat, z: nat) returns (asks: seq<Ask>)
    requires Ids32(ids) && x in ids && y in ids && z in ids && Opposite(x, y) && Precedes(x, z)
    ensures From(asks, ids) && !Transparent(asks)
  {
    hide Opposite, Precedes, Transparent, VectorAfter, Told, Calls, Distinct;
    var a, b := None, Some("");
    OppositesMiss(x, y, z, a, a, a, b);
    asks := [Ask(x, a), Ask(y, a), Ask(z, a), Ask(x, b)];
    SecondAnswerShows(asks, 3, 0);
  }

  lemma CircleFails(ids: set<nat>, s0: nat, s1: nat, s2: nat, d: nat) returns (asks: seq<Ask>)
    requires Ids32(ids) && {s0, s1, s2, d} <= ids
    requires Circle(s0, s1, s2) && Precedes(d, s0) && Precedes(s1, d) && d != s2
    ensures From(asks, ids) && !Transparent(asks)
  {
    PrecedesIsCmp(d, s0, Mapping(d, None), Mapping(s0, None));
    PrecedesIsCmp(s1, d, Mapping(s1, None), Mapping(d, None));
    hide Circle, Precedes, Transparent, VectorAfter, Told, CmpMap;
    var a, b := None, Some("");
    CircleMisses(s0, s1, s2, d, a, b);
    asks := [Ask(s1, a), Ask(s2, a), Ask(s0, a), Ask(d, a), Ask(d, b)];
    SecondAnswerShows(asks, 4, 3);
  }

  lemma FailsWithOpposites(ids: set<nat>, x: nat, y: nat) returns (asks: seq<Ask>)
    requires Ids32(ids) && x in ids && y in ids && Opposite(x, y) && |ids| > 2
    ensures From(asks, ids) && !Transparent(asks)
  {
    assert |{x, y}| <= 2;
    if ids <= {x, y} { SubsetSize(ids, {x, y}); }
    var z :| z in ids && z !in {x, y};
    ThirdId(x, y, z);
    hide *;
    if Precedes(x, z) { asks := OppositesFail(ids, x, y, z); } else { asks := OppositesFail(ids, y, x, z); }
  }

  lemma ThirdId(x: nat, y: nat, z: nat)
    requires x < TWO32 && y < TWO32 && z < TWO32 && Opposite(x, y) && z != x && z != y
    ensures Opposite(y, x) && (Precedes(x, z) || Precedes(y, z))
  {
  }

  lemma WindowOrFails(ids: set<nat>) returns (lo: nat, asks: seq<Ask>)
    requires Ids32(ids) && NoOpposites(ids) && |ids| > 3
    ensures OneWindow(ids, lo) || (From(asks, ids) && !Transparent(asks))
  {
    var circle;
    lo, circle := FirstOrCircle(ids);
    asks := [];
    if circle != [] {
      assert circle[0] in circle && circle[1] in circle && circle[2] in circle;
      hide *;
      asks := FailsWithCircle(ids, circle[0], circle[1], circle[2]);
    }
  }

  lemma FailsWithCircle(ids: set<nat>, a: nat, b: nat, c: nat) returns (asks: seq<Ask>)
    requires Ids32(ids) && NoOpposites(ids) && |ids| > 3 && {a, b, c} <= ids && Circle(a, b, c)
    ensures From(asks, ids) && !Transparent(asks)
  {
    assert |{a, b, c}| <= 3;
    if ids <= {a, b, c} { SubsetSize(ids, {a, b, c}); }
    var d :| d in ids && d !in {a, b, c};
    assert Ids32({a, b, c, d}) && NoOpposites({a, b, c, d});
    hide *;
    var s0, s1, s2, e := FourOf(a, b, c, d);
    asks := CircleFails(ids, s0, s1, s2, e);
  }

  /** The cache is transparent for all sequences of lookups from a set of ids if and only if they
      lie in one window, or there are at most two, or three and no two of them are opposite. */
  lemma TransparentIff(ids: set<nat>)
    requires Ids32(ids)
    ensures (forall asks :: From(asks, ids) ==> Transparent(asks)) <==> Safe(ids)
  {
    hide From, Transparent, OneWindow, Opposite;
    if Safe(ids) {
      forall asks | From(asks, ids) ensures Transparent(asks) { CacheIsTransparent(asks, ids); }
    } else {
      var asks;
      if x, y :| x in ids && y in ids && Opposite(x, y) {
        asks := FailsWithOpposites(ids, x, y);
      } else {
        var lo;
        lo, asks := WindowOrFails(ids);
      }
    }
  }
}
