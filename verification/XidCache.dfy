/** lsxid's cache from context ids to vserver names, a vector sorted by id. */
module XidCache {
  import opened Optional
  import opened SelfOrg
  import Vector

  const TWO31 := 0x8000_0000
  const TWO32 := 0x1_0000_0000

  type Name = Option<string>

  datatype Mapping = Mapping(xid: nat, name: Name)

  /** cmpMap: the difference of two unsigned 32-bit ids, returned as an int. */
  function CmpMap(xid: nat, m: Mapping): int {
    var diff := (xid - m.xid) % TWO32;
    if diff < TWO31 then diff else diff - TWO32
  }

  /** It orders two ids as numbers exactly if they are less than 2^31 apart (or the first is
      exactly 2^31 below the second). */
  lemma CmpMapOrdersIff(xid: nat, m: Mapping)
    requires xid < TWO32 && m.xid < TWO32
    ensures (CmpMap(xid, m) < 0 <==> xid < m.xid) && (CmpMap(xid, m) > 0 <==> xid > m.xid)
      <==> -TWO31 <= xid - m.xid < TWO31
    ensures CmpMap(xid, m) == 0 <==> xid == m.xid
  {
  }

  // ---- the cache as a sequence ----

  function Cmp(xid: nat): Mapping -> int {
    m => CmpMap(xid, m)
  }

  function Below(xid: nat): Mapping -> bool {
    m => CmpMap(xid, m) < 0
  }

  function Found(s: seq<Mapping>, xid: nat): (at: int)
    ensures -1 <= at < |s|
  {
    Vector.Bsearch(s, Cmp(xid), 0, |s|)
  }

  function Inserted(s: seq<Mapping>, at: nat, m: Mapping): seq<Mapping>
    requires at <= |s|
  {
    s[..at] + [m] + s[at..]
  }

  /** The vector after a lookup, and what the lookup returns, where `answer` is what the resolver
      would say now. */
  function Looked(s: seq<Mapping>, xid: nat, answer: Name): seq<Mapping> {
    if Found(s, xid) >= 0 then s else Inserted(s, FirstMatch(s, Below(xid)), Mapping(xid, answer))
  }

  function Told(s: seq<Mapping>, xid: nat, answer: Name): Name {
    if Found(s, xid) >= 0 then s[Found(s, xid)].name else answer
  }

  class Cache {
    const vec: Vector.Vector<Mapping>

    ghost predicate Valid()
      reads this, vec
    {
      vec.Valid()
    }

    constructor ()
      ensures Valid() && vec.Contents() == [] && fresh(vec) && fresh(vec.data)
    {
      vec := new Vector.Vector<Mapping>();
    }

    /** lookupContext: the resolver is asked exactly for ids that the search does not find. */
    method LookupContext(xid: nat, answer: Name) returns (name: Name, asked: bool)
      requires Valid()
      modifies vec, vec.data
      ensures Valid() && (vec.data == old(vec.data) || fresh(vec.data))
      ensures vec.Contents() == Looked(old(vec.Contents()), xid, answer)
      ensures name == Told(old(vec.Contents()), xid, answer)
      ensures asked <==> Found(old(vec.Contents()), xid) < 0
    {
      var found := vec.Search(Cmp(xid));
      hide Cmp, Below, FirstMatch, Vector.Bsearch;
      if found >= 0 {
        name, asked := vec.data[found].name, false;
      } else {
        Place(Mapping(xid, answer));
        name, asked := answer, true;
      }
    }

    method Place(m: Mapping)
      requires vec.Valid()
      modifies vec, vec.data
      ensures vec.Valid() && (vec.data == old(vec.data) || fresh(vec.data))
      ensures vec.Contents() == Inserted(old(vec.Contents()), FirstMatch(old(vec.Contents()), Below(m.xid)), m)
    {
      hide Below, FirstMatch;
      ghost var s := vec.Contents();
      var at := vec.Insert(Below(m.xid));
      ghost var t := vec.Contents();
      vec.data[at] := m;
      assert vec.Contents() == t[at := m];
      assert t[at := m] == t[..at] + [m] + t[at + 1..];
    }
  }

  // ---- ids in one window ----

  /** How far an id lies above `lo`, going round at 2^32. */
  function Offset(lo: int, xid: nat): (d: nat)
    ensures d < TWO32
  {
    (xid - lo) % TWO32
  }

  /** The id lies in the window of 2^31 ids that starts at `lo`, which may go round. */
  ghost predicate InWindow(lo: int, xid: nat) {
    xid < TWO32 && Offset(lo, xid) < TWO31
  }

  /** Within a window the comparison is that of the offsets. */
  lemma CmpInWindow(lo: int, xid: nat, m: Mapping)
    requires InWindow(lo, xid) && InWindow(lo, m.xid)
    ensures CmpMap(xid, m) == Offset(lo, xid) - Offset(lo, m.xid)
    ensures Offset(lo, xid) == Offset(lo, m.xid) <==> xid == m.xid
  {
  }

  ghost predicate Sorted(s: seq<Mapping>, lo: int) {
    && (forall i :: 0 <= i < |s| ==> InWindow(lo, s[i].xid))
    && (forall i, j :: 0 <= i < j < |s| ==> Offset(lo, s[i].xid) < Offset(lo, s[j].xid))
  }

  /** The mappings of `s` are those of `known`. */
  ghost predicate Holds(s: seq<Mapping>, known: map<nat, Name>) {
    && (forall i :: 0 <= i < |s| ==> s[i].xid in known && known[s[i].xid] == s[i].name)
    && (forall x :: x in known ==> exists i :: 0 <= i < |s| && s[i].xid == x)
  }

  /** On a sorted vector the comparison meets what bsearch demands. */
  lemma CompareOrders(s: seq<Mapping>, lo: int, xid: nat)
    requires Sorted(s, lo) && InWindow(lo, xid)
    ensures Vector.Ordered(s, Cmp(xid))
    ensures forall i :: 0 <= i < |s| ==>
      && (CmpMap(xid, s[i]) < 0 <==> Offset(lo, xid) < Offset(lo, s[i].xid))
      && (CmpMap(xid, s[i]) == 0 <==> xid == s[i].xid)
  {
    forall i | 0 <= i < |s|
      ensures CmpMap(xid, s[i]) == Offset(lo, xid) - Offset(lo, s[i].xid)
      ensures Offset(lo, xid) == Offset(lo, s[i].xid) <==> xid == s[i].xid
    {
      CmpInWindow(lo, xid, s[i]);
    }
    hide CmpMap, InWindow, Offset;
  }

  /** Every id in the vector is found where it is. */
  ghost predicate Searchable(s: seq<Mapping>) {
    forall i :: 0 <= i < |s| ==> s[i].xid < TWO32 && Found(s, s[i].xid) == i
  }

  lemma SortedIsSearchable(s: seq<Mapping>, lo: int)
    requires Sorted(s, lo)
    ensures Searchable(s)
  {
    forall i | 0 <= i < |s| ensures Found(s, s[i].xid) == i {
      CompareOrders(s, lo, s[i].xid);
      Vector.BsearchFinds(s, Cmp(s[i].xid), 0, |s|);
      hide CmpMap, Vector.Bsearch, Offset;
    }
  }

  /** The search finds exactly the ids that are known. */
  lemma FoundIffKnown(s: seq<Mapping>, known: map<nat, Name>, xid: nat)
    requires Searchable(s) && Holds(s, known) && xid < TWO32
    ensures Found(s, xid) >= 0 <==> xid in known
    ensures Found(s, xid) >= 0 ==> s[Found(s, xid)].name == known[xid]
  {
    hide Vector.Bsearch;
    if Found(s, xid) >= 0 { CmpMapOrdersIff(xid, s[Found(s, xid)]); }
  }

  lemma {:induction false} InsertKeepsSorted(s: seq<Mapping>, lo: int, m: Mapping)
    requires Sorted(s, lo) && InWindow(lo, m.xid) && forall i :: 0 <= i < |s| ==> s[i].xid != m.xid
    ensures Sorted(Inserted(s, FirstMatch(s, Below(m.xid)), m), lo)
  {
    var at := FirstMatch(s, Below(m.xid));
    CompareOrders(s, lo, m.xid);
    forall i | 0 <= i < |s| ensures Offset(lo, m.xid) != Offset(lo, s[i].xid) { CmpInWindow(lo, m.xid, s[i]); }
    assert forall i :: 0 <= i < at ==> !Below(m.xid)(s[i]);
    assert at < |s| ==> Below(m.xid)(s[at]);
    hide CmpMap, FirstMatch, InWindow, Offset;
    SortedInsert(s, lo, at, m);
  }

  lemma SortedInsert(s: seq<Mapping>, lo: int, at: nat, m: Mapping)
    requires Sorted(s, lo) && at <= |s| && InWindow(lo, m.xid)
    requires forall i :: 0 <= i < at ==> Offset(lo, s[i].xid) < Offset(lo, m.xid)
    requires at < |s| ==> Offset(lo, m.xid) < Offset(lo, s[at].xid)
    ensures Sorted(Inserted(s, at, m), lo)
  {
  }

  lemma HoldsInsert(s: seq<Mapping>, at: nat, m: Mapping, known: map<nat, Name>)
    requires Holds(s, known) && at <= |s| && m.xid !in known
    ensures Holds(Inserted(s, at, m), known[m.xid := m.name])
  {
    var t := Inserted(s, at, m);
    assert t[at] == m;
    forall x | x in known ensures exists i :: 0 <= i < |t| && t[i].xid == x {
      var i :| 0 <= i < |s| && s[i].xid == x;
      assert t[if i < at then i else i + 1].xid == x;
    }
  }

  /** One lookup on a searchable vector that holds what is known. */
  lemma LookupKeeps(s: seq<Mapping>, known: map<nat, Name>, xid: nat, answer: Name)
    requires Searchable(s) && Holds(s, known) && xid < TWO32
    ensures var name := if xid in known then known[xid] else answer;
      && Told(s, xid, answer) == name && (Found(s, xid) < 0 <==> xid !in known)
      && Holds(Looked(s, xid, answer), known[xid := name])
      && |Looked(s, xid, answer)| == if xid in known then |s| else |s| + 1
  {
    FoundIffKnown(s, known, xid);
    if xid in known {
      assert known[xid := known[xid]] == known;
    } else {
      HoldsInsert(s, FirstMatch(s, Below(xid)), Mapping(xid, answer), known);
    }
    hide Found, FirstMatch, Holds, Searchable;
  }
}
