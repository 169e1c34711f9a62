/** vdu's hash table of inode numbers: 103 buckets, each a linked chain in ascending order. */
module InodeTable {
  import opened LinkedItems

  /** hash_entry, where `data` is the inode number. */
  type HashEntry = ListItem<nat>

  const HASH_SIZE := 103

  /** The chain of bucket `b` is strictly ascending, within its residue class. */
  ghost predicate Ascending(c: seq<HashEntry>, b: nat) {
    && (forall i :: 0 <= i < |c| ==> c[i].data % HASH_SIZE == b)
    && (forall i, j :: 0 <= i < j < |c| ==> c[i].data < c[j].data)
  }

  ghost predicate Contains(c: seq<HashEntry>, x: nat) {
    exists i :: 0 <= i < |c| && c[i].data == x
  }

  lemma SpliceAscends(c: seq<HashEntry>, b: nat, i: nat, n: HashEntry)
    requires i <= |c| && Ascending(c, b) && n.data % HASH_SIZE == b
    requires forall k :: 0 <= k < i ==> c[k].data < n.data
    requires forall k :: i <= k < |c| ==> c[k].data > n.data
    ensures Ascending(Spliced(c, i, n), b)
  {
  }

  lemma SpliceContains(c: seq<HashEntry>, i: nat, n: HashEntry, x: nat)
    requires i <= |c|
    ensures Contains(Spliced(c, i, n), x) <==> Contains(c, x) || x == n.data
  {
    var s := Spliced(c, i, n);
    assert s[i] == n;
    if Contains(c, x) {
      var k :| 0 <= k < |c| && c[k].data == x;
      assert s[if k < i then k else k + 1].data == x;
    }
    if Contains(s, x) && x != n.data {
      var k :| 0 <= k < |s| && s[k].data == x;
      assert c[if k < i then k else k - 1].data == x;
    }
  }

  /** The chains are those of a hash set with these members. */
  ghost predicate Represents(chains: seq<seq<HashEntry>>, members: set<nat>) {
    && |chains| == HASH_SIZE
    && (forall b :: 0 <= b < HASH_SIZE ==> Ascending(chains[b], b))
    && (forall x: nat :: x in members <==> Contains(chains[x % HASH_SIZE], x))
  }

  lemma SpliceRepresents(chains: seq<seq<HashEntry>>, members: set<nat>, i: nat, n: HashEntry)
    requires Represents(chains, members)
    requires var c := chains[n.data % HASH_SIZE];
      && i <= |c|
      && (forall k :: 0 <= k < i ==> c[k].data < n.data)
      && (forall k :: i <= k < |c| ==> c[k].data > n.data)
    ensures var b := n.data % HASH_SIZE;
      Represents(chains[b := Spliced(chains[b], i, n)], members + {n.data})
  {
    var b := n.data % HASH_SIZE;
    SpliceAscends(chains[b], b, i, n);
    forall x: nat ensures x in members + {n.data} <==>
      Contains(chains[b := Spliced(chains[b], i, n)][x % HASH_SIZE], x)
    {
      if x % HASH_SIZE == b { SpliceContains(chains[b], i, n, x); }
    }
  }

  ghost predicate Within(chains: seq<seq<HashEntry>>, repr: set<HashEntry>) {
    forall b :: 0 <= b < |chains| ==> forall i :: 0 <= i < |chains[b]| ==> chains[b][i] in repr
  }

  lemma SpliceWithin(chains: seq<seq<HashEntry>>, repr: set<HashEntry>, b: nat, i: nat, n: HashEntry)
    requires b < |chains| && i <= |chains[b]| && Within(chains, repr)
    ensures Within(chains[b := Spliced(chains[b], i, n)], repr + {n})
  {
  }

  class HashTable {
    const entries: array<ListItem?<nat>>
    ghost var chains: seq<seq<HashEntry>>
    ghost var repr: set<HashEntry>
    ghost var members: set<nat>

    ghost predicate Valid()
      reads this, entries, repr
    {
      && entries.Length == HASH_SIZE && |chains| == HASH_SIZE && Represents(chains, members)
      && Within(chains, repr)
      && (forall b :: 0 <= b < HASH_SIZE ==> Linked(chains[b], entries[b]))
    }

    /** hash_init */
    constructor ()
      ensures Valid() && members == {} && fresh(entries) && repr == {}
    {
      entries := new ListItem?<nat>[HASH_SIZE](_ => null);
      chains := seq(HASH_SIZE, _ => []);
      repr := {};
      members := {};
    }

    /** Where the walk along a chain stops: in front of the first entry that is not smaller. */
    method Find(inode: nat) returns (p: ListItem?<nat>, e: ListItem?<nat>, ghost i: nat)
      requires Valid()
      ensures var c := chains[inode % HASH_SIZE];
        && i <= |c| && e == NodeAt(c, i) && p == (if i > 0 then c[i - 1] else null)
        && (forall k :: 0 <= k < i ==> c[k].data < inode)
        && (forall k :: i <= k < |c| ==> c[k].data >= inode)
    {
      var b := inode % HASH_SIZE;
      ghost var c := chains[b];
      assert Linked(c, entries[b]) && Ascending(c, b);
      p, e, i := null, entries[b], 0;
      while e != null && e.data < inode
        invariant i <= |c| && e == NodeAt(c, i) && p == (if i > 0 then c[i - 1] else null)
        invariant forall k :: 0 <= k < i ==> c[k].data < inode
        decreases |c| - i
      {
        assert c[i].next == NodeAt(c, i + 1);
        p, e, i := e, e.next, i + 1;
      }
    }

    /** hash_insert: -1 exactly for members, and then nothing changes. */
    method Insert(inode: nat) returns (r: int)
      requires Valid()
      modifies this, entries, repr
      ensures Valid() && fresh(repr - old(repr))
      ensures r == (if inode in old(members) then -1 else 0)
      ensures members == old(members) + {inode}
    {
      var b := inode % HASH_SIZE;
      ghost var c := chains[b];
      var p, e; ghost var i;
      p, e, i := Find(inode);
      assert Ascending(c, b);
      if e != null && e.data == inode {
        assert c[i].data == inode;
        assert Contains(c, inode);
        return -1;
      }
      assert !Contains(c, inode);
      AddAt(inode, b, p, e, i);
      return 0;
    }

    method AddAt(inode: nat, b: nat, p: ListItem?<nat>, e: ListItem?<nat>, ghost i: nat)
      requires Valid() && b == inode % HASH_SIZE && i <= |chains[b]|
      requires e == NodeAt(chains[b], i)
      requires p == (if i > 0 then chains[b][i - 1] else null)
      requires forall k :: 0 <= k < i ==> chains[b][k].data < inode
      requires forall k :: i <= k < |chains[b]| ==> chains[b][k].data > inode
      modifies this, entries, repr
      ensures Valid() && fresh(repr - old(repr))
      ensures members == old(members) + {inode}
    {
      var n := new ListItem<nat>(inode, e);
      SpliceRepresents(chains, members, i, n);
      SpliceWithin(chains, repr, b, i, n);
      hide *;
      Commit(inode, b, p, n, i);
    }

    method Commit(inode: nat, b: nat, p: ListItem?<nat>, n: HashEntry, ghost i: nat)
      requires Valid() && b < HASH_SIZE && i <= |chains[b]| && n !in repr && n.next == NodeAt(chains[b], i)
      requires p == (if i > 0 then chains[b][i - 1] else null)
      requires Represents(chains[b := Spliced(chains[b], i, n)], members + {inode})
      requires Within(chains[b := Spliced(chains[b], i, n)], repr + {n})
      modifies this, entries, repr
      ensures Valid() && repr == old(repr) + {n} && members == old(members) + {inode}
    {
      assert p != null ==> p in repr;
      hide Represents, Linked, Within, Spliced, NodeAt;
      Relink(b, p, n, i);
      chains := chains[b := Spliced(chains[b], i, n)];
      repr := repr + {n};
      members := members + {inode};
    }

    /** The stores to memory: one `next` field, or the head of the bucket. */
    method Relink(b: nat, p: ListItem?<nat>, n: HashEntry, ghost i: nat)
      requires Valid() && b < HASH_SIZE && i <= |chains[b]| && n !in repr && n.next == NodeAt(chains[b], i)
      requires p == (if i > 0 then chains[b][i - 1] else null)
      modifies entries, p
      ensures Linked(Spliced(chains[b], i, n), entries[b])
      ensures forall d :: 0 <= d < HASH_SIZE && d != b ==> Linked(chains[d], entries[d])
    {
      ghost var c := chains[b];
      assert Linked(c, entries[b]) && Ascending(c, b);
      OtherChains(chains, members, b, i);
      hide Represents;
      var head := Splice(c, entries[b], i, p, n);
      label spliced:
      assert forall d :: 0 <= d < HASH_SIZE && d != b ==> Linked(chains[d], old(entries[d]));
      entries[b] := head;
      assert Linked(Spliced(c, i, n), head);
    }
  }

  /** Chains share no nodes. */
  lemma OtherChains(chains: seq<seq<HashEntry>>, members: set<nat>, b: nat, i: nat)
    requires Represents(chains, members) && b < HASH_SIZE
    ensures 0 < i <= |chains[b]| ==> forall d :: 0 <= d < HASH_SIZE && d != b ==> chains[b][i - 1] !in chains[d]
  {
  }
}
