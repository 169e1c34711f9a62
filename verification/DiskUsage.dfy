/** vdu: counting the inodes and blocks of one context in a directory tree. */
module DiskUsage {
  import opened InodeTable
  import opened Optional

  /** What lstat and vc_getfilecontext say of a directory entry, and the entries below it other
      than "." and "..". */
  datatype Entry = Entry(ino: nat, nlink: nat, dev: nat, xid: int, blocks: nat, isDir: bool, children: seq<Entry>)

  // ---- which entries are visited ----

  /** visitDirEntry: the entry, and then its content unless it lies on another device. */
  function Visits(e: Entry, dev: nat): seq<Entry>
    decreases e, 1
  {
    [e] + if e.isDir && dev == e.dev then VisitsBelow(e.children, e.dev) else []
  }

  function VisitsBelow(es: seq<Entry>, dev: nat): seq<Entry>
    decreases es, 0
  {
    if es == [] then [] else VisitsBelow(es[..|es| - 1], dev) + Visits(es[|es| - 1], dev)
  }

  // ---- the same by child positions ----

  /** The entry that a chain of child positions leads to. */
  function EntryAt(e: Entry, ks: seq<nat>): Option<Entry> {
    if ks == [] then Some(e)
    else if ks[0] < |e.children| then EntryAt(e.children[ks[0]], ks[1..]) else None
  }

  /** A chain leads to an entry, and all entries before it are directories on the root's device. */
  ghost predicate Leads(root: Entry, ks: seq<nat>) {
    && EntryAt(root, ks).Some?
    && forall i :: 0 <= i < |ks| ==>
         var d := EntryAt(root, ks[..i]);
         d.Some? && d.value.isDir && d.value.dev == root.dev
  }

  /** The chains to the entries that are visited, in order. */
  ghost function Chains(e: Entry, dev: nat): seq<seq<nat>>
    decreases e, 1
  {
    [[]] + if e.isDir && dev == e.dev then ChainsBelow(e.children, e.dev) else []
  }

  ghost function ChainsBelow(es: seq<Entry>, dev: nat): seq<seq<nat>>
    decreases es, 0
  {
    if es == [] then [] else ChainsBelow(es[..|es| - 1], dev) + Behind(|es| - 1, Chains(es[|es| - 1], dev))
  }

  ghost function Behind(k: nat, chains: seq<seq<nat>>): seq<seq<nat>> {
    seq(|chains|, i requires 0 <= i < |chains| => [k] + chains[i])
  }

  lemma {:induction false} ChainsReach(e: Entry, dev: nat)
    ensures |Chains(e, dev)| == |Visits(e, dev)|
    ensures forall i :: 0 <= i < |Chains(e, dev)| ==> EntryAt(e, Chains(e, dev)[i]) == Some(Visits(e, dev)[i])
    decreases e, 1
  {
    if e.isDir && dev == e.dev { ChainsBelowReach(e.children, e.dev); }
  }

  lemma {:induction false} ChainsBelowReach(es: seq<Entry>, dev: nat)
    ensures |ChainsBelow(es, dev)| == |VisitsBelow(es, dev)|
    ensures forall i :: 0 <= i < |ChainsBelow(es, dev)| ==>
      var ks := ChainsBelow(es, dev)[i];
      ks != [] && ks[0] < |es| && EntryAt(es[ks[0]], ks[1..]) == Some(VisitsBelow(es, dev)[i])
    decreases es, 0
  {
    if es != [] {
      var n := |es| - 1;
      ChainsBelowReach(es[..n], dev);
      ChainsReach(es[n], dev);
      hide Chains, Visits;
      var m, cs := |ChainsBelow(es[..n], dev)|, Chains(es[n], dev);
      forall i | m <= i < |ChainsBelow(es, dev)| ensures ChainsBelow(es, dev)[i] == [n] + cs[i - m] {
      }
    }
  }

  /** A chain that leads on from `e`, entry by entry. */
  ghost predicate Goes(e: Entry, dev: nat, ks: seq<nat>)
    decreases |ks|
  {
    ks == [] || (e.isDir && e.dev == dev && ks[0] < |e.children| && Goes(e.children[ks[0]], dev, ks[1..]))
  }

  lemma {:induction false} ChainsGo(e: Entry, dev: nat, ks: seq<nat>)
    ensures ks in Chains(e, dev) <==> Goes(e, dev, ks)
    decreases e, 1
  {
    if e.isDir && dev == e.dev { ChainsBelowGo(e.children, dev, ks); }
  }

  lemma {:induction false} ChainsBelowGo(es: seq<Entry>, dev: nat, ks: seq<nat>)
    ensures ks in ChainsBelow(es, dev) <==> ks != [] && ks[0] < |es| && Goes(es[ks[0]], dev, ks[1..])
    decreases es, 0
  {
    if es != [] {
      var n := |es| - 1;
      ChainsBelowGo(es[..n], dev, ks);
      if ks != [] { ChainsGo(es[n], dev, ks[1..]); }
      hide Chains, Goes;
      BehindIs(n, Chains(es[n], dev), ks);
    }
  }

  lemma BehindIs(k: nat, chains: seq<seq<nat>>, ks: seq<nat>)
    ensures ks in Behind(k, chains) <==> ks != [] && ks[0] == k && ks[1..] in chains
  {
    if ks != [] && ks[0] == k && ks[1..] in chains {
      var i :| 0 <= i < |chains| && chains[i] == ks[1..];
      assert Behind(k, chains)[i] == ks;
    }
  }

  ghost predicate Distinct(chains: seq<seq<nat>>) {
    forall i, j :: 0 <= i < j < |chains| ==> chains[i] != chains[j]
  }

  lemma {:induction false} ChainsDiffer(e: Entry, dev: nat)
    ensures Distinct(Chains(e, dev))
    decreases e, 1
  {
    if e.isDir && dev == e.dev {
      ChainsBelowDiffer(e.children, e.dev);
      ChainsBelowGo(e.children, e.dev, []);
    }
  }

  lemma {:induction false} ChainsBelowDiffer(es: seq<Entry>, dev: nat)
    ensures Distinct(ChainsBelow(es, dev))
    decreases es, 0
  {
    if es != [] {
      var n := |es| - 1;
      ChainsBelowDiffer(es[..n], dev);
      ChainsDiffer(es[n], dev);
      hide Chains, Goes;
      var a, b := ChainsBelow(es[..n], dev), Chains(es[n], dev);
      forall i, j | 0 <= i < |a| && 0 <= j < |b| ensures a[i] != [n] + b[j] {
        ChainsBelowGo(es[..n], dev, a[i]);
      }
      assert forall i, j :: 0 <= i < j < |b| ==> ([n] + b[i])[1..] == b[i] && ([n] + b[j])[1..] == b[j];
    }
  }

  ghost predicate DirectoryAt(e: Entry, dev: nat, ks: seq<nat>) {
    var d := EntryAt(e, ks);
    d.Some? && d.value.isDir && d.value.dev == dev
  }

  lemma {:induction false} GoesIsLeads(e: Entry, dev: nat, ks: seq<nat>)
    ensures Goes(e, dev, ks) <==> EntryAt(e, ks).Some? && forall i :: 0 <= i < |ks| ==> DirectoryAt(e, dev, ks[..i])
    decreases |ks|
  {
    if ks != [] {
      assert ks[..0] == [];
      assert DirectoryAt(e, dev, ks[..0]) <==> e.isDir && e.dev == dev;
      if ks[0] < |e.children| {
        var c, rest := e.children[ks[0]], ks[1..];
        GoesIsLeads(c, dev, rest);
        forall i | 0 <= i < |rest| ensures DirectoryAt(e, dev, ks[..i + 1]) <==> DirectoryAt(c, dev, rest[..i]) {
          assert ks[..i + 1][1..] == rest[..i] && ks[..i + 1][0] == ks[0];
        }
        hide DirectoryAt;
        if forall i :: 0 <= i < |ks| ==> DirectoryAt(e, dev, ks[..i]) {
          forall i | 0 <= i < |rest| ensures DirectoryAt(c, dev, rest[..i]) { assert DirectoryAt(e, dev, ks[..i + 1]); }
        }
        if forall i :: 0 <= i < |rest| ==> DirectoryAt(c, dev, rest[..i]) {
          forall i | 0 < i < |ks| ensures DirectoryAt(e, dev, ks[..i]) {
            assert DirectoryAt(c, dev, rest[..i - 1]) && ks[..(i - 1) + 1] == ks[..i];
          }
        }
      }
    }
  }

  /** The chains that lead to an entry without going below another device, each once. */
  ghost function AllChains(root: Entry): (chains: seq<seq<nat>>)
    ensures Distinct(chains) && forall ks :: ks in chains <==> Leads(root, ks)
  {
    ChainsDiffer(root, root.dev);
    LeadingChains(root);
    Chains(root, root.dev)
  }

  lemma {:induction false} LeadingChains(root: Entry)
    ensures forall ks :: ks in Chains(root, root.dev) <==> Leads(root, ks)
  {
    hide Chains;
    forall ks ensures ks in Chains(root, root.dev) <==> Leads(root, ks) {
      ChainsGo(root, root.dev, ks);
      GoesIsLeads(root, root.dev, ks);
    }
  }

  /** The entries that these chains lead to. */
  ghost function Reached(root: Entry): (es: seq<Entry>)
    ensures |es| == |AllChains(root)|
    ensures forall i :: 0 <= i < |es| ==> EntryAt(root, AllChains(root)[i]) == Some(es[i])
  {
    var chains := AllChains(root);
    assert forall i :: 0 <= i < |chains| ==> chains[i] in chains && Leads(root, chains[i]);
    seq(|chains|, i requires 0 <= i < |chains| => EntryAt(root, chains[i]).value)
  }

  /** An entry is visited once for every chain that leads to it without going below another device, and
      not otherwise. */
  lemma {:induction false} VisitsAreReached(root: Entry)
    ensures Visits(root, root.dev) == Reached(root)
  {
    ChainsReach(root, root.dev);
    hide Chains, Visits;
  }

  // ---- what is counted ----

  datatype Usage = Usage(inodes: nat, blocks: nat, seen: set<nat>)

  const START := Usage(0, 0, {})

  /** An entry of the wanted context counts unless it has several links and was seen before. */
  function Count(u: Usage, e: Entry, xid: int): Usage {
    if e.xid == xid && e.nlink == 1 then u.(inodes := u.inodes + 1, blocks := u.blocks + e.blocks)
    else if e.xid == xid && e.ino !in u.seen then Usage(u.inodes + 1, u.blocks + e.blocks, u.seen + {e.ino})
    else u
  }

  function CountAll(u: Usage, es: seq<Entry>, xid: int): Usage {
    if es == [] then u else Count(CountAll(u, es[..|es| - 1], xid), es[|es| - 1], xid)
  }

  lemma {:induction false} CountAllConcat(u: Usage, a: seq<Entry>, b: seq<Entry>, xid: int)
    ensures CountAll(u, a + b, xid) == CountAll(CountAll(u, a, xid), b, xid)
    decreases |b|
  {
    if b == [] {
      assert a + b == a;
    } else {
      CountAllConcat(u, a, b[..|b| - 1], xid);
      assert (a + b)[..|a + b| - 1] == a + b[..|b| - 1];
    }
  }

  // ---- the program ----

  /** struct Result and the global hash table. */
  class Walk {
    var inodes: nat
    var blocks: nat
    const table: HashTable
    const xid: int

    ghost predicate Valid()
      reads this, table, table.entries, table.repr
    {
      table.Valid()
    }

    ghost function State(): Usage
      reads this, table
    {
      Usage(inodes, blocks, table.members)
    }

    constructor (xid: int)
      ensures Valid() && this.xid == xid && State() == START && fresh(table) && fresh(table.entries) && table.repr == {}
    {
      inodes, blocks := 0, 0;
      this.xid := xid;
      table := new HashTable();
    }

    method VisitDirEntry(e: Entry, dev: nat)
      requires Valid()
      modifies this, table, table.entries, table.repr
      ensures Valid() && fresh(table.repr - old(table.repr))
      ensures State() == CountAll(old(State()), Visits(e, dev), xid)
      decreases e, 1
    {
      var counted := e.xid == xid;
      if counted && e.nlink != 1 {
        var r := table.Insert(e.ino);
        counted := r != -1;
      }
      if counted {
        blocks := blocks + e.blocks;
        inodes := inodes + 1;
      }
      ghost var one := [e];
      assert one[..0] == [];
      assert State() == CountAll(old(State()), one, xid);
      if e.isDir && dev == e.dev {
        VisitDir(e.children, e.dev);
        CountAllConcat(old(State()), one, VisitsBelow(e.children, e.dev), xid);
      }
    }

    method VisitDir(es: seq<Entry>, dev: nat)
      requires Valid()
      modifies this, table, table.entries, table.repr
      ensures Valid() && fresh(table.repr - old(table.repr))
      ensures State() == CountAll(old(State()), VisitsBelow(es, dev), xid)
      decreases es, 0
    {
      var i := 0;
      while i < |es|
        invariant 0 <= i <= |es|
        invariant Valid() && fresh(table.repr - old(table.repr))
        invariant State() == CountAll(old(State()), VisitsBelow(es[..i], dev), xid)
      {
        VisitDirEntry(es[i], dev);
        assert es[..i + 1][..i] == es[..i];
        CountAllConcat(old(State()), VisitsBelow(es[..i], dev), Visits(es[i], dev), xid);
        i := i + 1;
      }
      assert es[..i] == es;
    }
  }

  // ---- what the count means ----

  /** An inode is known by its device and its number; the program looks at the number only. */
  function Id(e: Entry): (nat, nat) {
    (e.dev, e.ino)
  }

  /** The distinct inodes of the wanted context. */
  function Wanted(es: seq<Entry>, xid: int): set<(nat, nat)> {
    set i | 0 <= i < |es| && es[i].xid == xid :: Id(es[i])
  }

  lemma WantedStep(es: seq<Entry>, xid: int)
    requires es != []
    ensures var n := |es| - 1;
      Wanted(es, xid) == Wanted(es[..n], xid) + if es[n].xid == xid then {Id(es[n])} else {}
  {
  }

  /** No inode of the wanted context appears again if one of its entries says that it has a single
      link. */
  ghost predicate LinksHonest(es: seq<Entry>, xid: int) {
    forall i, j :: 0 <= i < j < |es| && es[i].xid == xid && es[j].xid == xid && Id(es[i]) == Id(es[j]) ==>
      es[i].nlink != 1 && es[j].nlink != 1
  }

  /** No two inodes of the wanted context that have several links share a number. */
  ghost predicate NumbersApart(es: seq<Entry>, xid: int) {
    forall i, j :: 0 <= i < j < |es| && es[i].xid == xid && es[j].xid == xid && es[i].ino == es[j].ino ==>
      es[i].nlink == 1 || es[j].nlink == 1 || es[i].dev == es[j].dev
  }

  /** The numbers seen are those of entries with several links. */
  ghost predicate SeenRight(es: seq<Entry>, xid: int, seen: set<nat>) {
    forall x :: x in seen <==> exists i :: 0 <= i < |es| && es[i].xid == xid && es[i].nlink != 1 && es[i].ino == x
  }

  lemma {:induction false} SeenIsRight(es: seq<Entry>, xid: int)
    ensures SeenRight(es, xid, CountAll(START, es, xid).seen)
    decreases |es|
  {
    if es != [] {
      var n := |es| - 1;
      SeenIsRight(es[..n], xid);
      forall x ensures x in CountAll(START, es, xid).seen <==>
        exists i :: 0 <= i < |es| && es[i].xid == xid && es[i].nlink != 1 && es[i].ino == x
      {
        if x in CountAll(START, es[..n], xid).seen {
          var i :| 0 <= i < n && es[..n][i].xid == xid && es[..n][i].nlink != 1 && es[..n][i].ino == x;
          assert es[i].ino == x;
        }
        if i :| 0 <= i < |es| && es[i].xid == xid && es[i].nlink != 1 && es[i].ino == x {
          if i < n { assert es[..n][i].ino == x; }
        }
      }
    }
  }

  // ---- the entries before the last ----

  ghost predicate Appears(es: seq<Entry>, xid: int, id: (nat, nat), single: bool) {
    exists i :: 0 <= i < |es| && es[i].xid == xid && Id(es[i]) == id && (es[i].nlink == 1 <==> single)
  }

  /** Some other device has an inode with this number and several links. */
  ghost predicate AppearsElsewhere(es: seq<Entry>, xid: int, id: (nat, nat)) {
    exists i :: 0 <= i < |es| && es[i].xid == xid && es[i].nlink != 1 && es[i].ino == id.1 && es[i].dev != id.0
  }

  lemma WantedAppears(es: seq<Entry>, xid: int, id: (nat, nat))
    ensures id in Wanted(es, xid) <==> Appears(es, xid, id, true) || Appears(es, xid, id, false)
  {
  }

  lemma {:induction false} SeenAppears(es: seq<Entry>, xid: int, id: (nat, nat))
    ensures id.1 in CountAll(START, es, xid).seen <==> Appears(es, xid, id, false) || AppearsElsewhere(es, xid, id)
  {
    SeenIsRight(es, xid);
    hide CountAll;
    if i :| 0 <= i < |es| && es[i].xid == xid && es[i].nlink != 1 && es[i].ino == id.1 {
      assert Id(es[i]) == id || es[i].dev != id.0;
    }
  }

  /** One more entry is honest if no earlier one of its inode has a single link, nor has it. */
  lemma HonestStep(es: seq<Entry>, xid: int)
    requires es != []
    ensures var n := |es| - 1; var e, prev := es[n], es[..n];
      LinksHonest(es, xid) <==> LinksHonest(prev, xid) && (e.xid == xid ==>
        !Appears(prev, xid, Id(e), true) && (e.nlink == 1 ==> !Appears(prev, xid, Id(e), false)))
  {
  }

  lemma ApartStep(es: seq<Entry>, xid: int)
    requires es != []
    ensures var n := |es| - 1; var e, prev := es[n], es[..n];
      NumbersApart(es, xid) <==>
        NumbersApart(prev, xid) && (e.xid == xid && e.nlink != 1 ==> !AppearsElsewhere(prev, xid, Id(e)))
  {
  }

  /** Where both kinds of entry appear, links are not honest already. */
  lemma BothKindsDishonest(es: seq<Entry>, xid: int, id: (nat, nat))
    requires Appears(es, xid, id, true) && Appears(es, xid, id, false)
    ensures !LinksHonest(es, xid)
  {
  }

  /** Where a number appears on two devices, numbers are not apart already. */
  lemma BothPlacesTogether(es: seq<Entry>, xid: int, id: (nat, nat))
    requires Appears(es, xid, id, false) && AppearsElsewhere(es, xid, id)
    ensures !NumbersApart(es, xid)
  {
  }

  /** All that the last entry changes, in terms of what appears before it. */
  lemma {:induction false} LastEntry(es: seq<Entry>, xid: int)
    requires es != []
    ensures var n := |es| - 1; var e, prev := es[n], es[..n];
      var single, several := Appears(prev, xid, Id(e), true), Appears(prev, xid, Id(e), false);
      var elsewhere := AppearsElsewhere(prev, xid, Id(e));
      && (Id(e) in Wanted(prev, xid) <==> single || several)
      && (e.ino in CountAll(START, prev, xid).seen <==> several || elsewhere)
      && (LinksHonest(es, xid) <==>
            LinksHonest(prev, xid) && (e.xid == xid ==> !single && (e.nlink == 1 ==> !several)))
      && (NumbersApart(es, xid) <==> NumbersApart(prev, xid) && (e.xid == xid && e.nlink != 1 ==> !elsewhere))
      && (single && several ==> !LinksHonest(prev, xid))
      && (several && elsewhere ==> !NumbersApart(prev, xid))
  {
    var n := |es| - 1;
    var e, prev := es[n], es[..n];
    HonestStep(es, xid);
    ApartStep(es, xid);
    WantedAppears(prev, xid, Id(e));
    SeenAppears(prev, xid, Id(e));
    hide LinksHonest, NumbersApart, Wanted, CountAll, Appears, AppearsElsewhere;
    if Appears(prev, xid, Id(e), true) && Appears(prev, xid, Id(e), false) { BothKindsDishonest(prev, xid, Id(e)); }
    if Appears(prev, xid, Id(e), false) && AppearsElsewhere(prev, xid, Id(e)) { BothPlacesTogether(prev, xid, Id(e)); }
  }

  /** The last entry is counted. */
  predicate Counted(es: seq<Entry>, xid: int)
    requires es != []
  {
    var n := |es| - 1;
    es[n].xid == xid && (es[n].nlink == 1 || es[n].ino !in CountAll(START, es[..n], xid).seen)
  }

  lemma {:induction false} CountStep(es: seq<Entry>, xid: int)
    requires es != []
    ensures var n := |es| - 1; var before, after := CountAll(START, es[..n], xid), CountAll(START, es, xid);
      && after.inodes == before.inodes + (if Counted(es, xid) then 1 else 0)
      && after.blocks == before.blocks + (if Counted(es, xid) then es[n].blocks else 0)
  {
  }

  // ---- inodes ----

  /** Numbers apart, every inode is counted at least once, and exactly once if and only if link
      counts are honest. */
  lemma {:induction false} CountedOnceIff(es: seq<Entry>, xid: int)
    requires NumbersApart(es, xid)
    ensures CountAll(START, es, xid).inodes >= |Wanted(es, xid)|
    ensures CountAll(START, es, xid).inodes == |Wanted(es, xid)| <==> LinksHonest(es, xid)
    decreases |es|
  {
    if es != [] {
      LastEntry(es, xid);
      CountStep(es, xid);
      WantedStep(es, xid);
      hide LinksHonest, NumbersApart, Appears, AppearsElsewhere, Wanted, CountAll;
      CountedOnceIff(es[..|es| - 1], xid);
    }
  }

  /** Links honest, every inode is counted at most once, and all of them are if and only if no two
      that have several links share a number. */
  lemma {:induction false} NoneMissedIff(es: seq<Entry>, xid: int)
    requires LinksHonest(es, xid)
    ensures CountAll(START, es, xid).inodes <= |Wanted(es, xid)|
    ensures CountAll(START, es, xid).inodes == |Wanted(es, xid)| <==> NumbersApart(es, xid)
    decreases |es|
  {
    if es != [] {
      LastEntry(es, xid);
      CountStep(es, xid);
      WantedStep(es, xid);
      hide LinksHonest, NumbersApart, Appears, AppearsElsewhere, Wanted, CountAll;
      NoneMissedIff(es[..|es| - 1], xid);
    }
  }

  /** The root directory of a file system that is mounted below the root directory of another has
      the same number on many file systems: then the mount point is not counted. */
  lemma {:induction false} MountPointIsMissed(xid: int)
    ensures var mount := Entry(2, 3, 2, xid, 8, true, []);
      var root := Entry(2, 3, 1, xid, 8, true, [mount]);
      var es := Visits(root, root.dev);
      && LinksHonest(es, xid) && !NumbersApart(es, xid)
      && |Wanted(es, xid)| == 2 && CountAll(START, es, xid).inodes == 1 && CountAll(START, es, xid).blocks == 8
  {
    var mount := Entry(2, 3, 2, xid, 8, true, []);
    var root := Entry(2, 3, 1, xid, 8, true, [mount]);
    assert [mount][..0] == [];
    assert VisitsBelow([mount], 1) == [] + Visits(mount, 1);
    var es := Visits(root, root.dev);
    assert es == [root, mount];
    assert es[..1] == [root] && [root][..0] == [];
    assert CountAll(START, [root], xid) == Count(START, root, xid);
    assert CountAll(START, es, xid) == Count(Count(START, root, xid), mount, xid);
    assert Wanted([], xid) == {};
    WantedStep([root], xid);
    WantedStep(es, xid);
    assert Wanted(es, xid) == {(1, 2), (2, 2)};
    assert es[0].dev != es[1].dev;
  }

  // ---- blocks ----

  ghost function Sum(s: set<(nat, nat)>, f: ((nat, nat)) -> nat): nat {
    if s == {} then 0 else var x :| x in s; f(x) + Sum(s - {x}, f)
  }

  lemma {:induction false} SumAdd(s: set<(nat, nat)>, x: (nat, nat), f: ((nat, nat)) -> nat)
    requires x !in s
    ensures Sum(s + {x}, f) == Sum(s, f) + f(x)
    decreases |s|
  {
    var t := s + {x};
    var y :| y in t && Sum(t, f) == f(y) + Sum(t - {y}, f);
    if y == x {
      assert t - {y} == s;
    } else {
      assert t - {y} == (s - {y}) + {x};
      SumAdd(s - {y}, x, f);
      SumAdd(s - {y}, y, f);
      assert (s - {y}) + {y} == s;
    }
  }

  /** Entries of one inode have its size. */
  ghost predicate SameInodes(es: seq<Entry>, blocksOf: ((nat, nat)) -> nat) {
    forall i :: 0 <= i < |es| ==> es[i].blocks == blocksOf(Id(es[i]))
  }

  /** The number of names that lead to an inode is at most its link count. */
  ghost predicate LinksCover(es: seq<Entry>) {
    forall i :: 0 <= i < |es| ==> |set k | 0 <= k < |es| && Id(es[k]) == Id(es[i])| <= es[i].nlink
  }

  lemma CoverIsHonest(es: seq<Entry>, xid: int)
    requires LinksCover(es)
    ensures LinksHonest(es, xid)
  {
    forall i, j | 0 <= i < j < |es| && Id(es[i]) == Id(es[j]) ensures es[i].nlink != 1 && es[j].nlink != 1 {
      var names := set k | 0 <= k < |es| && Id(es[k]) == Id(es[i]);
      assert {i, j} <= names;
      assert |{i, j}| + |names - {i, j}| == |names|;
    }
  }

  lemma OneDeviceIsApart(es: seq<Entry>, xid: int)
    requires forall i, j :: 0 <= i < |es| && 0 <= j < |es| ==> es[i].dev == es[j].dev
    ensures NumbersApart(es, xid)
  {
  }

  /** Links honest, the blocks are at most those of the distinct inodes; they are all of them if no
      numbers are shared, and less if some are and no inode is without blocks. */
  lemma {:induction false} BlocksSummed(es: seq<Entry>, xid: int, blocksOf: ((nat, nat)) -> nat)
    requires SameInodes(es, blocksOf) && LinksHonest(es, xid)
    ensures CountAll(START, es, xid).blocks <= Sum(Wanted(es, xid), blocksOf)
    ensures NumbersApart(es, xid) ==> CountAll(START, es, xid).blocks == Sum(Wanted(es, xid), blocksOf)
    ensures !NumbersApart(es, xid) && (forall id :: id in Wanted(es, xid) ==> blocksOf(id) > 0) ==>
      CountAll(START, es, xid).blocks < Sum(Wanted(es, xid), blocksOf)
    decreases |es|
  {
    if es == [] {
      assert Wanted(es, xid) == {};
    } else {
      var n := |es| - 1;
      var e, prev := es[n], es[..n];
      assert SameInodes(prev, blocksOf) by { assert forall i :: 0 <= i < n ==> prev[i] == es[i]; }
      LastEntry(es, xid);
      CountStep(es, xid);
      WantedStep(es, xid);
      assert e.blocks == blocksOf(Id(e));
      hide LinksHonest, NumbersApart, Appears, AppearsElsewhere, Wanted, CountAll, SameInodes, Sum;
      BlocksSummed(prev, xid, blocksOf);
      if e.xid == xid && Id(e) !in Wanted(prev, xid) {
        SumAdd(Wanted(prev, xid), Id(e), blocksOf);
      } else {
        assert Wanted(es, xid) == Wanted(prev, xid);
      }
    }
  }

  /** With honest links, as they are when they cover the names found, vdu counts all inodes of the
      context, each once, if and only if no two with several links share a number, as within one
      device; and likewise the blocks. */
  method DiskUsageOf(root: Entry, xid: int, ghost blocksOf: ((nat, nat)) -> nat) returns (inodes: nat, blocks: nat)
    ensures var es := Reached(root);
      && (LinksHonest(es, xid) ==> (inodes == |Wanted(es, xid)| <==> NumbersApart(es, xid)))
      && (NumbersApart(es, xid) ==> (inodes == |Wanted(es, xid)| <==> LinksHonest(es, xid)))
      && (LinksCover(es) ==> LinksHonest(es, xid))
      && (LinksHonest(es, xid) && SameInodes(es, blocksOf) ==>
            && (NumbersApart(es, xid) ==> blocks == Sum(Wanted(es, xid), blocksOf))
            && ((forall id :: id in Wanted(es, xid) ==> blocksOf(id) > 0) ==>
                  (blocks == Sum(Wanted(es, xid), blocksOf) <==> NumbersApart(es, xid))))
  {
    var walk := new Walk(xid);
    walk.VisitDirEntry(root, root.dev);
    VisitsAreReached(root);
    ghost var es := Visits(root, root.dev);
    hide Visits, Reached, CountAll, LinksHonest, LinksCover, NumbersApart, SameInodes, Wanted, Sum;
    if NumbersApart(es, xid) { CountedOnceIff(es, xid); }
    if LinksHonest(es, xid) { NoneMissedIff(es, xid); }
    if LinksCover(es) { CoverIsHonest(es, xid); }
    if LinksHonest(es, xid) && SameInodes(es, blocksOf) { BlocksSummed(es, xid, blocksOf); }
    inodes, blocks := walk.inodes, walk.blocks;
  }
}
