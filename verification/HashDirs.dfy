/** The table of hash directories of vhashify, one per device. */
module HashDirs {
  import opened Optional
  import opened SelfOrg
  import Vector

  datatype HashDirInfo = HashDirInfo(path: string, device: int)

  /** HashDirInfo_compareDevice subtracts two dev_t and returns an int: only 32 bits count. */
  predicate SameDevice(device: int, info: HashDirInfo) {
    (info.device - device) % 0x1_0000_0000 == 0
  }

  /** HashDirInfo_findDevice: the answer is that of a plain search. */
  method FindDevice(dirs: Vector.Vector<HashDirInfo>, device: int) returns (path: Option<string>)
    requires dirs.Valid()
    modifies dirs.data
    ensures var found := Lookup(old(dirs.Contents()), x => SameDevice(device, x));
      path == if found.Some? then Some(found.value.path) else None
    ensures dirs.Contents() ==
      Reorder(old(dirs.Contents()), FirstMatch(old(dirs.Contents()), x => SameDevice(device, x)), ShiftOnce)
  {
    var info := dirs.SearchSelfOrg(x => SameDevice(device, x), ShiftOnce);
    path := if info.Some? then Some(info.value.path) else None;
  }

  /** initHashList registers a directory only if its device is not found yet, so that no two
      records answer to the same device. */
  method AddHashDir(dirs: Vector.Vector<HashDirInfo>, info: HashDirInfo) returns (added: bool)
    requires dirs.Valid() && UniqueKeys(dirs.Contents(), SameDevice)
    modifies dirs, dirs.data
    ensures dirs.Valid() && (dirs.data == old(dirs.data) || fresh(dirs.data))
    ensures UniqueKeys(dirs.Contents(), SameDevice)
    ensures added <==> Lookup(old(dirs.Contents()), x => SameDevice(info.device, x)) == None
    ensures multiset(dirs.Contents()) == multiset(old(dirs.Contents())) + if added then multiset{info} else multiset{}
  {
    ghost var s := dirs.Contents();
    ghost var k := FirstMatch(s, x => SameDevice(info.device, x));
    var known := FindDevice(dirs, info.device);
    ReorderPermutes(s, k, ShiftOnce);
    ghost var t := dirs.Contents();
    if known.Some? { return false; }
    var at := dirs.Pushback();
    dirs.data[at] := info;
    assert dirs.Contents() == t + [info];
    NewKeyIsUnique(t, info);
    added := true;
  }

  lemma NewKeyIsUnique(s: seq<HashDirInfo>, info: HashDirInfo)
    requires UniqueKeys(s, SameDevice)
    requires forall x :: x in s ==> !SameDevice(info.device, x)
    ensures UniqueKeys(s + [info], SameDevice)
  {
  }

  /** However the table has been searched, every device leads to the record it led to at first. */
  lemma {:induction false} DevicesStayPut(dirs: seq<HashDirInfo>, searches: seq<(int, Method)>, device: int)
    requires UniqueKeys(dirs, SameDevice)
    ensures Lookup(AfterSearches(dirs, SameDevice, searches), x => SameDevice(device, x))
      == Lookup(dirs, x => SameDevice(device, x))
  {
    hide Lookup, LookupKey, FirstMatch, AfterSearches, UniqueKeys;
    SearchesObserveNothing(dirs, SameDevice, searches, device);
    LookupCongruent(dirs, x => SameDevice(device, x), SameDevice, device);
    LookupCongruent(AfterSearches(dirs, SameDevice, searches), x => SameDevice(device, x), SameDevice, device);
  }

  /** The search by the device itself. */
  function Exact(dirs: seq<HashDirInfo>, device: int): Option<HashDirInfo> {
    Lookup(dirs, (x: HashDirInfo) => x.device == device)
  }

  /** The record found is that of the device asked for, or none if there is none, if and only if no
      registered device differs from it by a multiple of 2^32. */
  lemma FoundRightIff(dirs: seq<HashDirInfo>, device: int)
    requires UniqueKeys(dirs, SameDevice)
    ensures Lookup(dirs, x => SameDevice(device, x)) == Exact(dirs, device) <==>
      forall x :: x in dirs && SameDevice(device, x) ==> x.device == device
  {
  }

  /** Two devices that differ in bit 32 only: the second is not registered, and is then taken for
      the first. */
  method AliasIsRefused(a: string, b: string) returns (added: bool, path: Option<string>)
    ensures !added && path == Some(a)
  {
    var dirs := new Vector.Vector<HashDirInfo>();
    var first, second := HashDirInfo(a, 1), HashDirInfo(b, 0x1_0000_0001);
    added := AddHashDir(dirs, first);
    OnlyRecord(dirs.Contents(), first);
    added := AddHashDir(dirs, second);
    OnlyRecord(dirs.Contents(), first);
    path := FindDevice(dirs, second.device);
  }

  lemma OnlyRecord(dirs: seq<HashDirInfo>, info: HashDirInfo)
    requires multiset(dirs) == multiset{info}
    ensures dirs == [info]
    ensures forall d :: Lookup(dirs, x => SameDevice(d, x)) == if SameDevice(d, info) then Some(info) else None
  {
  }
}
