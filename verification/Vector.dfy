/** The growing array of ensc_vector. */
module Vector {
  import opened Optional
  import opened SelfOrg

  lemma RoomMade<T>(s: seq<T>, t: seq<T>, at: nat)
    requires at <= |s| && |t| == |s| + 1
    requires forall i :: 0 <= i < at ==> t[i] == s[i]
    requires forall i :: at < i < |t| ==> t[i] == s[i - 1]
    ensures t[..at] == s[..at] && t[at + 1..] == s[at..]
  {
  }

  /** Binary search on any sequence, ordered or not: an index, or -1. */
  function Bsearch<T>(s: seq<T>, compare: T -> int, lo: nat, hi: nat): (at: int)
    requires lo <= hi <= |s|
    ensures -1 <= at < hi && (at >= 0 ==> compare(s[at]) == 0)
    decreases hi - lo
  {
    if lo == hi then -1
    else
      var mid := (lo + hi) / 2;
      var c := compare(s[mid]);
      if c == 0 then mid else if c > 0 then Bsearch(s, compare, mid + 1, hi) else Bsearch(s, compare, lo, mid)
  }

  /** The order that section 7.20.5.1 of ISO/IEC 9899:1999 demands: first the elements that the key
      is above, then those that it equals, then those that it is below. */
  ghost predicate Ordered<T>(s: seq<T>, compare: T -> int) {
    forall i, j :: 0 <= i < j < |s| ==>
      (compare(s[i]) <= 0 ==> compare(s[j]) <= 0) && (compare(s[i]) < 0 ==> compare(s[j]) < 0)
  }

  /** On an ordered sequence an equal element is found if there is one. */
  lemma {:induction false} BsearchFinds<T>(s: seq<T>, compare: T -> int, lo: nat, hi: nat)
    requires lo <= hi <= |s| && Ordered(s, compare)
    requires forall i :: 0 <= i < |s| && !(lo <= i < hi) ==> compare(s[i]) != 0
    ensures Bsearch(s, compare, lo, hi) < 0 <==> forall i :: 0 <= i < |s| ==> compare(s[i]) != 0
    decreases hi - lo
  {
    if lo < hi {
      var mid := (lo + hi) / 2;
      if compare(s[mid]) > 0 {
        BsearchFinds(s, compare, mid + 1, hi);
      } else if compare(s[mid]) < 0 {
        BsearchFinds(s, compare, lo, mid);
      }
    }
  }

  class Vector<T(0)> {
    var data: array<T>
    var count: nat

    ghost predicate Valid()
      reads this
    {
      count <= data.Length
    }

    ghost function Contents(): (s: seq<T>)
      requires Valid()
      reads this, data
      ensures |s| == count
    {
      data[..count]
    }

    constructor ()
      ensures Valid() && Contents() == [] && fresh(data)
    {
      data := new T[0];
      count := 0;
    }

    /** Vector_resizeInternal: room for `count * 20/16 + 1` elements. */
    method Resize()
      modifies this
      ensures count == old(count) && fresh(data) && data.Length == count * 20 / 16 + 1
      ensures forall i :: 0 <= i < old(data).Length && i < data.Length ==> data[i] == old(data[i])
    {
      var bigger := new T[count * 20 / 16 + 1];
      forall i | 0 <= i < data.Length && i < bigger.Length { bigger[i] := data[i]; }
      data := bigger;
    }

    /** Vector_pushback: one more element, of whatever value was there. */
    method Pushback() returns (at: nat)
      requires Valid()
      modifies this
      ensures Valid() && at == old(count) && count == at + 1 && Contents()[..at] == old(Contents())
      ensures data == old(data) || fresh(data)
      ensures data == old(data) ==> data[..] == old(data[..])
    {
      at := count;
      count := count + 1;
      if data.Length < count { Resize(); }
    }

    /** Vector_insert: a place in front of the first element that the key is before; the caller
        fills it. */
    method Insert(before: T -> bool) returns (at: nat)
      requires Valid()
      modifies this, data
      ensures Valid() && (data == old(data) || fresh(data))
      ensures at == FirstMatch(old(Contents()), before) && count == old(count) + 1
      ensures Contents()[..at] == old(Contents())[..at] && Contents()[at + 1..] == old(Contents())[at..]
    {
      ghost var s := Contents();
      var end := Pushback();
      assert forall i :: 0 <= i < end ==> data[i] == Contents()[..end][i];
      at := 0;
      while at < end
        invariant 0 <= at <= end
        invariant forall i :: 0 <= i < at ==> !before(s[i])
        invariant data[..end] == s
      {
        if before(data[at]) { break; }
        at := at + 1;
      }
      FirstMatchIs(s, before, at);
      hide FirstMatch;
      MakeRoom(at);
      RoomMade(s, Contents(), at);
    }

    method MakeRoom(at: nat)
      requires Valid() && at < count
      modifies data
      ensures forall i :: 0 <= i < data.Length ==> data[i] == if at < i < count then old(data[i - 1]) else old(data[i])
    {
      forall i | at < i < count { data[i] := data[i - 1]; }
    }

    /** Vector_search by bsearch(3). */
    method Search(compare: T -> int) returns (at: int)
      requires Valid()
      ensures at == Bsearch(Contents(), compare, 0, count)
    {
      ghost var s := Contents();
      var lo, hi := 0, count;
      while lo < hi
        invariant 0 <= lo <= hi <= count
        invariant Bsearch(s, compare, lo, hi) == Bsearch(s, compare, 0, count)
      {
        var mid := (lo + hi) / 2;
        var c := compare(data[mid]);
        if c == 0 { return mid; }
        if c > 0 { lo := mid + 1; } else { hi := mid; }
      }
      return -1;
    }

    /** Vector_searchSelfOrg: the scan, and then memmove and memcpy in place. */
    method SearchSelfOrg(matches: T -> bool, how: Method) returns (r: Option<T>)
      requires Valid()
      modifies data
      ensures r == Lookup(old(Contents()), matches)
      ensures Contents() == Reorder(old(Contents()), FirstMatch(old(Contents()), matches), how)
    {
      ghost var s := Contents();
      var k := 0;
      while k < count && !matches(data[k])
        invariant 0 <= k <= count
        invariant forall i :: 0 <= i < k ==> !matches(s[i])
      {
        k := k + 1;
      }
      FirstMatchIs(s, matches, k);
      hide FirstMatch;
      if k == count { return None; }
      r := Some(data[k]);
      if k > 0 { Promote(k, how); }
    }

    method Promote(k: nat, how: Method)
      requires Valid() && 0 < k < count
      modifies data
      ensures Contents() == Reorder(old(Contents()), k, how)
    {
      hide Reorder;
      ghost var s := Contents();
      var tmp := data[k];
      match how {
        case MoveFront =>
          forall i | 0 < i <= k { data[i] := data[i - 1]; }
          data[0] := tmp;
        case ShiftOnce =>
          data[k] := data[k - 1];
          data[k - 1] := tmp;
      }
      ReorderIs(s, k, how, Contents());
    }
  }
}
