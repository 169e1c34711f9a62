/** The singly linked list of ensc_vector, with searches that relink it. */
module SelfOrgList {
  import opened Optional
  import opened SelfOrg
  import opened LinkedItems

  ghost function Datas<T>(c: seq<ListItem<T>>): seq<T> {
    seq(|c|, i requires 0 <= i < |c| => c[i].data)
  }

  lemma DatasReorder<T>(c: seq<ListItem<T>>, k: nat, how: Method)
    requires k <= |c|
    ensures Datas(Reorder(c, k, how)) == Reorder(Datas(c), k, how)
  {
  }

  lemma DatasSplice<T>(c: seq<ListItem<T>>, at: nat, item: ListItem<T>)
    requires at <= |c|
    ensures Datas(Spliced(c, at, item)) == Datas(c)[..at] + [item.data] + Datas(c)[at..]
  {
  }

  class List<T> {
    var root: ListItem?<T>
    var count: nat
    ghost var items: seq<ListItem<T>>

    ghost predicate Valid()
      reads this, items
    {
      Linked(items, root) && count == |items|
    }

    ghost function Contents(): seq<T>
      reads this
    {
      Datas(items)
    }

    constructor ()
      ensures Valid() && items == []
    {
      root, count, items := null, 0, [];
    }

    /** List_insertInternal in front of the item at `at`; `prev` is the item before it, or null for
        the address of the root. */
    method Insert(data: T, prev: ListItem?<T>, ghost at: nat) returns (item: ListItem<T>)
      requires Valid() && at <= |items| && prev == (if at > 0 then items[at - 1] else null)
      modifies this, items
      ensures Valid() && fresh(item) && items == old(items)[..at] + [item] + old(items)[at..]
      ensures Contents() == old(Contents())[..at] + [data] + old(Contents())[at..] && count == old(count) + 1
    {
      ghost var c := items;
      item := new ListItem(data, if prev == null then root else prev.next);
      assert item.next == NodeAt(c, at) by { if at > 0 { assert c[at - 1].next == NodeAt(c, at); } }
      root := Splice(c, root, at, prev, item);
      DatasSplice(c, at, item);
      items := Spliced(c, at, item);
      count := count + 1;
    }

    /** List_search */
    method Search(matches: T -> bool) returns (r: Option<T>)
      requires Valid()
      ensures r == Lookup(Contents(), matches)
    {
      var itm := root;
      ghost var i := 0;
      while itm != null && !matches(itm.data)
        invariant i <= |items| && itm == NodeAt(items, i)
        invariant forall j :: 0 <= j < i ==> !matches(items[j].data)
        decreases |items| - i
      {
        assert items[i].next == NodeAt(items, i + 1);
        itm := itm.next;
        i := i + 1;
      }
      FirstMatchIs(Contents(), matches, i);
      r := if itm != null then Some(itm.data) else None;
    }

    /** The walk of both searches: `prev` stands for the address that holds `itm`. */
    method Locate(matches: T -> bool) returns (prev2: ListItem?<T>, prev: ListItem?<T>, itm: ListItem?<T>, ghost k: nat)
      requires Valid()
      ensures k == FirstMatch(Contents(), matches) && itm == NodeAt(items, k)
      ensures prev == (if k > 0 then items[k - 1] else null)
      ensures prev2 == (if k > 1 then items[k - 2] else null)
    {
      prev2, prev, itm, k := null, null, root, 0;
      while itm != null && !matches(itm.data)
        invariant k <= |items| && itm == NodeAt(items, k)
        invariant prev == (if k > 0 then items[k - 1] else null)
        invariant prev2 == (if k > 1 then items[k - 2] else null)
        invariant forall j :: 0 <= j < k ==> !matches(items[j].data)
        decreases |items| - k
      {
        assert items[k].next == NodeAt(items, k + 1);
        prev2, prev, itm, k := prev, itm, itm.next, k + 1;
      }
      FirstMatchIs(Contents(), matches, k);
    }

    /** listMOVE_FRONT: unlink the item behind `prev` and make it the root. */
    method RelinkFront(prev: ListItem<T>, itm: ListItem<T>, ghost k: nat)
      requires Valid() && 0 < k < |items| && prev == items[k - 1] && itm == items[k]
      modifies this, items
      ensures Valid() && items == Reorder(old(items), k, MoveFront) && count == old(count)
    {
      ghost var c := items;
      assert itm.next == NodeAt(c, k + 1);
      prev.next := itm.next;
      itm.next := root;
      root := itm;
      ghost var s := Reorder(c, k, MoveFront);
      forall i | 0 <= i < |s| ensures s[i].next == NodeAt(s, i + 1) {
        assert s[i] == if i == 0 then c[k] else if i <= k then c[i - 1] else c[i];
        assert NodeAt(s, i + 1) == if i < k then c[i] else NodeAt(c, i + 1);
      }
      items := s;
    }

    /** listSHIFT_ONCE: exchange the item with the one before it. */
    method RelinkOnce(prev2: ListItem?<T>, prev: ListItem<T>, itm: ListItem<T>, ghost k: nat)
      requires Valid() && 0 < k < |items| && prev == items[k - 1] && itm == items[k]
      requires prev2 == (if k > 1 then items[k - 2] else null)
      modifies this, items
      ensures Valid() && items == Reorder(old(items), k, ShiftOnce) && count == old(count)
    {
      ghost var c := items;
      assert itm.next == NodeAt(c, k + 1);
      prev.next := itm.next;
      itm.next := prev;
      if prev2 == null { root := itm; } else { prev2.next := itm; }
      ghost var s := Reorder(c, k, ShiftOnce);
      forall i | 0 <= i < |s| ensures s[i].next == NodeAt(s, i + 1) {
        assert s[i] == if i == k - 1 then c[k] else if i == k then c[k - 1] else c[i];
        assert NodeAt(s, i + 1) == if i + 1 == k - 1 then c[k] else if i + 1 == k then c[k - 1] else NodeAt(c, i + 1);
      }
      items := s;
    }

    /** List_searchSelfOrg finds what List_search finds, and reorders the list accordingly. */
    method SearchSelfOrg(matches: T -> bool, how: Method) returns (r: Option<T>)
      requires Valid()
      modifies this, items
      ensures Valid() && count == old(count)
      ensures r == Lookup(old(Contents()), matches)
      ensures items == Reorder(old(items), FirstMatch(old(Contents()), matches), how)
      ensures Contents() == Reorder(old(Contents()), FirstMatch(old(Contents()), matches), how)
    {
      var prev2, prev, itm; ghost var k;
      prev2, prev, itm, k := Locate(matches);
      DatasReorder(items, k, how);
      if itm != null && prev != null {
        match how {
          case MoveFront => RelinkFront(prev, itm, k);
          case ShiftOnce => RelinkOnce(prev2, prev, itm, k);
        }
      }
      r := if itm != null then Some(itm.data) else None;
    }
  }
}
