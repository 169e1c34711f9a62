/** Items on the heap that are linked in a row: what the lists of ensc_vector and the chains of
    vdu's hash table have in common. */
module LinkedItems {

  class ListItem<T> {
    const data: T
    var next: ListItem?<T>

    constructor (data: T, next: ListItem?<T>)
      ensures this.data == data && this.next == next
    {
      this.data, this.next := data, next;
    }
  }

  ghost function NodeAt<T>(c: seq<ListItem<T>>, i: nat): ListItem?<T> {
    if i < |c| then c[i] else null
  }

  /** The items `c` are linked in this order from `root`; none appears twice. */
  ghost predicate Linked<T>(c: seq<ListItem<T>>, root: ListItem?<T>)
    reads c
  {
    && root == NodeAt(c, 0)
    && (forall i {:trigger c[i].next} :: 0 <= i < |c| ==> c[i].next == NodeAt(c, i + 1))
    && (forall i, j :: 0 <= i < j < |c| ==> c[i] != c[j])
  }

  ghost function Spliced<T>(c: seq<ListItem<T>>, at: nat, item: ListItem<T>): seq<ListItem<T>>
    requires at <= |c|
  {
    c[..at] + [item] + c[at..]
  }

  /** The one store that links `item` in: to the root or to `prev.next`. */
  method Splice<T>(ghost c: seq<ListItem<T>>, root: ListItem?<T>, ghost at: nat, prev: ListItem?<T>, item: ListItem<T>)
    returns (newRoot: ListItem<T>)
    requires at <= |c| && Linked(c, root) && item !in c && item.next == NodeAt(c, at)
    requires prev == (if at > 0 then c[at - 1] else null)
    modifies prev
    ensures Linked(Spliced(c, at, item), newRoot)
    ensures newRoot == if prev == null then item else root
  {
    if prev == null {
      newRoot := item;
    } else {
      prev.next := item;
      newRoot := root;
    }
    ghost var s := Spliced(c, at, item);
    forall k | 0 <= k < |s| ensures s[k].next == NodeAt(s, k + 1) {
      assert s[k] == if k < at then c[k] else if k == at then item else c[k - 1];
      assert NodeAt(s, k + 1) == if k + 1 == at then item else if k < at then c[k + 1] else NodeAt(c, k);
    }
  }
}
