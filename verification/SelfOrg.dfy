/** Self-organising search as an operation on sequences: what the list and the vector of
    ensc_vector have in common. */
module SelfOrg {
  import opened Optional

  datatype Method = MoveFront | ShiftOnce

  /** The index of the first element that matches, or the length. */
  function FirstMatch<T>(s: seq<T>, matches: T -> bool): (k: nat)
    ensures k <= |s| && (k < |s| ==> matches(s[k])) && forall i :: 0 <= i < k ==> !matches(s[i])
  {
    if s == [] || matches(s[0]) then 0 else 1 + FirstMatch(s[1..], matches)
  }

  lemma {:induction false} FirstMatchIs<T>(s: seq<T>, matches: T -> bool, k: nat)
    requires k <= |s| && (k < |s| ==> matches(s[k])) && forall i :: 0 <= i < k ==> !matches(s[i])
    ensures k == FirstMatch(s, matches)
  {
  }

  /** The plain search. */
  function Lookup<T>(s: seq<T>, matches: T -> bool): Option<T> {
    var k := FirstMatch(s, matches);
    if k < |s| then Some(s[k]) else None
  }

  /** It gives an element that matches with none before it, or nothing if none matches. */
  lemma LookupIs<T>(s: seq<T>, matches: T -> bool)
    ensures Lookup(s, matches) == None <==> forall i :: 0 <= i < |s| ==> !matches(s[i])
    ensures forall k :: 0 <= k < |s| && matches(s[k]) && (forall i :: 0 <= i < k ==> !matches(s[i])) ==>
      Lookup(s, matches) == Some(s[k])
  {
  }

  /** The element at `k` is moved to the front, or one place forward; all others keep their order. */
  function Reorder<T>(s: seq<T>, k: nat, how: Method): (r: seq<T>)
    requires k <= |s|
    ensures |r| == |s|
  {
    if k == 0 || k == |s| then s
    else match how
      case MoveFront => [s[k]] + s[..k] + s[k + 1..]
      case ShiftOnce => s[..k - 1] + [s[k], s[k - 1]] + s[k + 1..]
  }

  /** Where each element comes from. */
  lemma ReorderIs<T>(s: seq<T>, k: nat, how: Method, t: seq<T>)
    requires 0 < k < |s| == |t|
    requires forall i :: k < i < |t| ==> t[i] == s[i]
    requires how == MoveFront ==> t[0] == s[k] && forall i :: 0 < i <= k ==> t[i] == s[i - 1]
    requires how == ShiftOnce ==> t[k - 1] == s[k] && t[k] == s[k - 1] && forall i :: 0 <= i < k - 1 ==> t[i] == s[i]
    ensures t == Reorder(s, k, how)
  {
  }

  lemma ReorderPermutes<T>(s: seq<T>, k: nat, how: Method)
    requires k <= |s|
    ensures multiset(Reorder(s, k, how)) == multiset(s)
    ensures forall x :: x in Reorder(s, k, how) <==> x in s
  {
    if 0 < k < |s| {
      if how == MoveFront { MoveFrontPermutes(s, k); } else { ShiftOncePermutes(s, k); }
    }
    SameElements(s, Reorder(s, k, how));
  }

  lemma MoveFrontPermutes<T>(s: seq<T>, k: nat)
    requires k < |s|
    ensures multiset([s[k]] + s[..k] + s[k + 1..]) == multiset(s)
  {
    assert s == s[..k] + [s[k]] + s[k + 1..];
  }

  lemma ShiftOncePermutes<T>(s: seq<T>, k: nat)
    requires 0 < k < |s|
    ensures multiset(s[..k - 1] + [s[k], s[k - 1]] + s[k + 1..]) == multiset(s)
  {
    assert s == s[..k - 1] + [s[k - 1], s[k]] + s[k + 1..];
    assert multiset([s[k], s[k - 1]]) == multiset([s[k - 1], s[k]]);
  }

  /** Only what a predicate says matters. */
  lemma LookupCongruent<K, T(!new)>(s: seq<T>, p: T -> bool, matches: (K, T) -> bool, key: K)
    requires forall x :: p(x) == matches(key, x)
    ensures Lookup(s, p) == LookupKey(s, matches, key)
  {
  }

  lemma SameElements<T>(s: seq<T>, t: seq<T>)
    requires multiset(s) == multiset(t)
    ensures forall x :: x in t <==> x in s
  {
    assert forall x :: x in multiset(s) <==> x in s;
    assert forall x :: x in multiset(t) <==> x in t;
  }

  /** A search does not change its own outcome. */
  lemma {:induction false} SearchIsStable<T>(s: seq<T>, matches: T -> bool, how: Method)
    ensures Lookup(Reorder(s, FirstMatch(s, matches), how), matches) == Lookup(s, matches)
  {
    var k := FirstMatch(s, matches);
    var r := Reorder(s, k, how);
    if 0 < k < |s| {
      match how
      case MoveFront => FirstMatchIs(r, matches, 0);
      case ShiftOnce => FirstMatchIs(r, matches, k - 1);
    }
  }

  /** Elements that match the same key are the same. */
  ghost predicate UniqueKeys<K(!new), T>(s: seq<T>, matches: (K, T) -> bool) {
    forall key, x, y :: x in s && y in s && matches(key, x) && matches(key, y) ==> x == y
  }

  function LookupKey<K, T>(s: seq<T>, matches: (K, T) -> bool, key: K): Option<T> {
    Lookup(s, x => matches(key, x))
  }

  lemma LookupByMembership<K(!new), T>(s: seq<T>, matches: (K, T) -> bool, key: K)
    requires UniqueKeys(s, matches)
    ensures forall x :: LookupKey(s, matches, key) == Some(x) <==> x in s && matches(key, x)
  {
  }

  /** The sequence after any number of searches. */
  function AfterSearches<K, T>(s: seq<T>, matches: (K, T) -> bool, searches: seq<(K, Method)>): seq<T>
    decreases |searches|
  {
    if searches == [] then s
    else
      var (key, how) := searches[0];
      AfterSearches(Reorder(s, FirstMatch(s, x => matches(key, x)), how), matches, searches[1..])
  }

  /** Searching is observationally constant: after any searches by any methods the elements are a
      permutation, and every key finds what it found before. */
  lemma {:induction false} SearchesObserveNothing<K(!new), T>(s: seq<T>, matches: (K, T) -> bool,
                                                              searches: seq<(K, Method)>, key: K)
    requires UniqueKeys(s, matches)
    ensures var t := AfterSearches(s, matches, searches);
      multiset(t) == multiset(s) && LookupKey(t, matches, key) == LookupKey(s, matches, key)
    decreases |searches|
  {
    if searches != [] {
      var (other, how) := searches[0];
      var k := FirstMatch(s, x => matches(other, x));
      var t := Reorder(s, k, how);
      ReorderPermutes(s, k, how);
      SearchesObserveNothing(t, matches, searches[1..], key);
      LookupByMembership(s, matches, key);
      LookupByMembership(t, matches, key);
      var a, b := LookupKey(s, matches, key), LookupKey(t, matches, key);
      if a.Some? { assert b == Some(a.value); }
      if b.Some? { assert a == Some(b.value); }
    }
  }
}
