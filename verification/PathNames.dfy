/** Path names as sequences of the names between their slashes. */
module PathNames {

  /** The position of the last slash, or -1. */
  function LastSlash(p: string): (i: int)
    ensures -1 <= i < |p| && (i >= 0 ==> p[i] == '/') && forall j :: i < j < |p| ==> p[j] != '/'
  {
    if p == "" then -1 else if p[|p| - 1] == '/' then |p| - 1 else LastSlash(p[..|p| - 1])
  }

  /** The names between the slashes. */
  function Components(p: string): seq<string>
    decreases |p|
  {
    var i := LastSlash(p);
    if i < 0 then (if p == "" then [] else [p])
    else Components(p[..i]) + (if i + 1 == |p| then [] else [p[i + 1..]])
  }

  predicate SlashAt(p: string, j: int) {
    0 <= j < |p| && p[j] == '/'
  }

  /** What the path names up to a slash, from the slash before it. */
  lemma NextSlash(p: string, i: int, j: int)
    requires SlashAt(p, i) && SlashAt(p, j) && i < j && forall k :: i < k < j ==> p[k] != '/'
    ensures Components(p[..j]) == Components(p[..i]) + (if i + 1 == j then [] else [p[i + 1..j]])
  {
    var q := p[..j];
    assert LastSlash(q) == i;
    assert q[..i] == p[..i] && q[i + 1..] == p[i + 1..j];
  }

  /** Up to an earlier slash there are fewer or the same names. */
  lemma {:induction false} EarlierSlash(p: string, i: int, j: int)
    requires SlashAt(p, i) && SlashAt(p, j) && i <= j
    ensures Components(p[..i]) <= Components(p[..j])
    decreases j - i
  {
    if i < j {
      var k := LastSlash(p[..j]);
      assert p[..j][i] == '/';
      assert SlashAt(p, k) && i <= k;
      EarlierSlash(p, i, k);
      NextSlash(p, k, j);
    }
  }

  /** The name behind a slash, if there is one. */
  function NameAfter(p: string, i: int): seq<string>
    requires -1 <= i < |p|
  {
    if i + 1 == |p| then [] else [p[i + 1..]]
  }

  lemma {:induction false} LastName(p: string)
    ensures var i := LastSlash(p);
      Components(p) == (if i < 0 then [] else Components(p[..i])) + NameAfter(p, i)
  {
    assert p[0..] == p;
  }

  lemma SameNameAfter(a: string, b: string, i: int)
    requires -1 <= i < |b|
    ensures NameAfter(a + "/" + b, |a| + 1 + i) == NameAfter(b, i)
  {
    assert (a + "/" + b)[|a| + 1 + i + 1..] == b[i + 1..];
  }

  /** Names on both sides of a slash. */
  lemma {:induction false} NamesSplit(a: string, b: string)
    ensures Components(a + "/" + b) == Components(a) + Components(b)
    decreases |b|
  {
    hide *;
    var s, i := a + "/" + b, LastSlash(b);
    LastSlashOfBoth(a, b);
    LastName(s);
    LastName(b);
    SameNameAfter(a, b, i);
    if i < 0 {
      assert s[..|a|] == a;
    } else {
      NamesSplit(a, b[..i]);
      assert s[..|a| + 1 + i] == a + "/" + b[..i];
    }
  }

  lemma {:induction false} LastSlashOfBoth(a: string, b: string)
    ensures LastSlash(a + "/" + b) == |a| + 1 + LastSlash(b)
  {
    var s := a + "/" + b;
    assert s[|a|] == '/';
    assert forall j :: |a| < j < |s| ==> s[j] == b[j - |a| - 1];
    LastSlashIs(s, |a| + 1 + LastSlash(b));
  }

  lemma {:induction false} LastSlashIs(p: string, i: int)
    requires SlashAt(p, i) && forall j :: i < j < |p| ==> p[j] != '/'
    ensures LastSlash(p) == i
  {
  }

  /** A string without slashes is one name; the empty string is none. */
  lemma {:induction false} OneName(p: string)
    requires p != "" && '/' !in p
    ensures Components(p) == [p]
  {
    LastName(p);
    hide Components;
    assert LastSlash(p) < 0;
  }

  lemma NoNames()
    ensures Components("") == []
  {
  }
}
