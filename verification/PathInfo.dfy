/** PathInfo_append: joining two paths with one slash, in a buffer of the caller. */
module PathInfo {
  import opened PathNames

  // ---- what is computed ----

  /** `s` without the slashes at its end, of which one is left if there is nothing else. */
  function Trimmed(s: string): (r: string) {
    if |s| > 1 && s[|s| - 1] == '/' then Trimmed(s[..|s| - 1]) else s
  }

  /** `s` without the slashes at its start. */
  function Bare(s: string): (r: string) {
    if s != "" && s[0] == '/' then Bare(s[1..]) else s
  }

  /** `s` with exactly one slash at its end. */
  function Closed(s: string): string
    requires s != ""
  {
    var t := Trimmed(s);
    if t != "" && t[|t| - 1] == '/' then t else t + "/"
  }

  function Join(l: string, r: string): string {
    if l == "" then r else Closed(l) + Bare(r)
  }

  // ---- one slash at the seam ----

  predicate Slashes(s: string) {
    forall i :: 0 <= i < |s| ==> s[i] == '/'
  }

  /** `j` is `l` and `r` with all slashes between them replaced by the one at `k`. */
  predicate SeamAt(l: string, r: string, j: string, k: nat) {
    && k < |j| && j[k] == '/'
    && (0 < k ==> j[k - 1] != '/')
    && (k + 1 < |j| ==> j[k + 1] != '/')
    && j[..k] <= l && Slashes(l[k..])
    && |j| - k - 1 <= |r| && Slashes(r[..|r| - (|j| - k - 1)]) && r[|r| - (|j| - k - 1)..] == j[k + 1..]
  }

  lemma OneMoreSlash(c: string, l: string, m: nat)
    requires |l| == m + 1 && l[m] == '/' && c <= l[..m] && Slashes(l[..m][|c|..])
    ensures c <= l && Slashes(l[|c|..])
  {
  }

  lemma {:induction false} ClosedIs(l: string)
    requires l != ""
    ensures var c := Closed(l); var k := |c| - 1;
      c != "" && c[k] == '/' && (0 < k ==> c[k - 1] != '/') && c[..k] <= l && Slashes(l[k..])
    decreases |l|
  {
    if |l| > 1 && l[|l| - 1] == '/' {
      var m := |l| - 1;
      assert Closed(l) == Closed(l[..m]);
      hide Closed, Trimmed, Slashes;
      ClosedIs(l[..m]);
      var c := Closed(l);
      OneMoreSlash(c[..|c| - 1], l, m);
    } else if l == "/" {
    } else {
      assert Closed(l) == l + "/" && (l + "/")[..|l|] == l && l[|l|..] == "";
    }
  }

  lemma {:induction false} BareIs(r: string)
    ensures |Bare(r)| <= |r| && Slashes(r[..|r| - |Bare(r)|]) && r[|r| - |Bare(r)|..] == Bare(r)
    ensures Bare(r) != "" ==> Bare(r)[0] != '/'
  {
    if r != "" && r[0] == '/' {
      BareIs(r[1..]);
      var n := |r| - |Bare(r)|;
      assert r[..n] == ['/'] + r[1..][..n - 1];
    }
  }

  /** The result is the only string with a single slash at the seam. */
  lemma OneSlashAtTheSeam(l: string, r: string, j: string)
    requires l != ""
    ensures j == Join(l, r) <==> exists k: nat :: SeamAt(l, r, j, k)
  {
    if j == Join(l, r) {
      SeamOfJoin(l, r);
    }
    if k: nat :| SeamAt(l, r, j, k) {
      SeamIsUnique(l, r, j, k);
    }
  }

  /** Without a left side the right one stays as it is, slashes and all. */
  lemma NothingOnTheLeft(r: string)
    ensures Join("", r) == r
  {
  }

  lemma SeamOfJoin(l: string, r: string)
    requires l != ""
    ensures SeamAt(l, r, Join(l, r), |Closed(l)| - 1)
  {
    hide Closed, Bare, Slashes;
    var c, b := Closed(l), Bare(r);
    ClosedIs(l);
    BareIs(r);
    assert (c + b)[..|c| - 1] == c[..|c| - 1];
    assert (c + b)[|c|..] == b;
  }

  /** Two tails of a string that start with no slash, with nothing but slashes in front, are one. */
  lemma SameTail(r: string, s: string, t: string)
    requires |s| <= |r| && r[|r| - |s|..] == s && Slashes(r[..|r| - |s|]) && (s != "" ==> s[0] != '/')
    requires |t| <= |r| && r[|r| - |t|..] == t && Slashes(r[..|r| - |t|]) && (t != "" ==> t[0] != '/')
    ensures s == t
  {
  }

  lemma SameParts(l: string, j: string, c: string, k: nat)
    requires k < |j| && j[k] == '/' && |c| == k + 1 && c[k] == '/' && k <= |l|
    requires j[..k] == l[..k] == c[..k]
    ensures j == c + j[k + 1..]
  {
  }

  lemma SamePlace(l: string, c: string, k: nat, k': nat)
    requires k <= |l| && Slashes(l[k..]) && (0 < k ==> l[k - 1] != '/')
    requires |c| == k' + 1 && c[..k'] <= l && Slashes(l[k'..]) && (0 < k' ==> c[k' - 1] != '/')
    ensures k == k' && c[..k] == l[..k]
  {
  }

  lemma SeamIsUnique(l: string, r: string, j: string, k: nat)
    requires l != "" && SeamAt(l, r, j, k)
    ensures j == Join(l, r)
  {
    ClosedIs(l);
    BareIs(r);
    hide Closed, Bare, Slashes;
    SamePlace(l, Closed(l), k, |Closed(l)| - 1);
    SameTail(r, j[k + 1..], Bare(r));
    SameParts(l, j, Closed(l), k);
  }

  // ---- the path it denotes ----

  lemma {:induction false} NamesBare(s: string)
    ensures Components(Bare(s)) == Components(s)
  {
    if s != "" && s[0] == '/' {
      NamesBare(s[1..]);
      NamesSplit("", s[1..]);
      NoNames();
      assert s == "" + "/" + s[1..];
    }
  }

  lemma {:induction false} NamesTrimmed(s: string)
    ensures Components(Trimmed(s)) == Components(s)
  {
    if |s| > 1 && s[|s| - 1] == '/' {
      NamesTrimmed(s[..|s| - 1]);
      NamesSplit(s[..|s| - 1], "");
      NoNames();
      assert s == s[..|s| - 1] + "/" + "";
    }
  }

  lemma NamesAfterSlash(c: string, b: string)
    requires c != "" && c[|c| - 1] == '/'
    ensures Components(c + b) == Components(c[..|c| - 1]) + Components(b)
  {
    var u := c[..|c| - 1];
    assert c + b == u + "/" + b;
    NamesSplit(u, b);
  }

  lemma {:induction false} NamesClosed(l: string)
    requires l != ""
    ensures Closed(l) != "" && Closed(l)[|Closed(l)| - 1] == '/'
    ensures Components(Closed(l)[..|Closed(l)| - 1]) == Components(l)
  {
    hide Trimmed, Components;
    var t := Trimmed(l);
    NamesTrimmed(l);
    TrimmedKeepsFirst(l);
    if t[|t| - 1] == '/' {
      NamesAfterSlash(t, "");
      assert t + "" == t;
      NoNames();
    } else {
      assert (t + "/")[..|t|] == t;
    }
  }

  /** The result is the path of `r` below that of `l`. */
  lemma {:induction false} JoinGoesBelow(l: string, r: string)
    ensures Components(Join(l, r)) == Components(l) + Components(r)
    ensures l != "" ==> Join(l, r) != "" && (Join(l, r)[0] == '/' <==> l[0] == '/')
  {
    if l != "" {
      hide Components, Closed, Bare;
      NamesClosed(l);
      NamesAfterSlash(Closed(l), Bare(r));
      NamesBare(r);
      ClosedKeepsFirst(l);
    } else {
      assert Components(l) == [];
    }
  }

  lemma {:induction false} TrimmedKeepsFirst(l: string)
    requires l != ""
    ensures Trimmed(l) != "" && Trimmed(l)[0] == l[0]
  {
    if |l| > 1 && l[|l| - 1] == '/' { TrimmedKeepsFirst(l[..|l| - 1]); }
  }

  // ---- associativity ----

  lemma {:induction false} ClosedTail(p: string, s: string)
    requires s != "" && s[0] != '/'
    ensures Closed(p + s) == p + Closed(s)
    decreases |s|
  {
    if |s| > 1 && s[|s| - 1] == '/' {
      ClosedTail(p, s[..|s| - 1]);
      assert (p + s)[..|p + s| - 1] == p + s[..|s| - 1];
    } else {
      assert s[|s| - 1] != '/';
    }
  }

  lemma ClosedTwice(l: string)
    requires l != ""
    ensures Closed(l) != "" && Closed(Closed(l)) == Closed(l)
  {
    ClosedIs(l);
    AlreadyClosed(Closed(l));
  }

  lemma AlreadyClosed(c: string)
    requires c != "" && c[|c| - 1] == '/' && (1 < |c| ==> c[|c| - 2] != '/')
    ensures Closed(c) == c
  {
    assert 1 < |c| ==> Trimmed(c) == c[..|c| - 1];
  }

  /** Slashes at the start do not matter below something. */
  lemma {:induction false} BareOfJoin(b: string, c: string)
    requires b != ""
    ensures Bare(Closed(b) + Bare(c)) == if Bare(b) == "" then Bare(c) else Closed(Bare(b)) + Bare(c)
  {
    BareIs(b);
    if Bare(b) == "" {
      assert b[..|b|] == b;
      OnlySlashes(b);
      BareTwice(c);
      assert ("/" + Bare(c))[1..] == Bare(c);
    } else {
      hide *;
      var p, t := b[..|b| - |Bare(b)|], Closed(Bare(b)) + Bare(c);
      assert b == p + Bare(b);
      ClosedTail(p, Bare(b));
      assert Closed(b) + Bare(c) == p + t;
      ClosedKeepsFirst(Bare(b));
      BareDrops(p, t);
    }
  }

  lemma {:induction false} OnlySlashes(b: string)
    requires b != "" && Slashes(b)
    ensures Closed(b) == "/"
  {
    if |b| > 1 { OnlySlashes(b[..|b| - 1]); }
  }

  lemma {:induction false} BareTwice(s: string)
    ensures Bare(Bare(s)) == Bare(s)
  {
    BareIs(s);
  }

  lemma ClosedKeepsFirst(l: string)
    requires l != ""
    ensures Closed(l) != "" && Closed(l)[0] == l[0]
  {
    TrimmedKeepsFirst(l);
  }

  lemma {:induction false} BareDrops(p: string, s: string)
    requires Slashes(p) && s != "" && s[0] != '/'
    ensures Bare(p + s) == s
  {
    if p == "" {
      assert p + s == s;
    } else {
      BareDrops(p[1..], s);
      assert (p + s)[1..] == p[1..] + s;
    }
  }

  lemma ThreeParts(x: string, y: string, z: string)
    ensures x + y + z == x + (y + z)
  {
  }

  lemma JoinIsAssociative(a: string, b: string, c: string)
    ensures Join(Join(a, b), c) == Join(a, Join(b, c))
  {
    if a != "" {
      ClosedTwice(a);
      BareIs(b);
      var x, y, z := Closed(a), Bare(b), Bare(c);
      if b == "" {
        assert Join(a, b) == x + "" == x;
      } else {
        BareOfJoin(b, c);
        ClosedIs(b);
        hide Closed, Bare;
        if y == "" {
          assert Join(a, b) == x + "" == x;
        } else {
          ClosedTail(x, y);
          ThreeParts(x, Closed(y), z);
        }
      }
    }
  }

  // ---- the program ----

  /** A string and its length; the characters need not end where the string does. */
  class Info {
    var d: array<char>
    var l: nat

    ghost predicate Valid() reads this {
      l <= d.Length
    }

    function Value(): string
      requires Valid()
      reads this, d
    {
      d[..l]
    }

    constructor (d: array<char>, l: nat)
      requires l <= d.Length
      ensures this.d == d && this.l == l
    {
      this.d, this.l := d, l;
    }
  }

  /** Xmemcpy: returns the position behind what was written. */
  method CopyTo(dst: array<char>, at: nat, src: array<char>, from: nat, n: nat) returns (next: nat)
    requires dst != src && from + n <= src.Length && at + n <= dst.Length
    modifies dst
    ensures next == at + n
    ensures dst[..next] == old(dst[..at]) + src[from..from + n]
    ensures forall k :: next <= k < dst.Length ==> dst[k] == old(dst[k])
  {
    var i := 0;
    while i < n
      invariant i <= n
      invariant forall k :: at <= k < at + i ==> dst[k] == src[k - at + from]
      invariant forall k :: 0 <= k < dst.Length && !(at <= k < at + i) ==> dst[k] == old(dst[k])
    {
      dst[at + i] := src[from + i];
      i := i + 1;
    }
    next := at + n;
  }

  /** The trimming loop. */
  method Trim(lhs: Info)
    requires lhs.Valid()
    modifies lhs`l
    ensures lhs.Valid() && lhs.l <= old(lhs.l) && (lhs.l == 0 ==> old(lhs.l) == 0)
    ensures lhs.Value() == Trimmed(old(lhs.Value()))
  {
    while lhs.l > 1 && lhs.d[lhs.l - 1] == '/'
      invariant lhs.l <= old(lhs.l) && (lhs.l == 0 ==> old(lhs.l) == 0)
      invariant Trimmed(lhs.d[..lhs.l]) == Trimmed(old(lhs.Value()))
      decreases lhs.l
    {
      assert lhs.d[..lhs.l][..lhs.l - 1] == lhs.d[..lhs.l - 1];
      lhs.l := lhs.l - 1;
    }
  }

  /** The loop over the right side, which stops at its terminator. */
  method SkipSlashes(rhs: Info) returns (from: nat, length: nat)
    requires rhs.l < rhs.d.Length && rhs.d[rhs.l] == '\0'
    ensures from + length == rhs.l && rhs.d[from..rhs.l] == Bare(rhs.Value())
  {
    from, length := 0, rhs.l;
    while rhs.l > 0 && rhs.d[from] == '/'
      invariant from + length == rhs.l
      invariant Bare(rhs.d[from..rhs.l]) == Bare(rhs.Value())
      decreases length
    {
      assert rhs.d[from..rhs.l][1..] == rhs.d[from + 1..rhs.l];
      from, length := from + 1, length - 1;
    }
  }

  /** PathInfo_append. The buffer is as long as ENSC_PI_APPSZ asks for. */
  method Append(lhs: Info, rhs: Info, buf: array<char>)
    requires lhs.Valid() && rhs.Valid() && lhs != rhs && buf != lhs.d && buf != rhs.d
    requires rhs.l < rhs.d.Length && rhs.d[rhs.l] == '\0'
    requires buf.Length >= lhs.l + 2 + rhs.l
    modifies lhs, buf
    ensures lhs.d == buf && lhs.Valid()
    ensures lhs.Value() == Join(old(lhs.Value()), old(rhs.Value()))
    ensures lhs.l < buf.Length && buf[lhs.l] == '\0'
    ensures forall k :: lhs.l < k < buf.Length ==> buf[k] == old(buf[k])
  {
    ghost var l, r := lhs.Value(), rhs.Value();
    var at := Left(lhs, buf);
    var from, length := 0, rhs.l;
    if lhs.l > 0 {
      from, length := SkipSlashes(rhs);
    }
    ghost var left := buf[..at];
    assert left + rhs.d[from..from + length] == Join(l, r);
    hide *;
    var end := CopyTo(buf, at, rhs.d, from, length + 1);
    lhs.d, lhs.l := buf, end - 1;
    assert buf[..end] == left + rhs.d[from..from + length] + ['\0'];
    assert buf[..end - 1] == buf[..end][..end - 1];
  }

  /** The left side with its slash. */
  method Left(lhs: Info, buf: array<char>) returns (at: nat)
    requires lhs.Valid() && buf != lhs.d && lhs.l + 1 < buf.Length
    modifies lhs`l, buf
    ensures lhs.Valid() && (lhs.l == 0 <==> old(lhs.l) == 0)
    ensures at <= old(lhs.l) + 1 && forall k :: at <= k < buf.Length ==> buf[k] == old(buf[k])
    ensures buf[..at] == if old(lhs.l) == 0 then "" else Closed(old(lhs.Value()))
  {
    at := 0;
    ghost var l := lhs.Value();
    Trim(lhs);
    if lhs.l > 0 {
      at := CopyTo(buf, 0, lhs.d, 0, lhs.l);
      assert buf[..at] == Trimmed(l);
      if buf[at - 1] != '/' {
        buf[at] := '/';
        at := at + 1;
      }
    }
  }

  /** What the checks of the original expect. */
  lemma Examples()
    ensures Join("/var", "/tmp") == Join("/var", "tmp") == "/var/tmp"
    ensures Join("/var/", "/tmp") == Join("/var/", "tmp") == "/var/tmp"
    ensures Join("/", "/tmp") == Join("/", "tmp") == "/tmp"
    ensures Join("", "/tmp") == "/tmp" && Join("", "tmp") == "tmp" && Join("", "") == ""
  {
  }
}
