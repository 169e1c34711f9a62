/** The names of the store: convertDigest and the collision counter of resolveCollisions. */
module HashName {
  import opened FileSystem
  import opened Format
  import HashStore

  const HASH_MAXBITS := 256
  const COUNTER := 2 * 4                    // sizeof(unsigned int)*2 hex digits
  const HASHPATH_SIZE := HASH_MAXBITS / 4 + HASH_MAXBITS / 4 / 2 + COUNTER + 3
  const PATH_LIMIT := HASHPATH_SIZE - (COUNTER + 2)
  const MAX_BYTES := 47                     // the digest bytes that fit below PATH_LIMIT

  // ---- the digest ----

  function HexByte(b: Byte): (s: string)
    ensures |s| == 2
  {
    [Digit(b / 16), Digit(b % 16)]
  }

  lemma HexByteInjective(a: Byte, b: Byte)
    requires HexByte(a) == HexByte(b)
    ensures a == b
  {
    assert HexByte(a)[0] == HexByte(b)[0] && HexByte(a)[1] == HexByte(b)[1];
    DigitsRead(a / 16);
    DigitsRead(b / 16);
    DigitsRead(a % 16);
    DigitsRead(b % 16);
  }

  /** The two digits stand for the byte. */
  lemma HexByteReads(b: Byte)
    ensures IsNumeral(HexByte(b), 16) && ValueOf(HexByte(b), 16) == b
  {
    var s := HexByte(b);
    DigitsRead(b / 16);
    DigitsRead(b % 16);
    assert s[..1][..0] == "" && s[..1] == [s[0]];
    assert ValueOf(s[..1], 16) == b / 16;
  }

  /** A slash goes in front of byte `i`, as the source computes it. */
  predicate SlashBefore(i: nat) {
    (i + 254) % (if i <= 2 then 1 else 256) == 0 && i > 0
  }

  /** What is written after `n` bytes. */
  function PathOf(d: seq<Byte>, n: nat): (s: string)
    requires n <= |d|
  {
    if n == 0 then "" else PathOf(d, n - 1) + (if SlashBefore(n - 1) then "/" else "") + HexByte(d[n - 1])
  }

  lemma SlashPlaces(i: nat)
    requires i < 258
    ensures SlashBefore(i) <==> i == 1 || i == 2
  {
  }

  /** Within the limit the slashes are those that group the first three bytes. */
  lemma {:induction false} PathLength(d: seq<Byte>, n: nat)
    requires n <= |d| && n <= 258
    ensures |PathOf(d, n)| == 2 * n + (if n >= 3 then 2 else if n == 2 then 1 else 0)
  {
    if n > 0 {
      PathLength(d, n - 1);
      SlashPlaces(n - 1);
      hide SlashBefore, HexByte;
    }
  }

  /** Where byte `i` stands in the path: ab/cd/efgh... */
  function PlaceOf(i: nat): nat {
    if i == 0 then 0 else if i == 1 then 3 else 2 * i + 2
  }

  /** The two digits that stand for a byte, in their place. */
  ghost predicate ByteAt(path: string, b: Byte, at: nat) {
    at + 2 <= |path| && IsNumeral(path[at..at + 2], 16) && ValueOf(path[at..at + 2], 16) == b
  }

  /** Each of the first `n` bytes is in its place, with a slash before the second and the third. */
  ghost predicate ReadsAs(path: string, d: seq<Byte>, n: nat)
    requires n <= |d|
  {
    && |path| == (if n == 0 then 0 else PlaceOf(n - 1) + 2)
    && (forall i :: 0 <= i < n ==> ByteAt(path, d[i], PlaceOf(i)))
    && (n > 1 ==> path[2] == '/') && (n > 2 ==> path[5] == '/')
  }

  lemma {:induction false} PathReads(d: seq<Byte>, n: nat)
    requires n <= |d| && n <= 258
    ensures ReadsAs(PathOf(d, n), d, n)
  {
    if n > 0 {
      var m := n - 1;
      PathReads(d, m);
      PathLength(d, m);
      PathStep(d, m);
      SlashPlaces(m);
      HexByteReads(d[m]);
      hide PathOf, HexByte, SlashBefore, ReadsAs;
      PathGrows(d, m, PathOf(d, m), if m == 1 || m == 2 then "/" else "", HexByte(d[m]));
    }
  }

  lemma {:induction false} PathGrows(d: seq<Byte>, m: nat, before: string, slash: string, hex: string)
    requires m < |d| && ReadsAs(before, d, m) && slash == if m == 1 || m == 2 then "/" else ""
    requires |hex| == 2 && IsNumeral(hex, 16) && ValueOf(hex, 16) == d[m]
    ensures ReadsAs(before + slash + hex, d, m + 1)
  {
    ByteLast(before + slash, hex, d[m]);
    hide ByteAt;
    forall i | 0 <= i < m ensures ByteAt(before + slash + hex, d[i], PlaceOf(i)) {
      ByteStays(before, slash, d[i], PlaceOf(i));
      ByteStays(before + slash, hex, d[i], PlaceOf(i));
    }
  }

  lemma {:induction false} ByteStays(path: string, more: string, b: Byte, at: nat)
    requires ByteAt(path, b, at)
    ensures ByteAt(path + more, b, at)
  {
    hide ValueOf, IsNumeral;
    assert (path + more)[at..at + 2] == path[at..at + 2];
  }

  lemma {:induction false} ByteLast(path: string, hex: string, b: Byte)
    requires |hex| == 2 && IsNumeral(hex, 16) && ValueOf(hex, 16) == b
    ensures ByteAt(path + hex, b, |path|)
  {
    hide ValueOf, IsNumeral;
    assert (path + hex)[|path|..|path| + 2] == hex;
  }

  function UsedBytes(d: seq<Byte>): (n: nat)
    ensures n <= |d|
  {
    if |d| < MAX_BYTES then |d| else MAX_BYTES
  }

  function DigestPath(d: seq<Byte>): string {
    PathOf(d, UsedBytes(d))
  }

  method PutByte(path: array<char>, out: nat, i: nat, b: Byte) returns (next: nat)
    requires out + (if SlashBefore(i) then 3 else 2) <= path.Length
    modifies path
    ensures next == out + (if SlashBefore(i) then 3 else 2)
    ensures path[..next] == old(path[..out]) + (if SlashBefore(i) then "/" else "") + HexByte(b)
    ensures forall k :: next <= k < path.Length ==> path[k] == old(path[k])
  {
    hide SlashBefore, HexByte;
    next := out;
    if SlashBefore(i) { path[next] := '/'; next := next + 1; }
    var hex := HexByte(b);
    path[next], path[next + 1] := hex[0], hex[1];
    next := next + 2;
  }

  /** convertDigest writes the path and its terminator, and nothing beyond PATH_LIMIT. */
  method ConvertDigest(digest: seq<Byte>, path: array<char>) returns (n: nat)
    requires path.Length == HASHPATH_SIZE
    modifies path
    ensures n < PATH_LIMIT && path[..n] == DigestPath(digest) && path[n] == '\0'
    ensures ReadsAs(path[..n], digest, if |digest| < 47 then |digest| else 47)
    ensures path[PATH_LIMIT..] == old(path[PATH_LIMIT..])
  {
    hide PathOf, HexByte, SlashBefore, ReadsAs;
    PathReads(digest, UsedBytes(digest));
    var out, i := 0, 0;
    PathStart(digest);
    while out + 1 < PATH_LIMIT && i < |digest|
      invariant 0 <= i <= UsedBytes(digest) && out == |PathOf(digest, i)| && out < PATH_LIMIT
      invariant path[..out] == PathOf(digest, i)
      invariant forall k :: PATH_LIMIT <= k < path.Length ==> path[k] == old(path[k])
      decreases |digest| - i
    {
      PathLength(digest, i);
      PathLength(digest, i + 1);
      PathStep(digest, i);
      out := PutByte(path, out, i, digest[i]);
      i := i + 1;
    }
    PathLength(digest, i);
    path[out] := '\0';
    n := out;
  }

  lemma {:induction false} PathStart(d: seq<Byte>)
    ensures PathOf(d, 0) == ""
  {
  }

  lemma PathStep(d: seq<Byte>, i: nat)
    requires i < |d|
    ensures PathOf(d, i + 1) ==
      PathOf(d, i) + (if SlashBefore(i) then "/" else "") + HexByte(d[i])
  {
  }

  /** Digests of one size share a path exactly when they agree on the bytes that are used; so
      the path tells them apart exactly up to 47 bytes. */
  lemma {:induction false} PathTellsApart(d: seq<Byte>, e: seq<Byte>, n: nat)
    requires |d| == |e| && n <= |d| && n <= 258
    ensures PathOf(d, n) == PathOf(e, n) <==> d[..n] == e[..n]
  {
    if n > 0 {
      hide HexByte, PathOf, SlashBefore;
      var m := n - 1;
      PathTellsApart(d, e, m);
      PathLength(d, m);
      PathLength(e, m);
      PathStep(d, m);
      PathStep(e, m);
      var slash := if SlashBefore(m) then "/" else "";
      SameJoin(PathOf(d, m), PathOf(e, m), slash, HexByte(d[m]), HexByte(e[m]));
      SamePrefix(d, e, m);
      if HexByte(d[m]) == HexByte(e[m]) { HexByteInjective(d[m], e[m]); }
    }
  }

  lemma SameJoin(a: string, b: string, mid: string, x: string, y: string)
    requires |a| == |b| && |x| == |y|
    ensures a + mid + x == b + mid + y <==> a == b && x == y
  {
    var s, t := a + mid + x, b + mid + y;
    assert s[..|a|] == a && t[..|b|] == b && s[|a + mid|..] == x && t[|b + mid|..] == y;
  }

  lemma SamePrefix(d: seq<Byte>, e: seq<Byte>, m: nat)
    requires m < |d| && m < |e|
    ensures d[..m + 1] == e[..m + 1] <==> d[..m] == e[..m] && d[m] == e[m]
  {
  }

  lemma DigestPathInjective(size: nat)
    ensures size <= 47 <==>
      forall d: seq<Byte>, e: seq<Byte> :: |d| == |e| == size && DigestPath(d) == DigestPath(e) ==> d == e
  {
    if size <= MAX_BYTES {
      forall d: seq<Byte>, e: seq<Byte> | |d| == |e| == size && DigestPath(d) == DigestPath(e) ensures d == e {
        PathTellsApart(d, e, size);
        assert d[..size] == d && e[..size] == e;
      }
    } else {
      var d: seq<Byte>, e: seq<Byte> := seq(size, _ => 0), seq(size, i => if i < MAX_BYTES then 0 else 1);
      PathTellsApart(d, e, MAX_BYTES);
      assert d[..MAX_BYTES] == e[..MAX_BYTES];
      assert d[MAX_BYTES] != e[MAX_BYTES];
      assert DigestPath(d) == DigestPath(e);
    }
  }

  /** initHashMethod refuses a hash function with more bits than HASH_MAXBITS.  No digest of one that it
      accepts is cut: all of its bytes are in the path. */
  lemma {:induction false} AcceptedIsWhole(d: seq<Byte>, e: seq<Byte>)
    requires |d| == |e| && |d| * 8 <= 256
    ensures DigestPath(d) == PathOf(d, |d|) && (DigestPath(d) == DigestPath(e) <==> d == e)
  {
    PathTellsApart(d, e, |d|);
    assert d[..|d|] == d && e[..|e|] == e;
  }

  // ---- the collision counter ----

  function Counter(idx: nat): (s: string)
    requires idx < HashStore.MAX_INDEX
    ensures |s| == 1 + COUNTER && s[0] == '-'
  {
    CounterFits(idx);
    "-" + Padded(idx, 16, COUNTER)
  }

  lemma {:induction false} CounterFits(idx: nat)
    requires idx < HashStore.MAX_INDEX
    ensures idx < Pow(16, COUNTER) && |Numeral(idx, 16)| <= COUNTER
  {
    assert Pow(16, 2) == 16 * Pow(16, 1) && Pow(16, 1) == 16 * Pow(16, 0);
    assert Pow(16, 4) == 16 * Pow(16, 3) && Pow(16, 3) == 16 * Pow(16, 2);
    assert Pow(16, 6) == 16 * Pow(16, 5) && Pow(16, 5) == 16 * Pow(16, 4);
    assert Pow(16, 8) == 16 * Pow(16, 7) && Pow(16, 7) == 16 * Pow(16, 6);
    NumeralLength(idx, 16, COUNTER);
  }

  /** The counter is a dash and eight digits, which stand for the index. */
  lemma CounterReads(idx: nat)
    requires idx < 0x1_0000_0000
    ensures |Counter(idx)| == 9 && Counter(idx)[0] == '-'
    ensures IsNumeral(Counter(idx)[1..], 16) && ValueOf(Counter(idx)[1..], 16) == idx
  {
    hide Numeral, ValueOf;
    CounterFits(idx);
    PaddedReads(idx, 16, COUNTER);
    assert Counter(idx)[1..] == Padded(idx, 16, COUNTER);
  }

  lemma CounterInjective(i: nat, j: nat)
    requires i < HashStore.MAX_INDEX && j < HashStore.MAX_INDEX && Counter(i) == Counter(j)
    ensures i == j
  {
    hide Counter, ValueOf;
    CounterReads(i);
    CounterReads(j);
  }

  /** memset and memcpy: `digits` at the right of `width` zeroes. */
  method WritePadded(result: array<char>, at: nat, width: nat, digits: string)
    requires |digits| <= width && at + width <= result.Length
    modifies result
    ensures result[at..at + width] == ZeroDigits(width - |digits|) + digits
    ensures forall k :: 0 <= k < result.Length && !(at <= k < at + width) ==> result[k] == old(result[k])
  {
    var mid := at + width - |digits|;
    forall k | at <= k < mid { result[k] := '0'; }
    forall k | mid <= k < at + width { result[k] := digits[k - mid]; }
  }

  /** The loop body of resolveCollisions: the counter and the terminator at `ptr`. */
  method WriteCounter(result: array<char>, ptr: nat, idx: nat)
    requires idx < HashStore.MAX_INDEX && ptr + COUNTER + 2 <= result.Length
    modifies result
    ensures result[ptr..ptr + 1 + COUNTER] == Counter(idx) && result[ptr + 1 + COUNTER] == '\0'
    ensures result[ptr] == '-' && ValueOf(result[ptr + 1..ptr + 9], 16) == idx
    ensures forall k :: 0 <= k < result.Length && !(ptr <= k < ptr + COUNTER + 2) ==> result[k] == old(result[k])
  {
    hide Numeral, Pow, ZeroDigits;
    CounterFits(idx);
    CounterReads(idx);
    var buf := new char[COUNTER + 1];
    var len := Write(buf, 0, idx, 16, COUNTER);
    assert buf[..len] == Numeral(idx, 16);
    result[ptr] := '-';
    result[ptr + COUNTER + 1] := '\0';
    WritePadded(result, ptr + 1, COUNTER, buf[..len]);
    assert result[ptr..ptr + 1 + COUNTER] == [result[ptr]] + result[ptr + 1..ptr + 1 + COUNTER];
    assert result[ptr + 1..ptr + 9] == Counter(idx)[1..];
  }

  // ---- whole names ----

  function StoreName(root: string, d: seq<Byte>, idx: nat): string
    requires idx < HashStore.MAX_INDEX
  {
    root + DigestPath(d) + Counter(idx)
  }

  /** The caller's buffer of `hash_dirs_max_size + sizeof(HashPath) + 2` bytes is large enough. */
  lemma StoreNameFits(root: string, maxRoot: nat, d: seq<Byte>, idx: nat)
    requires |root| <= maxRoot && idx < HashStore.MAX_INDEX
    ensures |StoreName(root, d, idx)| + 1 <= maxRoot + HASHPATH_SIZE + 2
  {
    PathLength(d, UsedBytes(d));
  }

  /** Digest and counter can be read off a name. */
  lemma StoreNameInjective(root: string, d: seq<Byte>, i: nat, e: seq<Byte>, j: nat)
    requires |d| == |e| <= MAX_BYTES && i < HashStore.MAX_INDEX && j < HashStore.MAX_INDEX
    requires StoreName(root, d, i) == StoreName(root, e, j)
    ensures d == e && i == j
  {
    hide PathOf, Counter;
    PathLength(d, |d|);
    PathLength(e, |e|);
    var s, t, n := StoreName(root, d, i), StoreName(root, e, j), |root| + |DigestPath(d)|;
    assert s[|root|..n] == DigestPath(d) && t[|root|..n] == DigestPath(e);
    assert s[n..] == Counter(i) && t[n..] == Counter(j);
    PathTellsApart(d, e, |d|);
    assert d[..|d|] == d && e[..|e|] == e;
    CounterInjective(i, j);
  }

  /** A temporary name lies in the store only if the file itself does. */
  lemma TempNameOutside(root: string, p: string, suffix: string)
    requires root != "" && root[|root| - 1] == '/' && '/' !in suffix && !(root <= p)
    ensures !(root <= HashStore.TempName(p, suffix))
  {
  }

  /** With these names the hash store has what the runs of vhashify rely on. */
  lemma StoreNamesAreGood(root: string, cfg: HashStore.Config)
    requires root != "" && root[|root| - 1] == '/' && cfg.digestSize <= MAX_BYTES
    requires forall k, c :: |cfg.hash(k, c)| == cfg.digestSize
    requires forall d, i :: cfg.IsSlot(d, i) ==> cfg.name(d, i) == StoreName(root, d, i)
    requires forall p :: cfg.inStore(p) <==> root <= p
    ensures cfg.Valid()
  {
    hide StoreName;
    forall d, i | cfg.IsSlot(d, i) ensures cfg.inStore(cfg.name(d, i)) {
      UnderRoot(root, d, i);
    }
    forall d, i, e, j | cfg.IsSlot(d, i) && cfg.IsSlot(e, j) && cfg.name(d, i) == cfg.name(e, j)
      ensures d == e && i == j
    {
      StoreNameInjective(root, d, i, e, j);
    }
    forall p, suffix | '/' !in suffix && !cfg.inStore(p) ensures !cfg.inStore(HashStore.TempName(p, suffix)) {
      TempNameOutside(root, p, suffix);
    }
  }

  lemma UnderRoot(root: string, d: seq<Byte>, i: nat)
    requires i < HashStore.MAX_INDEX
    ensures root <= StoreName(root, d, i)
  {
  }
}
