/** copyMem and copyMMap: copying a file through memory mappings while leaving
    zeroes unwritten, so that holes in the output stay holes. */
module SparseCopy {
  import opened FileSystem

  const WORD := 4                         // sizeof(int)
  const MMAP_BLOCKSIZE := 16 * 1024 * 1024

  function Zeros(n: nat): (s: seq<Byte>)
    ensures |s| == n && forall k :: 0 <= k < n ==> s[k] == 0
  {
    seq(n, _ => 0)
  }

  /** Byte `k` of a block is never written: it lies in a word of four zeroes or, in
      the rest behind the last whole word, is itself zero. */
  predicate Skipped(src: seq<Byte>, k: nat)
    requires k < |src|
  {
    if k < |src| / WORD * WORD then
      var w := k / WORD * WORD;
      src[w] == 0 && src[w + 1] == 0 && src[w + 2] == 0 && src[w + 3] == 0
    else src[k] == 0
  }

  /** What copyMem leaves in a block that held `old`. */
  function Overlay(old_: seq<Byte>, src: seq<Byte>): (r: seq<Byte>)
    requires |old_| == |src|
    ensures |r| == |src|
  {
    seq(|src|, k requires 0 <= k < |src| => if Skipped(src, k) then old_[k] else src[k])
  }

  /** The copy is faithful exactly when every byte that is not written was zero
      before; in particular on a block that starts as all zeroes. */
  lemma OverlayIsCopy(old_: seq<Byte>, src: seq<Byte>)
    requires |old_| == |src|
    ensures Overlay(old_, src) == src <==> forall k :: 0 <= k < |src| && Skipped(src, k) ==> old_[k] == 0
    ensures Overlay(Zeros(|src|), src) == src
  {
    forall k | 0 <= k < |src| && Skipped(src, k) ensures src[k] == 0 {
      var w := k / WORD * WORD;
      assert k == w || k == w + 1 || k == w + 2 || k == w + 3;
    }
    if Overlay(old_, src) == src {
      forall k | 0 <= k < |src| && Skipped(src, k) ensures old_[k] == 0 {
        assert Overlay(old_, src)[k] == old_[k];
      }
    }
  }

  /** Holes stay holes: an aligned word of four zeroes is not written, nor is a zero behind the words. */
  lemma HolesStay(old_: seq<Byte>, src: seq<Byte>, k: nat)
    requires |old_| == |src| && k < |src|
    ensures 4 * k + 4 <= |src| && src[4 * k..4 * k + 4] == [0, 0, 0, 0] ==>
      Overlay(old_, src)[4 * k..4 * k + 4] == old_[4 * k..4 * k + 4]
    ensures k >= |src| / 4 * 4 && src[k] == 0 ==> Overlay(old_, src)[k] == old_[k]
  {
    if 4 * k + 4 <= |src| && src[4 * k..4 * k + 4] == [0, 0, 0, 0] {
      var word := src[4 * k..4 * k + 4];
      assert word[0] == 0 && word[1] == 0 && word[2] == 0 && word[3] == 0;
      forall i | 4 * k <= i < 4 * k + 4 ensures Skipped(src, i) {
        assert i / WORD == k;
      }
    }
  }

  lemma OverlayRest(old_: seq<Byte>, src: seq<Byte>, k: nat)
    requires |old_| == |src| && |src| / WORD * WORD <= k < |src|
    ensures Overlay(old_, src)[k] == if src[k] == 0 then old_[k] else src[k]
  {
  }

  /** The two loops of copyMem on the block of `size` bytes at `at`; `dst` and `src` are
      the two files. */
  method CopyMem(dst: array<Byte>, src: array<Byte>, at: nat, size: nat)
    requires dst != src && at + size <= dst.Length && at + size <= src.Length
    modifies dst
    ensures dst[at..at + size] == Overlay(old(dst[at..at + size]), src[at..at + size])
    ensures forall j :: 0 <= j < dst.Length && !(at <= j < at + size) ==> dst[j] == old(dst[j])
  {
    ghost var goal := Overlay(dst[at..at + size], src[at..at + size]);
    var words := size / WORD * WORD;
    CopyWords(dst, src, at, size, goal);
    hide Skipped, Overlay;
    var i := at + words;
    while i < at + size
      invariant at + words <= i <= at + size
      invariant forall j :: at <= j < i ==> dst[j] == goal[j - at]
      invariant forall j :: 0 <= j < dst.Length && !(at <= j < i) ==> dst[j] == old(dst[j])
    {
      OverlayRest(old(dst[at..at + size]), src[at..at + size], i - at);
      if src[i] != 0 { dst[i] := src[i]; }
      i := i + 1;
    }
    assert dst[at..at + size] == goal;
  }

  method CopyWords(dst: array<Byte>, src: array<Byte>, at: nat, size: nat, ghost goal: seq<Byte>)
    requires dst != src && at + size <= dst.Length && at + size <= src.Length
    requires goal == Overlay(dst[at..at + size], src[at..at + size])
    modifies dst
    ensures forall j :: at <= j < at + size / WORD * WORD ==> dst[j] == goal[j - at]
    ensures forall j :: 0 <= j < dst.Length && !(at <= j < at + size / WORD * WORD) ==> dst[j] == old(dst[j])
  {
    var i := 0;
    while i < size / WORD
      invariant 0 <= i <= size / WORD
      invariant forall j :: at <= j < at + WORD * i ==> dst[j] == goal[j - at]
      invariant forall j :: 0 <= j < dst.Length && !(at <= j < at + WORD * i) ==> dst[j] == old(dst[j])
    {
      var p := at + WORD * i;
      WordBytes(src[at..at + size], i);
      if src[p] != 0 || src[p + 1] != 0 || src[p + 2] != 0 || src[p + 3] != 0 {
        forall j | p <= j < p + WORD { dst[j] := src[j]; }
      }
      assert forall j {:trigger dst[j]} | p <= j < p + WORD :: dst[j] == goal[j - at];
      i := i + 1;
    }
  }

  lemma WordBytes(block: seq<Byte>, i: nat)
    requires WORD * i + WORD <= |block|
    ensures forall k :: WORD * i <= k < WORD * i + WORD ==>
      (Skipped(block, k) <==>
        block[WORD * i] == 0 && block[WORD * i + 1] == 0 && block[WORD * i + 2] == 0 && block[WORD * i + 3] == 0)
  {
  }

  /** The output is created sparse, as `in_len` zeroes, and filled block by block;
      mapping the block number `fail` fails. */
  method CopyMMap(src: array<Byte>, fail: nat) returns (dst: array<Byte>, ok: bool)
    ensures dst.Length == src.Length && fresh(dst)
    ensures ok ==> dst[..] == src[..]
    ensures ok <==> src.Length <= fail * MMAP_BLOCKSIZE
    ensures !ok ==> dst[..] == src[..fail * MMAP_BLOCKSIZE] + Zeros(src.Length - fail * MMAP_BLOCKSIZE)
  {
    dst := new Byte[src.Length](_ => 0);
    var offset := 0;
    ghost var blocks := 0;
    while offset < src.Length
      invariant offset == if blocks * MMAP_BLOCKSIZE < src.Length then blocks * MMAP_BLOCKSIZE else src.Length
      invariant blocks <= fail
      invariant dst[..] == src[..offset] + Zeros(src.Length - offset)
      decreases src.Length - offset
    {
      var size := src.Length - offset;
      if size > MMAP_BLOCKSIZE { size := MMAP_BLOCKSIZE; }
      if offset == fail * MMAP_BLOCKSIZE { return dst, false; }
      CopyBlock(dst, src, offset, size);
      offset := offset + size;
      blocks := blocks + 1;
    }
    return dst, true;
  }

  /** One block: the output agrees with the input one block further. */
  method CopyBlock(dst: array<Byte>, src: array<Byte>, offset: nat, size: nat)
    requires dst != src && dst.Length == src.Length && offset + size <= src.Length
    requires dst[..] == src[..offset] + Zeros(src.Length - offset)
    modifies dst
    ensures dst[..] == src[..offset + size] + Zeros(src.Length - offset - size)
  {
    assert dst[offset..offset + size] == Zeros(size);
    CopyMem(dst, src, offset, size);
    OverlayIsCopy(Zeros(size), src[offset..offset + size]);
    assert forall j :: offset <= j < offset + size ==> dst[j] == dst[offset..offset + size][j - offset];
  }
}
