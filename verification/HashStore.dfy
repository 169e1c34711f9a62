/** The content-addressed store of vhashify and what its runs rely on: how files are keyed,
    which references a file is accepted against, and the two invariants of a run. */
module HashStore {
  import opened FileSystem
  import opened Unify
  import opened UnifyCopy
  import SparseCopy

  const HASH_MINSIZE := 0x10
  const MAX_INDEX := 0x1_0000_0000  // one more than the largest unsigned int

  type Digest = seq<Byte>

  /** The part of struct stat that is hashed in front of the content.  Regular files, the only
      ones that are hashed, have no device number. */
  datatype Key = Key(kind: Kind, perm: nat, uid: nat, gid: nat, size: nat, mtime: int)

  function KeyOf(node: Inode, ignoreMtime: bool): Key {
    Key(node.kind, node.perm, node.uid, node.gid, |node.content|, if ignoreMtime then 0 else node.mtime)
  }

  /** `hash` is the digest function, `name` the store's name for a digest and a collision
      index, `inStore` tells store names from all others. */
  datatype Config = Config(hash: (Key, seq<Byte>) -> Digest, digestSize: nat,
                           name: (Digest, nat) -> Path, inStore: Path -> bool,
                           ignoreMtime: bool, refresh: bool, dryRun: bool, running: bool, who: Creator)
  {
    function DigestOf(node: Inode): Digest {
      hash(KeyOf(node, ignoreMtime), node.content)
    }

    ghost predicate IsSlot(d: Digest, i: nat) {
      |d| == digestSize && i < MAX_INDEX
    }

    ghost predicate Valid() {
      && (forall k, c :: |hash(k, c)| == digestSize)
      && (forall d, i :: IsSlot(d, i) ==> inStore(name(d, i)))
      && (forall d, i, e, j :: IsSlot(d, i) && IsSlot(e, j) && name(d, i) == name(e, j) ==> d == e && i == j)
      && (forall p, suffix :: '/' !in suffix && !inStore(p) ==> !inStore(TempName(p, suffix)))
    }
  }

  function TempName(p: Path, suffix: string): Path {
    p + ";" + suffix
  }

  // ---- files that the run may meet, and their digests ----

  type Universe = set<(Key, seq<Byte>)>

  /** No two different files that the run may meet have the same digest. */
  ghost predicate CollisionFree(cfg: Config, u: Universe) {
    && (forall x :: x in u ==> x.0.size == |x.1|)
    && (forall x, y :: x in u && y in u && cfg.hash(x.0, x.1) == cfg.hash(y.0, y.1) ==> x == y)
  }

  ghost predicate Known(cfg: Config, u: Universe, node: Inode) {
    (KeyOf(node, cfg.ignoreMtime), node.content) in u
  }

  /** Files outside the store are known, or too small to be looked at. */
  ghost predicate GuestsKnown(cfg: Config, u: Universe, fs: Fs)
    requires fs.Valid()
  {
    forall p :: p in fs.names && !cfg.inStore(p) ==> Known(cfg, u, fs.At(p)) || |fs.At(p).content| < HASH_MINSIZE
  }

  // ---- references ----

  /** Unify_isUnifyable, but for the device and inode numbers. */
  predicate Accepts(k: Key, ref: Inode, ignoreMtime: bool) {
    && k.kind == ref.kind && k.perm == ref.perm && k.uid == ref.uid && k.gid == ref.gid
    && k.size == |ref.content| && (ignoreMtime || k.mtime == ref.mtime)
  }

  /** The content, mode, owner and size that a path reads, and its time unless ignored. */
  predicate SameView(a: Inode, b: Inode, ignoreMtime: bool) {
    && a.content == b.content && a.kind == b.kind && a.perm == b.perm && a.uid == b.uid && a.gid == b.gid
    && (ignoreMtime || a.mtime == b.mtime)
  }

  /** A reference is sound when every file that would be linked to it has its content. */
  ghost predicate SoundRef(cfg: Config, u: Universe, d: Digest, ref: Inode) {
    forall x :: x in u && cfg.hash(x.0, x.1) == d && Accepts(x.0, ref, cfg.ignoreMtime) ==> x.1 == ref.content
  }

  ghost predicate SoundStore(cfg: Config, u: Universe, fs: Fs)
    requires fs.Valid()
  {
    forall d, i :: cfg.IsSlot(d, i) && cfg.name(d, i) in fs.names ==> SoundRef(cfg, u, d, fs.At(cfg.name(d, i)))
  }

  /** A store is sound if every file in it is empty or carries its own digest in its name. */
  lemma HonestStoreIsSound(cfg: Config, u: Universe, fs: Fs)
    requires fs.Valid() && CollisionFree(cfg, u)
    requires forall d, i :: cfg.IsSlot(d, i) && cfg.name(d, i) in fs.names ==>
      var ref := fs.At(cfg.name(d, i));
      ref.content == [] || (cfg.DigestOf(ref) == d && Known(cfg, u, ref))
    ensures SoundStore(cfg, u, fs)
  {
  }

  /** The copy that Unify_copy leaves behind, complete or not, is a sound reference for the
      source's digest unless the source itself is accepted against it although it was cut
      short: the source has mode 0200 and belongs to the program's own user (and, unless times
      are ignored, has the time of the copy). */
  predicate Poisonous(cfg: Config, k: Key, content: seq<Byte>, f: CopyFaults) {
    && !f.verify && !f.truncate && !AllMapped(|content|, f) && CopiedContent(content, f) != content
    && k.perm == NEW_PERM && k.uid == cfg.who.uid && k.gid == cfg.who.gid
    && (cfg.ignoreMtime || k.mtime == cfg.who.now)
  }

  lemma CopySoundUnlessPoisonous(cfg: Config, u: Universe, st: Inode, f: CopyFaults)
    requires CollisionFree(cfg, u) && Known(cfg, u, st) && st.kind == Regular && st.content != []
    ensures SoundRef(cfg, u, cfg.DigestOf(st), CopiedInode(st, cfg.who, f)) <==>
      !Poisonous(cfg, KeyOf(st, cfg.ignoreMtime), st.content, f)
  {
  }

  /** Such a copy: no block of the file could be mapped, and the marker of zeroes that is left has
      the owner, mode, size and time of the file, but not its content. */
  lemma CutCopyIsTaken(cfg: Config)
    ensures var st := Inode(Regular, 0x80, cfg.who.uid, cfg.who.gid, cfg.who.now, seq(16, _ => 1), false);
      var f := CopyFaults(false, false, false, false, 0, false, false, false, false);
      var left := CopiedInode(st, cfg.who, f);
      && Poisonous(cfg, KeyOf(st, cfg.ignoreMtime), st.content, f)
      && Accepts(KeyOf(st, cfg.ignoreMtime), left, cfg.ignoreMtime) && left.content != st.content
  {
    assert (seq(16, _ => 1))[0] != SparseCopy.Zeros(16)[0];
  }

  // ---- where a file has its reference ----

  /** `p` and the store's name for its digest at index `k` are one inode, and all smaller
      indices are taken by files that `p` is not accepted against. */
  ghost predicate AtSlot(cfg: Config, fs: Fs, p: Path, k: nat)
    requires fs.Valid() && p in fs.names
  {
    var d := cfg.DigestOf(fs.At(p));
    && k < MAX_INDEX
    && cfg.name(d, k) in fs.names && fs.names[cfg.name(d, k)] == fs.names[p]
    && forall j :: 0 <= j < k ==> Taken(cfg, fs, fs.At(p), d, j)
  }

  ghost predicate Taken(cfg: Config, fs: Fs, st: Inode, d: Digest, j: nat)
    requires fs.Valid()
  {
    && cfg.name(d, j) in fs.names
    && !Accepts(KeyOf(st, cfg.ignoreMtime), fs.At(cfg.name(d, j)), cfg.ignoreMtime)
  }

  ghost predicate Placed(cfg: Config, fs: Fs, p: Path)
    requires fs.Valid()
  {
    p in fs.names && exists k :: AtSlot(cfg, fs, p, k)
  }

  /** Two placed files with the same hashed key and content are the same inode. */
  lemma PlacedFilesAreShared(cfg: Config, fs: Fs, p: Path, q: Path)
    requires fs.Valid() && Placed(cfg, fs, p) && Placed(cfg, fs, q)
    requires KeyOf(fs.At(p), cfg.ignoreMtime) == KeyOf(fs.At(q), cfg.ignoreMtime)
    requires fs.At(p).content == fs.At(q).content
    ensures fs.names[p] == fs.names[q]
  {
    var k: nat :| AtSlot(cfg, fs, p, k);
    var l: nat :| AtSlot(cfg, fs, q, l);
    var d := cfg.DigestOf(fs.At(p));
    assert k < l ==> Taken(cfg, fs, fs.At(q), d, k);
    assert l < k ==> Taken(cfg, fs, fs.At(p), d, l);
  }

  // ---- what one visit may change ----

  /** Names that exist stay as they are, but for `p`; only `slot` and `tmp` can be new, and
      `tmp` then holds the old `p` or an empty file; data never changes. */
  ghost predicate Frame(before: Fs, after: Fs, p: Path, slot: Path, tmp: Path)
    requires before.Valid()
  {
    && after.Valid() && DataKept(before, after)
    && (forall q :: q in before.names && q != p ==> SameEntry(before, after, q))
    && after.names.Keys <= before.names.Keys + {slot, tmp}
    && (tmp in after.names && tmp !in before.names && tmp != slot ==>
          after.At(tmp).content == [] || (p in before.names && after.names[tmp] == before.names[p]))
  }

  lemma SameData(before: Fs, after: Fs, q: Path)
    requires before.Valid() && after.Valid() && DataKept(before, after)
    requires q in before.names && SameEntry(before, after, q)
    ensures after.At(q) == before.At(q).(locked := after.At(q).locked)
  {
  }

  lemma SoundKept(cfg: Config, u: Universe, before: Fs, after: Fs, p: Path, d: Digest, i: nat, tmp: Path)
    requires cfg.Valid() && cfg.IsSlot(d, i) && before.Valid() && !cfg.inStore(p) && !cfg.inStore(tmp)
    requires Frame(before, after, p, cfg.name(d, i), tmp) && SoundStore(cfg, u, before)
    requires cfg.name(d, i) in after.names && cfg.name(d, i) !in before.names ==>
      SoundRef(cfg, u, d, after.At(cfg.name(d, i)))
    ensures SoundStore(cfg, u, after)
  {
  }

  lemma GuestsStayKnown(cfg: Config, u: Universe, before: Fs, after: Fs, p: Path, slot: Path, tmp: Path)
    requires before.Valid() && Frame(before, after, p, slot, tmp) && GuestsKnown(cfg, u, before)
    requires cfg.inStore(slot) && !cfg.inStore(p)
    requires p in after.names ==>
      p in before.names && (SameEntry(before, after, p) || SameView(before.At(p), after.At(p), cfg.ignoreMtime))
    ensures GuestsKnown(cfg, u, after)
  {
  }

  lemma PlacedKept(cfg: Config, before: Fs, after: Fs, p: Path, slot: Path, tmp: Path, q: Path)
    requires cfg.Valid() && before.Valid() && !cfg.inStore(p) && Frame(before, after, p, slot, tmp)
    requires Placed(cfg, before, q) && SameEntry(before, after, q)
    ensures Placed(cfg, after, q)
  {
    var k: nat :| AtSlot(cfg, before, q, k);
    var d := cfg.DigestOf(before.At(q));
    SameData(before, after, q);
    assert cfg.IsSlot(d, k);
    assert SameEntry(before, after, cfg.name(d, k));
    forall j | 0 <= j < k ensures Taken(cfg, after, after.At(q), d, j) {
      assert Taken(cfg, before, before.At(q), d, j) && cfg.IsSlot(d, j);
      assert cfg.name(d, j) != p;
      SameData(before, after, cfg.name(d, j));
    }
    assert AtSlot(cfg, after, q, k);
  }
}
