/** Unify_copy on a regular file: a private copy with the owner, mode and time of the
    source. */
module UnifyCopy {
  import opened FileSystem
  import opened SparseCopy

  /** Who runs the program, and when: the owner and time that a new file starts with. */
  datatype Creator = Creator(uid: nat, gid: nat, now: int)

  const NEW_PERM := 128  // 0200

  /** Which calls fail; `failBlock` is the first block that cannot be mapped. */
  datatype CopyFaults = CopyFaults(openIn: bool, openOut: bool, verify: bool, truncate: bool, failBlock: nat,
                                   close: bool, chown: bool, chmod: bool, utime: bool)

  function NewFile(who: Creator): Inode {
    Inode(Regular, NEW_PERM, who.uid, who.gid, who.now, [], false)
  }

  predicate Opens(fs: Fs, src: Path, dst: Path, f: CopyFaults) {
    src in fs.names && dst !in fs.names && !f.openIn && !f.openOut
  }

  predicate AllMapped(size: nat, f: CopyFaults) {
    size <= f.failBlock * MMAP_BLOCKSIZE
  }

  /** ftruncate(2) is called, and fails; an output for an empty source is not extended. */
  predicate TruncateFails(size: nat, f: CopyFaults) {
    size > 0 && f.truncate
  }

  /** The content that is there when copying stops. */
  function CopiedContent(content: seq<Byte>, f: CopyFaults): (r: seq<Byte>) {
    if f.verify || TruncateFails(|content|, f) then []
    else if AllMapped(|content|, f) then content
    else content[..f.failBlock * MMAP_BLOCKSIZE] + Zeros(|content| - f.failBlock * MMAP_BLOCKSIZE)
  }

  predicate ContentOk(size: nat, f: CopyFaults) {
    !f.verify && !TruncateFails(size, f) && AllMapped(size, f) && !f.close
  }

  predicate CopyOk(fs: Fs, src: Path, dst: Path, size: nat, f: CopyFaults) {
    Opens(fs, src, dst, f) && ContentOk(size, f) && !f.chown && !f.chmod && !f.utime
  }

  /** The inode that is left at `dst` when it could be created. */
  function CopiedInode(st: Inode, who: Creator, f: CopyFaults): (r: Inode)
    // a complete copy is the source, unlocked
    ensures ContentOk(|st.content|, f) && !f.chown && !f.chmod && !f.utime ==>
      r == st.(kind := Regular, locked := false)
    // and until the content is complete the file belongs to the creator, with mode 0200
    ensures !ContentOk(|st.content|, f) ==> r == NewFile(who).(content := CopiedContent(st.content, f))
  {
    var a := NewFile(who).(content := CopiedContent(st.content, f));
    if !ContentOk(|st.content|, f) || f.chown then a else
    var b := a.(uid := st.uid, gid := st.gid);
    if f.chmod then b else
    var c := b.(perm := st.perm);
    if f.utime then c else c.(mtime := st.mtime)
  }

  lemma StoreAfterCreate(fs: Fs, p: Path, a: Inode, b: Inode)
    ensures Stored(Created(fs, p, a), p, b) == Created(fs, p, b)
  {
  }

  /** copyMMap between the two files, on the level of their content. */
  method CopyContent(content: seq<Byte>, failBlock: nat) returns (copy: seq<Byte>, ok: bool)
    ensures ok <==> |content| <= failBlock * MMAP_BLOCKSIZE
    ensures ok ==> copy == content
    ensures !ok ==> copy == content[..failBlock * MMAP_BLOCKSIZE] + Zeros(|content| - failBlock * MMAP_BLOCKSIZE)
  {
    var a := new Byte[|content|](i requires 0 <= i < |content| => content[i]);
    assert a[..] == content;
    var b, done := CopyMMap(a, failBlock);
    copy, ok := b[..], done;
  }

  method CopyRegular(disk: Disk, src: Path, st: Inode, dst: Path, who: Creator, f: CopyFaults) returns (ok: bool)
    requires disk.fs.Valid()
    requires src in disk.fs.names ==> disk.fs.At(src) == st  // `st` is what lstat said, and nobody else writes
    modifies disk
    ensures ok == CopyOk(old(disk.fs), src, dst, |st.content|, f)
    ensures ok <==>
      && src in old(disk.fs).names && dst !in old(disk.fs).names && !f.openIn && !f.openOut && !f.verify
      && (st.content != [] ==> !f.truncate) && |st.content| <= f.failBlock * 0x100_0000
      && !f.close && !f.chown && !f.chmod && !f.utime
    ensures ok ==> dst in disk.fs.names && disk.fs.names[dst] == old(disk.fs).next
                   && disk.fs.inodes == old(disk.fs).inodes[old(disk.fs).next := st.(kind := Regular, locked := false)]
    ensures disk.fs == if Opens(old(disk.fs), src, dst, f) then Created(old(disk.fs), dst, CopiedInode(st, who, f))
                       else old(disk.fs)
  {
    if f.openIn || src !in disk.fs.names { return false; }
    var node := NewFile(who);
    ok := disk.Create(dst, node, f.openOut);
    if !ok { return false; }
    if f.verify || TruncateFails(|st.content|, f) { return false; }

    var copy, mapped := CopyContent(st.content, f.failBlock);
    StoreAfterCreate(old(disk.fs), dst, node, node.(content := copy));
    node := node.(content := copy);
    ok := disk.Store(dst, node, false);
    if !mapped || f.close { return false; }

    StoreAfterCreate(old(disk.fs), dst, node, node.(uid := st.uid, gid := st.gid));
    node := node.(uid := st.uid, gid := st.gid);
    ok := disk.Store(dst, node, f.chown);
    if !ok { return false; }

    StoreAfterCreate(old(disk.fs), dst, node, node.(perm := st.perm));
    node := node.(perm := st.perm);
    ok := disk.Store(dst, node, f.chmod);
    if !ok { return false; }

    StoreAfterCreate(old(disk.fs), dst, node, node.(mtime := st.mtime));
    node := node.(mtime := st.mtime);
    ok := disk.Store(dst, node, f.utime);
  }
}
