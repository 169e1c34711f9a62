/** The part of a Linux file system that unification touches: names, inodes and
    the calls that change them.  Every call takes a flag `fault`; when it is set
    the environment makes the call fail, whatever the state. */
module FileSystem {

  type Byte = b: int | 0 <= b < 256
  type Path = string

  datatype Kind = Regular | Directory | Symlink | Special

  /** `locked` stands for the flag pair IUNLINK|IMMUTABLE. */
  datatype Inode = Inode(kind: Kind, perm: nat, uid: nat, gid: nat,
                         mtime: int, content: seq<Byte>, locked: bool)

  /** Inode numbers below `next` are in use or were used before. */
  datatype Fs = Fs(names: map<Path, nat>, inodes: map<nat, Inode>, next: nat) {

    ghost predicate Valid() {
      && (forall p :: p in names ==> names[p] in inodes)
      && (forall i :: i in inodes ==> i < next)
    }

    function At(p: Path): Inode
      requires Valid() && p in names
    {
      inodes[names[p]]
    }

    /** st_nlink: how many names an inode has. */
    function LinkCount(i: nat): nat {
      |set p | p in names && names[p] == i|
    }
  }

  // ---- the state after a successful call ----

  function Unlinked(fs: Fs, p: Path): Fs {
    fs.(names := fs.names - {p})
  }

  function Linked(fs: Fs, src: Path, dst: Path): Fs
    requires src in fs.names
  {
    fs.(names := fs.names[dst := fs.names[src]])
  }

  /** rename(2) does nothing when both names already denote the same inode. */
  function Renamed(fs: Fs, src: Path, dst: Path): Fs
    requires src in fs.names
  {
    if dst in fs.names && fs.names[dst] == fs.names[src] then fs
    else fs.(names := fs.names[dst := fs.names[src]] - {src})
  }

  function Locked(fs: Fs, p: Path): Fs
    requires fs.Valid() && p in fs.names
  {
    Stored(fs, p, fs.At(p).(locked := true))
  }

  function Created(fs: Fs, p: Path, node: Inode): Fs {
    Fs(fs.names[p := fs.next], fs.inodes[fs.next := node], fs.next + 1)
  }

  /** The inode behind `p` becomes `node`. */
  function Stored(fs: Fs, p: Path, node: Inode): Fs
    requires p in fs.names
  {
    fs.(inodes := fs.inodes[fs.names[p] := node])
  }

  // ---- the calls ----

  class Disk {
    var fs: Fs

    constructor (fs: Fs)
      ensures this.fs == fs
    {
      this.fs := fs;
    }

    method Unlink(p: Path, fault: bool) returns (ok: bool)
      modifies this
      ensures ok == (!fault && p in old(fs).names)
      ensures fs == if ok then Unlinked(old(fs), p) else old(fs)
    {
      ok := !fault && p in fs.names;
      if ok { fs := Unlinked(fs, p); }
    }

    method Link(src: Path, dst: Path, fault: bool) returns (ok: bool)
      modifies this
      ensures ok == (!fault && src in old(fs).names && dst !in old(fs).names)
      ensures fs == if ok then Linked(old(fs), src, dst) else old(fs)
    {
      ok := !fault && src in fs.names && dst !in fs.names;
      if ok { fs := Linked(fs, src, dst); }
    }

    method Rename(src: Path, dst: Path, fault: bool) returns (ok: bool)
      modifies this
      ensures ok == (!fault && src in old(fs).names)
      ensures fs == if ok then Renamed(old(fs), src, dst) else old(fs)
    {
      ok := !fault && src in fs.names;
      if ok { fs := Renamed(fs, src, dst); }
    }

    /** vc_set_iattr with IUNLINK|IMMUTABLE. */
    method Lock(p: Path, fault: bool) returns (ok: bool)
      requires fs.Valid()
      modifies this
      ensures ok == (!fault && p in old(fs).names)
      ensures fs == if ok then Locked(old(fs), p) else old(fs)
    {
      ok := !fault && p in fs.names;
      if ok { fs := Locked(fs, p); }
    }

    /** open with O_CREAT|O_EXCL. */
    method Create(p: Path, node: Inode, fault: bool) returns (ok: bool)
      modifies this
      ensures ok == (!fault && p !in old(fs).names)
      ensures fs == if ok then Created(old(fs), p, node) else old(fs)
    {
      ok := !fault && p !in fs.names;
      if ok { fs := Created(fs, p, node); }
    }

    /** The calls that change one inode in place: ftruncate, a store through a
        mapping, lchown, chmod and utime. */
    method Store(p: Path, node: Inode, fault: bool) returns (ok: bool)
      modifies this
      ensures ok == (!fault && p in old(fs).names)
      ensures fs == if ok then Stored(old(fs), p, node) else old(fs)
    {
      ok := !fault && p in fs.names;
      if ok { fs := Stored(fs, p, node); }
    }
  }
}
