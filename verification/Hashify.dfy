/** vhashify: the search for a name in the store, and replacing a file by a hard link to it. */
module Hashify {
  import opened FileSystem
  import opened Sets
  import opened Unify
  import opened UnifyCopy
  import opened HashStore

  /** Why visitDirEntry leaves an entry alone.  The source reports `Busy` (the flags say that the
      file is unified) and `Shared` (the store says so) both as rsUNIFIED. */
  datatype SkipReason = Excluded | FstatError | IsSymlink | NotRegular | TooSmall | Unsupported
                      | Busy | WrongDevice | GeneralError | Shared

  datatype VisitResult = Skipped(reason: SkipReason) | IsDirectory | Unified | NotUnified | Aborted

  /** One directory entry, with everything that the environment decides while it is visited. */
  datatype Visit = Visit(path: Path, suffix: string, excluded: bool, stat: bool, unsupported: bool,
                         wrongDevice: bool, hashFails: bool, probe: nat -> bool, mkdir: bool, marker: bool,
                         unlinkMarker: bool, copy: CopyFaults, unify: UnifyFaults, cleanup: bool)

  // ---- resolveCollisions ----

  /** No call fails while the store is searched. */
  ghost predicate Quiet(v: Visit) {
    (forall j :: !v.probe(j)) && !v.mkdir && !v.marker
  }

  /** `refSize` is the size that hash_st is left with: that of the reference, or 0 for none. */
  datatype Resolution = NoSlot | SharedSlot(idx: nat) | Slot(idx: nat, refSize: nat)

  /** The search passes a name: it exists and is neither the file itself nor acceptable. */
  ghost predicate Passed(cfg: Config, fs: Fs, ino: nat, st: Inode, d: Digest, j: nat)
    requires fs.Valid()
  {
    Taken(cfg, fs, st, d, j) && fs.names[cfg.name(d, j)] != ino
  }

  /** What the size that the search returns stands for: an absent name, or an acceptable file. */
  ghost predicate SizeSays(cfg: Config, fs: Fs, st: Inode, slot: Path, refSize: nat)
    requires fs.Valid()
  {
    if slot in fs.names then
      Accepts(KeyOf(st, cfg.ignoreMtime), fs.At(slot), cfg.ignoreMtime) && refSize == |fs.At(slot).content|
    else refSize == 0
  }

  /** The size 0 of a marker never clashes with that of a reference: files that are hashed have at
      least HASH_MINSIZE bytes, and a reference that is accepted has as many as the file. */
  lemma MarkerNeverClashes(cfg: Config, fs: Fs, st: Inode, slot: Path, refSize: nat)
    requires fs.Valid() && |st.content| >= HASH_MINSIZE && SizeSays(cfg, fs, st, slot, refSize)
    ensures refSize == 0 <==> slot !in fs.names
    ensures slot in fs.names ==> refSize == |st.content| >= HASH_MINSIZE
  {
  }

  /** The search comes to an index: no earlier lstat fails, and all earlier names are passed. */
  ghost predicate Reaches(cfg: Config, fs: Fs, ino: nat, st: Inode, d: Digest, v: Visit, idx: nat)
    requires fs.Valid()
  {
    idx < MAX_INDEX && forall j :: 0 <= j < idx ==> !v.probe(j) && Passed(cfg, fs, ino, st, d, j)
  }

  /** A name that is not found cannot be made; a dry run only minds that it could not look. */
  ghost predicate GivesUp(cfg: Config, fs: Fs, d: Digest, v: Visit, idx: nat) {
    && (v.probe(idx) || cfg.name(d, idx) !in fs.names)
    && if cfg.dryRun then v.probe(idx) else v.mkdir || v.marker || cfg.name(d, idx) in fs.names
  }

  ghost predicate FindsItself(cfg: Config, fs: Fs, ino: nat, d: Digest, v: Visit, idx: nat) {
    !v.probe(idx) && cfg.name(d, idx) in fs.names && fs.names[cfg.name(d, idx)] == ino
  }

  /** Where the search goes on, it has neither given up nor found the file itself. */
  lemma GoesOn(cfg: Config, fs: Fs, ino: nat, st: Inode, d: Digest, v: Visit, i: nat, k: nat)
    requires fs.Valid() && Reaches(cfg, fs, ino, st, d, v, k) && i < k
    ensures !GivesUp(cfg, fs, d, v, i) && !FindsItself(cfg, fs, ino, d, v, i)
    ensures Passed(cfg, fs, ino, st, d, i) && !v.probe(i)
  {
    assert Passed(cfg, fs, ino, st, d, i);
  }

  lemma StopsAt(cfg: Config, fs: Fs, ino: nat, st: Inode, d: Digest, v: Visit, idx: nat)
    requires fs.Valid() && Reaches(cfg, fs, ino, st, d, v, idx) && (v.probe(idx) || !Passed(cfg, fs, ino, st, d, idx))
    ensures (exists i :: Reaches(cfg, fs, ino, st, d, v, i) && GivesUp(cfg, fs, d, v, i)) <==>
      GivesUp(cfg, fs, d, v, idx)
    ensures (exists i :: Reaches(cfg, fs, ino, st, d, v, i) && FindsItself(cfg, fs, ino, d, v, i)) <==>
      FindsItself(cfg, fs, ino, d, v, idx)
  {
    forall i: nat | Reaches(cfg, fs, ino, st, d, v, i) && i != idx
      ensures !GivesUp(cfg, fs, d, v, i) && !FindsItself(cfg, fs, ino, d, v, i)
    {
      if i < idx { GoesOn(cfg, fs, ino, st, d, v, i, idx); } else { GoesOn(cfg, fs, ino, st, d, v, idx, i); }
    }
  }

  /** The search stops at the least index whose name is absent, the file itself, or acceptable;
      a call that fails spuriously makes it give up, never take a wrong name. */
  method ResolveCollisions(cfg: Config, disk: Disk, st: Inode, ino: nat, d: Digest, v: Visit) returns (r: Resolution)
    requires cfg.Valid() && |d| == cfg.digestSize
    requires disk.fs.Valid() && |disk.fs.names| < MAX_INDEX
    modifies disk
    ensures r == NoSlot <==>
      exists i :: Reaches(cfg, old(disk.fs), ino, st, d, v, i) && GivesUp(cfg, old(disk.fs), d, v, i)
    ensures r.SharedSlot? <==>
      exists i :: Reaches(cfg, old(disk.fs), ino, st, d, v, i) && FindsItself(cfg, old(disk.fs), ino, d, v, i)
    ensures r != NoSlot ==> Reaches(cfg, old(disk.fs), ino, st, d, v, r.idx)
    ensures r.SharedSlot? ==> FindsItself(cfg, old(disk.fs), ino, d, v, r.idx)
    ensures r.Slot? ==> SizeSays(cfg, old(disk.fs), st, cfg.name(d, r.idx), r.refSize)
    ensures r.Slot? && cfg.name(d, r.idx) in old(disk.fs).names ==> old(disk.fs).names[cfg.name(d, r.idx)] != ino
    ensures disk.fs == if r.Slot? && cfg.name(d, r.idx) !in old(disk.fs).names && !cfg.dryRun
                       then Created(old(disk.fs), cfg.name(d, r.idx), NewFile(cfg.who)) else old(disk.fs)
    ensures Quiet(v) ==> r != NoSlot
  {
    var idx := 0;
    while true
      invariant disk.fs == old(disk.fs)
      invariant Reaches(cfg, disk.fs, ino, st, d, v, idx)
      decreases MAX_INDEX - idx
    {
      var result := cfg.name(d, idx);
      if v.probe(idx) || !Passed(cfg, disk.fs, ino, st, d, idx) { StopsAt(cfg, disk.fs, ino, st, d, v, idx); }
      if v.probe(idx) || result !in disk.fs.names {
        if cfg.dryRun && v.probe(idx) { return NoSlot; }  // an errno other than ENOENT
        if !cfg.dryRun {
          if v.mkdir { return NoSlot; }
          var ok := disk.Create(result, NewFile(cfg.who), v.marker);
          if !ok { return NoSlot; }
        }
        return Slot(idx, 0);
      }
      if disk.fs.names[result] == ino { return SharedSlot(idx); }
      if Accepts(KeyOf(st, cfg.ignoreMtime), disk.fs.At(result), cfg.ignoreMtime) {
        return Slot(idx, |disk.fs.At(result).content|);
      }

      idx := idx + 1;
      NamesRunOut(cfg, disk.fs, ino, st, d, idx);
    }
  }

  /** The store's first `n` names for a digest. */
  ghost function FirstNames(cfg: Config, d: Digest, n: nat): set<Path> {
    if n == 0 then {} else FirstNames(cfg, d, n - 1) + {cfg.name(d, n - 1)}
  }

  lemma {:induction false} FirstNamesDiffer(cfg: Config, d: Digest, n: nat)
    requires cfg.Valid() && |d| == cfg.digestSize && n <= MAX_INDEX
    ensures |FirstNames(cfg, d, n)| == n
    ensures forall j :: n <= j < MAX_INDEX ==> cfg.name(d, j) !in FirstNames(cfg, d, n)
  {
    if n > 0 {
      FirstNamesDiffer(cfg, d, n - 1);
      forall j | n <= j < MAX_INDEX ensures cfg.name(d, j) != cfg.name(d, n - 1) {
        assert cfg.IsSlot(d, j) && cfg.IsSlot(d, n - 1);
      }
    }
  }

  lemma {:induction false} PassedNamesExist(cfg: Config, fs: Fs, ino: nat, st: Inode, d: Digest, n: nat)
    requires fs.Valid() && forall j :: 0 <= j < n ==> Passed(cfg, fs, ino, st, d, j)
    ensures FirstNames(cfg, d, n) <= fs.names.Keys
  {
    if n > 0 {
      PassedNamesExist(cfg, fs, ino, st, d, n - 1);
      assert Passed(cfg, fs, ino, st, d, n - 1);
    }
  }

  /** A finite store cannot hold the first `n` names for ever larger `n`. */
  lemma NamesRunOut(cfg: Config, fs: Fs, ino: nat, st: Inode, d: Digest, n: nat)
    requires cfg.Valid() && fs.Valid() && |d| == cfg.digestSize && n <= MAX_INDEX
    requires forall j :: 0 <= j < n ==> Passed(cfg, fs, ino, st, d, j)
    ensures n <= |fs.names|
  {
    FirstNamesDiffer(cfg, d, n);
    PassedNamesExist(cfg, fs, ino, st, d, n);
    SubsetSize(FirstNames(cfg, d, n), fs.names.Keys);
  }

  // ---- doit ----

  /** mkstemp(3) fails when it finds no unused name. */
  function Mkstemp(fs: Fs, tmp: Path, f: UnifyFaults): UnifyFaults {
    f.(mkstemp := f.mkstemp || tmp in fs.names)
  }

  /** A failed call does not lose its target: if lstat fails on it, the call fails before the link
      or the clean-up unlink fails, too. */
  predicate Spares(f: UnifyFaults) {
    f.stat ==> f.lock || f.mask || f.unlinkNew
  }

  /** What a failed call makes of its target, exactly: it stays if the failures spare it, and its
      name is gone otherwise. */
  ghost predicate KeptIffSpared(before: Fs, after: Fs, p: Path, f: UnifyFaults) {
    (SameEntry(before, after, p) <==> Spares(f)) && (!Spares(f) ==> p !in after.names)
  }

  /** The target stays, or its name is gone and the failures did not spare it. */
  ghost predicate KeptOrGone(before: Fs, after: Fs, p: Path, f: UnifyFaults) {
    SameEntry(before, after, p) || (!Spares(f) && p !in after.names)
  }

  lemma LinkFrame(fs: Fs, ref: Path, p: Path, tmp: Path, f: UnifyFaults)
    requires fs.Valid() && ref in fs.names && p in fs.names && tmp != p && (tmp in fs.names ==> f.mkstemp)
    ensures var out := UnifiedFs(fs, ref, p, false, tmp, f);
      var s := Before(fs, ref, p, false, f);
      Frame(fs, out, p, ref, tmp) && NamesPromise(fs, out, ref, p, tmp, s, f) && (Drops(s, f) <==> !Spares(f))
  {
    AllOrNothing(fs, ref, p, false, tmp, f);
    OnlyAFailedStatDrops(fs, ref, p, f);
    var out := UnifiedFs(fs, ref, p, false, tmp, f);
    forall q | q in out.names ensures q in fs.names.Keys + {ref, tmp} {
      if q != p && q != tmp { assert SameEntry(fs, out, q); }
    }
    forall q | q in fs.names && q != p ensures SameEntry(fs, out, q) {
      if q == tmp { assert !Before(fs, ref, p, false, f).backsUp || f.mkstemp; }
    }
  }

  /** None of the calls that matter for success fails. */
  predicate Smooth(f: UnifyFaults) {
    !f.lock && !f.stat && !f.mask && !f.mkstemp && !f.backup && !f.unlinkEmpty && !f.link
  }

  /** The temporary name is gone if its unlink works. */
  ghost predicate Tidied(before: Fs, after: Fs, tmp: Path, f: UnifyFaults, r: UnifyResult) {
    r != Fatal && !f.cleanup && tmp !in before.names ==> tmp !in after.names
  }

  /** No inode but one changes, not even in its flags. */
  ghost predicate OnlyLocks(before: Fs, after: Fs, i: nat) {
    forall j :: j in before.inodes && j != i ==> j in after.inodes && after.inodes[j] == before.inodes[j]
  }

  lemma LinkOutcome(fs: Fs, ref: Path, p: Path, tmp: Path, f: UnifyFaults)
    requires fs.Valid() && ref in fs.names && p in fs.names && tmp != p && (tmp in fs.names ==> f.mkstemp)
    ensures var out := UnifiedFs(fs, ref, p, false, tmp, f);
      var r := Outcome(Before(fs, ref, p, false, f), f);
      && Frame(fs, out, p, ref, tmp)
      && (r == Done ==> p in out.names && out.names[p] == fs.names[ref])
      && (r == Failed ==> KeptIffSpared(fs, out, p, f))
      && (r == Fatal ==> f.restore && p !in out.names && tmp in out.names && out.names[tmp] == fs.names[p])
      && Tidied(fs, out, tmp, f, r) && (r == Done ==> OnlyLocks(fs, out, out.names[p]))
      && (Smooth(f) && ref != p ==> r == Done)
  {
    hide UnifiedFs, Frame, Drops;
    LinkFrame(fs, ref, p, tmp, f);
    InPlainTerms(fs, ref, p, false, tmp, f);
  }

  /** Unify_unify(ref, ..., p, false): `p` becomes a link to `ref`, or stays. */
  method LinkGuest(disk: Disk, ref: Path, p: Path, tmp: Path, f: UnifyFaults) returns (r: UnifyResult)
    requires disk.fs.Valid() && ref in disk.fs.names && p in disk.fs.names && tmp != p
    modifies disk
    ensures Frame(old(disk.fs), disk.fs, p, ref, tmp)
    ensures r == Done ==> p in disk.fs.names && disk.fs.names[p] == old(disk.fs).names[ref]
    ensures r == Failed ==> KeptIffSpared(old(disk.fs), disk.fs, p, f)
    ensures r == Fatal ==>
      f.restore && p !in disk.fs.names && tmp in disk.fs.names && disk.fs.names[tmp] == old(disk.fs).names[p]
    ensures Smooth(f) && tmp !in old(disk.fs).names && ref != p ==> r == Done
    ensures Tidied(old(disk.fs), disk.fs, tmp, f, r)
    ensures r == Done ==> OnlyLocks(old(disk.fs), disk.fs, disk.fs.names[p])
  {
    hide CallRight, OnlyLocks, UnifiedFs, Frame, Outcome, Before;
    var g := Mkstemp(disk.fs, tmp, f);
    LinkOutcome(disk.fs, ref, p, tmp, g);
    r := UnifyFiles(disk, ref, p, false, tmp, g);
  }

  /** `now` is `before` with something new under the name `slot`. */
  ghost predicate OnlySlot(before: Fs, now: Fs, slot: Path) {
    && before.Valid() && now.Valid() && slot !in before.names
    && (forall i :: i in before.inodes ==> i in now.inodes && now.inodes[i] == before.inodes[i])
    && (forall q :: q != slot ==> SameEntry(before, now, q))
  }

  lemma FrameBehindSlot(before: Fs, now: Fs, after: Fs, p: Path, slot: Path, tmp: Path)
    requires OnlySlot(before, now, slot) && p in before.names
    requires Frame(now, after, p, slot, tmp)
    ensures Frame(before, after, p, slot, tmp)
  {
    forall q | q in before.names && q != p ensures SameEntry(before, after, q) {
      assert SameEntry(before, now, q) && SameEntry(now, after, q);
    }
    forall q | q in after.names ensures q in before.names.Keys + {slot, tmp} {
      if q != slot && q != tmp { assert q in now.names && SameEntry(before, now, q); }
    }
    assert SameEntry(before, now, p);
    if tmp != slot { assert SameEntry(before, now, tmp); }
  }

  lemma FrameOfSlot(before: Fs, now: Fs, p: Path, slot: Path, tmp: Path)
    requires OnlySlot(before, now, slot) && p in before.names
    ensures Frame(before, now, p, slot, tmp)
  {
    forall q | q in now.names ensures q in before.names.Keys + {slot, tmp} {
      if q != slot { assert SameEntry(before, now, q); }
    }
    if tmp != slot { assert SameEntry(before, now, tmp); }
  }

  lemma FrameAfterUnlink(before: Fs, after: Fs, p: Path, slot: Path, tmp: Path)
    requires before.Valid() && slot !in before.names && Frame(before, after, p, slot, tmp) && slot != p && slot != tmp
    ensures Frame(before, Unlinked(after, slot), p, slot, tmp)
    ensures SameEntry(before, after, p) ==> SameEntry(before, Unlinked(after, slot), p)
  {
    var out := Unlinked(after, slot);
    forall q | q in before.names && q != p ensures SameEntry(before, out, q) {
      assert SameEntry(before, after, q);
    }
  }

  lemma SlotFilled(before: Fs, now: Fs, slot: Path, node: Inode)
    requires OnlySlot(before, now, slot)
    ensures OnlySlot(before, Created(now, slot, node), slot) && Created(now, slot, node).At(slot) == node
  {
    forall q | q != slot ensures SameEntry(before, Created(now, slot, node), q) {
      assert SameEntry(before, now, q);
    }
  }

  lemma SlotFreed(before: Fs, now: Fs, slot: Path)
    requires OnlySlot(before, now, slot)
    ensures OnlySlot(before, Unlinked(now, slot), slot)
  {
    forall q | q != slot ensures SameEntry(before, Unlinked(now, slot), q) {
      assert SameEntry(before, now, q);
    }
  }

  /** The marker is unlinked, and both files are opened. */
  predicate CopyIsMade(v: Visit) {
    !v.unlinkMarker && !v.copy.openIn && !v.copy.openOut
  }

  /** Replace the empty marker at `slot` by a copy of `p`. */
  method CopyIntoStore(cfg: Config, disk: Disk, p: Path, st: Inode, slot: Path, v: Visit,
                       ghost before: Fs) returns (ok: bool)
    requires before.Valid() && slot !in before.names && p in before.names && before.At(p) == st
    requires disk.fs == Created(before, slot, NewFile(cfg.who))
    modifies disk
    ensures OnlySlot(before, disk.fs, slot)
    ensures slot in disk.fs.names ==>
      disk.fs.At(slot) == NewFile(cfg.who) || disk.fs.At(slot) == CopiedInode(st, cfg.who, v.copy)
    ensures ok ==> slot in disk.fs.names && disk.fs.At(slot) == st.(kind := Regular, locked := false)
    ensures ok ==> disk.fs.At(slot) == CopiedInode(st, cfg.who, v.copy)
    ensures ok <==> !v.unlinkMarker && CopyOk(before, p, slot, |st.content|, v.copy)
    ensures CopyIsMade(v) ==> slot in disk.fs.names && disk.fs.At(slot) == CopiedInode(st, cfg.who, v.copy)
    ensures !CopyIsMade(v) && slot in disk.fs.names ==> disk.fs.At(slot) == NewFile(cfg.who)
    ensures slot in disk.fs.names ==> disk.fs.names[slot] !in before.inodes
  {
    SlotFilled(before, before, slot, NewFile(cfg.who));
    SlotFreed(before, disk.fs, slot);
    SlotFilled(before, Unlinked(disk.fs, slot), slot, CopiedInode(st, cfg.who, v.copy));
    var _ := disk.Unlink(slot, v.unlinkMarker);
    assert SameEntry(before, disk.fs, p);
    ok := CopyRegular(disk, p, st, slot, cfg.who, v.copy);
  }

  /** No reference yet and guests are running: copy `p` to `slot`, then link `p` to the copy. */
  method CopyThenLink(cfg: Config, disk: Disk, p: Path, st: Inode, slot: Path, tmp: Path, v: Visit,
                      ghost before: Fs) returns (r: UnifyResult)
    requires before.Valid() && slot !in before.names && p in before.names && before.At(p) == st
    requires tmp != p && tmp != slot && p != slot && st.kind == Regular
    requires disk.fs == Created(before, slot, NewFile(cfg.who))
    modifies disk
    ensures Frame(before, disk.fs, p, slot, tmp)
    ensures r == Done ==> p in disk.fs.names && slot in disk.fs.names && disk.fs.names[p] == disk.fs.names[slot]
    ensures r == Failed ==> KeptOrGone(before, disk.fs, p, v.unify)
    ensures r == Fatal ==>
      v.unify.restore && p !in disk.fs.names && tmp in disk.fs.names && disk.fs.names[tmp] == before.names[p]
    ensures Tidied(before, disk.fs, tmp, v.unify, r)
    ensures r == Done ==> OnlyLocks(before, disk.fs, disk.fs.names[p]) && disk.fs.names[p] !in before.inodes
    ensures (&& !v.unlinkMarker && CopyOk(before, p, slot, |st.content|, v.copy) && Smooth(v.unify)
             && tmp !in before.names) ==> r == Done
    // a copy that is cut short leaves the entry alone
    ensures !CopyOk(before, p, slot, |st.content|, v.copy) ==>
      && r == Failed && SameEntry(before, disk.fs, p) && disk.fs.At(p) == st
      && (CopyIsMade(v) && v.cleanup ==> slot in disk.fs.names && disk.fs.At(slot) == CopiedInode(st, cfg.who, v.copy))
    // what may be left in the store: a complete copy, or else a failed clean-up
    ensures slot in disk.fs.names && r != Failed ==> Data(disk.fs.At(slot)) == Data(st)
    ensures slot in disk.fs.names && r == Failed ==> v.cleanup
    ensures slot in disk.fs.names && r == Failed ==>
      || Data(disk.fs.At(slot)) == NewFile(cfg.who)
      || (CopyIsMade(v) && Data(disk.fs.At(slot)) == Data(CopiedInode(st, cfg.who, v.copy)))
  {
    var ok := CopyIntoStore(cfg, disk, p, st, slot, v, before);
    ghost var copied := disk.fs;
    assert SameEntry(before, copied, p) && SameEntry(before, copied, tmp);
    if ok {
      r := LinkGuest(disk, slot, p, tmp, v.unify);
      FrameBehindSlot(before, copied, disk.fs, p, slot, tmp);
      SameData(copied, disk.fs, slot);
      if r != Failed { return; }
    } else {
      FrameOfSlot(before, copied, p, slot, tmp);
    }
    FrameAfterUnlink(before, disk.fs, p, slot, tmp);
    ok := disk.Unlink(slot, v.cleanup);
    r := Failed;
  }

  /** `after` is `before` but for the name `slot` and for flags. */
  lemma FrameOfLink(before: Fs, after: Fs, p: Path, slot: Path, tmp: Path)
    requires before.Valid() && after.Valid() && DataKept(before, after) && slot !in before.names && tmp != slot
    requires forall q :: q != slot ==> SameEntry(before, after, q)
    ensures Frame(before, after, p, slot, tmp)
  {
    forall q | q in after.names ensures q in before.names.Keys + {slot, tmp} {
      if q != slot { assert SameEntry(before, after, q); }
    }
    assert SameEntry(before, after, tmp);
  }

  lemma LinkSlotOutcome(fs: Fs, p: Path, slot: Path, slotTmp: Path, f: UnifyFaults)
    requires fs.Valid() && slot in fs.names && p in fs.names && p != slot && fs.At(slot).content == []
    requires slotTmp != slot && (slotTmp in fs.names ==> f.mkstemp)
    ensures var out := UnifiedFs(fs, p, slot, true, slotTmp, f);
      var r := Outcome(Before(fs, p, slot, true, f), f);
      && out.Valid() && DataKept(fs, out) && (forall q :: q != slot ==> SameEntry(fs, out, q))
      && r != Fatal && OnlyLocks(fs, out, fs.names[p])
      && (r == Done ==> slot in out.names && out.names[slot] == fs.names[p])
      && (r == Failed && slot in out.names ==> out.names[slot] == fs.names[slot])
      && (Smooth(f.(mkstemp := false)) ==> r == Done)
  {
    hide UnifiedFs, ResultRight, NamesRight;
    AllOrNothing(fs, p, slot, true, slotTmp, f);
  }

  lemma LinkSlotFrame(before: Fs, slot: Path, marker: Inode, p: Path, slotTmp: Path, tmp: Path, f: UnifyFaults)
    requires before.Valid() && slot !in before.names && p in before.names && marker.content == []
    requires slotTmp != slot && tmp != slot && (slotTmp in before.names ==> f.mkstemp)
    ensures var fs := Created(before, slot, marker);
      var out := UnifiedFs(fs, p, slot, true, slotTmp, f);
      var r := Outcome(Before(fs, p, slot, true, f), f);
      && Frame(before, out, p, slot, tmp) && SameEntry(before, out, p)
      && SameEntry(before, out, tmp) && OnlyLocks(before, out, before.names[p])
      && r != Fatal
      && (r == Done ==> slot in out.names && out.names[slot] == before.names[p])
      && (r == Failed && slot in out.names ==> Data(out.At(slot)) == Data(marker))
      && (Smooth(f.(mkstemp := false)) ==> r == Done)
  {
    SlotFilled(before, before, slot, marker);
    var fs := Created(before, slot, marker);
    LinkSlotOutcome(fs, p, slot, slotTmp, f);
    hide UnifiedFs, Before, Outcome, Created, Frame;
    var out := UnifiedFs(fs, p, slot, true, slotTmp, f);
    forall q | q != slot ensures SameEntry(before, out, q) {
      assert SameEntry(before, fs, q) && SameEntry(fs, out, q);
    }
    FrameOfLink(before, out, p, slot, tmp);
  }

  /** Unify_unify(p, ..., slot, true) on the empty marker at `slot`. */
  method LinkSlot(disk: Disk, p: Path, slot: Path, marker: Inode, slotTmp: Path, tmp: Path, f: UnifyFaults,
                  ghost before: Fs) returns (r: UnifyResult)
    requires before.Valid() && slot !in before.names && p in before.names && marker.content == []
    requires slotTmp != slot && tmp != slot && disk.fs == Created(before, slot, marker)
    modifies disk
    ensures Frame(before, disk.fs, p, slot, tmp) && SameEntry(before, disk.fs, p) && r != Fatal
    ensures r == Done ==> slot in disk.fs.names && disk.fs.names[slot] == before.names[p]
    ensures r == Failed && slot in disk.fs.names ==> Data(disk.fs.At(slot)) == Data(marker)
    ensures Smooth(f) ==> r == Done
    ensures SameEntry(before, disk.fs, tmp) && OnlyLocks(before, disk.fs, before.names[p])
  {
    var g := Mkstemp(disk.fs, slotTmp, f);
    assert Smooth(f) ==> Smooth(g.(mkstemp := false));
    SlotFilled(before, before, slot, marker);
    LinkSlotFrame(before, slot, marker, p, slotTmp, tmp, g);
    hide UnifiedFs, Outcome, Frame, CallRight, OnlyLocks;
    r := UnifyFiles(disk, p, slot, true, slotTmp, g);
  }

  /** No reference yet and no guest is running: `slot` becomes a link to `p` itself. */
  method LinkIntoStore(cfg: Config, disk: Disk, p: Path, slot: Path, slotTmp: Path, tmp: Path, v: Visit,
                       ghost before: Fs) returns (r: UnifyResult)
    requires before.Valid() && slot !in before.names && p in before.names && slotTmp != slot && tmp != slot
    requires disk.fs == Created(before, slot, NewFile(cfg.who))
    modifies disk
    ensures Frame(before, disk.fs, p, slot, tmp) && r != Fatal && SameEntry(before, disk.fs, p)
    ensures r == Done ==> slot in disk.fs.names && disk.fs.names[slot] == before.names[p]
    ensures r == Failed && slot in disk.fs.names ==> v.cleanup && Data(disk.fs.At(slot)) == NewFile(cfg.who)
    ensures Smooth(v.unify) ==> r == Done
    ensures SameEntry(before, disk.fs, tmp) && OnlyLocks(before, disk.fs, before.names[p])
  {
    r := LinkSlot(disk, p, slot, NewFile(cfg.who), slotTmp, tmp, v.unify, before);
    if r == Failed {
      FrameAfterUnlink(before, disk.fs, p, slot, tmp);
      var _ := disk.Unlink(slot, v.cleanup);
    }
  }

  /** Nothing fails while a file of `size` bytes is unified. */
  ghost predicate Calm(fs: Fs, v: Visit, size: nat) {
    && Quiet(v) && !v.unlinkMarker && Smooth(v.unify)
    && !v.copy.openIn && !v.copy.openOut && ContentOk(size, v.copy)
    && !v.copy.chown && !v.copy.chmod && !v.copy.utime
    && TempName(v.path, v.suffix) !in fs.names
  }

  /** A copy, complete or not, may stay in the store although the visit fails. */
  predicate LeavesCopy(cfg: Config, v: Visit) {
    !cfg.dryRun && cfg.running && v.cleanup && CopyIsMade(v)
  }

  /** What a visit may leave under a name that was free. */
  predicate LeftBehind(cfg: Config, st: Inode, left: Inode, v: Visit) {
    || Data(left) == Data(st) || Data(left) == NewFile(cfg.who)
    || (LeavesCopy(cfg, v) && Data(left) == Data(CopiedInode(st, cfg.who, v.copy)))
  }

  /** The copy of this very file that may stay can be taken for the file. */
  predicate Poisons(cfg: Config, st: Inode, v: Visit) {
    LeavesCopy(cfg, v) && Poisonous(cfg, KeyOf(st, cfg.ignoreMtime), st.content, v.copy)
  }

  lemma SameDataSameContent(a: Inode, b: Inode)
    requires Data(a) == Data(b)
    ensures a == b.(locked := a.locked)
  {
  }

  /** What is left under a fresh slot is a sound reference. */
  lemma LeftIsSound(cfg: Config, u: Universe, st: Inode, left: Inode, v: Visit)
    requires CollisionFree(cfg, u) && Known(cfg, u, st) && st.kind == Regular && st.content != []
    requires LeftBehind(cfg, st, left, v) && !Poisons(cfg, st, v)
    ensures SoundRef(cfg, u, cfg.DigestOf(st), left)
  {
  }

  /** What doit makes of the entry `p` and the store name `slot`, whatever fails. */
  ghost predicate DoneRight(cfg: Config, before: Fs, after: Fs, p: Path, slot: Path, tmp: Path, v: Visit,
                            r: UnifyResult)
    requires before.Valid() && after.Valid() && p in before.names
  {
    var st := before.At(p);
    && (cfg.dryRun ==> r == Done && after == before)
    && (slot !in before.names && slot in after.names ==> LeftBehind(cfg, st, after.At(slot), v))
    && (r == Done && !cfg.dryRun ==>
          && p in after.names && slot in after.names && after.names[p] == after.names[slot]
          && ((slot in before.names ==> before.At(slot).content == st.content) ==>
                SameView(st, after.At(p), cfg.ignoreMtime)))
    && (r == Failed ==> KeptOrGone(before, after, p, v.unify))
    && (r == Failed && slot !in before.names && slot in after.names ==> v.cleanup)
    && (r == Fatal ==>
          v.unify.restore && p !in after.names && tmp in after.names && after.names[tmp] == before.names[p])
    && Tidied(before, after, tmp, v.unify, r)
    && (r == Done && !cfg.dryRun ==>
          && OnlyLocks(before, after, after.names[p])
          // the inode is that of the reference; without one it is a copy while guests run, and else the entry's own
          && if slot in before.names then after.names[p] == before.names[slot]
             else if cfg.running then after.names[p] !in before.inodes
             else after.names[p] == before.names[p])
    // when nothing fails; an accepted reference only needs the link
    && (Calm(before, v, |st.content|) && tmp == TempName(v.path, v.suffix) ==> r == Done)
    && (slot in before.names && Smooth(v.unify) && tmp !in before.names ==> r == Done)
    // when a copy is cut short and stays
    && (slot !in before.names && LeavesCopy(cfg, v) && !ContentOk(|st.content|, v.copy) ==>
          && r == Failed && p in after.names && after.At(p) == st
          && slot in after.names && after.At(slot) == CopiedInode(st, cfg.who, v.copy))
  }

  /** `before` is the state before resolveCollisions, whose answer is `slot` and `refSize`. */
  method DoIt(cfg: Config, disk: Disk, p: Path, st: Inode, slot: Path, refSize: nat, tmp: Path, v: Visit,
              ghost before: Fs) returns (r: UnifyResult)
    requires before.Valid() && p in before.names && before.At(p) == st && tmp != p && tmp != slot && p != slot
    requires st.kind == Regular && |st.content| >= HASH_MINSIZE && SizeSays(cfg, before, st, slot, refSize)
    requires disk.fs == if slot !in before.names && !cfg.dryRun then Created(before, slot, NewFile(cfg.who)) else before
    modifies disk
    ensures Frame(before, disk.fs, p, slot, tmp) && DoneRight(cfg, before, disk.fs, p, slot, tmp, v, r)
  {
    if cfg.dryRun { return Done; }
    MarkerNeverClashes(cfg, before, st, slot, refSize);
    if refSize == 0 {
      hide *;
      if cfg.running {
        r := FillByCopy(cfg, disk, p, slot, tmp, v, before);
      } else {
        r := FillByLink(cfg, disk, p, slot, tmp, v, before);
      }
    } else {
      hide Frame, LeftBehind, CopiedInode;
      r := LinkGuest(disk, slot, p, tmp, v.unify);
      AcceptedView(cfg, before, disk.fs, p, slot, tmp);
    }
  }

  lemma AcceptedView(cfg: Config, before: Fs, after: Fs, p: Path, slot: Path, tmp: Path)
    requires before.Valid() && p in before.names && slot in before.names && p != slot
    requires Frame(before, after, p, slot, tmp)
    requires Accepts(KeyOf(before.At(p), cfg.ignoreMtime), before.At(slot), cfg.ignoreMtime)
    ensures after.Valid() && slot in after.names && after.names[slot] == before.names[slot]
    ensures before.At(slot).content == before.At(p).content ==> SameView(before.At(p), after.At(slot), cfg.ignoreMtime)
  {
  }

  method FillByCopy(cfg: Config, disk: Disk, p: Path, slot: Path, tmp: Path, v: Visit, ghost before: Fs)
    returns (r: UnifyResult)
    requires before.Valid() && p in before.names && before.At(p).kind == Regular && slot !in before.names
    requires tmp != p && tmp != slot && p != slot && !cfg.dryRun && cfg.running
    requires disk.fs == Created(before, slot, NewFile(cfg.who))
    modifies disk
    ensures Frame(before, disk.fs, p, slot, tmp) && DoneRight(cfg, before, disk.fs, p, slot, tmp, v, r)
  {
    ghost var st := before.At(p);
    MarkerAside(before, slot, NewFile(cfg.who), p);
    r := CopyThenLink(cfg, disk, p, disk.fs.At(p), slot, tmp, v, before);
    hide Frame;
    if r == Done { SameDataSameContent(disk.fs.At(slot), st); }
  }

  method FillByLink(cfg: Config, disk: Disk, p: Path, slot: Path, tmp: Path, v: Visit, ghost before: Fs)
    returns (r: UnifyResult)
    requires before.Valid() && p in before.names && before.At(p).kind == Regular && slot !in before.names
    requires tmp != p && tmp != slot && p != slot && !cfg.dryRun && !cfg.running
    requires disk.fs == Created(before, slot, NewFile(cfg.who))
    modifies disk
    ensures Frame(before, disk.fs, p, slot, tmp) && DoneRight(cfg, before, disk.fs, p, slot, tmp, v, r)
  {
    assert |TempName(slot, v.suffix)| > |slot|;
    r := LinkIntoStore(cfg, disk, p, slot, TempName(slot, v.suffix), tmp, v, before);
    SameData(before, disk.fs, p);
  }

  lemma MarkerAside(fs: Fs, slot: Path, marker: Inode, p: Path)
    requires fs.Valid() && slot !in fs.names && p in fs.names
    ensures var now := Created(fs, slot, marker); now.Valid() && p in now.names && now.At(p) == fs.At(p)
  {
  }
}
