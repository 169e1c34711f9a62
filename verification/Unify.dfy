/** Unify_unify: replace the file `dst` by a hard link to `src`, keeping a backup
    of `dst` until the link exists. */
module Unify {
  import opened FileSystem
  import opened Optional

  /** Which calls the environment makes fail, in program order. */
  datatype UnifyFaults = UnifyFaults(lock: bool, stat: bool, mask: bool, mkstemp: bool, backup: bool,
                                     unlinkEmpty: bool, link: bool, unlinkNew: bool,
                                     restore: bool, cleanup: bool)

  /** `Fatal` is the call to _exit after a failed restore. */
  datatype UnifyResult = Done | Failed | Fatal

  // ---- what a call amounts to, said without its steps ----

  /** All that the outcome depends on besides the faults: whether the two names exist
      and differ, and whether an existing `dst` is moved aside. */
  datatype Situation = Situation(srcExists: bool, dstExists: bool, distinct: bool, backsUp: bool)

  /** `dst` is moved aside unless its lstat fails, or it is empty and the caller said
      that empty files do not matter. */
  function Before(fs: Fs, src: Path, dst: Path, ignoreZero: bool, f: UnifyFaults): Situation
    requires fs.Valid()
  {
    Situation(src in fs.names, dst in fs.names, src != dst,
              dst in fs.names && !f.stat && (|fs.At(dst).content| > 0 || !ignoreZero))
  }

  predicate Prepared(s: Situation, f: UnifyFaults) {
    s.srcExists && !f.lock && !f.mask && (s.backsUp ==> !f.mkstemp && !f.backup)
  }

  /** link(2) finds its target name free. */
  predicate TargetFree(s: Situation, f: UnifyFaults) {
    s.dstExists ==> s.backsUp || (!f.stat && !f.unlinkEmpty)
  }

  function Outcome(s: Situation, f: UnifyFaults): UnifyResult {
    if Prepared(s, f) && s.distinct && !f.link && TargetFree(s, f) then Done
    else if Prepared(s, f) && s.backsUp && f.restore then Fatal
    else Failed
  }

  /** The one way in which a failed call leaves an existing `dst` without a name: there
      was no backup, and one of the two unlinks of `dst` worked. */
  predicate Drops(s: Situation, f: UnifyFaults) {
    s.dstExists && Prepared(s, f) && !s.backsUp && (!f.unlinkNew || (!f.stat && !f.unlinkEmpty))
  }

  /** The inode that `dst` names afterwards, if any. */
  function TargetAfter(fs: Fs, src: Path, dst: Path, s: Situation, f: UnifyFaults): Option<nat> {
    match Outcome(s, f)
    case Done => if src in fs.names then Some(fs.names[src]) else None
    case Fatal => None
    case Failed => if dst in fs.names && !Drops(s, f) then Some(fs.names[dst]) else None
  }

  /** The inode that the temporary name is left with: normally none. */
  function TempAfter(fs: Fs, dst: Path, tmp: Path, s: Situation, f: UnifyFaults): Option<nat> {
    if tmp in fs.names then Some(fs.names[tmp]) else
    match Outcome(s, f)
    case Done => if s.backsUp && f.cleanup && dst in fs.names then Some(fs.names[dst]) else None
    case Fatal => if dst in fs.names then Some(fs.names[dst]) else None
    case Failed =>
      if s.srcExists && !f.lock && !f.mask && s.backsUp && !f.mkstemp && f.backup && f.cleanup
      then Some(fs.next) else None
  }

  function WithEntry(names: map<Path, nat>, p: Path, entry: Option<nat>): map<Path, nat> {
    if entry.Some? then names[p := entry.value] else names - {p}
  }

  /** The empty file that mkstemp(3) makes. */
  const EMPTY_TEMP := Inode(Regular, 384, 0, 0, 0, [], false)

  function NamesAfter(fs: Fs, src: Path, dst: Path, tmp: Path, s: Situation, f: UnifyFaults): map<Path, nat> {
    WithEntry(WithEntry(fs.names, dst, TargetAfter(fs, src, dst, s, f)), tmp, TempAfter(fs, dst, tmp, s, f))
  }

  function UnifiedFs(fs: Fs, src: Path, dst: Path, ignoreZero: bool, tmp: Path, f: UnifyFaults): Fs
    requires fs.Valid()
  {
    var s := Before(fs, src, dst, ignoreZero, f);
    var names := NamesAfter(fs, src, dst, tmp, s, f);
    if f.lock || src !in fs.names then Fs(names, fs.inodes, fs.next)
    else if !f.mask && s.backsUp && !f.mkstemp
    then Fs(names, Locked(fs, src).inodes[fs.next := EMPTY_TEMP], fs.next + 1)
    else Fs(names, Locked(fs, src).inodes, fs.next)
  }

  lemma SameNames(before: map<Path, nat>, after: map<Path, nat>, dst: Path, tmp: Path,
                  target: Option<nat>, temp: Option<nat>)
    requires tmp != dst
    requires forall p :: p != dst && p != tmp ==>
      (p in before <==> p in after) && (p in before ==> after[p] == before[p])
    requires dst in after <==> target.Some?
    requires dst in after ==> after[dst] == target.value
    requires tmp in after <==> temp.Some?
    requires tmp in after ==> after[tmp] == temp.value
    ensures after == WithEntry(WithEntry(before, dst, target), tmp, temp)
  {
  }

  // ---- the same, said of the two names, their inodes and the faults alone ----

  /** When the call succeeds, and when its exit is fatal, which takes a restoring rename that fails. */
  ghost predicate ResultRight(fs: Fs, src: Path, dst: Path, ignoreZero: bool, f: UnifyFaults, r: UnifyResult)
    requires fs.Valid()
  {
    && (r == Done <==>
          && src in fs.names && src != dst && !f.lock && !f.mask && !f.link
          && (dst in fs.names ==>
                !f.stat && if fs.At(dst).content == [] && ignoreZero then !f.unlinkEmpty else !f.mkstemp && !f.backup))
    && (r == Fatal <==>
          && f.restore && src in fs.names && !f.lock && !f.mask && (f.link || src == dst)
          && dst in fs.names && !f.stat && !(fs.At(dst).content == [] && ignoreZero) && !f.mkstemp && !f.backup)
  }

  /** What the names are then. */
  ghost predicate NamesRight(fs: Fs, out: Fs, src: Path, dst: Path, ignoreZero: bool, tmp: Path, f: UnifyFaults,
                             r: UnifyResult)
    requires fs.Valid()
  {
    && (forall p :: p != dst && p != tmp ==>
          (p in out.names <==> p in fs.names) && (p in fs.names ==> out.names[p] == fs.names[p]))
    && (r == Done ==> src in fs.names && dst in out.names && out.names[dst] == fs.names[src])
    // a target that exists, and that lstat finds and the caller cares for, is never lost by a failure
    && (r == Failed && dst in fs.names && !f.stat && (fs.At(dst).content != [] || !ignoreZero) ==> dst in out.names)
    && (r == Failed && dst in out.names ==> dst in fs.names && out.names[dst] == fs.names[dst])
    // otherwise it is lost exactly if one of the unlinks works
    && (r == Failed && dst in fs.names && (f.stat || (fs.At(dst).content == [] && ignoreZero)) ==>
          (dst !in out.names <==>
             src in fs.names && !f.lock && !f.mask && (!f.unlinkNew || (!f.stat && !f.unlinkEmpty))))
    // the temporary name is gone if its unlink works, but a fatal exit leaves the file there
    && (r != Fatal && !f.cleanup && tmp !in fs.names ==> tmp !in out.names)
    && (tmp in fs.names ==> tmp in out.names && out.names[tmp] == fs.names[tmp])
    && (r == Fatal ==>
          dst in fs.names && dst !in out.names && tmp in out.names && out.names[tmp] == fs.names[dst])
  }

  /** No inode goes, and none changes but `src`, whose flags are set unless that fails; at most the
      empty temporary file is new. */
  ghost predicate InodesRight(fs: Fs, out: Fs, src: Path, f: UnifyFaults) {
    && (forall i :: i in fs.inodes ==>
          i in out.inodes && (out.inodes[i] == fs.inodes[i] || (src in fs.names && i == fs.names[src] && !f.lock)))
    && (src in fs.names && fs.names[src] in fs.inodes && !f.lock ==>
          out.inodes[fs.names[src]] == fs.inodes[fs.names[src]].(locked := true))
    && (forall i :: i in out.inodes && i !in fs.inodes ==>
          i == fs.next && out.inodes[i] == Inode(Regular, 0x180, 0, 0, 0, [], false))
  }

  ghost predicate CallRight(fs: Fs, out: Fs, src: Path, dst: Path, ignoreZero: bool, tmp: Path, f: UnifyFaults,
                            r: UnifyResult)
    requires fs.Valid()
  {
    && ResultRight(fs, src, dst, ignoreZero, f, r)
    && NamesRight(fs, out, src, dst, ignoreZero, tmp, f, r)
    && InodesRight(fs, out, src, f)
  }

  lemma InPlainTerms(fs: Fs, src: Path, dst: Path, ignoreZero: bool, tmp: Path, f: UnifyFaults)
    requires fs.Valid() && tmp != dst && (tmp in fs.names ==> f.mkstemp)
    ensures CallRight(fs, UnifiedFs(fs, src, dst, ignoreZero, tmp, f), src, dst, ignoreZero, tmp, f,
                      Outcome(Before(fs, src, dst, ignoreZero, f), f))
  {
    hide ResultRight, NamesRight, InodesRight, UnifiedFs, Before, Outcome;
    PlainResult(fs, src, dst, ignoreZero, f);
    PlainNames(fs, src, dst, ignoreZero, tmp, f);
    PlainInodes(fs, src, dst, ignoreZero, tmp, f);
  }

  lemma PlainResult(fs: Fs, src: Path, dst: Path, ignoreZero: bool, f: UnifyFaults)
    requires fs.Valid()
    ensures ResultRight(fs, src, dst, ignoreZero, f, Outcome(Before(fs, src, dst, ignoreZero, f), f))
  {
  }

  lemma PlainInodes(fs: Fs, src: Path, dst: Path, ignoreZero: bool, tmp: Path, f: UnifyFaults)
    requires fs.Valid() && tmp != dst && (tmp in fs.names ==> f.mkstemp)
    ensures InodesRight(fs, UnifiedFs(fs, src, dst, ignoreZero, tmp, f), src, f)
  {
    hide NamesAfter;
  }

  lemma PlainNames(fs: Fs, src: Path, dst: Path, ignoreZero: bool, tmp: Path, f: UnifyFaults)
    requires fs.Valid() && tmp != dst && (tmp in fs.names ==> f.mkstemp)
    ensures NamesRight(fs, UnifiedFs(fs, src, dst, ignoreZero, tmp, f), src, dst, ignoreZero, tmp, f,
                       Outcome(Before(fs, src, dst, ignoreZero, f), f))
  {
  }

  // ---- the steps ----

  /** lib_internal/unify-unify.c:56-93: move `dst` aside, or unlink it when it is empty. */
  method SetAside(disk: Disk, src: Path, dst: Path, ignoreZero: bool, tmp: Path, f: UnifyFaults)
    returns (hasTmp: bool, ok: bool)
    requires disk.fs.Valid()
    requires tmp != dst && (tmp in disk.fs.names ==> f.mkstemp)
    modifies disk
    ensures var s := Before(old(disk.fs), src, dst, ignoreZero, f);
      && hasTmp == (s.backsUp && !f.mkstemp)
      && ok == (s.backsUp ==> !f.mkstemp && !f.backup)
      && (hasTmp ==> disk.fs.inodes == old(disk.fs).inodes[old(disk.fs).next := EMPTY_TEMP])
      && (hasTmp ==> disk.fs.next == old(disk.fs).next + 1)
      && (hasTmp && ok ==> disk.fs.names == (old(disk.fs).names - {dst})[tmp := old(disk.fs).names[dst]])
      && (hasTmp && !ok ==> disk.fs.names == old(disk.fs).names[tmp := old(disk.fs).next])
      && (!hasTmp ==> disk.fs == if ok && TargetFree(s, f) then Unlinked(old(disk.fs), dst) else old(disk.fs))
  {
    hasTmp, ok := false, true;
    var statOk := !f.stat && dst in disk.fs.names;
    if statOk && (|disk.fs.At(dst).content| > 0 || !ignoreZero) {
      hasTmp := disk.Create(tmp, EMPTY_TEMP, f.mkstemp);
      if !hasTmp { return false, false; }
      ok := disk.Rename(dst, tmp, f.backup);
    } else if statOk {
      var _ := disk.Unlink(dst, f.unlinkEmpty);
    }
  }

  /** lib_internal/unify-unify.c:95-108: link, or put the backup back. */
  method LinkOrRestore(disk: Disk, src: Path, dst: Path, hasTmp: bool, tmp: Path, f: UnifyFaults)
    returns (r: UnifyResult)
    requires hasTmp ==> tmp in disk.fs.names && tmp != dst && dst !in disk.fs.names
    modifies disk
    ensures disk.fs.inodes == old(disk.fs).inodes && disk.fs.next == old(disk.fs).next
    ensures r == Done <==> !f.link && src in old(disk.fs).names && dst !in old(disk.fs).names
    ensures r == Done ==> disk.fs.names == old(disk.fs).names[dst := old(disk.fs).names[src]]
    ensures r == Fatal <==> r != Done && hasTmp && f.restore
    ensures r == Fatal ==> disk.fs == old(disk.fs)
    ensures r == Failed && hasTmp ==> disk.fs.names == (old(disk.fs).names - {tmp})[dst := old(disk.fs).names[tmp]]
    ensures r == Failed && !hasTmp ==> disk.fs == if f.unlinkNew then old(disk.fs) else Unlinked(old(disk.fs), dst)
  {
    var ok := disk.Link(src, dst, f.link);
    if ok { return Done; }
    ok := disk.Unlink(dst, f.unlinkNew);
    if hasTmp {
      ok := disk.Rename(tmp, dst, f.restore);
      if !ok { return Fatal; }
    }
    return Failed;
  }

  /** lib_internal/unify-unify.c:56-120, once `src` is locked and signals are blocked. */
  method ReplaceTarget(disk: Disk, src: Path, dst: Path, ignoreZero: bool, tmp: Path, f: UnifyFaults)
    returns (r: UnifyResult)
    requires disk.fs.Valid()
    requires src in disk.fs.names && tmp != dst && (tmp in disk.fs.names ==> f.mkstemp)
    requires !f.lock && !f.mask
    modifies disk
    ensures var s := Before(old(disk.fs), src, dst, ignoreZero, f);
      && r == Outcome(s, f)
      && disk.fs.names == NamesAfter(old(disk.fs), src, dst, tmp, s, f)
      && disk.fs.next == (if s.backsUp && !f.mkstemp then old(disk.fs).next + 1 else old(disk.fs).next)
      && disk.fs.inodes == (if s.backsUp && !f.mkstemp then old(disk.fs).inodes[old(disk.fs).next := EMPTY_TEMP]
                            else old(disk.fs).inodes)
  {
    ghost var s := Before(disk.fs, src, dst, ignoreZero, f);
    var hasTmp, ok := SetAside(disk, src, dst, ignoreZero, tmp, f);
    if !ok {
      if hasTmp { ok := disk.Unlink(tmp, f.cleanup); }
      SameNames(old(disk.fs).names, disk.fs.names, dst, tmp,
              TargetAfter(old(disk.fs), src, dst, s, f), TempAfter(old(disk.fs), dst, tmp, s, f));
      return Failed;
    }
    r := LinkOrRestore(disk, src, dst, hasTmp, tmp, f);
    assert r == Outcome(s, f);
    if hasTmp && r != Fatal { ok := disk.Unlink(tmp, f.cleanup); }
    SameNames(old(disk.fs).names, disk.fs.names, dst, tmp,
              TargetAfter(old(disk.fs), src, dst, s, f), TempAfter(old(disk.fs), dst, tmp, s, f));
  }

  method UnifyFiles(disk: Disk, src: Path, dst: Path, ignoreZero: bool, tmp: Path, f: UnifyFaults)
    returns (r: UnifyResult)
    requires disk.fs.Valid()
    requires tmp != dst && (tmp in disk.fs.names ==> f.mkstemp)  // mkstemp(3) finds an unused name or fails
    modifies disk
    ensures r == Outcome(Before(old(disk.fs), src, dst, ignoreZero, f), f)
    ensures disk.fs == UnifiedFs(old(disk.fs), src, dst, ignoreZero, tmp, f)
    ensures CallRight(old(disk.fs), disk.fs, src, dst, ignoreZero, tmp, f, r)
  {
    hide CallRight;
    ghost var s := Before(disk.fs, src, dst, ignoreZero, f);
    InPlainTerms(disk.fs, src, dst, ignoreZero, tmp, f);
    var ok := disk.Lock(src, f.lock);
    if !ok || f.mask {
      SameNames(old(disk.fs).names, disk.fs.names, dst, tmp,
              TargetAfter(old(disk.fs), src, dst, s, f), TempAfter(old(disk.fs), dst, tmp, s, f));
      return Failed;
    }
    assert Before(disk.fs, src, dst, ignoreZero, f) == s;
    r := ReplaceTarget(disk, src, dst, ignoreZero, tmp, f);
  }

  // ---- what is promised ----

  /** Everything of an inode but its flags. */
  function Data(node: Inode): Inode {
    node.(locked := false)
  }

  /** No inode disappears and none changes in anything but its flags. */
  ghost predicate DataKept(before: Fs, after: Fs) {
    forall i :: i in before.inodes ==> i in after.inodes && Data(after.inodes[i]) == Data(before.inodes[i])
  }

  ghost predicate SameEntry(before: Fs, after: Fs, p: Path) {
    && (p in before.names <==> p in after.names)
    && (p in before.names ==> after.names[p] == before.names[p])
  }

  /** What becomes of the two names. */
  ghost predicate NamesPromise(fs: Fs, out: Fs, src: Path, dst: Path, tmp: Path, s: Situation, f: UnifyFaults) {
    match Outcome(s, f)
    case Done =>
      && src in fs.names && dst in out.names && out.names[dst] == fs.names[src]
      && (!f.cleanup ==> SameEntry(fs, out, tmp))
    case Failed =>
      && (SameEntry(fs, out, dst) <==> !Drops(s, f))
      && (Drops(s, f) ==> dst in fs.names && dst !in out.names)
      && (!f.cleanup ==> SameEntry(fs, out, tmp))
    case Fatal =>
      && dst in fs.names && dst !in out.names
      && tmp in out.names && out.names[tmp] == fs.names[dst]
  }

  lemma KeepsNames(fs: Fs, src: Path, dst: Path, ignoreZero: bool, tmp: Path, f: UnifyFaults)
    requires fs.Valid() && tmp != dst && (tmp in fs.names ==> f.mkstemp)
    ensures var out := UnifiedFs(fs, src, dst, ignoreZero, tmp, f);
      var s := Before(fs, src, dst, ignoreZero, f);
      && (forall p :: p != dst && p != tmp ==> SameEntry(fs, out, p))
      && NamesPromise(fs, out, src, dst, tmp, s, f)
      && (tmp !in fs.names && tmp in out.names ==>
            dst in fs.names && TempAfter(fs, dst, tmp, s, f) == Some(out.names[tmp]))
      && (dst in out.names ==> out.names[dst] in fs.inodes)
      && (!s.backsUp ==> SameEntry(fs, out, tmp))
  {
  }

  lemma KeepsInodes(fs: Fs, src: Path, dst: Path, ignoreZero: bool, tmp: Path, f: UnifyFaults)
    requires fs.Valid() && tmp != dst && (tmp in fs.names ==> f.mkstemp)
    ensures var out := UnifiedFs(fs, src, dst, ignoreZero, tmp, f);
      var s := Before(fs, src, dst, ignoreZero, f);
      && DataKept(fs, out) && (forall i :: i in out.inodes ==> i < out.next)
      && (Outcome(s, f) == Done ==> fs.names[src] in out.inodes && out.inodes[fs.names[src]].locked)
      && (tmp !in fs.names && TempAfter(fs, dst, tmp, s, f).Some? ==>
            dst in fs.names &&
            (TempAfter(fs, dst, tmp, s, f) == Some(fs.names[dst])
             || (TempAfter(fs, dst, tmp, s, f) == Some(fs.next)
                 && fs.next in out.inodes && out.inodes[fs.next] == EMPTY_TEMP)))
  {
    var out := UnifiedFs(fs, src, dst, ignoreZero, tmp, f);
    if src in fs.names {
      var locked := Locked(fs, src);
      assert || out.inodes == fs.inodes || out.inodes == locked.inodes
             || out.inodes == locked.inodes[fs.next := EMPTY_TEMP];
    }
  }

  /** Unify_unify is all-or-nothing: no third name and no inode's data changes; on success
      `dst` is `src`'s inode, locked; on failure it is its own inode still, except exactly in
      the case `Drops`; the temporary name stays only if its cleanup fails, and holds the old
      `dst` or an empty file; and the fatal exit leaves the old `dst` under the temporary name. */
  lemma AllOrNothing(fs: Fs, src: Path, dst: Path, ignoreZero: bool, tmp: Path, f: UnifyFaults)
    requires fs.Valid() && tmp != dst && (tmp in fs.names ==> f.mkstemp)
    ensures var out := UnifiedFs(fs, src, dst, ignoreZero, tmp, f);
      var s := Before(fs, src, dst, ignoreZero, f);
      && out.Valid() && DataKept(fs, out)
      && CallRight(fs, out, src, dst, ignoreZero, tmp, f, Outcome(s, f))
      && (forall p :: p != dst && p != tmp ==> SameEntry(fs, out, p))
      && NamesPromise(fs, out, src, dst, tmp, s, f)
      && (!s.backsUp ==> SameEntry(fs, out, tmp))
      && (Outcome(s, f) == Done ==> dst in out.names && out.At(dst).locked)
      && (tmp !in fs.names && tmp in out.names ==>
            dst in fs.names && (out.names[tmp] == fs.names[dst] || out.At(tmp) == EMPTY_TEMP))
  {
    KeepsNames(fs, src, dst, ignoreZero, tmp, f);
    KeepsInodes(fs, src, dst, ignoreZero, tmp, f);
    InPlainTerms(fs, src, dst, ignoreZero, tmp, f);
    hide CallRight;
    var out := UnifiedFs(fs, src, dst, ignoreZero, tmp, f);
    forall p | p in out.names ensures out.names[p] in out.inodes {
      if p != dst && p != tmp { assert SameEntry(fs, out, p); }
    }
  }

  /** A caller who does not pass `ignoreZero` can lose `dst` only through a failing lstat
      on a file that exists; with a working lstat the old file is always kept. */
  lemma OnlyAFailedStatDrops(fs: Fs, src: Path, dst: Path, f: UnifyFaults)
    requires fs.Valid() && dst in fs.names
    ensures var s := Before(fs, src, dst, false, f);
      Drops(s, f) <==> f.stat && src in fs.names && !f.lock && !f.mask && !f.unlinkNew
  {
  }

  /** The promise "on failure `dst` is untouched" is false as it stands: lstat("b") fails
      although "b" exists, link(2) then reports EEXIST, and the clean-up unlinks "b". */
  lemma AFailedStatLosesTheFile()
    ensures var node := Inode(Regular, 420, 0, 0, 0, [1], false);
      var fs := Fs(map["a" := 0, "b" := 1], map[0 := node, 1 := node], 2);
      var f := UnifyFaults(false, true, false, false, false, false, false, false, false, false);
      && fs.Valid()
      && Outcome(Before(fs, "a", "b", false, f), f) == Failed
      && UnifiedFs(fs, "a", "b", false, "b;x", f).names == map["a" := 0]
  {
  }
}
