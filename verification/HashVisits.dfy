/** vhashify: visits of directory entries. */
module HashVisits {
  import opened FileSystem
  import opened Sets
  import opened Unify
  import opened UnifyCopy
  import opened HashStore
  import opened Hashify

  // ---- one entry ----

  /** checkDirEntry up to the hash: which entries are left alone, and why. */
  function CheckEntry(cfg: Config, fs: Fs, v: Visit): (r: VisitResult)
    requires fs.Valid()
    ensures r == Unified <==>
      && v.path in fs.names && fs.At(v.path).kind == Regular && |fs.At(v.path).content| >= 16
      && !(v.excluded || v.stat || v.unsupported || v.wrongDevice || v.hashFails)
      && (fs.At(v.path).locked && fs.LinkCount(fs.names[v.path]) > 1 ==> cfg.refresh)
  {
    if v.excluded then Skipped(Excluded)
    else if v.stat || v.path !in fs.names then Skipped(FstatError)
    else
      var st := fs.At(v.path);
      if st.kind == Directory then IsDirectory
      else if st.kind == Symlink then Skipped(IsSymlink)
      else if st.kind != Regular then Skipped(NotRegular)
      else if |st.content| < HASH_MINSIZE then Skipped(TooSmall)
      else if v.unsupported then Skipped(Unsupported)
      else if st.locked && fs.LinkCount(fs.names[v.path]) > 1 && !cfg.refresh then Skipped(Busy)
      else if v.wrongDevice then Skipped(WrongDevice)
      else if v.hashFails then Skipped(GeneralError)
      else Unified
  }

  /** The search for a store name gives up, or finds that the entry is in the store already. */
  ghost predicate SearchFails(cfg: Config, fs: Fs, v: Visit)
    requires fs.Valid() && v.path in fs.names
  {
    var st := fs.At(v.path);
    var d := cfg.DigestOf(st);
    exists i :: Reaches(cfg, fs, fs.names[v.path], st, d, v, i) && GivesUp(cfg, fs, d, v, i)
  }

  ghost predicate SearchShares(cfg: Config, fs: Fs, v: Visit)
    requires fs.Valid() && v.path in fs.names
  {
    var st, ino := fs.At(v.path), fs.names[v.path];
    var d := cfg.DigestOf(st);
    exists i :: Reaches(cfg, fs, ino, st, d, v, i) && FindsItself(cfg, fs, ino, d, v, i)
  }

  /** The file is locked, as unified files are, and has another name. */
  ghost predicate LooksUnified(fs: Fs, p: Path)
    requires fs.Valid() && p in fs.names
  {
    fs.At(p).locked && exists q :: q in fs.names && q != p && fs.names[q] == fs.names[p]
  }

  /** When each answer is given. */
  ghost predicate AnswerRight(cfg: Config, fs: Fs, v: Visit, r: VisitResult)
    requires fs.Valid()
  {
    && (r == Skipped(Excluded) <==> v.excluded)
    && (r == Skipped(FstatError) <==> !v.excluded && (v.stat || v.path !in fs.names))
    && (!v.excluded && !v.stat && v.path in fs.names ==>
          var st := fs.At(v.path);
          var file := st.kind == Regular && |st.content| >= 16;
          var known := file && !v.unsupported;
          var hashed := known && (cfg.refresh || !LooksUnified(fs, v.path)) && !v.wrongDevice;
          var searched := hashed && !v.hashFails;
          && (r == IsDirectory <==> st.kind == Directory)
          && (r == Skipped(IsSymlink) <==> st.kind == Symlink)
          && (r == Skipped(NotRegular) <==> st.kind == Special)
          && (r == Skipped(TooSmall) <==> st.kind == Regular && |st.content| < 16)
          && (r == Skipped(Unsupported) <==> file && v.unsupported)
          && (r == Skipped(Busy) <==> known && !cfg.refresh && LooksUnified(fs, v.path))
          && (r == Skipped(WrongDevice) <==> known && (cfg.refresh || !LooksUnified(fs, v.path)) && v.wrongDevice)
          && (r == Skipped(GeneralError) <==> hashed && (v.hashFails || SearchFails(cfg, fs, v)))
          && (r == Skipped(Shared) <==> searched && SearchShares(cfg, fs, v))
          && (r == Unified || r == NotUnified || r == Aborted <==>
                searched && !SearchFails(cfg, fs, v) && !SearchShares(cfg, fs, v)))
  }

  lemma SeveralLinks(fs: Fs, p: Path)
    requires fs.Valid() && p in fs.names
    ensures fs.LinkCount(fs.names[p]) > 1 <==> exists q :: q in fs.names && q != p && fs.names[q] == fs.names[p]
  {
    var links := set q | q in fs.names && fs.names[q] == fs.names[p];
    assert |links| == 1 + |links - {p}|;
    if q :| q in fs.names && q != p && fs.names[q] == fs.names[p] { assert q in links - {p}; }
    if |links| > 1 { var q :| q in links - {p}; }
  }

  /** The checks before the search. */
  lemma CheckIsRight(cfg: Config, fs: Fs, v: Visit)
    requires fs.Valid() && CheckEntry(cfg, fs, v) != Unified
    ensures AnswerRight(cfg, fs, v, CheckEntry(cfg, fs, v))
  {
    hide SearchFails, SearchShares;
    if v.path in fs.names { SeveralLinks(fs, v.path); }
  }

  lemma SearchIsRight(cfg: Config, fs: Fs, v: Visit, r: VisitResult)
    requires fs.Valid() && CheckEntry(cfg, fs, v) == Unified
    requires r == Skipped(GeneralError) <==> SearchFails(cfg, fs, v)
    requires r == Skipped(Shared) <==> SearchShares(cfg, fs, v)
    requires r.Skipped? ==> r == Skipped(GeneralError) || r == Skipped(Shared)
    requires r != IsDirectory
    ensures AnswerRight(cfg, fs, v, r)
  {
    hide SearchFails, SearchShares;
    SeveralLinks(fs, v.path);
  }

  /** The state that every visit keeps. */
  ghost predicate Inv(cfg: Config, u: Universe, fs: Fs) {
    && cfg.Valid() && CollisionFree(cfg, u)
    && fs.Valid() && SoundStore(cfg, u, fs) && GuestsKnown(cfg, u, fs)
  }

  /** The names of a visit: an entry outside the store, and a suffix without slashes. */
  ghost predicate GoodNames(cfg: Config, v: Visit) {
    !cfg.inStore(v.path) && '/' !in v.suffix
  }

  /** The failures of a visit do no harm to the store: what they leave behind cannot be taken for the
      entry. */
  ghost predicate Harmless(cfg: Config, fs: Fs, v: Visit)
    requires fs.Valid()
  {
    CheckEntry(cfg, fs, v) == Unified ==> !Poisons(cfg, fs.At(v.path), v)
  }

  lemma BecomesPlaced(cfg: Config, before: Fs, after: Fs, p: Path, st: Inode, idx: nat, tmp: Path)
    requires cfg.Valid() && before.Valid() && p in before.names && before.At(p) == st && idx < MAX_INDEX
    requires !cfg.inStore(p)
    requires Frame(before, after, p, cfg.name(cfg.DigestOf(st), idx), tmp)
    requires forall j :: 0 <= j < idx ==> Passed(cfg, before, before.names[p], st, cfg.DigestOf(st), j)
    requires p in after.names && cfg.name(cfg.DigestOf(st), idx) in after.names
    requires after.names[p] == after.names[cfg.name(cfg.DigestOf(st), idx)]
    requires SameView(st, after.At(p), cfg.ignoreMtime)
    ensures Placed(cfg, after, p)
  {
    var d := cfg.DigestOf(st);
    assert KeyOf(after.At(p), cfg.ignoreMtime) == KeyOf(st, cfg.ignoreMtime);
    forall j | 0 <= j < idx ensures Taken(cfg, after, after.At(p), d, j) {
      assert Passed(cfg, before, before.names[p], st, d, j) && cfg.IsSlot(d, j);
      SameData(before, after, cfg.name(d, j));
    }
    assert AtSlot(cfg, after, p, idx);
  }

  /** The visit may have taken away the name of its entry: a fatal exit, or a failed link that the
      failures did not spare the entry from. */
  predicate TakesAway(v: Visit, r: VisitResult) {
    r == Aborted || (r == NotUnified && !Spares(v.unify))
  }

  /** What a visit does to its own entry: it either stays as it is or becomes a link into the
      store that reads the same, unless its name is taken away, and it is placed whenever the
      program says so; a fatal exit leaves the file under its temporary name. */
  ghost predicate EntryPromise(cfg: Config, before: Fs, after: Fs, v: Visit, r: VisitResult)
    requires before.Valid() && after.Valid()
  {
    var p, tmp := v.path, TempName(v.path, v.suffix);
    && (|| SameEntry(before, after, p)
        || (p in before.names && Placed(cfg, after, p) && SameView(before.At(p), after.At(p), cfg.ignoreMtime))
        || (TakesAway(v, r) && p !in after.names))
    && ((r == Unified && !cfg.dryRun) || r == Skipped(Shared) ==> Placed(cfg, after, p))
    && (r == Aborted ==>
          && v.unify.restore && p in before.names && p !in after.names
          && tmp in after.names && after.names[tmp] == before.names[p])
  }

  lemma FrameOfNothing(fs: Fs, p: Path, slot: Path, tmp: Path)
    requires fs.Valid()
    ensures Frame(fs, fs, p, slot, tmp)
  {
  }

  ghost function SlotOf(cfg: Config, fs: Fs, v: Visit, idx: nat): Path
    requires fs.Valid() && v.path in fs.names
  {
    cfg.name(cfg.DigestOf(fs.At(v.path)), idx)
  }

  /** What an attempt to unify an entry amounts to, with the store name at `idx`, whatever fails. */
  ghost predicate Attempt(cfg: Config, before: Fs, after: Fs, v: Visit, idx: nat, r: VisitResult)
    requires before.Valid() && v.path in before.names
  {
    var p, slot, tmp := v.path, SlotOf(cfg, before, v, idx), TempName(v.path, v.suffix);
    var st, ino := before.At(p), before.names[p];
    && idx < MAX_INDEX && Frame(before, after, p, slot, tmp)
    && (r != Skipped(GeneralError) ==>
          forall j :: 0 <= j < idx ==> Passed(cfg, before, ino, st, cfg.DigestOf(st), j))
    && (r.Skipped? || cfg.dryRun ==> after == before)
    && (slot !in before.names && slot in after.names ==> LeftBehind(cfg, st, after.At(slot), v))
    && (!r.Skipped? && slot in before.names ==> Accepts(KeyOf(st, cfg.ignoreMtime), before.At(slot), cfg.ignoreMtime))
    && match r
       case Skipped(reason) =>
         reason == GeneralError || (reason == Shared && slot in before.names && before.names[slot] == ino)
       case Unified =>
         cfg.dryRun || (
           && p in after.names && slot in after.names && after.names[p] == after.names[slot]
           && (if slot in before.names then after.names[p] == before.names[slot]
               else if cfg.running then after.names[p] !in before.inodes
               else after.names[p] == ino)
           && OnlyLocks(before, after, after.names[p])
           && (!v.unify.cleanup && tmp !in before.names ==> tmp !in after.names)
           && ((slot in before.names ==> before.At(slot).content == st.content) ==>
                 SameView(st, after.At(p), cfg.ignoreMtime)))
       case NotUnified =>
         KeptOrGone(before, after, p, v.unify) && (slot !in before.names && slot in after.names ==> v.cleanup)
       case Aborted => v.unify.restore && p !in after.names && tmp in after.names && after.names[tmp] == ino
       case IsDirectory => false
  }

  /** The first store name is free, or holds another inode that the entry is accepted against. */
  ghost predicate FirstIsFree(cfg: Config, fs: Fs, v: Visit)
    requires fs.Valid() && v.path in fs.names
  {
    SlotOf(cfg, fs, v, 0) !in fs.names
  }

  ghost predicate FirstIsTaken(cfg: Config, fs: Fs, v: Visit)
    requires fs.Valid() && v.path in fs.names
  {
    var slot := SlotOf(cfg, fs, v, 0);
    && slot in fs.names && fs.names[slot] != fs.names[v.path]
    && Accepts(KeyOf(fs.At(v.path), cfg.ignoreMtime), fs.At(slot), cfg.ignoreMtime)
  }

  /** A copy that is cut short and stays: the entry is as before, and the copy is under the first name. */
  ghost predicate CutCopyStays(cfg: Config, before: Fs, after: Fs, v: Visit, r: VisitResult)
    requires before.Valid() && v.path in before.names
  {
    var st, slot := before.At(v.path), SlotOf(cfg, before, v, 0);
    && r == NotUnified && after.Valid() && v.path in after.names && after.At(v.path) == st
    && slot in after.names && after.At(slot) == CopiedInode(st, cfg.who, v.copy)
  }

  /** How an attempt ends when it is known what fails. */
  ghost predicate Expected(cfg: Config, before: Fs, after: Fs, v: Visit, idx: nat, r: VisitResult)
    requires before.Valid() && v.path in before.names
  {
    var size := |before.At(v.path).content|;
    && (Calm(before, v, size) ==> r == Unified || r == Skipped(Shared))
    && (Quiet(v) && FirstIsFree(cfg, before, v) && LeavesCopy(cfg, v) && !ContentOk(size, v.copy) ==>
          CutCopyStays(cfg, before, after, v, r))
    && (Quiet(v) && FirstIsTaken(cfg, before, v) && Smooth(v.unify) && TempName(v.path, v.suffix) !in before.names ==>
          r == Unified && idx == 0)
  }

  function ResultOf(done: UnifyResult): VisitResult {
    match done case Done => Unified case Failed => NotUnified case Fatal => Aborted
  }

  lemma SkippingIsAttempt(cfg: Config, fs: Fs, v: Visit, at: Resolution)
    requires fs.Valid() && v.path in fs.names && !at.Slot? && (Quiet(v) ==> at != NoSlot)
    requires var st := fs.At(v.path); at.SharedSlot? ==>
      && at.idx < MAX_INDEX && SlotOf(cfg, fs, v, at.idx) in fs.names
      && fs.names[SlotOf(cfg, fs, v, at.idx)] == fs.names[v.path]
      && forall j :: 0 <= j < at.idx ==> Passed(cfg, fs, fs.names[v.path], st, cfg.DigestOf(st), j)
    ensures var r, idx := Skipped(if at.NoSlot? then GeneralError else Shared), if at.NoSlot? then 0 else at.idx;
      Attempt(cfg, fs, fs, v, idx, r) && Expected(cfg, fs, fs, v, idx, r)
  {
    FrameOfNothing(fs, v.path, SlotOf(cfg, fs, v, if at.NoSlot? then 0 else at.idx), TempName(v.path, v.suffix));
    hide Frame;
    var st := fs.At(v.path);
    assert at.SharedSlot? && at.idx > 0 ==> Passed(cfg, fs, fs.names[v.path], st, cfg.DigestOf(st), 0);
  }

  lemma DoingIsAttempt(cfg: Config, before: Fs, after: Fs, v: Visit, idx: nat, refSize: nat, done: UnifyResult)
    requires before.Valid() && v.path in before.names && idx < MAX_INDEX
    requires var p, slot, tmp, st := v.path, SlotOf(cfg, before, v, idx), TempName(v.path, v.suffix), before.At(v.path);
      && (forall j :: 0 <= j < idx ==> Passed(cfg, before, before.names[p], st, cfg.DigestOf(st), j))
      && SizeSays(cfg, before, st, slot, refSize)
      && Frame(before, after, p, slot, tmp) && DoneRight(cfg, before, after, p, slot, tmp, v, done)
    ensures Attempt(cfg, before, after, v, idx, ResultOf(done))
  {
  }

  lemma DoingIsExpected(cfg: Config, before: Fs, after: Fs, v: Visit, idx: nat, done: UnifyResult)
    requires before.Valid() && v.path in before.names && after.Valid()
    requires var p, slot, tmp, st := v.path, SlotOf(cfg, before, v, idx), TempName(v.path, v.suffix), before.At(v.path);
      && (forall j :: 0 <= j < idx ==> Passed(cfg, before, before.names[p], st, cfg.DigestOf(st), j))
      && DoneRight(cfg, before, after, p, slot, tmp, v, done)
    ensures Expected(cfg, before, after, v, idx, ResultOf(done))
  {
    hide LeftBehind, CopiedInode;
    var st := before.At(v.path);
    assert idx > 0 ==> Passed(cfg, before, before.names[v.path], st, cfg.DigestOf(st), 0);
  }

  /** resolveCollisions and doit on an entry that passed the checks. */
  method UnifyEntry(cfg: Config, disk: Disk, v: Visit) returns (r: VisitResult, ghost idx: nat)
    requires cfg.Valid() && disk.fs.Valid() && |disk.fs.names| < MAX_INDEX && GoodNames(cfg, v)
    requires CheckEntry(cfg, disk.fs, v) == Unified
    modifies disk
    ensures Attempt(cfg, old(disk.fs), disk.fs, v, idx, r) && Expected(cfg, old(disk.fs), disk.fs, v, idx, r)
    ensures AnswerRight(cfg, old(disk.fs), v, r)
  {
    hide AnswerRight;
    ghost var before := disk.fs;
    var p, tmp := v.path, TempName(v.path, v.suffix);
    assert |tmp| > |p|;
    var st, ino := disk.fs.At(p), disk.fs.names[p];
    var d := cfg.DigestOf(st);
    var at := ResolveCollisions(cfg, disk, st, ino, d, v);
    assert cfg.IsSlot(d, 0);
    idx := 0;
    if !at.Slot? {
      SkippingIsAttempt(cfg, before, v, at);
      idx := if at.NoSlot? then 0 else at.idx;
      SearchIsRight(cfg, before, v, Skipped(if at.NoSlot? then GeneralError else Shared));
      return Skipped(if at.NoSlot? then GeneralError else Shared), idx;
    }
    assert cfg.IsSlot(d, at.idx);
    idx := at.idx;
    var done := DoIt(cfg, disk, p, st, cfg.name(d, at.idx), at.refSize, tmp, v, before);
    DoingIsAttempt(cfg, before, disk.fs, v, idx, at.refSize, done);
    DoingIsExpected(cfg, before, disk.fs, v, idx, done);
    r := ResultOf(done);
    SearchIsRight(cfg, before, v, r);
  }

  /** An attempt without harm keeps the invariant and the entry's promise. */
  lemma AttemptKeeps(cfg: Config, u: Universe, before: Fs, after: Fs, v: Visit, idx: nat, r: VisitResult)
    requires Inv(cfg, u, before) && GoodNames(cfg, v) && CheckEntry(cfg, before, v) == Unified
    requires Harmless(cfg, before, v) && Attempt(cfg, before, after, v, idx, r)
    ensures Inv(cfg, u, after) && cfg.inStore(SlotOf(cfg, before, v, idx))
    ensures EntryPromise(cfg, before, after, v, r)
  {
    var p, tmp, slot := v.path, TempName(v.path, v.suffix), SlotOf(cfg, before, v, idx);
    var st := before.At(p);
    var d := cfg.DigestOf(st);
    assert cfg.IsSlot(d, idx);
    assert Known(cfg, u, st);
    if slot !in before.names && slot in after.names { LeftIsSound(cfg, u, st, after.At(slot), v); }
    if !r.Skipped? && slot in before.names {
      assert SoundRef(cfg, u, d, before.At(slot));
      assert before.At(slot).content == st.content by { assert (KeyOf(st, cfg.ignoreMtime), st.content) in u; }
    }
    if (r == Unified && !cfg.dryRun) || r == Skipped(Shared) { BecomesPlaced(cfg, before, after, p, st, idx, tmp); }
    SoundKept(cfg, u, before, after, p, d, idx, tmp);
    GuestsStayKnown(cfg, u, before, after, p, slot, tmp);
  }

  /** visitDirEntry: entries that fail a check are left alone; the others are attempted. */
  method VisitEntry(cfg: Config, disk: Disk, v: Visit) returns (r: VisitResult, ghost idx: nat)
    requires cfg.Valid() && disk.fs.Valid() && |disk.fs.names| < MAX_INDEX && GoodNames(cfg, v)
    modifies disk
    ensures CheckEntry(cfg, old(disk.fs), v) != Unified ==>
      r == CheckEntry(cfg, old(disk.fs), v) && disk.fs == old(disk.fs)
    ensures CheckEntry(cfg, old(disk.fs), v) == Unified ==>
      Attempt(cfg, old(disk.fs), disk.fs, v, idx, r) && Expected(cfg, old(disk.fs), disk.fs, v, idx, r)
    ensures AnswerRight(cfg, old(disk.fs), v, r)
    ensures r.Skipped? || r.IsDirectory? ==> disk.fs == old(disk.fs)
    ensures r == Aborted ==> v.unify.restore
    // what the answer is when nothing fails
    ensures v.path in old(disk.fs).names && Calm(old(disk.fs), v, |old(disk.fs).At(v.path).content|) ==>
      r != NotUnified && r != Aborted && (r == Skipped(GeneralError) ==> v.hashFails)
  {
    hide *;
    idx := 0;
    r := CheckEntry(cfg, disk.fs, v);
    if r != Unified { CheckIsRight(cfg, disk.fs, v); }
    if r == Unified { r, idx := UnifyEntry(cfg, disk, v); }
    CalmAnswer(cfg, old(disk.fs), disk.fs, v, idx, r);
  }

  lemma CalmAnswer(cfg: Config, before: Fs, after: Fs, v: Visit, idx: nat, r: VisitResult)
    requires before.Valid()
    requires CheckEntry(cfg, before, v) != Unified ==> r == CheckEntry(cfg, before, v) && after == before
    requires CheckEntry(cfg, before, v) == Unified ==>
      Attempt(cfg, before, after, v, idx, r) && Expected(cfg, before, after, v, idx, r)
    ensures r.Skipped? || r.IsDirectory? ==> after == before
    ensures r == Aborted ==> v.unify.restore
    ensures v.path in before.names && Calm(before, v, |before.At(v.path).content|) ==>
      r != NotUnified && r != Aborted && (r == Skipped(GeneralError) ==> v.hashFails)
  {
    hide Calm;
  }

  /** An entry that is unified has the inode of its store name, the only one that gets flags; its
      temporary name is gone if it can be unlinked; and an entry that is skipped changes nothing. */
  ghost predicate Settled(cfg: Config, before: Fs, after: Fs, v: Visit, slot: Path, r: VisitResult) {
    var p, tmp := v.path, TempName(v.path, v.suffix);
    && (r.Skipped? || r.IsDirectory? || cfg.dryRun ==> after == before)
    && (r == Unified && !cfg.dryRun ==>
          && p in after.names && slot in after.names && after.names[p] == after.names[slot]
          && OnlyLocks(before, after, after.names[p])
          && (!v.unify.cleanup && tmp !in before.names ==> tmp !in after.names))
  }

  /** What a visit makes of the whole state, with the store name that it had to do with. */
  ghost predicate Step(cfg: Config, before: Fs, after: Fs, v: Visit, slot: Path, r: VisitResult)
    requires before.Valid() && after.Valid()
  {
    && !cfg.inStore(v.path) && cfg.inStore(slot)
    && Frame(before, after, v.path, slot, TempName(v.path, v.suffix))
    && EntryPromise(cfg, before, after, v, r) && Settled(cfg, before, after, v, slot, r)
  }

  /** Every visit without harm keeps the invariant and its entry's promise. */
  lemma VisitKeeps(cfg: Config, u: Universe, before: Fs, after: Fs, v: Visit, idx: nat, r: VisitResult)
    returns (slot: Path)
    requires Inv(cfg, u, before) && GoodNames(cfg, v) && Harmless(cfg, before, v)
    requires CheckEntry(cfg, before, v) != Unified ==> r == CheckEntry(cfg, before, v) && after == before
    requires CheckEntry(cfg, before, v) == Unified ==> Attempt(cfg, before, after, v, idx, r)
    ensures Inv(cfg, u, after) && Step(cfg, before, after, v, slot, r)
  {
    if CheckEntry(cfg, before, v) == Unified {
      AttemptKeeps(cfg, u, before, after, v, idx, r);
      slot := SlotOf(cfg, before, v, idx);
    } else {
      slot := LeftAlone(cfg, u, before, v, r);
    }
  }

  lemma LeftAlone(cfg: Config, u: Universe, fs: Fs, v: Visit, r: VisitResult) returns (slot: Path)
    requires Inv(cfg, u, fs) && r == CheckEntry(cfg, fs, v) && r != Unified
    ensures cfg.inStore(slot) && Frame(fs, fs, v.path, slot, TempName(v.path, v.suffix))
    ensures EntryPromise(cfg, fs, fs, v, r)
  {
    var any: Digest := seq(cfg.digestSize, _ => 0);
    assert cfg.IsSlot(any, 0);
    slot := cfg.name(any, 0);
  }

  lemma PlacedStep(cfg: Config, before: Fs, after: Fs, v: Visit, slot: Path, r: VisitResult, p: Path)
    requires cfg.Valid() && before.Valid() && after.Valid() && Step(cfg, before, after, v, slot, r)
    requires Placed(cfg, before, p) && (p == v.path ==> !TakesAway(v, r))
    ensures Placed(cfg, after, p)
  {
    if SameEntry(before, after, p) {
      PlacedKept(cfg, before, after, v.path, slot, TempName(v.path, v.suffix), p);
    }
  }

  lemma FewNewNames(before: Fs, after: Fs, p: Path, slot: Path, tmp: Path)
    requires before.Valid() && Frame(before, after, p, slot, tmp)
    ensures |after.names| <= |before.names| + 2
  {
    SubsetSize(after.names.Keys, before.names.Keys + {slot, tmp});
    assert |before.names.Keys + {slot, tmp}| <= |before.names.Keys| + |{slot, tmp}|;
  }

  // ---- a cut copy does harm ----

  lemma CutCopyIsAccepted(cfg: Config, fs0: Fs, fs1: Fs, first: Visit, second: Visit, r: VisitResult)
    requires fs0.Valid() && first.path == second.path
    requires CheckEntry(cfg, fs0, first) == Unified && CheckEntry(cfg, fs0, second) == Unified
    requires !fs0.At(first.path).locked && Poisons(cfg, fs0.At(first.path), first)
    requires FirstIsFree(cfg, fs0, first) && CutCopyStays(cfg, fs0, fs1, first, r)
    ensures CheckEntry(cfg, fs1, second) == Unified && FirstIsTaken(cfg, fs1, second)
    ensures var content := fs1.At(SlotOf(cfg, fs1, second, 0)).content;
      content == CopiedContent(fs0.At(first.path).content, first.copy) != fs0.At(first.path).content
  {
  }

  lemma CutCopyNames(cfg: Config, fs0: Fs, fs1: Fs, first: Visit, second: Visit, idx: nat, r: VisitResult)
    requires cfg.Valid() && fs0.Valid() && GoodNames(cfg, first) && GoodNames(cfg, second) && first.path in fs0.names
    requires Attempt(cfg, fs0, fs1, first, idx, r)
    ensures |fs1.names| <= |fs0.names| + 2
    ensures var tmp := TempName(second.path, second.suffix);
      !cfg.inStore(second.path) && tmp !in fs0.names && tmp != TempName(first.path, first.suffix) ==> tmp !in fs1.names
  {
    assert cfg.IsSlot(cfg.DigestOf(fs0.At(first.path)), idx);
    FewNewNames(fs0, fs1, first.path, SlotOf(cfg, fs0, first, idx), TempName(first.path, first.suffix));
  }

  /** Harm is real: a file that a cut copy of it can be taken for is replaced by that copy in two
      visits, of which the first fails and the second goes well. */
  method PoisonedRun(cfg: Config, disk: Disk, first: Visit, second: Visit)
    requires cfg.Valid() && disk.fs.Valid() && |disk.fs.names| + 2 < MAX_INDEX
    requires GoodNames(cfg, first) && GoodNames(cfg, second) && first.path == second.path
    requires CheckEntry(cfg, disk.fs, first) == Unified && CheckEntry(cfg, disk.fs, second) == Unified
    requires !disk.fs.At(first.path).locked && FirstIsFree(cfg, disk.fs, first)
    requires Quiet(first) && Poisons(cfg, disk.fs.At(first.path), first)
    requires Quiet(second) && Smooth(second.unify)
    requires TempName(second.path, second.suffix) !in disk.fs.names
    requires TempName(second.path, second.suffix) != TempName(first.path, first.suffix)
    modifies disk
    ensures disk.fs.Valid() && first.path in disk.fs.names
    ensures disk.fs.At(first.path).content == CopiedContent(old(disk.fs).At(first.path).content, first.copy)
    ensures disk.fs.At(first.path).content != old(disk.fs).At(first.path).content
  {
    ghost var fs0 := disk.fs;
    var r; ghost var idx;
    r, idx := VisitEntry(cfg, disk, first);
    ghost var fs1 := disk.fs;
    assert !ContentOk(|fs0.At(first.path).content|, first.copy) && LeavesCopy(cfg, first);
    CutCopyIsAccepted(cfg, fs0, fs1, first, second, r);
    CutCopyNames(cfg, fs0, fs1, first, second, idx, r);
    hide *;
    r, idx := VisitEntry(cfg, disk, second);
    TakenIsRead(cfg, fs1, disk.fs, second);
  }

  lemma TakenIsRead(cfg: Config, before: Fs, after: Fs, v: Visit)
    requires cfg.Valid() && before.Valid() && v.path in before.names && FirstIsTaken(cfg, before, v)
    requires !cfg.dryRun && Attempt(cfg, before, after, v, 0, Unified)
    ensures after.Valid() && v.path in after.names
    ensures after.At(v.path).content == before.At(SlotOf(cfg, before, v, 0)).content
  {
  }
}
