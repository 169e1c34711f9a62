/** vhashify: whole runs of visits. */
module HashRuns {
  import opened FileSystem
  import opened Unify
  import opened HashStore
  import opened Hashify
  import opened HashVisits
  import opened HashCalm

  // ---- whole runs ----

  /** A visit from the `from`th on may have taken away the name `p`. */
  ghost predicate Lost(visits: seq<Visit>, results: seq<VisitResult>, from: nat, p: Path)
    requires |results| <= |visits|
  {
    exists i :: from <= i < |results| && visits[i].path == p && TakesAway(visits[i], results[i])
  }

  /** `p` is the temporary name that belongs to one of the visits. */
  ghost predicate IsTemp(visits: seq<Visit>, p: Path) {
    exists v :: v in visits && TempName(v.path, v.suffix) == p
  }

  /** A path of `fs0` reads as it did; or its name was taken away by a visit, and is gone, unless
      it is also a temporary name. */
  ghost predicate ViewKept(cfg: Config, fs0: Fs, fs: Fs, visits: seq<Visit>, results: seq<VisitResult>, p: Path)
    requires fs0.Valid() && fs.Valid() && |results| <= |visits| && p in fs0.names
  {
    || (p in fs.names && SameView(fs0.At(p), fs.At(p), cfg.ignoreMtime))
    || (Lost(visits, results, 0, p) && (p !in fs.names || IsTemp(visits, p)))
  }

  ghost predicate ViewsKept(cfg: Config, fs0: Fs, fs: Fs, visits: seq<Visit>, results: seq<VisitResult>)
    requires fs0.Valid() && fs.Valid() && |results| <= |visits|
  {
    forall p :: p in fs0.names && !cfg.inStore(p) ==> ViewKept(cfg, fs0, fs, visits, results, p)
  }

  ghost predicate StoreKept(cfg: Config, fs0: Fs, fs: Fs) {
    forall p :: p in fs0.names && cfg.inStore(p) ==> SameEntry(fs0, fs, p)
  }

  lemma LostStays(visits: seq<Visit>, results: seq<VisitResult>, r: VisitResult, from: nat, p: Path)
    requires |results| < |visits| && from <= |results|
    ensures Lost(visits, results, from, p) ==> Lost(visits, results + [r], from, p)
    ensures visits[|results|].path == p && TakesAway(visits[|results|], r) ==> Lost(visits, results + [r], from, p)
  {
  }

  lemma ViewsStep(cfg: Config, fs0: Fs, before: Fs, after: Fs, visits: seq<Visit>, results: seq<VisitResult>,
                  slot: Path, r: VisitResult)
    requires fs0.Valid() && before.Valid() && |results| < |visits|
    requires ViewsKept(cfg, fs0, before, visits, results)
    requires after.Valid() && Step(cfg, before, after, visits[|results|], slot, r)
    ensures ViewsKept(cfg, fs0, after, visits, results + [r])
  {
    forall p | p in fs0.names && !cfg.inStore(p) ensures ViewKept(cfg, fs0, after, visits, results + [r], p) {
      assert ViewKept(cfg, fs0, before, visits, results, p);
      LostStays(visits, results, r, 0, p);
      ViewStep(cfg, fs0, before, after, visits, results, slot, r, p);
    }
  }

  /** One visit keeps what a path reads. */
  lemma ViewStep(cfg: Config, fs0: Fs, before: Fs, after: Fs, visits: seq<Visit>, results: seq<VisitResult>,
                 slot: Path, r: VisitResult, p: Path)
    requires fs0.Valid() && before.Valid() && after.Valid() && |results| < |visits|
    requires p in fs0.names && !cfg.inStore(p)
    requires ViewKept(cfg, fs0, before, visits, results, p)
    requires Lost(visits, results, 0, p) ==> Lost(visits, results + [r], 0, p)
    requires var v := visits[|results|];
      && Step(cfg, before, after, v, slot, r)
      && (v.path == p && TakesAway(v, r) ==> Lost(visits, results + [r], 0, p))
    ensures ViewKept(cfg, fs0, after, visits, results + [r], p)
  {
    var v := visits[|results|];
    assert v in visits;
    hide Lost, Placed;
    if SameEntry(before, after, p) && p in before.names { SameData(before, after, p); }
  }

  lemma StoreStep(cfg: Config, fs0: Fs, before: Fs, after: Fs, v: Visit, slot: Path, r: VisitResult)
    requires before.Valid() && after.Valid() && Step(cfg, before, after, v, slot, r) && StoreKept(cfg, fs0, before)
    ensures StoreKept(cfg, fs0, after)
  {
  }

  /** The program says that an entry is unified. */
  predicate SaysUnified(cfg: Config, r: VisitResult) {
    (r == Unified && !cfg.dryRun) || r == Skipped(Shared)
  }

  /** The program gave up with a fatal exit, where it stops. */
  predicate Stopped(results: seq<VisitResult>) {
    results != [] && results[|results| - 1] == Aborted
  }

  /** The file of the entry at which the program gave up is under its temporary name, as long as
      the entry still had its file. */
  ghost predicate BackupKept(cfg: Config, fs0: Fs, fs: Fs, visits: seq<Visit>, results: seq<VisitResult>)
    requires fs0.Valid() && fs.Valid() && |results| <= |visits|
  {
    Stopped(results) ==>
      var v, earlier := visits[|results| - 1], results[..|results| - 1];
      var tmp := TempName(v.path, v.suffix);
      v.path in fs0.names && !(Lost(visits, earlier, 0, v.path) && IsTemp(visits, v.path)) ==>
        tmp in fs.names && SameView(fs0.At(v.path), fs.At(tmp), cfg.ignoreMtime)
  }

  lemma BackupStep(cfg: Config, fs0: Fs, before: Fs, after: Fs, visits: seq<Visit>, results: seq<VisitResult>,
                   slot: Path, r: VisitResult)
    requires fs0.Valid() && before.Valid() && |results| < |visits|
    requires ViewsKept(cfg, fs0, before, visits, results)
    requires after.Valid() && Step(cfg, before, after, visits[|results|], slot, r)
    ensures BackupKept(cfg, fs0, after, visits, results + [r])
  {
    var v := visits[|results|];
    assert (results + [r])[..|results|] == results;
    if v.path in fs0.names { assert ViewKept(cfg, fs0, before, visits, results, v.path); }
  }

  /** Every entry that is said to be unified is placed, unless its name is taken away later. */
  ghost predicate AllPlaced(cfg: Config, fs: Fs, visits: seq<Visit>, results: seq<VisitResult>)
    requires fs.Valid() && |results| <= |visits|
  {
    forall i :: 0 <= i < |results| && SaysUnified(cfg, results[i]) ==>
      Lost(visits, results, i, visits[i].path) || Placed(cfg, fs, visits[i].path)
  }

  /** Entries that are said to be unified, and whose names are not taken away later, are one inode
      if they have the same key and content. */
  ghost predicate Deduplicated(cfg: Config, fs: Fs, visits: seq<Visit>, results: seq<VisitResult>)
    requires fs.Valid() && |results| <= |visits|
  {
    forall i, j :: 0 <= i < |results| && 0 <= j < |results| ==>
      SaysUnified(cfg, results[i]) && SaysUnified(cfg, results[j]) ==>
      var p, q := visits[i].path, visits[j].path;
      Lost(visits, results, i, p) || Lost(visits, results, j, q) || (
        && p in fs.names && q in fs.names
        && (&& KeyOf(fs.At(p), cfg.ignoreMtime) == KeyOf(fs.At(q), cfg.ignoreMtime)
            && fs.At(p).content == fs.At(q).content
            ==> fs.names[p] == fs.names[q]))
  }

  lemma PlacedIsDeduplicated(cfg: Config, fs: Fs, visits: seq<Visit>, results: seq<VisitResult>)
    requires fs.Valid() && |results| <= |visits| && AllPlaced(cfg, fs, visits, results)
    ensures Deduplicated(cfg, fs, visits, results)
  {
    hide Lost;
    forall i, j | && 0 <= i < |results| && 0 <= j < |results|
                  && SaysUnified(cfg, results[i]) && SaysUnified(cfg, results[j])
                  && Placed(cfg, fs, visits[i].path) && Placed(cfg, fs, visits[j].path)
                  && KeyOf(fs.At(visits[i].path), cfg.ignoreMtime) == KeyOf(fs.At(visits[j].path), cfg.ignoreMtime)
                  && fs.At(visits[i].path).content == fs.At(visits[j].path).content
      ensures fs.names[visits[i].path] == fs.names[visits[j].path]
    {
      PlacedFilesAreShared(cfg, fs, visits[i].path, visits[j].path);
    }
  }

  lemma AllPlacedStep(cfg: Config, before: Fs, after: Fs, visits: seq<Visit>, results: seq<VisitResult>,
                      slot: Path, r: VisitResult)
    requires cfg.Valid() && before.Valid() && |results| < |visits| && AllPlaced(cfg, before, visits, results)
    requires after.Valid() && Step(cfg, before, after, visits[|results|], slot, r)
    ensures AllPlaced(cfg, after, visits, results + [r])
  {
    assert after.Valid() && (SaysUnified(cfg, r) ==> Placed(cfg, after, visits[|results|].path));
    hide Step, Placed, Lost;
    var v, more := visits[|results|], results + [r];
    forall i | 0 <= i < |more| && SaysUnified(cfg, more[i])
      ensures Lost(visits, more, i, visits[i].path) || Placed(cfg, after, visits[i].path)
    {
      if i < |results| {
        assert more[i] == results[i];
        LostStays(visits, results, r, i, visits[i].path);
        if !Lost(visits, more, i, visits[i].path) { PlacedStep(cfg, before, after, v, slot, r, visits[i].path); }
      }
    }
  }

  /** A visit ends in a fatal exit only if its own restoring rename fails. */
  ghost predicate AbortsRight(visits: seq<Visit>, results: seq<VisitResult>)
    requires |results| <= |visits|
  {
    forall i :: 0 <= i < |results| && results[i] == Aborted ==> visits[i].unify.restore
  }

  /** What a run has kept and reached so far. */
  ghost predicate RunPromise(cfg: Config, fs0: Fs, fs: Fs, visits: seq<Visit>, results: seq<VisitResult>)
    requires fs0.Valid() && fs.Valid() && |results| <= |visits|
  {
    && (forall i :: 0 <= i < |results| - 1 ==> results[i] != Aborted)
    && AbortsRight(visits, results)
    && ViewsKept(cfg, fs0, fs, visits, results) && BackupKept(cfg, fs0, fs, visits, results)
    && StoreKept(cfg, fs0, fs) && AllPlaced(cfg, fs, visits, results)
  }

  lemma AbortsStep(cfg: Config, before: Fs, after: Fs, visits: seq<Visit>, results: seq<VisitResult>,
                   slot: Path, r: VisitResult)
    requires before.Valid() && after.Valid() && |results| < |visits| && AbortsRight(visits, results)
    requires Step(cfg, before, after, visits[|results|], slot, r)
    ensures AbortsRight(visits, results + [r])
  {
  }

  lemma RunStep(cfg: Config, fs0: Fs, before: Fs, after: Fs, visits: seq<Visit>, results: seq<VisitResult>,
                slot: Path, r: VisitResult)
    requires cfg.Valid() && fs0.Valid() && before.Valid() && |results| < |visits| && !Stopped(results)
    requires RunPromise(cfg, fs0, before, visits, results)
    requires after.Valid() && Step(cfg, before, after, visits[|results|], slot, r)
    ensures RunPromise(cfg, fs0, after, visits, results + [r])
  {
    hide Step, ViewsKept, StoreKept, AllPlaced, BackupKept, AbortsRight;
    AbortsStep(cfg, before, after, visits, results, slot, r);
    ViewsStep(cfg, fs0, before, after, visits, results, slot, r);
    BackupStep(cfg, fs0, before, after, visits, results, slot, r);
    StoreStep(cfg, fs0, before, after, visits[|results|], slot, r);
    AllPlacedStep(cfg, before, after, visits, results, slot, r);
  }

  /** Some visit may take the name `p` away, and another may make a file of that name. */
  ghost predicate MayReappear(visits: seq<Visit>, p: Path) {
    (exists v :: v in visits && v.path == p && !Spares(v.unify)) && IsTemp(visits, p)
  }

  /** A file of this kind and size is not skipped for a reason that the visit decides. */
  predicate Considered(v: Visit, kind: Kind, size: nat) {
    && !v.excluded && !v.stat && !v.unsupported && !v.wrongDevice && !v.hashFails
    && kind == Regular && size >= HASH_MINSIZE
  }

  /** The failures of a visit leave no copy that can be taken for the file that its path has when
      the run starts, if that is considered at all; of a path that gets its file only later, any
      file may have become its content. */
  ghost predicate StaysHarmless(cfg: Config, u: Universe, fs0: Fs, visits: seq<Visit>, v: Visit)
    requires fs0.Valid()
  {
    if v.path in fs0.names && !MayReappear(visits, v.path) then
      var st := fs0.At(v.path);
      Considered(v, st.kind, |st.content|) ==> !Poisons(cfg, st, v)
    else
      LeavesCopy(cfg, v) ==>
        forall x :: x in u && Considered(v, x.0.kind, |x.1|) ==> !Poisonous(cfg, x.0, x.1, v.copy)
  }

  lemma HarmlessNow(cfg: Config, u: Universe, fs0: Fs, fs: Fs, visits: seq<Visit>, results: seq<VisitResult>, v: Visit)
    requires fs0.Valid() && Inv(cfg, u, fs) && GoodNames(cfg, v) && |results| <= |visits|
    requires ViewsKept(cfg, fs0, fs, visits, results) && forall i :: 0 <= i < |results| ==> results[i] != Aborted
    requires StaysHarmless(cfg, u, fs0, visits, v)
    ensures Harmless(cfg, fs, v)
  {
  }

  /** A path whose visits neither fail to put a backup back nor lose sight of the file reads what it
      did. */
  ghost predicate SafePathsKept(cfg: Config, fs0: Fs, fs: Fs, visits: seq<Visit>)
    requires fs0.Valid() && fs.Valid()
  {
    forall p :: p in fs0.names && !cfg.inStore(p) ==>
      (forall v :: v in visits && v.path == p ==>
         !v.unify.restore && (v.unify.stat ==> v.unify.lock || v.unify.mask || v.unify.unlinkNew)) ==>
      var a := fs0.At(p);
      && p in fs.names && fs.At(p).kind == a.kind && fs.At(p).content == a.content && fs.At(p).perm == a.perm
      && fs.At(p).uid == a.uid && fs.At(p).gid == a.gid && (cfg.ignoreMtime || fs.At(p).mtime == a.mtime)
  }

  lemma SafePaths(cfg: Config, fs0: Fs, fs: Fs, visits: seq<Visit>, results: seq<VisitResult>)
    requires fs0.Valid() && fs.Valid() && |results| <= |visits|
    requires ViewsKept(cfg, fs0, fs, visits, results) && AbortsRight(visits, results)
    ensures SafePathsKept(cfg, fs0, fs, visits)
  {
    forall p | && p in fs0.names && !cfg.inStore(p)
               && forall v :: v in visits && v.path == p ==>
                    !v.unify.restore && (v.unify.stat ==> v.unify.lock || v.unify.mask || v.unify.unlinkNew)
      ensures p in fs.names && SameView(fs0.At(p), fs.At(p), cfg.ignoreMtime)
    {
      assert ViewKept(cfg, fs0, fs, visits, results, p);
      assert !Lost(visits, results, 0, p);
    }
  }

  /** The state of a run after some visits. */
  ghost predicate RunState(cfg: Config, u: Universe, fs0: Fs, fs: Fs, visits: seq<Visit>, results: seq<VisitResult>)
    requires fs0.Valid() && |results| <= |visits|
  {
    && Inv(cfg, u, fs) && |fs.names| + 2 * (|visits| - |results|) < MAX_INDEX
    && RunPromise(cfg, fs0, fs, visits, results) && (cfg.dryRun ==> fs == fs0)
    && (!cfg.dryRun && CalmRun(fs0, visits) ==> !Stopped(results) && CalmSoFar(cfg, fs0, fs, visits, |results|))
  }

  lemma RunStarts(cfg: Config, u: Universe, fs: Fs, visits: seq<Visit>)
    requires Inv(cfg, u, fs) && |fs.names| + 2 * |visits| < MAX_INDEX
    ensures RunState(cfg, u, fs, fs, visits, [])
  {
    CalmStart(cfg, fs, visits);
    hide CalmSoFar, CalmRun;
  }

  /** The next visit may take place. */
  lemma RunGoesOn(cfg: Config, u: Universe, fs0: Fs, fs: Fs, visits: seq<Visit>, results: seq<VisitResult>)
    requires fs0.Valid() && |results| < |visits| && RunState(cfg, u, fs0, fs, visits, results) && !Stopped(results)
    requires forall v :: v in visits ==> GoodNames(cfg, v) && StaysHarmless(cfg, u, fs0, visits, v)
    ensures cfg.Valid() && fs.Valid() && |fs.names| < MAX_INDEX
    ensures GoodNames(cfg, visits[|results|]) && Harmless(cfg, fs, visits[|results|])
  {
    hide CalmSoFar, CalmRun, StaysHarmless, ViewsKept, BackupKept, StoreKept, AllPlaced, AbortsRight;
    hide GoodNames, Harmless;
    assert visits[|results|] in visits;
    HarmlessNow(cfg, u, fs0, fs, visits, results, visits[|results|]);
  }

  lemma VisitGoesOn(cfg: Config, u: Universe, fs0: Fs, before: Fs, after: Fs, visits: seq<Visit>,
                    results: seq<VisitResult>, idx: nat, r: VisitResult)
    requires fs0.Valid() && |results| < |visits| && RunState(cfg, u, fs0, before, visits, results) && !Stopped(results)
    requires before.Valid() && GoodNames(cfg, visits[|results|]) && Harmless(cfg, before, visits[|results|])
    requires var v := visits[|results|];
      && (CheckEntry(cfg, before, v) != Unified ==> r == CheckEntry(cfg, before, v) && after == before)
      && (CheckEntry(cfg, before, v) == Unified ==> Attempt(cfg, before, after, v, idx, r))
      && AnswerRight(cfg, before, v, r)
      && (v.path in before.names && Calm(before, v, |before.At(v.path).content|) ==>
            r != NotUnified && r != Aborted && (r == Skipped(GeneralError) ==> v.hashFails))
    ensures RunState(cfg, u, fs0, after, visits, results + [r])
  {
    hide CalmSoFar, RunPromise, Step, CheckEntry, Attempt, AnswerRight, GoodNames, Harmless, Calm, CalmRun;
    var v, n := visits[|results|], |results|;
    var slot := VisitKeeps(cfg, u, before, after, v, idx, r);
    RunStep(cfg, fs0, before, after, visits, results, slot, r);
    StepIsSmall(cfg, before, after, v, slot, r);
    if !cfg.dryRun && CalmRun(fs0, visits) { CalmVisitGoesOn(cfg, fs0, before, after, visits, n, slot, r); }
  }

  lemma StepIsSmall(cfg: Config, before: Fs, after: Fs, v: Visit, slot: Path, r: VisitResult)
    requires before.Valid() && after.Valid() && Step(cfg, before, after, v, slot, r)
    ensures |after.names| <= |before.names| + 2 && (cfg.dryRun ==> after == before)
  {
    FewNewNames(before, after, v.path, slot, TempName(v.path, v.suffix));
  }

  lemma RunIsOver(cfg: Config, u: Universe, fs0: Fs, fs: Fs, visits: seq<Visit>, results: seq<VisitResult>)
    requires fs0.Valid() && |results| <= |visits| && RunState(cfg, u, fs0, fs, visits, results)
    requires forall v :: v in visits ==> GoodNames(cfg, v)
    ensures Inv(cfg, u, fs) && RunPromise(cfg, fs0, fs, visits, results)
    ensures Deduplicated(cfg, fs, visits, results) && SafePathsKept(cfg, fs0, fs, visits)
    ensures cfg.dryRun ==> fs == fs0
    ensures !cfg.dryRun && CalmRun(fs0, visits) && (|results| == |visits| || Stopped(results)) ==>
      |results| == |visits| && AllUnified(cfg, fs0, fs, visits)
  {
    hide Deduplicated, SafePathsKept, CalmSoFar, CalmRun, AllUnified, ViewsKept, AbortsRight, AllPlaced;
    PlacedIsDeduplicated(cfg, fs, visits, results);
    SafePaths(cfg, fs0, fs, visits, results);
    if CalmSoFar(cfg, fs0, fs, visits, |results|) && |results| == |visits| { CalmEnd(cfg, fs0, fs, visits); }
  }

  /** Any sequence of visits, whatever fails in them: every path outside the store reads what it
      did, but for names that failed links or the fatal exit took away, and no store name refers
      to anything else; a fatal exit ends the run, and keeps that file under its temporary name.
      Files that the program reports as unified and that have the same key and content are one
      inode in the end. */
  method HashifyRun(cfg: Config, disk: Disk, visits: seq<Visit>, ghost u: Universe) returns (results: seq<VisitResult>)
    requires Inv(cfg, u, disk.fs) && |disk.fs.names| + 2 * |visits| < MAX_INDEX
    requires forall v :: v in visits ==> GoodNames(cfg, v) && StaysHarmless(cfg, u, disk.fs, visits, v)
    modifies disk
    ensures Inv(cfg, u, disk.fs)
    ensures |results| <= |visits| && (|results| == |visits| || Stopped(results))
    ensures forall i :: 0 <= i < |results| - 1 ==> results[i] != Aborted
    ensures ViewsKept(cfg, old(disk.fs), disk.fs, visits, results)
    ensures BackupKept(cfg, old(disk.fs), disk.fs, visits, results)
    ensures StoreKept(cfg, old(disk.fs), disk.fs)
    ensures Deduplicated(cfg, disk.fs, visits, results)
    ensures AbortsRight(visits, results) && SafePathsKept(cfg, old(disk.fs), disk.fs, visits)
    ensures cfg.dryRun ==> disk.fs == old(disk.fs)
    // when nothing fails, all files that can be unified are, for good
    ensures !cfg.dryRun && CalmRun(old(disk.fs), visits) ==>
      |results| == |visits| && AllUnified(cfg, old(disk.fs), disk.fs, visits)
  {
    results := [];
    ghost var fs0 := disk.fs;
    RunStarts(cfg, u, fs0, visits);
    hide RunState, Inv;
    while |results| < |visits| && !Stopped(results)
      invariant |results| <= |visits| && RunState(cfg, u, fs0, disk.fs, visits, results)
      decreases |visits| - |results|
    {
      ghost var before := disk.fs;
      RunGoesOn(cfg, u, fs0, before, visits, results);
      var r; ghost var idx;
      r, idx := VisitEntry(cfg, disk, visits[|results|]);
      VisitGoesOn(cfg, u, fs0, before, disk.fs, visits, results, idx, r);
      results := results + [r];
    }
    RunIsOver(cfg, u, fs0, disk.fs, visits, results);
  }
}
