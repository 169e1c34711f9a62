/** vhashify: runs in which nothing fails unify every file that can be unified. */
module HashCalm {
  import opened FileSystem
  import opened Unify
  import opened HashStore
  import opened Hashify
  import opened HashVisits

  /** Nothing fails in a visit to the file that its path has, and nothing keeps the file from being
      looked at. */
  ghost predicate CalmVisit(fs0: Fs, v: Visit)
    requires fs0.Valid()
  {
    && !v.excluded && !v.stat && !v.unsupported && !v.wrongDevice && !v.hashFails && !v.unify.cleanup
    && TempName(v.path, v.suffix) !in fs0.names
    && (v.path in fs0.names ==> Calm(fs0, v, |fs0.At(v.path).content|))
  }

  ghost predicate CalmRun(fs0: Fs, visits: seq<Visit>)
    requires fs0.Valid()
  {
    forall v :: v in visits ==> CalmVisit(fs0, v)
  }

  /** A regular file that is large enough and does not look unified already, if that matters. */
  ghost predicate Ordinary(cfg: Config, fs: Fs, p: Path)
    requires fs.Valid()
  {
    && p in fs.names && fs.At(p).kind == Regular && |fs.At(p).content| >= 16
    && (cfg.refresh || !(fs.At(p).locked && exists q :: q in fs.names && q != p && fs.names[q] == fs.names[p]))
  }

  /** A path has its inode still, which has got neither flags nor names. */
  ghost predicate Untouched(fs0: Fs, fs: Fs, p: Path) {
    && p in fs0.names && p in fs.names && fs.names[p] == fs0.names[p]
    && fs0.names[p] in fs0.inodes && fs0.names[p] in fs.inodes && fs.inodes[fs0.names[p]] == fs0.inodes[fs0.names[p]]
    && forall q :: q in fs.names && fs.names[q] == fs0.names[p] ==> q in fs0.names && fs0.names[q] == fs0.names[p]
  }

  ghost predicate SameGuests(cfg: Config, fs0: Fs, fs: Fs)
    requires fs0.Valid() && fs.Valid()
  {
    && (forall q :: !cfg.inStore(q) ==> (q in fs.names <==> q in fs0.names))
    && (forall q :: !cfg.inStore(q) && q in fs0.names && q in fs.names ==>
          SameView(fs0.At(q), fs.At(q), cfg.ignoreMtime))
  }

  ghost predicate PlacedOrUntouched(cfg: Config, fs0: Fs, fs: Fs)
    requires fs0.Valid() && fs.Valid()
  {
    forall q :: !cfg.inStore(q) && Ordinary(cfg, fs0, q) ==> Placed(cfg, fs, q) || Untouched(fs0, fs, q)
  }

  ghost predicate VisitedArePlaced(cfg: Config, fs0: Fs, fs: Fs, visits: seq<Visit>, n: nat)
    requires fs0.Valid() && fs.Valid() && n <= |visits|
  {
    forall i :: 0 <= i < n && Ordinary(cfg, fs0, visits[i].path) ==> Placed(cfg, fs, visits[i].path)
  }

  /** What a calm run has kept and reached so far. */
  ghost predicate CalmSoFar(cfg: Config, fs0: Fs, fs: Fs, visits: seq<Visit>, n: nat)
    requires fs0.Valid() && fs.Valid() && n <= |visits|
  {
    SameGuests(cfg, fs0, fs) && PlacedOrUntouched(cfg, fs0, fs) && VisitedArePlaced(cfg, fs0, fs, visits, n)
  }

  /** All that is known of one visit of a calm run. */
  ghost predicate CalmStep(cfg: Config, before: Fs, after: Fs, v: Visit, slot: Path, r: VisitResult)
    requires before.Valid()
  {
    && after.Valid() && cfg.Valid() && !cfg.dryRun && GoodNames(cfg, v) && Step(cfg, before, after, v, slot, r)
    && AnswerRight(cfg, before, v, r) && r != NotUnified && r != Aborted
  }

  lemma CalmHere(cfg: Config, fs0: Fs, fs: Fs, v: Visit)
    requires cfg.Valid() && fs0.Valid() && fs.Valid() && GoodNames(cfg, v)
    requires CalmVisit(fs0, v) && SameGuests(cfg, fs0, fs) && v.path in fs.names
    ensures Calm(fs, v, |fs.At(v.path).content|)
  {
  }

  lemma StepKeepsNames(cfg: Config, fs0: Fs, before: Fs, after: Fs, v: Visit, slot: Path, r: VisitResult, q: Path)
    requires fs0.Valid() && before.Valid() && CalmVisit(fs0, v) && SameGuests(cfg, fs0, before)
    requires CalmStep(cfg, before, after, v, slot, r) && !cfg.inStore(q)
    ensures q in after.names <==> q in before.names
  {
    hide Placed, AnswerRight, OnlyLocks, Calm, SameView;
  }

  lemma StepKeepsGuests(cfg: Config, fs0: Fs, before: Fs, after: Fs, v: Visit, slot: Path, r: VisitResult)
    requires fs0.Valid() && before.Valid() && CalmVisit(fs0, v) && SameGuests(cfg, fs0, before)
    requires CalmStep(cfg, before, after, v, slot, r)
    ensures SameGuests(cfg, fs0, after)
  {
    hide Placed, AnswerRight, OnlyLocks, Calm, CalmVisit;
    forall q | !cfg.inStore(q)
      ensures q in after.names <==> q in fs0.names
      ensures q in fs0.names && q in after.names ==> SameView(fs0.At(q), after.At(q), cfg.ignoreMtime)
    {
      StepKeepsNames(cfg, fs0, before, after, v, slot, r, q);
      if q in before.names && SameEntry(before, after, q) { SameData(before, after, q); }
    }
  }

  /** A path with the inode of a placed one is placed. */
  lemma SharedIsPlaced(cfg: Config, fs: Fs, p: Path, q: Path)
    requires fs.Valid() && Placed(cfg, fs, p) && q in fs.names && fs.names[q] == fs.names[p]
    ensures Placed(cfg, fs, q)
  {
    var k: nat :| AtSlot(cfg, fs, p, k);
    assert AtSlot(cfg, fs, q, k);
  }

  lemma StaysUntouched(cfg: Config, fs0: Fs, before: Fs, after: Fs, v: Visit, slot: Path, r: VisitResult, q: Path)
    requires fs0.Valid() && before.Valid() && CalmVisit(fs0, v) && SameGuests(cfg, fs0, before)
    requires CalmStep(cfg, before, after, v, slot, r) && !cfg.inStore(q) && Untouched(fs0, before, q)
    ensures Untouched(fs0, after, q) || Placed(cfg, after, q)
  {
    hide AnswerRight, Calm, SameView, Placed;
    if r == Unified && q != v.path {
      assert SameEntry(before, after, q);
      if after.names[q] == after.names[v.path] { SharedIsPlaced(cfg, after, v.path, q); }
    }
  }

  lemma StaysPlaced(cfg: Config, before: Fs, after: Fs, v: Visit, slot: Path, r: VisitResult, q: Path)
    requires before.Valid() && CalmStep(cfg, before, after, v, slot, r) && Placed(cfg, before, q)
    ensures Placed(cfg, after, q)
  {
    PlacedStep(cfg, before, after, v, slot, r, q);
  }

  lemma StepKeepsOthers(cfg: Config, fs0: Fs, before: Fs, after: Fs, v: Visit, slot: Path, r: VisitResult)
    requires fs0.Valid() && before.Valid() && CalmVisit(fs0, v) && SameGuests(cfg, fs0, before)
    requires CalmStep(cfg, before, after, v, slot, r) && PlacedOrUntouched(cfg, fs0, before)
    ensures after.Valid() && PlacedOrUntouched(cfg, fs0, after)
  {
    assert after.Valid();
    hide CalmStep, Placed, Untouched, Ordinary, SameGuests, CalmVisit;
    forall q | !cfg.inStore(q) && Ordinary(cfg, fs0, q) ensures Placed(cfg, after, q) || Untouched(fs0, after, q) {
      if Placed(cfg, before, q) {
        StaysPlaced(cfg, before, after, v, slot, r, q);
      } else {
        StaysUntouched(cfg, fs0, before, after, v, slot, r, q);
      }
    }
  }

  /** An untouched file does not look unified if it did not do so at the start. */
  lemma UntouchedIsConsidered(cfg: Config, fs0: Fs, fs: Fs, v: Visit, r: VisitResult)
    requires fs0.Valid() && fs.Valid() && CalmVisit(fs0, v) && Ordinary(cfg, fs0, v.path)
    requires Untouched(fs0, fs, v.path) && AnswerRight(cfg, fs, v, r) && r != NotUnified && r != Aborted
    ensures r == Unified || r == Skipped(Shared) || r == Skipped(GeneralError)
  {
    hide Calm;
  }

  lemma StepPlaces(cfg: Config, fs0: Fs, before: Fs, after: Fs, v: Visit, slot: Path, r: VisitResult)
    requires fs0.Valid() && before.Valid() && CalmVisit(fs0, v) && PlacedOrUntouched(cfg, fs0, before)
    requires CalmStep(cfg, before, after, v, slot, r) && r != Skipped(GeneralError) && Ordinary(cfg, fs0, v.path)
    ensures after.Valid() && Placed(cfg, after, v.path)
  {
    if Placed(cfg, before, v.path) {
      hide CalmVisit;
      StaysPlaced(cfg, before, after, v, slot, r, v.path);
    } else {
      UntouchedIsConsidered(cfg, fs0, before, v, r);
      hide Untouched, Ordinary, AnswerRight, Placed, Frame, CalmVisit;
    }
  }

  /** A calm visit keeps what a calm run has kept, and places its file. */
  lemma CalmGoesOn(cfg: Config, fs0: Fs, before: Fs, after: Fs, visits: seq<Visit>, n: nat, slot: Path, r: VisitResult)
    requires fs0.Valid() && before.Valid() && n < |visits| && CalmVisit(fs0, visits[n])
    requires CalmSoFar(cfg, fs0, before, visits, n)
    requires CalmStep(cfg, before, after, visits[n], slot, r) && r != Skipped(GeneralError)
    ensures after.Valid() && CalmSoFar(cfg, fs0, after, visits, n + 1)
  {
    hide CalmStep, Placed, Untouched, Ordinary, SameGuests, CalmVisit, PlacedOrUntouched;
    StepKeepsOthers(cfg, fs0, before, after, visits[n], slot, r);
    StepKeepsGuests(cfg, fs0, before, after, visits[n], slot, r);
    forall i | 0 <= i < n + 1 && Ordinary(cfg, fs0, visits[i].path) ensures Placed(cfg, after, visits[i].path) {
      if i < n {
        StaysPlaced(cfg, before, after, visits[n], slot, r, visits[i].path);
      } else {
        StepPlaces(cfg, fs0, before, after, visits[n], slot, r);
      }
    }
  }

  /** The same of what a visit promises whatever fails. */
  lemma CalmVisitGoesOn(cfg: Config, fs0: Fs, before: Fs, after: Fs, visits: seq<Visit>, n: nat, slot: Path,
                        r: VisitResult)
    requires fs0.Valid() && before.Valid() && n < |visits| && CalmRun(fs0, visits)
    requires CalmSoFar(cfg, fs0, before, visits, n)
    requires cfg.Valid() && !cfg.dryRun && GoodNames(cfg, visits[n]) && after.Valid()
    requires Step(cfg, before, after, visits[n], slot, r) && AnswerRight(cfg, before, visits[n], r)
    requires var v := visits[n]; v.path in before.names && Calm(before, v, |before.At(v.path).content|) ==>
      r != NotUnified && r != Aborted && (r == Skipped(GeneralError) ==> v.hashFails)
    ensures r != Aborted && CalmSoFar(cfg, fs0, after, visits, n + 1)
  {
    var v := visits[n];
    assert after.Valid();
    assert CalmVisit(fs0, v);
    if v.path in before.names { CalmHere(cfg, fs0, before, v); }
    hide Calm, CalmSoFar, Step;
    CalmGoesOn(cfg, fs0, before, after, visits, n, slot, r);
  }

  lemma CalmStart(cfg: Config, fs: Fs, visits: seq<Visit>)
    requires fs.Valid()
    ensures CalmSoFar(cfg, fs, fs, visits, 0)
  {
  }

  /** Any two files that could be unified and were equal at the start are one inode. */
  ghost predicate AllUnified(cfg: Config, fs0: Fs, fs: Fs, visits: seq<Visit>)
    requires fs0.Valid()
  {
    forall v, w :: v in visits && w in visits && Ordinary(cfg, fs0, v.path) && Ordinary(cfg, fs0, w.path) ==>
      var a, b := fs0.At(v.path), fs0.At(w.path);
      a.content == b.content && a.perm == b.perm && a.uid == b.uid && a.gid == b.gid
      && (cfg.ignoreMtime || a.mtime == b.mtime) ==>
        v.path in fs.names && w.path in fs.names && fs.names[v.path] == fs.names[w.path]
  }

  lemma CalmEnd(cfg: Config, fs0: Fs, fs: Fs, visits: seq<Visit>)
    requires fs0.Valid() && fs.Valid() && CalmSoFar(cfg, fs0, fs, visits, |visits|)
    requires forall v :: v in visits ==> !cfg.inStore(v.path)
    ensures AllUnified(cfg, fs0, fs, visits)
  {
    hide Placed, Untouched, PlacedOrUntouched;
    forall v, w | && v in visits && w in visits && Ordinary(cfg, fs0, v.path) && Ordinary(cfg, fs0, w.path)
                  && var a, b := fs0.At(v.path), fs0.At(w.path);
                     && a.content == b.content && a.perm == b.perm && a.uid == b.uid && a.gid == b.gid
                     && (cfg.ignoreMtime || a.mtime == b.mtime)
      ensures v.path in fs.names && w.path in fs.names && fs.names[v.path] == fs.names[w.path]
    {
      assert Placed(cfg, fs, v.path) && Placed(cfg, fs, w.path);
      PlacedFilesAreShared(cfg, fs, v.path, w.path);
    }
  }
}
