/** Every step of the catalog keeps its invariant, so every state of every run satisfies it. */
module CatalogInvariants {
  import opened Words
  import opened CatalogFile
  import opened CatalogProtocol
  import W = CatalogWrites
  import BTree
  import Toc

  lemma IdsKept(s: State, step: Step)
    requires IdsInv(s) && Enabled(s, step)
    requires forall id | id in s.tasks :: s.tasks[id].file in s.files
    ensures IdsInv(Apply(s, step))
  {
  }

  // ---- Tasks and files ---------------------------------------------------------

  lemma FilesKept(s: State, step: Step)
    requires FilesInv(s) && Enabled(s, step)
    ensures FilesInv(Apply(s, step))
  {
    match step
    case Submit(id) => W.StepKeepsInv(s.files[s.caller.file], id, W.Begin(s.caller.segment));
    case Create(id, act) => W.StepKeepsInv(s.files[s.tasks[id].file], id, act);
    case LockRead(f, r) => W.StepKeepsInv(s.files[f], r, W.LockRead);
    case UnlockRead(f, r) => W.StepKeepsInv(s.files[f], r, W.UnlockRead);
    case _ =>
  }

  lemma SubmitKeepsCalls(s: State, id: int)
    requires CallsInv(s) && Enabled(s, Submit(id))
    ensures CallsInv(Apply(s, Submit(id)))
  {
    var s' := Apply(s, Submit(id));
    forall t | t in s'.tasks ensures TaskOk(s', t) {
      if t != id {
        assert TaskOk(s, t);
      }
    }
  }

  lemma CreateKeepsCalls(s: State, id: int, act: W.Action)
    requires CallsInv(s) && Enabled(s, Create(id, act))
    ensures CallsInv(Apply(s, Create(id, act)))
  {
    var s' := Apply(s, Create(id, act));
    var f := s.tasks[id].file;
    assert s'.files[f].writers.Keys == s.files[f].writers.Keys;
    forall t | t in s'.tasks ensures TaskOk(s', t) {
      assert TaskOk(s, t);
      if t != id && s.tasks[t].file == f {
        assert s'.files[f].writers[t] == s.files[f].writers[t];
      }
    }
  }

  lemma TasksStayOk(s: State, s': State)
    requires CallsInv(s)
    requires forall f | f in s.files :: f in s'.files && s'.files[f].writers == s.files[f].writers
    requires forall f | f in s'.files && f !in s.files :: s'.files[f].writers == map[]
    requires s'.tasks.Keys == s.tasks.Keys
    requires forall t | t in s.tasks ::
      && s'.tasks[t].file == s.tasks[t].file && s'.tasks[t].segment == s.tasks[t].segment
      && (s'.tasks[t].progress.Created? || IsRecorded(s'.tasks[t]) ==> s.tasks[t].progress.Created? || IsRecorded(s.tasks[t]))
    requires s'.caller.Chosen? ==> s'.caller.file in s'.files
    ensures CallsInv(s')
  {
    forall id | id in s'.tasks ensures TaskOk(s', id) {
      assert TaskOk(s, id);
    }
  }

  lemma ChooseKeepsCalls(s: State, step: Step)
    requires CallsInv(s) && Enabled(s, step) && step.Choose?
    ensures CallsInv(Apply(s, step))
  {
    TasksStayOk(s, Apply(s, step));
  }

  lemma LocksKeepCalls(s: State, step: Step)
    requires CallsInv(s) && Enabled(s, step) && (step.LockRead? || step.UnlockRead?)
    ensures CallsInv(Apply(s, step))
  {
    TasksStayOk(s, Apply(s, step));
  }

  lemma QuietStepsKeepCalls(s: State, step: Step)
    requires CallsInv(s) && Enabled(s, step)
    requires !(step.Submit? || step.Create? || step.Choose? || step.LockRead? || step.UnlockRead?)
    ensures CallsInv(Apply(s, step))
  {
    var s' := Apply(s, step);
    assert s'.files == s.files;
    forall id | id in s'.tasks ensures TaskOk(s', id) {
      assert TaskOk(s, id);
    }
  }

  lemma CallsKept(s: State, step: Step)
    requires CallsInv(s) && Enabled(s, step)
    ensures CallsInv(Apply(s, step))
  {
    match step
    case Submit(id) => SubmitKeepsCalls(s, id);
    case Create(id, act) => CreateKeepsCalls(s, id, act);
    case Choose(_, _, _, _) => ChooseKeepsCalls(s, step);
    case LockRead(_, _) => LocksKeepCalls(s, step);
    case UnlockRead(_, _) => LocksKeepCalls(s, step);
    case _ => QuietStepsKeepCalls(s, step);
  }

  // ---- Table of contents ---------------------------------------------------------

  lemma AbsorbExtendsBits(hash: int -> set<int>, row: Toc.Row, done: map<int, Segment>, id: int, g: Segment)
    requires id !in done && row.bloom == AllBits(hash, done)
    ensures row.bloom + hash(g.indexId) == AllBits(hash, done[id := g])
  {
    var done' := done[id := g];
    forall b | b in row.bloom + hash(g.indexId) ensures b in AllBits(hash, done') {
      if b in row.bloom {
        var t :| t in done && b in hash(done[t].indexId);
        assert t in done' && done'[t] == done[t];
      } else {
        assert id in done' && done'[id] == g;
      }
    }
  }

  lemma CountWraps(n: int)
    requires 0 <= n
    ensures (n % TWO_32 + 1) % TWO_32 == (n + 1) % TWO_32
  {
  }

  lemma AbsorbExtendsRange(min: int, max: int, count: int, done: map<int, Segment>, id: int, g: Segment)
    requires id !in done
    requires if done == map[] then min == U64_MAX && max == 0 && count == 0 else IsRange(min, max, count, done)
    ensures IsRange(Min(min, g.start), Max(max, g.end), (count + 1) % TWO_32, done[id := g])
  {
    var done' := done[id := g];
    assert id in done' && done'[id] == g;
    CountWraps(|done|);
    assert |done'| == |done| + 1;
    if done != map[] {
      var first :| first in done && done[first].start == min;
      var last :| last in done && done[last].end == max;
      assert first in done' && last in done' && done'[first] == done[first] && done'[last] == done[last];
    }
  }

  /** The heart of "no lost update": absorbing one more write extends the summary by exactly that write. */
  lemma AbsorbExtendsSummary(hash: int -> set<int>, row: Toc.Row, done: map<int, Segment>, id: int, g: Segment, totalBytes: int)
    requires id !in done
    requires if done == map[] then row == Toc.FRESH_ROW else IsSummary(hash, row, done)
    ensures IsSummary(hash, Toc.Absorb(row, hash(g.indexId), g.start, g.end, totalBytes), done[id := g])
    ensures Toc.Absorb(row, hash(g.indexId), g.start, g.end, totalBytes).totalBytes == totalBytes
  {
    AbsorbExtendsBits(hash, row, done, id, g);
    AbsorbExtendsRange(row.min, row.max, row.count, done, id, g);
  }

  lemma RecordKeepsRow(s: State, id: int, totalBytes: int)
    requires RowsInv(s) && CopiesInv(s) && Enabled(s, Record(id, totalBytes))
    ensures IsSummary(s.hash, Recording(s, id, totalBytes), RecordedIn(Apply(s, Record(id, totalBytes)), s.tasks[id].file))
  {
    var s' := Apply(s, Record(id, totalBytes));
    var f, g := s.tasks[id].file, s.tasks[id].segment;
    var done := RecordedIn(s, f);
    assert RecordedIn(s', f) == done[id := g];
    if f in s.toc {
      assert IsSummary(s.hash, s.toc[f], done);
      AbsorbExtendsSummary(s.hash, s.toc[f], done, id, g, totalBytes);
    } else {
      assert forall t | t in s.tasks && IsRecorded(s.tasks[t]) :: s.tasks[t].file != f;
      assert done == map[];
      AbsorbExtendsSummary(s.hash, Toc.FRESH_ROW, done, id, g, totalBytes);
    }
  }

  /** Only the recording step of a file's own tasks touches what its row summarises. */
  lemma RecordedUnchanged(s: State, step: Step, f: int)
    requires Enabled(s, step)
    requires step.Record? ==> s.tasks[step.task].file != f
    ensures RecordedIn(Apply(s, step), f) == RecordedIn(s, f)
    ensures f in Apply(s, step).toc <==> f in s.toc
    ensures f in s.toc ==> Apply(s, step).toc[f] == s.toc[f]
  {
    TasksStayRecorded(s, step, f);
    SameRecorded(s, Apply(s, step), f);
  }

  lemma TasksStayRecorded(s: State, step: Step, f: int)
    requires Enabled(s, step) && (step.Record? ==> s.tasks[step.task].file != f)
    ensures var s' := Apply(s, step);
            && (forall id | id in s.tasks :: id in s'.tasks && s'.tasks[id].segment == s.tasks[id].segment && s'.tasks[id].file == s.tasks[id].file)
            && (forall id | id in s.tasks && s.tasks[id].file == f :: IsRecorded(s'.tasks[id]) <==> IsRecorded(s.tasks[id]))
            && (forall id | id in s'.tasks && id !in s.tasks :: !IsRecorded(s'.tasks[id]))
  {
  }

  lemma SameRecorded(s: State, s': State, f: int)
    requires forall id | id in s.tasks :: id in s'.tasks && s'.tasks[id].segment == s.tasks[id].segment && s'.tasks[id].file == s.tasks[id].file
    requires forall id | id in s.tasks && s.tasks[id].file == f :: IsRecorded(s'.tasks[id]) <==> IsRecorded(s.tasks[id])
    requires forall id | id in s'.tasks && id !in s.tasks :: !IsRecorded(s'.tasks[id])
    ensures RecordedIn(s', f) == RecordedIn(s, f)
  {
    forall id ensures id in RecordedIn(s', f) <==> id in RecordedIn(s, f) {
      assert id in s.tasks || id !in s.tasks;
    }
    assert forall id | id in RecordedIn(s, f) :: RecordedIn(s', f)[id] == RecordedIn(s, f)[id];
    assert RecordedIn(s', f).Keys == RecordedIn(s, f).Keys;
  }

  lemma RowsKept(s: State, step: Step)
    requires RowsInv(s) && CopiesInv(s) && Enabled(s, step)
    ensures RowsInv(Apply(s, step))
  {
    var s' := Apply(s, step);
    forall f | f in s'.toc ensures IsSummary(s'.hash, s'.toc[f], RecordedIn(s', f)) {
      if step.Record? && s.tasks[step.task].file == f {
        RecordKeepsRow(s, step.task, step.totalBytes);
      } else {
        RecordedUnchanged(s, step, f);
      }
    }
  }

  lemma CopiesKept(s: State, step: Step)
    requires CopiesInv(s) && Enabled(s, step)
    ensures CopiesInv(Apply(s, step))
  {
  }

  /** Rows are never removed and only widen. */
  lemma TocWidens(s: State, step: Step)
    requires Enabled(s, step)
    ensures forall f | f in s.toc :: f in Apply(s, step).toc && Toc.Widens(s.toc[f], Apply(s, step).toc[f])
  {
  }

  // ---- File cache -----------------------------------------------------------------

  lemma OpenKeepsCache(s: State, f: int, accessor: int, evict: Option<int>)
    requires CacheInv(s) && MayOpen(s, f, accessor, evict)
    ensures forall g, h | g in Opened(s, f, accessor, evict) && h in Opened(s, f, accessor, evict) &&
              Opened(s, f, accessor, evict)[g] == Opened(s, f, accessor, evict)[h] :: g == h
    ensures f in Opened(s, f, accessor, evict) && Opened(s, f, accessor, evict)[f] == accessor
    ensures forall g | g in s.cache && Held(s, s.cache[g]) ::
              g in Opened(s, f, accessor, evict) && Opened(s, f, accessor, evict)[g] == s.cache[g]
  {
    assert forall g | g in s.cache :: s.cache[g] in s.cache.Values;
  }

  lemma ChooseKeepsCache(s: State, step: Step)
    requires CacheInv(s) && Enabled(s, step) && step.Choose?
    ensures CacheInv(Apply(s, step))
  {
    OpenKeepsCache(s, ChosenFile(s, step.choice), step.accessor, step.evict);
  }

  lemma OpenHandleKeepsCache(s: State, step: Step)
    requires CacheInv(s) && Enabled(s, step) && step.Open?
    ensures CacheInv(Apply(s, step))
  {
    OpenKeepsCache(s, step.file, step.accessor, step.evict);
  }

  lemma CacheKept(s: State, step: Step)
    requires CacheInv(s) && Enabled(s, step)
    ensures CacheInv(Apply(s, step))
  {
    match step
    case Choose(_, _, _, _) => ChooseKeepsCache(s, step);
    case Open(_, _, _, _) => OpenHandleKeepsCache(s, step);
    case Submit(_) => SubmitKeepsCache(s, step);
    case _ => FewerHoldersKeepCache(s, step);
  }

  lemma SubmitKeepsCache(s: State, step: Step)
    requires CacheInv(s) && Enabled(s, step) && step.Submit?
    ensures CacheInv(Apply(s, step))
  {
  }

  lemma FewerHoldersKeepCache(s: State, step: Step)
    requires CacheInv(s) && Enabled(s, step) && !step.Choose? && !step.Open? && !step.Submit?
    ensures CacheInv(Apply(s, step))
  {
    if !step.Restart? {
      assert Apply(s, step).cache == s.cache;
    }
  }

  // ---- Scans --------------------------------------------------------------------

  lemma ScanStepKeeps(toc: map<int, Toc.Row>, k: Scan)
    requires ScanOk(toc, k) && !k.finished && forall f | f in toc :: 0 < f
    ensures ScanOk(toc, Scanned(toc, k))
    ensures Scanned(toc, k).finished || Scanned(toc, k).cursor < k.cursor
  {
    assert forall i | 0 <= i < |k.out| :: k.out[i] in k.out;
    match BTree.FindNext(toc.Keys, Toc.Order, Toc.Order(k.cursor))
    case None =>
    case Some(f) =>
      forall g | g in k.began && f - 1 < g ensures g in Scanned(toc, k).out {
        assert k.cursor < g || g == f;
      }
  }

  lemma ScanSurvivesWidening(toc: map<int, Toc.Row>, toc': map<int, Toc.Row>, k: Scan)
    requires ScanOk(toc, k)
    requires forall f | f in toc :: f in toc' && Toc.Widens(toc[f], toc'[f])
    ensures ScanOk(toc', k)
  {
  }

  lemma ScansKept(s: State, step: Step)
    requires IdsInv(s) && ScansInv(s) && Enabled(s, step)
    ensures ScansInv(Apply(s, step))
  {
    var s' := Apply(s, step);
    TocWidens(s, step);
    forall k | k in s'.scans ensures ScanOk(s'.toc, s'.scans[k]) {
      if step == ScanNext(k) {
        ScanStepKeeps(s.toc, s.scans[k]);
      } else if k in s.scans {
        ScanSurvivesWidening(s.toc, s'.toc, s.scans[k]);
      }
    }
  }

  // ---- Runs ------------------------------------------------------------------------

  lemma StepKeepsInv(s: State, step: Step)
    requires Inv(s) && Enabled(s, step)
    ensures Inv(Apply(s, step))
  {
    assert forall id | id in s.tasks :: TaskOk(s, id);
    IdsKept(s, step);
    FilesKept(s, step);
    CallsKept(s, step);
    RowsKept(s, step);
    CopiesKept(s, step);
    CacheKept(s, step);
    ScansKept(s, step);
  }

  lemma {:induction false} RunKeepsInv(r: Run, i: nat)
    requires IsRun(r) && i < |r.states|
    ensures Inv(r.states[i])
  {
    if i > 0 {
      RunKeepsInv(r, i - 1);
      assert Takes(r, i - 1);
      StepKeepsInv(r.states[i - 1], r.steps[i - 1]);
    }
  }
}
