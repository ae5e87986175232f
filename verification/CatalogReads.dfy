/**
 * The read path over whole runs: an unlocked scan of the table, one row at a
 * time, followed by a locked walk of each listed file, sees every segment that
 * was recorded before it began, and only segments that were really written.
 */
module CatalogReads {
  import opened Words
  import opened CatalogFile
  import opened CatalogProtocol
  import opened CatalogInvariants
  import W = CatalogWrites
  import Toc

  // ---- What never goes away --------------------------------------------------------

  /** Tasks, files, index keys and table rows of `s` are still there in `s'`. */
  ghost predicate Grows(s: State, s': State) {
    && s'.hash == s.hash && s.clock <= s'.clock
    && (forall id | id in s.tasks :: id in s'.tasks && TaskGrows(s.tasks[id], s'.tasks[id]))
    && (forall f | f in s.files :: f in s'.files && FileGrows(s.files[f], s'.files[f]))
    && (forall f | f in s.toc :: f in s'.toc && Toc.Widens(s.toc[f], s'.toc[f]))
  }

  ghost predicate TaskGrows(t: Task, t': Task) {
    t'.segment == t.segment && t'.file == t.file && (IsRecorded(t) ==> IsRecorded(t'))
  }

  ghost predicate FileGrows(f: W.File, f': W.File) {
    && f.index.Keys <= f'.index.Keys
    && (forall w | w in f.writers && f.writers[w].phase.Indexed? :: w in f'.writers && f'.writers[w] == f.writers[w])
  }

  lemma FilesGrow(s: State, step: Step)
    requires Enabled(s, step)
    ensures forall f | f in s.files :: f in Apply(s, step).files && FileGrows(s.files[f], Apply(s, step).files[f])
  {
    match step
    case Submit(id) => W.StepsOnlyAdd(s.files[s.caller.file], id, W.Begin(s.caller.segment));
    case Create(id, act) => W.StepsOnlyAdd(s.files[s.tasks[id].file], id, act);
    case LockRead(f, r) => W.StepsOnlyAdd(s.files[f], r, W.LockRead);
    case UnlockRead(f, r) => W.StepsOnlyAdd(s.files[f], r, W.UnlockRead);
    case _ =>
  }

  lemma TasksGrow(s: State, step: Step)
    requires Enabled(s, step)
    ensures forall id | id in s.tasks :: id in Apply(s, step).tasks && TaskGrows(s.tasks[id], Apply(s, step).tasks[id])
    ensures Apply(s, step).hash == s.hash && s.clock <= Apply(s, step).clock
  {
  }

  lemma RunStepGrows(r: Run, i: nat)
    requires IsRun(r) && i < |r.steps|
    ensures Grows(r.states[i], r.states[i + 1])
  {
    assert Takes(r, i);
    FilesGrow(r.states[i], r.steps[i]);
    TasksGrow(r.states[i], r.steps[i]);
    TocWidens(r.states[i], r.steps[i]);
  }

  lemma {:induction false} RunGrows(r: Run, i: nat, j: nat)
    requires IsRun(r) && i <= j < |r.states|
    ensures Grows(r.states[i], r.states[j])
    decreases j
  {
    if i < j {
      RunGrows(r, i, j - 1);
      RunStepGrows(r, j - 1);
      GrowsIsTransitive(r.states[i], r.states[j - 1], r.states[j]);
    }
  }

  lemma GrowsIsTransitive(a: State, b: State, c: State)
    requires Grows(a, b) && Grows(b, c)
    ensures Grows(a, c)
  {
    forall f | f in a.files ensures f in c.files && FileGrows(a.files[f], c.files[f]) {
      assert FileGrows(a.files[f], b.files[f]) && FileGrows(b.files[f], c.files[f]);
    }
    forall id | id in a.tasks ensures id in c.tasks && TaskGrows(a.tasks[id], c.tasks[id]) {
      assert TaskGrows(a.tasks[id], b.tasks[id]) && TaskGrows(b.tasks[id], c.tasks[id]);
    }
    forall f | f in a.toc ensures f in c.toc && Toc.Widens(a.toc[f], c.toc[f]) {
      assert Toc.Widens(a.toc[f], b.toc[f]) && Toc.Widens(b.toc[f], c.toc[f]);
    }
  }

  // ---- Scans ----------------------------------------------------------------------

  /** Scan `k` begins at step `j` and its process is still the one running in state `m`. */
  ghost predicate Scanning(r: Run, k: int, indexId: int, lo: int, hi: int, j: nat, m: nat) {
    && IsRun(r) && j < m < |r.states|
    && r.steps[j] == BeginScan(k, indexId, lo, hi)
    && forall x | j < x < m :: !r.steps[x].Restart?
  }

  ghost function MatchingAt(s: State, indexId: int, lo: int, hi: int): set<int> {
    set f | f in s.toc && f <= s.clock && Toc.Matches(s.toc[f], s.hash(indexId), lo, hi)
  }

  /** The turns scan `k` has taken by state `m`. */
  ghost function Turns(r: Run, k: int, a: nat, b: nat): nat
    requires a <= b <= |r.steps|
    decreases b
  {
    if a == b then 0 else Turns(r, k, a, b - 1) + if r.steps[b - 1] == ScanNext(k) then 1 else 0
  }

  lemma OtherStepsLeaveScans(s: State, step: Step, k: int)
    requires Enabled(s, step) && k in s.scans && step != ScanNext(k) && !step.Restart?
    ensures k in Apply(s, step).scans && Apply(s, step).scans[k] == s.scans[k]
  {
  }

  /** `sc` is a scan begun in state `s` that has since taken `turns` turns. */
  ghost predicate Follows(sc: Scan, s: State, indexId: int, lo: int, hi: int, turns: int) {
    && sc.bits == s.hash(indexId) && sc.lo == lo && sc.hi == hi && sc.now == s.clock
    && sc.began == MatchingAt(s, indexId, lo, hi)
    && turns + sc.cursor + (if sc.finished then 0 else 1) <= sc.now + 1
  }

  lemma ScanBegins(s: State, k: int, indexId: int, lo: int, hi: int)
    requires Enabled(s, BeginScan(k, indexId, lo, hi))
    ensures k in Apply(s, BeginScan(k, indexId, lo, hi)).scans
    ensures Follows(Apply(s, BeginScan(k, indexId, lo, hi)).scans[k], s, indexId, lo, hi, 0)
  {
  }

  lemma ScanTurn(s: State, k: int, s0: State, indexId: int, lo: int, hi: int, turns: int)
    requires Inv(s) && Enabled(s, ScanNext(k)) && Follows(s.scans[k], s0, indexId, lo, hi, turns)
    ensures k in Apply(s, ScanNext(k)).scans
    ensures Follows(Apply(s, ScanNext(k)).scans[k], s0, indexId, lo, hi, turns + 1)
  {
    ScanStepKeeps(s.toc, s.scans[k]);
  }

  lemma {:induction false} ScanPersists(r: Run, k: int, indexId: int, lo: int, hi: int, j: nat, m: nat)
    requires Scanning(r, k, indexId, lo, hi, j, m)
    ensures k in r.states[m].scans
    ensures Follows(r.states[m].scans[k], r.states[j], indexId, lo, hi, Turns(r, k, j + 1, m))
    decreases m
  {
    assert Takes(r, m - 1);
    if m == j + 1 {
      ScanBegins(r.states[j], k, indexId, lo, hi);
    } else {
      ScanPersists(r, k, indexId, lo, hi, j, m - 1);
      RunKeepsInv(r, m - 1);
      if r.steps[m - 1] == ScanNext(k) {
        ScanTurn(r.states[m - 1], k, r.states[j], indexId, lo, hi, Turns(r, k, j + 1, m - 1));
      } else {
        OtherStepsLeaveScans(r.states[m - 1], r.steps[m - 1], k);
      }
    }
  }

  lemma ScanListsMatches(r: Run, k: int, indexId: int, lo: int, hi: int, j: nat, m: nat)
    requires Scanning(r, k, indexId, lo, hi, j, m)
    ensures k in r.states[m].scans && Turns(r, k, j + 1, m) <= r.states[j].clock + 1
    ensures var out := r.states[m].scans[k].out;
            && (forall a, b | 0 <= a < b < |out| :: out[a] > out[b])
            && (forall f | f in out :: f in MatchingAt(r.states[m], indexId, lo, hi) && f <= r.states[j].clock)
    ensures r.states[m].scans[k].finished ==>
              forall f | f in MatchingAt(r.states[j], indexId, lo, hi) :: f in r.states[m].scans[k].out
  {
    ScanPersists(r, k, indexId, lo, hi, j, m);
    RunKeepsInv(r, m);
    RunGrows(r, j, m);
    assert ScanOk(r.states[m].toc, r.states[m].scans[k]);
  }

  // ---- What pruning goes by ---------------------------------------------------------

  predicate RecordedOn(s: State, f: int, id: int) { id in s.tasks && IsRecorded(s.tasks[id]) && s.tasks[id].file == f }

  /**
   * The recorded writes of a file give no reason to prune it: one starts at or before the
   * end of the query, one ends at or after its beginning, and every bloom bit of the
   * index was set by one of them.
   */
  ghost predicate Worthwhile(s: State, f: int, indexId: int, lo: int, hi: int) {
    && (exists id | RecordedOn(s, f, id) :: s.tasks[id].segment.start <= hi)
    && (exists id | RecordedOn(s, f, id) :: lo <= s.tasks[id].segment.end)
    && (forall b | b in s.hash(indexId) :: exists id | RecordedOn(s, f, id) :: b in s.hash(s.tasks[id].segment.indexId))
  }

  lemma RecordedWrites(s: State, f: int)
    ensures forall id :: id in RecordedIn(s, f) <==> RecordedOn(s, f, id)
    ensures forall id | RecordedOn(s, f, id) :: RecordedIn(s, f)[id] == s.tasks[id].segment
  {
  }

  lemma RangeMatchIff(s: State, f: int, lo: int, hi: int)
    requires f in s.toc && IsRange(s.toc[f].min, s.toc[f].max, s.toc[f].count, RecordedIn(s, f))
    ensures s.toc[f].min <= hi <==> exists id | RecordedOn(s, f, id) :: s.tasks[id].segment.start <= hi
    ensures lo <= s.toc[f].max <==> exists id | RecordedOn(s, f, id) :: lo <= s.tasks[id].segment.end
  {
    RecordedWrites(s, f);
    var least :| least in RecordedIn(s, f) && RecordedIn(s, f)[least].start == s.toc[f].min;
    assert RecordedOn(s, f, least);
    var greatest :| greatest in RecordedIn(s, f) && RecordedIn(s, f)[greatest].end == s.toc[f].max;
    assert RecordedOn(s, f, greatest);
  }

  lemma BloomMatchIff(s: State, f: int, indexId: int)
    requires f in s.toc && s.toc[f].bloom == AllBits(s.hash, RecordedIn(s, f))
    ensures (forall b | b in s.hash(indexId) :: b in s.toc[f].bloom) <==>
            forall b | b in s.hash(indexId) :: exists id | RecordedOn(s, f, id) :: b in s.hash(s.tasks[id].segment.indexId)
  {
    RecordedWrites(s, f);
    forall b ensures b in s.toc[f].bloom <==> exists id | RecordedOn(s, f, id) :: b in s.hash(s.tasks[id].segment.indexId) {
      if b in s.toc[f].bloom {
        var id :| id in RecordedIn(s, f) && b in s.hash(RecordedIn(s, f)[id].indexId);
        assert RecordedOn(s, f, id);
      }
    }
  }

  lemma RowMatchIff(s: State, f: int, indexId: int, lo: int, hi: int)
    requires RowsInv(s) && f in s.toc
    ensures Toc.Matches(s.toc[f], s.hash(indexId), lo, hi) <==> Worthwhile(s, f, indexId, lo, hi)
  {
    assert IsSummary(s.hash, s.toc[f], RecordedIn(s, f));
    RangeMatchIff(s, f, lo, hi);
    BloomMatchIff(s, f, indexId);
    Toc.MatchesMeans(s.toc[f], s.hash(indexId), lo, hi);
  }

  /** The table prunes a file exactly as the file's recorded writes would. */
  lemma MatchesIffWorthwhile(s: State, f: int, indexId: int, lo: int, hi: int)
    requires RowsInv(s) && CopiesInv(s)
    ensures f in s.toc && Toc.Matches(s.toc[f], s.hash(indexId), lo, hi) <==> Worthwhile(s, f, indexId, lo, hi)
  {
    if f in s.toc {
      RowMatchIff(s, f, indexId, lo, hi);
    } else {
      assert forall id :: !RecordedOn(s, f, id);
    }
  }

  /**
   * An unlocked scan interleaved with any writers lists distinct files, newest first.  It
   * lists every file at or below its clock that was worthwhile when it began, lists only
   * files that are worthwhile when it ends, and takes at most clock + 1 turns.
   */
  lemma ScanIsCompleteAndSound(r: Run, k: int, indexId: int, lo: int, hi: int, j: nat, m: nat)
    requires Scanning(r, k, indexId, lo, hi, j, m)
    ensures k in r.states[m].scans && Turns(r, k, j + 1, m) <= r.states[j].clock + 1
    ensures var out := r.states[m].scans[k].out;
            && (forall a, b | 0 <= a < b < |out| :: out[a] > out[b])
            && (forall f | f in out :: f <= r.states[j].clock && Worthwhile(r.states[m], f, indexId, lo, hi))
    ensures r.states[m].scans[k].finished ==>
              forall f | f <= r.states[j].clock && Worthwhile(r.states[j], f, indexId, lo, hi) :: f in r.states[m].scans[k].out
  {
    ScanListsMatches(r, k, indexId, lo, hi, j, m);
    RunKeepsInv(r, j);
    RunKeepsInv(r, m);
    forall f | f in r.states[m].scans[k].out ensures Worthwhile(r.states[m], f, indexId, lo, hi) {
      MatchesIffWorthwhile(r.states[m], f, indexId, lo, hi);
    }
    forall f | f <= r.states[j].clock && Worthwhile(r.states[j], f, indexId, lo, hi) ensures f in MatchingAt(r.states[j], indexId, lo, hi) {
      MatchesIffWorthwhile(r.states[j], f, indexId, lo, hi);
    }
  }

  // ---- Reads ------------------------------------------------------------------------

  /** The row of a file never prunes away a query that one of its recorded segments answers. */
  lemma RecordedFilesMatch(s: State, id: int, lo: int, hi: int)
    requires Inv(s) && id in s.tasks && IsRecorded(s.tasks[id])
    requires s.tasks[id].segment.start <= hi && lo <= s.tasks[id].segment.end
    ensures s.tasks[id].file in s.toc
    ensures Toc.Matches(s.toc[s.tasks[id].file], s.hash(s.tasks[id].segment.indexId), lo, hi)
  {
    var f := s.tasks[id].file;
    var done := RecordedIn(s, f);
    assert IsSummary(s.hash, s.toc[f], done);
    assert id in done;
    forall b | b in s.hash(s.tasks[id].segment.indexId) ensures b in s.toc[f].bloom {
      assert b in AllBits(s.hash, done);
    }
  }

  /**
   * Which recorded files a finished scan lists: of the files that hold a recorded
   * segment meeting the query, exactly those whose id the clock had reached.
   */
  lemma RecordedFileIsListedIff(r: Run, id: int, k: int, lo: int, hi: int, j: nat, m: nat)
    requires IsRun(r) && j < m < |r.states| && id in r.states[j].tasks && IsRecorded(r.states[j].tasks[id])
    requires var g := r.states[j].tasks[id].segment;
             Scanning(r, k, g.indexId, lo, hi, j, m) && g.start <= hi && lo <= g.end
    requires k in r.states[m].scans && r.states[m].scans[k].finished
    ensures r.states[j].tasks[id].file in r.states[m].scans[k].out <==> r.states[j].tasks[id].file <= r.states[j].clock
  {
    var t := r.states[j].tasks[id];
    RunKeepsInv(r, j);
    RecordedFilesMatch(r.states[j], id, lo, hi);
    ScanListsMatches(r, k, t.segment.indexId, lo, hi, j, m);
    assert t.file <= r.states[j].clock ==> t.file in MatchingAt(r.states[j], t.segment.indexId, lo, hi);
  }

  /**
   * A new file chosen while the clock is past the last id takes the clock itself as its
   * id, so every scan begun once a segment is recorded there lists it.
   */
  lemma NewFileIsListed(r: Run, x: nat, id: int, k: int, lo: int, hi: int, j: nat, m: nat)
    requires IsRun(r) && x <= j < m < |r.states| && r.steps[x].Choose? && r.steps[x].choice.New?
    requires r.states[x].lastFileId < r.states[x].clock
    ensures r.states[x + 1].caller.Chosen? && r.states[x + 1].caller.file == r.states[x].clock
    ensures id in r.states[j].tasks && IsRecorded(r.states[j].tasks[id]) && r.states[j].tasks[id].file == r.states[x + 1].caller.file
            && Scanning(r, k, r.states[j].tasks[id].segment.indexId, lo, hi, j, m)
            && r.states[j].tasks[id].segment.start <= hi && lo <= r.states[j].tasks[id].segment.end
            && k in r.states[m].scans && r.states[m].scans[k].finished ==>
              r.states[x].clock in r.states[m].scans[k].out
  {
    assert Takes(r, x);
    RunGrows(r, x, j);
    if id in r.states[j].tasks && IsRecorded(r.states[j].tasks[id])
       && Scanning(r, k, r.states[j].tasks[id].segment.indexId, lo, hi, j, m)
       && r.states[j].tasks[id].segment.start <= hi && lo <= r.states[j].tasks[id].segment.end
       && k in r.states[m].scans && r.states[m].scans[k].finished {
      RecordedFileIsListedIff(r, id, k, lo, hi, j, m);
    }
  }

  /** No other task wrote this file under the same index, start block and generation. */
  ghost predicate SoleKey(s: State, id: int)
    requires id in s.tasks
  {
    forall other | other in s.tasks && other != id && s.tasks[other].file == s.tasks[id].file ::
      SegmentKey(s.tasks[other].segment) != SegmentKey(s.tasks[id].segment)
  }

  lemma RecordedIsIndexed(s: State, id: int)
    requires Inv(s) && id in s.tasks && IsRecorded(s.tasks[id])
    ensures s.tasks[id].file in s.files && SegmentKey(s.tasks[id].segment) in s.files[s.tasks[id].file].index
    ensures SoleKey(s, id) ==>
              var f := s.files[s.tasks[id].file];
              && id in f.writers && f.writers[id].phase.Indexed?
              && f.index[SegmentKey(s.tasks[id].segment)] == EntryOf(s.tasks[id].segment, f.writers[id].phase.offset)
              && W.Published(f, f.index[SegmentKey(s.tasks[id].segment)], id)
  {
    assert TaskOk(s, id);
    var f := s.files[s.tasks[id].file];
    assert W.Inv(f) && W.WriterOk(f, f.writers[id]);
    if SoleKey(s, id) {
      forall other | other in f.writers && other != id ensures SegmentKey(f.writers[other].segment) != SegmentKey(f.writers[id].segment) {
        assert TaskOk(s, other);
      }
      W.SoleWriterIsIndexed(f, id);
    }
  }

  /** A walk of `f` that reported `out` reported segment `g`, and its bytes can be read back whole. */
  ghost predicate ReadsBack(f: W.File, out: seq<Entry>, g: Segment) {
    && SegmentKey(g) in f.index
    && var e := f.index[SegmentKey(g)];
    && e in out && e.start == g.start && e.end == g.end && e.version == g.version
    && (forall p | e.offset <= p < e.offset + e.length :: p in f.bytes)
    && W.Region(f, e) == g.content
  }

  lemma IndexedIsReadBack(s: State, id: int, lo: u64, hi: u64, out: seq<Entry>)
    requires Inv(s) && id in s.tasks && IsRecorded(s.tasks[id]) && SoleKey(s, id) && s.tasks[id].file in s.files
    requires lo <= s.tasks[id].segment.start <= hi && lo <= s.tasks[id].segment.end
    requires IsWalk(s.files[s.tasks[id].file].index, s.tasks[id].segment.indexId, lo, hi, out)
    ensures ReadsBack(s.files[s.tasks[id].file], out, s.tasks[id].segment)
  {
    RecordedIsIndexed(s, id);
    assert TaskOk(s, id);
    RegionOfPublished(s.files[s.tasks[id].file], SegmentKey(s.tasks[id].segment), id);
  }

  /**
   * Completeness.  A segment recorded before a scan begins, in a file whose id the
   * clock has reached, is found: the scan lists the file, and a later walk of the
   * file reports the segment's entry, through which its exact bytes are read.
   */
  lemma RecordedSegmentsAreRead(r: Run, id: int, k: int, lo: u64, hi: u64, j: nat, m: nat, n: nat, out: seq<Entry>)
    requires IsRun(r) && j < m <= n < |r.states|
    requires id in r.states[j].tasks && IsRecorded(r.states[j].tasks[id])
    requires var t := r.states[j].tasks[id];
             && Scanning(r, k, t.segment.indexId, lo, hi, j, m)
             && t.file <= r.states[j].clock && lo <= t.segment.start <= hi && lo <= t.segment.end
             && t.file in r.states[n].files
             && IsWalk(r.states[n].files[t.file].index, t.segment.indexId, lo, hi, out)
    requires k in r.states[m].scans && r.states[m].scans[k].finished
    ensures r.states[j].tasks[id].file in r.states[m].scans[k].out
    ensures id in r.states[n].tasks
    // Its key is filed, and what is filed there is reported unless its end lies before the range.
    ensures var index, key := r.states[n].files[r.states[j].tasks[id].file].index, SegmentKey(r.states[j].tasks[id].segment);
            key in index && (index[key] in out <==> lo <= index[key].end)
    // Written once under that key, it is this very segment.
    ensures SoleKey(r.states[n], id) ==>
              ReadsBack(r.states[n].files[r.states[j].tasks[id].file], out, r.states[j].tasks[id].segment)
  {
    var t := r.states[j].tasks[id];
    RecordedFileIsListedIff(r, id, k, lo, hi, j, m);
    RunGrows(r, j, n);
    RunKeepsInv(r, n);
    assert TaskGrows(t, r.states[n].tasks[id]);
    RecordedIsIndexed(r.states[n], id);
    IndexKeys(r.states[n], t.file);
    if SoleKey(r.states[n], id) {
      IndexedIsReadBack(r.states[n], id, lo, hi, out);
    }
  }

  lemma IndexKeys(s: State, f: int)
    requires FilesInv(s) && f in s.files
    ensures IndexOk(s.files[f].index)
  {
    assert W.Inv(s.files[f]);
  }

  lemma RegionOfPublished(f: W.File, k: Key, id: int)
    requires W.Inv(f) && k in f.index && W.Published(f, f.index[k], id)
    ensures forall p | f.index[k].offset <= p < f.index[k].offset + f.index[k].length :: p in f.bytes
    ensures W.Region(f, f.index[k]) == f.writers[id].segment.content
  {
    assert W.WriterOk(f, f.writers[id]);
    assert W.Holds(f.bytes, f.index[k].offset, f.writers[id].segment.content, |f.writers[id].segment.content|);
  }

  /**
   * Soundness.  Whatever a walk reports in any state of any run is the segment of
   * some task of that very file and index, lying in range, with its exact bytes.
   */
  lemma ReadsAreSound(r: Run, n: nat, f: int, indexId: u16, lo: u64, hi: u64, out: seq<Entry>, e: Entry) returns (id: int)
    requires IsRun(r) && n < |r.states| && f in r.states[n].files
    requires IsWalk(r.states[n].files[f].index, indexId, lo, hi, out) && e in out
    ensures id in r.states[n].tasks && r.states[n].tasks[id].file == f
    ensures var g := r.states[n].tasks[id].segment;
            && g.indexId == indexId && lo <= g.start <= hi && lo <= g.end && e.start == g.start && e.end == g.end
            && (forall p | e.offset <= p < e.offset + e.length :: p in r.states[n].files[f].bytes)
            && W.Region(r.states[n].files[f], e) == g.content
  {
    RunKeepsInv(r, n);
    var s := r.states[n];
    assert W.Inv(s.files[f]);
    id := W.VisibleEntriesAreComplete(s.files[f], EntryKey(e));
    assert TaskOk(s, id);
  }

  // ---- Read sessions ------------------------------------------------------------------

  /** A step changes at most one file, and that file by one step of its own. */
  lemma OneFileStep(s: State, step: Step, f: int) returns (id: int, act: Option<W.Action>)
    requires Enabled(s, step) && f in s.files
    ensures f in Apply(s, step).files
    ensures act.None? ==> Apply(s, step).files[f] == s.files[f]
    ensures act.Some? ==> W.Enabled(s.files[f], id, act.value) && Apply(s, step).files[f] == W.Apply(s.files[f], id, act.value)
  {
    id, act := 0, None;
    match step
    case Submit(t) => if s.caller.file == f { id, act := t, Some(W.Begin(s.caller.segment)); }
    case Create(t, a) => if s.tasks[t].file == f { id, act := t, Some(a); }
    case LockRead(g, reader) => if g == f { id, act := reader, Some(W.LockRead); }
    case UnlockRead(g, reader) => if g == f { id, act := reader, Some(W.UnlockRead); }
    case _ =>
  }

  lemma SessionStep(s: State, step: Step, f: int, k: Key, p: int)
    requires FilesInv(s) && Enabled(s, step) && f in s.files && s.files[f].readers != {}
    requires k in s.files[f].index && s.files[f].index[k].offset <= p < s.files[f].index[k].offset + s.files[f].index[k].length
    ensures f in Apply(s, step).files && Apply(s, step).files[f].index == s.files[f].index
    ensures p in s.files[f].bytes && p in Apply(s, step).files[f].bytes
    ensures Apply(s, step).files[f].bytes[p] == s.files[f].bytes[p]
  {
    var id, act := OneFileStep(s, step, f);
    if act.Some? {
      W.ReadersSeeAStableFile(s.files[f], id, act.value, k, p);
    } else {
      var owner := W.VisibleEntriesAreComplete(s.files[f], k);
    }
  }

  lemma RunSessionStep(r: Run, i: nat, f: int, k: Key, p: int)
    requires IsRun(r) && i < |r.steps| && f in r.states[i].files && r.states[i].files[f].readers != {}
    requires k in r.states[i].files[f].index
    requires var e := r.states[i].files[f].index[k]; e.offset <= p < e.offset + e.length
    ensures f in r.states[i + 1].files && r.states[i + 1].files[f].index == r.states[i].files[f].index
    ensures p in r.states[i].files[f].bytes && p in r.states[i + 1].files[f].bytes
    ensures r.states[i + 1].files[f].bytes[p] == r.states[i].files[f].bytes[p]
  {
    assert Takes(r, i);
    RunKeepsInv(r, i);
    SessionStep(r.states[i], r.steps[i], f, k, p);
  }

  lemma IndexedBytesExist(r: Run, i: nat, f: int, k: Key, p: int)
    requires IsRun(r) && i < |r.states| && f in r.states[i].files && k in r.states[i].files[f].index
    requires var e := r.states[i].files[f].index[k]; e.offset <= p < e.offset + e.length
    ensures p in r.states[i].files[f].bytes
  {
    RunKeepsInv(r, i);
    var owner := W.VisibleEntriesAreComplete(r.states[i].files[f], k);
  }

  /** From the moment a read session opens until it ends, the index and every byte it points at stay as they were. */
  lemma {:induction false} SessionsSeeOneFile(r: Run, f: int, reader: int, n: nat, m: nat, k: Key, p: int)
    requires IsRun(r) && n <= m < |r.states|
    requires forall x | n <= x <= m :: f in r.states[x].files && reader in r.states[x].files[f].readers
    requires k in r.states[n].files[f].index
    requires var e := r.states[n].files[f].index[k]; e.offset <= p < e.offset + e.length
    ensures r.states[m].files[f].index == r.states[n].files[f].index
    ensures p in r.states[n].files[f].bytes && p in r.states[m].files[f].bytes
    ensures r.states[m].files[f].bytes[p] == r.states[n].files[f].bytes[p]
    decreases m
  {
    if n == m {
      IndexedBytesExist(r, n, f, k, p);
    } else {
      SessionsSeeOneFile(r, f, reader, n, m - 1, k, p);
      RunSessionStep(r, m - 1, f, k, p);
    }
  }
}
