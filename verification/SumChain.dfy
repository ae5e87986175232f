/**
 * Journal and index together.  Blocks are sealed one after another while catalog
 * tasks, scans and index readers run in the background, one step at a time.  A read
 * of the index is itself many steps: an unlocked scan, then one read session per
 * listed file, so it may see some of the segments that land meanwhile and miss
 * others.  Every answer is the payload of one block's seal, at least as new as the
 * newest segment recorded when the read began; whether that payload is the fold of
 * the committed transactions depends on what the seals before it had seen.
 */
module SumChain {
  import opened Words
  import opened Codec
  import opened CatalogFile
  import opened CatalogProtocol
  import opened CatalogInvariants
  import opened CatalogReads
  import opened SumIndex
  import W = CatalogWrites
  import B = Backend

  /**
   * A read of the index.  `owed` holds the tasks whose segments were recorded, in
   * files the clock had reached, when it began.  While it walks, `walked` holds each
   * file as its read session saw it.
   */
  datatype Reader =
    | Scanning(owed: set<int>)
    | Walking(owed: set<int>, todo: seq<int>, walked: seq<W.File>)

  /** Readers are named by their scan. */
  datatype Chain = Chain(cat: State, blocks: seq<SealedBlock>, readers: map<int, Reader>)

  /**
   * Sealing reads the index twice: `sumReader` answered the sum, `countReader` the count.
   * Any two finished reads will do here, so the results hold however long ago they began.
   */
  datatype ChainStep =
    | Background(step: Step)
    | StartRead(reader: int)
    | StartWalks(reader: int)
    | WalkFile(reader: int)
    | AddBlock(txs: seq<TestTx>, sumReader: int, countReader: int, sum: Best, count: Best,
               choice: Choice, accessor: int, evict: Option<int>)

  function Owed(s: State): set<int> {
    set id | id in s.tasks && IsRecorded(s.tasks[id]) && s.tasks[id].file <= s.clock
  }

  /** Reader k has walked every file it listed and prefers `best`. */
  ghost predicate Answered(c: Chain, k: int, best: Best) {
    k in c.readers && c.readers[k].Walking? && c.readers[k].todo == [] && IsLatest(c.readers[k].walked, best)
  }

  function NextSegment(height: int, txs: seq<TestTx>, sum: int, count: int): Segment
    requires 0 <= height && height + 1 < U64_MAX
  {
    Segment(0, 1, 0, height, height + 1, Encode(Sealed(sum, count, B.Fold(TEST_DESIGN, NO_CHANGES, txs))))
  }

  ghost predicate ChainEnabled(c: Chain, step: ChainStep) {
    match step
    case Background(st) => Enabled(c.cat, st) && !st.Choose?
    case StartRead(k) => k !in c.readers && Enabled(c.cat, BeginScan(k, 0, 0, U64_MAX))
    case StartWalks(k) => k in c.readers && c.readers[k].Scanning? && k in c.cat.scans && c.cat.scans[k].finished
    case WalkFile(k) => k in c.readers && c.readers[k].Walking? && c.readers[k].todo != [] && c.readers[k].todo[0] in c.cat.files
    case AddBlock(txs, sumReader, countReader, sum, count, choice, accessor, evict) =>
      && |c.blocks| + 1 < U64_MAX && txs != []
      && Answered(c, sumReader, sum) && Answered(c, countReader, count)
      && Enabled(c.cat, Choose(NextSegment(|c.blocks|, txs, sum.sum, count.count), choice, accessor, evict))
  }

  ghost function ChainApply(c: Chain, step: ChainStep): Chain
    requires ChainEnabled(c, step)
  {
    match step
    case Background(st) => Chain(Apply(c.cat, st), c.blocks, if st.Restart? then map[] else c.readers)
    case StartRead(k) => Chain(Apply(c.cat, BeginScan(k, 0, 0, U64_MAX)), c.blocks, c.readers[k := Scanning(Owed(c.cat))])
    case StartWalks(k) => c.(readers := c.readers[k := Walking(c.readers[k].owed, c.cat.scans[k].out, [])])
    case WalkFile(k) =>
      var r := c.readers[k];
      c.(readers := c.readers[k := Walking(r.owed, r.todo[1..], r.walked + [c.cat.files[r.todo[0]]])])
    case AddBlock(txs, _, _, sum, count, choice, accessor, evict) =>
      Chain(Apply(c.cat, Choose(NextSegment(|c.blocks|, txs, sum.sum, count.count), choice, accessor, evict)),
            c.blocks + [SealedBlock(txs, sum.end, count.end)], c.readers)
  }

  datatype ChainRun = ChainRun(states: seq<Chain>, steps: seq<ChainStep>)

  ghost predicate IsChainRun(r: ChainRun) {
    && |r.states| == |r.steps| + 1
    && Init(r.states[0].cat) && r.states[0].blocks == [] && r.states[0].readers == map[]
    && forall i | 0 <= i < |r.steps| :: Steps(r, i)
  }

  ghost predicate Steps(r: ChainRun, i: nat)
    requires |r.states| == |r.steps| + 1 && i < |r.steps|
  {
    ChainEnabled(r.states[i], r.steps[i]) && r.states[i + 1] == ChainApply(r.states[i], r.steps[i])
  }

  /** Entry views start at their entry: none lies past the beginning of its file's first page. */
  ghost predicate ViewsStart(s: State) {
    forall f, k | f in s.files && k in s.files[f].index :: ViewPosition(s.files[f].index[k].offset) == s.files[f].index[k].offset
  }

  ghost predicate RunViewsStart(r: ChainRun) { forall i | 0 <= i < |r.states| :: ViewsStart(r.states[i].cat) }

  // ---- Invariant ---------------------------------------------------------------------------

  /** Segment `g` is the one block `g.start` got. */
  ghost predicate IsSealed(blocks: seq<SealedBlock>, g: Segment) {
    0 <= g.start < |blocks| && g.start < U64_MAX && BlocksOk(blocks) && g == SegmentFor(blocks, g.start)
  }

  ghost predicate TasksSealed(blocks: seq<SealedBlock>, tasks: map<int, Task>) {
    && (forall id | id in tasks :: IsSealed(blocks, tasks[id].segment))
    && (forall x, y | x in tasks && y in tasks && x != y :: tasks[x].segment.start != tasks[y].segment.start)
  }

  /** The segment the caller is about to hand to a task is that of the newest block. */
  ghost predicate CallerSealed(blocks: seq<SealedBlock>, tasks: map<int, Task>, caller: Caller) {
    caller.Chosen? ==>
      && IsSealed(blocks, caller.segment) && caller.segment.start == |blocks| - 1
      && forall id | id in tasks :: tasks[id].segment.start != caller.segment.start
  }

  predicate WrittenBy(tasks: map<int, Task>, b: int, id: int) { id in tasks && tasks[id].segment.start == b }

  /** Block b's segment has a task or is about to get one. */
  ghost predicate Covered(blocks: seq<SealedBlock>, tasks: map<int, Task>, caller: Caller, b: int) {
    (exists id :: WrittenBy(tasks, b, id)) || (caller.Chosen? && b == |blocks| - 1)
  }

  ghost predicate SealInv(blocks: seq<SealedBlock>, tasks: map<int, Task>, caller: Caller) {
    && |blocks| < U64_MAX && BlocksOk(blocks)
    && TasksSealed(blocks, tasks) && CallerSealed(blocks, tasks, caller)
    && forall b | 0 <= b < |blocks| :: Covered(blocks, tasks, caller, b)
  }

  /** Whatever a reader considers in this file is some block's own segment. */
  ghost predicate SnapshotOk(blocks: seq<SealedBlock>, f: W.File) {
    IndexOk(f.index) && forall e | Candidate(f, e) :: IsBlockEntry(blocks, f, e)
  }

  ghost predicate IsBlockEntry(blocks: seq<SealedBlock>, f: W.File, e: Entry) {
    BlocksOk(blocks) && 0 < e.end <= |blocks| && View(f, e) == Encode(ToldTotals(blocks, e.end))
  }

  /** One of the files walked so far has a segment that ends at v. */
  ghost predicate Saw(walked: seq<W.File>, v: int) {
    exists f, e :: f in walked && Candidate(f, e) && e.end == v
  }

  ghost predicate ReaderOk(c: Chain, k: int, r: Reader) {
    && (forall id | id in r.owed :: id in c.cat.tasks && IsRecorded(c.cat.tasks[id]))
    && match r
       case Scanning(owed) =>
         k in c.cat.scans && forall id | id in owed && id in c.cat.tasks :: c.cat.tasks[id].file in c.cat.scans[k].began
       case Walking(owed, todo, walked) =>
         && (forall f | f in walked :: SnapshotOk(c.blocks, f))
         && forall id | id in owed && id in c.cat.tasks ::
              c.cat.tasks[id].file in todo || Saw(walked, c.cat.tasks[id].segment.start + 1)
  }

  ghost predicate ReadersOk(c: Chain) {
    forall k | k in c.readers :: ReaderOk(c, k, c.readers[k])
  }

  ghost predicate ChainInv(c: Chain) {
    Inv(c.cat) && SealInv(c.blocks, c.cat.tasks, c.cat.caller) && ReadersOk(c)
  }

  // ---- What the index answers ----------------------------------------------------------------

  lemma ViewIsRegion(f: W.File, e: Entry, content: seq<byte>)
    requires |content| == 8 && e.length == 8 && ViewPosition(e.offset) == e.offset
    requires forall p | e.offset <= p < e.offset + e.length :: p in f.bytes
    requires W.Region(f, e) == content
    ensures View(f, e) == content
  {
    forall i | 0 <= i < 8 ensures View(f, e)[i] == content[i] {
      assert View(f, e)[i] == ByteAt(f, e.offset + i);
      assert e.offset + i in f.bytes && W.Region(f, e)[i] == content[i];
    }
  }

  /** Every entry a reader may consider is some block's own segment. */
  lemma CandidatesAreBlocks(c: Chain, f: int, e: Entry)
    requires FilesInv(c.cat) && CallsInv(c.cat) && TasksSealed(c.blocks, c.cat.tasks) && ViewsStart(c.cat)
    requires f in c.cat.files && Candidate(c.cat.files[f], e)
    ensures IsBlockEntry(c.blocks, c.cat.files[f], e)
  {
    var file := c.cat.files[f];
    assert W.Inv(file);
    var id := W.VisibleEntriesAreComplete(file, EntryKey(e));
    assert TaskOk(c.cat, id);
    var g := c.cat.tasks[id].segment;
    assert IsSealed(c.blocks, g);
    ViewIsRegion(file, e, g.content);
  }

  /** A recorded segment is considered when its file is walked. */
  lemma RecordedIsCandidate(c: Chain, id: int) returns (e: Entry)
    requires Inv(c.cat) && TasksSealed(c.blocks, c.cat.tasks) && id in c.cat.tasks && IsRecorded(c.cat.tasks[id])
    ensures c.cat.tasks[id].file in c.cat.files
    ensures Candidate(c.cat.files[c.cat.tasks[id].file], e) && e.end == c.cat.tasks[id].segment.start + 1
  {
    var g := c.cat.tasks[id].segment;
    assert IsSealed(c.blocks, g) && SoleKey(c.cat, id);
    RecordedIsIndexed(c.cat, id);
    e := c.cat.files[c.cat.tasks[id].file].index[SegmentKey(g)];
  }

  /** A finished read answers with the payload of one block's seal, no older than any segment it was owed. */
  lemma AnswerIsTold(c: Chain, k: int, best: Best)
    requires ReadersOk(c) && BlocksOk(c.blocks) && Answered(c, k, best)
    ensures 0 <= best.end <= |c.blocks|
    ensures best.sum == ToldTotals(c.blocks, best.end).sum && best.count == ToldTotals(c.blocks, best.end).count
    ensures forall id | id in c.readers[k].owed :: id in c.cat.tasks && c.cat.tasks[id].segment.start < best.end
  {
    var r := c.readers[k];
    assert ReaderOk(c, k, r);
    if best.found {
      var f, e :| f in r.walked && Candidate(f, e) && best == BestAt(f, e);
      assert SnapshotOk(c.blocks, f) && IsBlockEntry(c.blocks, f, e);
      TotalsRoundTrip(ToldTotals(c.blocks, e.end));
    }
    forall id | id in r.owed ensures id in c.cat.tasks && c.cat.tasks[id].segment.start < best.end {
      var f, e :| f in r.walked && Candidate(f, e) && e.end == c.cat.tasks[id].segment.start + 1;
      assert !Beats(e, best);
    }
  }

  // ---- Seals are kept --------------------------------------------------------------------------

  lemma SealedStays(blocks: seq<SealedBlock>, b: SealedBlock, g: Segment)
    requires IsSealed(blocks, g) && 0 <= b.sumBase <= |blocks| && 0 <= b.countBase <= |blocks|
    ensures IsSealed(blocks + [b], g)
  {
    EarlierTotalsStay(blocks, b, g.start + 1);
  }

  /** The segment offered for the next block is the one that block gets from its two reads. */
  lemma NextIsSealed(blocks: seq<SealedBlock>, b: SealedBlock, sum: int, count: int)
    requires BlocksOk(blocks) && |blocks| + 1 < U64_MAX && 0 <= b.sumBase <= |blocks| && 0 <= b.countBase <= |blocks|
    requires sum == ToldTotals(blocks, b.sumBase).sum && count == ToldTotals(blocks, b.countBase).count
    ensures IsSealed(blocks + [b], NextSegment(|blocks|, b.txs, sum, count))
  {
    SealTells(blocks, b);
  }

  lemma AddedKeepsSeal(blocks: seq<SealedBlock>, tasks: map<int, Task>, b: SealedBlock, caller: Caller)
    requires SealInv(blocks, tasks, Idle) && |blocks| + 1 < U64_MAX && caller.Chosen?
    requires 0 <= b.sumBase <= |blocks| && 0 <= b.countBase <= |blocks|
    requires IsSealed(blocks + [b], caller.segment) && caller.segment.start == |blocks|
    ensures SealInv(blocks + [b], tasks, caller)
  {
    var blocks' := blocks + [b];
    forall id | id in tasks ensures IsSealed(blocks', tasks[id].segment) && tasks[id].segment.start < |blocks| {
      assert IsSealed(blocks, tasks[id].segment);
      SealedStays(blocks, b, tasks[id].segment);
    }
    forall x | 0 <= x < |blocks'| ensures Covered(blocks', tasks, caller, x) {
      if x < |blocks| {
        assert Covered(blocks, tasks, Idle, x);
      }
    }
  }

  lemma SubmitKeepsSeal(blocks: seq<SealedBlock>, tasks: map<int, Task>, caller: Caller, id: int, t: Task)
    requires SealInv(blocks, tasks, caller) && caller.Chosen? && id !in tasks && t.segment == caller.segment
    ensures SealInv(blocks, tasks[id := t], Idle)
  {
    var tasks' := tasks[id := t];
    forall b | 0 <= b < |blocks| ensures Covered(blocks, tasks', Idle, b) {
      assert Covered(blocks, tasks, caller, b);
      if b == |blocks| - 1 {
        assert WrittenBy(tasks', b, id);
      } else {
        var x :| WrittenBy(tasks, b, x);
        assert WrittenBy(tasks', b, x);
      }
    }
  }

  lemma SameSegmentsKeepSeal(blocks: seq<SealedBlock>, tasks: map<int, Task>, tasks': map<int, Task>, caller: Caller)
    requires SealInv(blocks, tasks, caller) && tasks'.Keys == tasks.Keys
    requires forall id | id in tasks :: tasks'[id].segment == tasks[id].segment
    ensures SealInv(blocks, tasks', caller)
  {
    forall b | 0 <= b < |blocks| ensures Covered(blocks, tasks', caller, b) {
      assert Covered(blocks, tasks, caller, b);
      if id :| WrittenBy(tasks, b, id) {
        assert WrittenBy(tasks', b, id);
      }
    }
  }

  /** Steps other than choosing and submitting leave every task's segment and the caller alone. */
  lemma OtherStepsKeepSegments(s: State, st: Step)
    requires Enabled(s, st) && !st.Choose? && !st.Submit?
    ensures Apply(s, st).caller == s.caller && Apply(s, st).tasks.Keys == s.tasks.Keys
    ensures forall id | id in s.tasks :: Apply(s, st).tasks[id].segment == s.tasks[id].segment
  {
  }

  lemma BackgroundKeepsSeal(blocks: seq<SealedBlock>, s: State, st: Step)
    requires SealInv(blocks, s.tasks, s.caller) && Enabled(s, st) && !st.Choose?
    ensures SealInv(blocks, Apply(s, st).tasks, Apply(s, st).caller)
  {
    if st.Submit? {
      SubmitKeepsSeal(blocks, s.tasks, s.caller, st.task, Apply(s, st).tasks[st.task]);
    } else {
      OtherStepsKeepSegments(s, st);
      SameSegmentsKeepSeal(blocks, s.tasks, Apply(s, st).tasks, s.caller);
    }
  }

  // ---- Readers are kept ------------------------------------------------------------------------

  /** What a step must leave alone for readers: tasks stay what they are, scans remember where they began, blocks only grow. */
  ghost predicate ReadersUndisturbed(c: Chain, c': Chain) {
    && (forall id | id in c.cat.tasks :: id in c'.cat.tasks && TaskGrows(c.cat.tasks[id], c'.cat.tasks[id]))
    && (forall k | k in c.cat.scans :: k in c'.cat.scans && c'.cat.scans[k].began == c.cat.scans[k].began)
    && (forall f | SnapshotOk(c.blocks, f) :: SnapshotOk(c'.blocks, f))
  }

  lemma ReaderStays(c: Chain, c': Chain, k: int, r: Reader)
    requires ReaderOk(c, k, r) && ReadersUndisturbed(c, c')
    ensures ReaderOk(c', k, r)
  {
    assert forall id | id in r.owed :: TaskGrows(c.cat.tasks[id], c'.cat.tasks[id]);
  }

  lemma ReadersStay(c: Chain, c': Chain)
    requires ReadersOk(c) && ReadersUndisturbed(c, c') && c'.readers == c.readers
    ensures ReadersOk(c')
  {
    forall k | k in c'.readers ensures ReaderOk(c', k, c'.readers[k]) {
      ReaderStays(c, c', k, c.readers[k]);
    }
  }

  lemma ScansRemember(s: State, st: Step)
    requires Enabled(s, st) && !st.Restart?
    ensures forall k | k in s.scans :: k in Apply(s, st).scans && Apply(s, st).scans[k].began == s.scans[k].began
  {
  }

  lemma StepUndisturbs(c: Chain, st: Step)
    requires Enabled(c.cat, st) && !st.Restart?
    ensures ReadersUndisturbed(c, c.(cat := Apply(c.cat, st)))
  {
    TasksGrow(c.cat, st);
    ScansRemember(c.cat, st);
  }

  lemma SnapshotStays(blocks: seq<SealedBlock>, b: SealedBlock, f: W.File)
    requires SnapshotOk(blocks, f) && BlocksOk(blocks) && 0 <= b.sumBase <= |blocks| && 0 <= b.countBase <= |blocks|
    ensures SnapshotOk(blocks + [b], f)
  {
    forall e | Candidate(f, e) ensures IsBlockEntry(blocks + [b], f, e) {
      assert IsBlockEntry(blocks, f, e);
      EarlierTotalsStay(blocks, b, e.end);
    }
  }

  /** An owed segment's file matches the reader's query. */
  lemma OwedFileMatches(s: State, blocks: seq<SealedBlock>, id: int)
    requires Inv(s) && TasksSealed(blocks, s.tasks) && id in Owed(s)
    ensures s.tasks[id].file in MatchingAt(s, 0, 0, U64_MAX)
  {
    assert IsSealed(blocks, s.tasks[id].segment);
    RecordedFilesMatch(s, id, 0, U64_MAX);
  }

  lemma ScanStores(s: State, k: int)
    requires Enabled(s, BeginScan(k, 0, 0, U64_MAX))
    ensures var s' := Apply(s, BeginScan(k, 0, 0, U64_MAX));
            s'.tasks == s.tasks && k in s'.scans && s'.scans[k].began == MatchingAt(s, 0, 0, U64_MAX)
  {
  }

  /** A read that begins now is owed every segment recorded in a file the clock has reached. */
  lemma ReadBegins(c: Chain, k: int)
    requires Inv(c.cat) && TasksSealed(c.blocks, c.cat.tasks) && ChainEnabled(c, StartRead(k))
    ensures ReaderOk(ChainApply(c, StartRead(k)), k, Scanning(Owed(c.cat)))
  {
    ScanStores(c.cat, k);
    forall id | id in Owed(c.cat) ensures c.cat.tasks[id].file in MatchingAt(c.cat, 0, 0, U64_MAX) {
      OwedFileMatches(c.cat, c.blocks, id);
    }
  }

  /** Every file that owes a segment is listed. */
  lemma WalksBegin(c: Chain, k: int)
    requires ScansInv(c.cat) && ReadersOk(c) && ChainEnabled(c, StartWalks(k))
    ensures ReaderOk(ChainApply(c, StartWalks(k)), k, ChainApply(c, StartWalks(k)).readers[k])
  {
    assert ReaderOk(c, k, c.readers[k]);
    assert ScanOk(c.cat.toc, c.cat.scans[k]);
  }

  lemma WalkAdvances(c: Chain, k: int)
    requires Inv(c.cat) && TasksSealed(c.blocks, c.cat.tasks) && ReadersOk(c) && ViewsStart(c.cat) && ChainEnabled(c, WalkFile(k))
    ensures ReaderOk(ChainApply(c, WalkFile(k)), k, ChainApply(c, WalkFile(k)).readers[k])
  {
    var r, file := c.readers[k], c.cat.files[c.readers[k].todo[0]];
    assert ReaderOk(c, k, r);
    SessionIsOk(c, r.todo[0]);
    WalkPaysDebts(c, k, r);
    WalkedOneMore(c, ChainApply(c, WalkFile(k)), k, r, file);
  }

  lemma WalkPaysDebts(c: Chain, k: int, r: Reader)
    requires Inv(c.cat) && TasksSealed(c.blocks, c.cat.tasks) && r.Walking? && r.todo != [] && r.todo[0] in c.cat.files
    requires ReaderOk(c, k, r)
    ensures forall id | id in r.owed ::
              c.cat.tasks[id].file in r.todo[1..] || Saw(r.walked + [c.cat.files[r.todo[0]]], c.cat.tasks[id].segment.start + 1)
  {
    forall id | id in r.owed
      ensures c.cat.tasks[id].file in r.todo[1..] || Saw(r.walked + [c.cat.files[r.todo[0]]], c.cat.tasks[id].segment.start + 1) {
      WalkPaysDebt(c, r, id);
    }
  }

  lemma SessionIsOk(c: Chain, f: int)
    requires FilesInv(c.cat) && CallsInv(c.cat) && TasksSealed(c.blocks, c.cat.tasks) && ViewsStart(c.cat) && f in c.cat.files
    ensures SnapshotOk(c.blocks, c.cat.files[f])
  {
    IndexKeys(c.cat, f);
    forall e | Candidate(c.cat.files[f], e) ensures IsBlockEntry(c.blocks, c.cat.files[f], e) {
      CandidatesAreBlocks(c, f, e);
    }
  }

  lemma WalkedOneMore(c: Chain, c': Chain, k: int, r: Reader, file: W.File)
    requires r.Walking? && r.todo != [] && ReaderOk(c, k, r) && SnapshotOk(c.blocks, file)
    requires forall id | id in r.owed :: c.cat.tasks[id].file in r.todo[1..] || Saw(r.walked + [file], c.cat.tasks[id].segment.start + 1)
    requires c'.cat == c.cat && c'.blocks == c.blocks
    ensures ReaderOk(c', k, Walking(r.owed, r.todo[1..], r.walked + [file]))
  {
  }

  lemma WalkPaysDebt(c: Chain, r: Reader, id: int)
    requires Inv(c.cat) && TasksSealed(c.blocks, c.cat.tasks) && r.Walking? && r.todo != [] && r.todo[0] in c.cat.files
    requires id in c.cat.tasks && IsRecorded(c.cat.tasks[id])
    requires c.cat.tasks[id].file in r.todo || Saw(r.walked, c.cat.tasks[id].segment.start + 1)
    ensures c.cat.tasks[id].file in r.todo[1..] || Saw(r.walked + [c.cat.files[r.todo[0]]], c.cat.tasks[id].segment.start + 1)
  {
    var file, v := c.cat.files[r.todo[0]], c.cat.tasks[id].segment.start + 1;
    if Saw(r.walked, v) {
      var f, e :| f in r.walked && Candidate(f, e) && e.end == v;
      assert f in r.walked + [file];
    } else if c.cat.tasks[id].file == r.todo[0] {
      var e := RecordedIsCandidate(c, id);
      assert file in r.walked + [file];
    }
  }

  // ---- Preservation --------------------------------------------------------------------------

  lemma OtherReadersStay(c: Chain, c': Chain, k: int)
    requires ReadersOk(c) && ReadersUndisturbed(c, c') && c'.readers.Keys == c.readers.Keys + {k}
    requires forall x | x in c.readers && x != k :: c'.readers[x] == c.readers[x]
    requires ReaderOk(c', k, c'.readers[k])
    ensures ReadersOk(c')
  {
    forall x | x in c'.readers && x != k ensures ReaderOk(c', x, c'.readers[x]) {
      ReaderStays(c, c', x, c.readers[x]);
    }
  }

  lemma BackgroundKeeps(c: Chain, st: Step)
    requires ChainInv(c) && ChainEnabled(c, Background(st))
    ensures ChainInv(ChainApply(c, Background(st)))
  {
    StepKeepsInv(c.cat, st);
    BackgroundKeepsSeal(c.blocks, c.cat, st);
    if !st.Restart? {
      StepUndisturbs(c, st);
      ReadersStay(c, ChainApply(c, Background(st)));
    }
  }

  lemma StartReadKeepsReaders(c: Chain, k: int)
    requires Inv(c.cat) && TasksSealed(c.blocks, c.cat.tasks) && ReadersOk(c) && ChainEnabled(c, StartRead(k))
    ensures ReadersOk(ChainApply(c, StartRead(k)))
  {
    StepUndisturbs(c, BeginScan(k, 0, 0, U64_MAX));
    ReadBegins(c, k);
    OtherReadersStay(c, ChainApply(c, StartRead(k)), k);
  }

  lemma StartReadKeeps(c: Chain, k: int)
    requires ChainInv(c) && ChainEnabled(c, StartRead(k))
    ensures ChainInv(ChainApply(c, StartRead(k)))
  {
    StepKeepsInv(c.cat, BeginScan(k, 0, 0, U64_MAX));
    BackgroundKeepsSeal(c.blocks, c.cat, BeginScan(k, 0, 0, U64_MAX));
    StartReadKeepsReaders(c, k);
  }

  lemma WalkingKeeps(c: Chain, step: ChainStep)
    requires ChainInv(c) && ViewsStart(c.cat) && ChainEnabled(c, step) && (step.StartWalks? || step.WalkFile?)
    ensures ChainInv(ChainApply(c, step))
  {
    if step.StartWalks? {
      WalksBegin(c, step.reader);
    } else {
      WalkAdvances(c, step.reader);
    }
    OtherReadersStay(c, ChainApply(c, step), step.reader);
  }

  lemma AddBlockKeeps(c: Chain, step: ChainStep)
    requires ChainInv(c) && ChainEnabled(c, step) && step.AddBlock?
    ensures ChainInv(ChainApply(c, step))
  {
    var c' := ChainApply(c, step);
    var b := SealedBlock(step.txs, step.sum.end, step.count.end);
    var st := Choose(NextSegment(|c.blocks|, step.txs, step.sum.sum, step.count.count), step.choice, step.accessor, step.evict);
    AnswerIsTold(c, step.sumReader, step.sum);
    AnswerIsTold(c, step.countReader, step.count);
    StepKeepsInv(c.cat, st);
    NextIsSealed(c.blocks, b, step.sum.sum, step.count.count);
    AddedKeepsSeal(c.blocks, c.cat.tasks, b, c'.cat.caller);
    StepUndisturbs(c, st);
    forall f | SnapshotOk(c.blocks, f) ensures SnapshotOk(c'.blocks, f) {
      SnapshotStays(c.blocks, b, f);
    }
    ReadersStay(c, c');
  }

  lemma ChainStepKeeps(c: Chain, step: ChainStep)
    requires ChainInv(c) && ViewsStart(c.cat) && ChainEnabled(c, step)
    ensures ChainInv(ChainApply(c, step))
  {
    match step
    case Background(st) => BackgroundKeeps(c, st);
    case AddBlock(_, _, _, _, _, _, _, _) => AddBlockKeeps(c, step);
    case StartRead(k) => StartReadKeeps(c, k);
    case _ => WalkingKeeps(c, step);
  }

  lemma {:induction false} ChainRunKeeps(r: ChainRun, i: nat)
    requires IsChainRun(r) && RunViewsStart(r) && i < |r.states|
    ensures ChainInv(r.states[i])
  {
    if i > 0 {
      ChainRunKeeps(r, i - 1);
      RunStepKeeps(r, i - 1);
    }
  }

  lemma RunStepKeeps(r: ChainRun, i: nat)
    requires IsChainRun(r) && i < |r.steps| && ChainInv(r.states[i]) && ViewsStart(r.states[i].cat)
    ensures ChainInv(r.states[i + 1])
  {
    assert Steps(r, i);
    ChainStepKeeps(r.states[i], r.steps[i]);
  }
}
