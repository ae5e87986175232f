/**
 * Index and journal over whole runs: what every read answers, when that is the fold
 * of the committed transactions, and how committed and speculative totals together
 * account for everything clients ever sent.
 */
module SumAgreement {
  import opened Words
  import opened Codec
  import opened CatalogFile
  import opened CatalogProtocol
  import opened CatalogReads
  import opened SumIndex
  import opened SumChain
  import W = CatalogWrites
  import B = Backend
  import F = Frontend

  predicate IsRestart(step: ChainStep) { step.Background? && step.step.Restart? }

  /** Read k begins at step j and its process is still the one running in state i. */
  ghost predicate Reading(r: ChainRun, k: int, j: nat, i: nat) {
    && IsChainRun(r) && j < i < |r.states| && r.steps[j] == StartRead(k)
    && forall x | j < x < i :: !IsRestart(r.steps[x])
  }

  // ---- What stays -------------------------------------------------------------------------

  /** Tasks keep their segments and blocks are only added. */
  ghost predicate ChainGrows(c: Chain, c': Chain) {
    && (forall id | id in c.cat.tasks :: id in c'.cat.tasks && TaskGrows(c.cat.tasks[id], c'.cat.tasks[id]))
    && c.blocks <= c'.blocks
  }

  lemma StepGrows(c: Chain, step: ChainStep)
    requires ChainEnabled(c, step)
    ensures ChainGrows(c, ChainApply(c, step))
  {
    match step
    case Background(st) => TasksGrow(c.cat, st);
    case StartRead(k) => TasksGrow(c.cat, BeginScan(k, 0, 0, U64_MAX));
    case AddBlock(txs, _, _, sum, count, choice, accessor, evict) =>
      TasksGrow(c.cat, Choose(NextSegment(|c.blocks|, txs, sum.sum, count.count), choice, accessor, evict));
    case _ =>
  }

  lemma RunStepGrows(r: ChainRun, i: nat)
    requires IsChainRun(r) && i < |r.steps|
    ensures ChainGrows(r.states[i], r.states[i + 1])
  {
    assert Steps(r, i);
    StepGrows(r.states[i], r.steps[i]);
  }

  lemma GrowthAddsUp(a: Chain, b: Chain, c: Chain)
    requires ChainGrows(a, b) && ChainGrows(b, c)
    ensures ChainGrows(a, c)
  {
    forall id | id in a.cat.tasks ensures id in c.cat.tasks && TaskGrows(a.cat.tasks[id], c.cat.tasks[id]) {
      assert TaskGrows(a.cat.tasks[id], b.cat.tasks[id]) && TaskGrows(b.cat.tasks[id], c.cat.tasks[id]);
    }
  }

  lemma {:induction false} ChainRunGrows(r: ChainRun, j: nat, i: nat)
    requires IsChainRun(r) && j <= i < |r.states|
    ensures ChainGrows(r.states[j], r.states[i])
    decreases i
  {
    if j < i {
      ChainRunGrows(r, j, i - 1);
      RunStepGrows(r, i - 1);
      GrowthAddsUp(r.states[j], r.states[i - 1], r.states[i]);
    }
  }

  lemma OwedStays(c: Chain, step: ChainStep, k: int)
    requires ChainEnabled(c, step) && !IsRestart(step) && k in c.readers
    ensures k in ChainApply(c, step).readers && ChainApply(c, step).readers[k].owed == c.readers[k].owed
  {
  }

  lemma {:induction false} ReaderPersists(r: ChainRun, k: int, j: nat, i: nat)
    requires Reading(r, k, j, i)
    ensures k in r.states[i].readers && r.states[i].readers[k].owed == Owed(r.states[j].cat)
    decreases i
  {
    assert Steps(r, i - 1);
    if j + 1 < i {
      ReaderPersists(r, k, j, i - 1);
      OwedStays(r.states[i - 1], r.steps[i - 1], k);
    }
  }

  predicate Says(best: Best, t: Totals) { best.sum == t.sum && best.count == t.count }

  /**
   * The answer is the sum and the number of these transactions: exactly, as long as they
   * fit 32 bits, and up to a multiple of 2^32 in any case.
   */
  predicate IsTotalOf(best: Best, txs: seq<TestTx>) {
    && (-0x8000_0000 <= SumOf(txs) < 0x8000_0000 ==> best.sum == SumOf(txs))
    && (|txs| < 0x8000_0000 ==> best.count == |txs|)
    && (SumOf(txs) - best.sum) % 0x1_0000_0000 == 0 && (|txs| - best.count) % 0x1_0000_0000 == 0
  }

  lemma SmallTotals(best: Best, txs: seq<TestTx>)
    requires Accounts(best.sum, best.count, txs)
    ensures IsTotalOf(best, txs)
  {
    SmallIsExact(best.sum, SumOf(txs));
    SmallIsExact(best.count, |txs|);
  }

  // ---- What a read answers ------------------------------------------------------------------

  /**
   * However its scan and its walks interleave with writers, other readers and further
   * blocks, a finished read answers with exactly the payload of one block's seal, and
   * with none older than a segment recorded, in a file the clock had reached, when the
   * read began.
   */
  lemma ReadAnswersASeal(r: ChainRun, k: int, j: nat, i: nat, best: Best)
    requires Reading(r, k, j, i) && RunViewsStart(r) && Answered(r.states[i], k, best)
    ensures 0 <= best.end <= |r.states[i].blocks| && BlocksOk(r.states[i].blocks)
    ensures Says(best, ToldTotals(r.states[i].blocks, best.end))
    ensures forall id | id in Owed(r.states[j].cat) :: r.states[j].cat.tasks[id].segment.start < best.end
  {
    ChainRunKeeps(r, i);
    AnswerIsTold(r.states[i], k, best);
    ReaderPersists(r, k, j, i);
    ChainRunGrows(r, j, i);
    assert forall id | id in r.states[j].cat.tasks :: TaskGrows(r.states[j].cat.tasks[id], r.states[i].cat.tasks[id]);
  }

  /** Such an answer is the fold of the blocks it covers if and only if all its seal lost is zero in 32 bits. */
  lemma AnswerIsRightIff(r: ChainRun, k: int, j: nat, i: nat, best: Best)
    requires Reading(r, k, j, i) && RunViewsStart(r) && Answered(r.states[i], k, best)
    ensures 0 <= best.end <= |r.states[i].blocks| && BlocksOk(r.states[i].blocks)
    ensures var blocks := r.states[i].blocks;
            Accounts(best.sum, best.count, F.Flat(Txs(blocks)[..best.end])) <==>
            && Lost(Sums(blocks), SumBases(blocks), best.end) % 0x1_0000_0000 == 0
            && Lost(Sizes(blocks), CountBases(blocks), best.end) % 0x1_0000_0000 == 0
  {
    ReadAnswersASeal(r, k, j, i, best);
    var blocks := r.states[i].blocks;
    TotalsAreFlat(blocks, best.end);
    RightIffNothingLost(Sums(blocks), SumBases(blocks), best.end);
    RightIffNothingLost(Sizes(blocks), CountBases(blocks), best.end);
  }

  /**
   * Sealing onto right payloads: the next block's payload is right if and only if the
   * blocks its two reads had not seen sum, and count, to zero in 32 bits.
   */
  lemma NextSealIsRightIff(r: ChainRun, i: nat)
    requires IsChainRun(r) && RunViewsStart(r) && i < |r.steps| && r.steps[i].AddBlock?
    requires BlocksOk(r.states[i].blocks) && RightUpTo(r.states[i].blocks, |r.states[i].blocks|)
    ensures var blocks', n := r.states[i + 1].blocks, |r.states[i].blocks|;
            && |blocks'| == n + 1 && BlocksOk(blocks')
            && (TellsRight(blocks', n + 1) <==> SealMissesNothing(blocks', n + 1))
  {
    assert Steps(r, i);
    var blocks, step := r.states[i].blocks, r.steps[i];
    ChainRunKeeps(r, i);
    AnswerIsTold(r.states[i], step.sumReader, step.sum);
    AnswerIsTold(r.states[i], step.countReader, step.count);
    NextPayloadIsRightIff(blocks, SealedBlock(step.txs, step.sum.end, step.count.end));
  }

  lemma {:induction false} NextSealDecides(blocks: seq<SealedBlock>, n: nat)
    requires n < |blocks| && BlocksOk(blocks) && RightUpTo(blocks, n)
    ensures TellsRight(blocks, n + 1) <==> SealMissesNothing(blocks, n + 1)
  {
    PayloadsAreRightIff(blocks, n);
    PayloadsAreRightIff(blocks, n + 1);
    OneMoreRight(blocks, n);
  }

  lemma {:induction false} NextPayloadIsRightIff(blocks: seq<SealedBlock>, b: SealedBlock)
    requires BlocksOk(blocks) && 0 <= b.sumBase <= |blocks| && 0 <= b.countBase <= |blocks| && RightUpTo(blocks, |blocks|)
    ensures BlocksOk(blocks + [b])
    ensures TellsRight(blocks + [b], |blocks| + 1) <==> SealMissesNothing(blocks + [b], |blocks| + 1)
  {
    StillRight(blocks, b);
    NextSealDecides(blocks + [b], |blocks|);
  }

  lemma OneMoreRight(blocks: seq<SealedBlock>, n: nat)
    requires n < |blocks| && BlocksOk(blocks)
    ensures RightUpTo(blocks, n + 1) <==> RightUpTo(blocks, n) && TellsRight(blocks, n + 1)
    ensures CleanUpTo(blocks, n + 1) <==> CleanUpTo(blocks, n) && SealMissesNothing(blocks, n + 1)
  {
  }

  lemma StillRight(blocks: seq<SealedBlock>, b: SealedBlock)
    requires BlocksOk(blocks) && 0 <= b.sumBase <= |blocks| && 0 <= b.countBase <= |blocks| && RightUpTo(blocks, |blocks|)
    ensures BlocksOk(blocks + [b]) && RightUpTo(blocks + [b], |blocks|)
  {
    Columns(blocks, b);
    forall v | 0 <= v <= |blocks| ensures BlocksOk(blocks + [b]) && TellsRight(blocks + [b], v) {
      assert TellsRight(blocks, v);
      EarlierTotalsStay(blocks, b, v);
      assert Txs(blocks + [b])[..v] == Txs(blocks)[..v];
    }
  }

  /** Over runs: every payload sealed so far is right if and only if no seal missed anything that is not zero in 32 bits. */
  lemma RunSealsRightIff(r: ChainRun, i: nat)
    requires IsChainRun(r) && RunViewsStart(r) && i < |r.states|
    ensures var blocks := r.states[i].blocks;
            && BlocksOk(blocks)
            && (RightUpTo(blocks, |blocks|) <==> CleanUpTo(blocks, |blocks|))
  {
    ChainRunKeeps(r, i);
    PayloadsAreRightIff(r.states[i].blocks, |r.states[i].blocks|);
  }

  // ---- Drained runs ---------------------------------------------------------------------------

  /** Background writes have landed and the clock has reached their files. */
  ghost predicate Drained(s: State) {
    s.caller.Idle? && forall id | id in s.tasks :: IsRecorded(s.tasks[id]) && s.tasks[id].file <= s.clock
  }

  /** Read k began at step j, after all writes had drained, and no block was added since. */
  ghost predicate FreshSince(r: ChainRun, k: int, j: nat, i: nat) {
    Reading(r, k, j, i) && Drained(r.states[j].cat) && |r.states[j].blocks| == |r.states[i].blocks|
  }

  /** Up to state i, writes drained before the reads of every seal began. */
  ghost predicate DrainedSeals(r: ChainRun, i: nat)
    requires IsChainRun(r) && i < |r.states|
  {
    forall x | 0 <= x < i && r.steps[x].AddBlock? ::
      (exists j :: FreshSince(r, r.steps[x].sumReader, j, x)) && (exists j :: FreshSince(r, r.steps[x].countReader, j, x))
  }

  /** A read that began when everything had drained covers all blocks there were. */
  lemma DrainedReadSeesAll(r: ChainRun, k: int, j: nat, i: nat, best: Best)
    requires Reading(r, k, j, i) && RunViewsStart(r) && Drained(r.states[j].cat) && Answered(r.states[i], k, best)
    ensures |r.states[j].blocks| <= best.end <= |r.states[i].blocks|
  {
    ReadAnswersASeal(r, k, j, i, best);
    ChainRunKeeps(r, j);
    var c := r.states[j];
    var n := |c.blocks|;
    if n > 0 {
      assert Covered(c.blocks, c.cat.tasks, c.cat.caller, n - 1);
      var id :| WrittenBy(c.cat.tasks, n - 1, id);
      assert id in Owed(c.cat);
    }
  }

  ghost predicate SeesAllBefore(blocks: seq<SealedBlock>) {
    forall b | 0 <= b < |blocks| :: blocks[b].sumBase == b && blocks[b].countBase == b
  }

  lemma {:induction false} DrainedBases(r: ChainRun, i: nat)
    requires IsChainRun(r) && RunViewsStart(r) && i < |r.states| && DrainedSeals(r, i)
    ensures SeesAllBefore(r.states[i].blocks)
  {
    if i > 0 {
      DrainedBases(r, i - 1);
      assert Steps(r, i - 1);
      if r.steps[i - 1].AddBlock? {
        FreshSealSeesAll(r, i - 1);
      }
      OneMoreBase(r.states[i - 1], r.steps[i - 1]);
    }
  }

  lemma OneMoreBase(c: Chain, step: ChainStep)
    requires ChainEnabled(c, step) && SeesAllBefore(c.blocks)
    requires step.AddBlock? ==> step.sum.end == |c.blocks| && step.count.end == |c.blocks|
    ensures SeesAllBefore(ChainApply(c, step).blocks)
  {
  }

  lemma FreshSealSeesAll(r: ChainRun, x: nat)
    requires IsChainRun(r) && RunViewsStart(r) && x < |r.steps| && r.steps[x].AddBlock? && DrainedSeals(r, x + 1)
    ensures r.steps[x].sum.end == |r.states[x].blocks| && r.steps[x].count.end == |r.states[x].blocks|
  {
    assert Steps(r, x);
    var step := r.steps[x];
    var j :| FreshSince(r, step.sumReader, j, x);
    DrainedReadSeesAll(r, step.sumReader, j, x, step.sum);
    var j' :| FreshSince(r, step.countReader, j', x);
    DrainedReadSeesAll(r, step.countReader, j', x, step.count);
  }

  lemma SeeingAllMissesNothing(blocks: seq<SealedBlock>, v: nat)
    requires BlocksOk(blocks) && SeesAllBefore(blocks) && v <= |blocks|
    ensures TellsRight(blocks, v)
  {
    forall w | 0 < w <= |blocks| ensures SealMissesNothing(blocks, w) {
      assert SumBases(blocks)[w - 1] == w - 1 && CountBases(blocks)[w - 1] == w - 1;
      assert Between(blocks, w - 1, w - 1) == [];
    }
    PayloadsAreRightIff(blocks, |blocks|);
    assert CleanUpTo(blocks, |blocks|);
  }

  lemma AnswerAccounts(r: ChainRun, k: int, j: nat, i: nat, best: Best)
    requires Reading(r, k, j, i) && RunViewsStart(r) && DrainedSeals(r, i) && Answered(r.states[i], k, best)
    ensures 0 <= best.end <= |r.states[i].blocks|
    ensures Accounts(best.sum, best.count, F.Flat(Txs(r.states[i].blocks)[..best.end]))
  {
    ReadAnswersASeal(r, k, j, i, best);
    DrainedBases(r, i);
    SeeingAllMissesNothing(r.states[i].blocks, best.end);
  }

  /**
   * If writes drain before each seal reads, every answer to every read, interleaved as
   * it may be with later writes, is the fold of all transactions of the first `best.end`
   * blocks, and these include every block whose segment was recorded when it began.
   */
  lemma IndexAgreesWithJournal(r: ChainRun, k: int, j: nat, i: nat, best: Best)
    requires Reading(r, k, j, i) && RunViewsStart(r) && DrainedSeals(r, i) && Answered(r.states[i], k, best)
    ensures 0 <= best.end <= |r.states[i].blocks|
    ensures IsTotalOf(best, F.Flat(Txs(r.states[i].blocks)[..best.end]))
    ensures forall id | id in Owed(r.states[j].cat) :: r.states[j].cat.tasks[id].segment.start < best.end
    ensures Drained(r.states[j].cat) ==> |r.states[j].blocks| <= best.end
  {
    ReadAnswersASeal(r, k, j, i, best);
    AnswerAccounts(r, k, j, i, best);
    SmallTotals(best, F.Flat(Txs(r.states[i].blocks)[..best.end]));
    if Drained(r.states[j].cat) {
      DrainedReadSeesAll(r, k, j, i, best);
    }
  }

  /**
   * `latestSum` and `latestCount`: the reader's loop over the sessions it had, run on
   * the files as those sessions saw them.
   */
  method LatestTotals(files: seq<W.File>, ghost r: ChainRun, ghost k: int, ghost j: nat, ghost i: nat) returns (best: Best)
    requires Reading(r, k, j, i) && RunViewsStart(r) && DrainedSeals(r, i)
    requires k in r.states[i].readers && r.states[i].readers[k].Walking?
    requires r.states[i].readers[k].todo == [] && r.states[i].readers[k].walked == files
    ensures 0 <= best.end <= |r.states[i].blocks| && IsTotalOf(best, F.Flat(Txs(r.states[i].blocks)[..best.end]))
    ensures forall id | id in Owed(r.states[j].cat) :: r.states[j].cat.tasks[id].segment.start < best.end
  {
    SessionsAreWalkable(r, i, k);
    best := ReadLatestSegment(files);
    IndexAgreesWithJournal(r, k, j, i, best);
  }

  lemma SessionsAreWalkable(r: ChainRun, i: nat, k: int)
    requires IsChainRun(r) && RunViewsStart(r) && i < |r.states| && k in r.states[i].readers && r.states[i].readers[k].Walking?
    ensures forall f | f in r.states[i].readers[k].walked :: IndexOk(f.index)
  {
    ChainRunKeeps(r, i);
    assert ReaderOk(r.states[i], k, r.states[i].readers[k]);
  }

  // ---- Frontend, journal and index ---------------------------------------------------------------

  /** Right totals with the changes of more transactions on top are right totals of them all. */
  lemma {:induction false} SealExtends(sum: int, count: int, done: seq<TestTx>, txs: seq<TestTx>)
    requires Accounts(sum, count, done)
    ensures var t := Sealed(sum, count, B.Fold(TEST_DESIGN, NO_CHANGES, txs)); Accounts(t.sum, t.count, done + txs)
  {
    FoldWraps(txs);
    SumAppend(done, txs);
    AddsIn32Bits(sum, SumOf(done), SumOf(txs));
    AddsIn32Bits(count, |done|, |txs|);
  }

  /** Totals do not depend on the order of transactions. */
  lemma {:induction false} TotalsOfPermutation(sum: int, count: int, a: seq<TestTx>, b: seq<TestTx>)
    requires multiset(a) == multiset(b) && Accounts(sum, count, a)
    ensures Accounts(sum, count, b)
  {
    assert |a| == |multiset(a)| == |multiset(b)| == |b|;
    TestDesignCommutes();
    F.FoldOfPermutation(TEST_DESIGN, NO_CHANGES, a, b);
    FoldWraps(a);
    FoldWraps(b);
    WrapIsIn32Bits(SumOf(a), sum);
    WrapIsIn32Bits(SumOf(b), sum);
  }

  /**
   * Everything is accounted for.  Take any state of any run of the frontend, and an
   * index read that covers its journal.  What the index answers, with the frontend's
   * speculative changes on top, is the total of everything clients ever sent, in 32 bits.
   */
  lemma SentIsCommittedPlusPending(
    c: Codec<TestTx>, fr: F.Run<TestTx>, x: nat, r: ChainRun, k: int, j: nat, i: nat, best: Best, all: seq<TestTx>)
    requires Lawful(c) && F.IsRun(c, fr) && x < |fr.states| && !fr.states[x].builder.Committed?
    requires Reading(r, k, j, i) && RunViewsStart(r) && DrainedSeals(r, i) && Answered(r.states[i], k, best)
    requires best.end == |fr.states[x].journal| == |r.states[i].blocks| && Txs(r.states[i].blocks) == fr.states[x].journal
    requires multiset(all) == fr.states[x].sent
    ensures var t := Sealed(best.sum, best.count, B.Fold(TEST_DESIGN, NO_CHANGES, fr.states[x].folded));
            IsTotalOf(Best(true, best.end, 0, t.sum, t.count), all)
  {
    var f, t := fr.states[x], Sealed(best.sum, best.count, B.Fold(TEST_DESIGN, NO_CHANGES, fr.states[x].folded));
    AnswerAccounts(r, k, j, i, best);
    assert f.journal[..best.end] == f.journal;
    F.RunConserves(c, fr, x);
    SentIsJournalAndFolded(c, f, all);
    SealExtends(best.sum, best.count, F.Flat(f.journal), f.folded);
    TotalsOfPermutation(t.sum, t.count, F.Flat(f.journal) + f.folded, all);
    SmallTotals(Best(true, best.end, 0, t.sum, t.count), all);
  }

  lemma SentIsJournalAndFolded(c: Codec<TestTx>, f: F.Front<TestTx>, all: seq<TestTx>)
    requires F.Inv(c, f) && !f.builder.Committed? && multiset(all) == f.sent
    ensures multiset(F.Flat(f.journal) + f.folded) == multiset(all)
  {
    assert F.Folding(f) == F.InHand(f);
  }
}
