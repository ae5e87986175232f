/**
 * The frontend: client sends, the builder thread's lock sections, shutdown and
 * reload, as a step system over mempool, in-flight list, journal and mempool file.
 */
module Frontend {
  import opened Words
  import opened Codec
  import opened Backend
  import opened Builder

  // ---- The mempool file ----------------------------------------------------------------

  function SavedBytes<Tx>(c: Codec<Tx>, pool: seq<Tx>): seq<byte> {
    ToBytes(|pool| % TWO_32, 4) + EncodeAll(c, pool)
  }

  /**
   * The next `count` transactions; an unknown type byte is skipped.  None means that
   * the data ended first, where the source throws.
   */
  function ReadRun<Tx>(c: Codec<Tx>, s: seq<byte>, count: nat): Option<seq<Tx>>
    decreases count
  {
    if count == 0 then Some([])
    else
      match ReadOne(c, s)
      case Got(tx, used) => Prepend(tx, ReadRun(c, s[Min(used, |s|)..], count - 1))
      case UnknownType => ReadRun(c, s[1..], count - 1)
      case _ => None
  }

  function Prepend<T>(x: T, rest: Option<seq<T>>): Option<seq<T>> {
    if rest.None? then None else Some([x] + rest.value)
  }

  function LoadedPool<Tx>(c: Codec<Tx>, file: seq<byte>): Option<seq<Tx>> {
    if |file| <= 4 then Some([]) else ReadRun(c, file[4..], FromBytes(file[..4]))
  }

  lemma {:induction false} RunReadsBack<Tx(!new)>(c: Codec<Tx>, txs: seq<Tx>)
    requires Lawful(c)
    ensures ReadRun(c, EncodeAll(c, txs), |txs|) == Some(txs)
  {
    if txs != [] {
      assert ReadsBack(c, txs[0], EncodeAll(c, txs[1..]));
      RunReadsBack(c, txs[1..]);
      assert EncodeAll(c, txs)[|c.encode(txs[0])|..] == EncodeAll(c, txs[1..]);
      assert [txs[0]] + txs[1..] == txs;
    }
  }

  /** A stretch of a mempool file: a transaction's encoding, or one type byte nobody registered. */
  datatype Chunk<Tx> = Encoded(tx: Tx) | Stray(b: byte)

  function ChunkBytes<Tx>(c: Codec<Tx>, chunks: seq<Chunk<Tx>>): seq<byte> {
    if chunks == [] then []
    else (match chunks[0] case Encoded(tx) => c.encode(tx) case Stray(b) => [b]) + ChunkBytes(c, chunks[1..])
  }

  function ChunkTxs<Tx>(chunks: seq<Chunk<Tx>>): seq<Tx> {
    if chunks == [] then []
    else (match chunks[0] case Encoded(tx) => [tx] case Stray(_) => []) + ChunkTxs(chunks[1..])
  }

  ghost predicate StraysUnregistered<Tx>(c: Codec<Tx>, chunks: seq<Chunk<Tx>>) {
    forall i | 0 <= i < |chunks| && chunks[i].Stray? :: chunks[i].b !in c.factories
  }

  /**
   * What a file of encodings and stray type bytes loads: asked for as many entries as it
   * has stretches, exactly its transactions in order; asked for more, nothing at all.
   */
  lemma {:induction false} ChunksLoad<Tx(!new)>(c: Codec<Tx>, chunks: seq<Chunk<Tx>>, more: nat)
    requires Lawful(c) && StraysUnregistered(c, chunks)
    ensures ReadRun(c, ChunkBytes(c, chunks), |chunks| + more) == if more == 0 then Some(ChunkTxs(chunks)) else None
  {
    if chunks != [] {
      var rest := ChunkBytes(c, chunks[1..]);
      assert StraysUnregistered(c, chunks[1..]) by {
        assert forall i | 0 <= i < |chunks[1..]| :: chunks[1..][i] == chunks[i + 1];
      }
      ChunksLoad(c, chunks[1..], more);
      match chunks[0]
      case Encoded(tx) =>
        assert ReadsBack(c, tx, rest);
        assert (c.encode(tx) + rest)[|c.encode(tx)|..] == rest;
      case Stray(b) =>
        assert ([b] + rest)[1..] == rest;
        assert [] + ChunkTxs(chunks[1..]) == ChunkTxs(chunks[1..]);
    }
  }

  /** A registered factory that yields nothing ends the load with nothing. */
  lemma RefusedLoadsNothing<Tx>(c: Codec<Tx>, s: seq<byte>, count: nat)
    requires s != [] && s[0] in c.factories && c.factories[s[0]](s[1..]).None? && 0 < count
    ensures ReadRun(c, s, count).None?
  {
  }

  lemma EncodedIsNotEmpty<Tx(!new)>(c: Codec<Tx>, pool: seq<Tx>)
    requires Lawful(c) && pool != []
    ensures EncodeAll(c, pool) != []
  {
    assert ReadsBack(c, pool[0], []);
    assert c.encode(pool[0]) + [] == c.encode(pool[0]);
  }

  /** Saving and loading restores the mempool in order. */
  lemma LoadAfterSave<Tx(!new)>(c: Codec<Tx>, pool: seq<Tx>)
    requires Lawful(c) && |pool| < TWO_32
    ensures LoadedPool(c, SavedBytes(c, pool)) == Some(pool)
  {
    CountReadsBack(c, pool);
    if pool == [] {
      assert EncodeAll(c, pool) == [];
    } else {
      EncodedIsNotEmpty(c, pool);
      RunReadsBack(c, pool);
    }
  }

  lemma CountReadsBack<Tx>(c: Codec<Tx>, pool: seq<Tx>)
    requires |pool| < TWO_32
    ensures var file := SavedBytes(c, pool);
            |file| == 4 + |EncodeAll(c, pool)| && FromBytes(file[..4]) == |pool| && file[4..] == EncodeAll(c, pool)
  {
    assert |pool| % TWO_32 == |pool|;
    Widths();
    WordRoundTrip(|pool|, 4);
    HeadAndTail(ToBytes(|pool|, 4), EncodeAll(c, pool));
  }

  lemma HeadAndTail(head: seq<byte>, tail: seq<byte>)
    ensures (head + tail)[..|head|] == head && (head + tail)[|head|..] == tail
  {
  }

  // ---- Steps -----------------------------------------------------------------------------

  /** Where the builder thread is between its lock sections. */
  datatype Thread<Tx> = Idle | Holding(toBuild: seq<Tx>) | Committed(block: seq<Tx>) | Joined

  /**
   * `folded` lists the transactions applied to the speculative override since it
   * was last created, in order.  `sent` counts everything clients ever sent.
   */
  datatype Front<Tx> = Front(
    running: bool,
    mempool: seq<Tx>,
    builder: Thread<Tx>,
    journal: seq<seq<Tx>>,
    folded: seq<Tx>,
    file: Option<seq<byte>>,
    sent: multiset<Tx>)

  datatype Step<Tx> =
    | Send(tx: Tx)
    | Build(picks: seq<int>)
    | Reject
    | Commit
    | Rebuild
    | Stop
    | Join
    | Save
    | Reload

  predicate Enabled<Tx(==)>(f: Front<Tx>, step: Step<Tx>) {
    match step
    case Send(_) => f.running
    case Build(picks) => f.builder.Idle? && Distinct(picks, |f.mempool|)
    case Reject => f.builder.Holding?
    case Commit => f.builder.Holding?
    case Rebuild => f.builder.Committed?
    case Stop => f.running
    case Join => !f.running && f.builder.Idle?
    case Save => f.builder.Joined? && f.file.None? && |f.mempool| < TWO_32
    case Reload => f.builder.Joined? && f.file.Some?
  }

  function Apply<Tx(==)>(c: Codec<Tx>, f: Front<Tx>, step: Step<Tx>): Front<Tx>
    requires Enabled(f, step)
  {
    match step
    case Send(tx) => f.(mempool := f.mempool + [tx], folded := f.folded + [tx], sent := f.sent + multiset{tx})
    case Build(picks) =>
      f.(mempool := Kept(f.mempool, Elements(picks)),
         builder := if picks == [] then Idle else Holding(At(f.mempool, picks)))
    case Reject => f.(mempool := f.mempool + f.builder.toBuild, builder := Idle)
    case Commit => f.(journal := f.journal + [f.builder.toBuild], builder := Committed(f.builder.toBuild))
    case Rebuild => f.(folded := f.mempool, builder := Idle)
    case Stop => f.(running := false)
    case Join => f.(builder := Joined)
    case Save => f.(file := Some(SavedBytes(c, f.mempool)))
    case Reload =>
      match LoadedPool(c, f.file.value)
      case Some(pool) => f.(running := true, mempool := pool, folded := pool, builder := Idle, file := None)
      case None => f
  }

  predicate Init<Tx(==)>(f: Front<Tx>) {
    f == Front(true, [], Idle, [], [], None, multiset{})
  }

  datatype Run<Tx> = Run(states: seq<Front<Tx>>, steps: seq<Step<Tx>>)

  ghost predicate IsRun<Tx>(c: Codec<Tx>, r: Run<Tx>) {
    && |r.states| == |r.steps| + 1 && Init(r.states[0])
    && forall i | 0 <= i < |r.steps| :: Takes(c, r, i)
  }

  ghost predicate Takes<Tx>(c: Codec<Tx>, r: Run<Tx>, i: nat)
    requires |r.states| == |r.steps| + 1 && i < |r.steps|
  {
    Enabled(r.states[i], r.steps[i]) && r.states[i + 1] == Apply(c, r.states[i], r.steps[i])
  }

  // ---- Conservation -----------------------------------------------------------------------

  function InHand<Tx>(f: Front<Tx>): seq<Tx> { if f.builder.Holding? then f.builder.toBuild else [] }

  /** Still folded into the speculative state though no longer in the mempool. */
  function Folding<Tx>(f: Front<Tx>): seq<Tx> { if f.builder.Committed? then f.builder.block else InHand(f) }

  function Flat<Tx>(blocks: seq<seq<Tx>>): seq<Tx> {
    if blocks == [] then [] else Flat(blocks[..|blocks| - 1]) + blocks[|blocks| - 1]
  }

  lemma FlatAppend<Tx>(blocks: seq<seq<Tx>>, b: seq<Tx>)
    ensures Flat(blocks + [b]) == Flat(blocks) + b
  {
    assert (blocks + [b])[..|blocks|] == blocks;
  }

  /** Every sent transaction is, with multiplicity, in exactly one place. */
  ghost predicate Conserved<Tx>(f: Front<Tx>) {
    f.sent == multiset(f.mempool) + multiset(InHand(f)) + multiset(Flat(f.journal))
  }

  /** The speculative state folds exactly the mempool and the block being built. */
  ghost predicate FoldsPending<Tx>(f: Front<Tx>) {
    multiset(f.folded) == multiset(f.mempool) + multiset(Folding(f))
  }

  ghost predicate FileOk<Tx>(c: Codec<Tx>, f: Front<Tx>) {
    && (f.file.Some? ==> f.builder.Joined? && f.file.value == SavedBytes(c, f.mempool) && |f.mempool| < TWO_32)
    && (f.builder.Joined? ==> !f.running)
  }

  ghost predicate Inv<Tx>(c: Codec<Tx>, f: Front<Tx>) {
    Conserved(f) && FoldsPending(f) && FileOk(c, f)
  }

  lemma BuildConserves<Tx>(mempool: seq<Tx>, picks: seq<int>)
    requires Distinct(picks, |mempool|)
    ensures multiset(Kept(mempool, Elements(picks))) + multiset(At(mempool, picks)) == multiset(mempool)
    ensures picks == [] ==> At(mempool, picks) == [] && Kept(mempool, Elements(picks)) == mempool
  {
    PickingConserves(mempool, picks);
    if picks == [] {
      assert Elements(picks) == {};
      KeptNothingGone(mempool);
    }
  }

  lemma BuildKeeps<Tx>(c: Codec<Tx>, f: Front<Tx>, picks: seq<int>)
    requires Inv(c, f) && Enabled(f, Build(picks))
    ensures Inv(c, Apply(c, f, Build(picks)))
  {
    var f' := Apply(c, f, Build(picks));
    BuildMoves(f, f', picks);
    Moved(f, f');
  }

  lemma BuildMoves<Tx>(f: Front<Tx>, f': Front<Tx>, picks: seq<int>)
    requires f.builder.Idle? && Distinct(picks, |f.mempool|)
    requires f'.mempool == Kept(f.mempool, Elements(picks))
    requires f'.builder == if picks == [] then Idle else Holding(At(f.mempool, picks))
    ensures multiset(f.mempool) + multiset(InHand(f)) == multiset(f'.mempool) + multiset(InHand(f'))
  {
    BuildConserves(f.mempool, picks);
    assert InHand(f) == [] && InHand(f') == At(f.mempool, picks);
  }

  /** Moving transactions between mempool and in-flight list loses none. */
  lemma Moved<Tx>(f: Front<Tx>, f': Front<Tx>)
    requires Conserved(f) && FoldsPending(f)
    requires !f.builder.Committed? && !f'.builder.Committed?
    requires f'.sent == f.sent && f'.journal == f.journal && f'.folded == f.folded
    requires multiset(f.mempool) + multiset(InHand(f)) == multiset(f'.mempool) + multiset(InHand(f'))
    ensures Conserved(f') && FoldsPending(f')
  {
  }

  lemma CommitKeeps<Tx>(c: Codec<Tx>, f: Front<Tx>)
    requires Inv(c, f) && Enabled(f, Commit)
    ensures Inv(c, Apply(c, f, Commit))
  {
    FlatAppend(f.journal, f.builder.toBuild);
  }

  lemma SendKeeps<Tx>(c: Codec<Tx>, f: Front<Tx>, tx: Tx)
    requires Inv(c, f) && Enabled(f, Send(tx))
    ensures Inv(c, Apply(c, f, Send(tx)))
  {
  }

  lemma RejectKeeps<Tx>(c: Codec<Tx>, f: Front<Tx>)
    requires Inv(c, f) && Enabled(f, Reject)
    ensures Inv(c, Apply(c, f, Reject))
  {
  }

  lemma ReloadKeeps<Tx(!new)>(c: Codec<Tx>, f: Front<Tx>)
    requires Lawful(c) && Inv(c, f) && Enabled(f, Reload)
    ensures Inv(c, Apply(c, f, Reload))
  {
    LoadAfterSave(c, f.mempool);
  }

  lemma StepKeepsInv<Tx(!new)>(c: Codec<Tx>, f: Front<Tx>, step: Step<Tx>)
    requires Lawful(c) && Inv(c, f) && Enabled(f, step)
    ensures Inv(c, Apply(c, f, step))
  {
    match step
    case Send(tx) => SendKeeps(c, f, tx);
    case Build(picks) => BuildKeeps(c, f, picks);
    case Reject => RejectKeeps(c, f);
    case Commit => CommitKeeps(c, f);
    case Reload => ReloadKeeps(c, f);
    case _ =>
  }

  /** In every run each sent transaction is in exactly one of mempool, in-flight list and journal. */
  lemma {:induction false} RunConserves<Tx(!new)>(c: Codec<Tx>, r: Run<Tx>, i: nat)
    requires Lawful(c) && IsRun(c, r) && i < |r.states|
    ensures Inv(c, r.states[i])
  {
    if i > 0 {
      RunConserves(c, r, i - 1);
      assert Takes(c, r, i - 1);
      StepKeepsInv(c, r.states[i - 1], r.steps[i - 1]);
    }
  }

  /** A shutdown and reload brings the mempool back in order. */
  lemma ReloadRestores<Tx(!new)>(c: Codec<Tx>, r: Run<Tx>, i: nat)
    requires Lawful(c) && IsRun(c, r) && i < |r.steps| && r.steps[i].Reload?
    ensures r.states[i + 1].mempool == r.states[i].mempool == r.states[i + 1].folded
    ensures r.states[i + 1].running && r.states[i + 1].builder.Idle? && r.states[i + 1].journal == r.states[i].journal
  {
    assert Takes(c, r, i);
    RunConserves(c, r, i);
    LoadAfterSave(c, r.states[i].mempool);
  }

  // ---- Rejected blocks ---------------------------------------------------------------------

  /** A build followed by a rejection. */
  function Returned<Tx(==)>(c: Codec<Tx>, f: Front<Tx>, picks: seq<int>): Front<Tx>
    requires Enabled(f, Build(picks)) && picks != []
  {
    Apply(c, Apply(c, f, Build(picks)), Reject)
  }

  /**
   * After a rejection the mempool holds, position by position, what PutBackOrder names.
   * Every transaction is back in its own position if and only if the block was the tail
   * of the mempool, in order; without repeated transactions that is the old mempool.
   */
  lemma RejectionRestoresIff<Tx>(c: Codec<Tx>, f: Front<Tx>, picks: seq<int>)
    requires Enabled(f, Build(picks)) && picks != []
    ensures var n := |f.mempool|;
            && Within(PutBackOrder(n, picks), n)
            && Returned(c, f, picks).mempool == At(f.mempool, PutBackOrder(n, picks))
            && (PutBackOrder(n, picks) == Positions(n) <==> IsTail(picks, n))
    ensures AllDifferent(f.mempool) ==> (Returned(c, f, picks).mempool == f.mempool <==> IsTail(picks, |f.mempool|))
  {
    PutBackMoves(f.mempool, picks);
    PutBackOrderIff(|f.mempool|, picks);
    if AllDifferent(f.mempool) {
      PutBackRestoresIff(f.mempool, picks);
    }
  }

  lemma FirstOfTwo<T>(a: T, b: T)
    ensures Kept([a, b], Elements([0])) == [b] && At([a, b], [0]) == [a]
  {
    assert [a, b][..1] == [a] && [a][..0] == [];
    assert Elements([0]) == {0};
    assert Kept([a], {0}) == [];
  }

  /** Two pending transactions change places when a block of the first one is rejected. */
  lemma RejectionReorders<Tx>(c: Codec<Tx>, a: Tx, b: Tx) returns (r: Run<Tx>)
    ensures IsRun(c, r) && |r.steps| == 4 && r.states[2].mempool == [a, b] && r.states[4].mempool == [b, a]
  {
    var s0: Front<Tx> := Front(true, [], Idle, [], [], None, multiset{});
    var s1 := Apply(c, s0, Send(a));
    var s2 := Apply(c, s1, Send(b));
    assert s2.mempool == [a, b];
    var s3, s4 := FirstIsRejected(c, s2, a, b);
    r := Run([s0, s1, s2, s3, s4], [Send(a), Send(b), Build([0]), Reject]);
  }

  lemma FirstIsRejected<Tx>(c: Codec<Tx>, f: Front<Tx>, a: Tx, b: Tx) returns (f': Front<Tx>, f'': Front<Tx>)
    requires f.mempool == [a, b] && f.builder.Idle?
    ensures Enabled(f, Build([0])) && f' == Apply(c, f, Build([0]))
    ensures Enabled(f', Reject) && f'' == Apply(c, f', Reject) && f''.mempool == [b, a]
  {
    FirstOfTwo(a, b);
    f' := Apply(c, f, Build([0]));
    assert f'.builder == Holding([a]);
    f'' := Apply(c, f', Reject);
  }

  // ---- The speculative state ---------------------------------------------------------------

  /** From a rebuild or reload until the next non-empty build, the fold order is exactly the mempool order. */
  lemma {:induction false} FoldIsExactAfterRebuild<Tx(!new)>(c: Codec<Tx>, r: Run<Tx>, i: nat, j: nat)
    requires Lawful(c) && IsRun(c, r) && i < j < |r.states|
    requires r.steps[i].Rebuild? || r.steps[i].Reload?
    requires forall k | i < k < j && r.steps[k].Build? :: r.steps[k].picks == []
    ensures Exact(r.states[j])
    decreases j
  {
    if j > i + 1 {
      FoldIsExactAfterRebuild(c, r, i, j - 1);
      assert Takes(c, r, j - 1);
      ExactStep(c, r.states[j - 1], r.steps[j - 1]);
    } else {
      ExactBegins(c, r, i);
    }
  }

  lemma ExactBegins<Tx(!new)>(c: Codec<Tx>, r: Run<Tx>, i: nat)
    requires Lawful(c) && IsRun(c, r) && i < |r.steps| && (r.steps[i].Rebuild? || r.steps[i].Reload?)
    ensures Exact(r.states[i + 1])
  {
    assert Takes(c, r, i);
    if r.steps[i].Reload? {
      ReloadRestores(c, r, i);
    }
  }

  ghost predicate Exact<Tx>(f: Front<Tx>) { f.folded == f.mempool && (f.builder.Idle? || f.builder.Joined?) }

  lemma ExactStep<Tx(!new)>(c: Codec<Tx>, f: Front<Tx>, step: Step<Tx>)
    requires Lawful(c) && Exact(f) && Enabled(f, step) && (step.Build? ==> step.picks == [])
    ensures Exact(Apply(c, f, step))
  {
    if step.Build? {
      assert Elements(step.picks) == {};
      KeptNothingGone(f.mempool);
    }
  }

  ghost predicate Commutes<Tx(!new), S(!new)>(design: Design<Tx, S>) {
    forall a, b, s :: Swaps(design, a, b, s)
  }

  predicate Swaps<Tx, S(==)>(design: Design<Tx, S>, a: Tx, b: Tx, s: S) {
    design.apply(a, design.apply(b, s)) == design.apply(b, design.apply(a, s))
  }

  /** Moving one transaction to the end changes nothing if transactions commute. */
  lemma {:induction false} FoldMoves<Tx(!new), S(!new)>(design: Design<Tx, S>, s: S, txs: seq<Tx>, i: nat)
    requires Commutes(design) && i < |txs|
    ensures Fold(design, s, txs) == design.apply(txs[i], Fold(design, s, RemoveAt(txs, i)))
  {
    var n := |txs| - 1;
    if i == n {
      assert RemoveAt(txs, i) == txs[..n];
    } else {
      FoldMoves(design, s, txs[..n], i);
      var rest := RemoveAt(txs, i);
      assert rest[..n - 1] == RemoveAt(txs[..n], i) && rest[n - 1] == txs[n];
      assert Swaps(design, txs[n], txs[i], Fold(design, s, rest[..n - 1]));
    }
  }

  lemma TakeOut<T>(b: seq<T>, i: nat)
    requires i < |b|
    ensures multiset(b) == multiset(RemoveAt(b, i)) + multiset{b[i]}
  {
    assert b == b[..i] + [b[i]] + b[i + 1..];
  }

  lemma CancelOne<T>(x: multiset<T>, y: multiset<T>, e: T)
    requires x + multiset{e} == y + multiset{e}
    ensures x == y
  {
    assert x == x + multiset{e} - multiset{e} && y == y + multiset{e} - multiset{e};
  }

  /** For commuting transactions the fold depends only on which transactions were applied, not on their order. */
  lemma {:induction false} FoldOfPermutation<Tx(!new), S(!new)>(design: Design<Tx, S>, s: S, a: seq<Tx>, b: seq<Tx>)
    requires Commutes(design) && multiset(a) == multiset(b)
    ensures Fold(design, s, a) == Fold(design, s, b)
    decreases |a|
  {
    if a == [] {
      assert |multiset(b)| == 0;
    } else {
      var n := |a| - 1;
      assert a == a[..n] + [a[n]];
      assert a[n] in multiset(b);
      var i :| 0 <= i < |b| && b[i] == a[n];
      TakeOut(b, i);
      CancelOne(multiset(a[..n]), multiset(RemoveAt(b, i)), a[n]);
      FoldOfPermutation(design, s, a[..n], RemoveAt(b, i));
      FoldMoves(design, s, b, i);
    }
  }

  /**
   * For commuting transactions the speculative state is the mempool-order fold followed
   * by the block in flight or just committed; with no such block, the mempool-order fold.
   */
  lemma SpeculationIsMempoolFold<Tx(!new), S(!new)>(c: Codec<Tx>, design: Design<Tx, S>, r: Run<Tx>, i: nat, base: S)
    requires Lawful(c) && IsRun(c, r) && i < |r.states| && Commutes(design)
    ensures Fold(design, base, r.states[i].folded) == Fold(design, base, r.states[i].mempool + Folding(r.states[i]))
    ensures r.states[i].builder.Idle? || r.states[i].builder.Joined? ==>
              Fold(design, base, r.states[i].folded) == Fold(design, base, r.states[i].mempool)
  {
    RunConserves(c, r, i);
    var f := r.states[i];
    FoldOfPermutation(design, base, f.folded, f.mempool + Folding(f));
    assert Folding(f) == [] ==> f.mempool + Folding(f) == f.mempool;
  }
}
