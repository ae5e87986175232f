/**
 * The frontend object.  Each method is one lock section of the source; its
 * contract is the matching step of the frontend step system.
 */
module FrontendObject {
  import opened Words
  import opened Codec
  import opened EpochFile
  import opened Backend
  import opened Builder
  import F = Frontend

  /** The journal as the frontend counts it. */
  ghost function Journal<Tx>(chain: seq<Block<Tx>>): (r: seq<seq<Tx>>)
    ensures |r| == |chain| && forall i | 0 <= i < |chain| :: r[i] == chain[i].txs
  {
    seq(|chain|, i requires 0 <= i < |chain| => chain[i].txs)
  }

  lemma FoldAppend<Tx, S>(design: Design<Tx, S>, s: S, txs: seq<Tx>, tx: Tx)
    ensures Fold(design, s, txs + [tx]) == design.apply(tx, Fold(design, s, txs))
  {
    assert (txs + [tx])[..|txs|] == txs;
  }

  method SaveMempool<Tx>(codec: Codec<Tx>, mempool: seq<Tx>) returns (file: seq<byte>)
    ensures file == F.SavedBytes(codec, mempool)
  {
    file := ToBytes(|mempool| % TWO_32, 4);
    for i := 0 to |mempool|
      invariant file == ToBytes(|mempool| % TWO_32, 4) + EncodeAll(codec, mempool[..i])
    {
      assert mempool[..i + 1] == mempool[..i] + [mempool[i]];
      EncodeAppend(codec, mempool[..i], mempool[i]);
      file := file + codec.encode(mempool[i]);
    }
    assert mempool[..|mempool|] == mempool;
  }

  /** What is loaded so far, followed by what the rest of the file yields. */
  ghost function Continued<T>(pool: seq<T>, rest: Option<seq<T>>): Option<seq<T>> {
    if rest.None? then None else Some(pool + rest.value)
  }

  lemma ContinuedByOne<T>(pool: seq<T>, x: T, rest: Option<seq<T>>)
    ensures Continued(pool, F.Prepend(x, rest)) == Continued(pool + [x], rest)
  {
    assert rest.Some? ==> pool + ([x] + rest.value) == pool + [x] + rest.value;
  }

  lemma ContinuedByNone<T>(pool: seq<T>, rest: Option<seq<T>>)
    ensures pool == [] ==> Continued(pool, rest) == rest
    ensures rest == Some([]) ==> Continued(pool, rest) == Some(pool)
  {
    assert pool + [] == pool;
    assert rest.Some? ==> [] + rest.value == rest.value;
  }

  method LoadMempool<Tx>(codec: Codec<Tx>, file: seq<byte>) returns (loaded: Option<seq<Tx>>)
    ensures loaded == F.LoadedPool(codec, file)
  {
    if |file| <= 4 {
      return Some([]);
    }
    var count, rest, mempool: seq<Tx> := FromBytes(file[..4]), file[4..], [];
    ContinuedByNone([], F.ReadRun(codec, rest, count));
    for i := 0 to count
      invariant Continued(mempool, F.ReadRun(codec, rest, count - i)) == F.LoadedPool(codec, file)
    {
      match ReadOne(codec, rest)
      case Got(tx, used) =>
        rest := rest[Min(used, |rest|)..];
        ContinuedByOne(mempool, tx, F.ReadRun(codec, rest, count - i - 1));
        mempool := mempool + [tx];
      case UnknownType =>
        rest := rest[1..];
      case _ =>
        return None;
    }
    ContinuedByNone(mempool, Some([]));
    return Some(mempool);
  }

  /** Run the block builder on the mempool's own buffer. */
  method BuildFrom<Tx, S>(pool: seq<Tx>, market: Market<Tx, S>, committed: S, limit: u16, deadline: u64, clock: nat -> int)
    returns (selected: seq<Tx>, rest: seq<Tx>, ghost picks: seq<int>)
    ensures IsSelection(market, committed, pool, picks, limit, deadline, clock)
    ensures selected == At(pool, picks) && rest == Kept(pool, Elements(picks))
  {
    var buffer := new Tx[|pool|](i requires 0 <= i < |pool| => pool[i]);
    var list := new TxList(buffer);
    assert list.Items() == pool;
    selected, picks := list.BuildBlock(market, committed, limit, deadline, clock);
    rest := list.data[..list.size];
  }

  /**
   * The 16-bit limit is the 32-bit target if and only if the target is below 65536; a
   * multiple of 65536 builds nothing at all.
   */
  lemma LimitIsTargetIff<Tx, S>(m: Market<Tx, S>, s: S, pool: seq<Tx>, picks: seq<int>, target: u32, deadline: int, clock: nat -> int)
    requires IsSelection(m, s, pool, picks, target % TWO_16, deadline, clock)
    ensures target % TWO_16 == target <==> target < 65536
    ensures |picks| <= target && (target % 65536 == 0 ==> picks == [])
  {
  }

  class BlockchainFrontend<Tx(!new), S> {
    const codec: Codec<Tx>
    const market: Market<Tx, S>
    const targetThroughput: u32
    var running: bool
    var mempool: seq<Tx>
    var state: S
    var toBuild: seq<Tx>
    /** The abstract state, and the committed state the override was created over. */
    ghost var view: F.Front<Tx>
    ghost var base: S

    ghost predicate Valid()
      reads this
    {
      && view.running == running && view.mempool == mempool
      && toBuild == F.InHand(view) && (view.builder.Holding? ==> toBuild != [])
      && state == Fold(market.design, base, view.folded)
    }

    constructor (codec: Codec<Tx>, market: Market<Tx, S>, targetThroughput: u32, committed: S)
      ensures Valid() && F.Init(view) && base == committed
      ensures this.codec == codec && this.market == market && this.targetThroughput == targetThroughput
    {
      this.codec, this.market, this.targetThroughput := codec, market, targetThroughput;
      running, mempool, state, toBuild := true, [], committed, [];
      base, view := committed, F.Front(true, [], F.Idle, [], [], None, multiset{});
    }

    method SendTransaction(tx: Tx)
      requires Valid() && running
      modifies this
      ensures Valid() && view == F.Apply(codec, old(view), F.Send(tx)) && base == old(base)
    {
      FoldAppend(market.design, base, view.folded, tx);
      state := market.design.apply(tx, state);
      mempool := mempool + [tx];
      view := F.Apply(codec, view, F.Send(tx));
    }

    /** First lock section of the builder loop.  The 32-bit target is passed as a 16-bit limit. */
    method TakeBlock(committed: S, deadline: u64, clock: nat -> int) returns (ghost picks: seq<int>)
      requires Valid() && view.builder.Idle?
      modifies this
      ensures Valid() && base == old(base) && state == old(state)
      ensures IsSelection(market, committed, old(mempool), picks, targetThroughput % TWO_16, deadline, clock)
      ensures F.Enabled(old(view), F.Build(picks)) && view == F.Apply(codec, old(view), F.Build(picks))
    {
      toBuild, mempool, picks := BuildFrom(mempool, market, committed, targetThroughput % TWO_16, deadline, clock);
      view := F.Apply(codec, view, F.Build(picks));
    }

    /** The unlocked middle of the builder loop: offer the block to the backend. */
    method SubmitBlock(backend: Backend<Tx, S>, now: u64, committed: S) returns (r: AddResult)
      requires Valid() && view.builder.Holding? && backend.Valid() && |backend.chain| + 1 < U64_MAX
      requires view.journal == Journal(backend.chain)
      modifies this, backend, backend.epochs.Values
      ensures Valid() && backend.Valid() && view.journal == Journal(backend.chain)
      ensures base == old(base) && mempool == old(mempool) && state == old(state)
      ensures view == if r.Added? then F.Apply(codec, old(view), F.Commit) else old(view)
    {
      r := backend.AddBlock(toBuild, now, committed);
      if r.Added? {
        assert Journal(backend.chain) == view.journal + [toBuild];
        toBuild := [];
        view := F.Apply(codec, view, F.Commit);
      }
    }

    /** Last lock section after a rejection. */
    method ReturnRejected()
      requires Valid() && view.builder.Holding?
      modifies this
      ensures Valid() && view == F.Apply(codec, old(view), F.Reject) && base == old(base)
    {
      mempool := mempool + toBuild;
      toBuild := [];
      view := F.Apply(codec, view, F.Reject);
    }

    /** Last lock section after a commit: start over from the committed state and reapply the mempool in order. */
    method RebuildSpeculativeState(committed: S)
      requires Valid() && view.builder.Committed?
      modifies this
      ensures Valid() && view == F.Apply(codec, old(view), F.Rebuild)
      ensures base == committed && state == Fold(market.design, committed, mempool)
    {
      var rebuilt, pool := committed, mempool;
      for i := 0 to |pool|
        modifies {}
        invariant rebuilt == Fold(market.design, committed, pool[..i])
      {
        assert pool[..i + 1] == pool[..i] + [pool[i]];
        FoldAppend(market.design, committed, pool[..i], pool[i]);
        rebuilt := market.design.apply(pool[i], rebuilt);
      }
      assert pool[..|pool|] == pool;
      state := rebuilt;
      base := committed;
      view := F.Apply(codec, view, F.Rebuild);
    }
  }
}
