/**
 * The journal: `addBlock`, `getBlock` and the time-window query over epoch files.
 * Its meaning is the plain sequence of accepted blocks, kept in the ghost `chain`.
 */
module Backend {
  import opened Words
  import opened Codec
  import opened EpochFile
  import opened Timestamps
  import opened Pacing

  /** The application's rules, over its own kind of state. */
  datatype Design<!Tx, !S> = Design(verify: (Tx, S) -> bool, apply: (Tx, S) -> S)

  function Fold<Tx, S>(design: Design<Tx, S>, s: S, txs: seq<Tx>): S {
    if txs == [] then s else design.apply(txs[|txs| - 1], Fold(design, s, txs[..|txs| - 1]))
  }

  /** Each transaction verifies against the state its predecessors leave. */
  ghost predicate Verifies<Tx, S>(design: Design<Tx, S>, s: S, txs: seq<Tx>) {
    forall i | 0 <= i < |txs| :: design.verify(txs[i], Fold(design, s, txs[..i]))
  }

  datatype AddResult = Added(block: nat) | Rejected | VerificationFailed

  datatype BlockResult<Tx> = BlockOk(txs: seq<Tx>) | OutOfRange | Unreadable

  // ---- The chain cut into epochs -------------------------------------------------------

  ghost function Slice<Tx>(chain: seq<Block<Tx>>, epoch: nat): seq<Block<Tx>> {
    var lo := epoch * BLOCKS_PER_EPOCH;
    if |chain| <= lo then [] else chain[lo..Min(|chain|, lo + BLOCKS_PER_EPOCH)]
  }

  lemma SliceAppend<Tx>(chain: seq<Block<Tx>>, b: Block<Tx>, epoch: nat)
    ensures |Slice(chain, |chain| / BLOCKS_PER_EPOCH)| == |chain| % BLOCKS_PER_EPOCH
    ensures Slice(chain + [b], epoch) ==
            if epoch == |chain| / BLOCKS_PER_EPOCH then Slice(chain, epoch) + [b] else Slice(chain, epoch)
  {
  }

  lemma SliceAt<Tx>(chain: seq<Block<Tx>>, n: nat)
    requires n < |chain|
    ensures n % BLOCKS_PER_EPOCH < |Slice(chain, n / BLOCKS_PER_EPOCH)|
    ensures Slice(chain, n / BLOCKS_PER_EPOCH)[n % BLOCKS_PER_EPOCH] == chain[n]
  {
  }

  ghost function Ticks<Tx>(chain: seq<Block<Tx>>): (r: seq<Tick>)
    ensures |r| == |chain| && forall i | 0 <= i < |chain| :: r[i] == Tick(chain[i].millis, |chain[i].txs|)
  {
    seq(|chain|, i requires 0 <= i < |chain| => Tick(chain[i].millis, |chain[i].txs|))
  }

  lemma TicksAppend<Tx>(config: Config, chain: seq<Block<Tx>>, b: Block<Tx>)
    requires AllAccepted(config, Ticks(chain))
    requires b.txs != [] && Accepts(config, LastMillis(chain), b.millis, |b.txs|)
    ensures AllAccepted(config, Ticks(chain + [b]))
  {
    var ticks, ticks' := Ticks(chain), Ticks(chain + [b]);
    forall i | 0 <= i < |ticks'| ensures AcceptedAt(config, ticks', i) {
      assert i < |ticks| ==> AcceptedAt(config, ticks, i);
    }
  }

  function LastMillis<Tx>(chain: seq<Block<Tx>>): u64 { if chain == [] then 0 else chain[|chain| - 1].millis }

  ghost predicate StampsOf<Tx>(chain: seq<Block<Tx>>, stamps: set<Stamp>) {
    forall s :: s in stamps <==> s.block < |chain| && s.millis == chain[s.block].millis
  }

  lemma StampsAppend<Tx>(chain: seq<Block<Tx>>, b: Block<Tx>, stamps: set<Stamp>)
    requires StampsOf(chain, stamps) && |chain| < U64_MAX
    ensures StampsOf(chain + [b], stamps + {Stamp(b.millis, |chain|)})
  {
  }

  /** The metadata header and the timestamp index agree with the chain, and every block was accepted in its turn. */
  ghost predicate Consistent<Tx>(config: Config, chain: seq<Block<Tx>>, height: int, last: int, stamps: set<Stamp>) {
    && height == |chain| < U64_MAX && last == LastMillis(chain)
    && StampsOf(chain, stamps)
    && AllAccepted(config, Ticks(chain))
  }

  lemma ConsistentAppend<Tx>(config: Config, chain: seq<Block<Tx>>, height: int, last: int, stamps: set<Stamp>, b: Block<Tx>)
    requires Consistent(config, chain, height, last, stamps) && |chain| + 1 < U64_MAX
    requires b.txs != [] && Accepts(config, LastMillis(chain), b.millis, |b.txs|)
    ensures Consistent(config, chain + [b], height + 1, b.millis, stamps + {Stamp(b.millis, height)})
  {
    StampsAppend(chain, b, stamps);
    TicksAppend(config, chain, b);
  }

  /** The transactions of these blocks, one block after another. */
  function Gather<Tx>(chain: seq<Block<Tx>>, blocks: seq<Stamp>): seq<Tx>
    requires forall s | s in blocks :: s.block < |chain|
  {
    if blocks == [] then []
    else Gather(chain, blocks[..|blocks| - 1]) + chain[blocks[|blocks| - 1].block].txs
  }

  function EpochOf(n: nat): nat { n / BLOCKS_PER_EPOCH }

  /** An epoch file holds 65536 blocks. */
  lemma EpochHolds(n: nat)
    ensures EpochOf(n) * 65536 <= n < EpochOf(n) * 65536 + 65536
  {
  }

  ghost predicate AllEpochs(keys: set<int>, count: nat) {
    forall n: nat | n < count :: EpochOf(n) in keys
  }

  lemma OneMoreBlock(keys: set<int>, count: nat)
    requires AllEpochs(keys, count) && EpochOf(count) in keys
    ensures AllEpochs(keys, count + 1)
  {
  }

  /** Every block of the epoch of block n starts where 32 bits can say so. */
  ghost predicate EpochFits<Tx>(codec: Codec<Tx>, chain: seq<Block<Tx>>, n: nat) {
    Fits(Images(codec, Slice(chain, n / BLOCKS_PER_EPOCH)))
  }

  /** Chains of blocks of at most 61440 bytes never outgrow an epoch. */
  lemma SmallBlocksFitTheirEpochs<Tx>(codec: Codec<Tx>, chain: seq<Block<Tx>>, n: nat)
    requires forall i | 0 <= i < |chain| :: |BlockBytes(codec, chain[i])| <= 61440
    ensures EpochFits(codec, chain, n)
  {
    SmallBlocksFit(Images(codec, Slice(chain, n / BLOCKS_PER_EPOCH)));
  }

  /** The journal's size condition is exact: it holds of an epoch if and only if its blocks were written apart. */
  lemma EpochFitsIff<Tx>(codec: Codec<Tx>, chain: seq<Block<Tx>>, n: nat)
    ensures EpochFits(codec, chain, n) <==> SafeLayout(Images(codec, Slice(chain, n / BLOCKS_PER_EPOCH)))
  {
    LayoutIsSafeIff(Images(codec, Slice(chain, n / BLOCKS_PER_EPOCH)));
  }

  lemma {:induction false} RunIsLong<Tx>(c: Codec<Tx>, txs: seq<Tx>)
    requires forall tx | tx in txs :: 60 <= |c.encode(tx)|
    ensures 60 * |txs| <= |EncodeAll(c, txs)|
  {
    if txs != [] {
      assert txs[0] in txs;
      RunIsLong(c, txs[1..]);
    }
  }

  /** A chain of full blocks of 1024 transactions of at least 60 bytes, whatever the clock said. */
  ghost predicate IsFull<Tx>(c: Codec<Tx>, chain: seq<Block<Tx>>) {
    forall i | 0 <= i < |chain| :: |chain[i].txs| == MAX_TX_PER_BLOCK && forall tx | tx in chain[i].txs :: 60 <= |c.encode(tx)|
  }

  /**
   * The overflow is within reach: blocks of 1024 transactions are accepted at any time,
   * and if each takes 60 bytes or more, a whole epoch of them does not fit.
   */
  lemma FullChainsOverflow<Tx>(config: Config, c: Codec<Tx>, chain: seq<Block<Tx>>, n: nat)
    requires IsFull(c, chain) && (n / BLOCKS_PER_EPOCH + 1) * BLOCKS_PER_EPOCH <= |chain|
    ensures AllAccepted(config, Ticks(chain))
    ensures !EpochFits(c, chain, n) && !SafeLayout(Images(c, Slice(chain, n / BLOCKS_PER_EPOCH)))
  {
    forall i | 0 <= i < |chain| ensures AcceptedAt(config, Ticks(chain), i) {
    }
    var slice := Slice(chain, n / BLOCKS_PER_EPOCH);
    forall k | 0 <= k < |slice| ensures 61440 < |BlockBytes(c, slice[k])| {
      FullBlockIsLarge(c, chain[n / BLOCKS_PER_EPOCH * BLOCKS_PER_EPOCH + k]);
    }
    LargeBlocksOverflow(Images(c, slice));
  }

  lemma FullBlockIsLarge<Tx>(c: Codec<Tx>, b: Block<Tx>)
    requires |b.txs| == MAX_TX_PER_BLOCK && forall tx | tx in b.txs :: 60 <= |c.encode(tx)|
    ensures 61440 < |BlockBytes(c, b)|
  {
    RunIsLong(c, b.txs);
  }

  /** One transaction of 60 bytes is enough: a chain that repeats it fills an epoch and overflows it. */
  lemma OverflowIsReachable<Tx>(config: Config, c: Codec<Tx>, tx: Tx, now: u64) returns (chain: seq<Block<Tx>>)
    requires 60 <= |c.encode(tx)|
    ensures |chain| == BLOCKS_PER_EPOCH && AllAccepted(config, Ticks(chain)) && !EpochFits(c, chain, 0)
    ensures !SafeLayout(Images(c, Slice(chain, 0)))
  {
    var txs := seq(MAX_TX_PER_BLOCK, _ => tx);
    chain := seq(BLOCKS_PER_EPOCH, _ => Block(now, txs));
    FullChainsOverflow(config, c, chain, 0);
  }

  lemma {:induction false} TestRunLength(txs: seq<TestTx>)
    ensures |EncodeAll(TEST_CODEC, txs)| == 17 * |txs|
  {
    if txs != [] {
      TestReadsBack(txs[0], []);
      TestRunLength(txs[1..]);
    }
  }

  /** Chains of the test design need no hypothesis: whatever was accepted fits and reads back. */
  lemma TestChainsFit(config: Config, chain: seq<Block<TestTx>>, n: nat)
    requires AllAccepted(config, Ticks(chain))
    ensures Lawful(TEST_CODEC) && EpochFits(TEST_CODEC, chain, n)
  {
    TestCodecIsLawful();
    forall i | 0 <= i < |chain| ensures |BlockBytes(TEST_CODEC, chain[i])| <= 61440 {
      assert AcceptedAt(config, Ticks(chain), i);
      TestRunLength(chain[i].txs);
    }
    SmallBlocksFitTheirEpochs(TEST_CODEC, chain, n);
  }

  /** The id of transaction i of block n: the block number above bit 20 and the position below it. */
  function TransactionId(n: nat, i: nat): nat { n * 0x10_0000 + i }

  function BlockPart(id: u64): nat { id / 0x10_0000 }

  function IndexPart(id: u64): nat { id % 0x10_0000 }

  lemma IdsAreBlockAndIndex(n: nat, i: nat)
    requires i < 0x10_0000 && TransactionId(n, i) < TWO_64
    ensures BlockPart(TransactionId(n, i)) == n && IndexPart(TransactionId(n, i)) == i
  {
  }

  // ---- The backend ---------------------------------------------------------------------

  class Backend<Tx(!new), S> {
    const codec: Codec<Tx>
    const config: Config
    const design: Design<Tx, S>
    var height: nat
    var lastBlockTimestamp: u64
    var epochs: map<int, EpochFile<Tx>>
    var stamps: set<Stamp>
    ghost var chain: seq<Block<Tx>>

    ghost predicate Valid()
      reads this, epochs.Values
    {
      && Consistent(config, chain, height, lastBlockTimestamp, stamps)
      && EpochsStore(chain)
      && AllEpochs(epochs.Keys, |chain|)
    }

    /** Distinct epoch files, each storing its part of the chain. */
    ghost predicate EpochsStore(chain: seq<Block<Tx>>)
      reads this`epochs, epochs.Values
    {
      && (forall e | e in epochs :: 0 <= e && epochs[e].codec == codec && epochs[e].Stores(Slice(chain, e)))
      && (forall d, e | d in epochs && e in epochs && d != e :: epochs[d] != epochs[e])
    }

    constructor (codec: Codec<Tx>, config: Config, design: Design<Tx, S>)
      ensures Valid() && chain == [] && this.codec == codec && this.config == config && this.design == design
    {
      this.codec, this.config, this.design := codec, config, design;
      height, lastBlockTimestamp, epochs, stamps, chain := 0, 0, map[], {}, [];
    }

    /** Open the epoch file of a block, creating it if it does not exist. */
    method GetEpochFile(n: nat) returns (file: EpochFile<Tx>)
      requires Valid() && n <= |chain|
      modifies this`epochs
      ensures Valid() && EpochOf(n) in epochs && epochs[EpochOf(n)] == file
      ensures EpochOf(n) in old(epochs) ==> epochs == old(epochs)
      ensures EpochOf(n) !in old(epochs) ==> fresh(file) && epochs == old(epochs)[EpochOf(n) := file]
      ensures fresh({file} - old(epochs.Values)) && epochs.Values <= old(epochs.Values) + {file}
    {
      var e := EpochOf(n);
      if e !in epochs {
        file := new EpochFile(codec);
        assert EpochOf(e * BLOCKS_PER_EPOCH) == e;
        assert Slice(chain, e) == [];
        epochs := epochs[e := file];
      }
      file := epochs[e];
    }

    method VerifyAll(txs: seq<Tx>, committed: S) returns (ok: bool)
      ensures ok <==> Verifies(design, committed, txs)
    {
      var state := committed;
      for i := 0 to |txs|
        invariant state == Fold(design, committed, txs[..i])
        invariant forall k | 0 <= k < i :: design.verify(txs[k], Fold(design, committed, txs[..k]))
      {
        if !design.verify(txs[i], state) {
          return false;
        }
        state := design.apply(txs[i], state);
        assert txs[..i + 1][..i] == txs[..i];
      }
      return true;
    }

    /** Append a block.  The journal's meaning grows by exactly this block, or nothing changes at all. */
    method AddBlock(txs: seq<Tx>, now: u64, committed: S) returns (r: AddResult)
      requires Valid() && txs != [] && |chain| + 1 < U64_MAX
      modifies this, epochs.Values
      ensures Valid() && fresh(epochs.Values - old(epochs.Values))
      // Turned down unread: 1024 transactions never are.
      ensures var n, last := |txs|, if old(chain) == [] then 0 else old(chain)[|old(chain)| - 1].millis;
              var d := if last <= now then now - last else now - last + 0x1_0000_0000_0000_0000;
              r.Rejected? <==>
                n != 1024 && (n > 1024 || d < 100
                              || (d < 600000 && (d + 1) * n <= config.targetBlockTimeMs * config.targetThroughput)
                              || (d > 3600000 && n > 90))
      ensures r.VerificationFailed? <==> !r.Rejected? && !Verifies(design, committed, txs)
      ensures r.Added? ==> r.block == |old(chain)| && chain == old(chain) + [Block(now, txs)]
      ensures !r.Added? ==> unchanged(this) && unchanged(old(epochs.Values))
    {
      AcceptsUnless(config, lastBlockTimestamp, now, |txs|);
      if !Accepts(config, lastBlockTimestamp, now, |txs|) {
        return Rejected;
      }
      var ok := VerifyAll(txs, committed);
      if !ok {
        return VerificationFailed;
      }
      ConsistentAppend(config, chain, height, lastBlockTimestamp, stamps, Block(now, txs));
      var blockNumber := Commit(txs, now);
      return Added(blockNumber);
    }

    /** The header and the timestamp index will agree with the chain once this block is added. */
    ghost predicate Extends(now: u64, txs: seq<Tx>)
      reads this
    {
      height < U64_MAX && Consistent(config, chain + [Block(now, txs)], height + 1, now, stamps + {Stamp(now, height)})
    }

    method Commit(txs: seq<Tx>, now: u64) returns (blockNumber: nat)
      requires Valid() && Extends(now, txs)
      modifies this, epochs.Values
      ensures Valid() && fresh(epochs.Values - old(epochs.Values))
      ensures blockNumber == |old(chain)| && chain == old(chain) + [Block(now, txs)]
    {
      blockNumber := height;
      var file := GetEpochFile(blockNumber);
      ghost var files := epochs.Values;
      assert fresh(files - old(epochs.Values)) && file in files;
      Append(file, now, txs);
      assert epochs.Values == files;
    }

    method Append(file: EpochFile<Tx>, now: u64, txs: seq<Tx>)
      requires Valid() && Extends(now, txs)
      requires EpochOf(height) in epochs && epochs[EpochOf(height)] == file
      modifies this`height, this`lastBlockTimestamp, this`stamps, this`chain, file
      ensures Valid() && chain == old(chain) + [Block(now, txs)]
    {
      ghost var b := Block(now, txs);
      AppendToEpoch(file, now, txs);
      OneMoreBlock(epochs.Keys, height);
      stamps := stamps + {Stamp(now, height)};
      chain := chain + [b];
      height := height + 1;
      lastBlockTimestamp := now;
    }

    method AppendToEpoch(file: EpochFile<Tx>, now: u64, txs: seq<Tx>)
      requires EpochsStore(chain) && height == |chain|
      requires EpochOf(height) in epochs && epochs[EpochOf(height)] == file
      modifies file
      ensures EpochsStore(chain + [Block(now, txs)])
    {
      ghost var e0 := EpochOf(height);
      SliceAppend(chain, Block(now, txs), e0);
      file.AppendBlock(height, now, txs, Slice(chain, e0));
      forall e | e in epochs ensures epochs[e].Stores(Slice(chain + [Block(now, txs)], e)) {
        SliceAppend(chain, Block(now, txs), e);
      }
    }

    method GetBlock(n: nat) returns (r: BlockResult<Tx>)
      requires Valid()
      ensures r.OutOfRange? <==> n >= |chain|
      ensures n < |chain| && Lawful(codec) && EpochFits(codec, chain, n) ==> r == BlockOk(chain[n].txs)
    {
      if n >= height {
        return OutOfRange;
      }
      assert EpochOf(n) in epochs.Keys;
      var file := epochs[EpochOf(n)];
      SliceAt(chain, n);
      assert AcceptedAt(config, Ticks(chain), n);
      var read := file.ReadBlock(n, Slice(chain, EpochOf(n)));
      match read
      case ReadOk(txs) => r := BlockOk(txs);
      case ReadFailed => r := Unreadable;
    }

    method GetTransactionById(id: u64) returns (r: LookupResult<Tx>)
      requires Valid()
      ensures forall n: nat, i: nat | i < 0x10_0000 && id == TransactionId(n, i) ::
                && (r.NoSuchBlock? <==> n >= |chain|)
                && (n < |chain| && Lawful(codec) && EpochFits(codec, chain, n) ==>
                      r == if i < |chain[n].txs| then Found(chain[n].txs[i]) else NoSuchTransaction)
    {
      forall n: nat, i: nat | i < 0x10_0000 && id == TransactionId(n, i) ensures BlockPart(id) == n && IndexPart(id) == i {
        IdsAreBlockAndIndex(n, i);
      }
      var block := GetBlock(BlockPart(id));
      match block
      case OutOfRange => r := NoSuchBlock;
      case Unreadable => r := UnreadableBlock;
      case BlockOk(txs) => r := if IndexPart(id) < |txs| then Found(txs[IndexPart(id)]) else NoSuchTransaction;
    }

    /** The transactions of the blocks stamped within [start, end], in (timestamp, block) order. */
    method GetTransactionsByTimeWindow(start: u64, end: u64) returns (r: WindowResult<Tx>, ghost blocks: seq<Stamp>)
      requires Valid()
      ensures r.InvalidWindow? <==> start > end
      ensures start <= end ==> IsWindow(stamps, start, end, blocks) && forall s | s in blocks :: s.block < |chain|
      ensures start <= end && Lawful(codec) && (forall n | 0 <= n < |chain| :: EpochFits(codec, chain, n)) ==>
                r == WindowOk(Gather(chain, blocks))
    {
      if start > end {
        return InvalidWindow, [];
      }
      var found := GetBlocksInWindow(stamps, start, end);
      blocks := found;
      ghost var good := Lawful(codec) && forall n | 0 <= n < |chain| :: EpochFits(codec, chain, n);
      var all: seq<Tx> := [];
      for i := 0 to |found|
        invariant forall s | s in found :: s.block < |chain|
        invariant good ==> all == Gather(chain, found[..i])
      {
        assert found[i] in found && found[..i + 1][..i] == found[..i];
        var block := GetBlock(found[i].block);
        if !block.BlockOk? {
          return WindowFailed, blocks;
        }
        all := all + block.txs;
      }
      assert found[..|found|] == found;
      r := WindowOk(all);
    }
  }

  datatype LookupResult<Tx> = Found(tx: Tx) | NoSuchTransaction | NoSuchBlock | UnreadableBlock

  datatype WindowResult<Tx> = WindowOk(txs: seq<Tx>) | InvalidWindow | WindowFailed

  // ---- Windows in chain order ----------------------------------------------------------

  /** Filtering the chain itself, oldest block first. */
  function Filtered<Tx>(chain: seq<Block<Tx>>, start: u64, end: u64): seq<Tx> {
    if chain == [] then []
    else
      var last := chain[|chain| - 1];
      Filtered(chain[..|chain| - 1], start, end) + if start <= last.millis <= end then last.txs else []
  }

  /** Under a clock that never goes back, the index order is the chain order. */
  lemma {:induction false} WindowIsFilteredChain<Tx>(chain: seq<Block<Tx>>, stamps: set<Stamp>, start: u64, end: u64, blocks: seq<Stamp>)
    requires StampsOf(chain, stamps) && |chain| < U64_MAX && Nondecreasing(Ticks(chain))
    requires IsWindow(stamps, start, end, blocks) && forall s | s in blocks :: s.block < |chain|
    ensures Gather(chain, blocks) == Filtered(chain, start, end)
  {
    if chain == [] {
      HeadIsMember(blocks);
    } else {
      var n := |chain| - 1;
      var newest := Stamp(chain[n].millis, n);
      DropNewest(chain, stamps);
      if InWindow(newest, start, end) {
        NewestIsLast(chain, stamps, start, end, blocks);
        var rest := blocks[..|blocks| - 1];
        WindowIsFilteredChain(chain[..n], stamps - {newest}, start, end, rest);
        GatherPrefix(chain, n, rest);
      } else {
        NewestIsOutside(chain, stamps, start, end, blocks);
        WindowIsFilteredChain(chain[..n], stamps - {newest}, start, end, blocks);
        GatherPrefix(chain, n, blocks);
      }
    }
  }

  lemma DropNewest<Tx>(chain: seq<Block<Tx>>, stamps: set<Stamp>)
    requires chain != [] && StampsOf(chain, stamps) && |chain| < U64_MAX && Nondecreasing(Ticks(chain))
    ensures StampsOf(chain[..|chain| - 1], stamps - {Stamp(chain[|chain| - 1].millis, |chain| - 1)})
    ensures Nondecreasing(Ticks(chain[..|chain| - 1]))
  {
    assert forall i | 0 < i < |chain| - 1 :: Ticks(chain)[i - 1].millis <= Ticks(chain)[i].millis;
  }

  lemma NewestIsOutside<Tx>(chain: seq<Block<Tx>>, stamps: set<Stamp>, start: u64, end: u64, blocks: seq<Stamp>)
    requires chain != [] && StampsOf(chain, stamps) && |chain| < U64_MAX && IsWindow(stamps, start, end, blocks)
    requires !InWindow(Stamp(chain[|chain| - 1].millis, |chain| - 1), start, end)
    ensures IsWindow(stamps - {Stamp(chain[|chain| - 1].millis, |chain| - 1)}, start, end, blocks)
    ensures forall s | s in blocks :: s.block < |chain| - 1
  {
  }

  lemma HeadIsMember(blocks: seq<Stamp>)
    ensures blocks == [] || blocks[0] in blocks
  {
  }

  lemma {:induction false} MillisGrow<Tx>(chain: seq<Block<Tx>>, i: nat, j: nat)
    requires Nondecreasing(Ticks(chain)) && i <= j < |chain|
    ensures chain[i].millis <= chain[j].millis
    decreases j
  {
    if i < j {
      MillisGrow(chain, i, j - 1);
      assert Ticks(chain)[j - 1].millis <= Ticks(chain)[j].millis;
    }
  }

  /** The newest block of a nondecreasing chain closes every window it is in. */
  lemma NewestIsLast<Tx>(chain: seq<Block<Tx>>, stamps: set<Stamp>, start: u64, end: u64, blocks: seq<Stamp>)
    requires chain != [] && StampsOf(chain, stamps) && |chain| < U64_MAX && Nondecreasing(Ticks(chain))
    requires IsWindow(stamps, start, end, blocks) && InWindow(Stamp(chain[|chain| - 1].millis, |chain| - 1), start, end)
    ensures blocks != [] && blocks[|blocks| - 1] == Stamp(chain[|chain| - 1].millis, |chain| - 1)
    ensures IsWindow(stamps - {blocks[|blocks| - 1]}, start, end, blocks[..|blocks| - 1])
    ensures forall s | s in blocks[..|blocks| - 1] :: s.block < |chain| - 1
  {
    var n := |chain| - 1;
    var newest := Stamp(chain[n].millis, n);
    assert newest in blocks;
    var last := blocks[|blocks| - 1];
    assert last in blocks;
    MillisGrow(chain, last.block, n);
    CompareIsOrder(last, newest);
    assert last == newest;
    var rest := blocks[..|blocks| - 1];
    forall s ensures s in rest <==> s in blocks && s != last {
      if s in rest {
        var i :| 0 <= i < |rest| && rest[i] == s;
        assert Order(blocks[i]) < Order(blocks[|blocks| - 1]);
      }
    }
  }

  lemma {:induction false} GatherPrefix<Tx>(chain: seq<Block<Tx>>, n: nat, blocks: seq<Stamp>)
    requires n <= |chain| && forall s | s in blocks :: s.block < n
    ensures Gather(chain, blocks) == Gather(chain[..n], blocks)
  {
    if blocks != [] {
      var rest := blocks[..|blocks| - 1];
      assert blocks[|blocks| - 1] in blocks && forall s | s in rest :: s in blocks;
      GatherPrefix(chain, n, rest);
    }
  }
}
