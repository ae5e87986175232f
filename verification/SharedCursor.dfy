/**
 * One epoch file used by several threads.  `appendBlock` and `readBlock` both move the
 * one cursor of the mapping, and nothing locks it: the builder thread appends while
 * clients read.  Each operation is cut into its uses of the cursor.  A step is in turn
 * if no other operation has moved the cursor since the operation's own last step.
 */
module SharedCursor {
  import opened Words
  import opened Codec
  import opened EpochFile

  /** An append under way: `slots` and `base` are the offset table and the memory it found. */
  datatype Append<Tx> = Append(block: Block<Tx>, at: nat, done: nat, slots: seq<nat>, base: seq<byte>)

  /** A read of block n.  `good`: the block was complete when it began and every step so far was in turn. */
  datatype Read<Tx> = Read(n: nat, count: int, got: seq<Tx>, failed: bool, good: bool)

  /** Whose step moved the cursor last. */
  datatype Holder = Nobody | Appender | Reader(k: int)

  /** `sound`: every step of every append so far was in turn. */
  datatype Shared<Tx> = Shared(
    bytes: seq<byte>,
    offsets: seq<nat>,
    cursor: nat,
    holder: Holder,
    blocks: seq<Block<Tx>>,
    append: Option<Append<Tx>>,
    readers: map<int, Read<Tx>>,
    sound: bool)

  datatype Step<Tx> =
    | StartAppend(block: Block<Tx>)
    | WriteNext
    | FinishAppend
    | StartRead(k: int, n: nat)
    | ReadNext(k: int)

  predicate Enabled<Tx>(s: Shared<Tx>, step: Step<Tx>) {
    && |s.offsets| == BLOCKS_PER_EPOCH
    && match step
       case StartAppend(_) => s.append.None? && |s.blocks| < BLOCKS_PER_EPOCH
       case WriteNext => s.append.Some? && s.append.value.done < |s.append.value.block.txs|
       case FinishAppend => s.append.Some? && s.append.value.done == |s.append.value.block.txs| && |s.blocks| < BLOCKS_PER_EPOCH
       case StartRead(k, n) => k !in s.readers && n < BLOCKS_PER_EPOCH && s.offsets[n] != 0
       case ReadNext(k) => k in s.readers && !s.readers[k].failed && |s.readers[k].got| < s.readers[k].count
  }

  /** The transaction count in the block header at `at`; memory never written reads as zero. */
  function CountAt(bytes: seq<byte>, at: nat): int {
    if at + BLOCK_HEADER <= |bytes| then FromBytes(bytes[at + 8..at + 10]) else 0
  }

  function From(bytes: seq<byte>, cursor: nat): seq<byte> { if cursor <= |bytes| then bytes[cursor..] else [] }

  function Advanced<Tx>(c: Codec<Tx>, s: Shared<Tx>, k: int): Shared<Tx>
    requires k in s.readers
  {
    var r := s.readers[k].(good := s.readers[k].good && s.holder == Reader(k));
    match ReadOne(c, From(s.bytes, s.cursor))
    case Got(tx, used) => s.(cursor := s.cursor + used, holder := Reader(k), readers := s.readers[k := r.(got := r.got + [tx])])
    case UnknownType => s.(cursor := s.cursor + 1, holder := Reader(k), readers := s.readers[k := r.(failed := true)])
    case _ => s.(holder := Reader(k), readers := s.readers[k := r.(failed := true)])
  }

  function Apply<Tx>(c: Codec<Tx>, s: Shared<Tx>, step: Step<Tx>): Shared<Tx>
    requires Enabled(s, step)
  {
    match step
    case StartAppend(b) =>
      var n := |s.blocks|;
      var at: nat := Start(s.offsets[n]);
      s.(bytes := Poke(s.bytes, at, BlockHeader(b.millis, |b.txs|)), offsets := s.offsets[n := at],
         cursor := at + BLOCK_HEADER, holder := Appender, append := Some(Append(b, at, 0, s.offsets, s.bytes)))
    case WriteNext =>
      var a := s.append.value;
      var data := c.encode(a.block.txs[a.done]);
      s.(bytes := Poke(s.bytes, s.cursor, data), cursor := s.cursor + |data|, holder := Appender,
         append := Some(a.(done := a.done + 1)), sound := s.sound && s.holder == Appender)
    case FinishAppend =>
      var n := |s.blocks|;
      s.(offsets := if n + 1 < BLOCKS_PER_EPOCH then s.offsets[n + 1 := Truncated(AlignUp(s.cursor))] else s.offsets,
         blocks := s.blocks + [s.append.value.block], append := None, sound := s.sound && s.holder == Appender)
    case StartRead(k, n) =>
      s.(cursor := s.offsets[n] + BLOCK_HEADER, holder := Reader(k),
         readers := s.readers[k := Read(n, CountAt(s.bytes, s.offsets[n]), [], false, n < |s.blocks|)])
    case ReadNext(k) => Advanced(c, s, k)
  }

  predicate Init<Tx>(s: Shared<Tx>) {
    && s.offsets == [FIRST_OFFSET] + seq(BLOCKS_PER_EPOCH - 1, _ => 0)
    && s.bytes == [] && s.holder.Nobody? && s.blocks == [] && s.append.None? && s.readers == map[] && s.sound
  }

  datatype Run<Tx> = Run(states: seq<Shared<Tx>>, steps: seq<Step<Tx>>)

  ghost predicate Takes<Tx>(c: Codec<Tx>, r: Run<Tx>, i: nat)
    requires |r.states| == |r.steps| + 1 && i < |r.steps|
  {
    Enabled(r.states[i], r.steps[i]) && r.states[i + 1] == Apply(c, r.states[i], r.steps[i])
  }

  ghost predicate IsRun<Tx>(c: Codec<Tx>, r: Run<Tx>) {
    && |r.states| == |r.steps| + 1 && Init(r.states[0])
    && forall i | 0 <= i < |r.steps| :: Takes(c, r, i)
  }

  // ---- Invariant -----------------------------------------------------------------------------

  /** What an append has written so far. */
  function Written<Tx>(c: Codec<Tx>, a: Append<Tx>): seq<byte>
    requires a.done <= |a.block.txs|
  {
    BlockHeader(a.block.millis, |a.block.txs|) + EncodeAll(c, a.block.txs[..a.done])
  }

  /** The finished blocks, and the one being written. */
  ghost function AllImages<Tx>(c: Codec<Tx>, s: Shared<Tx>): seq<seq<byte>> {
    Images(c, s.blocks) + if s.append.Some? then [BlockBytes(c, s.append.value.block)] else []
  }

  ghost predicate Stored<Tx>(c: Codec<Tx>, blocks: seq<Block<Tx>>, offsets: seq<nat>, bytes: seq<byte>) {
    Placed(Images(c, blocks), offsets) && (Fits(Images(c, blocks)) ==> Intact(Images(c, blocks), offsets, bytes))
  }

  ghost predicate AppendOk<Tx>(c: Codec<Tx>, blocks: seq<Block<Tx>>, offsets: seq<nat>, bytes: seq<byte>,
                               cursor: nat, holder: Holder, a: Append<Tx>) {
    && |blocks| < BLOCKS_PER_EPOCH && |a.slots| == BLOCKS_PER_EPOCH && a.done <= |a.block.txs|
    && Stored(c, blocks, a.slots, a.base)
    && a.at == Start(a.slots[|blocks|]) && offsets == a.slots[|blocks| := a.at]
    && Wrote(a.base, bytes, a.at, Written(c, a))
    && (holder == Appender ==> cursor == a.at + |Written(c, a)|)
  }

  /** As long as appends were in turn, the file holds the finished blocks and the written part of the next. */
  ghost predicate FileOk<Tx>(c: Codec<Tx>, s: Shared<Tx>) {
    match s.append
    case None => Stored(c, s.blocks, s.offsets, s.bytes)
    case Some(a) => AppendOk(c, s.blocks, s.offsets, s.bytes, s.cursor, s.holder, a)
  }

  /** A good read has the right transactions so far and, in turn, the right place for the next. */
  ghost predicate ReadOk<Tx>(c: Codec<Tx>, blocks: seq<Block<Tx>>, offsets: seq<nat>, cursor: nat, holder: Holder, k: int, r: Read<Tx>) {
    && r.n < |blocks| && r.n < |offsets|
    && (|blocks[r.n].txs| < TWO_16 ==>
          && !r.failed && r.count == |blocks[r.n].txs| && |r.got| <= r.count
          && r.got == blocks[r.n].txs[..|r.got|]
          && (holder == Reader(k) ==> cursor == offsets[r.n] + BLOCK_HEADER + |EncodeAll(c, r.got)|))
  }

  ghost predicate ReadsOk<Tx>(c: Codec<Tx>, s: Shared<Tx>) {
    forall k | k in s.readers && s.readers[k].good :: ReadOk(c, s.blocks, s.offsets, s.cursor, s.holder, k, s.readers[k])
  }

  ghost predicate Inv<Tx>(c: Codec<Tx>, s: Shared<Tx>) {
    && |s.offsets| == BLOCKS_PER_EPOCH
    && (s.sound ==> FileOk(c, s))
    && (s.sound && Fits(AllImages(c, s)) ==> ReadsOk(c, s))
  }

  // ---- Where blocks are ------------------------------------------------------------------------

  ghost predicate HoldsBlock<Tx>(c: Codec<Tx>, blocks: seq<Block<Tx>>, offsets: seq<nat>, bytes: seq<byte>, n: nat)
    requires n < |blocks| && n < |offsets|
  {
    0 < offsets[n] && HoldsAt(bytes, offsets[n], BlockBytes(c, blocks[n]))
  }

  /** While all offsets fit, every finished block is in place, also during an append. */
  lemma FinishedBlocksAreThere<Tx>(c: Codec<Tx>, s: Shared<Tx>, n: nat)
    requires FileOk(c, s) && Fits(AllImages(c, s)) && n < |s.blocks| && |s.offsets| == BLOCKS_PER_EPOCH
    ensures n < BLOCKS_PER_EPOCH && HoldsBlock(c, s.blocks, s.offsets, s.bytes, n)
  {
    var images := Images(c, s.blocks);
    match s.append
    case None =>
      assert AllImages(c, s) == images;
      StoredBlock(c, s.blocks, s.offsets, s.bytes, n);
    case Some(a) =>
      PrefixFits(images, BlockBytes(c, a.block));
      StoredBlock(c, s.blocks, a.slots, a.base, n);
      AppendedAtOffset(images, [], a.slots, a.base, a.at);
      EarlierBlocksStay(images, a.slots, a.base, Written(c, a), s.bytes, n);
  }

  // ---- Appends -----------------------------------------------------------------------------------

  lemma AppendStarts<Tx>(c: Codec<Tx>, s: Shared<Tx>, b: Block<Tx>)
    requires s.sound && FileOk(c, s) && Enabled(s, StartAppend(b))
    ensures FileOk(c, Apply(c, s, StartAppend(b)))
  {
    var s' := Apply(c, s, StartAppend(b));
    var header := BlockHeader(b.millis, |b.txs|);
    assert b.txs[..0] == [] && header + EncodeAll(c, []) == header;
    assert Written(c, s'.append.value) == header;
  }

  lemma OneMoreWritten<Tx>(c: Codec<Tx>, a: Append<Tx>, bytes: seq<byte>)
    requires a.done < |a.block.txs| && Wrote(a.base, bytes, a.at, Written(c, a))
    ensures var data, a' := c.encode(a.block.txs[a.done]), a.(done := a.done + 1);
            && Wrote(a.base, Poke(bytes, a.at + |Written(c, a)|, data), a.at, Written(c, a'))
            && |Written(c, a')| == |Written(c, a)| + |data|
  {
    WrittenGrows(c, a);
    WritesJoin(a.base, bytes, a.at, Written(c, a), c.encode(a.block.txs[a.done]));
  }

  lemma WrittenGrows<Tx>(c: Codec<Tx>, a: Append<Tx>)
    requires a.done < |a.block.txs|
    ensures Written(c, a.(done := a.done + 1)) == Written(c, a) + c.encode(a.block.txs[a.done])
  {
    var txs := a.block.txs;
    assert txs[..a.done + 1] == txs[..a.done] + [txs[a.done]];
    EncodeAppend(c, txs[..a.done], txs[a.done]);
  }

  lemma AppendOkNext<Tx>(c: Codec<Tx>, blocks: seq<Block<Tx>>, offsets: seq<nat>, bytes: seq<byte>, cursor: nat, a: Append<Tx>)
    requires AppendOk(c, blocks, offsets, bytes, cursor, Appender, a) && a.done < |a.block.txs|
    ensures var data := c.encode(a.block.txs[a.done]);
            AppendOk(c, blocks, offsets, Poke(bytes, cursor, data), cursor + |data|, Appender, a.(done := a.done + 1))
  {
    OneMoreWritten(c, a, bytes);
  }

  lemma AppendWrites<Tx>(c: Codec<Tx>, s: Shared<Tx>)
    requires s.sound && s.holder == Appender && FileOk(c, s) && Enabled(s, WriteNext)
    ensures FileOk(c, Apply(c, s, WriteNext))
  {
    AppendOkNext(c, s.blocks, s.offsets, s.bytes, s.cursor, s.append.value);
  }

  lemma AppendFinishes<Tx>(c: Codec<Tx>, s: Shared<Tx>)
    requires s.sound && s.holder == Appender && FileOk(c, s) && Enabled(s, FinishAppend)
    ensures FileOk(c, Apply(c, s, FinishAppend))
  {
    var a, s' := s.append.value, Apply(c, s, FinishAppend);
    assert a.block.txs[..|a.block.txs|] == a.block.txs;
    assert Written(c, a) == BlockBytes(c, a.block);
    ImagesAppend(c, s.blocks, a.block);
    AppendOne(Images(c, s.blocks), BlockBytes(c, a.block), a.slots, a.base, s'.offsets, s'.bytes, a.at);
  }

  // ---- Reads -------------------------------------------------------------------------------------

  lemma CountOfBlock<Tx>(c: Codec<Tx>, bytes: seq<byte>, at: nat, b: Block<Tx>)
    requires HoldsAt(bytes, at, BlockBytes(c, b)) && |b.txs| < TWO_16
    ensures CountAt(bytes, at) == |b.txs|
  {
    HeaderReadsBack(c, b, bytes, at);
  }

  /** The next transaction of a block that has been read up to `got`. */
  lemma {:induction false} NextOfBlock<Tx(!new)>(c: Codec<Tx>, bytes: seq<byte>, at: nat, b: Block<Tx>, got: seq<Tx>)
    requires Lawful(c) && HoldsAt(bytes, at, BlockBytes(c, b)) && |b.txs| < TWO_16
    requires |got| < |b.txs| && got == b.txs[..|got|]
    ensures var tx := b.txs[|got|];
            && ReadOne(c, From(bytes, at + BLOCK_HEADER + |EncodeAll(c, got)|)) == Got(tx, |c.encode(tx)|)
            && got + [tx] == b.txs[..|got| + 1]
            && |EncodeAll(c, got + [tx])| == |EncodeAll(c, got)| + |c.encode(tx)|
  {
    HeaderReadsBack(c, b, bytes, at);
    NextInMemory(c, b.txs, |got|, bytes, at + BLOCK_HEADER);
  }

  lemma ReadStarts<Tx>(c: Codec<Tx>, s: Shared<Tx>, k: int, n: nat)
    requires FileOk(c, s) && Fits(AllImages(c, s)) && Enabled(s, StartRead(k, n)) && n < |s.blocks|
    ensures var s' := Apply(c, s, StartRead(k, n)); ReadOk(c, s'.blocks, s'.offsets, s'.cursor, s'.holder, k, s'.readers[k])
  {
    FinishedBlocksAreThere(c, s, n);
    if |s.blocks[n].txs| < TWO_16 {
      CountOfBlock(c, s.bytes, s.offsets[n], s.blocks[n]);
    }
  }

  lemma ReadOkNext<Tx>(c: Codec<Tx>, blocks: seq<Block<Tx>>, offsets: seq<nat>, cursor: nat, k: int, r: Read<Tx>, tx: Tx)
    requires ReadOk(c, blocks, offsets, cursor, Reader(k), k, r) && |blocks[r.n].txs| < TWO_16 && |r.got| < r.count
    requires r.got + [tx] == blocks[r.n].txs[..|r.got| + 1]
    requires |EncodeAll(c, r.got + [tx])| == |EncodeAll(c, r.got)| + |c.encode(tx)|
    ensures ReadOk(c, blocks, offsets, cursor + |c.encode(tx)|, Reader(k), k, r.(got := r.got + [tx]))
  {
  }

  lemma GotNext<Tx>(c: Codec<Tx>, s: Shared<Tx>, k: int, tx: Tx, used: nat)
    requires Enabled(s, ReadNext(k)) && s.holder == Reader(k) && ReadOne(c, From(s.bytes, s.cursor)) == Got(tx, used)
    ensures var s', r := Apply(c, s, ReadNext(k)), s.readers[k];
            && s'.blocks == s.blocks && s'.offsets == s.offsets && s'.cursor == s.cursor + used && s'.holder == Reader(k)
            && s'.readers[k] == r.(got := r.got + [tx])
  {
  }

  /** In turn, what a good read finds next is the next transaction of its block. */
  lemma NextIsRight<Tx(!new)>(c: Codec<Tx>, s: Shared<Tx>, k: int)
    requires Lawful(c) && Enabled(s, ReadNext(k)) && s.holder == Reader(k)
    requires ReadOk(c, s.blocks, s.offsets, s.cursor, s.holder, k, s.readers[k]) && |s.blocks[s.readers[k].n].txs| < TWO_16
    requires HoldsBlock(c, s.blocks, s.offsets, s.bytes, s.readers[k].n)
    ensures var r, txs := s.readers[k], s.blocks[s.readers[k].n].txs;
            && |r.got| < |txs|
            && ReadOne(c, From(s.bytes, s.cursor)) == Got(txs[|r.got|], |c.encode(txs[|r.got|])|)
            && r.got + [txs[|r.got|]] == txs[..|r.got| + 1]
            && |EncodeAll(c, r.got + [txs[|r.got|]])| == |EncodeAll(c, r.got)| + |c.encode(txs[|r.got|])|
  {
    var r := s.readers[k];
    NextOfBlock(c, s.bytes, s.offsets[r.n], s.blocks[r.n], r.got);
  }

  lemma ReadAdvances<Tx(!new)>(c: Codec<Tx>, s: Shared<Tx>, k: int)
    requires Lawful(c) && Enabled(s, ReadNext(k)) && s.holder == Reader(k)
    requires ReadOk(c, s.blocks, s.offsets, s.cursor, s.holder, k, s.readers[k]) && |s.blocks[s.readers[k].n].txs| < TWO_16
    requires HoldsBlock(c, s.blocks, s.offsets, s.bytes, s.readers[k].n)
    ensures var s' := Apply(c, s, ReadNext(k)); ReadOk(c, s'.blocks, s'.offsets, s'.cursor, s'.holder, k, s'.readers[k])
  {
    var r := s.readers[k];
    NextIsRight(c, s, k);
    var tx := s.blocks[r.n].txs[|r.got|];
    GotNext(c, s, k, tx, |c.encode(tx)|);
    ReadOkNext(c, s.blocks, s.offsets, s.cursor, k, r, tx);
  }

  /** Blocks of more transactions than the count field holds: nothing is claimed. */
  lemma LargeReadAdvances<Tx>(c: Codec<Tx>, s: Shared<Tx>, k: int)
    requires Enabled(s, ReadNext(k)) && s.readers[k].n < |s.blocks| && TWO_16 <= |s.blocks[s.readers[k].n].txs|
    requires s.readers[k].n < |s.offsets|
    ensures var s' := Apply(c, s, ReadNext(k)); ReadOk(c, s'.blocks, s'.offsets, s'.cursor, s'.holder, k, s'.readers[k])
  {
  }

  /** Steps of other operations leave a good read as it is, only no longer in turn. */
  lemma ReadStays<Tx>(c: Codec<Tx>, s: Shared<Tx>, s': Shared<Tx>, k: int)
    requires k in s.readers && k in s'.readers && s'.readers[k] == s.readers[k]
    requires ReadOk(c, s.blocks, s.offsets, s.cursor, s.holder, k, s.readers[k])
    requires s.blocks <= s'.blocks && s'.holder != Reader(k)
    requires |s'.offsets| == |s.offsets| && s'.offsets[s.readers[k].n] == s.offsets[s.readers[k].n]
    ensures ReadOk(c, s'.blocks, s'.offsets, s'.cursor, s'.holder, k, s'.readers[k])
  {
  }

  // ---- Preservation --------------------------------------------------------------------------------

  /** Reads never disturb the file: memory, offsets and blocks stay as they were. */
  lemma ReadingLeavesFile<Tx>(c: Codec<Tx>, s: Shared<Tx>, step: Step<Tx>)
    requires Enabled(s, step) && (step.StartRead? || step.ReadNext?)
    ensures var s' := Apply(c, s, step);
            && s'.bytes == s.bytes && s'.offsets == s.offsets && s'.blocks == s.blocks && s'.append == s.append && s'.sound == s.sound
            && s'.holder == Reader(step.k)
            && forall k | k in s.readers && k != step.k :: k in s'.readers && s'.readers[k] == s.readers[k]
  {
  }

  lemma ReadingKeeps<Tx(!new)>(c: Codec<Tx>, s: Shared<Tx>, step: Step<Tx>)
    requires Lawful(c) && Inv(c, s) && Enabled(s, step) && (step.StartRead? || step.ReadNext?)
    ensures Inv(c, Apply(c, s, step))
  {
    var s' := Apply(c, s, step);
    ReadingLeavesFile(c, s, step);
    if s.sound && Fits(AllImages(c, s)) {
      forall k | k in s'.readers && s'.readers[k].good ensures ReadOk(c, s'.blocks, s'.offsets, s'.cursor, s'.holder, k, s'.readers[k]) {
        if k == step.k {
          OwnStepKeeps(c, s, step);
        } else {
          ReadStays(c, s, s', k);
        }
      }
    }
  }

  lemma OwnStepKeeps<Tx(!new)>(c: Codec<Tx>, s: Shared<Tx>, step: Step<Tx>)
    requires Lawful(c) && FileOk(c, s) && Fits(AllImages(c, s)) && ReadsOk(c, s)
    requires Enabled(s, step) && (step.StartRead? || step.ReadNext?) && Apply(c, s, step).readers[step.k].good
    ensures var s' := Apply(c, s, step); ReadOk(c, s'.blocks, s'.offsets, s'.cursor, s'.holder, step.k, s'.readers[step.k])
  {
    if step.StartRead? {
      ReadStarts(c, s, step.k, step.n);
    } else {
      StaysGood(c, s, step.k);
      NextKeeps(c, s, step.k);
    }
  }

  lemma StaysGood<Tx>(c: Codec<Tx>, s: Shared<Tx>, k: int)
    requires Enabled(s, ReadNext(k)) && Apply(c, s, ReadNext(k)).readers[k].good
    ensures s.readers[k].good && s.holder == Reader(k)
  {
  }

  lemma NextKeeps<Tx(!new)>(c: Codec<Tx>, s: Shared<Tx>, k: int)
    requires Lawful(c) && FileOk(c, s) && Fits(AllImages(c, s)) && Enabled(s, ReadNext(k)) && s.holder == Reader(k)
    requires ReadOk(c, s.blocks, s.offsets, s.cursor, s.holder, k, s.readers[k])
    ensures var s' := Apply(c, s, ReadNext(k)); ReadOk(c, s'.blocks, s'.offsets, s'.cursor, s'.holder, k, s'.readers[k])
  {
    if |s.blocks[s.readers[k].n].txs| < TWO_16 {
      FinishedBlocksAreThere(c, s, s.readers[k].n);
      ReadAdvances(c, s, k);
    } else {
      LargeReadAdvances(c, s, k);
    }
  }

  /** What an append's step changes for readers: nothing they have read, and not where their blocks are. */
  lemma AppendLeavesReads<Tx>(c: Codec<Tx>, s: Shared<Tx>, step: Step<Tx>)
    requires Enabled(s, step) && (step.StartAppend? || step.WriteNext? || step.FinishAppend?)
    ensures var s' := Apply(c, s, step);
            && s'.readers == s.readers && s.blocks <= s'.blocks && |s'.offsets| == |s.offsets|
            && (s'.sound ==> s'.holder == Appender)
            && (s'.sound ==> s.sound)
            && forall n | 0 <= n < |s.blocks| && n < |s.offsets| :: s'.offsets[n] == s.offsets[n]
    ensures Fits(AllImages(c, Apply(c, s, step))) ==> Fits(AllImages(c, s))
  {
    match step
    case StartAppend(b) =>
      if Fits(Images(c, s.blocks) + [BlockBytes(c, b)]) {
        PrefixFits(Images(c, s.blocks), BlockBytes(c, b));
      }
      assert AllImages(c, s) == Images(c, s.blocks);
    case WriteNext =>
    case FinishAppend =>
      ImagesAppend(c, s.blocks, s.append.value.block);
      assert AllImages(c, Apply(c, s, step)) == Images(c, s.blocks + [s.append.value.block]);
  }

  lemma AppendKeepsFile<Tx>(c: Codec<Tx>, s: Shared<Tx>, step: Step<Tx>)
    requires s.sound && FileOk(c, s) && Enabled(s, step) && (step.StartAppend? || step.WriteNext? || step.FinishAppend?)
    ensures Apply(c, s, step).sound ==> FileOk(c, Apply(c, s, step))
  {
    match step
    case StartAppend(b) => AppendStarts(c, s, b);
    case WriteNext => if s.holder == Appender { AppendWrites(c, s); }
    case FinishAppend => if s.holder == Appender { AppendFinishes(c, s); }
  }

  lemma AppendingKeeps<Tx>(c: Codec<Tx>, s: Shared<Tx>, step: Step<Tx>)
    requires Inv(c, s) && Enabled(s, step) && (step.StartAppend? || step.WriteNext? || step.FinishAppend?)
    ensures Inv(c, Apply(c, s, step))
  {
    var s' := Apply(c, s, step);
    AppendLeavesReads(c, s, step);
    if s'.sound {
      AppendKeepsFile(c, s, step);
      if Fits(AllImages(c, s')) {
        forall k | k in s'.readers && s'.readers[k].good ensures ReadOk(c, s'.blocks, s'.offsets, s'.cursor, s'.holder, k, s'.readers[k]) {
          ReadStays(c, s, s', k);
        }
      }
    }
  }

  lemma FirstIsOk<Tx>(c: Codec<Tx>, s: Shared<Tx>)
    requires Init(s)
    ensures Inv(c, s)
  {
    assert Images(c, s.blocks) == [];
  }

  lemma {:induction false} RunKeepsInv<Tx(!new)>(c: Codec<Tx>, r: Run<Tx>, i: nat)
    requires Lawful(c) && IsRun(c, r) && i < |r.states|
    ensures Inv(c, r.states[i])
  {
    if i == 0 {
      FirstIsOk(c, r.states[0]);
    } else {
      RunKeepsInv(c, r, i - 1);
      assert Takes(c, r, i - 1);
      var step := r.steps[i - 1];
      if step.StartRead? || step.ReadNext? {
        ReadingKeeps(c, r.states[i - 1], step);
      } else {
        AppendingKeeps(c, r.states[i - 1], step);
      }
    }
  }

  // ---- What the operations guarantee each other ------------------------------------------------------

  /**
   * A read whose own steps were all in turn returns its block, even if other reads were cut
   * in on and went wrong, as long as no append was cut in on.
   */
  lemma ReadsInTurnAreRight<Tx(!new)>(c: Codec<Tx>, r: Run<Tx>, i: nat, k: int)
    requires Lawful(c) && IsRun(c, r) && i < |r.states| && r.states[i].sound && Fits(AllImages(c, r.states[i]))
    requires k in r.states[i].readers && r.states[i].readers[k].good
    ensures var s, x := r.states[i], r.states[i].readers[k];
            && x.n < |s.blocks|
            && (|s.blocks[x.n].txs| < TWO_16 ==>
                  !x.failed && x.count == |s.blocks[x.n].txs| && (|x.got| == x.count ==> x.got == s.blocks[x.n].txs))
  {
    RunKeepsInv(c, r, i);
    var s, x := r.states[i], r.states[i].readers[k];
    assert ReadOk(c, s.blocks, s.offsets, s.cursor, s.holder, k, x);
    assert x.n < |s.blocks| && |x.got| == |s.blocks[x.n].txs| ==> s.blocks[x.n].txs[..|x.got|] == s.blocks[x.n].txs;
  }

  /** If no append was cut in on, every finished block is in place, at every state of every run. */
  lemma AppendsInTurnAreStored<Tx(!new)>(c: Codec<Tx>, r: Run<Tx>, i: nat, n: nat)
    requires Lawful(c) && IsRun(c, r) && i < |r.states| && r.states[i].sound && Fits(AllImages(c, r.states[i]))
    requires n < |r.states[i].blocks|
    ensures n < |r.states[i].offsets| && HoldsBlock(c, r.states[i].blocks, r.states[i].offsets, r.states[i].bytes, n)
  {
    RunKeepsInv(c, r, i);
    FinishedBlocksAreThere(c, r.states[i], n);
  }

  /** A good read stays within its block, so behind any append. */
  lemma {:induction false} ReadsStayBehind<Tx>(c: Codec<Tx>, s: Shared<Tx>, k: int)
    requires s.append.Some? && FileOk(c, s) && Fits(AllImages(c, s)) && |s.offsets| == BLOCKS_PER_EPOCH
    requires k in s.readers && s.holder == Reader(k) && ReadOk(c, s.blocks, s.offsets, s.cursor, s.holder, k, s.readers[k])
    requires |s.blocks[s.readers[k].n].txs| < TWO_16
    ensures s.cursor <= s.append.value.at
  {
    var a, r := s.append.value, s.readers[k];
    PrefixIsShorter(c, s.blocks[r.n].txs, |r.got|);
    PrefixFits(Images(c, s.blocks), BlockBytes(c, a.block));
    BlocksEndBefore(c, s.blocks, a.slots, a.base, a.at, r.n);
  }

  lemma {:induction false} BlocksEndBefore<Tx>(c: Codec<Tx>, blocks: seq<Block<Tx>>, slots: seq<nat>, base: seq<byte>, at: nat, n: nat)
    requires n < |blocks| < BLOCKS_PER_EPOCH && Intact(Images(c, blocks), slots, base) && at == Start(slots[|blocks|])
    requires Offset(Images(c, blocks), |blocks|) < TWO_32
    ensures slots[n] + BLOCK_HEADER + |EncodeAll(c, blocks[n].txs)| <= at
  {
    var images := Images(c, blocks);
    AppendedAtOffset(images, [], slots, base, at);
    RegionsAreDisjoint(images, n, |images|);
  }

  /**
   * The exact condition for an append's next step, when the cursor was last moved by the
   * append or by a good read: it acts at its own place if and only if the mover was the
   * append.  So the first read to cut in always displaces it.
   */
  lemma AppendIsInPlaceIff<Tx(!new)>(c: Codec<Tx>, r: Run<Tx>, i: nat)
    requires Lawful(c) && IsRun(c, r) && i < |r.states| && r.states[i].sound && Fits(AllImages(c, r.states[i]))
    requires r.states[i].append.Some?
    requires var s := r.states[i];
             s.holder == Appender || exists k | k in s.readers && s.readers[k].good && s.holder == Reader(k) ::
               s.readers[k].n < |s.blocks| && |s.blocks[s.readers[k].n].txs| < TWO_16
    ensures var s, a := r.states[i], r.states[i].append.value;
            && a.done <= |a.block.txs|
            && (s.cursor == a.at + |Written(c, a)| <==> s.holder == Appender)
  {
    RunKeepsInv(c, r, i);
    var s := r.states[i];
    if s.holder != Appender {
      var k :| k in s.readers && s.readers[k].good && s.holder == Reader(k);
      assert ReadOk(c, s.blocks, s.offsets, s.cursor, s.holder, k, s.readers[k]);
      ReadsStayBehind(c, s, k);
    }
  }

  // ---- What they do not ------------------------------------------------------------------------------

  lemma Extend<Tx>(c: Codec<Tx>, r: Run<Tx>, step: Step<Tx>, s': Shared<Tx>) returns (r': Run<Tx>)
    requires IsRun(c, r) && Enabled(r.states[|r.steps|], step) && s' == Apply(c, r.states[|r.steps|], step)
    ensures IsRun(c, r') && |r'.steps| == |r.steps| + 1 && r'.states[0] == r.states[0] && r'.states[|r'.steps|] == s'
  {
    r' := Run(r.states + [s'], r.steps + [step]);
    forall i | 0 <= i < |r'.steps| ensures Takes(c, r', i) {
      assert i < |r.steps| ==> Takes(c, r, i);
    }
  }

  /** Block 0 is [x]; its header and payload lie at the first offset, and block 1 goes a page further. */
  ghost predicate OneBlock<Tx>(c: Codec<Tx>, s: Shared<Tx>, millis: u64, x: Tx) {
    && |s.offsets| == BLOCKS_PER_EPOCH && s.offsets[0] == FIRST_OFFSET && s.offsets[1] == FIRST_OFFSET + 4096
    && s.blocks == [Block(millis, [x])] && s.readers == map[] && s.append.None?
    && HoldsAt(s.bytes, FIRST_OFFSET, BlockHeader(millis, 1))
  }

  lemma PokeKeeps(mem: seq<byte>, at: nat, data: seq<byte>, at2: nat, data2: seq<byte>)
    requires HoldsAt(mem, at2, data2) && at2 + |data2| <= at
    ensures HoldsAt(Poke(mem, at, data), at2, data2)
  {
    UntouchedKeeps(mem, Poke(mem, at, data), at, |data|, at2, data2);
  }

  lemma AppendFirst<Tx>(c: Codec<Tx>, s: Shared<Tx>, millis: u64, x: Tx) returns (r: Run<Tx>)
    requires Init(s) && 0 < |c.encode(x)| <= 4000
    ensures IsRun(c, r) && |r.steps| == 3 && r.states[0] == s && OneBlock(c, r.states[3], millis, x)
  {
    var b := Block(millis, [x]);
    var s1 := Apply(c, s, StartAppend(b));
    var s2 := Apply(c, s1, WriteNext);
    PokeKeeps(s1.bytes, s1.cursor, c.encode(x), FIRST_OFFSET, BlockHeader(millis, 1));
    var s3 := Apply(c, s2, FinishAppend);
    assert AlignUp(s2.cursor) == FIRST_OFFSET + 4096;
    r := Run([s, s1, s2, s3], [StartAppend(b), WriteNext, FinishAppend]);
  }

  /** A read cuts in on the second append, whose transaction then lands on the first block's. */
  lemma CutIn<Tx>(c: Codec<Tx>, s: Shared<Tx>, millis: u64, x: Tx, y: Tx) returns (s1: Shared<Tx>, s2: Shared<Tx>, s3: Shared<Tx>)
    requires OneBlock(c, s, millis, x)
    ensures Enabled(s, StartAppend(Block(millis, [y]))) && s1 == Apply(c, s, StartAppend(Block(millis, [y])))
    ensures Enabled(s1, StartRead(0, 0)) && s2 == Apply(c, s1, StartRead(0, 0))
    ensures Enabled(s2, WriteNext) && s3 == Apply(c, s2, WriteNext)
    ensures |s3.offsets| == BLOCKS_PER_EPOCH && s3.offsets[0] == FIRST_OFFSET && s3.blocks == s.blocks && s3.readers.Keys == {0}
    ensures HoldsAt(s3.bytes, FIRST_OFFSET, BlockHeader(millis, 1)) && HoldsAt(s3.bytes, FIRST_OFFSET + BLOCK_HEADER, c.encode(y))
  {
    var b := Block(millis, [y]);
    s1 := Apply(c, s, StartAppend(b));
    PokeKeeps(s.bytes, FIRST_OFFSET + 4096, BlockHeader(millis, 1), FIRST_OFFSET, BlockHeader(millis, 1));
    s2 := Apply(c, s1, StartRead(0, 0));
    s3 := Apply(c, s2, WriteNext);
    PokeKeeps(s2.bytes, FIRST_OFFSET + BLOCK_HEADER, c.encode(y), FIRST_OFFSET, BlockHeader(millis, 1));
  }

  lemma CountIsOne(bytes: seq<byte>, at: nat, millis: u64)
    requires HoldsAt(bytes, at, BlockHeader(millis, 1))
    ensures CountAt(bytes, at) == 1
  {
    var header := BlockHeader(millis, 1);
    CutHeader(ToBytes(millis, 8), ToBytes(1, 2), Zeros(54), []);
    assert header + [] == header;
    SubSlice(bytes, at, header, 8, 10);
    Widths();
    WordRoundTrip(1, 2);
  }

  /** A later read of block 0, in turn throughout, returns the other block's transaction. */
  lemma ReadAfter<Tx(!new)>(c: Codec<Tx>, s: Shared<Tx>, millis: u64, y: Tx) returns (s1: Shared<Tx>, s2: Shared<Tx>)
    requires Lawful(c) && |s.offsets| == BLOCKS_PER_EPOCH && s.offsets[0] == FIRST_OFFSET && |s.blocks| == 1 && s.readers.Keys == {0}
    requires HoldsAt(s.bytes, FIRST_OFFSET, BlockHeader(millis, 1)) && HoldsAt(s.bytes, FIRST_OFFSET + BLOCK_HEADER, c.encode(y))
    ensures Enabled(s, StartRead(1, 0)) && s1 == Apply(c, s, StartRead(1, 0))
    ensures Enabled(s1, ReadNext(1)) && s2 == Apply(c, s1, ReadNext(1))
    ensures s2.blocks == s.blocks && 1 in s2.readers && s2.readers[1] == Read(0, 1, [y], false, true)
  {
    CountIsOne(s.bytes, FIRST_OFFSET, millis);
    s1 := Apply(c, s, StartRead(1, 0));
    var payload := FIRST_OFFSET + BLOCK_HEADER;
    assert s.bytes[payload..] == c.encode(y) + s.bytes[payload + |c.encode(y)|..];
    assert ReadsBack(c, y, s.bytes[payload + |c.encode(y)|..]);
    s2 := Apply(c, s1, ReadNext(1));
  }

  /**
   * Cutting in on an append damages the journal: a read between the append's seek and its
   * first write leaves block 0, accepted as [x], reading back as [y] from then on.
   */
  lemma CutInAppendOverwrites<Tx(!new)>(c: Codec<Tx>, s: Shared<Tx>, millis: u64, x: Tx, y: Tx) returns (r: Run<Tx>)
    requires Lawful(c) && Init(s) && 0 < |c.encode(x)| <= 4000
    ensures IsRun(c, r) && r.states[0] == s && |r.states| == 9 && r.states[8].blocks == [Block(millis, [x])]
    ensures 1 in r.states[8].readers && r.states[8].readers[1] == Read(0, 1, [y], false, true)
  {
    var first := AppendFirst(c, s, millis, x);
    var s4, s5, s6 := CutIn(c, first.states[3], millis, x, y);
    var s7, s8 := ReadAfter(c, s6, millis, y);
    r := Extend(c, first, StartAppend(Block(millis, [y])), s4);
    r := Extend(c, r, StartRead(0, 0), s5);
    r := Extend(c, r, WriteNext, s6);
    r := Extend(c, r, StartRead(1, 0), s7);
    r := Extend(c, r, ReadNext(1), s8);
  }
}
