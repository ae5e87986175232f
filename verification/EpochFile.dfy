/**
 * One epoch file: a table of 32-bit block offsets and, behind it, up to 65536
 * page-aligned blocks.  The file is the memory it is mapped to; positions never
 * written read as zero.
 */
module EpochFile {
  import opened Words
  import opened Codec

  const BLOCKS_PER_EPOCH := 65536
  const BLOCK_ALIGNMENT := 4096
  const FIRST_OFFSET := 266240
  const BLOCK_HEADER := 64

  // ---- Memory --------------------------------------------------------------------

  function Zeros(n: nat): (r: seq<byte>)
    ensures |r| == n && forall i | 0 <= i < n :: r[i] == 0
  {
    seq(n, _ => 0)
  }

  /** Memory after storing `data` at `at`; the mapping is as large as it needs to be. */
  function Poke(mem: seq<byte>, at: nat, data: seq<byte>): (r: seq<byte>)
    ensures |r| == Max(|mem|, at + |data|)
    ensures r[at..at + |data|] == data
    ensures forall i | 0 <= i < |mem| && (i < at || at + |data| <= i) :: r[i] == mem[i]
  {
    var m := if |mem| < at + |data| then mem + Zeros(at + |data| - |mem|) else mem;
    m[..at] + data + m[at + |data|..]
  }

  predicate HoldsAt(mem: seq<byte>, at: nat, data: seq<byte>) {
    at + |data| <= |mem| && mem[at..at + |data|] == data
  }

  /** Nothing outside [at, at + length) changed. */
  ghost predicate Untouched(mem: seq<byte>, mem': seq<byte>, at: nat, length: nat) {
    |mem| <= |mem'| && forall i | 0 <= i < |mem| && (i < at || at + length <= i) :: mem'[i] == mem[i]
  }

  /** Memory holds `data` at `at` and is otherwise as it was. */
  ghost predicate Wrote(mem: seq<byte>, mem': seq<byte>, at: nat, data: seq<byte>) {
    HoldsAt(mem', at, data) && Untouched(mem, mem', at, |data|)
  }

  /** Two adjacent stores are one store. */
  lemma WritesJoin(mem: seq<byte>, mem': seq<byte>, at: nat, x: seq<byte>, y: seq<byte>)
    requires Wrote(mem, mem', at, x)
    ensures Wrote(mem, Poke(mem', at + |x|, y), at, x + y)
  {
    var m := Poke(mem', at + |x|, y);
    forall i | 0 <= i < |x + y| ensures m[at + i] == (x + y)[i] {
      if i < |x| {
        assert mem'[at..at + |x|][i] == x[i];
      } else {
        assert m[at + |x|..at + |x| + |y|][i - |x|] == y[i - |x|];
      }
    }
    assert m[at..at + |x + y|] == x + y;
  }

  lemma UntouchedKeeps(mem: seq<byte>, mem': seq<byte>, at: nat, length: nat, at2: nat, data2: seq<byte>)
    requires Untouched(mem, mem', at, length)
    requires HoldsAt(mem, at2, data2) && (at2 + |data2| <= at || at + length <= at2)
    ensures HoldsAt(mem', at2, data2)
  {
    assert mem'[at2..at2 + |data2|] == mem[at2..at2 + |data2|];
  }

  // ---- Layout ------------------------------------------------------------------------

  datatype Block<Tx> = Block(millis: u64, txs: seq<Tx>)

  /** Round up to the next page, as `(x + 4095) & ~4095`. */
  function AlignUp(x: nat): (r: nat)
    ensures r % BLOCK_ALIGNMENT == 0 && x <= r < x + BLOCK_ALIGNMENT
  {
    (x + BLOCK_ALIGNMENT - 1) / BLOCK_ALIGNMENT * BLOCK_ALIGNMENT
  }

  lemma AlignUpShifts(base: nat, x: nat)
    requires base % BLOCK_ALIGNMENT == 0
    ensures AlignUp(base + x) == base + AlignUp(x)
  {
    assert base == base / BLOCK_ALIGNMENT * BLOCK_ALIGNMENT;
    assert (base + x + BLOCK_ALIGNMENT - 1) / BLOCK_ALIGNMENT == base / BLOCK_ALIGNMENT + (x + BLOCK_ALIGNMENT - 1) / BLOCK_ALIGNMENT;
  }

  function BlockHeader(millis: u64, count: int): (r: seq<byte>)
    ensures |r| == BLOCK_HEADER
  {
    ToBytes(millis, 8) + ToBytes(count % TWO_16, 2) + Zeros(54)
  }

  function BlockBytes<Tx>(c: Codec<Tx>, b: Block<Tx>): (r: seq<byte>)
    ensures |r| >= BLOCK_HEADER
  {
    BlockHeader(b.millis, |b.txs|) + EncodeAll(c, b.txs)
  }

  /** Where the i-th block of an epoch starts when nothing is truncated; blocks are given by their bytes. */
  ghost function Offset(blocks: seq<seq<byte>>, i: nat): nat
    requires i <= |blocks|
  {
    if i == 0 then FIRST_OFFSET else Offset(blocks, i - 1) + AlignUp(|blocks[i - 1]|)
  }

  lemma {:induction false} OffsetsAreAligned(blocks: seq<seq<byte>>, i: nat)
    requires i <= |blocks|
    ensures Offset(blocks, i) % 4096 == 0 && 266240 <= Offset(blocks, i) && (i == 0 ==> Offset(blocks, i) == 266240)
  {
    if i > 0 {
      OffsetsAreAligned(blocks, i - 1);
      var prev, size := Offset(blocks, i - 1), AlignUp(|blocks[i - 1]|);
      assert (prev + size) % BLOCK_ALIGNMENT == 0;
    }
  }

  /** Blocks start at increasing offsets and end before the next begins, so their regions are disjoint. */
  lemma {:induction false} RegionsAreDisjoint(blocks: seq<seq<byte>>, i: nat, j: nat)
    requires i < j <= |blocks|
    ensures 262160 <= Offset(blocks, i)
    ensures Offset(blocks, i) + |blocks[i]| <= Offset(blocks, j)
    ensures j == i + 1 ==> Offset(blocks, j) < Offset(blocks, i) + |blocks[i]| + 4096
    decreases j
  {
    OffsetsAreAligned(blocks, i);
    if i + 1 < j {
      RegionsAreDisjoint(blocks, i, j - 1);
    }
  }

  lemma {:induction false} OffsetsIgnoreLater(blocks: seq<seq<byte>>, b: seq<byte>, i: nat)
    requires i <= |blocks|
    ensures Offset(blocks + [b], i) == Offset(blocks, i)
  {
    if i > 0 {
      OffsetsIgnoreLater(blocks, b, i - 1);
      assert (blocks + [b])[i - 1] == blocks[i - 1];
    }
  }

  /** Storing an offset in 32 bits. */
  function Truncated(x: nat): (r: nat)
    ensures r == x <==> x < TWO_32
  {
    x % 0x1_0000_0000
  }

  /** Every block written so far starts below 4 GiB, so its 32-bit offset is exact. */
  ghost predicate Fits(blocks: seq<seq<byte>>) {
    blocks == [] || Offset(blocks, |blocks| - 1) < TWO_32
  }

  /** Blocks of at most 61440 bytes, header included, never wrap an epoch. */
  lemma SmallBlocksFit(blocks: seq<seq<byte>>)
    requires |blocks| <= BLOCKS_PER_EPOCH
    requires forall i | 0 <= i < |blocks| :: |blocks[i]| <= 61440
    ensures Fits(blocks)
  {
    if blocks != [] {
      OffsetBound(blocks, |blocks| - 1);
    }
  }

  lemma {:induction false} OffsetBound(blocks: seq<seq<byte>>, i: nat)
    requires i <= |blocks|
    requires forall k | 0 <= k < i :: |blocks[k]| <= 61440
    ensures Offset(blocks, i) <= FIRST_OFFSET + 61440 * i
  {
    if i > 0 {
      OffsetBound(blocks, i - 1);
    }
  }

  /** Everything below the next offset lies before the first one or in some block's span. */
  lemma {:induction false} SpansCover(blocks: seq<seq<byte>>, n: nat, at: nat) returns (i: nat)
    requires n <= |blocks| && at < Offset(blocks, n)
    ensures at < FIRST_OFFSET || (i < n && Offset(blocks, i) <= at < Offset(blocks, i + 1))
  {
    if n == 0 || at >= Offset(blocks, n - 1) {
      i := if n == 0 then 0 else n - 1;
    } else {
      i := SpansCover(blocks, n - 1, at);
    }
  }

  /** A page start within a block's span lies within the block itself, not in its padding. */
  lemma PageStartsHitBlocks(base: nat, length: nat, at: nat)
    requires base % BLOCK_ALIGNMENT == 0 && at % BLOCK_ALIGNMENT == 0 && base <= at < base + AlignUp(length)
    ensures at < base + length
  {
    assert (at - base) % BLOCK_ALIGNMENT == 0;
    assert (at - base) / BLOCK_ALIGNMENT < AlignUp(length) / BLOCK_ALIGNMENT;
  }

  /** An offset that does not fit 32 bits is cut to one inside the header or inside an earlier block. */
  lemma TruncatedOffsetsCollide(blocks: seq<seq<byte>>, n: nat) returns (i: nat)
    requires n <= |blocks| && TWO_32 <= Offset(blocks, n)
    ensures var at := Truncated(Offset(blocks, n));
            at < 262160 || (i < n && Offset(blocks, i) <= at < Offset(blocks, i) + |blocks[i]|)
  {
    var at := Truncated(Offset(blocks, n));
    OffsetsAreAligned(blocks, n);
    assert at % BLOCK_ALIGNMENT == 0;
    i := SpansCover(blocks, n, at);
    if at >= FIRST_OFFSET {
      OffsetsAreAligned(blocks, i);
      PageStartsHitBlocks(Offset(blocks, i), |blocks[i]|, at);
    }
  }

  /** An offset slot that holds zero counts as never recorded. */
  function Start(slot: int): int { if slot == 0 then FIRST_OFFSET else slot }

  /** Where the file really puts the i-th block of an epoch: every offset passes through 32 bits. */
  ghost function Recorded(blocks: seq<seq<byte>>, i: nat): nat
    requires i <= |blocks|
  {
    if i == 0 then FIRST_OFFSET else Start(Truncated(AlignUp(Recorded(blocks, i - 1) + |blocks[i - 1]|)))
  }

  lemma {:induction false} RecordedIgnoresLater(blocks: seq<seq<byte>>, b: seq<byte>, i: nat)
    requires i <= |blocks|
    ensures Recorded(blocks + [b], i) == Recorded(blocks, i)
  {
    if i > 0 {
      RecordedIgnoresLater(blocks, b, i - 1);
      assert (blocks + [b])[i - 1] == blocks[i - 1];
    }
  }

  /** Up to and including the first offset that does not fit, only the last one is cut. */
  lemma {:induction false} RecordedIsOffset(blocks: seq<seq<byte>>, i: nat)
    requires i <= |blocks| && (i == 0 || Offset(blocks, i - 1) < TWO_32)
    ensures Recorded(blocks, i) == Start(Truncated(Offset(blocks, i)))
  {
    if i > 0 {
      if i > 1 {
        RegionsAreDisjoint(blocks, i - 2, i - 1);
      }
      RecordedIsOffset(blocks, i - 1);
      OffsetsAreAligned(blocks, i - 1);
      NextRecorded(blocks, i);
    }
  }

  lemma NextRecorded(blocks: seq<seq<byte>>, i: nat)
    requires 0 < i <= |blocks| && Recorded(blocks, i - 1) == Offset(blocks, i - 1)
    ensures Recorded(blocks, i) == Start(Truncated(Offset(blocks, i)))
  {
    OffsetsAreAligned(blocks, i - 1);
    AlignUpShifts(Offset(blocks, i - 1), |blocks[i - 1]|);
  }

  /** The regions the blocks were really written to lie behind the header and do not overlap. */
  ghost predicate SafeLayout(blocks: seq<seq<byte>>) {
    && (forall i | 0 <= i < |blocks| :: 262160 <= Recorded(blocks, i))
    && (forall i, j | 0 <= i < j < |blocks| :: Clear(Recorded(blocks, i), |blocks[i]|, Recorded(blocks, j), |blocks[j]|))
  }

  predicate Clear(at: nat, length: nat, at2: nat, length2: nat) { at + length <= at2 || at2 + length2 <= at }

  lemma {:induction false} FirstOverflow(blocks: seq<seq<byte>>, n: nat) returns (k: nat)
    requires n <= |blocks| && TWO_32 <= Offset(blocks, n)
    ensures 0 < k <= n && Offset(blocks, k - 1) < TWO_32 <= Offset(blocks, k)
  {
    if Offset(blocks, n - 1) < TWO_32 {
      k := n;
    } else {
      k := FirstOverflow(blocks, n - 1);
    }
  }

  lemma FittingLayoutIsSafe(blocks: seq<seq<byte>>)
    requires Fits(blocks)
    ensures SafeLayout(blocks)
  {
    forall i | 0 <= i < |blocks| ensures Recorded(blocks, i) == Offset(blocks, i) && 262160 <= Offset(blocks, i) {
      if i + 1 < |blocks| {
        RegionsAreDisjoint(blocks, i, |blocks| - 1);
      }
      if i > 0 {
        RegionsAreDisjoint(blocks, i - 1, i);
      }
      OffsetsAreAligned(blocks, i);
      RecordedIsOffset(blocks, i);
    }
    forall i, j | 0 <= i < j < |blocks| ensures Clear(Recorded(blocks, i), |blocks[i]|, Recorded(blocks, j), |blocks[j]|) {
      RegionsAreDisjoint(blocks, i, j);
    }
  }

  lemma OverflowingLayoutIsNot(blocks: seq<seq<byte>>)
    requires !Fits(blocks) && forall i | 0 <= i < |blocks| :: blocks[i] != []
    ensures !SafeLayout(blocks)
  {
    var k := FirstOverflow(blocks, |blocks| - 1);
    RecordedIsOffset(blocks, k);
    var i := TruncatedOffsetsCollide(blocks, k);
    var at := Recorded(blocks, k);
    if Truncated(Offset(blocks, k)) == 0 {
      assert !Clear(Recorded(blocks, 0), |blocks[0]|, at, |blocks[k]|);
    } else if 262160 <= at {
      if i + 1 < k {
        RegionsAreDisjoint(blocks, i, k - 1);
      }
      if i > 0 {
        RegionsAreDisjoint(blocks, i - 1, i);
      }
      RecordedIsOffset(blocks, i);
      assert !Clear(Recorded(blocks, i), |blocks[i]|, at, |blocks[k]|);
    }
  }

  /** The exact condition: blocks keep clear of the header and of each other if and only if no offset passes 4 GiB. */
  lemma LayoutIsSafeIff(blocks: seq<seq<byte>>)
    requires forall i | 0 <= i < |blocks| :: blocks[i] != []
    ensures SafeLayout(blocks) <==> Fits(blocks)
  {
    if Fits(blocks) {
      FittingLayoutIsSafe(blocks);
    } else {
      OverflowingLayoutIsNot(blocks);
    }
  }

  /** Blocks of more than 61440 bytes take at least 16 pages each. */
  lemma {:induction false} LargeBlocksGrow(blocks: seq<seq<byte>>, i: nat)
    requires i <= |blocks| && forall k | 0 <= k < |blocks| :: 61440 < |blocks[k]|
    ensures FIRST_OFFSET + 65536 * i <= Offset(blocks, i)
  {
    if i > 0 {
      LargeBlocksGrow(blocks, i - 1);
      assert 65536 <= AlignUp(|blocks[i - 1]|);
    }
  }

  /** A full epoch of blocks of more than 61440 bytes does not fit, so it overwrites its own header or blocks. */
  lemma LargeBlocksOverflow(blocks: seq<seq<byte>>)
    requires |blocks| == BLOCKS_PER_EPOCH && forall k | 0 <= k < |blocks| :: 61440 < |blocks[k]|
    ensures !Fits(blocks) && !SafeLayout(blocks)
  {
    LargeBlocksGrow(blocks, BLOCKS_PER_EPOCH - 1);
    LayoutIsSafeIff(blocks);
  }

  // ---- Contents -------------------------------------------------------------------

  /** The offset table holds what was recorded for each block, and for the next one. */
  ghost predicate Placed(blocks: seq<seq<byte>>, offsets: seq<int>) {
    && |blocks| <= BLOCKS_PER_EPOCH && |offsets| == BLOCKS_PER_EPOCH
    && (forall i | 0 <= i < |blocks| :: offsets[i] == Recorded(blocks, i))
    && (|blocks| < BLOCKS_PER_EPOCH ==> Start(offsets[|blocks|]) == Recorded(blocks, |blocks|))
  }

  lemma RecordedNext(blocks: seq<seq<byte>>, b: seq<byte>, at: nat)
    requires at == Recorded(blocks, |blocks|)
    ensures Recorded(blocks + [b], |blocks| + 1) == Start(Truncated(AlignUp(at + |b|)))
  {
    RecordedIgnoresLater(blocks, b, |blocks|);
    assert (blocks + [b])[|blocks|] == b;
  }

  lemma AppendPlaces(blocks: seq<seq<byte>>, b: seq<byte>, offsets: seq<int>, offsets': seq<int>, at: nat, next: int)
    requires Placed(blocks, offsets) && |blocks| < BLOCKS_PER_EPOCH && |offsets'| == BLOCKS_PER_EPOCH
    requires at == Start(offsets[|blocks|]) && offsets'[|blocks|] == at
    requires forall i | 0 <= i < |blocks| :: offsets'[i] == offsets[i]
    requires next == Start(Truncated(AlignUp(at + |b|)))
    requires |blocks| + 1 < BLOCKS_PER_EPOCH ==> Start(offsets'[|blocks| + 1]) == next
    ensures Placed(blocks + [b], offsets')
  {
    RecordedNext(blocks, b, at);
    forall i | 0 <= i < |blocks| + 1 ensures offsets'[i] == Recorded(blocks + [b], i) {
      RecordedIgnoresLater(blocks, b, i);
    }
  }

  ghost predicate Intact(blocks: seq<seq<byte>>, offsets: seq<int>, bytes: seq<byte>) {
    && |blocks| <= BLOCKS_PER_EPOCH && |offsets| == BLOCKS_PER_EPOCH
    && (forall i | 0 <= i < |blocks| :: offsets[i] == Offset(blocks, i) && HoldsAt(bytes, offsets[i], blocks[i]))
    && (|blocks| < BLOCKS_PER_EPOCH ==> offsets[|blocks|] == Truncated(Offset(blocks, |blocks|)))
  }

  lemma EarlierBlocksStay(blocks: seq<seq<byte>>, offsets: seq<int>, bytes: seq<byte>, b: seq<byte>, bytes': seq<byte>, i: nat)
    requires Intact(blocks, offsets, bytes) && i < |blocks|
    requires Untouched(bytes, bytes', Offset(blocks, |blocks|), |b|)
    ensures offsets[i] == Offset(blocks + [b], i)
    ensures HoldsAt(bytes', offsets[i], blocks[i])
  {
    OffsetsIgnoreLater(blocks, b, i);
    RegionsAreDisjoint(blocks, i, |blocks|);
    UntouchedKeeps(bytes, bytes', Offset(blocks, |blocks|), |b|, offsets[i], blocks[i]);
  }

  /** The offset recorded for the following block. */
  lemma {:induction false} NextOffset(blocks: seq<seq<byte>>, b: seq<byte>)
    ensures AlignUp(Offset(blocks, |blocks|) + |b|) == Offset(blocks + [b], |blocks| + 1)
    ensures Offset(blocks + [b], |blocks|) == Offset(blocks, |blocks|)
  {
    OffsetsAreAligned(blocks, |blocks|);
    AlignUpShifts(Offset(blocks, |blocks|), |b|);
    OffsetsIgnoreLater(blocks, b, |blocks|);
    assert (blocks + [b])[|blocks|] == b;
  }

  /** Appending to an intact epoch keeps every earlier block and adds the new one, unless its offset was truncated. */
  lemma AppendKeepsIntact(blocks: seq<seq<byte>>, offsets: seq<int>, bytes: seq<byte>, b: seq<byte>, offsets': seq<int>, bytes': seq<byte>)
    requires Intact(blocks, offsets, bytes) && |blocks| < BLOCKS_PER_EPOCH
    requires Offset(blocks, |blocks|) < TWO_32
    requires Wrote(bytes, bytes', Offset(blocks, |blocks|), b)
    requires |offsets'| == BLOCKS_PER_EPOCH && forall i | 0 <= i <= |blocks| :: offsets'[i] == offsets[i]
    requires |blocks| + 1 < BLOCKS_PER_EPOCH ==> offsets'[|blocks| + 1] == Truncated(Offset(blocks + [b], |blocks| + 1))
    ensures Intact(blocks + [b], offsets', bytes')
  {
    var n, all := |blocks|, blocks + [b];
    OffsetsIgnoreLater(blocks, b, n);
    assert offsets'[n] == offsets[n] == Offset(blocks, n) == Offset(all, n);
    assert |all| == n + 1 && all[n] == b;
    forall i | 0 <= i < n + 1 ensures offsets'[i] == Offset(all, i) && HoldsAt(bytes', offsets'[i], all[i]) {
      if i < n {
        EarlierBlocksStay(blocks, offsets, bytes, b, bytes', i);
      }
    }
  }

  // ---- The file object ----------------------------------------------------------------

  ghost function Images<Tx>(c: Codec<Tx>, blocks: seq<Block<Tx>>): (r: seq<seq<byte>>)
    ensures |r| == |blocks| && forall i | 0 <= i < |blocks| :: r[i] == BlockBytes(c, blocks[i])
  {
    seq(|blocks|, i requires 0 <= i < |blocks| => BlockBytes(c, blocks[i]))
  }

  lemma ImagesAppend<Tx>(c: Codec<Tx>, blocks: seq<Block<Tx>>, b: Block<Tx>)
    ensures Images(c, blocks + [b]) == Images(c, blocks) + [BlockBytes(c, b)]
  {
  }

  lemma PrefixFits(images: seq<seq<byte>>, b: seq<byte>)
    requires Fits(images + [b])
    ensures Fits(images) && Offset(images, |images|) < TWO_32
  {
    OffsetsIgnoreLater(images, b, |images|);
    if images != [] {
      RegionsAreDisjoint(images, |images| - 1, |images|);
    }
  }

  /** The header in memory gives the number of transactions and the payload follows it. */
  lemma HeaderReadsBack<Tx>(c: Codec<Tx>, b: Block<Tx>, mem: seq<byte>, at: nat)
    requires HoldsAt(mem, at, BlockBytes(c, b)) && |b.txs| < TWO_16
    ensures at + BLOCK_HEADER <= |mem| && FromBytes(mem[at + 8..at + 10]) == |b.txs|
    ensures FromBytes(mem[at..at + 8]) == b.millis
    ensures HoldsAt(mem, at + BLOCK_HEADER, EncodeAll(c, b.txs))
  {
    var data := BlockBytes(c, b);
    Widths();
    WordRoundTrip(|b.txs|, 2);
    WordRoundTrip(b.millis, 8);
    SubSlice(mem, at, data, 0, 8);
    CutHeader(ToBytes(b.millis, 8), ToBytes(|b.txs|, 2), Zeros(54), EncodeAll(c, b.txs));
    SubSlice(mem, at, data, 8, 10);
    SubSlice(mem, at, data, BLOCK_HEADER, |data|);
  }

  lemma CutHeader(millis: seq<byte>, count: seq<byte>, reserved: seq<byte>, payload: seq<byte>)
    requires |millis| == 8 && |count| == 2 && |reserved| == 54
    ensures var data := millis + count + reserved + payload;
            |data| >= BLOCK_HEADER && data[0..8] == millis && data[8..10] == count && data[BLOCK_HEADER..|data|] == payload
  {
  }

  /** Where a stored block is found. */
  lemma StoredBlock<Tx>(c: Codec<Tx>, blocks: seq<Block<Tx>>, offsets: seq<nat>, bytes: seq<byte>, i: nat)
    requires i < |blocks| && Intact(Images(c, blocks), offsets, bytes)
    ensures 0 < offsets[i] && HoldsAt(bytes, offsets[i], BlockBytes(c, blocks[i]))
  {
    OffsetsAreAligned(Images(c, blocks), i);
  }

  lemma SubSlice(mem: seq<byte>, at: nat, data: seq<byte>, i: nat, j: nat)
    requires HoldsAt(mem, at, data) && i <= j <= |data|
    ensures mem[at + i..at + j] == data[i..j]
  {
    forall k | i <= k < j ensures mem[at + k] == data[k] {
      assert mem[at..at + |data|][k] == data[k];
    }
  }

  /** The next transaction to read from memory that holds a run of them. */
  lemma NextInMemory<Tx(!new)>(c: Codec<Tx>, txs: seq<Tx>, i: nat, mem: seq<byte>, start: nat)
    requires Lawful(c) && i < |txs| && HoldsAt(mem, start, EncodeAll(c, txs))
    ensures start + |EncodeAll(c, txs[..i])| + |c.encode(txs[i])| <= |mem|
    ensures ReadOne(c, mem[start + |EncodeAll(c, txs[..i])|..]) == Got(txs[i], |c.encode(txs[i])|)
    ensures |EncodeAll(c, txs[..i + 1])| == |EncodeAll(c, txs[..i])| + |c.encode(txs[i])|
    ensures txs[..i + 1] == txs[..i] + [txs[i]]
  {
    var all := EncodeAll(c, txs);
    var rest := mem[start + |all|..];
    var n := |EncodeAll(c, txs[..i])|;
    RunAt(c, txs, i, rest);
    PrefixIsShorter(c, txs, i + 1);
    assert mem[start..] == all + rest;
    assert mem[start + n..] == mem[start..][n..];
  }

  lemma {:induction false} PrefixIsShorter<Tx>(c: Codec<Tx>, txs: seq<Tx>, i: nat)
    requires i <= |txs|
    ensures |EncodeAll(c, txs[..i])| <= |EncodeAll(c, txs)|
  {
    if i > 0 {
      PrefixIsShorter(c, txs[1..], i - 1);
      assert txs[..i][1..] == txs[1..][..i - 1];
    }
  }

  lemma WriteOneMore<Tx>(c: Codec<Tx>, mem: seq<byte>, mem': seq<byte>, at: nat, header: seq<byte>, txs: seq<Tx>, i: nat)
    requires i < |txs| && Wrote(mem, mem', at, header + EncodeAll(c, txs[..i]))
    ensures Wrote(mem, Poke(mem', at + |header + EncodeAll(c, txs[..i])|, c.encode(txs[i])), at, header + EncodeAll(c, txs[..i + 1]))
    ensures |header + EncodeAll(c, txs[..i + 1])| == |header + EncodeAll(c, txs[..i])| + |c.encode(txs[i])|
  {
    assert txs[..i + 1] == txs[..i] + [txs[i]];
    EncodeAppend(c, txs[..i], txs[i]);
    WritesJoin(mem, mem', at, header + EncodeAll(c, txs[..i]), c.encode(txs[i]));
    assert header + EncodeAll(c, txs[..i + 1]) == header + EncodeAll(c, txs[..i]) + c.encode(txs[i]);
  }

  /** While offsets fit, the slot of the next block holds its offset. */
  lemma SlotIsOffset(images: seq<seq<byte>>, offsets: seq<int>, bytes: seq<byte>)
    requires |images| < BLOCKS_PER_EPOCH && Intact(images, offsets, bytes) && Offset(images, |images|) < TWO_32
    ensures offsets[|images|] == Offset(images, |images|) > 0
  {
    OffsetsAreAligned(images, |images|);
  }

  /** While offsets fit, a block goes to its untruncated offset, and the next one is computed from it. */
  lemma {:induction false} AppendedAtOffset(images: seq<seq<byte>>, data: seq<byte>, offsets: seq<int>, bytes: seq<byte>, at: nat)
    requires |images| < BLOCKS_PER_EPOCH && Intact(images, offsets, bytes) && Offset(images, |images|) < TWO_32
    requires at == Start(offsets[|images|])
    ensures at == offsets[|images|] == Offset(images, |images|)
    ensures AlignUp(at + |data|) == Offset(images + [data], |images| + 1)
  {
    SlotIsOffset(images, offsets, bytes);
    NextOffset(images, data);
  }

  /** What appending does to the contents, seen from before and after. */
  lemma AppendStores(images: seq<seq<byte>>, data: seq<byte>, offsets: seq<int>, bytes: seq<byte>,
                     offsets': seq<int>, bytes': seq<byte>, at: nat, next: nat)
    requires |images| < BLOCKS_PER_EPOCH && |offsets| == |offsets'| == BLOCKS_PER_EPOCH
    requires Fits(images + [data]) && Intact(images, offsets, bytes)
    requires at == Offset(images, |images|) < TWO_32 && next == Offset(images + [data], |images| + 1)
    requires Wrote(bytes, bytes', at, data)
    requires forall i | 0 <= i < |images| :: offsets'[i] == offsets[i]
    requires offsets'[|images|] == at && offsets[|images|] == at
    requires |images| + 1 < BLOCKS_PER_EPOCH ==> offsets'[|images| + 1] == Truncated(next)
    ensures Intact(images + [data], offsets', bytes')
  {
    AppendKeepsIntact(images, offsets, bytes, data, offsets', bytes');
  }

  /** The offset table and the contents together. */
  lemma AppendOne(images: seq<seq<byte>>, data: seq<byte>, offsets: seq<int>, bytes: seq<byte>,
                  offsets': seq<int>, bytes': seq<byte>, at: nat)
    requires |images| < BLOCKS_PER_EPOCH && |offsets| == |offsets'| == BLOCKS_PER_EPOCH
    requires Placed(images, offsets) && (Fits(images) ==> Intact(images, offsets, bytes))
    requires at == Start(offsets[|images|]) && Wrote(bytes, bytes', at, data)
    requires forall i | 0 <= i < |images| :: offsets'[i] == offsets[i]
    requires offsets'[|images|] == at
    requires |images| + 1 < BLOCKS_PER_EPOCH ==> offsets'[|images| + 1] == Truncated(AlignUp(at + |data|))
    ensures Placed(images + [data], offsets')
    ensures Fits(images + [data]) ==> Intact(images + [data], offsets', bytes')
  {
    AppendPlaces(images, data, offsets, offsets', at, Start(Truncated(AlignUp(at + |data|))));
    if Fits(images + [data]) {
      PrefixFits(images, data);
      AppendedAtOffset(images, data, offsets, bytes, at);
      AppendStores(images, data, offsets, bytes, offsets', bytes', at, AlignUp(at + |data|));
    }
  }

  lemma NextSlot(blockNumber: nat)
    ensures (blockNumber + 1) % BLOCKS_PER_EPOCH ==
            if blockNumber % BLOCKS_PER_EPOCH + 1 < BLOCKS_PER_EPOCH then blockNumber % BLOCKS_PER_EPOCH + 1 else 0
  {
  }

  datatype ReadResult<Tx> = ReadOk(txs: seq<Tx>) | ReadFailed

  class EpochFile<Tx(!new)> {
    const codec: Codec<Tx>
    var offsets: seq<nat>
    var bytes: seq<byte>
    var cursor: nat

    /** The file put `blocks` at their recorded offsets, and stores them provided all offsets fit 32 bits. */
    ghost predicate Stores(blocks: seq<Block<Tx>>)
      reads this
    {
      && Placed(Images(codec, blocks), offsets)
      && (Fits(Images(codec, blocks)) ==> Intact(Images(codec, blocks), offsets, bytes))
    }

    constructor (codec: Codec<Tx>)
      ensures this.codec == codec && Stores([])
    {
      this.codec := codec;
      offsets := [FIRST_OFFSET] + seq(BLOCKS_PER_EPOCH - 1, _ => 0);
      bytes := [];
      cursor := 0;
    }

    /** Write the block header at `at` and the transactions one after another behind it. */
    method WriteBlock(at: nat, millis: u64, txs: seq<Tx>)
      modifies this`bytes, this`cursor
      ensures Wrote(old(bytes), bytes, at, BlockBytes(codec, Block(millis, txs)))
      ensures cursor == at + |BlockBytes(codec, Block(millis, txs))|
    {
      ghost var header := BlockHeader(millis, |txs|);
      bytes := Poke(bytes, at, BlockHeader(millis, |txs|));
      cursor := at + BLOCK_HEADER;
      assert header + EncodeAll(codec, txs[..0]) == header;
      for i := 0 to |txs|
        invariant Wrote(old(bytes), bytes, at, header + EncodeAll(codec, txs[..i]))
        invariant cursor == at + |header + EncodeAll(codec, txs[..i])|
      {
        WriteOneMore(codec, old(bytes), bytes, at, header, txs, i);
        bytes := Poke(bytes, cursor, codec.encode(txs[i]));
        cursor := cursor + |codec.encode(txs[i])|;
      }
      assert txs[..|txs|] == txs;
    }

    method AppendBlock(blockNumber: nat, millis: u64, txs: seq<Tx>, ghost blocks: seq<Block<Tx>>)
      requires Stores(blocks) && |blocks| == blockNumber % BLOCKS_PER_EPOCH
      modifies this
      ensures Stores(blocks + [Block(millis, txs)])
    {
      var at := BlockStart(blockNumber % BLOCKS_PER_EPOCH);
      WriteBlock(at, millis, txs);
      NoteNextOffset(blockNumber);
      ghost var b := Block(millis, txs);
      ImagesAppend(codec, blocks, b);
      AppendOne(Images(codec, blocks), BlockBytes(codec, b), old(offsets), old(bytes), offsets, bytes, at);
    }

    /** The recorded offset of a block; an offset that was never recorded is the first one. */
    method BlockStart(index: nat) returns (at: nat)
      requires index < |offsets|
      modifies this`offsets
      ensures at == if old(offsets)[index] == 0 then 266240 else old(offsets)[index]
      ensures offsets == old(offsets)[index := at]
    {
      if offsets[index] == 0 {
        offsets := offsets[index := FIRST_OFFSET];
      }
      at := offsets[index];
    }

    /** Record where the following block of the epoch will start. */
    method NoteNextOffset(blockNumber: nat)
      requires |offsets| == BLOCKS_PER_EPOCH
      modifies this`offsets
      ensures |offsets| == BLOCKS_PER_EPOCH
      ensures forall i | 0 <= i <= blockNumber % BLOCKS_PER_EPOCH :: offsets[i] == old(offsets)[i]
      ensures blockNumber % BLOCKS_PER_EPOCH + 1 < BLOCKS_PER_EPOCH ==>
                offsets[blockNumber % BLOCKS_PER_EPOCH + 1] == Truncated(AlignUp(cursor))
    {
      NextSlot(blockNumber);
      if (blockNumber + 1) % BLOCKS_PER_EPOCH != 0 {
        offsets := offsets[(blockNumber + 1) % BLOCKS_PER_EPOCH := Truncated(AlignUp(cursor))];
      }
    }

    /** Reads back a block.  The type byte of each transaction selects the factory that reads it. */
    method ReadBlock(blockNumber: nat, ghost blocks: seq<Block<Tx>>) returns (r: ReadResult<Tx>)
      requires Stores(blocks) && blockNumber % BLOCKS_PER_EPOCH < |blocks|
      ensures Lawful(codec) && Fits(Images(codec, blocks)) && |blocks[blockNumber % BLOCKS_PER_EPOCH].txs| < TWO_16 ==>
                r == ReadOk(blocks[blockNumber % BLOCKS_PER_EPOCH].txs)
    {
      var at := offsets[blockNumber % BLOCKS_PER_EPOCH];
      if at == 0 || at + BLOCK_HEADER > |bytes| {
        return ReadFailed;
      }
      var count := FromBytes(bytes[at + 8..at + 10]);
      ghost var b := blocks[blockNumber % BLOCKS_PER_EPOCH];
      r := ReadAll(at + BLOCK_HEADER, count, b.txs);
      if Fits(Images(codec, blocks)) && |b.txs| < TWO_16 {
        StoredBlock(codec, blocks, offsets, bytes, blockNumber % BLOCKS_PER_EPOCH);
        HeaderReadsBack(codec, b, bytes, at);
      }
    }

    method ReadAll(start: nat, count: nat, ghost txs: seq<Tx>) returns (r: ReadResult<Tx>)
      requires start <= |bytes|
      ensures Lawful(codec) && |txs| == count && HoldsAt(bytes, start, EncodeAll(codec, txs)) ==> r == ReadOk(txs)
    {
      var results: seq<Tx>, pos := [], start;
      ghost var good := Lawful(codec) && |txs| == count && HoldsAt(bytes, start, EncodeAll(codec, txs));
      for i := 0 to count
        invariant start <= pos <= |bytes| && |results| == i
        invariant good ==> results == txs[..i] && pos == start + |EncodeAll(codec, txs[..i])|
      {
        var one := ReadOne(codec, bytes[pos..]);
        if good {
          NextInMemory(codec, txs, i, bytes, start);
        }
        if !one.Got? || pos + one.used > |bytes| {
          return ReadFailed;
        }
        results := results + [one.tx];
        pos := pos + one.used;
      }
      assert txs[..|txs|] == txs;
      return ReadOk(results);
    }
  }
}
