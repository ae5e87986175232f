/**
 * The test design's sum index: absolute-state segments sealed once per block,
 * read back by taking the segment with the highest end block.  A seal reads the
 * index twice, once for the sum and once for the count, and either read may miss
 * blocks whose segments have not landed; what that loses is worked out here.
 */
module SumIndex {
  import opened Words
  import opened Codec
  import opened CatalogFile
  import opened CatalogProtocol
  import W = CatalogWrites
  import B = Backend
  import F = Frontend

  // ---- 32-bit sums ---------------------------------------------------------------------

  function Wrap(x: int): (r: int)
    ensures -0x8000_0000 <= r < 0x8000_0000
  {
    (x + 0x8000_0000) % 0x1_0000_0000 - 0x8000_0000
  }

  /** `answer` is a signed 32-bit number and differs from `exact` by a multiple of 2^32. */
  predicate In32Bits(answer: int, exact: int) {
    -0x8000_0000 <= answer < 0x8000_0000 && (exact - answer) % 0x1_0000_0000 == 0
  }

  /** Wrapping is exactly that. */
  lemma WrapIsIn32Bits(x: int, r: int)
    ensures In32Bits(r, x) <==> r == Wrap(x)
  {
  }

  /** Nothing is lost while the number fits. */
  lemma SmallIsExact(answer: int, exact: int)
    requires In32Bits(answer, exact)
    ensures -0x8000_0000 <= exact < 0x8000_0000 ==> answer == exact
  {
  }

  lemma WrapsToZero(x: int)
    ensures Wrap(x) == 0 <==> x % 0x1_0000_0000 == 0
  {
  }

  lemma WrapTurns(x: int) returns (k: int)
    ensures x == Wrap(x) + 0x1_0000_0000 * k
  {
    k := (x + 0x8000_0000) / 0x1_0000_0000;
  }

  lemma SameTurn(a: int, b: int, k: int)
    requires -0x8000_0000 <= a < 0x8000_0000 && -0x8000_0000 <= b < 0x8000_0000 && a == b + 0x1_0000_0000 * k
    ensures a == b
  {
  }

  lemma WrapAdds(a: int, b: int)
    ensures Wrap(Wrap(a) + b) == Wrap(a + b) && Wrap(a + Wrap(b)) == Wrap(a + b)
  {
    var i := WrapTurns(a);
    var j := WrapTurns(b);
    var k := WrapTurns(a + b);
    var l := WrapTurns(Wrap(a) + b);
    var m := WrapTurns(a + Wrap(b));
    SameTurn(Wrap(Wrap(a) + b), Wrap(a + b), k - i - l);
    SameTurn(Wrap(a + Wrap(b)), Wrap(a + b), k - j - m);
  }

  lemma WrapBoth(a: int, b: int)
    ensures Wrap(Wrap(a) + Wrap(b)) == Wrap(a + b)
  {
    WrapAdds(Wrap(a), b);
    WrapAdds(a, b);
  }

  lemma TurnsIn32Bits(answer: int, exact: int, k: int)
    requires -0x8000_0000 <= answer < 0x8000_0000 && exact == answer + 0x1_0000_0000 * k
    ensures In32Bits(answer, exact)
  {
  }

  lemma AddsIn32Bits(answer: int, exact: int, more: int)
    requires In32Bits(answer, exact)
    ensures In32Bits(Wrap(answer + Wrap(more)), exact + more)
  {
    var j := (exact - answer) / 0x1_0000_0000;
    assert exact == answer + 0x1_0000_0000 * j;
    var k := WrapTurns(more);
    var l := WrapTurns(answer + Wrap(more));
    TurnsIn32Bits(Wrap(answer + Wrap(more)), exact + more, j + k + l);
  }

  /** Pending changes of the override family. */
  datatype Delta = Delta(sum: int, count: int, dirty: bool)

  const NO_CHANGES := Delta(0, 0, false)

  function ApplyTest(t: TestTx, d: Delta): Delta { Delta(Wrap(d.sum + t.value), Wrap(d.count + 1), true) }

  const TEST_DESIGN: B.Design<TestTx, Delta> := B.Design((t, d) => true, ApplyTest)

  function SumOf(txs: seq<TestTx>): int {
    if txs == [] then 0 else SumOf(txs[..|txs| - 1]) + txs[|txs| - 1].value
  }

  lemma {:induction false} FoldWraps(txs: seq<TestTx>)
    ensures B.Fold(TEST_DESIGN, NO_CHANGES, txs) == Delta(Wrap(SumOf(txs)), Wrap(|txs|), txs != [])
  {
    if txs != [] {
      var n := |txs| - 1;
      FoldWraps(txs[..n]);
      WrapAdds(SumOf(txs[..n]), txs[n].value);
      WrapAdds(n, 1);
    }
  }

  /** Applying a block's transactions sums their values and counts them, in 32 bits. */
  lemma FoldIsSum(txs: seq<TestTx>)
    ensures var d := B.Fold(TEST_DESIGN, NO_CHANGES, txs);
            In32Bits(d.sum, SumOf(txs)) && In32Bits(d.count, |txs|) && (d.dirty <==> txs != [])
  {
    FoldWraps(txs);
    WrapIsIn32Bits(SumOf(txs), Wrap(SumOf(txs)));
    WrapIsIn32Bits(|txs|, Wrap(|txs|));
  }

  lemma {:induction false} SumAppend(a: seq<TestTx>, b: seq<TestTx>)
    ensures SumOf(a + b) == SumOf(a) + SumOf(b)
  {
    if b == [] {
      assert a + b == a;
    } else {
      var n := |b| - 1;
      SumAppend(a, b[..n]);
      assert (a + b)[..|a| + n] == a + b[..n] && (a + b)[|a| + n] == b[n];
    }
  }

  /** Test transactions commute, so the frontend's speculative state is the mempool-order fold. */
  lemma TestDesignCommutes()
    ensures F.Commutes(TEST_DESIGN)
  {
    forall a, b, d ensures F.Swaps(TEST_DESIGN, a, b, d) {
      WrapAdds(d.sum + a.value, b.value);
      WrapAdds(d.sum + b.value, a.value);
    }
  }

  // ---- Segments ------------------------------------------------------------------------

  datatype Totals = Totals(sum: i32, count: i32)

  function Encode(t: Totals): (r: seq<byte>)
    ensures |r| == 8
  {
    ToBytes(Unsigned(t.sum), 4) + ToBytes(Unsigned(t.count), 4)
  }

  function Decode(s: seq<byte>): (int, int)
    requires |s| == 8
  {
    (Signed(FromBytes(s[..4])), Signed(FromBytes(s[4..])))
  }

  lemma TotalsRoundTrip(t: Totals)
    ensures Decode(Encode(t)) == (t.sum, t.count)
  {
    Widths();
    WordRoundTrip(Unsigned(t.sum), 4);
    WordRoundTrip(Unsigned(t.count), 4);
    assert Encode(t)[..4] == ToBytes(Unsigned(t.sum), 4) && Encode(t)[4..] == ToBytes(Unsigned(t.count), 4);
  }

  /** `seal`: the committed totals plus the block's changes. */
  function Sealed(sum: int, count: int, d: Delta): Totals { Totals(Wrap(sum + d.sum), Wrap(count + d.count)) }

  /** What the index should say: the sum of these transactions and their number, in 32 bits. */
  predicate Accounts(sum: int, count: int, txs: seq<TestTx>) { In32Bits(sum, SumOf(txs)) && In32Bits(count, |txs|) }

  lemma {:induction false} FlatJoin(a: seq<seq<TestTx>>, b: seq<seq<TestTx>>)
    ensures F.Flat(a + b) == F.Flat(a) + F.Flat(b)
  {
    if b == [] {
      assert a + b == a;
    } else {
      var n := |b| - 1;
      FlatJoin(a, b[..n]);
      assert (a + b)[..|a| + n] == a + b[..n] && (a + b)[|a| + n] == b[n];
    }
  }

  // ---- Totals built on totals ---------------------------------------------------------

  /** Sum of the first v amounts. */
  function Total(amounts: seq<int>, v: nat): int
    requires v <= |amounts|
  {
    if v == 0 then 0 else Total(amounts, v - 1) + amounts[v - 1]
  }

  /** Seal v was made on top of what the first bases[v - 1] seals had reached. */
  predicate BasesOk(bases: seq<int>) {
    forall i | 0 <= i < |bases| :: 0 <= bases[i] <= i
  }

  /** What seal v says in 32 bits. */
  function Told(amounts: seq<int>, bases: seq<int>, v: nat): int
    requires v <= |amounts| == |bases| && BasesOk(bases)
    decreases v
  {
    if v == 0 then 0 else Wrap(Told(amounts, bases, bases[v - 1]) + amounts[v - 1])
  }

  /** What the seals on the way to v have passed over. */
  function Lost(amounts: seq<int>, bases: seq<int>, v: nat): int
    requires v <= |amounts| == |bases| && BasesOk(bases)
    decreases v
  {
    if v == 0 then 0
    else Lost(amounts, bases, bases[v - 1]) + Total(amounts, v - 1) - Total(amounts, bases[v - 1])
  }

  /** Seal v says the total of the first v amounts. */
  predicate Right(amounts: seq<int>, bases: seq<int>, v: nat)
    requires v <= |amounts| == |bases| && BasesOk(bases)
  {
    Told(amounts, bases, v) == Wrap(Total(amounts, v))
  }

  /** What seal v passes over is zero in 32 bits. */
  predicate NothingMissed(amounts: seq<int>, bases: seq<int>, v: nat)
    requires 0 < v <= |amounts| == |bases| && BasesOk(bases)
  {
    Wrap(Total(amounts, v - 1) - Total(amounts, bases[v - 1])) == 0
  }

  predicate AllRight(amounts: seq<int>, bases: seq<int>, n: nat)
    requires n <= |amounts| == |bases| && BasesOk(bases)
  {
    forall v | 0 <= v <= n :: Right(amounts, bases, v)
  }

  predicate NoneMissed(amounts: seq<int>, bases: seq<int>, n: nat)
    requires n <= |amounts| == |bases| && BasesOk(bases)
  {
    forall v | 0 < v <= n :: NothingMissed(amounts, bases, v)
  }

  lemma WrapGap(a: int, gap: int)
    ensures Wrap(a) == Wrap(a + gap) <==> Wrap(gap) == 0
  {
  }

  lemma {:induction false} ToldIsTotalLessLost(amounts: seq<int>, bases: seq<int>, v: nat)
    requires v <= |amounts| == |bases| && BasesOk(bases)
    ensures Told(amounts, bases, v) == Wrap(Total(amounts, v) - Lost(amounts, bases, v))
    decreases v
  {
    if v > 0 {
      var b := bases[v - 1];
      ToldIsTotalLessLost(amounts, bases, b);
      WrapAdds(Total(amounts, b) - Lost(amounts, bases, b), amounts[v - 1]);
    }
  }

  lemma LostDecides(told: int, total: int, lost: int)
    requires told == Wrap(total - lost)
    ensures In32Bits(told, total) <==> lost % 0x1_0000_0000 == 0
  {
    WrapIsIn32Bits(total, told);
    WrapGap(total - lost, lost);
    WrapsToZero(lost);
  }

  /** The exact condition: a seal is right if and only if everything passed over on the way to it is zero in 32 bits. */
  lemma RightIffNothingLost(amounts: seq<int>, bases: seq<int>, v: nat)
    requires v <= |amounts| == |bases| && BasesOk(bases)
    ensures In32Bits(Told(amounts, bases, v), Total(amounts, v)) <==> Lost(amounts, bases, v) % 0x1_0000_0000 == 0
  {
    ToldIsTotalLessLost(amounts, bases, v);
    LostDecides(Told(amounts, bases, v), Total(amounts, v), Lost(amounts, bases, v));
  }

  /** One seal on top of a right one is right if and only if what it misses is zero in 32 bits. */
  lemma SealIsRightIff(amounts: seq<int>, bases: seq<int>, v: nat)
    requires 0 < v <= |amounts| == |bases| && BasesOk(bases) && Right(amounts, bases, bases[v - 1])
    ensures Right(amounts, bases, v) <==> NothingMissed(amounts, bases, v)
  {
    var b := bases[v - 1];
    var gap := Total(amounts, v - 1) - Total(amounts, b);
    WrapAdds(Total(amounts, b), amounts[v - 1]);
    WrapGap(Total(amounts, b) + amounts[v - 1], gap);
  }

  /** All of the first n seals are right if and only if none of them misses anything that is not zero in 32 bits. */
  lemma {:induction false} AllRightIff(amounts: seq<int>, bases: seq<int>, n: nat)
    requires n <= |amounts| == |bases| && BasesOk(bases)
    ensures AllRight(amounts, bases, n) <==> NoneMissed(amounts, bases, n)
  {
    if n > 0 {
      AllRightIff(amounts, bases, n - 1);
      if Right(amounts, bases, bases[n - 1]) {
        SealIsRightIff(amounts, bases, n);
      }
    }
  }

  lemma {:induction false} ToldIgnoresLater(amounts: seq<int>, bases: seq<int>, x: int, b: int, v: nat)
    requires v <= |amounts| == |bases| && BasesOk(bases) && 0 <= b <= |bases|
    ensures Told(amounts + [x], bases + [b], v) == Told(amounts, bases, v)
    decreases v
  {
    if v > 0 {
      ToldIgnoresLater(amounts, bases, x, b, bases[v - 1]);
    }
  }

  lemma ToldNext(amounts: seq<int>, bases: seq<int>, x: int, b: int)
    requires |amounts| == |bases| && BasesOk(bases) && 0 <= b <= |bases|
    ensures Told(amounts + [x], bases + [b], |amounts| + 1) == Wrap(Told(amounts, bases, b) + Wrap(x))
  {
    ToldIgnoresLater(amounts, bases, x, b, b);
    WrapAdds(Told(amounts, bases, b), x);
  }

  // ---- Sealed blocks ---------------------------------------------------------------------

  /** A block, with how many blocks its seal saw when it read the sum and when it read the count. */
  datatype SealedBlock = SealedBlock(txs: seq<TestTx>, sumBase: int, countBase: int)

  function Txs(blocks: seq<SealedBlock>): (r: seq<seq<TestTx>>)
    ensures |r| == |blocks| && forall i | 0 <= i < |r| :: r[i] == blocks[i].txs
  {
    seq(|blocks|, i requires 0 <= i < |blocks| => blocks[i].txs)
  }

  function Sums(blocks: seq<SealedBlock>): (r: seq<int>)
    ensures |r| == |blocks| && forall i | 0 <= i < |r| :: r[i] == SumOf(blocks[i].txs)
  {
    seq(|blocks|, i requires 0 <= i < |blocks| => SumOf(blocks[i].txs))
  }

  function Sizes(blocks: seq<SealedBlock>): (r: seq<int>)
    ensures |r| == |blocks| && forall i | 0 <= i < |r| :: r[i] == |blocks[i].txs|
  {
    seq(|blocks|, i requires 0 <= i < |blocks| => |blocks[i].txs|)
  }

  function SumBases(blocks: seq<SealedBlock>): (r: seq<int>)
    ensures |r| == |blocks| && forall i | 0 <= i < |r| :: r[i] == blocks[i].sumBase
  {
    seq(|blocks|, i requires 0 <= i < |blocks| => blocks[i].sumBase)
  }

  function CountBases(blocks: seq<SealedBlock>): (r: seq<int>)
    ensures |r| == |blocks| && forall i | 0 <= i < |r| :: r[i] == blocks[i].countBase
  {
    seq(|blocks|, i requires 0 <= i < |blocks| => blocks[i].countBase)
  }

  predicate BlocksOk(blocks: seq<SealedBlock>) { BasesOk(SumBases(blocks)) && BasesOk(CountBases(blocks)) }

  /** The payload of the segment that ends at block v. */
  function ToldTotals(blocks: seq<SealedBlock>, v: nat): Totals
    requires v <= |blocks| && BlocksOk(blocks)
  {
    ToldIsWord(Sums(blocks), SumBases(blocks), v);
    ToldIsWord(Sizes(blocks), CountBases(blocks), v);
    Totals(Told(Sums(blocks), SumBases(blocks), v), Told(Sizes(blocks), CountBases(blocks), v))
  }

  lemma ToldIsWord(amounts: seq<int>, bases: seq<int>, v: nat)
    requires v <= |amounts| == |bases| && BasesOk(bases)
    ensures -0x8000_0000 <= Told(amounts, bases, v) < 0x8000_0000
  {
  }

  lemma Columns(blocks: seq<SealedBlock>, b: SealedBlock)
    ensures Txs(blocks + [b]) == Txs(blocks) + [b.txs]
    ensures Sums(blocks + [b]) == Sums(blocks) + [SumOf(b.txs)] && Sizes(blocks + [b]) == Sizes(blocks) + [|b.txs|]
    ensures SumBases(blocks + [b]) == SumBases(blocks) + [b.sumBase]
    ensures CountBases(blocks + [b]) == CountBases(blocks) + [b.countBase]
  {
  }

  /** Sealing one more block leaves earlier payloads as they were. */
  lemma EarlierTotalsStay(blocks: seq<SealedBlock>, b: SealedBlock, v: nat)
    requires v <= |blocks| && BlocksOk(blocks) && 0 <= b.sumBase <= |blocks| && 0 <= b.countBase <= |blocks|
    ensures BlocksOk(blocks + [b]) && ToldTotals(blocks + [b], v) == ToldTotals(blocks, v)
  {
    Columns(blocks, b);
    ToldIgnoresLater(Sums(blocks), SumBases(blocks), SumOf(b.txs), b.sumBase, v);
    ToldIgnoresLater(Sizes(blocks), CountBases(blocks), |b.txs|, b.countBase, v);
  }

  /** What `seal` computes for the next block is the payload that block should get from its two reads. */
  lemma SealTells(blocks: seq<SealedBlock>, b: SealedBlock)
    requires BlocksOk(blocks) && 0 <= b.sumBase <= |blocks| && 0 <= b.countBase <= |blocks|
    ensures BlocksOk(blocks + [b])
    ensures ToldTotals(blocks + [b], |blocks| + 1) ==
            Sealed(ToldTotals(blocks, b.sumBase).sum, ToldTotals(blocks, b.countBase).count, B.Fold(TEST_DESIGN, NO_CHANGES, b.txs))
  {
    FoldWraps(b.txs);
    SealTellsSum(blocks, b);
    SealTellsCount(blocks, b);
  }

  lemma SealTellsSum(blocks: seq<SealedBlock>, b: SealedBlock)
    requires BlocksOk(blocks) && 0 <= b.sumBase <= |blocks| && 0 <= b.countBase <= |blocks|
    ensures BlocksOk(blocks + [b])
    ensures ToldTotals(blocks + [b], |blocks| + 1).sum == Wrap(ToldTotals(blocks, b.sumBase).sum + Wrap(SumOf(b.txs)))
  {
    Columns(blocks, b);
    ToldNext(Sums(blocks), SumBases(blocks), SumOf(b.txs), b.sumBase);
  }

  lemma SealTellsCount(blocks: seq<SealedBlock>, b: SealedBlock)
    requires BlocksOk(blocks) && 0 <= b.sumBase <= |blocks| && 0 <= b.countBase <= |blocks|
    ensures BlocksOk(blocks + [b])
    ensures ToldTotals(blocks + [b], |blocks| + 1).count == Wrap(ToldTotals(blocks, b.countBase).count + Wrap(|b.txs|))
  {
    Columns(blocks, b);
    ToldNext(Sizes(blocks), CountBases(blocks), |b.txs|, b.countBase);
  }

  lemma {:induction false} TotalsAreFlat(blocks: seq<SealedBlock>, v: nat)
    requires v <= |blocks|
    ensures Total(Sums(blocks), v) == SumOf(F.Flat(Txs(blocks)[..v]))
    ensures Total(Sizes(blocks), v) == |F.Flat(Txs(blocks)[..v])|
  {
    var txs := Txs(blocks);
    if v == 0 {
      assert txs[..0] == [];
    } else {
      TotalsAreFlat(blocks, v - 1);
      assert txs[..v] == txs[..v - 1] + [txs[v - 1]];
      F.FlatAppend(txs[..v - 1], txs[v - 1]);
      SumAppend(F.Flat(txs[..v - 1]), txs[v - 1]);
    }
  }

  /** The transactions of blocks a up to b. */
  function Between(blocks: seq<SealedBlock>, a: nat, b: nat): seq<TestTx>
    requires a <= b <= |blocks|
  {
    F.Flat(Txs(blocks)[a..b])
  }

  lemma {:induction false} GapsAreTransactions(blocks: seq<SealedBlock>, a: nat, b: nat)
    requires a <= b <= |blocks|
    ensures Total(Sums(blocks), b) - Total(Sums(blocks), a) == SumOf(Between(blocks, a, b))
    ensures Total(Sizes(blocks), b) - Total(Sizes(blocks), a) == |Between(blocks, a, b)|
  {
    var txs := Txs(blocks);
    TotalsAreFlat(blocks, a);
    TotalsAreFlat(blocks, b);
    assert txs[..b] == txs[..a] + txs[a..b];
    FlatJoin(txs[..a], txs[a..b]);
    SumAppend(F.Flat(txs[..a]), F.Flat(txs[a..b]));
  }

  /** The transactions seal v missed sum to zero in 32 bits. */
  predicate SumMissesNothing(blocks: seq<SealedBlock>, v: nat)
    requires 0 < v <= |blocks| && BasesOk(SumBases(blocks))
  {
    SumOf(Between(blocks, SumBases(blocks)[v - 1], v - 1)) % 0x1_0000_0000 == 0
  }

  /** The transactions seal v missed number zero in 32 bits. */
  predicate CountMissesNothing(blocks: seq<SealedBlock>, v: nat)
    requires 0 < v <= |blocks| && BasesOk(CountBases(blocks))
  {
    |Between(blocks, CountBases(blocks)[v - 1], v - 1)| % 0x1_0000_0000 == 0
  }

  predicate SealMissesNothing(blocks: seq<SealedBlock>, v: nat)
    requires 0 < v <= |blocks| && BlocksOk(blocks)
  {
    SumMissesNothing(blocks, v) && CountMissesNothing(blocks, v)
  }

  lemma SumMissed(blocks: seq<SealedBlock>, v: nat)
    requires 0 < v <= |blocks| && BasesOk(SumBases(blocks))
    ensures SumMissesNothing(blocks, v) <==> NothingMissed(Sums(blocks), SumBases(blocks), v)
  {
    GapsAreTransactions(blocks, SumBases(blocks)[v - 1], v - 1);
    WrapsToZero(SumOf(Between(blocks, SumBases(blocks)[v - 1], v - 1)));
  }

  lemma CountMissed(blocks: seq<SealedBlock>, v: nat)
    requires 0 < v <= |blocks| && BasesOk(CountBases(blocks))
    ensures CountMissesNothing(blocks, v) <==> NothingMissed(Sizes(blocks), CountBases(blocks), v)
  {
    GapsAreTransactions(blocks, CountBases(blocks)[v - 1], v - 1);
    WrapsToZero(|Between(blocks, CountBases(blocks)[v - 1], v - 1)|);
  }

  /** The payload that ends at block v is the fold of the first v blocks. */
  predicate TellsRight(blocks: seq<SealedBlock>, v: nat)
    requires v <= |blocks| && BlocksOk(blocks)
  {
    Accounts(ToldTotals(blocks, v).sum, ToldTotals(blocks, v).count, F.Flat(Txs(blocks)[..v]))
  }

  lemma TellsRightParts(blocks: seq<SealedBlock>, v: nat)
    requires v <= |blocks| && BlocksOk(blocks)
    ensures TellsRight(blocks, v) <==> Right(Sums(blocks), SumBases(blocks), v) && Right(Sizes(blocks), CountBases(blocks), v)
  {
    TotalsAreFlat(blocks, v);
    WrapIsIn32Bits(Total(Sums(blocks), v), ToldTotals(blocks, v).sum);
    WrapIsIn32Bits(Total(Sizes(blocks), v), ToldTotals(blocks, v).count);
  }

  /** All payloads up to the one that ends at block n are right. */
  predicate RightUpTo(blocks: seq<SealedBlock>, n: nat)
    requires n <= |blocks| && BlocksOk(blocks)
  {
    forall v | 0 <= v <= n :: TellsRight(blocks, v)
  }

  predicate CleanUpTo(blocks: seq<SealedBlock>, n: nat)
    requires n <= |blocks| && BlocksOk(blocks)
  {
    forall v | 0 < v <= n :: SealMissesNothing(blocks, v)
  }

  /** Every sealed payload is right if and only if no seal missed anything that is not zero in 32 bits. */
  lemma PayloadsAreRightIff(blocks: seq<SealedBlock>, n: nat)
    requires n <= |blocks| && BlocksOk(blocks)
    ensures RightUpTo(blocks, n) <==> CleanUpTo(blocks, n)
  {
    AllTellRight(blocks, n);
    AllRightIff(Sums(blocks), SumBases(blocks), n);
    AllRightIff(Sizes(blocks), CountBases(blocks), n);
    NoneMisses(blocks, n);
  }

  lemma AllTellRight(blocks: seq<SealedBlock>, n: nat)
    requires n <= |blocks| && BlocksOk(blocks)
    ensures RightUpTo(blocks, n) <==>
            AllRight(Sums(blocks), SumBases(blocks), n) && AllRight(Sizes(blocks), CountBases(blocks), n)
  {
    forall v | 0 <= v <= n
      ensures TellsRight(blocks, v) <==> Right(Sums(blocks), SumBases(blocks), v) && Right(Sizes(blocks), CountBases(blocks), v) {
      TellsRightParts(blocks, v);
    }
  }

  lemma NoneMisses(blocks: seq<SealedBlock>, n: nat)
    requires n <= |blocks| && BlocksOk(blocks)
    ensures CleanUpTo(blocks, n) <==>
            NoneMissed(Sums(blocks), SumBases(blocks), n) && NoneMissed(Sizes(blocks), CountBases(blocks), n)
  {
    forall v | 0 < v <= n
      ensures SealMissesNothing(blocks, v) <==>
              NothingMissed(Sums(blocks), SumBases(blocks), v) && NothingMissed(Sizes(blocks), CountBases(blocks), v) {
      SumMissed(blocks, v);
      CountMissed(blocks, v);
    }
  }

  /** The one-block segment sealed for block b. */
  function SegmentFor(blocks: seq<SealedBlock>, b: u64): Segment
    requires b < |blocks| && b < U64_MAX && BlocksOk(blocks)
  {
    Segment(0, 1, 0, b, b + 1, Encode(ToldTotals(blocks, b + 1)))
  }

  // ---- readLatestSegment ------------------------------------------------------------------

  predicate Usable(e: Entry) { e.version == 1 && e.length >= 8 }

  function ByteAt(f: W.File, p: int): byte { if p in f.bytes then f.bytes[p] else 0 }

  /** The eight bytes behind a freshly opened view of the entry. */
  function View(f: W.File, e: Entry): (r: seq<byte>)
    ensures |r| == 8
  {
    seq<byte>(8, i requires 0 <= i < 8 => ByteAt(f, ViewPosition(e.offset) + i))
  }

  /** The reader considers entry `e` when it walks this file. */
  predicate Candidate(f: W.File, e: Entry) {
    EntryKey(e) in f.index && f.index[EntryKey(e)] == e && Hits(e, 0, 0, U64_MAX) && Usable(e)
  }

  /** The reader's running best: end, generation and totals of the entry it prefers so far. */
  datatype Best = Best(found: bool, end: int, generation: int, sum: int, count: int)

  const NOTHING := Best(false, 0, 0, 0, 0)

  function BestAt(f: W.File, e: Entry): Best {
    var totals := Decode(View(f, e));
    Best(true, e.end, e.generation, totals.0, totals.1)
  }

  /** Some entry of one of these files has these totals. */
  ghost predicate From(files: seq<W.File>, best: Best) {
    exists f, e :: f in files && Candidate(f, e) && best == BestAt(f, e)
  }

  /** Later end first, then later generation. */
  predicate Beats(e: Entry, best: Best) {
    !best.found || e.end > best.end || (e.end == best.end && e.generation > best.generation)
  }

  /**
   * The reader's answer after walking these files, each as its own read session saw
   * it: the totals of a candidate that none beats, or nothing if there is none.
   */
  ghost predicate IsLatest(files: seq<W.File>, best: Best) {
    && (if best.found then From(files, best) else best == NOTHING)
    && forall f, e | f in files && Candidate(f, e) :: !Beats(e, best)
  }

  /** The callback for one segment. */
  function Consider(f: W.File, e: Entry, best: Best): Best {
    if Usable(e) && Beats(e, best) then BestAt(f, e) else best
  }

  /** What the reader holds while it walks `f`, with `entries` of it behind it. */
  ghost predicate LatestSoFar(files: seq<W.File>, f: W.File, entries: seq<Entry>, best: Best) {
    && (if best.found then From(files + [f], best) else best == NOTHING)
    && (forall g, e | g in files && Candidate(g, e) :: !Beats(e, best))
    && (forall e | e in entries && Candidate(f, e) :: !Beats(e, best))
  }

  lemma ConsiderKeeps(files: seq<W.File>, f: W.File, entries: seq<Entry>, e: Entry, best: Best)
    requires LatestSoFar(files, f, entries, best) && (Usable(e) ==> Candidate(f, e))
    ensures LatestSoFar(files, f, entries + [e], Consider(f, e, best))
  {
    if Usable(e) && Beats(e, best) {
      assert f in files + [f] && Candidate(f, e);
    }
  }

  lemma WalkIsDone(files: seq<W.File>, f: W.File, entries: seq<Entry>, best: Best)
    requires LatestSoFar(files, f, entries, best) && IsWalk(f.index, 0, 0, U64_MAX, entries)
    ensures IsLatest(files + [f], best)
  {
  }

  lemma WalkBegins(files: seq<W.File>, f: W.File, best: Best)
    requires IsLatest(files, best)
    ensures LatestSoFar(files, f, [], best)
  {
    if best.found {
      var g, e :| g in files && Candidate(g, e) && best == BestAt(g, e);
      assert g in files + [f];
    }
  }

  /** One walked file: keep the best usable entry. */
  method ReadFile(f: W.File, start: Best, ghost files: seq<W.File>) returns (best: Best)
    requires IndexOk(f.index) && IsLatest(files, start)
    ensures IsLatest(files + [f], best)
  {
    best := start;
    var entries := ForEachSegment(f.index, 0, 0, U64_MAX);
    WalkBegins(files, f, best);
    for i := 0 to |entries|
      invariant LatestSoFar(files, f, entries[..i], best)
    {
      assert entries[i] in entries && entries[..i + 1] == entries[..i] + [entries[i]];
      ConsiderKeeps(files, f, entries[..i], entries[i], best);
      best := Consider(f, entries[i], best);
    }
    assert entries[..|entries|] == entries;
    WalkIsDone(files, f, entries, best);
  }

  /** `files` are the scanned files in turn, each as it is while its read session is open. */
  method ReadLatestSegment(files: seq<W.File>) returns (best: Best)
    requires forall f | f in files :: IndexOk(f.index)
    ensures IsLatest(files, best)
    // Of the entries of index 0 and version 1 with at least eight bytes, one with the greatest end, then generation.
    ensures best.found ==>
              exists f, e | f in files && EntryKey(e) in f.index && f.index[EntryKey(e)] == e ::
                && e.indexId == 0 && e.version == 1 && e.length >= 8 && e.end == best.end && e.generation == best.generation
                && (best.sum, best.count) == Decode(View(f, e))
    ensures forall f, e | f in files && EntryKey(e) in f.index && f.index[EntryKey(e)] == e ::
              e.indexId == 0 && e.version == 1 && e.length >= 8 ==>
                best.found && (e.end < best.end || (e.end == best.end && e.generation <= best.generation))
    ensures !best.found ==> best.sum == 0 && best.count == 0
  {
    best := NOTHING;
    for i := 0 to |files|
      invariant IsLatest(files[..i], best)
    {
      assert files[i] in files && files[..i + 1] == files[..i] + [files[i]];
      best := ReadFile(files[i], best, files[..i]);
    }
    assert files[..|files|] == files;
    LatestMeans(files, best);
  }

  lemma LatestMeans(files: seq<W.File>, best: Best)
    requires IsLatest(files, best)
    ensures best.found ==>
              exists f, e | f in files && EntryKey(e) in f.index && f.index[EntryKey(e)] == e ::
                && e.indexId == 0 && e.version == 1 && e.length >= 8 && e.end == best.end && e.generation == best.generation
                && (best.sum, best.count) == Decode(View(f, e))
    ensures forall f, e | f in files && EntryKey(e) in f.index && f.index[EntryKey(e)] == e ::
              e.indexId == 0 && e.version == 1 && e.length >= 8 ==>
                best.found && (e.end < best.end || (e.end == best.end && e.generation <= best.generation))
  {
    if best.found {
      var f, e :| f in files && Candidate(f, e) && best == BestAt(f, e);
      assert f.index[EntryKey(e)] == e;
    }
    forall f, e | f in files && EntryKey(e) in f.index && f.index[EntryKey(e)] == e && e.indexId == 0 && e.version == 1 && e.length >= 8
      ensures best.found && (e.end < best.end || (e.end == best.end && e.generation <= best.generation)) {
      assert Candidate(f, e) && !Beats(e, best);
    }
  }
}
