/**
 * Byte layout of transactions: little-endian words, the one-byte type prefix that
 * the type registry dispatches on, and runs of transactions one after another.
 */
module Codec {
  import opened Words

  // ---- Little-endian words --------------------------------------------------------

  function Power256(k: nat): (r: int)
    ensures r >= 1
  {
    if k == 0 then 1 else 256 * Power256(k - 1)
  }

  function ToBytes(n: int, k: nat): (r: seq<byte>)
    requires 0 <= n
    ensures |r| == k
  {
    if k == 0 then [] else [n % 256] + ToBytes(n / 256, k - 1)
  }

  function FromBytes(s: seq<byte>): (n: int)
    ensures 0 <= n
  {
    if s == [] then 0 else s[0] + 256 * FromBytes(s[1..])
  }

  /** A word that fits its width survives the trip through bytes. */
  lemma {:induction false} WordRoundTrip(n: int, k: nat)
    requires 0 <= n < Power256(k)
    ensures FromBytes(ToBytes(n, k)) == n
  {
    if k > 0 {
      WordRoundTrip(n / 256, k - 1);
      assert ToBytes(n, k)[1..] == ToBytes(n / 256, k - 1);
    }
  }

  lemma Widths()
    ensures Power256(2) == TWO_16 && Power256(4) == TWO_32 && Power256(8) == TWO_64
  {
    assert Power256(2) == 256 * Power256(1) == 256 * (256 * Power256(0));
    assert Power256(4) == 256 * Power256(3) == 256 * (256 * Power256(2));
    assert Power256(6) == 256 * Power256(5) == 256 * (256 * Power256(4));
    assert Power256(8) == 256 * Power256(7) == 256 * (256 * Power256(6));
  }

  // ---- The type registry -----------------------------------------------------------

  /** What a factory read: a transaction and how many bytes it took. */
  datatype Parsed<Tx> = Parsed(tx: Tx, used: nat)

  /** `encode` is Transaction::write; `factories` is the registry, keyed by type id. */
  datatype Codec<!Tx> = Codec(encode: Tx -> seq<byte>, factories: map<byte, seq<byte> -> Option<Parsed<Tx>>>)

  /** Outcome of TransactionTypeRegistry::read; an unknown type has still consumed its type byte. */
  datatype Reading<Tx> = EndOfData | UnknownType | Malformed | Got(tx: Tx, used: nat)

  function ReadOne<Tx>(c: Codec<Tx>, s: seq<byte>): Reading<Tx> {
    if s == [] then EndOfData
    else if s[0] !in c.factories then UnknownType
    else
      match c.factories[s[0]](s[1..])
      case None => Malformed
      case Some(p) => Got(p.tx, 1 + p.used)
  }

  /** Reading back right after writing yields the transaction and stops where the writing stopped. */
  ghost predicate ReadsBack<Tx(!new)>(c: Codec<Tx>, tx: Tx, rest: seq<byte>) {
    ReadOne(c, c.encode(tx) + rest) == Got(tx, |c.encode(tx)|)
  }

  ghost predicate Lawful<Tx(!new)>(c: Codec<Tx>) {
    forall tx, rest :: ReadsBack(c, tx, rest)
  }

  // ---- Runs of transactions -------------------------------------------------------

  function EncodeAll<Tx>(c: Codec<Tx>, txs: seq<Tx>): seq<byte> {
    if txs == [] then [] else c.encode(txs[0]) + EncodeAll(c, txs[1..])
  }

  lemma {:induction false} EncodeAppend<Tx>(c: Codec<Tx>, txs: seq<Tx>, tx: Tx)
    ensures EncodeAll(c, txs + [tx]) == EncodeAll(c, txs) + c.encode(tx)
  {
    if txs == [] {
      assert txs + [tx] == [tx] && [tx][1..] == [];
    } else {
      EncodeAppend(c, txs[1..], tx);
      assert (txs + [tx])[1..] == txs[1..] + [tx];
    }
  }

  /** The next transaction of a run that has been read up to position i. */
  lemma {:induction false} RunAt<Tx(!new)>(c: Codec<Tx>, txs: seq<Tx>, i: nat, rest: seq<byte>)
    requires Lawful(c) && i < |txs|
    ensures |EncodeAll(c, txs[..i])| <= |EncodeAll(c, txs) + rest|
    ensures ReadOne(c, (EncodeAll(c, txs) + rest)[|EncodeAll(c, txs[..i])|..]) == Got(txs[i], |c.encode(txs[i])|)
    ensures |EncodeAll(c, txs[..i + 1])| == |EncodeAll(c, txs[..i])| + |c.encode(txs[i])|
  {
    var all, head := EncodeAll(c, txs), c.encode(txs[0]);
    if i == 0 {
      assert txs[..1] == [txs[0]] && [txs[0]][1..] == [];
      assert ReadsBack(c, txs[0], EncodeAll(c, txs[1..]) + rest);
      assert (all + rest)[0..] == head + (EncodeAll(c, txs[1..]) + rest);
    } else {
      RunAt(c, txs[1..], i - 1, rest);
      assert txs[..i][1..] == txs[1..][..i - 1] && txs[..i + 1][1..] == txs[1..][..i];
      assert all + rest == head + (EncodeAll(c, txs[1..]) + rest);
      var n := |EncodeAll(c, txs[1..][..i - 1])|;
      assert (all + rest)[|head| + n..] == (EncodeAll(c, txs[1..]) + rest)[n..];
    }
  }

  // ---- The test design's transaction -------------------------------------------------

  type i32 = x: int | -0x8000_0000 <= x < 0x8000_0000

  function Unsigned(x: i32): u32 { if x < 0 then x + TWO_32 else x }

  function Signed(n: int): int { if n < 0x8000_0000 then n else n - TWO_32 }

  datatype TestTx = TestTx(timestamp: u64, value: i32, id: i32)

  function WriteTest(t: TestTx): seq<byte> {
    [1] + ToBytes(t.timestamp, 8) + ToBytes(Unsigned(t.value), 4) + ToBytes(Unsigned(t.id), 4)
  }

  function ReadTest(s: seq<byte>): Option<Parsed<TestTx>> {
    if |s| < 16 then None
    else
      var ts, v, id := FromBytes(s[..8]), Signed(FromBytes(s[8..12])), Signed(FromBytes(s[12..16]));
      if ts < TWO_64 && -0x8000_0000 <= v < 0x8000_0000 && -0x8000_0000 <= id < 0x8000_0000
      then Some(Parsed(TestTx(ts, v, id), 16)) else None
  }

  const TEST_CODEC: Codec<TestTx> := Codec(WriteTest, map[1 := ReadTest])

  lemma TestReadsBack(t: TestTx, rest: seq<byte>)
    ensures ReadsBack(TEST_CODEC, t, rest)
    ensures |WriteTest(t)| == 17
  {
    Widths();
    WordRoundTrip(t.timestamp, 8);
    WordRoundTrip(Unsigned(t.value), 4);
    WordRoundTrip(Unsigned(t.id), 4);
    Fields(ToBytes(t.timestamp, 8), ToBytes(Unsigned(t.value), 4), ToBytes(Unsigned(t.id), 4), rest);
  }

  /** A type byte and three fields, cut apart again. */
  lemma Fields(a: seq<byte>, b: seq<byte>, d: seq<byte>, rest: seq<byte>)
    requires |a| == 8 && |b| == 4 && |d| == 4
    ensures var all := [1] + a + b + d + rest;
            all[0] == 1 && |all[1..]| >= 16 && all[1..][..8] == a && all[1..][8..12] == b && all[1..][12..16] == d
  {
    assert ([1] + a + b + d + rest)[1..] == a + b + d + rest;
  }

  /** The registered test transaction meets the contract every journal result below asks of a codec. */
  lemma TestCodecIsLawful()
    ensures Lawful(TEST_CODEC)
  {
    forall t, rest ensures ReadsBack(TEST_CODEC, t, rest) {
      TestReadsBack(t, rest);
    }
  }
}
