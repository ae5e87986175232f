/**
 * The table of contents: one row per catalog file, ordered newest file first,
 * with the bloom bits and block range that queries prune by.
 */
module Toc {
  import opened Words
  import BTree

  /** A 256-bit bloom word as the set of its one bits. */
  datatype Row = Row(min: int, max: int, totalBytes: int, bloom: set<int>, count: int)

  /** The row a newly created file starts from. */
  const FRESH_ROW := Row(U64_MAX, 0, 0, {}, 0)

  /** The 64-bit hash of a 16-bit index id. */
  function MiniHash(indexId: int): int {
    (indexId * 15879638260049341073 + 5277654339219660263) % 0x1_0000_0000_0000_0000
  }

  function BloomBits(indexId: int): (bits: set<int>)
    ensures bits != {} && forall b | b in bits :: b < 256
  {
    {(MiniHash(indexId) % 2404975667) % 256, (MiniHash(indexId) % 3414420799) % 256}
  }

  /** Two of the values the hash takes. */
  lemma BloomSamples()
    ensures BloomBits(0) == {202, 217}
    ensures BloomBits(1) == {155, 32}
  {
    assert MiniHash(0) == 5277654339219660263;
    assert 5277654339219660263 % 2404975667 == 1577896906 && 5277654339219660263 % 3414420799 == 919758809;
    assert MiniHash(1) == 2710548525559449720;
    assert 2710548525559449720 % 2404975667 == 441533851 && 2710548525559449720 % 3414420799 == 3226506016;
  }

  /** Where compare() places a file id: newest first. */
  function Order(id: int): int { -id }

  /** The pruning test of a range scan. */
  predicate Matches(row: Row, bits: set<int>, lo: int, hi: int) {
    bits <= row.bloom && row.min <= hi && lo <= row.max
  }

  lemma SubsetMeans(a: set<int>, b: set<int>)
    ensures a <= b <==> forall x | x in a :: x in b
  {
    if forall x | x in a :: x in b {
      assert forall x :: x in a ==> x in b;
      assert a - b == {};
    }
  }

  lemma MatchesMeans(row: Row, bits: set<int>, lo: int, hi: int)
    ensures Matches(row, bits, lo, hi) <==> row.min <= hi && lo <= row.max && forall b | b in bits :: b in row.bloom
  {
    SubsetMeans(bits, row.bloom);
  }

  /** The read-modify-write a finished write does under the table lock. */
  function Absorb(row: Row, bits: set<int>, start: int, end: int, totalBytes: int): Row {
    Row(Min(row.min, start), Max(row.max, end), totalBytes, row.bloom + bits, (row.count + 1) % TWO_32)
  }

  /** Rows only widen, so a row that matches a query keeps matching it. */
  ghost predicate Widens(row: Row, row': Row) {
    row'.min <= row.min && row.max <= row'.max && row.bloom <= row'.bloom
  }

  // ---- The scan loop ------------------------------------------------------------

  /** `key.fileId--` on an unsigned 64-bit id. */
  function Before(id: int): int { if id == 0 then U64_MAX else id - 1 }

  lemma BeforeWraps(id: u64)
    ensures 0 <= Before(id) <= U64_MAX && (Before(id) + 1) % 0x1_0000_0000_0000_0000 == id
  {
  }

  ghost predicate ScannedTo(toc: map<int, Row>, now: int, bits: set<int>, lo: int, hi: int, out: seq<int>, cursor: int) {
    && (forall i, j | 0 <= i < j < |out| :: out[i] > out[j])
    && (forall f | f in out :: cursor < f <= now && f in toc && Matches(toc[f], bits, lo, hi))
    && (forall f | f in toc && cursor < f <= now && Matches(toc[f], bits, lo, hi) :: f in out)
  }

  lemma ScanAdvances(toc: map<int, Row>, now: int, bits: set<int>, lo: int, hi: int, out: seq<int>, cursor: int, f: int)
    requires ScannedTo(toc, now, bits, lo, hi, out, cursor) && cursor <= now
    requires BTree.IsNext(toc.Keys, Order, Order(cursor), f) && f != 0
    ensures ScannedTo(toc, now, bits, lo, hi, if Matches(toc[f], bits, lo, hi) then out + [f] else out, f - 1)
  {
    assert forall i | 0 <= i < |out| :: out[i] in out;
    var out' := if Matches(toc[f], bits, lo, hi) then out + [f] else out;
    forall g | g in toc && f - 1 < g <= now && Matches(toc[g], bits, lo, hi) ensures g in out' {
      assert cursor < g || g == f;
    }
  }

  /**
   * A scan of a table nobody is writing lists, newest first and once each, the files at or
   * below `now` whose row has all the bits and a block range that meets [lo, hi].  It needs a table without file id 0,
   * which a positive clock never allocates: see ScanEndsIff.
   */
  method RangeScan(toc: map<int, Row>, now: int, bits: set<int>, lo: int, hi: int) returns (out: seq<int>)
    requires 0 <= now && forall f | f in toc :: 0 < f
    ensures forall i, j | 0 <= i < j < |out| :: out[i] > out[j]
    ensures forall f: int :: f in out <==>
              f in toc && f <= now && toc[f].min <= hi && lo <= toc[f].max && forall b | b in bits :: b in toc[f].bloom
  {
    out := [];
    var cursor: int := now;
    while true
      invariant 0 <= cursor <= now
      invariant ScannedTo(toc, now, bits, lo, hi, out, cursor)
      decreases cursor
    {
      var found := BTree.FindNext(toc.Keys, Order, Order(cursor));
      if found.None? {
        forall f | f in toc ensures Matches(toc[f], bits, lo, hi) <==>
            toc[f].min <= hi && lo <= toc[f].max && forall b | b in bits :: b in toc[f].bloom {
          MatchesMeans(toc[f], bits, lo, hi);
        }
        break;
      }
      ScanAdvances(toc, now, bits, lo, hi, out, cursor, found.value);
      if Matches(toc[found.value], bits, lo, hi) {
        out := out + [found.value];
      }
      cursor := Before(found.value);
    }
  }

  /** Where the scan's cursor is after n turns; None once the loop has ended. */
  ghost function CursorAfter(toc: map<int, Row>, now: int, n: nat): Option<int> {
    if n == 0 then Some(now)
    else
      match CursorAfter(toc, now, n - 1)
      case None => None
      case Some(cursor) =>
        match BTree.FindNext(toc.Keys, Order, Order(cursor))
        case None => None
        case Some(f) => Some(Before(f))
  }

  lemma {:induction false} CursorFalls(toc: map<int, Row>, now: int, n: nat)
    requires 0 <= now && forall f | f in toc :: 0 < f
    ensures CursorAfter(toc, now, n).Some? ==> 0 <= CursorAfter(toc, now, n).value <= now - n
  {
    if n > 0 {
      CursorFalls(toc, now, n - 1);
    }
  }

  lemma {:induction false} CursorGoesRound(toc: map<int, Row>, now: int, n: nat)
    requires 0 <= now && 0 in toc && forall f | f in toc :: 0 <= f
    ensures CursorAfter(toc, now, n).Some? && 0 <= CursorAfter(toc, now, n).value
  {
    if n > 0 {
      CursorGoesRound(toc, now, n - 1);
    }
  }

  /** The scan loop ends if and only if no file has id 0: below that id the unsigned cursor wraps to the top. */
  lemma ScanEndsIff(toc: map<int, Row>, now: int)
    requires 0 <= now && forall f | f in toc :: 0 <= f
    ensures (exists n :: CursorAfter(toc, now, n).None?) <==> 0 !in toc
  {
    if 0 in toc {
      forall n ensures CursorAfter(toc, now, n).Some? {
        CursorGoesRound(toc, now, n);
      }
    } else {
      CursorFalls(toc, now, now + 1);
      assert CursorAfter(toc, now, now + 1).None?;
    }
  }
}
