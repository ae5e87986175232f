/**
 * One catalog file: the key order of its segment index, the cursor walk over
 * that index, and where the view of an entry starts.
 */
module CatalogFile {
  import opened Words
  import BTree

  // ---- Keys --------------------------------------------------------------

  datatype Key = Key(indexId: u16, start: u64, generation: u32)

  const MAX_KEY := Key(0xFFFF, U64_MAX, U32_MAX)

  function Compare(a: Key, b: Key): int {
    if a.indexId < b.indexId then -1
    else if a.indexId > b.indexId then 1
    else if a.start < b.start then -1
    else if a.start > b.start then 1
    else if a.generation < b.generation then -1
    else if a.generation > b.generation then 1
    else 0
  }

  function Successor(k: Key): Key {
    if k.generation != U32_MAX then k.(generation := k.generation + 1)
    else if k.start != U64_MAX then Key(k.indexId, k.start + 1, 0)
    else if k.indexId != 0xFFFF then Key(k.indexId + 1, 0, 0)
    else Key(k.indexId, 0, 0)
  }

  /** Position of a key among all keys: the 112-bit number its fields spell. */
  function Rank(k: Key): (r: int)
    ensures 0 <= r <= 0xFFFF_FFFF_FFFF_FFFF_FFFF_FFFF_FFFF
  {
    (k.indexId * TWO_64 + k.start) * TWO_32 + k.generation
  }

  /** The key order is the numeric order of ranks. */
  lemma CompareIsRankOrder(a: Key, b: Key)
    ensures Compare(a, b) < 0 <==> Rank(a) < Rank(b)
    ensures Compare(a, b) == 0 <==> a == b
    ensures Compare(a, b) == 0 <==> Rank(a) == Rank(b)
  {
    if a.indexId < b.indexId {
      assert a.indexId * TWO_64 + a.start < b.indexId * TWO_64 + b.start;
    } else if a.indexId > b.indexId {
      assert a.indexId * TWO_64 + a.start > b.indexId * TWO_64 + b.start;
    }
  }

  lemma RanksAreInjective(keys: set<Key>)
    ensures forall a, b | a in keys && b in keys && Rank(a) == Rank(b) :: a == b
  {
    forall a, b | a in keys && b in keys && Rank(a) == Rank(b) ensures a == b {
      CompareIsRankOrder(a, b);
    }
  }

  /**
   * `successor` is the next key, so a cursor walk skips nothing, at every key
   * but the last; at the last key it restarts inside the last index.
   */
  lemma SuccessorIsNextKey(k: Key)
    ensures Rank(Successor(k)) == Rank(k) + 1 <==> k != MAX_KEY
    ensures k == MAX_KEY ==> Successor(k) == Key(0xFFFF, 0, 0)
  {
    CompareIsRankOrder(k, MAX_KEY);
  }

  // ---- Segments and index entries ---------------------------------------------

  /** Segment bytes; the source keeps their length in 32 bits. */
  type Payload = c: seq<byte> | |c| < 0x1_0000_0000

  datatype Segment = Segment(indexId: u16, version: u16, generation: u16, start: u64, end: u64, content: Payload)

  datatype Entry = Entry(start: u64, end: u64, offset: nat, length: u32, generation: u32, indexId: u16, version: u16)

  function EntryKey(e: Entry): Key { Key(e.indexId, e.start, e.generation) }

  function SegmentKey(g: Segment): Key { Key(g.indexId, g.start, g.generation) }

  function EntryOf(g: Segment, offset: nat): (e: Entry)
    ensures EntryKey(e) == SegmentKey(g)
  {
    Entry(g.start, g.end, offset, |g.content|, g.generation, g.indexId, g.version)
  }

  /** Entries are filed under their own key, and `createEntry` takes 16-bit generations. */
  ghost predicate IndexOk(index: map<Key, Entry>) {
    forall k | k in index :: k == EntryKey(index[k]) && index[k].generation < TWO_16
  }

  // ---- forEachSegment -------------------------------------------------------

  /** The entries a walk of [lo, hi] reports. */
  predicate Hits(e: Entry, indexId: u16, lo: u64, hi: u64) {
    e.indexId == indexId && lo <= e.start <= hi && lo <= e.end
  }

  /** `out` holds exactly the hits of `index`, once each, in key order. */
  ghost predicate IsWalk(index: map<Key, Entry>, indexId: u16, lo: u64, hi: u64, out: seq<Entry>) {
    && (forall i, j | 0 <= i < j < |out| :: Rank(EntryKey(out[i])) < Rank(EntryKey(out[j])))
    && (forall e :: e in out <==> EntryKey(e) in index && index[EntryKey(e)] == e && Hits(e, indexId, lo, hi))
  }

  /** What the loop has collected once every key below `bound` is behind the cursor, for any key order. */
  ghost predicate WalkedTo(order: Key -> int, index: map<Key, Entry>, indexId: u16, lo: u64, hi: u64, out: seq<Entry>, bound: int) {
    && (forall i, j | 0 <= i < j < |out| :: order(EntryKey(out[i])) < order(EntryKey(out[j])))
    && (forall e | e in out :: EntryKey(e) in index && index[EntryKey(e)] == e && Hits(e, indexId, lo, hi))
    && (forall e | e in out :: order(EntryKey(e)) < bound)
    && (forall k | k in index && order(k) < bound && Hits(index[k], indexId, lo, hi) :: index[k] in out)
  }

  lemma HitsLieInRange(e: Entry, indexId: u16, lo: u64, hi: u64)
    requires Hits(e, indexId, lo, hi)
    ensures Rank(Key(indexId, lo, 0)) <= Rank(EntryKey(e)) <= Rank(Key(indexId, hi, U32_MAX))
  {
    CompareIsRankOrder(EntryKey(e), Key(indexId, lo, 0));
    CompareIsRankOrder(Key(indexId, hi, U32_MAX), EntryKey(e));
  }

  /** A walk may stop as soon as it sees another index or a start past the range. */
  lemma NothingBeyond(e: Entry, seen: Entry, indexId: u16, lo: u64, hi: u64)
    requires Rank(Key(indexId, lo, 0)) <= Rank(EntryKey(seen)) <= Rank(EntryKey(e))
    requires seen.indexId != indexId || seen.start > hi
    ensures !Hits(e, indexId, lo, hi)
  {
    CompareIsRankOrder(EntryKey(seen), Key(indexId, lo, 0));
    CompareIsRankOrder(EntryKey(e), EntryKey(seen));
  }

  lemma WalkComplete(index: map<Key, Entry>, indexId: u16, lo: u64, hi: u64, out: seq<Entry>, bound: int)
    requires IndexOk(index)
    requires WalkedTo(Rank, index, indexId, lo, hi, out, bound)
    requires forall k | k in index && bound <= Rank(k) :: !Hits(index[k], indexId, lo, hi)
    ensures IsWalk(index, indexId, lo, hi, out)
  {
    forall e | EntryKey(e) in index && index[EntryKey(e)] == e && Hits(e, indexId, lo, hi) ensures e in out {
      assert Rank(EntryKey(e)) < bound;
    }
  }

  /** One turn of the loop that only steps past the found entry. */
  lemma WalkSkips(order: Key -> int, index: map<Key, Entry>, indexId: u16, lo: u64, hi: u64, out: seq<Entry>, bound: int, e: Entry)
    requires forall a, b | a in index && b in index && order(a) == order(b) :: a == b
    requires WalkedTo(order, index, indexId, lo, hi, out, bound)
    requires BTree.IsNext(index.Keys, order, bound, EntryKey(e)) && index[EntryKey(e)] == e
    requires !Hits(e, indexId, lo, hi)
    ensures WalkedTo(order, index, indexId, lo, hi, out, order(EntryKey(e)) + 1)
  {
    forall k | k in index && order(k) < order(EntryKey(e)) + 1 && Hits(index[k], indexId, lo, hi) ensures order(k) < bound {
      assert k != EntryKey(e);
    }
  }

  /** One turn of the loop that reports the found entry. */
  lemma WalkReports(order: Key -> int, index: map<Key, Entry>, indexId: u16, lo: u64, hi: u64, out: seq<Entry>, bound: int, e: Entry)
    requires forall a, b | a in index && b in index && order(a) == order(b) :: a == b
    requires WalkedTo(order, index, indexId, lo, hi, out, bound)
    requires BTree.IsNext(index.Keys, order, bound, EntryKey(e)) && index[EntryKey(e)] == e
    requires Hits(e, indexId, lo, hi)
    ensures WalkedTo(order, index, indexId, lo, hi, out + [e], order(EntryKey(e)) + 1)
  {
    var out' := out + [e];
    assert forall x :: x in out' <==> x in out || x == e;
    forall i, j | 0 <= i < j < |out'| ensures order(EntryKey(out'[i])) < order(EntryKey(out'[j])) {
      assert out[i] in out;
    }
    forall k | k in index && order(k) < order(EntryKey(e)) + 1 && Hits(index[k], indexId, lo, hi) ensures index[k] in out' {
      assert order(k) < bound || k == EntryKey(e);
    }
  }

  /** Stored generations fit 16 bits, so the cursor always moves on by exactly one key. */
  lemma CursorMovesOn(e: Entry)
    requires e.generation < TWO_16
    ensures Rank(Successor(EntryKey(e))) == Rank(EntryKey(e)) + 1
    ensures Rank(EntryKey(e)) < Rank(MAX_KEY)
  {
    SuccessorIsNextKey(EntryKey(e));
    CompareIsRankOrder(EntryKey(e), MAX_KEY);
  }

  method ForEachSegment(index: map<Key, Entry>, indexId: u16, lo: u64, hi: u64) returns (out: seq<Entry>)
    requires IndexOk(index)
    ensures IsWalk(index, indexId, lo, hi, out)
  {
    out := [];
    var cursor := Key(indexId, lo, 0);
    forall k | k in index && Hits(index[k], indexId, lo, hi) ensures Rank(cursor) <= Rank(k) {
      HitsLieInRange(index[k], indexId, lo, hi);
    }
    RanksAreInjective(index.Keys);
    while true
      invariant Rank(Key(indexId, lo, 0)) <= Rank(cursor)
      invariant WalkedTo(Rank, index, indexId, lo, hi, out, Rank(cursor))
      decreases Rank(MAX_KEY) - Rank(cursor)
    {
      var found := BTree.FindNext(index.Keys, Rank, Rank(cursor));
      if found.None? {
        break;
      }
      var e := index[found.value];
      if e.indexId != indexId || e.start > hi {
        forall k | k in index && Rank(cursor) <= Rank(k) ensures !Hits(index[k], indexId, lo, hi) {
          NothingBeyond(index[k], e, indexId, lo, hi);
        }
        break;
      }
      CompareIsRankOrder(EntryKey(e), Key(indexId, lo, 0));
      CursorMovesOn(e);
      if e.end >= lo {
        WalkReports(Rank, index, indexId, lo, hi, out, Rank(cursor), e);
        out := out + [e];
      } else {
        WalkSkips(Rank, index, indexId, lo, hi, out, Rank(cursor), e);
      }
      cursor := Successor(EntryKey(e));
    }
    WalkComplete(index, indexId, lo, hi, out, Rank(cursor));
  }

  /** Two walks of one index over one range agree entry by entry. */
  lemma {:induction false} WalkIsUnique(index: map<Key, Entry>, indexId: u16, lo: u64, hi: u64, a: seq<Entry>, b: seq<Entry>)
    requires IsWalk(index, indexId, lo, hi, a) && IsWalk(index, indexId, lo, hi, b)
    ensures a == b
  {
    AscendingUnique(a, b);
  }

  lemma {:induction false} AscendingUnique(a: seq<Entry>, b: seq<Entry>)
    requires forall i, j | 0 <= i < j < |a| :: Rank(EntryKey(a[i])) < Rank(EntryKey(a[j]))
    requires forall i, j | 0 <= i < j < |b| :: Rank(EntryKey(b[i])) < Rank(EntryKey(b[j]))
    requires forall e :: e in a <==> e in b
    ensures a == b
  {
    if a == [] {
      assert forall i | 0 <= i < |b| :: b[i] in b;
    } else {
      assert a[0] in b;
      assert b[0] in a;
      assert a[0] == b[0];
      forall e ensures e in a[1..] <==> e in b[1..] {
        if e in a[1..] { assert e in a && e != a[0]; }
        if e in b[1..] { assert e in b && e != b[0]; }
      }
      AscendingUnique(a[1..], b[1..]);
      assert a == [a[0]] + a[1..] && b == [b[0]] + b[1..];
    }
  }

  /** Closed-interval intersection, as the header comment of forEachSegment promises it. */
  predicate Intersects(e: Entry, lo: u64, hi: u64) { e.start <= hi && lo <= e.end }

  /** The promise is kept for an intersecting entry exactly when it does not begin before the range. */
  lemma WalkMissesEarlierStarts(index: map<Key, Entry>, indexId: u16, lo: u64, hi: u64, out: seq<Entry>, e: Entry)
    requires IsWalk(index, indexId, lo, hi, out)
    requires EntryKey(e) in index && index[EntryKey(e)] == e
    requires e.indexId == indexId && Intersects(e, lo, hi)
    ensures e in out <==> lo <= e.start
  {
  }

  /** A five-block segment is not reported for a query that begins inside it. */
  lemma WideSegmentMissed(out: seq<Entry>)
    requires IsWalk(map[Key(0, 0, 0) := Entry(0, 5, 4096, 8, 0, 0, 1)], 0, 2, 3, out)
    ensures Intersects(Entry(0, 5, 4096, 8, 0, 0, 1), 2, 3) && Entry(0, 5, 4096, 8, 0, 0, 1) !in out
  {
  }

  /** The blocks a segment describes: its end is exclusive. */
  predicate Covers(e: Entry, block: int) { e.start <= block < e.end }

  /** For the one-block segments the backend seals, a hit is exactly a half-open overlap. */
  lemma OneBlockHitsAreOverlaps(index: map<Key, Entry>, indexId: u16, lo: u64, hi: u64, out: seq<Entry>, e: Entry)
    requires IsWalk(index, indexId, lo, hi, out)
    requires EntryKey(e) in index && index[EntryKey(e)] == e
    requires e.indexId == indexId && e.end == e.start + 1
    ensures e in out <==> exists b :: Covers(e, b) && lo <= b <= hi
  {
    assert Covers(e, e.start);
  }

  // ---- openEntry ------------------------------------------------------------

  /** Absolute file position of the first byte read through a freshly opened entry view. */
  function ViewPosition(offset: nat): nat {
    var readOffset := offset - offset % 4096;
    readOffset + (if readOffset != 0 then offset - readOffset else 0)
  }

  /** The view starts at the entry unless the entry sits inside the file's first page. */
  lemma ViewStartsAtEntry(offset: nat)
    ensures ViewPosition(offset) == offset <==> offset == 0 || 4096 <= offset
    ensures 0 < offset < 4096 ==> ViewPosition(offset) == 0
  {
  }
}
