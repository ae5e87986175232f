/** The (timestamp, block number) index and its window query. */
module Timestamps {
  import opened Words
  import BTree

  datatype Stamp = Stamp(millis: u64, block: u64)

  const MAX_STAMP := Stamp(U64_MAX, U64_MAX)

  function Compare(a: Stamp, b: Stamp): int {
    if a.millis < b.millis then -1
    else if a.millis > b.millis then 1
    else if a.block < b.block then -1
    else if a.block > b.block then 1
    else 0
  }

  function Successor(s: Stamp): Stamp {
    if s.block != U64_MAX then s.(block := s.block + 1)
    else if s.millis != U64_MAX then Stamp(s.millis + 1, 0)
    else Stamp(s.millis, 0)
  }

  function Order(s: Stamp): int { s.millis * TWO_64 + s.block }

  lemma CompareIsOrder(a: Stamp, b: Stamp)
    ensures Compare(a, b) < 0 <==> Order(a) < Order(b)
    ensures Compare(a, b) == 0 <==> a == b
    ensures Compare(a, b) == 0 <==> Order(a) == Order(b)
  {
  }

  lemma SuccessorIsNext(s: Stamp)
    ensures Order(Successor(s)) == Order(s) + 1 <==> s != MAX_STAMP
  {
    CompareIsOrder(s, MAX_STAMP);
  }

  predicate InWindow(s: Stamp, start: u64, end: u64) { start <= s.millis <= end }

  /** `out` is exactly the stamps inside [start, end], in (timestamp, block) order. */
  ghost predicate IsWindow(index: set<Stamp>, start: u64, end: u64, out: seq<Stamp>) {
    && (forall i, j | 0 <= i < j < |out| :: Order(out[i]) < Order(out[j]))
    && (forall s :: s in out <==> s in index && InWindow(s, start, end))
  }

  /** The part of the window whose order is below `bound`. */
  ghost predicate CollectedTo(order: Stamp -> int, index: set<Stamp>, start: u64, end: u64, out: seq<Stamp>, bound: int) {
    && (forall i, j | 0 <= i < j < |out| :: order(out[i]) < order(out[j]))
    && (forall s | s in out :: s in index && InWindow(s, start, end) && order(s) < bound)
    && (forall s | s in index && InWindow(s, start, end) && order(s) < bound :: s in out)
  }

  lemma Collects(order: Stamp -> int, index: set<Stamp>, start: u64, end: u64, out: seq<Stamp>, bound: int, s: Stamp)
    requires forall a, b | a in index && b in index && order(a) == order(b) :: a == b
    requires CollectedTo(order, index, start, end, out, bound)
    requires BTree.IsNext(index, order, bound, s) && InWindow(s, start, end)
    ensures CollectedTo(order, index, start, end, out + [s], order(s) + 1)
  {
    var out' := out + [s];
    assert forall x :: x in out' <==> x in out || x == s;
    forall i, j | 0 <= i < j < |out'| ensures order(out'[i]) < order(out'[j]) {
      assert out[i] in out;
    }
    forall x | x in index && InWindow(x, start, end) && order(x) < order(s) + 1 ensures x in out' {
      assert order(x) < bound || x == s;
    }
  }

  method GetBlocksInWindow(index: set<Stamp>, start: u64, end: u64) returns (out: seq<Stamp>)
    requires MAX_STAMP !in index
    ensures IsWindow(index, start, end, out)
  {
    out := [];
    var cursor := Stamp(start, 0);
    forall a, b | a in index && b in index && Order(a) == Order(b) ensures a == b {
      CompareIsOrder(a, b);
    }
    forall s | s in index && InWindow(s, start, end) ensures Order(cursor) <= Order(s) {
      CompareIsOrder(s, cursor);
    }
    while true
      invariant Order(Stamp(start, 0)) <= Order(cursor)
      invariant CollectedTo(Order, index, start, end, out, Order(cursor))
      decreases Order(MAX_STAMP) - Order(cursor)
    {
      var found := BTree.FindNext(index, Order, Order(cursor));
      if found.None? {
        break;
      }
      var s := found.value;
      if s.millis > end {
        forall x | x in index && Order(cursor) <= Order(x) ensures !InWindow(x, start, end) {
          CompareIsOrder(x, s);
        }
        break;
      }
      CompareIsOrder(s, Stamp(start, 0));
      Collects(Order, index, start, end, out, Order(cursor), s);
      SuccessorIsNext(s);
      CompareIsOrder(s, MAX_STAMP);
      out := out + [s];
      cursor := Successor(s);
    }
  }
}
