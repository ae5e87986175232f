/**
 * Block building: greedy selection re-scored against the simulated state, an
 * in-place descending selection sort of the chosen indices, and removal from the
 * mempool by shifting.
 */
module Builder {
  import opened Words
  import opened Backend

  // ---- Order-preserving removal ---------------------------------------------------------

  /** The elements whose index is not in `gone`, in their original order. */
  function Kept<T>(items: seq<T>, gone: set<int>): seq<T> {
    if items == [] then []
    else
      var n := |items| - 1;
      Kept(items[..n], gone) + if n in gone then [] else [items[n]]
  }

  function RemoveAt<T>(items: seq<T>, i: int): (r: seq<T>)
    requires 0 <= i < |items|
    ensures |r| == |items| - 1
  {
    items[..i] + items[i + 1..]
  }

  function At<T>(items: seq<T>, picks: seq<int>): (r: seq<T>)
    requires forall i | 0 <= i < |picks| :: 0 <= picks[i] < |items|
    ensures |r| == |picks| && forall i | 0 <= i < |picks| :: r[i] == items[picks[i]]
  {
    seq(|picks|, i requires 0 <= i < |picks| => items[picks[i]])
  }

  function Elements(picks: seq<int>): set<int> { set i | i in picks }

  lemma {:induction false} KeptIgnoresOutside<T>(items: seq<T>, a: set<int>, b: set<int>)
    requires forall i | 0 <= i < |items| :: i in a <==> i in b
    ensures Kept(items, a) == Kept(items, b)
  {
    if items != [] {
      KeptIgnoresOutside(items[..|items| - 1], a, b);
    }
  }

  lemma {:induction false} KeptNothingGone<T>(items: seq<T>)
    ensures Kept(items, {}) == items
  {
    if items != [] {
      KeptNothingGone(items[..|items| - 1]);
    }
  }

  /** Taking out the greatest index first leaves the other indices valid. */
  lemma {:induction false} RemoveGreatest<T>(items: seq<T>, gone: set<int>, m: int)
    requires m in gone && 0 <= m < |items| && forall i | i in gone :: i <= m
    ensures Kept(RemoveAt(items, m), gone - {m}) == Kept(items, gone)
  {
    var n := |items| - 1;
    if m == n {
      assert RemoveAt(items, m) == items[..n];
      KeptIgnoresOutside(items[..n], gone - {m}, gone);
    } else {
      var rest := RemoveAt(items, m);
      assert rest[..n - 1] == RemoveAt(items[..n], m) && rest[n - 1] == items[n];
      RemoveGreatest(items[..n], gone, m);
    }
  }

  /** Sparing one more index puts exactly its element back. */
  lemma {:induction false} SpareOne<T>(items: seq<T>, gone: set<int>, p: int)
    requires 0 <= p < |items| && p !in gone
    ensures multiset(Kept(items, gone)) == multiset(Kept(items, gone + {p})) + multiset{items[p]}
  {
    var n := |items| - 1;
    if p == n {
      KeptIgnoresOutside(items[..n], gone, gone + {p});
    } else {
      SpareOne(items[..n], gone, p);
      SameTail(Kept(items[..n], gone), Kept(items[..n], gone + {p}), items[p], if n in gone then [] else [items[n]]);
    }
  }

  lemma SameTail<T>(a: seq<T>, b: seq<T>, x: T, tail: seq<T>)
    requires multiset(a) == multiset(b) + multiset{x}
    ensures multiset(a + tail) == multiset(b + tail) + multiset{x}
  {
  }

  /** Distinct positions of a list of this size. */
  predicate Distinct(picks: seq<int>, size: int) {
    && (forall i | 0 <= i < |picks| :: 0 <= picks[i] < size)
    && (forall i, j | 0 <= i < j < |picks| :: picks[i] != picks[j])
  }

  /** Nothing is lost or duplicated: what is kept and what was picked make up the original. */
  lemma {:induction false} PickingConserves<T>(items: seq<T>, picks: seq<int>)
    requires Distinct(picks, |items|)
    ensures multiset(items) == multiset(Kept(items, Elements(picks))) + multiset(At(items, picks))
  {
    if picks == [] {
      KeptNothingGone(items);
      assert Elements(picks) == {} && At(items, picks) == [];
    } else {
      var n := |picks| - 1;
      var rest, p := picks[..n], picks[n];
      PickingConserves(items, rest);
      SplitLast(items, picks);
      SpareOne(items, Elements(rest), p);
      MoveOne(items, Kept(items, Elements(rest)), Kept(items, Elements(picks)), At(items, rest), items[p]);
    }
  }

  lemma MoveOne<T>(all: seq<T>, kept: seq<T>, kept': seq<T>, taken: seq<T>, x: T)
    requires multiset(all) == multiset(kept) + multiset(taken) && multiset(kept) == multiset(kept') + multiset{x}
    ensures multiset(all) == multiset(kept') + multiset(taken + [x])
  {
  }

  lemma SplitLast<T>(items: seq<T>, picks: seq<int>)
    requires picks != [] && Distinct(picks, |items|)
    ensures var n := |picks| - 1;
            && picks[n] !in Elements(picks[..n])
            && Elements(picks) == Elements(picks[..n]) + {picks[n]}
            && At(items, picks) == At(items, picks[..n]) + [items[picks[n]]]
  {
    var n := |picks| - 1;
    assert picks == picks[..n] + [picks[n]];
  }

  /** Taking out a tail leaves the rest. */
  lemma {:induction false} KeptBeforeTail<T>(items: seq<T>, gone: set<int>, p: nat)
    requires p <= |items| && forall i | 0 <= i < |items| :: i in gone <==> p <= i
    ensures Kept(items, gone) == items[..p]
  {
    if p < |items| {
      KeptBeforeTail(items[..|items| - 1], gone, p);
      assert items[..|items| - 1][..p] == items[..p];
    } else {
      KeptIgnoresOutside(items, gone, {});
      KeptNothingGone(items);
    }
  }

  predicate AllDifferent<T(==)>(items: seq<T>) {
    forall i, j | 0 <= i < j < |items| :: items[i] != items[j]
  }

  /** The picks are the last positions, in order. */
  predicate IsTail(picks: seq<int>, size: int) {
    forall i | 0 <= i < |picks| :: picks[i] == size - |picks| + i
  }

  lemma KeptSize<T>(items: seq<T>, picks: seq<int>)
    requires Distinct(picks, |items|)
    ensures |Kept(items, Elements(picks))| == |items| - |picks|
  {
    PickingConserves(items, picks);
    assert |multiset(items)| == |multiset(Kept(items, Elements(picks)))| + |multiset(At(items, picks))|;
  }

  /** Putting picked elements back at the end restores the list if and only if they were its tail, in order. */
  lemma PutBackRestoresIff<T>(items: seq<T>, picks: seq<int>)
    requires Distinct(picks, |items|) && AllDifferent(items)
    ensures Kept(items, Elements(picks)) + At(items, picks) == items <==> IsTail(picks, |items|)
  {
    KeptSize(items, picks);
    var kept := Kept(items, Elements(picks));
    if kept + At(items, picks) == items {
      RestoredFromTail(items, picks, kept);
    }
    if IsTail(picks, |items|) {
      TailIsRestored(items, picks);
    }
  }

  lemma RestoredFromTail<T>(items: seq<T>, picks: seq<int>, kept: seq<T>)
    requires Distinct(picks, |items|) && AllDifferent(items) && kept + At(items, picks) == items
    ensures IsTail(picks, |items|)
  {
    forall i | 0 <= i < |picks| ensures picks[i] == |kept| + i {
      assert items[|kept| + i] == At(items, picks)[i] == items[picks[i]];
    }
  }

  lemma {:induction false} TailIsRestored<T>(items: seq<T>, picks: seq<int>)
    requires Distinct(picks, |items|) && |picks| <= |items| && IsTail(picks, |items|)
    ensures Kept(items, Elements(picks)) + At(items, picks) == items
  {
    KeptTail(items, picks);
    Rejoin(items, Kept(items, Elements(picks)), At(items, picks));
  }

  lemma KeptTail<T>(items: seq<T>, picks: seq<int>)
    requires |picks| <= |items| && IsTail(picks, |items|)
    ensures Kept(items, Elements(picks)) == items[..|items| - |picks|]
  {
    TailPositions(picks, |items|);
    KeptBeforeTail(items, Elements(picks), |items| - |picks|);
  }

  lemma Rejoin<T>(items: seq<T>, head: seq<T>, tail: seq<T>)
    requires |head| + |tail| == |items| && head == items[..|head|]
    requires forall i | 0 <= i < |tail| :: tail[i] == items[|head| + i]
    ensures head + tail == items
  {
  }

  lemma TailPositions(picks: seq<int>, size: int)
    requires IsTail(picks, size)
    ensures forall i | 0 <= i < size :: i in Elements(picks) <==> size - |picks| <= i
  {
    forall i | 0 <= i < size && size - |picks| <= i ensures i in Elements(picks) {
      assert picks[i - (size - |picks|)] == i;
    }
  }

  function Positions(n: nat): (r: seq<int>)
    ensures |r| == n && forall i | 0 <= i < n :: r[i] == i
  {
    seq(n, i => i)
  }

  /** Where each element of the list comes from when the picked ones are put back at the end. */
  function PutBackOrder(n: nat, picks: seq<int>): seq<int> { Kept(Positions(n), Elements(picks)) + picks }

  predicate Within(picks: seq<int>, size: int) {
    forall i | 0 <= i < |picks| :: 0 <= picks[i] < size
  }

  lemma {:induction false} KeptByPosition<T>(items: seq<T>, gone: set<int>)
    ensures Within(Kept(Positions(|items|), gone), |items|)
    ensures Kept(items, gone) == At(items, Kept(Positions(|items|), gone))
  {
    if items != [] {
      var n := |items| - 1;
      KeptByPosition(items[..n], gone);
      assert Positions(n + 1)[..n] == Positions(n);
    }
  }

  lemma AtJoins<T>(items: seq<T>, a: seq<int>, b: seq<int>)
    requires Within(a, |items|) && Within(b, |items|)
    ensures Within(a + b, |items|) && At(items, a + b) == At(items, a) + At(items, b)
  {
  }

  /** The element that ends up at each position is the one PutBackOrder names. */
  lemma PutBackMoves<T>(items: seq<T>, picks: seq<int>)
    requires Distinct(picks, |items|)
    ensures Within(PutBackOrder(|items|, picks), |items|)
    ensures Kept(items, Elements(picks)) + At(items, picks) == At(items, PutBackOrder(|items|, picks))
  {
    KeptByPosition(items, Elements(picks));
    AtJoins(items, Kept(Positions(|items|), Elements(picks)), picks);
  }

  /** Everything comes back to its own position if and only if the picks were the tail, in order. */
  lemma PutBackOrderIff(n: nat, picks: seq<int>)
    requires Distinct(picks, n)
    ensures PutBackOrder(n, picks) == Positions(n) <==> IsTail(picks, n)
  {
    assert At(Positions(n), picks) == picks;
    PutBackRestoresIff(Positions(n), picks);
  }

  /** What is kept was at an unpicked position. */
  lemma {:induction false} KeptComesFrom<T>(items: seq<T>, gone: set<int>, i: nat) returns (j: nat)
    requires i < |Kept(items, gone)|
    ensures j < |items| && j !in gone && Kept(items, gone)[i] == items[j]
  {
    var n := |items| - 1;
    if i < |Kept(items[..n], gone)| {
      j := KeptComesFrom(items[..n], gone, i);
    } else {
      j := n;
    }
  }

  ghost predicate IsUnpicked<T>(items: seq<T>, picks: seq<int>, x: T) {
    exists j | 0 <= j < |items| && j !in picks :: items[j] == x
  }

  lemma {:induction false} KeptAreUnpicked<T>(items: seq<T>, picks: seq<int>)
    ensures forall x | x in Kept(items, Elements(picks)) :: IsUnpicked(items, picks, x)
  {
    var kept := Kept(items, Elements(picks));
    forall x | x in kept ensures IsUnpicked(items, picks, x) {
      var i :| 0 <= i < |kept| && kept[i] == x;
      var j := KeptComesFrom(items, Elements(picks), i);
      assert j !in picks && items[j] == x;
    }
  }

  // ---- Greedy choice -------------------------------------------------------------------

  datatype Market<!Tx, !S> = Market(design: Design<Tx, S>, value: (Tx, S) -> real)

  ghost function StateAfter<Tx, S>(m: Market<Tx, S>, s: S, pool: seq<Tx>, picks: seq<int>): S
    requires Distinct(picks, |pool|)
  {
    Fold(m.design, s, At(pool, picks))
  }

  /** Index i scores highest in `state` among the unpicked, and is the first to do so. */
  ghost predicate IsBest<Tx, S>(m: Market<Tx, S>, state: S, pool: seq<Tx>, picks: seq<int>, i: int) {
    && 0 <= i < |pool| && i !in picks
    && (forall j | 0 <= j < |pool| && j !in picks :: m.value(pool[j], state) <= m.value(pool[i], state))
    && (forall j | 0 <= j < i && j !in picks :: m.value(pool[j], state) < m.value(pool[i], state))
  }

  /** Every pick is the best remaining one, scores at least zero, against the state all earlier picks leave. */
  ghost predicate IsGreedy<Tx, S>(m: Market<Tx, S>, s: S, pool: seq<Tx>, picks: seq<int>) {
    && Distinct(picks, |pool|)
    && forall k | 0 <= k < |picks| :: GreedyAt(m, s, pool, picks, k)
  }

  ghost predicate GreedyAt<Tx, S>(m: Market<Tx, S>, s: S, pool: seq<Tx>, picks: seq<int>, k: nat)
    requires Distinct(picks, |pool|) && k < |picks|
  {
    var state := StateAfter(m, s, pool, picks[..k]);
    IsBest(m, state, pool, picks[..k], picks[k]) && m.value(pool[picks[k]], state) >= 0.0
  }

  /** Nothing left is worth taking. */
  ghost predicate NoneWorthy<Tx, S>(m: Market<Tx, S>, s: S, pool: seq<Tx>, picks: seq<int>)
    requires Distinct(picks, |pool|)
  {
    forall j | 0 <= j < |pool| && j !in picks :: m.value(pool[j], StateAfter(m, s, pool, picks)) < 0.0
  }

  /** Why selection ended: full, pool exhausted, deadline seen after the last pick, or nothing worth taking. */
  ghost predicate StopsAt<Tx, S>(m: Market<Tx, S>, s: S, pool: seq<Tx>, picks: seq<int>, limit: int, deadline: int, clock: nat -> int)
    requires Distinct(picks, |pool|)
  {
    || |picks| == limit
    || |picks| == |pool|
    || (picks != [] && deadline != 0 && clock(|picks|) >= deadline)
    || NoneWorthy(m, s, pool, picks)
  }

  ghost predicate IsSelection<Tx, S>(m: Market<Tx, S>, s: S, pool: seq<Tx>, picks: seq<int>, limit: int, deadline: int, clock: nat -> int) {
    && IsGreedy(m, s, pool, picks) && |picks| <= limit
    && StopsAt(m, s, pool, picks, limit, deadline, clock)
    && InTime(deadline, clock, |picks|)
  }

  /** The deadline had not passed after any of the first picks, fewer than n. */
  ghost predicate InTime(deadline: int, clock: nat -> int, n: int) {
    forall k | 0 < k < n :: deadline == 0 || clock(k) < deadline
  }

  /** The inner loop: scan the pool for the best unpicked transaction. */
  method FindBest<Tx, S>(m: Market<Tx, S>, state: S, pool: seq<Tx>, picks: seq<int>) returns (best: int)
    ensures best == -1 ==> forall j | 0 <= j < |pool| && j !in picks :: m.value(pool[j], state) < 0.0
    ensures best != -1 ==> IsBest(m, state, pool, picks, best)
  {
    best := -1;
    var bestValue := -1000000000000000000000000000000.0;
    for i := 0 to |pool|
      invariant -1 <= best < i
      invariant best == -1 ==> bestValue < 0.0 && forall j | 0 <= j < i && j !in picks :: m.value(pool[j], state) <= bestValue
      invariant best != -1 ==>
        && best !in picks && bestValue == m.value(pool[best], state)
        && (forall j | 0 <= j < i && j !in picks :: m.value(pool[j], state) <= bestValue)
        && (forall j | 0 <= j < best && j !in picks :: m.value(pool[j], state) < bestValue)
    {
      if i !in picks {
        var val := m.value(pool[i], state);
        if val > bestValue {
          bestValue := val;
          best := i;
        }
      }
    }
  }

  lemma SelectOneMore<Tx, S>(m: Market<Tx, S>, s: S, pool: seq<Tx>, picks: seq<int>, i: int)
    requires IsGreedy(m, s, pool, picks)
    requires IsBest(m, StateAfter(m, s, pool, picks), pool, picks, i) && m.value(pool[i], StateAfter(m, s, pool, picks)) >= 0.0
    ensures IsGreedy(m, s, pool, picks + [i]) && At(pool, picks + [i]) == At(pool, picks) + [pool[i]]
    ensures StateAfter(m, s, pool, picks + [i]) == m.design.apply(pool[i], StateAfter(m, s, pool, picks))
  {
    var picks' := picks + [i];
    assert At(pool, picks') == At(pool, picks) + [pool[i]];
    forall k | 0 <= k < |picks'| ensures GreedyAt(m, s, pool, picks', k) {
      if k < |picks| {
        assert GreedyAt(m, s, pool, picks, k) && picks'[..k] == picks[..k];
      } else {
        assert picks'[..k] == picks;
      }
    }
  }

  method Select<Tx, S>(m: Market<Tx, S>, committed: S, pool: seq<Tx>, limit: nat, deadline: int, clock: nat -> int)
    returns (selected: seq<Tx>, picks: seq<int>)
    ensures IsSelection(m, committed, pool, picks, limit, deadline, clock)
    ensures selected == At(pool, picks)
    // Short of the limit and of the pool, before the deadline, nothing worth taking is left.
    ensures |picks| < limit && |picks| < |pool| && (deadline == 0 || picks == [] || clock(|picks|) < deadline) ==>
              forall j | 0 <= j < |pool| && j !in picks :: m.value(pool[j], Fold(m.design, committed, selected)) < 0.0
    // No pick is made after a reading at or past the deadline.
    ensures deadline != 0 ==> forall k | 0 < k && clock(k) >= deadline :: |picks| <= k
  {
    selected, picks := [], [];
    var state := committed;
    while |picks| < limit && |picks| < |pool|
      invariant IsGreedy(m, committed, pool, picks) && |picks| <= limit && |picks| <= |pool|
      invariant selected == At(pool, picks) && state == StateAfter(m, committed, pool, picks)
      invariant InTime(deadline, clock, |picks| + 1)
      decreases limit - |picks|
    {
      var best := FindBest(m, state, pool, picks);
      if best == -1 || m.value(pool[best], state) < 0.0 {
        assert NoneWorthy(m, committed, pool, picks);
        return;
      }
      SelectOneMore(m, committed, pool, picks, best);
      picks := picks + [best];
      state := m.design.apply(pool[best], state);
      selected := selected + [pool[best]];
      if deadline != 0 && clock(|picks|) >= deadline {
        return;
      }
    }
  }

  /** Of two greedy lists one continues the other, so the whole selection is determined by pool and state. */
  lemma {:induction false} GreedyIsDetermined<Tx, S>(m: Market<Tx, S>, s: S, pool: seq<Tx>, a: seq<int>, b: seq<int>, n: nat)
    requires IsGreedy(m, s, pool, a) && IsGreedy(m, s, pool, b) && n <= |a| && n <= |b|
    ensures a[..n] == b[..n]
  {
    if n > 0 {
      GreedyIsDetermined(m, s, pool, a, b, n - 1);
      assert GreedyAt(m, s, pool, a, n - 1) && GreedyAt(m, s, pool, b, n - 1);
      assert a[n - 1] == b[n - 1];
      assert a[..n] == a[..n - 1] + [a[n - 1]] && b[..n] == b[..n - 1] + [b[n - 1]];
    }
  }

  // ---- In-place sort --------------------------------------------------------------------

  ghost predicate Descending(s: seq<int>) { forall i, j | 0 <= i < j < |s| :: s[i] >= s[j] }

  method Swap(a: array<int>, i: nat, j: nat)
    requires i < a.Length && j < a.Length
    modifies a
    ensures a[i] == old(a[j]) && a[j] == old(a[i])
    ensures forall k | 0 <= k < a.Length && k != i && k != j :: a[k] == old(a[k])
    ensures multiset(a[..]) == old(multiset(a[..]))
  {
    a[i], a[j] := a[j], a[i];
  }

  method SortDescending(a: array<int>)
    modifies a
    ensures Descending(a[..]) && multiset(a[..]) == old(multiset(a[..]))
  {
    var n := a.Length;
    for i := 0 to Max(n - 1, 0)
      invariant forall x, y | 0 <= x < y < n && x < i :: a[x] >= a[y]
      invariant multiset(a[..]) == old(multiset(a[..]))
    {
      var maxPos := i;
      for j := i + 1 to n
        invariant i <= maxPos < n
        invariant forall y | i <= y < j :: a[maxPos] >= a[y]
      {
        if a[j] > a[maxPos] {
          maxPos := j;
        }
      }
      if maxPos != i {
        Swap(a, i, maxPos);
      }
    }
  }

  // ---- The mempool ------------------------------------------------------------------------

  /** A growable list: `size` elements at the front of a buffer. */
  class TxList<Tx> {
    var data: array<Tx>
    var size: nat

    ghost predicate Valid()
      reads this
    {
      size <= data.Length
    }

    ghost function Items(): (r: seq<Tx>)
      requires Valid()
      reads this, data
      ensures |r| == size
    {
      data[..size]
    }

    constructor (data: array<Tx>)
      ensures Valid() && this.data == data && Items() == data[..]
    {
      this.data := data;
      size := data.Length;
    }

    /** Shift everything behind `index` one place forward and drop the last place. */
    method OrderedRemove(index: nat)
      requires Valid() && index < size
      modifies this`size, data
      ensures Valid() && Items() == RemoveAt(old(Items()), index)
    {
      ghost var before := Items();
      for i := index to size - 1
        invariant size == old(size) && data == old(data)
        invariant forall k | 0 <= k < index :: data[k] == old(data[k])
        invariant forall k | index <= k < i :: data[k] == old(data[k + 1])
        invariant forall k | i <= k < size :: data[k] == old(data[k])
      {
        data[i] := data[i + 1];
      }
      size := size - 1;
      assert Items() == RemoveAt(before, index);
    }

    /** Remove all the given positions, greatest first. */
    method RemoveAll(indices: seq<int>)
      requires Valid() && Distinct(indices, size) && Descending(indices)
      modifies this`size, data
      ensures Valid() && Items() == Kept(old(Items()), Elements(indices))
    {
      ghost var before := Items();
      assert indices[0..] == indices;
      for i := 0 to |indices|
        invariant Valid() && data == old(data)
        invariant forall k | i <= k < |indices| :: 0 <= indices[k] < size
        invariant Kept(Items(), Elements(indices[i..])) == Kept(before, Elements(indices))
      {
        GreatestFirst(indices, i);
        RemoveGreatest(Items(), Elements(indices[i..]), indices[i]);
        OrderedRemove(indices[i]);
      }
      assert Elements(indices[|indices|..]) == {};
      KeptNothingGone(Items());
    }

    /** Take the selected transactions out of the pool; they come back in execution order. */
    method BuildBlock<S>(m: Market<Tx, S>, committed: S, limit: u16, deadline: u64, clock: nat -> int)
      returns (selected: seq<Tx>, ghost picks: seq<int>)
      requires Valid()
      modifies this`size, data
      ensures Valid()
      ensures IsSelection(m, committed, old(Items()), picks, limit, deadline, clock)
      ensures selected == At(old(Items()), picks) && Items() == Kept(old(Items()), Elements(picks))
      ensures multiset(old(Items())) == multiset(Items()) + multiset(selected)
      // Short of the limit and before the deadline, nothing worth taking stays in the pool.
      ensures |selected| < limit && (deadline == 0 || selected == [] || clock(|selected|) < deadline) ==>
                forall i | 0 <= i < |Items()| :: m.value(Items()[i], Fold(m.design, committed, selected)) < 0.0
      // No pick is made after a reading at or past the deadline.
      ensures deadline != 0 ==> forall k | 0 < k && clock(k) >= deadline :: |selected| <= k
    {
      var pool := data[..size];
      var chosen;
      selected, chosen := Select(m, committed, pool, limit, deadline, clock);
      picks := chosen;
      var indices := new int[|chosen|](i requires 0 <= i < |chosen| => chosen[i]);
      assert indices[..] == chosen;
      SortDescending(indices);
      SortKeepsDistinct(chosen, indices[..], size);
      RemoveAll(indices[..]);
      PickingConserves(pool, chosen);
      KeptAreUnpicked(pool, chosen);
      assert forall i | 0 <= i < |Items()| :: Items()[i] in Kept(pool, Elements(chosen));
      KeptSize(pool, chosen);
    }
  }

  lemma GreatestFirst(indices: seq<int>, i: nat)
    requires i < |indices| && Descending(indices) && (forall x, y | 0 <= x < y < |indices| :: indices[x] != indices[y])
    ensures indices[i] in Elements(indices[i..]) && forall x | x in Elements(indices[i..]) :: x <= indices[i]
    ensures Elements(indices[i + 1..]) == Elements(indices[i..]) - {indices[i]}
    ensures forall k | i < k < |indices| :: indices[k] < indices[i]
  {
    assert indices[i..] == [indices[i]] + indices[i + 1..];
  }

  /** A sorted permutation of distinct indices is distinct and has the same elements. */
  lemma SortKeepsDistinct(picks: seq<int>, sorted: seq<int>, size: int)
    requires Distinct(picks, size) && multiset(sorted) == multiset(picks)
    ensures Distinct(sorted, size) && Elements(sorted) == Elements(picks)
  {
    forall x ensures x in sorted <==> x in picks {
      assert x in multiset(sorted) <==> x in sorted;
      assert x in multiset(picks) <==> x in picks;
    }
    forall i | 0 <= i < |sorted| ensures 0 <= sorted[i] < size {
      assert sorted[i] in picks;
    }
    forall i, j | 0 <= i < j < |sorted| ensures sorted[i] != sorted[j] {
      Multiplicity(picks, sorted[i]);
      Repeated(sorted, i, j);
    }
  }

  lemma {:induction false} Multiplicity(picks: seq<int>, x: int)
    requires forall i, j | 0 <= i < j < |picks| :: picks[i] != picks[j]
    ensures multiset(picks)[x] <= 1
  {
    if picks != [] {
      var n := |picks| - 1;
      Multiplicity(picks[..n], x);
      assert picks == picks[..n] + [picks[n]];
      if x == picks[n] {
        assert x !in picks[..n];
      }
    }
  }

  lemma Repeated(s: seq<int>, i: nat, j: nat)
    requires i < j < |s|
    ensures s[i] == s[j] ==> multiset(s)[s[i]] >= 2
  {
    assert s == s[..j] + [s[j]] + s[j + 1..];
    assert s[i] in s[..j];
  }
}
