/**
 * Contract of the ordered on-disk trees.  A tree is a finite map; `order` places
 * its keys on a line the way the record type's compare() does.  `findNext`
 * yields the least record at or after the cursor.
 */
module BTree {
  import opened Words

  predicate IsNext<K(==)>(keys: set<K>, order: K -> int, cursor: int, k: K) {
    k in keys && cursor <= order(k) && forall j | j in keys && cursor <= order(j) :: order(k) <= order(j)
  }

  lemma {:induction false} NextExists<K>(keys: set<K>, order: K -> int, cursor: int, some: K)
    requires some in keys && cursor <= order(some)
    ensures exists k | k in keys :: IsNext(keys, order, cursor, k)
    decreases keys
  {
    var rest := keys - {some};
    if j :| j in keys && cursor <= order(j) < order(some) {
      assert j in rest;
      NextExists(rest, order, cursor, j);
      var k :| k in rest && IsNext(rest, order, cursor, k);
      assert IsNext(keys, order, cursor, k) by {
        assert order(k) <= order(j);
        assert forall i | i in keys && cursor <= order(i) :: i == some || i in rest;
      }
    } else {
      assert IsNext(keys, order, cursor, some);
    }
  }

  function FindNext<K(==)>(keys: set<K>, order: K -> int, cursor: int): (r: Option<K>)
    requires forall a, b | a in keys && b in keys && order(a) == order(b) :: a == b
    ensures r.Some? ==> IsNext(keys, order, cursor, r.value)
    ensures r.None? ==> forall k | k in keys :: order(k) < cursor
  {
    if exists k | k in keys :: cursor <= order(k) then
      assert exists k | k in keys :: IsNext(keys, order, cursor, k) by {
        var some :| some in keys && cursor <= order(some);
        NextExists(keys, order, cursor, some);
      }
      var least :| least in keys && IsNext(keys, order, cursor, least);
      Some(least)
    else None
  }
}
