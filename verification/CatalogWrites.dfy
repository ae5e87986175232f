/**
 * `createEntry` as separate steps: allocate a region (append lock), write the
 * payload in any number of chunks (shared lock), publish the index entry
 * (exclusive locks).  Any number of calls and of read sessions overlap.
 */
module CatalogWrites {
  import opened Words
  import opened CatalogFile

  datatype Phase = Started | Writing(offset: nat, done: nat) | Indexed(offset: nat)

  datatype Writer = Writer(segment: Segment, phase: Phase)

  /** `bytes` holds payload positions only; free-space and tree nodes live elsewhere in the file. */
  datatype File = File(bytes: map<int, byte>, index: map<Key, Entry>, writers: map<int, Writer>, readers: set<int>)

  const EMPTY_FILE := File(map[], map[], map[], {})

  /**
   * What `insert` does to an entry already filed under the same key is not
   * visible; `Insert(keep)` allows both keeping and replacing it.
   */
  datatype Action =
    | Begin(segment: Segment)
    | Allocate(offset: nat)
    | Pwrite(upTo: nat)
    | Insert(keep: bool)
    | LockRead
    | UnlockRead

  predicate Apart(offset1: nat, length1: nat, offset2: nat, length2: nat) {
    length1 == 0 || length2 == 0 || offset1 + length1 <= offset2 || offset2 + length2 <= offset1
  }

  predicate Inside(offset: nat, length: nat, p: int) { offset <= p < offset + length }

  /** Regions are apart exactly when they share no position. */
  lemma ApartMeans(offset1: nat, length1: nat, offset2: nat, length2: nat)
    ensures Apart(offset1, length1, offset2, length2) <==>
            !exists p :: Inside(offset1, length1, p) && Inside(offset2, length2, p)
  {
    if !Apart(offset1, length1, offset2, length2) {
      var p := Max(offset1, offset2);
      assert Inside(offset1, length1, p) && Inside(offset2, length2, p);
    }
  }

  /** The free-space contract: a new region avoids every region handed out before. */
  predicate Free(f: File, offset: nat, length: nat) {
    forall id | id in f.writers && !f.writers[id].phase.Started? ::
      Apart(offset, length, f.writers[id].phase.offset, |f.writers[id].segment.content|)
  }

  predicate Enabled(f: File, id: int, act: Action) {
    match act
    case Begin(_) => id !in f.writers
    case Allocate(offset) => id in f.writers && f.writers[id].phase.Started? && Free(f, offset, |f.writers[id].segment.content|)
    case Pwrite(upTo) =>
      id in f.writers && f.writers[id].phase.Writing? && f.writers[id].phase.done < upTo <= |f.writers[id].segment.content|
    case Insert(_) =>
      && id in f.writers && f.writers[id].phase.Writing?
      && f.writers[id].phase.done == |f.writers[id].segment.content|
      && f.readers == {}
    case LockRead => id !in f.readers
    case UnlockRead => id in f.readers
  }

  function ByteFor(content: seq<byte>, offset: nat, p: int): byte
    requires offset <= p < offset + |content|
  {
    content[p - offset]
  }

  function Stored(bytes: map<int, byte>, offset: nat, content: seq<byte>, from: nat, upTo: nat): map<int, byte>
    requires from <= upTo <= |content|
  {
    bytes + map p | offset + from <= p < offset + upTo :: ByteFor(content, offset, p)
  }

  function Apply(f: File, id: int, act: Action): File
    requires Enabled(f, id, act)
  {
    match act
    case Begin(g) => f.(writers := f.writers[id := Writer(g, Started)])
    case Allocate(offset) => f.(writers := f.writers[id := f.writers[id].(phase := Writing(offset, 0))])
    case Pwrite(upTo) =>
      var w := f.writers[id];
      f.(bytes := Stored(f.bytes, w.phase.offset, w.segment.content, w.phase.done, upTo),
         writers := f.writers[id := w.(phase := Writing(w.phase.offset, upTo))])
    case Insert(keep) =>
      var w := f.writers[id];
      var k := SegmentKey(w.segment);
      f.(index := if keep && k in f.index then f.index else f.index[k := EntryOf(w.segment, w.phase.offset)],
         writers := f.writers[id := w.(phase := Indexed(w.phase.offset))])
    case LockRead => f.(readers := f.readers + {id})
    case UnlockRead => f.(readers := f.readers - {id})
  }

  // ---- Invariant -------------------------------------------------------------

  /** The first `upTo` bytes of `content` are in place at `offset`. */
  predicate Holds(bytes: map<int, byte>, offset: nat, content: seq<byte>, upTo: nat)
    requires upTo <= |content|
  {
    forall p | offset <= p < offset + upTo :: p in bytes && bytes[p] == content[p - offset]
  }

  ghost predicate RegionsApart(f: File) {
    forall a, b | a in f.writers && b in f.writers && a != b && !f.writers[a].phase.Started? && !f.writers[b].phase.Started? ::
      Apart(f.writers[a].phase.offset, |f.writers[a].segment.content|, f.writers[b].phase.offset, |f.writers[b].segment.content|)
  }

  ghost predicate WriterOk(f: File, w: Writer) {
    match w.phase
    case Started => true
    case Writing(offset, done) => done <= |w.segment.content| && Holds(f.bytes, offset, w.segment.content, done)
    case Indexed(offset) =>
      Holds(f.bytes, offset, w.segment.content, |w.segment.content|) && SegmentKey(w.segment) in f.index
  }

  /** `id` is a completed call whose own entry is `e`. */
  predicate Published(f: File, e: Entry, id: int) {
    && id in f.writers && f.writers[id].phase.Indexed?
    && e == EntryOf(f.writers[id].segment, f.writers[id].phase.offset)
  }

  ghost predicate Inv(f: File) {
    && RegionsApart(f)
    && (forall id | id in f.writers :: WriterOk(f, f.writers[id]))
    && IndexOk(f.index)
    && (forall k | k in f.index :: exists id :: Published(f, f.index[k], id))
  }

  lemma StoredKeepsOthers(bytes: map<int, byte>, offset: nat, content: seq<byte>, from: nat, upTo: nat,
                          offset2: nat, content2: seq<byte>, upTo2: nat)
    requires from <= upTo <= |content| && upTo2 <= |content2|
    requires Apart(offset, |content|, offset2, |content2|)
    requires Holds(bytes, offset2, content2, upTo2)
    ensures Holds(Stored(bytes, offset, content, from, upTo), offset2, content2, upTo2)
  {
  }

  lemma StoredExtends(bytes: map<int, byte>, offset: nat, content: seq<byte>, from: nat, upTo: nat)
    requires from <= upTo <= |content|
    requires Holds(bytes, offset, content, from)
    ensures Holds(Stored(bytes, offset, content, from, upTo), offset, content, upTo)
  {
  }

  lemma PwriteKeepsInv(f: File, id: int, upTo: nat)
    requires Inv(f) && Enabled(f, id, Pwrite(upTo))
    ensures Inv(Apply(f, id, Pwrite(upTo)))
  {
    var f' := Apply(f, id, Pwrite(upTo));
    var w := f.writers[id];
    StoredExtends(f.bytes, w.phase.offset, w.segment.content, w.phase.done, upTo);
    forall other | other in f'.writers ensures WriterOk(f', f'.writers[other]) {
      if other != id && !f.writers[other].phase.Started? {
        var v := f.writers[other];
        StoredKeepsOthers(f.bytes, w.phase.offset, w.segment.content, w.phase.done, upTo, v.phase.offset, v.segment.content,
                          if v.phase.Indexed? then |v.segment.content| else v.phase.done);
      }
    }
    PublishersStay(f, f');
  }

  lemma PublishersStay(f: File, f': File)
    requires forall k | k in f.index :: exists id :: Published(f, f.index[k], id)
    requires forall id | id in f.writers && f.writers[id].phase.Indexed? :: id in f'.writers && f'.writers[id] == f.writers[id]
    ensures forall k | k in f.index :: exists id :: Published(f', f.index[k], id)
  {
    forall k | k in f.index ensures exists id :: Published(f', f.index[k], id) {
      var id :| Published(f, f.index[k], id);
      assert Published(f', f.index[k], id);
    }
  }

  lemma InsertKeepsWriters(f: File, id: int, keep: bool)
    requires Inv(f) && Enabled(f, id, Insert(keep))
    ensures RegionsApart(Apply(f, id, Insert(keep)))
    ensures forall other | other in f.writers :: WriterOk(Apply(f, id, Insert(keep)), Apply(f, id, Insert(keep)).writers[other])
  {
    var f' := Apply(f, id, Insert(keep));
    assert forall k | k in f.index :: k in f'.index;
    assert WriterOk(f, f.writers[id]);
    forall other | other in f'.writers ensures WriterOk(f', f'.writers[other]) {
      assert WriterOk(f, f.writers[other]);
    }
  }

  lemma InsertKeepsIndex(f: File, id: int, keep: bool)
    requires Inv(f) && Enabled(f, id, Insert(keep))
    ensures IndexOk(Apply(f, id, Insert(keep)).index)
    ensures forall k | k in Apply(f, id, Insert(keep)).index ::
              exists p :: Published(Apply(f, id, Insert(keep)), Apply(f, id, Insert(keep)).index[k], p)
  {
    var f' := Apply(f, id, Insert(keep));
    PublishersStay(f, f');
    forall k | k in f'.index ensures exists p :: Published(f', f'.index[k], p) {
      if k in f.index && f'.index[k] == f.index[k] {
      } else {
        assert Published(f', f'.index[k], id);
      }
    }
  }

  /** Every step of every overlapping call keeps the file sound. */
  lemma StepKeepsInv(f: File, id: int, act: Action)
    requires Inv(f) && Enabled(f, id, act)
    ensures Inv(Apply(f, id, act))
  {
    match act
    case Pwrite(upTo) => PwriteKeepsInv(f, id, upTo);
    case Insert(keep) => InsertKeepsWriters(f, id, keep); InsertKeepsIndex(f, id, keep);
    case LockRead => PublishersStay(f, Apply(f, id, act));
    case UnlockRead => PublishersStay(f, Apply(f, id, act));
    case _ => PlanningKeepsInv(f, id, act);
  }

  /** Starting a call and giving it a region touch neither bytes nor index. */
  lemma PlanningKeepsInv(f: File, id: int, act: Action)
    requires Inv(f) && Enabled(f, id, act) && (act.Begin? || act.Allocate?)
    ensures Inv(Apply(f, id, act))
  {
    var f' := Apply(f, id, act);
    PublishersStay(f, f');
    forall other | other in f'.writers ensures WriterOk(f', f'.writers[other]) {
      if other != id {
        assert WriterOk(f, f.writers[other]);
      }
    }
  }

  // ---- What readers see -----------------------------------------------------------

  /** The bytes an index entry points at, read through the file. */
  function Region(f: File, e: Entry): seq<byte>
    requires forall p | e.offset <= p < e.offset + e.length :: p in f.bytes
  {
    seq(e.length, i requires 0 <= i < e.length => f.bytes[e.offset + i])
  }

  /** Every visible entry points at the complete payload of a finished call with that key. */
  lemma VisibleEntriesAreComplete(f: File, k: Key) returns (id: int)
    requires Inv(f) && k in f.index
    ensures Published(f, f.index[k], id)
    ensures forall p | f.index[k].offset <= p < f.index[k].offset + f.index[k].length :: p in f.bytes
    ensures Region(f, f.index[k]) == f.writers[id].segment.content
    ensures SegmentKey(f.writers[id].segment) == k
  {
    id :| Published(f, f.index[k], id);
    assert WriterOk(f, f.writers[id]);
    assert Holds(f.bytes, f.index[k].offset, f.writers[id].segment.content, |f.writers[id].segment.content|);
  }

  /** While a read session is open, other calls change neither the index nor any byte it points at. */
  lemma ReadersSeeAStableFile(f: File, id: int, act: Action, k: Key, p: int)
    requires Inv(f) && Enabled(f, id, act) && f.readers != {}
    requires k in f.index && f.index[k].offset <= p < f.index[k].offset + f.index[k].length
    ensures Apply(f, id, act).index == f.index
    ensures p in f.bytes && p in Apply(f, id, act).bytes && Apply(f, id, act).bytes[p] == f.bytes[p]
  {
    var owner := VisibleEntriesAreComplete(f, k);
    if act.Pwrite? {
      assert owner != id;
      assert Apart(f.writers[id].phase.offset, |f.writers[id].segment.content|, f.writers[owner].phase.offset, |f.writers[owner].segment.content|);
    }
  }

  /** A finished call whose key nobody else used is what the index holds under that key. */
  lemma SoleWriterIsIndexed(f: File, id: int)
    requires Inv(f) && id in f.writers && f.writers[id].phase.Indexed?
    requires forall other | other in f.writers && other != id :: SegmentKey(f.writers[other].segment) != SegmentKey(f.writers[id].segment)
    ensures SegmentKey(f.writers[id].segment) in f.index
    ensures f.index[SegmentKey(f.writers[id].segment)] == EntryOf(f.writers[id].segment, f.writers[id].phase.offset)
  {
    var k := SegmentKey(f.writers[id].segment);
    assert WriterOk(f, f.writers[id]);
    var p :| Published(f, f.index[k], p);
  }

  /** Index keys and finished calls are never lost. */
  lemma StepsOnlyAdd(f: File, id: int, act: Action)
    requires Enabled(f, id, act)
    ensures f.index.Keys <= Apply(f, id, act).index.Keys
    ensures forall w | w in f.writers :: w in Apply(f, id, act).writers && Apply(f, id, act).writers[w].segment == f.writers[w].segment
    ensures forall w | w in f.writers && f.writers[w].phase.Indexed? :: Apply(f, id, act).writers[w] == f.writers[w]
  {
  }
}
