/**
 * A run in which an index answer is wrong: the second block is sealed while the
 * first one's segment is still being written, so its totals leave the first out.
 */
module SumInstances {
  import opened Words
  import opened Codec
  import opened CatalogProtocol
  import opened SumIndex
  import opened SumChain

  function Last(r: ChainRun): Chain
    requires r.states != []
  {
    r.states[|r.states| - 1]
  }

  lemma Extend(r: ChainRun, step: ChainStep) returns (r': ChainRun)
    requires IsChainRun(r) && RunViewsStart(r) && ChainEnabled(Last(r), step) && ViewsStart(ChainApply(Last(r), step).cat)
    ensures IsChainRun(r') && RunViewsStart(r') && r'.states[0] == r.states[0] && Last(r') == ChainApply(Last(r), step)
  {
    r' := ChainRun(r.states + [ChainApply(Last(r), step)], r.steps + [step]);
    forall i | 0 <= i < |r'.steps| ensures Steps(r', i) {
      if i < |r.steps| {
        assert Steps(r, i);
      }
    }
  }

  /** Nothing has been recorded or indexed yet; `cache` lists the files and `tasks` the writes in flight. */
  ghost predicate Early(s: State, lastFileId: int, cache: map<int, int>, tasks: map<int, Task>) {
    && s.clock == 1 && s.toc == map[] && s.handles == map[]
    && s.lastFileId == lastFileId && s.cache == cache && s.tasks == tasks
    && forall f | f in s.files :: s.files[f].index == map[] && s.files[f].writers.Keys <= tasks.Keys
  }

  lemma OneTurnEnds(s: State, k: int)
    requires s.toc == map[] && Enabled(s, ScanNext(k))
    ensures Apply(s, ScanNext(k)) == s.(scans := s.scans[k := s.scans[k].(finished := true)])
  {
  }

  lemma ReadBegins(r: ChainRun, k: int, lastFileId: int, cache: map<int, int>, tasks: map<int, Task>) returns (r': ChainRun)
    requires IsChainRun(r) && RunViewsStart(r) && Early(Last(r).cat, lastFileId, cache, tasks)
    requires k !in Last(r).readers && k !in Last(r).cat.scans
    ensures IsChainRun(r') && RunViewsStart(r') && r'.states[0] == r.states[0]
    ensures Early(Last(r').cat, lastFileId, cache, tasks) && Last(r').blocks == Last(r).blocks && Last(r').cat.caller == Last(r).cat.caller
    ensures k in Last(r').cat.scans && !Last(r').cat.scans[k].finished && Last(r').cat.scans[k].out == []
    ensures k in Last(r').readers && Last(r').readers[k].Scanning?
    ensures Last(r').readers.Keys == Last(r).readers.Keys + {k} && Last(r').cat.scans.Keys == Last(r).cat.scans.Keys + {k}
  {
    r' := Extend(r, StartRead(k));
  }

  /** A scan of the still empty table lists nothing. */
  lemma ScanNothing(r: ChainRun, k: int, lastFileId: int, cache: map<int, int>, tasks: map<int, Task>) returns (r': ChainRun)
    requires IsChainRun(r) && RunViewsStart(r) && Early(Last(r).cat, lastFileId, cache, tasks)
    requires k !in Last(r).readers && k !in Last(r).cat.scans
    ensures IsChainRun(r') && RunViewsStart(r') && r'.states[0] == r.states[0]
    ensures Early(Last(r').cat, lastFileId, cache, tasks) && Last(r').blocks == Last(r).blocks && Last(r').cat.caller == Last(r).cat.caller
    ensures k in Last(r').cat.scans && Last(r').cat.scans[k].finished && Last(r').cat.scans[k].out == []
    ensures k in Last(r').readers && Last(r').readers[k].Scanning?
    ensures Last(r').readers.Keys == Last(r).readers.Keys + {k} && Last(r').cat.scans.Keys == Last(r).cat.scans.Keys + {k}
  {
    var begun := ReadBegins(r, k, lastFileId, cache, tasks);
    OneTurnEnds(Last(begun).cat, k);
    r' := Extend(begun, Background(ScanNext(k)));
  }

  /** A whole read of the still empty index. */
  lemma ReadNothing(r: ChainRun, k: int, lastFileId: int, cache: map<int, int>, tasks: map<int, Task>) returns (r': ChainRun)
    requires IsChainRun(r) && RunViewsStart(r) && Early(Last(r).cat, lastFileId, cache, tasks)
    requires k !in Last(r).readers && k !in Last(r).cat.scans
    ensures IsChainRun(r') && RunViewsStart(r') && r'.states[0] == r.states[0]
    ensures Early(Last(r').cat, lastFileId, cache, tasks) && Last(r').blocks == Last(r).blocks && Last(r').cat.caller == Last(r).cat.caller
    ensures Answered(Last(r'), k, NOTHING)
    ensures Last(r').readers.Keys == Last(r).readers.Keys + {k} && Last(r').cat.scans.Keys == Last(r).cat.scans.Keys + {k}
  {
    var scanned := ScanNothing(r, k, lastFileId, cache, tasks);
    r' := Extend(scanned, StartWalks(k));
  }

  /** Add one more block on what reader k answered and choose a new file for its segment. */
  lemma AddOnNothing(r: ChainRun, k: int, tx: TestTx, accessor: int, lastFileId: int, cache: map<int, int>, tasks: map<int, Task>)
    returns (r': ChainRun)
    requires IsChainRun(r) && RunViewsStart(r) && Early(Last(r).cat, lastFileId, cache, tasks) && Last(r).cat.caller.Idle?
    requires Answered(Last(r), k, NOTHING) && |Last(r).blocks| + 1 < U64_MAX
    requires MayOpen(Last(r).cat, NewFileId(1, lastFileId), accessor, None)
    ensures IsChainRun(r') && RunViewsStart(r') && r'.states[0] == r.states[0]
    ensures Last(r').blocks == Last(r).blocks + [SealedBlock([tx], 0, 0)]
    ensures Last(r').readers == Last(r).readers && Last(r').cat.scans == Last(r).cat.scans
    ensures var f, s := NewFileId(1, lastFileId), Last(r').cat;
            && s.caller.Chosen? && s.caller.file == f && s.caller.accessor == accessor && f in s.files && s.tasks == tasks
            && (f !in cache ==> Early(s, f, cache[f := accessor], tasks))
            && forall g | g in s.files :: s.files[g].index == map[] && s.files[g].writers.Keys <= tasks.Keys
  {
    r' := Extend(r, AddBlock([tx], k, k, NOTHING, NOTHING, New, accessor, None));
  }

  /** Seal one more block, into a new file, on what reader k answered, and hand it to a task. */
  lemma SealOnNothing(r: ChainRun, k: int, tx: TestTx, accessor: int, id: int, lastFileId: int, cache: map<int, int>, tasks: map<int, Task>)
    returns (r': ChainRun)
    requires IsChainRun(r) && RunViewsStart(r) && Early(Last(r).cat, lastFileId, cache, tasks) && Last(r).cat.caller.Idle?
    requires Answered(Last(r), k, NOTHING) && |Last(r).blocks| + 1 < U64_MAX
    requires MayOpen(Last(r).cat, NewFileId(1, lastFileId), accessor, None) && id !in tasks
    ensures IsChainRun(r') && RunViewsStart(r') && r'.states[0] == r.states[0]
    ensures Last(r').blocks == Last(r).blocks + [SealedBlock([tx], 0, 0)]
    ensures Last(r').cat.caller.Idle? && Last(r').readers == Last(r).readers && Last(r').cat.scans == Last(r).cat.scans
    ensures var f := NewFileId(1, lastFileId);
            && id in Last(r').cat.tasks && Last(r').cat.tasks[id].accessor == accessor
            && (f !in cache ==>
                  Early(Last(r').cat, f, cache[f := accessor], tasks[id := Last(r').cat.tasks[id]]))
  {
    var chosen := AddOnNothing(r, k, tx, accessor, lastFileId, cache, tasks);
    r' := Extend(chosen, Background(Submit(id)));
  }

  lemma TotalsLeaveOutTheFirst(a: TestTx, b: TestTx)
    ensures var blocks := [SealedBlock([a], 0, 0), SealedBlock([b], 0, 0)];
            BlocksOk(blocks) && !TellsRight(blocks, 2)
  {
    var blocks := [SealedBlock([a], 0, 0), SealedBlock([b], 0, 0)];
    assert BlocksOk(blocks);
    TotalsAreFlat(blocks, 2);
    assert Total(Sizes(blocks), 2) == Total(Sizes(blocks), 1) + 1 == Total(Sizes(blocks), 0) + 2;
    assert Told(Sizes(blocks), CountBases(blocks), 2) == Wrap(Told(Sizes(blocks), CountBases(blocks), 0) + 1);
  }

  /** Both reads of the second seal run before the first block's segment is recorded: its totals are wrong. */
  lemma StaleSealIsReachable(a: TestTx, b: TestTx, s: State) returns (r: ChainRun)
    requires Init(s) && s.clock == 1
    ensures IsChainRun(r) && RunViewsStart(r) && r.states[0].cat == s && Txs(Last(r).blocks) == [[a], [b]]
    ensures BlocksOk(Last(r).blocks) && !TellsRight(Last(r).blocks, 2)
  {
    var start := ChainRun([Chain(s, [], map[])], []);
    var one := ReadNothing(start, 0, 0, map[], map[]);
    var two := SealOnNothing(one, 0, a, 10, 0, 0, map[], map[]);
    var t := Last(two).cat.tasks[0];
    var three := ReadNothing(two, 1, 1, map[1 := 10], map[0 := t]);
    r := SealOnNothing(three, 1, b, 11, 1, 1, map[1 := 10], map[0 := t]);
    TotalsLeaveOutTheFirst(a, b);
    assert Last(r).blocks == [SealedBlock([a], 0, 0), SealedBlock([b], 0, 0)];
  }
}
