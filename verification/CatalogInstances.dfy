/**
 * Runs of the catalog that show what its comments promise and its code does not:
 * an id given out twice, and a recorded file that a scan does not list.
 */
module CatalogInstances {
  import opened Words
  import opened CatalogFile
  import opened CatalogProtocol
  import opened CatalogExclusive
  import W = CatalogWrites
  import Toc

  function Last(r: Run): State
    requires r.states != []
  {
    r.states[|r.states| - 1]
  }

  lemma Extend(r: Run, step: Step) returns (r': Run)
    requires IsRun(r) && Enabled(Last(r), step)
    ensures IsRun(r') && r'.states[0] == r.states[0] && Last(r') == Apply(Last(r), step)
    ensures r.states <= r'.states && r'.steps == r.steps + [step]
  {
    r' := Run(r.states + [Apply(Last(r), step)], r.steps + [step]);
    forall i | 0 <= i < |r'.steps| ensures Takes(r', i) {
      assert i < |r.steps| ==> Takes(r, i);
    }
  }

  /** After `tasks` writes, all to new files within the first millisecond. */
  ghost predicate Burst(s: State, lastFileId: int, cache: map<int, int>, tasks: map<int, Task>) {
    && s.clock == 1 && s.caller.Idle? && s.handles == map[]
    && s.lastFileId == lastFileId && s.cache == cache && s.tasks == tasks
    && s.toc == map[] && s.scans == map[] && s.files.Keys == cache.Keys
    && forall f, id | f in s.files && id in s.files[f].writers :: id in tasks
  }

  /** One more write to a new file: choose and submit. */
  lemma WriteToNewFile(r: Run, g: Segment, accessor: int, id: int, lastFileId: int, cache: map<int, int>, tasks: map<int, Task>) returns (r': Run)
    requires IsRun(r) && Burst(Last(r), lastFileId, cache, tasks) && id !in tasks
    requires MayOpen(Last(r), NewFileId(1, lastFileId), accessor, None)
    ensures IsRun(r') && r'.states[0] == r.states[0]
    ensures var f := NewFileId(1, lastFileId);
            && Burst(Last(r'), f, cache[f := accessor], tasks[id := Task(g, f, accessor, Toc.FRESH_ROW, Creating)])
            && (f !in cache ==> Last(r').files[f] == W.File(map[], map[], map[id := W.Writer(g, W.Started)], {}))
  {
    var f := NewFileId(1, lastFileId);
    var chosen := Extend(r, Choose(g, New, accessor, None));
    assert Last(chosen).cache == cache[f := accessor];
    r' := Extend(chosen, Submit(id));
  }

  /** Three files allocated within one millisecond: the third repeats the second's id while it is being written. */
  lemma RepeatedIdIsReachable(g: Segment, s: State) returns (r: Run)
    requires Init(s) && s.clock == 1
    ensures IsRun(r) && r.states[0] == s && OnFile(Last(r), 2, 1) && OnFile(Last(r), 2, 2)
  {
    var start := Run([s], []);
    var one := WriteToNewFile(start, g, 10, 0, 0, map[], map[]);
    var two := WriteToNewFile(one, g, 11, 1, 1, map[1 := 10], map[0 := Task(g, 1, 10, Toc.FRESH_ROW, Creating)]);
    r := WriteToNewFile(two, g, 11, 2, 2, map[1 := 10, 2 := 11],
                        map[0 := Task(g, 1, 10, Toc.FRESH_ROW, Creating), 1 := Task(g, 2, 11, Toc.FRESH_ROW, Creating)]);
  }

  /** Extend a run by two steps. */
  lemma ExtendTwice(r: Run, first: Step, second: Step) returns (r': Run)
    requires IsRun(r) && Enabled(Last(r), first) && Enabled(Apply(Last(r), first), second)
    ensures IsRun(r') && r'.states[0] == r.states[0] && Last(r') == Apply(Apply(Last(r), first), second)
  {
    r' := Extend(r, first);
    r' := Extend(r', second);
  }

  /** Task `id` does the rest of its write: allocate, write, insert and record. */
  lemma FinishWrite(r: Run, id: int, g: Segment, f: int) returns (r': Run)
    requires IsRun(r) && id in Last(r).tasks && Last(r).tasks[id].segment == g && Last(r).tasks[id].file == f
    requires Last(r).tasks[id].progress.Creating? && f in Last(r).files && g.content == []
    requires Last(r).files[f] == W.File(map[], map[], map[id := W.Writer(g, W.Started)], {})
    requires Last(r).toc == map[]
    ensures IsRun(r') && r'.states[0] == r.states[0] && Last(r').clock == Last(r).clock && Last(r').scans == Last(r).scans
    ensures OnFile(Last(r'), f, id) && Last(r').tasks[id].progress.Recorded? && Last(r').tasks[id].segment == g
    ensures Last(r').toc.Keys == {f}
  {
    var created := ExtendTwice(r, Create(id, W.Allocate(4096)), Create(id, W.Insert(false)));
    assert Last(created).toc == map[] && Last(created).scans == Last(r).scans && Last(created).clock == Last(r).clock;
    r' := Extend(created, Record(id, 0));
  }

  /** A file one millisecond ahead of the clock is recorded, and a scan begun after that ends without listing it. */
  lemma UnreachedFileIsOmitted(g: Segment, s: State) returns (r: Run, j: nat)
    requires Init(s) && s.clock == 1 && g.content == []
    ensures IsRun(r) && r.states[0] == s && j < |r.steps| && r.steps[j] == BeginScan(0, g.indexId, g.start, g.end)
    ensures OnFile(r.states[j], 2, 1) && r.states[j].tasks[1].segment == g && IsRecorded(r.states[j].tasks[1])
    ensures 0 in Last(r).scans && Last(r).scans[0].finished && 2 !in Last(r).scans[0].out
  {
    var start := Run([s], []);
    var one := WriteToNewFile(start, g, 10, 0, 0, map[], map[]);
    var two := WriteToNewFile(one, g, 11, 1, 1, map[1 := 10], map[0 := Task(g, 1, 10, Toc.FRESH_ROW, Creating)]);
    var done := FinishWrite(two, 1, g, 2);
    j := |done.steps|;
    r := ScanMisses(done, g);
  }

  lemma ScanMisses(r: Run, g: Segment) returns (r': Run)
    requires IsRun(r) && Last(r).clock == 1 && Last(r).toc.Keys == {2} && Last(r).scans == map[]
    ensures IsRun(r') && |r'.steps| == |r.steps| + 2 && r.states <= r'.states
    ensures r'.steps[|r.steps|] == BeginScan(0, g.indexId, g.start, g.end)
    ensures 0 in Last(r').scans && Last(r').scans[0].finished && 2 !in Last(r').scans[0].out
  {
    var begun := Extend(r, BeginScan(0, g.indexId, g.start, g.end));
    assert Last(begun).toc.Keys == {2} && 0 in Last(begun).scans && Last(begun).scans[0].cursor == 1;
    r' := Extend(begun, ScanNext(0));
  }
}
