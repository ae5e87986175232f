/**
 * The catalog as a step system.  One caller thread chooses a file for each
 * segment and submits a background task; any number of tasks, table scans, read
 * sessions and client file handles interleave.  `Restart` ends one process and
 * begins the next on the same directory, so a run may span several processes.
 */
module CatalogProtocol {
  import opened Words
  import opened CatalogFile
  import W = CatalogWrites
  import BTree
  import Toc

  /** Progress of a background task; `Creating` covers every phase of createEntry. */
  datatype Progress = Creating | Created | Recorded | Closed | Failed

  datatype Task = Task(segment: Segment, file: int, accessor: int, captured: Toc.Row, progress: Progress)

  /** The caller between choosing a file and marking it busy. */
  datatype Caller = Idle | Chosen(segment: Segment, file: int, accessor: int, captured: Toc.Row)

  datatype Handle = Handle(file: int, accessor: int)

  /** `began` remembers which files at or below `now` matched when the scan began. */
  datatype Scan = Scan(bits: set<int>, lo: int, hi: int, now: int, cursor: int, out: seq<int>, finished: bool, began: set<int>)

  /**
   * `inherited` bounds the file ids left by earlier processes.  `cache` maps a
   * file to its cached accessor; an accessor is named by its address, which may
   * be reused once nothing refers to it.  `hash` is the bloom hash in use; nothing
   * below depends on which one it is (Toc.BloomBits is the library's).
   */
  datatype State = State(
    hash: int -> set<int>,
    clock: int,
    lastFileId: int,
    inherited: int,
    toc: map<int, Toc.Row>,
    files: map<int, W.File>,
    cache: map<int, int>,
    busy: set<int>,
    caller: Caller,
    tasks: map<int, Task>,
    handles: map<int, Handle>,
    scans: map<int, Scan>)

  /** An existing file from the table, with whatever copy of its row was read; or a new file. */
  datatype Choice = Existing(file: int, copy: Toc.Row) | New

  datatype Step =
    | Tick(now: int)
    | Choose(segment: Segment, choice: Choice, accessor: int, evict: Option<int>)
    | Submit(task: int)
    | Create(task: int, act: W.Action)
    | Record(task: int, totalBytes: int)
    | Close(task: int)
    | Abort(task: int)
    | Open(handle: int, file: int, accessor: int, evict: Option<int>)
    | Drop(handle: int)
    | LockRead(file: int, reader: int)
    | UnlockRead(file: int, reader: int)
    | BeginScan(scan: int, indexId: int, lo: int, hi: int)
    | ScanNext(scan: int)
    | Restart(bound: int)

  predicate InFlight(t: Task) { t.progress.Creating? || t.progress.Created? || t.progress.Recorded? }

  predicate IsRecorded(t: Task) { t.progress.Recorded? || t.progress.Closed? }

  /** Some task, client or the caller still holds this accessor. */
  predicate Held(s: State, accessor: int) {
    || (exists id | id in s.tasks :: InFlight(s.tasks[id]) && s.tasks[id].accessor == accessor)
    || (exists h | h in s.handles :: s.handles[h].accessor == accessor)
    || (s.caller.Chosen? && s.caller.accessor == accessor)
  }

  // ---- File cache contract -------------------------------------------------------

  /** What one `open` may do: reuse the cached accessor, or build one and evict at most one idle entry. */
  predicate MayOpen(s: State, file: int, accessor: int, evict: Option<int>) {
    if file in s.cache then accessor == s.cache[file] && evict.None?
    else
      && accessor !in s.cache.Values && !Held(s, accessor)
      && (evict.Some? ==> evict.value in s.cache && !Held(s, s.cache[evict.value]))
  }

  function Opened(s: State, file: int, accessor: int, evict: Option<int>): map<int, int> {
    if file in s.cache then s.cache
    else (if evict.Some? then s.cache - {evict.value} else s.cache)[file := accessor]
  }

  // ---- New file ids ------------------------------------------------------------

  function NewFileId(clock: int, lastFileId: int): int
    requires clock < U64_MAX
  {
    if clock <= lastFileId then clock + 1 else clock
  }

  // ---- Steps ------------------------------------------------------------------

  predicate Enabled(s: State, step: Step) {
    match step
    case Tick(now) => s.clock <= now < U64_MAX
    case Choose(segment, choice, accessor, evict) =>
      && s.caller.Idle?
      && (match choice
          case Existing(f, _) => f in s.toc && f in s.files && MayOpen(s, f, accessor, evict) && accessor !in s.busy
          case New => s.clock < U64_MAX && MayOpen(s, NewFileId(s.clock, s.lastFileId), accessor, evict))
    case Submit(id) => s.caller.Chosen? && id !in s.tasks && s.caller.file in s.files && id !in s.files[s.caller.file].writers
    case Create(id, act) =>
      && id in s.tasks && s.tasks[id].progress.Creating? && s.tasks[id].file in s.files
      && (act.Allocate? || act.Pwrite? || act.Insert?) && W.Enabled(s.files[s.tasks[id].file], id, act)
    case Record(id, _) => id in s.tasks && s.tasks[id].progress.Created?
    case Close(id) => id in s.tasks && s.tasks[id].progress.Recorded?
    case Abort(id) => id in s.tasks && (s.tasks[id].progress.Creating? || s.tasks[id].progress.Created?)
    case Open(h, f, accessor, evict) => h !in s.handles && f in s.files && MayOpen(s, f, accessor, evict)
    case Drop(h) => h in s.handles
    case LockRead(f, r) => f in s.files && W.Enabled(s.files[f], r, W.LockRead)
    case UnlockRead(f, r) => f in s.files && W.Enabled(s.files[f], r, W.UnlockRead)
    case BeginScan(k, _, _, _) => k !in s.scans
    case ScanNext(k) => k in s.scans && !s.scans[k].finished
    case Restart(bound) =>
      && s.caller.Idle? && (forall id | id in s.tasks :: !InFlight(s.tasks[id]))
      && (forall f | f in s.files :: f <= bound && s.files[f].readers == {})
  }

  function Recording(s: State, id: int, totalBytes: int): Toc.Row
    requires id in s.tasks
  {
    var t := s.tasks[id];
    var latest := if t.file in s.toc then s.toc[t.file] else t.captured;
    Toc.Absorb(latest, s.hash(t.segment.indexId), t.segment.start, t.segment.end, totalBytes)
  }

  function Scanned(toc: map<int, Toc.Row>, k: Scan): Scan {
    match BTree.FindNext(toc.Keys, Toc.Order, Toc.Order(k.cursor))
    case None => k.(finished := true)
    case Some(f) =>
      k.(out := if Toc.Matches(toc[f], k.bits, k.lo, k.hi) then k.out + [f] else k.out, cursor := Toc.Before(f))
  }

  function ChosenFile(s: State, choice: Choice): int
    requires choice.New? ==> s.clock < U64_MAX
  {
    match choice case Existing(f, _) => f case New => NewFileId(s.clock, s.lastFileId)
  }

  function Apply(s: State, step: Step): State
    requires Enabled(s, step)
  {
    match step
    case Tick(now) => s.(clock := now)
    case Choose(segment, choice, accessor, evict) =>
      var f := ChosenFile(s, choice);
      s.(cache := Opened(s, f, accessor, evict),
         lastFileId := if choice.New? then f else s.lastFileId,
         files := if f in s.files then s.files else s.files[f := W.EMPTY_FILE],
         caller := Chosen(segment, f, accessor, if choice.New? then Toc.FRESH_ROW else choice.copy))
    case Submit(id) =>
      var c := s.caller;
      s.(busy := s.busy + {c.accessor},
         caller := Idle,
         tasks := s.tasks[id := Task(c.segment, c.file, c.accessor, c.captured, Creating)],
         files := s.files[c.file := W.Apply(s.files[c.file], id, W.Begin(c.segment))])
    case Create(id, act) =>
      var t := s.tasks[id];
      s.(files := s.files[t.file := W.Apply(s.files[t.file], id, act)],
         tasks := s.tasks[id := t.(progress := if act.Insert? then Created else Creating)])
    case Record(id, totalBytes) =>
      var t := s.tasks[id];
      s.(toc := s.toc[t.file := Recording(s, id, totalBytes)],
         tasks := s.tasks[id := t.(progress := Recorded)])
    case Close(id) =>
      s.(busy := s.busy - {s.tasks[id].accessor}, tasks := s.tasks[id := s.tasks[id].(progress := Closed)])
    case Abort(id) =>
      s.(busy := s.busy - {s.tasks[id].accessor}, tasks := s.tasks[id := s.tasks[id].(progress := Failed)])
    case Open(h, f, accessor, evict) =>
      s.(cache := Opened(s, f, accessor, evict), handles := s.handles[h := Handle(f, accessor)])
    case Drop(h) => s.(handles := s.handles - {h})
    case LockRead(f, r) => s.(files := s.files[f := W.Apply(s.files[f], r, W.LockRead)])
    case UnlockRead(f, r) => s.(files := s.files[f := W.Apply(s.files[f], r, W.UnlockRead)])
    case BeginScan(k, indexId, lo, hi) =>
      s.(scans := s.scans[k := Scan(s.hash(indexId), lo, hi, s.clock, s.clock, [], false,
                                    set f | f in s.toc && f <= s.clock && Toc.Matches(s.toc[f], s.hash(indexId), lo, hi))])
    case ScanNext(k) => s.(scans := s.scans[k := Scanned(s.toc, s.scans[k])])
    case Restart(bound) =>
      s.(lastFileId := 0, inherited := bound, cache := map[], busy := {}, handles := map[], scans := map[])
  }

  /** An empty directory under a positive clock. */
  predicate Init(s: State) {
    && 1 <= s.clock < U64_MAX && s.lastFileId == 0 && s.inherited == 0
    && s.toc == map[] && s.files == map[] && s.cache == map[] && s.busy == {} && s.caller.Idle?
    && s.tasks == map[] && s.handles == map[] && s.scans == map[]
  }

  datatype Run = Run(states: seq<State>, steps: seq<Step>)

  ghost predicate IsRun(r: Run) {
    && |r.states| == |r.steps| + 1
    && Init(r.states[0])
    && forall i | 0 <= i < |r.steps| :: Takes(r, i)
  }

  ghost predicate Takes(r: Run, i: nat)
    requires |r.states| == |r.steps| + 1 && i < |r.steps|
  {
    Enabled(r.states[i], r.steps[i]) && r.states[i + 1] == Apply(r.states[i], r.steps[i])
  }

  // ---- Invariant ----------------------------------------------------------------

  /** File ids are positive and at most one ahead of the clock. */
  ghost predicate IdsInv(s: State) {
    && 1 <= s.clock < U64_MAX && s.lastFileId <= s.clock + 1
    && (forall f | f in s.files :: 1 <= f <= s.clock + 1)
    && (forall f | f in s.toc :: f in s.files)
  }

  ghost predicate FilesInv(s: State) {
    forall f | f in s.files :: W.Inv(s.files[f])
  }

  /** Tasks and the createEntry calls inside the files are the same calls. */
  ghost predicate CallsInv(s: State) {
    && (s.caller.Chosen? ==> s.caller.file in s.files)
    && (forall id | id in s.tasks :: TaskOk(s, id))
    && (forall f, id | f in s.files && id in s.files[f].writers :: id in s.tasks && s.tasks[id].file == f)
  }

  ghost predicate TaskOk(s: State, id: int)
    requires id in s.tasks
  {
    var t := s.tasks[id];
    && t.file in s.files && id in s.files[t.file].writers
    && s.files[t.file].writers[id].segment == t.segment
    && (t.progress.Created? || IsRecorded(t) ==> s.files[t.file].writers[id].phase.Indexed?)
  }

  /** The writes whose table update for `f` has happened, by task. */
  ghost function RecordedIn(s: State, f: int): map<int, Segment> {
    map id | id in s.tasks && s.tasks[id].file == f && IsRecorded(s.tasks[id]) :: s.tasks[id].segment
  }

  ghost function AllBits(hash: int -> set<int>, done: map<int, Segment>): set<int> {
    set id, b | id in done && b in hash(done[id].indexId) :: b
  }

  /** Least start, greatest end and number of these writes. */
  ghost predicate IsRange(min: int, max: int, count: int, done: map<int, Segment>) {
    && (forall id | id in done :: min <= done[id].start && done[id].end <= max)
    && (exists id | id in done :: done[id].start == min)
    && (exists id | id in done :: done[id].end == max)
    && count == |done| % TWO_32
  }

  /** A row is exactly the summary of these writes. */
  ghost predicate IsSummary(hash: int -> set<int>, row: Toc.Row, done: map<int, Segment>) {
    IsRange(row.min, row.max, row.count, done) && row.bloom == AllBits(hash, done)
  }

  ghost predicate RowsInv(s: State) {
    forall f | f in s.toc :: IsSummary(s.hash, s.toc[f], RecordedIn(s, f))
  }

  /** A task that may have to start a row from its captured copy captured an empty one. */
  ghost predicate CopiesInv(s: State) {
    && (forall id | id in s.tasks && IsRecorded(s.tasks[id]) :: s.tasks[id].file in s.toc)
    && (forall id | id in s.tasks && InFlight(s.tasks[id]) :: s.tasks[id].file in s.toc || s.tasks[id].captured == Toc.FRESH_ROW)
    && (s.caller.Chosen? ==> s.caller.file in s.toc || s.caller.captured == Toc.FRESH_ROW)
  }

  /** Whoever holds an accessor for a file holds the cached one, and no accessor serves two files. */
  ghost predicate CacheInv(s: State) {
    && (forall f, g | f in s.cache && g in s.cache && s.cache[f] == s.cache[g] :: f == g)
    && (forall id | id in s.tasks && InFlight(s.tasks[id]) :: CachedAs(s, s.tasks[id].file, s.tasks[id].accessor))
    && (forall h | h in s.handles :: CachedAs(s, s.handles[h].file, s.handles[h].accessor))
    && (s.caller.Chosen? ==> CachedAs(s, s.caller.file, s.caller.accessor))
  }

  predicate CachedAs(s: State, f: int, accessor: int) { f in s.cache && s.cache[f] == accessor }

  /** A scan holds only files that match now, and every file above its cursor that matched when it began. */
  ghost predicate ScanOk(toc: map<int, Toc.Row>, k: Scan) {
    && (forall i, j | 0 <= i < j < |k.out| :: k.out[i] > k.out[j])
    && (forall f | f in k.out :: k.cursor < f <= k.now && f in toc && Toc.Matches(toc[f], k.bits, k.lo, k.hi))
    && (forall f | f in k.began :: f <= k.now && f in toc && Toc.Matches(toc[f], k.bits, k.lo, k.hi))
    && (forall f | f in k.began && (k.finished || k.cursor < f) :: f in k.out)
    && 0 <= k.cursor <= k.now
  }

  ghost predicate ScansInv(s: State) {
    forall k | k in s.scans :: ScanOk(s.toc, s.scans[k])
  }

  ghost predicate Inv(s: State) {
    IdsInv(s) && FilesInv(s) && CallsInv(s) && RowsInv(s) && CopiesInv(s) && CacheInv(s) && ScansInv(s)
  }
}
