/**
 * The cache of open files and their accessors.  Catalog safety rests on it: a
 * file must never have two live accessors, because locks, free-space maps and
 * the busy set belong to the accessor.
 */
module FileCache {
  import opened Words
  import P = CatalogProtocol

  datatype Path = Path(name: string)

  /** One open path.  `valid` is whether its descriptor still is. */
  datatype OpenPath = OpenPath(lastAccess: u64, accessor: int, valid: bool)

  predicate InUse(refs: map<int, nat>, accessor: int) { accessor in refs && refs[accessor] > 0 }

  /** The hash map's slot order, which is unspecified: some listing of its keys. */
  predicate Lists(order: seq<Path>, open: map<Path, OpenPath>) {
    && (forall i | 0 <= i < |order| :: order[i] in open)
    && (forall p | p in open :: p in order)
  }

  /**
   * The eviction choice: the first slot with a dead descriptor; failing that the
   * first least recently used idle slot; failing that none.
   */
  ghost predicate IsVictim(open: map<Path, OpenPath>, refs: map<int, nat>, order: seq<Path>, v: int)
    requires Lists(order, open)
  {
    && -1 <= v < |order|
    && (v == -1 ==> forall i | 0 <= i < |order| ::
          open[order[i]].valid && (InUse(refs, open[order[i]].accessor) || open[order[i]].lastAccess == U64_MAX))
    && (v != -1 && !open[order[v]].valid ==> forall i | 0 <= i < v :: open[order[i]].valid)
    && (v != -1 && open[order[v]].valid ==>
          && !InUse(refs, open[order[v]].accessor)
          && (forall i | 0 <= i < |order| :: open[order[i]].valid)
          && (forall i | 0 <= i < |order| && !InUse(refs, open[order[i]].accessor) ::
                open[order[v]].lastAccess <= open[order[i]].lastAccess)
          && (forall i | 0 <= i < v && !InUse(refs, open[order[i]].accessor) ::
                open[order[v]].lastAccess < open[order[i]].lastAccess))
  }

  method FindVictim(open: map<Path, OpenPath>, refs: map<int, nat>, order: seq<Path>) returns (oldest: int)
    requires Lists(order, open)
    ensures IsVictim(open, refs, order, oldest)
  {
    oldest := -1;
    var oldestTime: u64 := U64_MAX;
    for i := 0 to |order|
      invariant -1 <= oldest < i
      invariant forall x | 0 <= x < i :: open[order[x]].valid
      invariant oldest == -1 ==> oldestTime == U64_MAX
      invariant oldest != -1 ==> oldestTime == open[order[oldest]].lastAccess && !InUse(refs, open[order[oldest]].accessor)
      invariant forall x | 0 <= x < i && !InUse(refs, open[order[x]].accessor) :: oldestTime <= open[order[x]].lastAccess
      invariant forall x | 0 <= x < oldest && !InUse(refs, open[order[x]].accessor) :: oldestTime < open[order[x]].lastAccess
    {
      var slot := open[order[i]];
      if !slot.valid {
        return i;
      }
      if slot.lastAccess < oldestTime && !InUse(refs, slot.accessor) {
        oldestTime := slot.lastAccess;
        oldest := i;
      }
    }
  }

  function Retained(refs: map<int, nat>, accessor: int): map<int, nat> {
    refs[accessor := (if accessor in refs then refs[accessor] else 0) + 1]
  }

  /** Every accessor in use is the cached accessor of the path it was built for. */
  ghost predicate Sole(open: map<Path, OpenPath>, refs: map<int, nat>, home: map<int, Path>) {
    forall a | InUse(refs, a) :: a in home && home[a] in open && open[home[a]].accessor == a
  }

  ghost predicate DropsIdle(open: map<Path, OpenPath>, refs: map<int, nat>, dropped: set<Path>) {
    forall p | p in open && p in dropped :: !InUse(refs, open[p].accessor)
  }

  ghost function Evicted(evicted: Option<Path>): set<Path> { if evicted.Some? then {evicted.value} else {} }

  lemma MinusTwice(m: map<Path, OpenPath>, a: set<Path>, b: set<Path>)
    ensures m - a - b == m - (a + b)
  {
  }

  /** The paths a reopening call removes: its own dead entry, if any, and one evicted. */
  ghost function Dropped(path: Path, evicted: Option<Path>): set<Path> {
    {path} + Evicted(evicted)
  }

  /** The table after a path without a live entry was opened, yielding `r`. */
  ghost predicate Reopened(before: map<Path, OpenPath>, refs: map<int, nat>, path: Path, now: u64, r: Option<int>,
                           evicted: Option<Path>, after: map<Path, OpenPath>) {
    && (r.None? ==> evicted.None? && after == before - {path})
    && (r.Some? ==> after == (before - Dropped(path, evicted))[path := OpenPath(now, r.value, true)])
    && (evicted.Some? ==> evicted.value in before && evicted.value != path
                          && (before[evicted.value].valid ==> !InUse(refs, before[evicted.value].accessor)))
  }

  /** Removing entries keeps one accessor per path exactly when none of them is in use. */
  lemma DropKeepsSole(open: map<Path, OpenPath>, refs: map<int, nat>, home: map<int, Path>, dropped: set<Path>)
    requires Sole(open, refs, home) && forall p | p in open :: open[p].accessor in home && home[open[p].accessor] == p
    ensures Sole(open - dropped, refs, home) <==> DropsIdle(open, refs, dropped)
  {
    if p :| p in open && p in dropped && InUse(refs, open[p].accessor) {
      assert home[open[p].accessor] !in open - dropped;
    }
  }

  /** Filing a new accessor under an uncached path neither breaks nor repairs it. */
  lemma AddKeepsSole(open: map<Path, OpenPath>, refs: map<int, nat>, home: map<int, Path>, path: Path, x: OpenPath)
    requires path !in open && !InUse(refs, x.accessor)
    ensures Sole(open[path := x], Retained(refs, x.accessor), home[x.accessor := path]) <==> Sole(open, refs, home)
  {
    var open', refs', home' := open[path := x], Retained(refs, x.accessor), home[x.accessor := path];
    assert InUse(refs', x.accessor) && forall a | a != x.accessor :: InUse(refs', a) <==> InUse(refs, a);
    if Sole(open', refs', home') {
      forall a | InUse(refs, a) ensures a in home && home[a] in open && open[home[a]].accessor == a {
        assert InUse(refs', a);
      }
    }
  }

  lemma TouchKeepsSole(open: map<Path, OpenPath>, refs: map<int, nat>, home: map<int, Path>, path: Path, now: u64)
    requires path in open && open[path].accessor in home && home[open[path].accessor] == path
    ensures Sole(open, refs, home) ==>
              Sole(open[path := open[path].(lastAccess := now)], Retained(refs, open[path].accessor), home)
  {
    assert forall a | a != open[path].accessor :: InUse(Retained(refs, open[path].accessor), a) <==> InUse(refs, a);
  }

  /** Opening a path afresh: exact, and never a breach while descriptors stay live. */
  lemma ReopenKeepsSole(open: map<Path, OpenPath>, refs: map<int, nat>, home: map<int, Path>, path: Path, now: u64,
                        r: Option<int>, evicted: Option<Path>, after: map<Path, OpenPath>)
    requires Sole(open, refs, home) ==> forall p | p in open :: open[p].accessor in home && home[open[p].accessor] == p
    requires path in open ==> !open[path].valid
    requires r.Some? ==> !InUse(refs, r.value)
    requires Reopened(open, refs, path, now, r, evicted, after)
    ensures var refs' := if r.Some? then Retained(refs, r.value) else refs;
            var home' := if r.Some? then home[r.value := path] else home;
            && (Sole(open, refs, home) ==> (Sole(after, refs', home') <==> DropsIdle(open, refs, Dropped(path, evicted))))
            && ((forall p | p in open :: open[p].valid) ==>
                  DropsIdle(open, refs, Dropped(path, evicted)) && forall p | p in after :: after[p].valid)
  {
    var dropped := Dropped(path, evicted);
    if r.Some? {
      AddKeepsSole(open - dropped, refs, home, path, OpenPath(now, r.value, true));
    } else {
      assert open - {path} == open - dropped;
    }
    if Sole(open, refs, home) {
      DropKeepsSole(open, refs, home, dropped);
    }
  }

  class Cache {
    var open: map<Path, OpenPath>
    var capacity: nat
    /** References clients hold to each accessor, beyond the cache's own. */
    var refs: map<int, nat>
    /** The path each accessor was built for. */
    var home: map<int, Path>

    ghost predicate Valid()
      reads this
    {
      && (forall p | p in open :: open[p].accessor in home && home[open[p].accessor] == p && open[p].lastAccess < U64_MAX)
      && (forall a | a in refs :: a in home)
    }

    ghost function View(): State
      reads this
    {
      State(open, refs, home)
    }

    /** Every accessor a client holds is the cached accessor of its path. */
    ghost predicate HeldAreCached()
      reads this
    {
      Sole(open, refs, home)
    }

    ghost predicate DescriptorsLive()
      reads this
    {
      forall p | p in open :: open[p].valid
    }

    /** The table has not outgrown its capacity. */
    ghost predicate Fits()
      reads this
    {
      |open| <= capacity
    }

    constructor (size: nat)
      ensures Valid() && HeldAreCached() && DescriptorsLive() && open == map[] && capacity == size && refs == map[]
    {
      open, capacity, refs, home := map[], size, map[], map[];
    }

    method AddRaw(path: Path, now: u64, accessor: int, order: seq<Path>) returns (evicted: Option<Path>)
      requires Valid() && path !in open && accessor in home && home[accessor] == path && now < U64_MAX
      requires Lists(order, open)
      modifies this`open, this`capacity
      ensures Valid()
      ensures open == (old(open) - Evicted(evicted))[path := OpenPath(now, accessor, true)]
      ensures evicted.Some? ==>
                && evicted.value in old(open) && |old(open)| >= old(capacity)
                && exists v :: 0 <= v < |order| && evicted.value == order[v] && IsVictim(old(open), refs, order, v)
      ensures capacity >= old(capacity) && (old(Fits()) ==> Fits())
      ensures capacity > old(capacity) ==>
                |old(open)| >= old(capacity) && forall p | p in old(open) :: old(open)[p].valid && InUse(refs, old(open)[p].accessor)
    {
      evicted := None;
      if |open| >= capacity {
        var oldest := FindVictim(open, refs, order);
        if oldest != -1 {
          evicted := Some(order[oldest]);
          open := open - {order[oldest]};
        } else {
          forall p | p in open ensures open[p].valid && InUse(refs, open[p].accessor) {
            var i :| 0 <= i < |order| && order[i] == p;
          }
          capacity := |open| + 1;
        }
      }
      open := open[path := OpenPath(now, accessor, true)];
    }

    /** Opening a path that is not cached: file the new accessor and hand a reference to the caller. */
    method Build(path: Path, now: u64, accessor: int, order: seq<Path>) returns (evicted: Option<Path>)
      requires Valid() && now < U64_MAX && path !in open && Lists(order, open)
      requires !InUse(refs, accessor) && forall p | p in open :: open[p].accessor != accessor
      modifies this
      ensures Valid()
      ensures open == (old(open) - Evicted(evicted))[path := OpenPath(now, accessor, true)]
      ensures evicted.Some? ==> evicted.value in old(open) && |old(open)| >= old(capacity)
      ensures evicted.Some? && old(open)[evicted.value].valid ==> !InUse(old(refs), old(open)[evicted.value].accessor)
      ensures refs == Retained(old(refs), accessor) && home == old(home)[accessor := path] && (old(Fits()) ==> Fits())
      ensures capacity > old(capacity) ==> forall p | p in old(open) :: InUse(old(refs), old(open)[p].accessor)
    {
      home := home[accessor := path];
      evicted := AddRaw(path, now, accessor, order);
      refs := Retained(refs, accessor);
    }

    /**
     * `built` is what opening the file and building an accessor would yield: nothing
     * if the file cannot be opened, otherwise an address nobody uses.
     */
    method Open(path: Path, now: u64, built: Option<int>, order: seq<Path>) returns (r: Option<int>, evicted: Option<Path>)
      requires Valid() && now < U64_MAX
      requires built.Some? ==> !InUse(refs, built.value) && forall p | p in open :: open[p].accessor != built.value
      requires Lists(order, if Hit(path) then open else open - {path})
      modifies this
      ensures Valid()
      // A live cached descriptor: the same accessor, and only its access time changes.
      ensures old(Hit(path)) ==>
                && r == Some(old(open)[path].accessor) && evicted.None?
                && open == old(open)[path := old(open)[path].(lastAccess := now)]
                && (old(HeldAreCached()) ==> HeldAreCached())
      // Otherwise the file is opened afresh, replacing a dead entry and evicting at most one other path.
      ensures !old(Hit(path)) ==>
                && r == built && Reopened(old(open), old(refs), path, now, r, evicted, open)
                && (old(HeldAreCached()) ==> (HeldAreCached() <==> DropsIdle(old(open), old(refs), Dropped(path, evicted))))
      // The client holds one reference more to this accessor, and as many as before to any other.
      ensures r.Some? ==> r.value in refs && refs[r.value] == 1 + if r.value in old(refs) then old(refs)[r.value] else 0
      ensures forall a | Some(a) != r :: (a in refs <==> a in old(refs)) && (a in refs ==> refs[a] == old(refs)[a])
      ensures Happens(old(View()), Opening(path, now, r, evicted), View())
      // One live accessor per path survives every call while descriptors stay live.
      ensures old(HeldAreCached()) && old(DescriptorsLive()) ==> HeldAreCached()
      ensures old(DescriptorsLive()) ==> DescriptorsLive()
      // The cache grows only when everything in it is in use.
      ensures old(Fits()) ==> Fits()
      ensures capacity > old(capacity) ==> forall p | p in old(open) && p != path :: InUse(old(refs), old(open)[p].accessor)
    {
      if path in open && open[path].valid {
        TouchKeepsSole(open, refs, home, path, now);
        open := open[path := open[path].(lastAccess := now)];
        r, evicted := Some(open[path].accessor), None;
        refs := Retained(refs, r.value);
      } else {
        r, evicted := Reopen(path, now, built, order);
        ReopenKeepsSole(old(open), old(refs), old(home), path, now, r, evicted, open);
      }
    }

    ghost predicate Hit(path: Path)
      reads this
    {
      path in open && open[path].valid
    }

    method Reopen(path: Path, now: u64, built: Option<int>, order: seq<Path>) returns (r: Option<int>, evicted: Option<Path>)
      requires Valid() && now < U64_MAX && !Hit(path)
      requires built.Some? ==> !InUse(refs, built.value) && forall p | p in open :: open[p].accessor != built.value
      requires Lists(order, open - {path})
      modifies this
      ensures Valid() && r == built && Reopened(old(open), old(refs), path, now, r, evicted, open)
      ensures refs == (if r.Some? then Retained(old(refs), r.value) else old(refs))
      ensures home == (if r.Some? then old(home)[r.value := path] else old(home))
      ensures old(Fits()) ==> Fits()
      ensures capacity > old(capacity) ==> forall p | p in old(open) && p != path :: InUse(old(refs), old(open)[p].accessor)
    {
      r, evicted := built, None;
      ghost var before := open;
      Purge(path);
      assert forall p | p in before && p != path :: p in open && open[p] == before[p];
      if built.Some? {
        evicted := Build(path, now, built.value, order);
        MinusTwice(before, {path}, Evicted(evicted));
      }
    }

    /** Remove an entry whose descriptor is dead. */
    method Purge(path: Path)
      requires Valid()
      modifies this`open
      ensures Valid() && open == old(open) - {path} && (old(Fits()) ==> Fits())
    {
      if path in open {
        open := open - {path};
      }
    }

    method Drop(accessor: int)
      requires Valid() && InUse(refs, accessor)
      modifies this`refs
      ensures Valid() && refs == old(refs)[accessor := old(refs)[accessor] - 1]
      ensures Happens(old(View()), Dropping(accessor), View())
      ensures old(HeldAreCached()) ==> HeldAreCached()
    {
      refs := refs[accessor := refs[accessor] - 1];
    }
  }

  // ---- Runs --------------------------------------------------------------------

  datatype State = State(open: map<Path, OpenPath>, refs: map<int, nat>, home: map<int, Path>)

  datatype Event = Opening(path: Path, now: u64, r: Option<int>, evicted: Option<Path>) | Dropping(accessor: int)

  /** What one call to the cache, or one client letting go of an accessor, does. */
  ghost predicate Happens(s: State, e: Event, s': State) {
    match e
    case Opening(path, now, r, evicted) =>
      if path in s.open && s.open[path].valid then
        && r == Some(s.open[path].accessor) && evicted.None?
        && s' == State(s.open[path := s.open[path].(lastAccess := now)], Retained(s.refs, r.value), s.home)
      else
        && (r.Some? ==> !InUse(s.refs, r.value) && forall p | p in s.open :: s.open[p].accessor != r.value)
        && Reopened(s.open, s.refs, path, now, r, evicted, s'.open)
        && s'.refs == (if r.Some? then Retained(s.refs, r.value) else s.refs)
        && s'.home == (if r.Some? then s.home[r.value := path] else s.home)
    case Dropping(accessor) =>
      InUse(s.refs, accessor) && s' == s.(refs := s.refs[accessor := s.refs[accessor] - 1])
  }

  /** Cached accessors belong to their path, descriptors are live, held accessors are cached. */
  ghost predicate Sound(s: State) {
    && (forall p | p in s.open :: s.open[p].valid && s.open[p].accessor in s.home && s.home[s.open[p].accessor] == p)
    && Sole(s.open, s.refs, s.home)
  }

  lemma EventKeepsSound(s: State, e: Event, s': State)
    requires Sound(s) && Happens(s, e, s')
    ensures Sound(s')
  {
    match e
    case Opening(path, now, r, evicted) =>
      if path in s.open {
        TouchKeepsSole(s.open, s.refs, s.home, path, now);
      } else {
        ReopenKeepsSole(s.open, s.refs, s.home, path, now, r, evicted, s'.open);
      }
    case Dropping(accessor) =>
      assert forall a | InUse(s'.refs, a) :: InUse(s.refs, a);
  }

  ghost predicate IsRun(states: seq<State>, events: seq<Event>) {
    && |states| == |events| + 1 && states[0] == State(map[], map[], map[])
    && forall i | 0 <= i < |events| :: HappensAt(states, events, i)
  }

  ghost predicate HappensAt(states: seq<State>, events: seq<Event>, i: nat)
    requires |states| == |events| + 1 && i < |events|
  {
    Happens(states[i], events[i], states[i + 1])
  }

  lemma {:induction false} RunKeepsSound(states: seq<State>, events: seq<Event>, i: nat)
    requires IsRun(states, events) && i < |states|
    ensures Sound(states[i])
  {
    if i > 0 {
      RunKeepsSound(states, events, i - 1);
      assert HappensAt(states, events, i - 1);
      EventKeepsSound(states[i - 1], events[i - 1], states[i]);
    }
  }

  // ---- What clients hold, counted from the events -------------------------------------

  predicate Yields(e: Event, a: int) { e.Opening? && e.r == Some(a) }

  /** How many of the first i events handed out accessor a. */
  function Gained(events: seq<Event>, i: nat, a: int): nat
    requires i <= |events|
  {
    if i == 0 then 0 else Gained(events, i - 1, a) + if Yields(events[i - 1], a) then 1 else 0
  }

  /** How many of the first i events gave accessor a back. */
  function GivenBack(events: seq<Event>, i: nat, a: int): nat
    requires i <= |events|
  {
    if i == 0 then 0 else GivenBack(events, i - 1, a) + if events[i - 1] == Dropping(a) then 1 else 0
  }

  /** References are what opens handed out and drops have not given back, so an accessor is in use exactly while some client holds it. */
  lemma {:induction false} InUseIffHeld(states: seq<State>, events: seq<Event>, i: nat, a: int)
    requires IsRun(states, events) && i < |states|
    ensures (if a in states[i].refs then states[i].refs[a] else 0) == Gained(events, i, a) - GivenBack(events, i, a)
    ensures InUse(states[i].refs, a) <==> Gained(events, i, a) > GivenBack(events, i, a)
  {
    if i > 0 {
      InUseIffHeld(states, events, i - 1, a);
      assert HappensAt(states, events, i - 1);
    }
  }

  /** Event y opened this path, yielding a, and clients have held a ever since. */
  ghost predicate HeldSince(events: seq<Event>, y: nat, i: nat, path: Path, a: int)
  {
    && y < i <= |events| && Yields(events[y], a) && events[y].path == path
    && forall x | y < x <= i :: Gained(events, x, a) > GivenBack(events, x, a)
  }

  lemma {:induction false} HomeStays(states: seq<State>, events: seq<Event>, y: nat, i: nat, path: Path, a: int)
    requires IsRun(states, events) && i < |states| && HeldSince(events, y, i, path, a)
    ensures a in states[i].home && states[i].home[a] == path
    decreases i
  {
    assert HappensAt(states, events, i - 1);
    RunKeepsSound(states, events, i - 1);
    if y + 1 < i {
      HomeStays(states, events, y, i - 1, path, a);
      InUseIffHeld(states, events, i - 1, a);
    }
  }

  /**
   * In no run of opens and drops do clients hold two different accessors for one path:
   * two opens of it whose accessors have been held ever since yielded the same one.
   */
  lemma OneAccessorPerPath(states: seq<State>, events: seq<Event>, i: nat, path: Path, y: nat, a: int, z: nat, b: int)
    requires IsRun(states, events) && i < |states|
    requires HeldSince(events, y, i, path, a) && HeldSince(events, z, i, path, b)
    ensures a == b
  {
    RunKeepsSound(states, events, i);
    HomeStays(states, events, y, i, path, a);
    HomeStays(states, events, z, i, path, b);
    InUseIffHeld(states, events, i, a);
    InUseIffHeld(states, events, i, b);
  }

  // ---- The cache the catalog relies on -------------------------------------------

  /** The catalog's table of cached accessors is this table, its files numbered by `id`. */
  ghost predicate Represents(cache: map<int, int>, open: map<Path, OpenPath>, id: Path -> int) {
    && (forall p | p in open :: id(p) in cache && cache[id(p)] == open[p].accessor)
    && (forall f | f in cache :: exists p | p in open :: id(p) == f)
  }

  ghost predicate Injective(id: Path -> int) { forall p, q | id(p) == id(q) :: p == q }

  ghost function EvictedId(evicted: Option<Path>, id: Path -> int): Option<int> {
    if evicted.Some? then Some(id(evicted.value)) else None
  }

  /**
   * The cache is the one the catalog step system assumes.  Opening a path, hit or miss, is
   * a step that system allows, and leaves the table that system says.
   */
  lemma OpeningRefinesProtocol(s: State, e: Event, s': State, p: P.State, id: Path -> int)
    requires Sound(s) && Happens(s, e, s') && e.Opening? && e.r.Some?
    requires Injective(id) && Represents(p.cache, s.open, id) && forall a :: P.Held(p, a) <==> InUse(s.refs, a)
    ensures P.MayOpen(p, id(e.path), e.r.value, EvictedId(e.evicted, id))
    ensures Represents(P.Opened(p, id(e.path), e.r.value, EvictedId(e.evicted, id)), s'.open, id)
  {
    if e.path in s.open {
      HitRefines(s, e, s', p, id);
    } else {
      MissRefines(s, e, s', p, id);
    }
  }

  lemma HitRefines(s: State, e: Event, s': State, p: P.State, id: Path -> int)
    requires Sound(s) && Happens(s, e, s') && e.Opening? && e.r.Some? && e.path in s.open
    requires Injective(id) && Represents(p.cache, s.open, id)
    ensures P.MayOpen(p, id(e.path), e.r.value, EvictedId(e.evicted, id))
    ensures Represents(P.Opened(p, id(e.path), e.r.value, EvictedId(e.evicted, id)), s'.open, id)
  {
    forall f | f in p.cache ensures exists q | q in s'.open :: id(q) == f {
      var q :| q in s.open && id(q) == f;
      assert q in s'.open;
    }
  }

  /** An accessor no path has, and nobody holds, is new to the catalog too. */
  lemma NewAccessor(open: map<Path, OpenPath>, cache: map<int, int>, id: Path -> int, accessor: int)
    requires Represents(cache, open, id) && forall q | q in open :: open[q].accessor != accessor
    ensures accessor !in cache.Values
  {
    forall f | f in cache ensures cache[f] != accessor {
      var q :| q in open && id(q) == f;
      assert open[q].accessor != accessor;
    }
  }

  /** Dropping one path and adding another does the same to both tables. */
  lemma TablesAgree(open: map<Path, OpenPath>, open': map<Path, OpenPath>, p: P.State, id: Path -> int,
                    path: Path, x: OpenPath, evicted: Option<Path>)
    requires Injective(id) && Represents(p.cache, open, id) && path !in open
    requires open' == (open - Evicted(evicted))[path := x]
    ensures id(path) !in p.cache
    ensures Represents(P.Opened(p, id(path), x.accessor, EvictedId(evicted, id)), open', id)
  {
    assert id(path) !in p.cache;
    forall f | f in P.Opened(p, id(path), x.accessor, EvictedId(evicted, id)) ensures exists q | q in open' :: id(q) == f {
      if f == id(path) {
        assert path in open';
      } else {
        var q :| q in open && id(q) == f;
        assert q in open';
      }
    }
  }

  lemma MissRefines(s: State, e: Event, s': State, p: P.State, id: Path -> int)
    requires Sound(s) && Happens(s, e, s') && e.Opening? && e.r.Some? && e.path !in s.open
    requires Injective(id) && Represents(p.cache, s.open, id) && forall a :: P.Held(p, a) <==> InUse(s.refs, a)
    ensures P.MayOpen(p, id(e.path), e.r.value, EvictedId(e.evicted, id))
    ensures Represents(P.Opened(p, id(e.path), e.r.value, EvictedId(e.evicted, id)), s'.open, id)
  {
    NewAccessor(s.open, p.cache, id, e.r.value);
    assert s.open - Dropped(e.path, e.evicted) == s.open - Evicted(e.evicted);
    var x := OpenPath(e.now, e.r.value, true);
    assert s'.open == (s.open - Evicted(e.evicted))[e.path := x];
    TablesAgree(s.open, s'.open, p, id, e.path, x, e.evicted);
  }
}
