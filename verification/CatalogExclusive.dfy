/**
 * One writer per file.  `filesBeingWritten` holds accessor addresses; it is exactly
 * the set of files with a task in flight, and no file has two, in precisely those
 * runs in which no segment is submitted to a file that is still being written.  With
 * a clock past the ids of earlier processes, that takes a new file whose id repeats
 * the last one while its task is in flight.
 */
module CatalogExclusive {
  import opened CatalogProtocol
  import opened CatalogInvariants

  /** The clock has reached the last allocated id and passed the ids of earlier processes. */
  predicate Paced(s: State, step: Step) {
    step.Choose? && step.choice.New? ==> s.lastFileId <= s.clock && s.inherited < s.clock
  }

  /** New ids are drawn from a clock past the ids of earlier processes. */
  predicate PastInherited(s: State, step: Step) {
    step.Choose? && step.choice.New? ==> s.inherited < s.clock
  }

  /** A new file is asked for while the clock is behind the last id and that id's task has not ended. */
  ghost predicate Collides(s: State, step: Step) {
    step.Choose? && step.choice.New? && s.clock < s.lastFileId && exists id :: OnFile(s, s.lastFileId, id)
  }

  /** The busy set holds exactly the accessors of tasks in flight. */
  ghost predicate BusyExact(s: State) {
    forall a :: a in s.busy <==> exists id | id in s.tasks :: InFlight(s.tasks[id]) && s.tasks[id].accessor == a
  }

  /** The busy set is exact and no file has two tasks in flight. */
  ghost predicate Exclusive(s: State) {
    && BusyExact(s)
    && (forall x, y | x in s.tasks && y in s.tasks && x != y && InFlight(s.tasks[x]) && InFlight(s.tasks[y]) ::
          s.tasks[x].file != s.tasks[y].file)
  }

  /** The file the caller has chosen has no task in flight. */
  ghost predicate CallerAlone(s: State) {
    s.caller.Chosen? ==> !exists id :: OnFile(s, s.caller.file, id)
  }

  /** A segment is submitted to a file that already has a task in flight. */
  ghost predicate Doubles(s: State, step: Step) {
    step.Submit? && s.caller.Chosen? && exists id :: OnFile(s, s.caller.file, id)
  }

  /** Every file id was allocated by this process or left by an earlier one. */
  ghost predicate IdsKnown(s: State) {
    forall f | f in s.files :: f <= s.lastFileId || f <= s.inherited
  }

  ghost predicate OnFile(s: State, f: int, id: int) {
    id in s.tasks && InFlight(s.tasks[id]) && s.tasks[id].file == f
  }

  lemma NewIdsAreNew(s: State)
    requires IdsInv(s) && IdsKnown(s) && s.lastFileId <= s.clock && s.inherited < s.clock
    ensures NewFileId(s.clock, s.lastFileId) !in s.files
  {
  }

  /**
   * Once the clock has passed the ids of earlier processes, a new file is already
   * being written if and only if the clock is still behind the last allocated id
   * and that file's task has not ended: then its id is repeated.
   */
  lemma NewFileIsBusyIff(s: State)
    requires Inv(s) && IdsKnown(s) && s.inherited < s.clock
    ensures (exists id :: OnFile(s, NewFileId(s.clock, s.lastFileId), id)) <==>
            s.clock < s.lastFileId && exists id :: OnFile(s, s.lastFileId, id)
  {
    var f := NewFileId(s.clock, s.lastFileId);
    if s.clock < s.lastFileId {
      assert f == s.lastFileId;
    } else {
      NewIdsAreNew(s);
      assert forall id | id in s.tasks :: TaskOk(s, id);
    }
  }

  /** A file whose accessor is not busy has no task in flight. */
  lemma IdleFilesHaveNoTask(s: State, f: int, accessor: int)
    requires CacheInv(s) && Exclusive(s) && accessor !in s.busy && (f in s.cache ==> s.cache[f] == accessor)
    ensures !exists id :: OnFile(s, f, id)
  {
    forall id ensures !OnFile(s, f, id) {
      assert OnFile(s, f, id) ==> CachedAs(s, s.tasks[id].file, s.tasks[id].accessor);
    }
  }

  // ---- Submissions ------------------------------------------------------------------------

  lemma EndKeepsBusy(s: State, step: Step)
    requires CacheInv(s) && Exclusive(s) && Enabled(s, step) && (step.Close? || step.Abort?)
    ensures Exclusive(Apply(s, step))
  {
    var id := step.task;
    var s' := Apply(s, step);
    AccessorsDiffer(s, id);
    forall a ensures a in s'.busy <==> exists t | t in s'.tasks :: InFlight(s'.tasks[t]) && s'.tasks[t].accessor == a {
      if a in s'.busy {
        var t :| t in s.tasks && InFlight(s.tasks[t]) && s.tasks[t].accessor == a;
        assert t != id && s'.tasks[t] == s.tasks[t];
      }
    }
  }

  /** Tasks in flight are on different files, so they hold different accessors. */
  lemma AccessorsDiffer(s: State, id: int)
    requires CacheInv(s) && Exclusive(s) && id in s.tasks && InFlight(s.tasks[id])
    ensures forall other | other in s.tasks && other != id && InFlight(s.tasks[other]) :: s.tasks[other].accessor != s.tasks[id].accessor
  {
    forall other | other in s.tasks && other != id && InFlight(s.tasks[other]) ensures s.tasks[other].accessor != s.tasks[id].accessor {
      assert CachedAs(s, s.tasks[other].file, s.tasks[other].accessor);
      assert CachedAs(s, s.tasks[id].file, s.tasks[id].accessor);
    }
  }

  /** Marking the file keeps the busy set exact, whether or not the file is already being written. */
  lemma SubmitKeepsBusy(s: State, step: Step)
    requires BusyExact(s) && Enabled(s, step) && step.Submit?
    ensures BusyExact(Apply(s, step))
  {
    var s' := Apply(s, step);
    forall a ensures a in s'.busy <==> exists t | t in s'.tasks :: InFlight(s'.tasks[t]) && s'.tasks[t].accessor == a {
      if a == s.caller.accessor {
        assert InFlight(s'.tasks[step.task]) && s'.tasks[step.task].accessor == a;
      } else if a in s.busy {
        var t :| t in s.tasks && InFlight(s.tasks[t]) && s.tasks[t].accessor == a;
        assert s'.tasks[t] == s.tasks[t];
      }
    }
  }

  lemma SubmitKeepsExclusiveIff(s: State, step: Step)
    requires Exclusive(s) && Enabled(s, step) && step.Submit?
    ensures Exclusive(Apply(s, step)) <==> !Doubles(s, step)
  {
    SubmitKeepsBusy(s, step);
    var s' := Apply(s, step);
    assert s'.tasks == s.tasks[step.task := s'.tasks[step.task]] && InFlight(s'.tasks[step.task]);
    if id :| OnFile(s, s.caller.file, id) {
      assert id in s'.tasks && step.task in s'.tasks && id != step.task && s'.tasks[id] == s.tasks[id];
    } else {
      forall id | id in s.tasks && InFlight(s.tasks[id]) ensures s.tasks[id].file != s.caller.file {
        assert !OnFile(s, s.caller.file, id);
      }
    }
  }

  lemma ProgressKeepsBusy(s: State, step: Step)
    requires Exclusive(s) && Enabled(s, step) && (step.Create? || step.Record?)
    ensures Exclusive(Apply(s, step))
  {
    var s' := Apply(s, step);
    forall a ensures a in s'.busy <==> exists t | t in s'.tasks :: InFlight(s'.tasks[t]) && s'.tasks[t].accessor == a {
      if a in s.busy {
        var t :| t in s.tasks && InFlight(s.tasks[t]) && s.tasks[t].accessor == a;
        assert InFlight(s'.tasks[t]) && s'.tasks[t].accessor == a;
      }
    }
  }

  /** Choices and the steps of clients, readers, scans and the clock. */
  lemma QuietStepsKeepBusy(s: State, step: Step)
    requires Exclusive(s) && Enabled(s, step) && !step.Restart? && !step.Submit?
    requires !step.Create? && !step.Record? && !step.Close? && !step.Abort?
    ensures Exclusive(Apply(s, step))
  {
    var s' := Apply(s, step);
    assert s'.tasks == s.tasks && s'.busy == s.busy;
  }

  /** A new process starts with nothing busy and nothing in flight. */
  lemma RestartKeepsBusy(s: State, step: Step)
    requires Enabled(s, step) && step.Restart?
    ensures Exclusive(Apply(s, step))
  {
  }

  /** The exact condition, one step at a time. */
  lemma StepKeepsExclusiveIff(s: State, step: Step)
    requires CacheInv(s) && Exclusive(s) && Enabled(s, step)
    ensures Exclusive(Apply(s, step)) <==> !Doubles(s, step)
  {
    if step.Submit? {
      SubmitKeepsExclusiveIff(s, step);
    } else if step.Create? || step.Record? {
      ProgressKeepsBusy(s, step);
    } else if step.Close? || step.Abort? {
      EndKeepsBusy(s, step);
    } else if step.Restart? {
      RestartKeepsBusy(s, step);
    } else {
      QuietStepsKeepBusy(s, step);
    }
  }

  ghost predicate ExclusiveUpTo(r: Run, i: nat) {
    forall x | 0 <= x <= i && x < |r.states| :: Exclusive(r.states[x])
  }

  ghost predicate NoDouble(r: Run, i: nat)
    requires |r.states| == |r.steps| + 1
  {
    forall x | 0 <= x < i && x < |r.steps| :: !Doubles(r.states[x], r.steps[x])
  }

  lemma RunStepKeepsExclusiveIff(r: Run, i: nat)
    requires IsRun(r) && i < |r.steps| && Exclusive(r.states[i])
    ensures Exclusive(r.states[i + 1]) <==> !Doubles(r.states[i], r.steps[i])
  {
    assert Takes(r, i);
    RunKeepsInv(r, i);
    StepKeepsExclusiveIff(r.states[i], r.steps[i]);
  }

  lemma FirstIsExclusive(s: State)
    requires Init(s)
    ensures Exclusive(s)
  {
  }

  /**
   * The exact condition, for every run: the busy set is exact and no file has two tasks
   * in flight throughout if and only if no segment is ever submitted to a file that has one.
   */
  lemma {:induction false} ExclusiveIffNoDouble(r: Run, i: nat)
    requires IsRun(r) && i < |r.states|
    ensures ExclusiveUpTo(r, i) <==> NoDouble(r, i)
  {
    if i > 0 {
      ExclusiveIffNoDouble(r, i - 1);
      if Exclusive(r.states[i - 1]) {
        RunStepKeepsExclusiveIff(r, i - 1);
      }
    } else {
      FirstIsExclusive(r.states[0]);
    }
  }

  // ---- From the submission back to the choice -------------------------------------------------

  /** The choice that set the caller's file: nothing was chosen or submitted since. */
  ghost predicate ChosenAt(r: Run, x: nat, i: nat)
    requires |r.states| == |r.steps| + 1
  {
    && x < i < |r.states| && r.steps[x].Choose?
    && forall y | x < y < i :: !r.steps[y].Choose? && !r.steps[y].Submit?
  }

  lemma WaitingStep(s: State, step: Step, f: int, id: int)
    requires Enabled(s, step) && Apply(s, step).caller.Chosen? && !step.Choose?
    ensures !step.Submit? && s.caller == Apply(s, step).caller
    ensures OnFile(Apply(s, step), f, id) ==> OnFile(s, f, id)
  {
  }

  lemma ChoosingStep(s: State, step: Step, f: int, id: int)
    requires Enabled(s, step) && step.Choose?
    ensures Apply(s, step).caller.file == ChosenFile(s, step.choice)
    ensures OnFile(Apply(s, step), f, id) <==> OnFile(s, f, id)
  {
  }

  /** While the caller waits, its file stays chosen. */
  lemma {:induction false} ChoiceOf(r: Run, i: nat) returns (x: nat)
    requires IsRun(r) && i < |r.states| && r.states[i].caller.Chosen?
    ensures ChosenAt(r, x, i) && Takes(r, x) && r.states[i].caller.file == ChosenFile(r.states[x], r.steps[x].choice)
  {
    assert i > 0;
    assert Takes(r, i - 1);
    if r.steps[i - 1].Choose? {
      ChoosingStep(r.states[i - 1], r.steps[i - 1], 0, 0);
      x := i - 1;
    } else {
      WaitingStep(r.states[i - 1], r.steps[i - 1], 0, 0);
      x := ChoiceOf(r, i - 1);
    }
  }

  /** A task in flight while the caller waits was in flight when its file was chosen. */
  lemma {:induction false} TaskWasThere(r: Run, x: nat, i: nat, f: int, id: int)
    requires IsRun(r) && ChosenAt(r, x, i) && r.states[i].caller.Chosen? && OnFile(r.states[i], f, id)
    ensures OnFile(r.states[x], f, id)
    decreases i
  {
    assert Takes(r, i - 1);
    if x == i - 1 {
      ChoosingStep(r.states[x], r.steps[x], f, id);
    } else {
      WaitingStep(r.states[i - 1], r.steps[i - 1], f, id);
      TaskWasThere(r, x, i - 1, f, id);
    }
  }

  /** A choice of a file that has a task in flight collides. */
  lemma BusyChoiceCollides(s: State, step: Step, id: int)
    requires Inv(s) && Exclusive(s) && IdsKnown(s) && Enabled(s, step) && step.Choose? && PastInherited(s, step)
    requires OnFile(s, ChosenFile(s, step.choice), id)
    ensures Collides(s, step)
  {
    if step.choice.New? {
      NewFileIsBusyIff(s);
    } else {
      IdleFilesHaveNoTask(s, step.choice.file, step.accessor);
    }
  }

  lemma IdsStayKnown(s: State, step: Step)
    requires IdsInv(s) && IdsKnown(s) && Enabled(s, step)
    requires PastInherited(s, step)
    ensures IdsKnown(Apply(s, step))
  {
  }

  /** New ids are drawn from a clock past the ids of earlier processes, up to state i. */
  ghost predicate RunPastInherited(r: Run, i: nat)
    requires |r.states| == |r.steps| + 1
  {
    forall x | 0 <= x < i && x < |r.steps| :: PastInherited(r.states[x], r.steps[x])
  }

  lemma {:induction false} RunKnowsIds(r: Run, i: nat)
    requires IsRun(r) && i < |r.states|
    requires RunPastInherited(r, i)
    ensures IdsKnown(r.states[i])
  {
    if i > 0 {
      RunKnowsIds(r, i - 1);
      RunKeepsInv(r, i - 1);
      assert Takes(r, i - 1);
      IdsStayKnown(r.states[i - 1], r.steps[i - 1]);
    }
  }

  /** A colliding choice takes the last allocated id. */
  lemma CollidingFile(s: State, step: Step)
    requires IdsInv(s) && Enabled(s, step) && Collides(s, step)
    ensures ChosenFile(s, step.choice) == s.lastFileId
  {
  }

  /**
   * Where doubling comes from.  As long as none has doubled, a submission doubles if and
   * only if its file was chosen by a collision - a new file, asked for while the clock
   * was behind the last id and that id's task in flight - and that file still has a task.
   */
  lemma DoublesIffCollided(r: Run, i: nat) returns (x: nat)
    requires IsRun(r) && i < |r.steps| && r.steps[i].Submit? && RunPastInherited(r, i) && NoDouble(r, i)
    ensures ChosenAt(r, x, i)
    ensures Doubles(r.states[i], r.steps[i]) <==>
            Collides(r.states[x], r.steps[x]) && exists id :: OnFile(r.states[i], r.states[x].lastFileId, id)
  {
    assert Takes(r, i);
    x := ChoiceOf(r, i);
    var f := r.states[i].caller.file;
    RunKeepsInv(r, x);
    if id :| OnFile(r.states[i], f, id) {
      TaskWasThere(r, x, i, f, id);
      ExclusiveIffNoDouble(r, x);
      RunKnowsIds(r, x);
      BusyChoiceCollides(r.states[x], r.steps[x], id);
    }
    if Collides(r.states[x], r.steps[x]) {
      CollidingFile(r.states[x], r.steps[x]);
    }
  }

  // ---- Counting the caller's choice ---------------------------------------------------------------

  ghost predicate ExclusiveWithCallerUpTo(r: Run, i: nat) {
    forall x | 0 <= x <= i && x < |r.states| :: Exclusive(r.states[x]) && CallerAlone(r.states[x])
  }

  ghost predicate CollisionFree(r: Run, i: nat)
    requires |r.states| == |r.steps| + 1
  {
    forall x | 0 <= x < i && x < |r.steps| :: !Collides(r.states[x], r.steps[x])
  }

  /** A choice leaves the caller alone on its file if and only if it does not collide. */
  lemma ChoiceIsAloneIff(s: State, step: Step)
    requires Inv(s) && Exclusive(s) && IdsKnown(s) && Enabled(s, step) && step.Choose? && PastInherited(s, step)
    ensures CallerAlone(Apply(s, step)) <==> !Collides(s, step)
  {
    var f := ChosenFile(s, step.choice);
    forall id ensures OnFile(Apply(s, step), f, id) <==> OnFile(s, f, id) {
      ChoosingStep(s, step, f, id);
    }
    assert Apply(s, step).caller.Chosen? && Apply(s, step).caller.file == f;
    if id :| OnFile(s, f, id) {
      BusyChoiceCollides(s, step, id);
    } else if Collides(s, step) {
      CollidingFile(s, step);
    }
  }

  /** Other steps leave the caller alone if it was. */
  lemma OtherStepsLeaveAlone(s: State, step: Step)
    requires CallerAlone(s) && Enabled(s, step) && !step.Choose?
    ensures CallerAlone(Apply(s, step))
  {
    if Apply(s, step).caller.Chosen? {
      forall id ensures !OnFile(Apply(s, step), s.caller.file, id) {
        WaitingStep(s, step, s.caller.file, id);
      }
    }
  }

  lemma RunStepIsAloneIff(r: Run, i: nat)
    requires IsRun(r) && i < |r.steps| && RunPastInherited(r, i + 1) && Exclusive(r.states[i]) && CallerAlone(r.states[i])
    ensures Exclusive(r.states[i + 1]) && (CallerAlone(r.states[i + 1]) <==> !Collides(r.states[i], r.steps[i]))
  {
    assert Takes(r, i);
    RunStepKeepsExclusiveIff(r, i);
    if r.steps[i].Choose? {
      RunKeepsInv(r, i);
      RunKnowsIds(r, i);
      ChoiceIsAloneIff(r.states[i], r.steps[i]);
    } else {
      OtherStepsLeaveAlone(r.states[i], r.steps[i]);
    }
  }

  /** From clock to choice: exclusivity that counts the file the caller has chosen holds throughout if and only if no choice collides. */
  lemma {:induction false} ExclusiveIffNoCollision(r: Run, i: nat)
    requires IsRun(r) && i < |r.states| && RunPastInherited(r, i)
    ensures ExclusiveWithCallerUpTo(r, i) <==> CollisionFree(r, i)
  {
    if i > 0 {
      ExclusiveIffNoCollision(r, i - 1);
      if Exclusive(r.states[i - 1]) && CallerAlone(r.states[i - 1]) {
        RunStepIsAloneIff(r, i - 1);
      }
    } else {
      FirstIsExclusive(r.states[0]);
    }
  }

  /** In a paced run the busy set is exact and no file ever has two tasks in flight. */
  lemma OneWriterPerFile(r: Run, i: nat)
    requires IsRun(r) && i < |r.states|
    requires forall x | 0 <= x < i :: Paced(r.states[x], r.steps[x])
    ensures Exclusive(r.states[i]) && CallerAlone(r.states[i])
  {
    assert RunPastInherited(r, i) && CollisionFree(r, i);
    ExclusiveIffNoCollision(r, i);
  }
}
