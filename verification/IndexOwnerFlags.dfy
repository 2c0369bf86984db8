/** What a start, an observation, a seal and a watch mark each bring about: the
    flag a doomed run sees, and what the generation table then reports. */
module IndexOwnerFlags {
  import opened Wrappers
  import opened IndexOwner
  import opened IndexOwnerProofs
  import opened IndexOwnerRuns

  /* ---- The cancel flag ---- */

  /** While a run is in flight the flag is up exactly when that run's own task was
      observed doomed, and no run starts with an observation against it. */
  ghost predicate Flagged(s: State) {
    && (forall o :: o in s.history.observed ==> o.0 in s.history.issued)
    && (Starting(s) ==> forall o :: o in s.history.observed ==> o.0 != s.phase.run.number)
    && (!Down(s) && s.busy ==>
          (s.cancel <==> s.runTask.Some? && s.generation.Some? && (s.generation.value, s.runTask.value) in s.history.observed))
  }

  lemma FlaggedOwner(s: State, e: Event)
    requires Inv(s) && Flagged(s) && OwnerEnabled(s, e)
    ensures Flagged(OwnerStep(s, e))
  {
    hide Numbered, Sealings, Gaps, OneRun, Debts, CancelOwned, Channels;
  }

  lemma FlaggedBegin(s: State, e: Event)
    requires Inv(s) && Flagged(s) && e.Begin? && DispatchEnabled(s, e)
    ensures Flagged(DispatchStep(s, e))
  {
    hide Sealings, Gaps, Debts;
    ReserveShape(s.rows);
    assert NextNumber(s.rows) !in s.history.issued;
  }

  lemma FlaggedSend(s: State, synchronous: bool)
    requires Inv(s) && Flagged(s) && s.phase.Armed?
    ensures Flagged(Sent(s, synchronous))
  {
    hide Numbered, Sealings, Gaps, Debts;
  }

  lemma FlaggedObserved(s: State, read: TaskRead)
    requires Inv(s) && Flagged(s) && !Starting(s)
    ensures Flagged(Observed(s, read))
  {
    hide Sealings, Gaps, Debts;
    ObservedNumber(s);
  }

  lemma ObservedNumber(s: State)
    requires Inv(s)
    ensures s.generation.Some? ==> s.generation.value in s.rows && s.generation.value in s.history.issued
    ensures s.busy ==> s.generation.Some?
  {
    hide Sealings, Gaps, Debts;
  }

  /** A step that takes an answer ends the run, and with it what the flag says. */
  lemma FlaggedPump(s: State, observedRead: TaskRead, read: TaskRead, stored: bool)
    requires Inv(s) && Flagged(s) && s.phase.Idle?
    ensures Flagged(Pumped(s, observedRead, read, stored))
  {
    FlaggedObserved(s, observedRead);
    hide Inv, SealRow;
  }

  lemma FlaggedReading(s: State, e: Event)
    requires Inv(s) && Flagged(s) && DispatchEnabled(s, e) && (e.WaitOwed? || e.Route?)
    ensures Flagged(DispatchStep(s, e))
  {
    FlaggedObserved(s, if e.WaitOwed? then e.observedRead else e.read);
    hide Inv;
  }

  lemma FlaggedQuiet(s: State, e: Event)
    requires Flagged(s) && DispatchEnabled(s, e)
    requires e.Watch? || e.Receive? || e.Shutdown? || e.Join?
    ensures Flagged(DispatchStep(s, e))
  {
    hide SealRow, MarkLatest;
  }

  lemma FlaggedDispatch(s: State, e: Event)
    requires Inv(s) && Flagged(s) && DispatchEnabled(s, e)
    ensures Flagged(DispatchStep(s, e))
  {
    hide Inv, Flagged;
    match e {
      case Begin(_, _, _, _) => FlaggedBegin(s, e);
      case Send(synchronous) => FlaggedSend(s, synchronous);
      case Pump(observedRead, read, stored) => FlaggedPump(s, observedRead, read, stored);
      case WaitOwed(_) => FlaggedReading(s, e);
      case Route(_) => FlaggedReading(s, e);
      case ClearFlag => FlaggedClear(s);
      case Watch(_) => FlaggedQuiet(s, e);
      case Receive(_, _) => FlaggedQuiet(s, e);
      case Shutdown => FlaggedQuiet(s, e);
      case Join => FlaggedQuiet(s, e);
    }
  }

  lemma FlaggedClear(s: State)
    requires Inv(s) && Flagged(s) && s.phase.Prepared?
    ensures Flagged(Cleared(s))
  {
    hide Numbered, Sealings, Gaps, Debts, CancelOwned;
  }

  lemma {:induction false} RunsKeepFlagged(s: State, events: seq<Event>)
    requires Inv(s) && Flagged(s) && IsRun(s, events)
    ensures Flagged(After(s, events))
    decreases |events|
  {
    hide Inv, Flagged;
    if events != [] {
      var e := events[0];
      StepKeeps(s, e);
      FlaggedStep(s, e);
      RunsKeepFlagged(Next(s, e), events[1..]);
    }
  }

  lemma FlaggedStep(s: State, e: Event)
    requires Inv(s) && Flagged(s) && Enabled(s, e)
    ensures Flagged(Next(s, e))
  {
    if e.Crash? {
    } else if OwnerEnabled(s, e) {
      FlaggedOwner(s, e);
    } else {
      FlaggedDispatch(s, e);
    }
  }

  /** In every reachable state the flag of a run in flight says exactly whether its
      own task was observed doomed since it started. */
  lemma FlagMeansObserved(s: State)
    requires Reachable(s) && !Down(s) && s.busy
    ensures s.generation.Some?
    ensures s.cancel <==> s.runTask.Some? && (s.generation.value, s.runTask.value) in s.history.observed
  {
    var events :| IsRun(Initial, events) && After(Initial, events) == s;
    ReachableInv(s);
    InitialInv();
    RunsKeepFlagged(Initial, events);
  }

  /** What a dispatch step reads about the task of the run in flight. */
  function TaskReadBy(s: State, e: Event): Option<TaskRead> {
    match e
    case Pump(read, _, _) => Some(read)
    case WaitOwed(read) => Some(read)
    case Route(read) => if s.phase == Routed(true) then Some(read) else None
    case _ => None
  }

  /** Every turn that reads the task while its run is in flight, and takes no
      answer, raises the flag exactly on a doomed read, and records it as this
      run's own; the flag it finds up stays up. */
  lemma ReadRaisesTheFlag(s: State, e: Event)
    requires Reachable(s) && s.busy && DispatchEnabled(s, e) && TaskReadBy(s, e).Some?
    requires e.Pump? ==> s.answers == []
    ensures var doomed := Doomed(s.runTask, TaskReadBy(s, e).value);
            && s.generation.Some?
            && (Next(s, e).cancel <==> s.cancel || doomed)
            && Next(s, e).history.observed ==
               s.history.observed + if doomed then {(s.generation.value, s.runTask.value)} else {}
  {
    ReachableInv(s);
    ObservedNumber(s);
    hide Inv;
    assert !OwnerEnabled(s, e);
  }

  /** Nothing but the next start, or the end of the process, lowers the flag. */
  lemma FlagHoldsUntilTheNextStart(s: State, e: Event)
    requires s.cancel && Enabled(s, e) && !e.ClearFlag? && !e.Crash?
    ensures Next(s, e).cancel
  {
  }

  /* ---- Who waits ---- */

  /** Nothing but an answer, a lost owner or teardown moves the dispatch thread on. */
  ghost predicate Waits(s: State) {
    forall e :: DispatchEnabled(s, e) ==> e.Receive? || e.Shutdown?
  }

  /** A run handed over holds the dispatch thread exactly for a caller in the
      process and, once routed, for a request answered synchronously. */
  lemma WhoWaits(s: State, synchronous: bool, read: TaskRead)
    requires Reachable(s) && s.phase.Armed? && CanSend(s)
    ensures var t := Sent(s, synchronous);
            && t.busy && t.requests == [s.phase.run]
            && (Waits(t) <==> s.phase.client.Caller?)
            && (s.phase.client.Request? <==> t.deferred.Some?)
            && (s.phase.client.Request? ==>
                  t.deferred == Some(s.phase.client.id) && t.phase.Routed?
                  && (Waits(DispatchStep(t, Route(read))) <==> synchronous))
  {
    ReachableInv(s);
    ArmedIsFree(s);
    hide Inv, MarkLatest, SealRow;
    var t := Sent(s, synchronous);
    assert s.phase.client.Repair? ==> DispatchEnabled(t, Watch(WatcherMissed));
    assert s.phase.client.Request? ==> DispatchEnabled(t, Route(read));
    if s.phase.client.Request? {
      assert !synchronous ==> DispatchEnabled(DispatchStep(t, Route(read)), Watch(WatcherMissed));
    }
  }

  lemma ArmedIsFree(s: State)
    requires Inv(s) && s.phase.Armed?
    ensures !s.busy && s.requests == [] && s.deferred == None
  {
    hide Numbered, Sealings, Gaps, CancelOwned;
  }

  /* ---- Starts ---- */

  /** A start is prepared exactly when its task is provably live, no run is in
      flight and root and store allow it; then its own generation is reserved and
      reads interrupted, and otherwise table, generation and task stay. */
  lemma StartExact(s: State, client: Client, task: Option<TaskId>, read: TaskRead, prepared: bool)
    requires Reachable(s) && s.phase.Idle?
    ensures var t := Begun(s, client, task, read, prepared);
            var starts := (task == None || read == Live) && !s.busy && prepared;
            && (t.phase == Prepared(Run(NextNumber(s.rows), task), client) <==> starts)
            && (starts ==>
                  && t.generation == Some(NextNumber(s.rows)) && t.runTask == task
                  && NextNumber(s.rows) !in s.history.issued
                  && NextNumber(s.rows) in t.rows && Reads(t.rows[NextNumber(s.rows)]) == Stale(Interrupted)
                  && forall g :: g in s.rows ==> g in t.rows && t.rows[g] == s.rows[g])
            && (!starts ==>
                  && t.phase == s.phase && t.generation == s.generation && t.runTask == s.runTask
                  && t.rows == s.rows && t.cancel == s.cancel && t.deferred == s.deferred && t.busy == s.busy)
  {
    ReachableInv(s);
    ReserveShape(s.rows);
    hide Inv;
  }

  /* ---- What the table reports ---- */

  lemma PumpedRows(s: State, observedRead: TaskRead, read: TaskRead, stored: bool)
    requires Reachable(s) && s.phase.Idle? && s.answers != []
    ensures var g := s.answers[0].number;
            && s.generation == Some(g) && g in s.rows
            && Pumped(s, observedRead, read, stored).rows ==
               if stored then SealRow(s.rows, g, SealedState(Verdict(s.runTask, read, s.answers[0].outcome))) else s.rows
    ensures Newest(s.rows, s.answers[0].number)
  {
    ReachableInv(s);
    AnswerIsTheRun(s);
    var u := Observed(s, observedRead);
    assert u.runTask == s.runTask && u.generation == s.generation && u.rows == s.rows && u.answers == s.answers;
    hide Inv, SealRow, SealedState, Verdict;
  }

  lemma SealedStateExact(task: Option<TaskId>, read: TaskRead, outcome: Outcome)
    ensures var live := task == None || read == Live;
            var state := SealedState(Verdict(task, read, outcome));
            && (state == Fresh <==> live && outcome == Graph(true))
            && (state == Stale(PartialCoverage) <==> live && outcome == Graph(false))
            && (state == Stale(WorkerRefused) <==> live && outcome == Failed(true))
            && (state == Stale(IsolatedRun) <==> !live || outcome == Failed(false) || outcome == Cancelled)
  {
  }

  /** The run a pump seals reports itself by one state: fresh for the complete
      graph of a live task, and else stale with the cause of what it missed. */
  lemma SealReports(s: State, observedRead: TaskRead, read: TaskRead, stored: bool)
    requires Reachable(s) && s.phase.Idle? && s.answers != []
    ensures var g := s.answers[0].number;
            var t := Pumped(s, observedRead, read, stored);
            var live := s.runTask == None || read == Live;
            && s.generation == Some(g) && g in t.rows
            && (stored ==>
                  && (Reads(t.rows[g]) == Fresh <==> live && s.answers[0].outcome == Graph(true))
                  && (Reads(t.rows[g]) == Stale(PartialCoverage) <==> live && s.answers[0].outcome == Graph(false))
                  && (Reads(t.rows[g]) == Stale(WorkerRefused) <==> live && s.answers[0].outcome == Failed(true))
                  && (Reads(t.rows[g]) == Stale(IsolatedRun) <==>
                        !live || s.answers[0].outcome == Failed(false) || s.answers[0].outcome == Cancelled))
            && (!stored ==> t.rows == s.rows)
  {
    hide Pumped, SealRow, SealedState, Verdict, Reachable;
    PumpedRows(s, observedRead, read, stored);
    SealedStateExact(s.runTask, read, s.answers[0].outcome);
    SealRowShape(s.rows, s.answers[0].number, SealedState(Verdict(s.runTask, read, s.answers[0].outcome)));
  }

  /** A blocking receive that returns with an answer is the pump that takes it. */
  lemma ReceiveIsThePump(s: State, read: TaskRead, stored: bool)
    requires Reachable(s) && s.phase.Blocked? && s.answers != []
    ensures Received(s, read, stored) == Pumped(s.(phase := Idle), Live, read, stored)
  {
    ReachableInv(s);
    assert s.answersOpen && (s.phase == Blocked(false) ==> s.deferred == None);
    hide Inv, SealRow;
  }

  /** Every other row of a sealed table is what it was, but for the one that was
      current, and no row past retention is left. */
  lemma SealLeavesTheRest(rows: Rows, g: nat, state: RowState, p: nat)
    requires Newest(rows, g) && p != g
    ensures var sealed := SealRow(rows, g, state);
            && (p in sealed <==> p in rows && |Newer(rows, p)| < INDEX_GENERATION_RETENTION)
            && (p in sealed ==>
                  sealed[p] == if Latest(Without(rows, g)) == Some(p) && rows[p].state == Fresh
                               then Row(Stale(Superseded), true) else rows[p])
  {
    var marked := rows[g := Row(state, true)];
    assert Without(marked, g) == Without(rows, g);
    var superseded := Supersede(marked, g);
    assert superseded.Keys == rows.Keys;
    assert Newer(superseded, p) == Newer(rows, p);
  }

  /** A watch mark makes the newest generation report the watch's own cause, and
      leaves every other row alone. */
  lemma WatchReports(rows: Rows, cause: StaleCause, g: nat)
    requires Newest(rows, g)
    ensures var marked := MarkLatest(rows, cause);
            && marked.Keys == rows.Keys && Reads(marked[g]) == Stale(cause)
            && forall p :: p in rows && p != g ==> marked[p] == rows[p]
  {
    assert Latest(rows) == Some(g);
  }

  /** After a crash the generation in flight reads interrupted, and no other row
      reads differently. */
  lemma CrashReportsInterrupted(s: State, g: nat)
    requires Reachable(s) && g in s.rows
    ensures var t := Next(s, Crash);
            && g in t.rows && Reads(t.rows[g]) == Reads(s.rows[g])
            && (!s.rows[g].sealed ==> Reads(t.rows[g]) == Stale(Interrupted))
            && t.phase.Idle? && !t.busy && t.generation == None && t.deferred == None
  {
  }
}
