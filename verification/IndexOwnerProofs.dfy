/** What every interleaving of the dispatch thread and the index owner keeps. */
module IndexOwnerProofs {
  import opened Wrappers
  import opened IndexOwner

  /* ---- The invariant ---- */

  /** The numbers of the runs that are queued, executing, or answered but not taken. */
  function InFlight(s: State): seq<nat> {
    seq(|s.requests|, i requires 0 <= i < |s.requests| => s.requests[i].number)
    + (if s.owner.Working? then [s.owner.run.number] else if s.owner.Answering? then [s.owner.answer.number] else [])
    + seq(|s.answers|, i requires 0 <= i < |s.answers| => s.answers[i].number)
  }

  predicate Down(s: State) {
    s.phase.Closing? || s.phase.Closed?
  }

  /** The owner thread can still serve: it was spawned, has not returned, and
      the runtime is not being torn down. */
  predicate OwnerLives(s: State) {
    !Down(s) && !Gone(s.owner)
  }

  predicate Starting(s: State) {
    s.phase.Prepared? || s.phase.Armed?
  }

  ghost predicate Channels(s: State) {
    && (s.owner.Absent? && !Down(s) ==> s.requests == [] && s.answers == [] && !s.requestsOpen && !s.answersOpen && !s.busy && s.generation == None)
    && (!Down(s) && !s.owner.Absent? ==> s.requestsOpen && s.answersOpen)
    && (Starting(s) ==> !s.busy && !s.owner.Absent?)
    && (s.phase.Blocked? || s.phase.Routed? ==> s.busy)
    && (s.phase.Routed? ==> s.deferred.Some?)
    && (s.phase == Blocked(false) ==> s.deferred == None)
  }

  /** Queued, executing and answered runs number one if busy and none otherwise;
      a dead owner may have lost the one. */
  ghost predicate OneRun(s: State) {
    && (!s.busy ==> InFlight(s) == [])
    && (OwnerLives(s) && s.busy ==> |InFlight(s)| == 1)
    && |InFlight(s)| <= 1
    && (InFlight(s) != [] ==> s.generation == Some(InFlight(s)[0]))
    && (s.busy ==> s.generation.Some?)
    && (OwnerLives(s) && !Starting(s) ==> (s.busy <==> s.generation.Some?))
    && (Starting(s) ==> s.generation == Some(s.phase.run.number) && s.runTask == s.phase.run.task)
    && (forall run :: run in s.requests ==> run.task == s.runTask)
    && (s.owner.Working? ==> s.owner.run.task == s.runTask)
  }

  /** The request waiting for a response, with its run. */
  function Owed(s: State): seq<(RequestId, nat)> {
    if s.deferred.Some? && s.generation.Some? then [(s.deferred.value, s.generation.value)] else []
  }

  ghost predicate Debts(s: State) {
    && (s.deferred.Some? ==> s.busy && s.generation.Some?)
    && s.history.accepted == s.history.answered + Owed(s)
  }

  /** The flag is raised over a run only for that run's own task. */
  ghost predicate CancelOwned(s: State) {
    && (s.phase.Armed? ==> !s.cancel)
    && (s.cancel && !Down(s) ==>
          && (forall run :: run in s.requests ==>
                run.task.Some? && (run.number, run.task.value) in s.history.observed)
          && (s.owner.Working? ==>
                s.owner.run.task.Some? && (s.owner.run.number, s.owner.run.task.value) in s.history.observed))
  }

  ghost predicate Numbered(s: State) {
    && (forall g :: g in s.rows ==> g in s.history.issued)
    && (forall g :: g in s.history.issued ==> g < NextNumber(s.rows))
    && (s.generation.Some? ==> Newest(s.rows, s.generation.value))
  }

  predicate SealedOnce(seals: seq<Sealing>, g: nat) {
    exists r :: r in seals && r.generation == g
  }

  predicate Stored(seals: seq<Sealing>, g: nat) {
    exists r :: r in seals && r.generation == g && r.stored
  }

  /** The seal that makes a generation read fresh: its own run's complete graph,
      under a task read as not cancelled. */
  predicate FreshSeal(r: Sealing, g: nat) {
    r.generation == g && r.number == g && r.stored && r.outcome == Graph(true) && !Doomed(r.task, r.read)
  }

  ghost predicate Sealings(s: State) {
    && (forall i, j :: 0 <= i < j < |s.history.seals| ==>
          s.history.seals[i].generation != s.history.seals[j].generation)
    && (forall r :: r in s.history.seals ==> r.generation in s.history.issued && r.number == r.generation)
    && (s.generation.Some? ==> !SealedOnce(s.history.seals, s.generation.value))
    && (forall g {:trigger ReadsFresh(s.rows, g)} :: ReadsFresh(s.rows, g) ==>
          exists r :: r in s.history.seals && FreshSeal(r, g))
  }

  /** Between a fresh generation and any later stored one lies a reservation
      whose seal never reached the table. */
  ghost predicate Gap(s: State, p: nat, q: nat) {
    exists r :: r in s.history.issued && p < r < q && !Stored(s.history.seals, r)
  }

  ghost predicate Gaps(s: State) {
    forall p, q {:trigger Gap(s, p, q)} ::
      ReadsFresh(s.rows, p) && p < q && Stored(s.history.seals, q) ==> Gap(s, p, q)
  }

  ghost predicate Inv(s: State) {
    Channels(s) && OneRun(s) && Debts(s) && CancelOwned(s) && Numbered(s) && Sealings(s) && Gaps(s)
  }

  /* ---- The table ---- */

  lemma PruneKeepsNewest(rows: Rows, g: nat)
    requires Newest(rows, g)
    ensures Newest(Prune(rows), g) && Prune(rows)[g] == rows[g]
  {
    assert Newer(rows, g) == {};
  }

  lemma SealRowShape(rows: Rows, g: nat, state: RowState)
    requires Newest(rows, g)
    ensures var sealed := SealRow(rows, g, state);
            && Newest(sealed, g)
            && sealed[g] == Row(state, true)
            && (forall h :: h in sealed ==> h in rows)
            && (forall h :: ReadsFresh(sealed, h) && h != g ==> ReadsFresh(rows, h) && Latest(Without(rows, g)) != Some(h))
  {
    var marked := rows[g := Row(state, true)];
    assert Without(marked, g) == Without(rows, g);
    var superseded := Supersede(marked, g);
    PruneKeepsNewest(superseded, g);
  }

  lemma ReserveShape(rows: Rows)
    ensures Newest(Reserve(rows), NextNumber(rows)) && NextNumber(rows) !in rows
    ensures forall g :: g in rows ==> g in Reserve(rows) && Reserve(rows)[g] == rows[g] && g < NextNumber(rows)
    ensures forall g :: ReadsFresh(Reserve(rows), g) ==> ReadsFresh(rows, g)
  {
  }

  lemma MarkShape(rows: Rows, cause: StaleCause)
    ensures MarkLatest(rows, cause).Keys == rows.Keys
    ensures forall g :: ReadsFresh(MarkLatest(rows, cause), g) ==> ReadsFresh(rows, g)
  {
  }

  /* ---- Preservation ---- */

  lemma InitialTable()
    ensures Numbered(Initial) && Sealings(Initial) && Gaps(Initial)
  {
    assert forall g :: !ReadsFresh(Initial.rows, g) && !Stored(Initial.history.seals, g);
  }

  lemma {:induction false} InitialInv()
    ensures Inv(Initial)
  {
    hide Numbered, Sealings, Gaps;
    InitialTable();
  }

  /** Steps that touch no row keep what is said of the table. */
  lemma TableUntouched(s: State, t: State)
    requires Numbered(s) && Sealings(s) && Gaps(s)
    requires t.rows == s.rows && t.history.issued == s.history.issued && t.history.seals == s.history.seals
    requires t.generation == s.generation
    ensures Numbered(t) && Sealings(t) && Gaps(t)
  {
    forall p: nat, q: nat | ReadsFresh(t.rows, p) && p < q && Stored(t.history.seals, q)
      ensures Gap(t, p, q)
    {
      assert Gap(s, p, q);
    }
  }

  lemma ReservedKeepsTable(s: State, t: State)
    requires Numbered(s) && Sealings(s) && Gaps(s)
    requires t.rows == Reserve(s.rows) && t.history.seals == s.history.seals
    requires t.history.issued == s.history.issued + {NextNumber(s.rows)}
    requires t.generation == Some(NextNumber(s.rows))
    ensures Numbered(t) && Sealings(t) && Gaps(t)
  {
    ReserveShape(s.rows);
    assert NextNumber(s.rows) !in s.history.issued;
    forall p: nat, q: nat | ReadsFresh(t.rows, p) && p < q && Stored(t.history.seals, q)
      ensures Gap(t, p, q)
    {
      assert Gap(s, p, q);
    }
  }

  lemma BegunKeeps(s: State, client: Client, task: Option<TaskId>, read: TaskRead, prepared: bool)
    requires Inv(s) && DispatchEnabled(s, Begin(client, task, read, prepared))
    ensures Inv(Begun(s, client, task, read, prepared))
  {
    hide Sealings, Gaps;
    var t := Begun(s, client, task, read, prepared);
    if t.phase.Prepared? {
      ReservedKeepsTable(s, t);
      assert InFlight(t) == [];
    } else {
      TableUntouched(s, t);
    }
  }

  lemma SentKeeps(s: State, synchronous: bool)
    requires Inv(s) && s.phase.Armed?
    ensures Inv(Sent(s, synchronous))
  {
    hide Numbered, Sealings, Gaps;
    var t := Sent(s, synchronous);
    TableUntouched(s, t);
    if t.busy {
      assert s.requests == [] && s.answers == [] && !s.owner.Working? && !s.owner.Answering? by {
        assert InFlight(s) == [];
        assert |s.requests| <= |InFlight(s)| && |s.answers| <= |InFlight(s)|;
      }
      assert t.requests == [s.phase.run];
      assert InFlight(t) == [s.phase.run.number];
    }
  }

  lemma ObservedKeeps(s: State, read: TaskRead)
    requires Inv(s) && !Starting(s)
    ensures Inv(Observed(s, read))
  {
    hide Numbered, Sealings, Gaps;
    var t := Observed(s, read);
    TableUntouched(s, t);
    assert InFlight(t) == InFlight(s);
    if t.cancel && !s.cancel && !Down(t) {
      forall run | run in t.requests
        ensures run.task.Some? && (run.number, run.task.value) in t.history.observed
      {
        var i :| 0 <= i < |s.requests| && s.requests[i] == run;
        assert InFlight(s)[i] == run.number;
      }
    }
  }

  /** An answer waiting to be taken is the only run in flight, and its number
      is the generation the dispatch thread holds. */
  lemma AnswerIsTheRun(s: State)
    requires OneRun(s) && s.answers != []
    ensures |s.answers| == 1 && s.requests == [] && !s.owner.Working? && !s.owner.Answering?
    ensures s.generation == Some(s.answers[0].number)
  {
    assert |InFlight(s)| >= |s.requests| + |s.answers|;
    assert InFlight(s)[0] == s.answers[0].number;
  }

  /** A stored seal of the newest generation: the one it supersedes is the only
      row between it and every older fresh row that can lack a gap. */
  lemma SealedKeepsGaps(s: State, t: State, g: nat, state: RowState, record: Sealing)
    requires Numbered(s) && Sealings(s) && Gaps(s) && s.generation == Some(g)
    requires record.generation == g
    requires t.history.issued == s.history.issued && t.history.seals == s.history.seals + [record]
    requires t.rows == if record.stored then SealRow(s.rows, g, state) else s.rows
    requires record.stored && state == Fresh ==> FreshSeal(record, g)
    ensures Gaps(t)
  {
    SealRowShape(s.rows, g, state);
    forall r
      ensures Stored(t.history.seals, r) <==> Stored(s.history.seals, r) || (r == g && record.stored)
    {
      assert record in t.history.seals;
      assert forall x :: x in t.history.seals <==> x in s.history.seals || x == record;
    }
    forall p: nat, q: nat | ReadsFresh(t.rows, p) && p < q && Stored(t.history.seals, q)
      ensures Gap(t, p, q)
    {
      var x :| x in t.history.seals && x.generation == q;
      assert q <= g;
      if q < g {
        assert Gap(s, p, q);
        var r :| r in s.history.issued && p < r < q && !Stored(s.history.seals, r);
        assert !Stored(t.history.seals, r);
      } else {
        assert record.stored;
        assert ReadsFresh(s.rows, p) && p in Without(s.rows, g);
        var previous := Latest(Without(s.rows, g)).value;
        assert p < previous < g;
        if Stored(s.history.seals, previous) {
          assert Gap(s, p, previous);
          var r :| r in s.history.issued && p < r < previous && !Stored(s.history.seals, r);
          assert !Stored(t.history.seals, r);
        } else {
          assert !Stored(t.history.seals, previous);
        }
      }
    }
  }

  lemma SealedKeepsSealings(s: State, t: State, g: nat, state: RowState, record: Sealing)
    requires Numbered(s) && Sealings(s) && s.generation == Some(g)
    requires record.generation == g && record.number == g
    requires t.generation == None
    requires t.history.issued == s.history.issued && t.history.seals == s.history.seals + [record]
    requires t.rows == if record.stored then SealRow(s.rows, g, state) else s.rows
    requires record.stored && state == Fresh ==> FreshSeal(record, g)
    ensures Numbered(t) && Sealings(t)
  {
    SealRowShape(s.rows, g, state);
    assert record in t.history.seals;
    assert forall x :: x in t.history.seals <==> x in s.history.seals || x == record;
    forall i, j | 0 <= i < j < |t.history.seals|
      ensures t.history.seals[i].generation != t.history.seals[j].generation
    {
      assert t.history.seals[i] in s.history.seals;
    }
    forall h | ReadsFresh(t.rows, h)
      ensures exists r :: r in t.history.seals && FreshSeal(r, h)
    {
      if h == g && record.stored {
        assert FreshSeal(record, h);
      } else {
        assert ReadsFresh(s.rows, h);
        var r :| r in s.history.seals && FreshSeal(r, h);
        assert r in t.history.seals;
      }
    }
  }

  lemma FinishedKeeps(s: State, read: TaskRead, stored: bool, owed: bool)
    requires Inv(s) && s.answers != [] && !Starting(s) && !Down(s) && !s.phase.Routed?
    requires s.phase.Blocked? ==> s.phase.owed == owed
    requires s.phase.Idle? ==> owed
    ensures Inv(Finished(s.(phase := Idle, answers := s.answers[1..]), s.answers[0], read, stored, owed))
  {
    AnswerIsTheRun(s);
    var u := s.(phase := Idle, answers := s.answers[1..]);
    var t := Finished(u, s.answers[0], read, stored, owed);
    var g := s.generation.value;
    var state := SealedState(Verdict(s.runTask, read, s.answers[0].outcome));
    var record := Sealing(g, s.answers[0].number, s.runTask, read, s.answers[0].outcome, stored);
    SealedKeepsGaps(s, t, g, state, record);
    SealedKeepsSealings(s, t, g, state, record);
    assert InFlight(t) == [];
  }

  lemma OwnerTakeKeeps(s: State)
    requires Inv(s) && OwnerEnabled(s, OwnerTake)
    ensures Inv(OwnerStep(s, OwnerTake))
  {
    hide Numbered, Sealings, Gaps;
    var t := OwnerStep(s, OwnerTake);
    TableUntouched(s, t);
    assert s.requests == [s.requests[0]] by {
      assert |InFlight(s)| >= |s.requests|;
    }
    assert s.requests[0] in s.requests;
    assert InFlight(s)[0] == s.requests[0].number;
    assert InFlight(t) == InFlight(s);
  }

  lemma OwnerSendKeeps(s: State)
    requires Inv(s) && OwnerEnabled(s, OwnerSend)
    ensures Inv(OwnerStep(s, OwnerSend))
  {
    hide Numbered, Sealings, Gaps;
    var t := OwnerStep(s, OwnerSend);
    TableUntouched(s, t);
    assert s.requests == [] && s.answers == [] by {
      assert |InFlight(s)| >= 1 + |s.requests| + |s.answers|;
    }
    assert t.answersOpen ==> InFlight(t) == InFlight(s);
    assert InFlight(s) == [s.owner.answer.number];
  }

  lemma OwnerPanicKeeps(s: State)
    requires Inv(s) && OwnerEnabled(s, OwnerPanic)
    ensures Inv(OwnerStep(s, OwnerPanic))
  {
    hide Numbered, Sealings, Gaps;
    TableUntouched(s, OwnerStep(s, OwnerPanic));
    assert s.requests == [] && s.answers == [] by {
      assert |InFlight(s)| >= 1 + |s.requests| + |s.answers|;
    }
  }

  lemma OwnerQuietKeeps(s: State, e: Event)
    requires Inv(s) && OwnerEnabled(s, e) && (e.OwnerFinish? || e.OwnerHangup? || e.OwnerPing?)
    ensures Inv(OwnerStep(s, e))
  {
    hide Numbered, Sealings, Gaps;
    TableUntouched(s, OwnerStep(s, e));
    assert InFlight(OwnerStep(s, e)) == InFlight(s);
  }

  lemma OwnerKeeps(s: State, e: Event)
    requires Inv(s) && OwnerEnabled(s, e)
    ensures Inv(OwnerStep(s, e))
  {
    hide Inv, OwnerStep;
    match e {
      case OwnerTake => OwnerTakeKeeps(s);
      case OwnerFinish(_) => OwnerQuietKeeps(s, e);
      case OwnerSend => OwnerSendKeeps(s);
      case OwnerPanic => OwnerPanicKeeps(s);
      case OwnerHangup => OwnerQuietKeeps(s, e);
      case OwnerPing(_) => OwnerQuietKeeps(s, e);
    }
  }

  lemma WatchKeeps(s: State, cause: StaleCause)
    requires Inv(s)
    ensures Inv(s.(rows := MarkLatest(s.rows, cause)))
  {
    var t := s.(rows := MarkLatest(s.rows, cause));
    MarkShape(s.rows, cause);
    assert InFlight(t) == InFlight(s);
    assert Latest(t.rows) == Latest(s.rows) by {
      if s.rows != map[] {
        assert t.rows != map[] by {
          assert Latest(s.rows).value in t.rows;
        }
      }
    }
    forall p: nat, q: nat | ReadsFresh(t.rows, p) && p < q && Stored(t.history.seals, q)
      ensures Gap(t, p, q)
    {
      assert Gap(s, p, q);
    }
    assert forall g :: ReadsFresh(t.rows, g) ==> ReadsFresh(s.rows, g);
  }

  lemma OtherDispatchKeeps(s: State, e: Event)
    requires Inv(s) && DispatchEnabled(s, e)
    requires e.ClearFlag? || e.Shutdown? || e.Join?
    ensures Inv(DispatchStep(s, e))
  {
    var t := DispatchStep(s, e);
    TableUntouched(s, t);
    assert e.Join? || InFlight(t) == InFlight(s);
  }

  lemma DispatchKeeps(s: State, e: Event)
    requires Inv(s) && DispatchEnabled(s, e)
    ensures Inv(DispatchStep(s, e))
  {
    match e {
      case Watch(cause) => WatchKeeps(s, cause);
      case Begin(client, task, read, prepared) => BegunKeeps(s, client, task, read, prepared);
      case Send(synchronous) => SentKeeps(s, synchronous);
      case Route(read) => RouteKeeps(s, read);
      case Pump(observedRead, sealRead, stored) =>
        ObservedKeeps(s, observedRead);
        var t := Observed(s, observedRead);
        if t.answersOpen && t.answers != [] {
          FinishedKeeps(t, sealRead, stored, true);
          assert t.(phase := Idle) == t;
        }
      case WaitOwed(read) => WaitKeeps(s, read);
      case Receive(sealRead, stored) =>
        if s.answers != [] {
          FinishedKeeps(s, sealRead, stored, s.phase.owed);
        } else {
          PhaseKeeps(s, Idle);
        }
      case ClearFlag => OtherDispatchKeeps(s, e);
      case Shutdown => OtherDispatchKeeps(s, e);
      case Join => OtherDispatchKeeps(s, e);
    }
  }

  lemma PhaseKeeps(s: State, phase: Phase)
    requires Inv(s) && !Starting(s) && !Down(s)
    requires phase == Idle || (phase == Blocked(true) && s.busy)
    ensures Inv(s.(phase := phase))
  {
    var t := s.(phase := phase);
    TableUntouched(s, t);
    assert InFlight(t) == InFlight(s);
  }

  lemma RouteKeeps(s: State, read: TaskRead)
    requires Inv(s) && s.phase.Routed?
    ensures Inv(DispatchStep(s, Route(read)))
  {
    ObservedKeeps(s, read);
    if s.phase.synchronous {
      PhaseKeeps(Observed(s, read), Blocked(true));
    } else {
      PhaseKeeps(s, Idle);
    }
  }

  lemma WaitKeeps(s: State, read: TaskRead)
    requires Inv(s) && DispatchEnabled(s, WaitOwed(read))
    ensures Inv(DispatchStep(s, WaitOwed(read)))
  {
    ObservedKeeps(s, read);
    PhaseKeeps(Observed(s, read), Blocked(true));
  }

  lemma CrashKeeps(s: State)
    requires Inv(s)
    ensures Inv(Next(s, Crash))
  {
    var t := Next(s, Crash);
    forall p: nat, q: nat | ReadsFresh(t.rows, p) && p < q && Stored(t.history.seals, q)
      ensures Gap(t, p, q)
    {
      assert Gap(s, p, q);
    }
    assert InFlight(t) == [];
  }

  /** The invariant holds after every interleaving. */
  lemma {:induction false} RunsKeepInv(s: State, events: seq<Event>)
    requires Inv(s) && IsRun(s, events)
    ensures Inv(After(s, events))
    decreases |events|
  {
    if events != [] {
      var e := events[0];
      if e.Crash? {
        CrashKeeps(s);
      } else if OwnerEnabled(s, e) {
        OwnerKeeps(s, e);
      } else {
        DispatchKeeps(s, e);
      }
      RunsKeepInv(Next(s, e), events[1..]);
    }
  }

  /* ---- Main results ---- */

  /** Some run of the machine, from an empty table, ends here. */
  ghost predicate Reachable(s: State) {
    exists events :: IsRun(Initial, events) && After(Initial, events) == s
  }

  lemma ReachableInv(s: State)
    requires Reachable(s)
    ensures Inv(s)
  {
    var events :| IsRun(Initial, events) && After(Initial, events) == s;
    InitialInv();
    RunsKeepInv(Initial, events);
  }

  /** While the owner lives, the runs queued, executing and answered number one
      if busy and none otherwise, a generation is held exactly then, and the
      held generation is that run's own. No bounded send can block. */
  lemma OneRunInFlight(s: State)
    requires Reachable(s) && OwnerLives(s)
    ensures |InFlight(s)| == if s.busy then 1 else 0
    ensures !Starting(s) ==> (s.busy <==> s.generation.Some?)
    ensures s.busy ==> s.generation == Some(InFlight(s)[0])
    ensures s.deferred.Some? ==> s.busy
    ensures s.phase.Armed? ==> !s.busy && CanSend(s)
    ensures s.owner.Answering? ==> OwnerEnabled(s, OwnerSend)
  {
    ReachableInv(s);
    assert |InFlight(s)| >= |s.requests| + |s.answers|;
    if s.owner.Answering? {
      assert |InFlight(s)| >= 1 + |s.answers|;
    }
  }

  /** Accepted requests are answered once each, in order, under their own id,
      with the generation of the run each of them started. */
  lemma ResponsesFollowRequests(s: State)
    requires Reachable(s)
    ensures s.history.answered <= s.history.accepted <= s.history.answered + Owed(s)
    ensures |s.history.accepted| == |s.history.answered| + if s.deferred.Some? then 1 else 0
  {
    ReachableInv(s);
  }

  /** A start refused because a run is in flight leaves no trace. */
  lemma RefusedStartChangesNothing(s: State, client: Client, task: Option<TaskId>, read: TaskRead, prepared: bool)
    requires Reachable(s) && s.busy && s.phase.Idle?
    ensures Begun(s, client, task, read, prepared) == s
  {
    ReachableInv(s);
  }

  /** A run executes under a raised flag only once its own task was observed
      cancelled after it was started, or teardown began. */
  lemma CancelIsolated(s: State)
    requires Reachable(s) && s.owner.Working? && s.cancel
    ensures Down(s) || (s.owner.run.task.Some? && (s.owner.run.number, s.owner.run.task.value) in s.history.observed)
  {
    ReachableInv(s);
  }

  /** No number is sealed twice or reserved twice, and a generation reads fresh
      only by the stored seal of its own run's complete graph under a task read
      as not cancelled. */
  lemma FreshIsEarned(s: State, g: nat)
    requires Reachable(s)
    ensures forall i, j :: 0 <= i < j < |s.history.seals| ==>
              s.history.seals[i].generation != s.history.seals[j].generation
    ensures NextNumber(s.rows) !in s.history.issued
    ensures ReadsFresh(s.rows, g) ==> exists r :: r in s.history.seals && FreshSeal(r, g)
  {
    ReachableInv(s);
  }
}
