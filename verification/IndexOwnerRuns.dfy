/** Whole runs of the index owner: what must happen, what may happen, and the
    two promises of the generation table that do not hold unconditionally. */
module IndexOwnerRuns {
  import opened Wrappers
  import opened IndexOwner
  import opened IndexOwnerProofs

  /* ---- Progress ---- */

  /** Owner steps left until the run in flight is answered. */
  function StepsToAnswer(s: State): nat {
    if s.answers != [] then 0
    else
      match s.owner
      case Answering(_) => 1
      case Working(_) => 2
      case Waiting => 3
      case _ => 4
  }

  /** The owner of an unanswered run is never stuck, and each of its steps
      brings the answer closer or ends the owner: at most four steps. */
  lemma AnswerArrives(s: State)
    requires Reachable(s) && OwnerLives(s) && s.busy && s.answers == []
    ensures StepsToAnswer(s) <= 4
    ensures exists e :: OwnerEnabled(s, e)
    ensures forall e :: OwnerEnabled(s, e) ==>
              Gone(OwnerStep(s, e).owner) || StepsToAnswer(OwnerStep(s, e)) < StepsToAnswer(s)
  {
    ReachableInv(s);
    match s.owner {
      case Waiting =>
        assert s.requests != [];
        assert OwnerEnabled(s, OwnerTake);
      case Working(_) => assert OwnerEnabled(s, OwnerPanic);
      case Answering(_) => assert OwnerEnabled(s, OwnerSend);
      case Pinging => assert OwnerEnabled(s, OwnerPing(true));
    }
  }

  /** Owner steps left until the owner thread returns, once teardown began. */
  function StepsToExit(s: State): nat {
    match s.owner
    case Absent => 0
    case Exited(_) => 0
    case Answering(_) => 1
    case Working(_) => 2
    case Waiting => if s.requests == [] then 1 else 3
    case Pinging => if s.requests == [] then 2 else 4
  }

  /** From every reachable state teardown drives the owner to its end in at most
      four owner steps, so the join returns; a second teardown adds nothing. */
  lemma TeardownEnds(s: State)
    requires Reachable(s) && Down(s)
    ensures StepsToExit(s) <= 4
    ensures Gone(s.owner) || exists e :: OwnerEnabled(s, e)
    ensures forall e :: OwnerEnabled(s, e) ==> StepsToExit(OwnerStep(s, e)) < StepsToExit(s)
    ensures ShutdownBegun(s) == s || s.phase.Closed?
    ensures s.phase.Closed? ==> Joined(ShutdownBegun(s)) == s
  {
    ReachableInv(s);
    DownIsQuiet(s);
    match s.owner {
      case Waiting =>
        assert OwnerEnabled(s, if s.requests == [] then OwnerHangup else OwnerTake);
      case Working(_) => assert OwnerEnabled(s, OwnerPanic);
      case Answering(_) => assert OwnerEnabled(s, OwnerSend);
      case Pinging => assert OwnerEnabled(s, OwnerPing(true));
      case _ =>
    }
  }

  ghost predicate Quiet(s: State) {
    Down(s) ==> s.cancel && !s.requestsOpen && !s.answersOpen && (s.phase.Closed? ==> s.owner.Absent?)
  }

  lemma QuietStep(s: State, e: Event)
    requires Quiet(s) && Enabled(s, e)
    ensures Quiet(Next(s, e))
  {
    if e.Crash? {
    } else if OwnerEnabled(s, e) {
      var t := OwnerStep(s, e);
      assert Down(t) == Down(s) && t.cancel == s.cancel;
    } else if Down(s) {
      assert e.Shutdown? || e.Join?;
    } else if !e.Shutdown? {
      UpStaysUp(s, e);
    }
  }

  lemma UpStaysUp(s: State, e: Event)
    requires !Down(s) && DispatchEnabled(s, e) && !e.Shutdown?
    ensures !Down(DispatchStep(s, e))
  {
  }

  lemma {:induction false} QuietKept(s: State, events: seq<Event>)
    requires Quiet(s) && IsRun(s, events)
    ensures Quiet(After(s, events))
    decreases |events|
  {
    if events != [] {
      QuietStep(s, events[0]);
      QuietKept(Next(s, events[0]), events[1..]);
    }
  }

  lemma DownIsQuiet(s: State)
    requires Reachable(s)
    ensures Quiet(s)
  {
    var events :| IsRun(Initial, events) && After(Initial, events) == s;
    QuietKept(Initial, events);
  }

  /* ---- At most one current generation ---- */

  /** A seal leaves its generation the only one that reads fresh exactly when the
      only other fresh row within retention is the one it supersedes. */
  lemma SealLeavesOneFresh(rows: Rows, g: nat)
    requires Newest(rows, g)
    ensures (forall p :: ReadsFresh(SealRow(rows, g, Fresh), p) ==> p == g) <==>
            (forall p :: ReadsFresh(rows, p) && p != g && |Newer(rows, p)| < INDEX_GENERATION_RETENTION ==>
               Latest(Without(rows, g)) == Some(p))
  {
    SealRowShape(rows, g, Fresh);
    var sealed := SealRow(rows, g, Fresh);
    forall p | p != g
      ensures ReadsFresh(sealed, p) <==>
              ReadsFresh(rows, p) && |Newer(rows, p)| < INDEX_GENERATION_RETENTION && Latest(Without(rows, g)) != Some(p)
    {
      SealedOther(rows, g, p);
    }
  }

  /** What a seal of the newest generation does to any other row. */
  lemma SealedOther(rows: Rows, g: nat, p: nat)
    requires Newest(rows, g) && p != g
    ensures ReadsFresh(SealRow(rows, g, Fresh), p) <==>
            ReadsFresh(rows, p) && |Newer(rows, p)| < INDEX_GENERATION_RETENTION && Latest(Without(rows, g)) != Some(p)
  {
    var marked := rows[g := Row(Fresh, true)];
    assert Without(marked, g) == Without(rows, g);
    var superseded := Supersede(marked, g);
    assert superseded.Keys == rows.Keys;
    assert Newer(superseded, p) == Newer(rows, p);
  }

  /** Two generations read fresh together only across a reservation that was
      never sealed into the table: a crash, a failed seal, or a dead owner. */
  lemma TwoFreshNeedAGap(s: State, p: nat, q: nat)
    requires Reachable(s) && ReadsFresh(s.rows, p) && ReadsFresh(s.rows, q) && p < q
    ensures exists r :: r in s.history.issued && p < r < q && !Stored(s.history.seals, r)
  {
    ReachableInv(s);
    var r :| r in s.history.seals && FreshSeal(r, q);
    assert Stored(s.history.seals, q);
    assert Gap(s, p, q);
  }

  lemma {:induction false} RunConcat(s: State, first: seq<Event>, second: seq<Event>)
    requires IsRun(s, first) && IsRun(After(s, first), second)
    ensures IsRun(s, first + second) && After(s, first + second) == After(After(s, first), second)
    decreases |first|
  {
    if first == [] {
      assert first + second == second;
    } else {
      RunConcat(Next(s, first[0]), first[1..], second);
      assert (first + second)[1..] == first[1..] + second;
    }
  }

  lemma RunStep(s: State, events: seq<Event>, e: Event)
    requires IsRun(s, events) && Enabled(After(s, events), e)
    ensures IsRun(s, events + [e]) && After(s, events + [e]) == Next(After(s, events), e)
  {
    var t := After(s, events);
    assert IsRun(t, [e]) && After(t, [e]) == Next(t, e) by {
      assert [e][1..] == [];
    }
    RunConcat(s, events, [e]);
  }

  lemma ReachableStep(s: State, e: Event) returns (t: State)
    requires Reachable(s) && Enabled(s, e)
    ensures t == Next(s, e) && Reachable(t)
  {
    var events :| IsRun(Initial, events) && After(Initial, events) == s;
    RunStep(Initial, events, e);
    t := Next(s, e);
  }

  lemma RepairStarts(s: State) returns (t: State)
    requires Reachable(s) && s.phase.Idle? && s.generation == None && !s.busy
    requires s.owner.Absent? || (s.owner.Pinging? && s.requestsOpen && s.requests == [])
    requires s.deferred == None
    ensures Reachable(t)
    ensures var run := Run(NextNumber(s.rows), None);
            t == EnsureOwner(s).(rows := Reserve(s.rows), generation := Some(run.number), runTask := None,
                                 cancel := false, requests := [run], busy := true,
                                 history := s.history.(issued := s.history.issued + {run.number}))
  {
    var s1 := ReachableStep(s, Begin(Repair, None, Live, true));
    assert s1.phase == Prepared(Run(NextNumber(s.rows), None), Repair);
    var s2 := ReachableStep(s1, ClearFlag);
    t := ReachableStep(s2, Send(false));
  }

  lemma RunServed(s: State) returns (t: State)
    requires Reachable(s) && s.owner.Waiting? && |s.requests| == 1 && s.answersOpen && s.answers == []
    ensures Reachable(t)
    ensures t == s.(requests := [], answers := [Answer(s.requests[0].number, Graph(true))], owner := Pinging)
  {
    var s1 := ReachableStep(s, OwnerTake);
    var s2 := ReachableStep(s1, OwnerFinish(Graph(true)));
    t := ReachableStep(s2, OwnerSend);
  }

  /** A repair runs to a fresh seal in a process that has just booted. */
  lemma FreshCut(s: State) returns (t: State)
    requires Reachable(s) && s == Booted(s.rows, s.history.issued, s.history.seals)
    ensures Reachable(t) && t.rows == SealRow(Reserve(s.rows), NextNumber(s.rows), Fresh)
    ensures t.phase.Idle? && !t.busy && t.owner.Pinging? && t.generation == None && t.requestsOpen
    ensures t.deferred == None && t.requests == []
  {
    var started := RepairStarts(s);
    var served := RunServed(started);
    t := ReachableStep(served, Pump(Live, Live, true));
  }

  /** So the table can hold two generations that both read fresh: a cut, a crash
      after the next reservation, and another cut. */
  lemma TwoFreshAfterACrash() returns (s: State)
    ensures Reachable(s) && ReadsFresh(s.rows, 1) && ReadsFresh(s.rows, 3)
  {
    assert Reachable(Initial) by {
      assert IsRun(Initial, []) && After(Initial, []) == Initial;
    }
    var cut := FreshCut(Initial);
    FirstCutRows();
    var begun := RepairStarts(cut);
    var booted := ReachableStep(begun, Crash);
    s := FreshCut(booted);
    ThirdCutRows();
  }

  lemma FirstCutRows()
    ensures NextNumber(map[]) == 1 && SealRow(Reserve(map[]), 1, Fresh) == map[1 := Row(Fresh, true)]
  {
    SealRowShape(Reserve(map[]), 1, Fresh);
  }

  lemma ThirdCutRows()
    ensures var one := map[1 := Row(Fresh, true)];
            var two := Reserve(one);
            var sealed := SealRow(Reserve(two), NextNumber(two), Fresh);
            ReadsFresh(sealed, 1) && ReadsFresh(sealed, 3)
  {
    var one: Rows := map[1 := Row(Fresh, true)];
    assert Newest(one, 1);
    var two := Reserve(one);
    assert two == map[1 := Row(Fresh, true), 2 := Row(Stale(Interrupted), false)];
    assert Newest(two, 2);
    var three := Reserve(two);
    assert NextNumber(two) == 3;
    var marked := three[3 := Row(Fresh, true)];
    assert Without(marked, 3) == two;
    assert Supersede(marked, 3) == marked;
    assert Newer(marked, 1) == {2, 3} && Newer(marked, 3) == {};
  }

  /* ---- A mark on the generation in flight ---- */

  /** Whether the run of `p` can still end in a complete graph. */
  predicate Hopeful(s: State, p: nat) {
    && s.generation == Some(p)
    && (InFlight(s) != [] || Starting(s))
    && (s.owner.Answering? ==> s.owner.answer.outcome == Graph(true))
    && (s.answers != [] ==> s.answers[0].outcome == Graph(true))
  }

  ghost predicate Hopeless(s: State, p: nat) {
    p < NextNumber(s.rows) && !ReadsFresh(s.rows, p) && !Hopeful(s, p)
  }

  lemma HopelessOwner(s: State, e: Event, p: nat)
    requires Inv(s) && Hopeless(s, p) && OwnerEnabled(s, e)
    ensures Hopeless(OwnerStep(s, e), p)
  {
    var t := OwnerStep(s, e);
    OwnerKeeps(s, e);
  }

  lemma HopelessObserved(s: State, read: TaskRead, p: nat)
    requires Hopeless(s, p)
    ensures Hopeless(Observed(s, read), p)
  {
    assert InFlight(Observed(s, read)) == InFlight(s);
  }

  lemma HopelessFinished(s: State, p: nat, read: TaskRead, stored: bool, owed: bool)
    requires Inv(s) && Hopeless(s, p) && s.answers != []
    ensures Hopeless(Finished(s.(phase := Idle, answers := s.answers[1..]), s.answers[0], read, stored, owed), p)
  {
    AnswerIsTheRun(s);
    var g := s.generation.value;
    var state := SealedState(Verdict(s.runTask, read, s.answers[0].outcome));
    SealRowShape(s.rows, g, state);
    assert p == g ==> state != Fresh by {
      if p == g {
        assert InFlight(s) != [];
      }
    }
  }

  lemma HopelessUntouched(s: State, t: State, p: nat)
    requires Hopeless(s, p)
    requires t.rows == s.rows && t.generation == s.generation
    requires t.owner == s.owner && t.answers == s.answers && t.requests == s.requests
    requires Starting(t) ==> Starting(s)
    ensures Hopeless(t, p)
  {
    assert InFlight(t) == InFlight(s);
  }

  lemma HopelessWatch(s: State, cause: StaleCause, p: nat)
    requires Hopeless(s, p)
    ensures Hopeless(s.(rows := MarkLatest(s.rows, cause)), p)
  {
    var t := s.(rows := MarkLatest(s.rows, cause));
    MarkShape(s.rows, cause);
    assert InFlight(t) == InFlight(s);
    var n := Latest(s.rows);
    assert n.Some? ==> n.value in t.rows;
  }

  lemma HopelessBegin(s: State, e: Event, p: nat)
    requires Inv(s) && Hopeless(s, p) && e.Begin? && DispatchEnabled(s, e)
    ensures Hopeless(DispatchStep(s, e), p)
  {
    var t := DispatchStep(s, e);
    ReserveShape(s.rows);
    if !t.phase.Prepared? && t.owner == s.owner {
      HopelessUntouched(s, t, p);
    }
  }

  lemma HopelessSend(s: State, synchronous: bool, p: nat)
    requires Inv(s) && Hopeless(s, p) && s.phase.Armed?
    ensures Hopeless(Sent(s, synchronous), p)
  {
    assert |InFlight(s)| >= |s.requests| + |s.answers|;
    assert s.generation != Some(p);
  }

  lemma HopelessPump(s: State, observedRead: TaskRead, sealRead: TaskRead, stored: bool, p: nat)
    requires Inv(s) && Hopeless(s, p) && s.phase.Idle?
    ensures Hopeless(Pumped(s, observedRead, sealRead, stored), p)
  {
    HopelessObserved(s, observedRead, p);
    ObservedKeeps(s, observedRead);
    var u := Observed(s, observedRead);
    if u.answersOpen && u.answers != [] {
      assert u.(phase := Idle) == u;
      HopelessFinished(u, p, sealRead, stored, true);
    }
  }

  lemma HopelessReceive(s: State, sealRead: TaskRead, stored: bool, p: nat)
    requires Inv(s) && Hopeless(s, p) && s.phase.Blocked?
    ensures Hopeless(Received(s, sealRead, stored), p)
  {
    if s.answers != [] {
      HopelessFinished(s, p, sealRead, stored, s.phase.owed);
    } else {
      HopelessUntouched(s, s.(phase := Idle), p);
    }
  }

  lemma HopelessWait(s: State, e: Event, p: nat)
    requires Hopeless(s, p) && DispatchEnabled(s, e)
    requires e.Route? || e.WaitOwed? || e.ClearFlag? || e.Shutdown? || e.Join?
    ensures Hopeless(DispatchStep(s, e), p)
  {
    if e.Join? {
      assert InFlight(s.(owner := Absent)) == InFlight(s);
    } else {
      HopelessUntouched(s, DispatchStep(s, e), p);
    }
  }

  lemma HopelessDispatch(s: State, e: Event, p: nat)
    requires Inv(s) && Hopeless(s, p) && DispatchEnabled(s, e)
    ensures Hopeless(DispatchStep(s, e), p)
  {
    if e.Watch? {
      HopelessWatch(s, e.cause, p);
    } else if e.Begin? {
      HopelessBegin(s, e, p);
    } else if e.Send? {
      HopelessSend(s, e.synchronous, p);
    } else if e.Pump? {
      HopelessPump(s, e.observedRead, e.sealRead, e.stored, p);
    } else if e.Receive? {
      HopelessReceive(s, e.sealRead, e.stored, p);
    } else {
      HopelessWait(s, e, p);
    }
  }

  /** The owner is gone, and with it every answer that could still be sealed. */
  ghost predicate DeadEnd(s: State, p: nat) {
    && p < NextNumber(s.rows) && !ReadsFresh(s.rows, p)
    && s.answers == [] && (s.owner.Exited? || (s.owner.Absent? && Down(s)))
  }

  ghost predicate Spent(s: State, p: nat) {
    Hopeless(s, p) || DeadEnd(s, p)
  }

  lemma DeadEndStep(s: State, e: Event, p: nat)
    requires DeadEnd(s, p) && Enabled(s, e)
    ensures Spent(Next(s, e), p)
  {
    if e.Crash? {
      assert Hopeless(Next(s, e), p);
    } else {
      assert !OwnerEnabled(s, e);
      DeadEndTable(s, e, p);
      hide NextNumber, ReadsFresh, Reserve, MarkLatest, SealRow;
      assert DeadEnd(DispatchStep(s, e), p);
    }
  }

  lemma DeadEndTable(s: State, e: Event, p: nat)
    requires DeadEnd(s, p) && DispatchEnabled(s, e)
    ensures p < NextNumber(DispatchStep(s, e).rows) && !ReadsFresh(DispatchStep(s, e).rows, p)
  {
    ReserveShape(s.rows);
    if e.Watch? {
      MarkShape(s.rows, e.cause);
      var n := Latest(s.rows);
      assert n.Some? ==> n.value in MarkLatest(s.rows, e.cause);
    }
  }

  lemma SpentStep(s: State, e: Event, p: nat)
    requires Inv(s) && Spent(s, p) && Enabled(s, e)
    ensures Spent(Next(s, e), p)
  {
    if DeadEnd(s, p) {
      DeadEndStep(s, e, p);
    } else if e.Crash? {
    } else if OwnerEnabled(s, e) {
      HopelessOwner(s, e, p);
    } else {
      HopelessDispatch(s, e, p);
    }
  }

  lemma {:induction false} SpentForever(s: State, events: seq<Event>, p: nat)
    requires Inv(s) && Spent(s, p) && IsRun(s, events)
    ensures !ReadsFresh(After(s, events).rows, p)
    decreases |events|
  {
    if events != [] {
      SpentStep(s, events[0], p);
      StepKeeps(s, events[0]);
      SpentForever(Next(s, events[0]), events[1..], p);
    }
  }

  lemma StepKeeps(s: State, e: Event)
    requires Inv(s) && Enabled(s, e)
    ensures Inv(Next(s, e))
  {
    OneStep(s, e);
    RunsKeepInv(s, [e]);
  }

  lemma OneStep(s: State, e: Event)
    requires Enabled(s, e)
    ensures IsRun(s, [e]) && After(s, [e]) == Next(s, e)
  {
    var t := Next(s, e);
    assert [e][0] == e && [e][1..] == [];
    assert IsRun(t, []) && After(t, []) == t;
  }

  ghost predicate CanReadFresh(s: State, p: nat) {
    exists events :: IsRun(s, events) && ReadsFresh(After(s, events).rows, p)
  }

  lemma Extends(s: State, events: seq<Event>, e: Event, p: nat)
    requires IsRun(s, events) && Enabled(After(s, events), e) && ReadsFresh(Next(After(s, events), e).rows, p)
    ensures CanReadFresh(s, p)
  {
    RunStep(s, events, e);
  }

  lemma Precedes(s: State, e: Event, p: nat)
    requires Enabled(s, e) && CanReadFresh(Next(s, e), p)
    ensures CanReadFresh(s, p)
  {
    var events :| IsRun(Next(s, e), events) && ReadsFresh(After(Next(s, e), events).rows, p);
    assert ([e] + events)[1..] == events;
    assert IsRun(s, [e] + events);
  }

  /** An idle dispatch thread with a hopeful run: serve it, then seal it. */
  lemma HopefulCanEndFresh(s: State, p: nat)
    requires Inv(s) && s.phase.Idle? && s.busy && Hopeful(s, p)
    requires OwnerLives(s) || s.answers != []
    ensures CanReadFresh(s, p)
    decreases StepsToAnswer(s)
  {
    if s.answers != [] {
      var e := Pump(Live, Live, true);
      AnswerIsTheRun(s);
      SealRowShape(s.rows, p, Fresh);
      assert After(s, []) == s;
      Extends(s, [], e, p);
    } else {
      var e :=
        match s.owner
        case Waiting => OwnerTake
        case Working(_) => OwnerFinish(Graph(true))
        case Answering(_) => OwnerSend
        case _ => OwnerPing(false);
      assert s.owner.Waiting? ==> s.requests != [];
      OwnerKeeps(s, e);
      HopefulStep(s, e, p);
      HopefulCanEndFresh(OwnerStep(s, e), p);
      Precedes(s, e, p);
    }
  }

  lemma HopefulStep(s: State, e: Event, p: nat)
    requires Inv(s) && s.phase.Idle? && OwnerLives(s) && s.busy && Hopeful(s, p) && OwnerEnabled(s, e)
    requires e == OwnerFinish(Graph(true)) || e.OwnerTake? || e.OwnerSend? || e == OwnerPing(false)
    requires s.answers == []
    ensures Hopeful(OwnerStep(s, e), p) && OwnerLives(OwnerStep(s, e))
    ensures StepsToAnswer(OwnerStep(s, e)) < StepsToAnswer(s)
  {
    OwnerKeeps(s, e);
  }

  /** When the watch marks generation `p` stale, some continuation makes `p`
      read fresh again exactly when `p` is the run in flight, its answer is not
      yet known to be anything but a complete graph, and that answer waits in the
      channel or has an owner to send it. In particular a batch claimed by a start
      that is then refused is overwritten by the seal. */
  lemma MarkIsOverwrittenExactlyInFlight(s: State, cause: StaleCause, p: nat)
    requires Reachable(s) && s.phase.Idle? && Newest(s.rows, p)
    ensures var marked := Next(s, Watch(cause));
            && !ReadsFresh(marked.rows, p)
            && (CanReadFresh(marked, p) <==> s.busy && Hopeful(s, p) && (OwnerLives(s) || s.answers != []))
  {
    ReachableInv(s);
    var marked := Next(s, Watch(cause));
    assert marked == s.(rows := MarkLatest(s.rows, cause));
    WatchKeeps(s, cause);
    assert InFlight(marked) == InFlight(s);
    assert Latest(s.rows) == Some(p);
    assert p in marked.rows;
    if s.busy && Hopeful(s, p) && (OwnerLives(s) || s.answers != []) {
      HopefulCanEndFresh(marked, p);
    } else {
      assert Spent(marked, p);
      forall events | IsRun(marked, events)
        ensures !ReadsFresh(After(marked, events).rows, p)
      {
        SpentForever(marked, events, p);
      }
    }
  }

  /* ---- A dead owner ---- */

  /** An idle runtime holds a generation without a run in flight only after its
      owner thread has returned. */
  lemma HeldGenerationMeansDeadOwner(s: State)
    requires Reachable(s) && s.phase.Idle? && s.generation.Some? && !s.busy
    ensures s.owner.Exited?
  {
    ReachableInv(s);
  }

  /** And it can: the loop's wake channel closes, the owner returns, and the next
      start keeps the reservation it could not hand over. */
  lemma DeadOwnerKeepsTheReservation() returns (s: State)
    ensures Reachable(s) && s.phase.Idle? && s.generation.Some? && !s.busy
  {
    assert Reachable(Initial) by {
      assert IsRun(Initial, []) && After(Initial, []) == Initial;
    }
    var cut := FreshCut(Initial);
    var dead := ReachableStep(cut, OwnerPing(true));
    var begun := ReachableStep(dead, Begin(Repair, None, Live, true));
    var armed := ReachableStep(begun, ClearFlag);
    s := ReachableStep(armed, Send(false));
  }

  /** The hand-over itself leaves a reservation held by nobody exactly when the
      owner thread has returned. */
  lemma SendHoldsExactlyOverDeadOwner(s: State, synchronous: bool)
    requires Reachable(s) && s.phase.Armed?
    ensures var t := Sent(s, synchronous);
            (t.phase.Idle? && t.generation == s.generation && !t.busy) <==> s.owner.Exited?
  {
    ReachableInv(s);
    assert |InFlight(s)| >= |s.requests|;
  }

  /* ---- Whether an accepted request is answered ---- */

  /** The pump that takes a waiting answer answers every accepted request. */
  lemma PumpDelivers(s: State, observedRead: TaskRead, sealRead: TaskRead, stored: bool)
    requires Reachable(s) && s.phase.Idle? && s.deferred.Some? && s.answers != []
    ensures Pumped(s, observedRead, sealRead, stored).history.answered == s.history.accepted
    ensures Pumped(s, observedRead, sealRead, stored).deferred == None
  {
    ReachableInv(s);
  }

  predicate CrashFree(events: seq<Event>) {
    forall e :: e in events ==> !e.Crash?
  }

  /** Some continuation of this process answers every request it has accepted. */
  ghost predicate CanAnswer(s: State) {
    exists events :: CrashFree(events) && IsRun(s, events) && s.history.accepted <= After(s, events).history.answered
  }

  lemma AnswerPrecedes(s: State, e: Event)
    requires Enabled(s, e) && !e.Crash? && CanAnswer(Next(s, e))
    requires s.history.accepted == Next(s, e).history.accepted
    ensures CanAnswer(s)
  {
    var events :| CrashFree(events) && IsRun(Next(s, e), events) &&
                  Next(s, e).history.accepted <= After(Next(s, e), events).history.answered;
    assert ([e] + events)[1..] == events;
    assert CrashFree([e] + events) && IsRun(s, [e] + events);
  }

  lemma AnsweredNow(s: State, e: Event)
    requires Enabled(s, e) && !e.Crash? && Next(s, e).history.answered == s.history.accepted
    ensures CanAnswer(s)
  {
    OneStep(s, e);
    assert CrashFree([e]);
  }

  /** Serve the run, then let the dispatch thread take its answer. */
  lemma {:induction false} DeferredCanBeAnswered(s: State)
    requires Inv(s) && s.deferred.Some? && !Down(s) && (!Gone(s.owner) || s.answers != [])
    ensures CanAnswer(s)
    decreases StepsToAnswer(s), if s.phase.Routed? then 1 else 0
  {
    if s.answers != [] {
      AnswerIsTheRun(s);
      match s.phase {
        case Idle => AnsweredNow(s, Pump(Live, Live, true));
        case Blocked(_) => AnsweredNow(s, Receive(Live, true));
        case Routed(_) =>
          StepKeeps(s, Route(Live));
          DeferredCanBeAnswered(Next(s, Route(Live)));
          AnswerPrecedes(s, Route(Live));
        case Prepared(_, _) => assert false;
        case Armed(_, _) => assert false;
      }
    } else {
      var e := ServingStep(s);
      StepKeeps(s, e);
      DeferredCanBeAnswered(Next(s, e));
      AnswerPrecedes(s, e);
    }
  }

  /** The owner step that brings an answer closer without losing it. */
  lemma ServingStep(s: State) returns (e: Event)
    requires Inv(s) && s.deferred.Some? && !Down(s) && !Gone(s.owner) && s.answers == []
    ensures OwnerEnabled(s, e) && !e.Crash?
    ensures var t := Next(s, e);
            && t.deferred == s.deferred && t.phase == s.phase && t.history == s.history && !Gone(t.owner)
            && StepsToAnswer(t) < StepsToAnswer(s)
  {
    match s.owner {
      case Waiting =>
        assert s.requests != [];
        e := OwnerTake;
      case Working(_) => e := OwnerFinish(Graph(true));
      case Answering(_) => e := OwnerSend;
      case Pinging => e := OwnerPing(false);
    }
  }

  /** Nothing of this process can answer the deferred request any more. */
  predicate Forsaken(s: State) {
    s.deferred.Some? && (Down(s) || (s.owner.Exited? && s.answers == []))
  }

  lemma ForsakenStep(s: State, e: Event)
    requires Inv(s) && Forsaken(s) && Enabled(s, e) && !e.Crash?
    ensures Forsaken(Next(s, e)) && Next(s, e).history.answered == s.history.answered
  {
  }

  lemma {:induction false} ForsakenForever(s: State, events: seq<Event>)
    requires Inv(s) && Forsaken(s) && CrashFree(events) && IsRun(s, events)
    ensures After(s, events).history.answered == s.history.answered
    decreases |events|
  {
    if events != [] {
      ForsakenStep(s, events[0]);
      StepKeeps(s, events[0]);
      ForsakenForever(Next(s, events[0]), events[1..]);
    }
  }

  /** An accepted request that waits for its response can still get it in this
      process exactly when there is no teardown, and its answer is in the channel
      or an owner is left to produce it. */
  lemma AnswerableExact(s: State)
    requires Reachable(s) && s.deferred.Some?
    ensures CanAnswer(s) <==> !Down(s) && (OwnerLives(s) || s.answers != [])
  {
    ReachableInv(s);
    if !Down(s) && (OwnerLives(s) || s.answers != []) {
      DeferredCanBeAnswered(s);
    } else {
      forall events | CrashFree(events) && IsRun(s, events)
        ensures !(s.history.accepted <= After(s, events).history.answered)
      {
        ForsakenForever(s, events);
      }
    }
  }

  /** And some accepted requests never are: the wake channel closes while the run
      of a request is queued, and the owner returns without taking it. */
  lemma UnansweredRequest(id: RequestId) returns (s: State)
    ensures Reachable(s) && s.phase.Idle? && s.deferred == Some(id) && !CanAnswer(s)
  {
    assert Reachable(Initial) by {
      assert IsRun(Initial, []) && After(Initial, []) == Initial;
    }
    var cut := FreshCut(Initial);
    var queued := RequestQueued(cut, id);
    hide Reachable, CanAnswer, Next, Enabled;
    s := WakeCloses(queued);
    AnswerableExact(s);
  }

  lemma RequestQueued(cut: State, id: RequestId) returns (s: State)
    requires Reachable(cut) && cut.phase.Idle? && !cut.busy && cut.owner.Pinging? && cut.requestsOpen && cut.requests == []
    ensures Reachable(s) && s.phase == Routed(false) && s.deferred == Some(id) && s.requests != [] && s.owner.Pinging?
  {
    hide Reachable;
    var begun := ReachableStep(cut, Begin(Request(id), None, Live, true));
    var armed := ReachableStep(begun, ClearFlag);
    s := ReachableStep(armed, Send(false));
  }

  lemma WakeCloses(queued: State) returns (s: State)
    requires Reachable(queued) && queued.phase == Routed(false) && queued.requests != [] && queued.owner.Pinging?
    ensures Reachable(s) && s.phase.Idle? && s.deferred == queued.deferred && s.owner.Exited? && s.answers == []
  {
    ReachableInv(queued);
    AnswerIsLost(queued);
    hide Reachable, Inv;
    var dead := ReachableStep(queued, OwnerPing(true));
    s := ReachableStep(dead, Route(Live));
  }

  lemma AnswerIsLost(s: State)
    requires Inv(s) && s.requests != []
    ensures s.answers == []
  {
    assert |InFlight(s)| >= |s.requests| + |s.answers|;
  }
}
