/** The off-path index owner (src/commands.rs): one dispatch thread and one
    owner thread joined by two bounded channels and a cancellation flag, over
    the durable table of index generations (src/state.rs).

    Every access to something the two threads share is one step, so a run of
    the machine is an arbitrary interleaving of the two. */
module IndexOwner {
  import opened Wrappers

  type TaskId = nat
  type RequestId = nat

  const INDEX_RUN_CAPACITY: nat := 1
  const INDEX_GENERATION_RETENTION: nat := 8

  /* ---- The generation table ---- */

  datatype StaleCause =
    Interrupted | IsolatedRun | WorkerRefused | WatcherMissed | SourceChanged | Superseded | PartialCoverage

  datatype RowState = Fresh | Stale(cause: StaleCause)

  datatype Row = Row(state: RowState, sealed: bool)

  type Rows = map<nat, Row>

  /** What a reader is told: an unsealed row is interrupted whatever it stores. */
  function Reads(row: Row): RowState {
    if row.sealed then row.state else Stale(Interrupted)
  }

  predicate ReadsFresh(rows: Rows, g: nat) {
    g in rows && Reads(rows[g]) == Fresh
  }

  ghost predicate Newest(rows: Rows, g: nat) {
    g in rows && forall h :: h in rows ==> h <= g
  }

  lemma NewestExists(rows: Rows) returns (g: nat)
    requires rows != map[]
    ensures Newest(rows, g)
    decreases |rows|
  {
    var k: nat :| k in rows;
    if forall h :: h in rows ==> h <= k {
      g := k;
    } else {
      var above := map h | h in rows && h > k :: rows[h];
      assert above.Keys < rows.Keys by {
        assert k !in above;
      }
      SmallerMap(above, rows);
      assert above != map[] by {
        var h :| h in rows && h > k;
        assert h in above;
      }
      g := NewestExists(above);
      forall h | h in rows
        ensures h <= g
      {
        if h > k {
          assert h in above;
        }
      }
    }
  }

  lemma SmallerMap(small: Rows, large: Rows)
    requires small.Keys < large.Keys
    ensures |small| < |large|
  {
    var rest := large.Keys - small.Keys;
    assert large.Keys == small.Keys + rest && small.Keys !! rest;
    assert rest != {};
    assert |large.Keys| == |small.Keys| + |rest|;
  }

  /** The newest generation number, when one was ever cut. */
  ghost function Latest(rows: Rows): (r: Option<nat>)
    ensures r == None <==> rows == map[]
    ensures r.Some? ==> Newest(rows, r.value)
  {
    if rows == map[] then None
    else
      assert exists g: nat :: Newest(rows, g) by {
        var g := NewestExists(rows);
      }
      var g: nat :| Newest(rows, g);
      Some(g)
  }

  ghost function NextNumber(rows: Rows): nat {
    match Latest(rows)
    case None => 1
    case Some(g) => g + 1
  }

  ghost function Reserve(rows: Rows): Rows {
    rows[NextNumber(rows) := Row(Stale(Interrupted), false)]
  }

  function Without(rows: Rows, g: nat): Rows {
    map h | h in rows && h != g :: rows[h]
  }

  /** The one row a seal of `g` supersedes: the newest other one, if fresh. */
  ghost function Supersede(rows: Rows, g: nat): Rows {
    match Latest(Without(rows, g))
    case None => rows
    case Some(p) => if rows[p].state == Fresh then rows[p := Row(Stale(Superseded), true)] else rows
  }

  function Newer(rows: Rows, g: nat): set<nat> {
    set h | h in rows && h > g
  }

  function Prune(rows: Rows): Rows {
    map g | g in rows && |Newer(rows, g)| < INDEX_GENERATION_RETENTION :: rows[g]
  }

  ghost function SealRow(rows: Rows, g: nat, state: RowState): Rows {
    Prune(Supersede(if g in rows then rows[g := Row(state, true)] else rows, g))
  }

  /** `mark_index_generation_stale` on the newest row; it also sets `sealed`. */
  ghost function MarkLatest(rows: Rows, cause: StaleCause): Rows {
    match Latest(rows)
    case None => rows
    case Some(g) => rows[g := Row(Stale(cause), true)]
  }

  /* ---- Runs and answers ---- */

  /** The number is the generation the run was prepared under. The program does
      not send it; the proofs show the dispatch thread never needs it. */
  datatype Run = Run(number: nat, task: Option<TaskId>)

  datatype Outcome = Graph(complete: bool) | Failed(refused: bool) | Cancelled

  datatype Answer = Answer(number: nat, outcome: Outcome)

  /** What the store says about a task: only a definite "not cancelled" is live. */
  datatype TaskRead = Live | CancelledOrUnreadable

  predicate Doomed(task: Option<TaskId>, read: TaskRead) {
    task.Some? && read != Live
  }

  function Verdict(task: Option<TaskId>, read: TaskRead, outcome: Outcome): Outcome {
    if Doomed(task, read) then Cancelled else outcome
  }

  function SealedState(outcome: Outcome): RowState {
    match outcome
    case Graph(complete) => if complete then Fresh else Stale(PartialCoverage)
    case Failed(refused) => Stale(if refused then WorkerRefused else IsolatedRun)
    case Cancelled => Stale(IsolatedRun)
  }

  /* ---- The two threads ---- */

  datatype Owner = Absent | Waiting | Working(run: Run) | Answering(answer: Answer) | Pinging | Exited(panicked: bool)

  /** On whose behalf a run is started. */
  datatype Client = Request(id: RequestId) | Repair | Caller

  /** Where the dispatch thread stands between its own calls. */
  datatype Phase =
    | Idle
    | Prepared(run: Run, client: Client)
    | Armed(run: Run, client: Client)
    | Routed(synchronous: bool)
    | Blocked(owed: bool)
    | Closing
    | Closed

  datatype Sealing = Sealing(generation: nat, number: nat, task: Option<TaskId>, read: TaskRead, outcome: Outcome, stored: bool)

  /** What happened, for the statements about whole runs: numbers reserved and
      seals of all time; requests accepted with the run started for them,
      responses with the generation sealed for them, and cancellations observed,
      of this process. */
  datatype History = History(
    issued: set<nat>,
    seals: seq<Sealing>,
    accepted: seq<(RequestId, nat)>,
    answered: seq<(RequestId, nat)>,
    observed: set<(nat, TaskId)>)

  datatype State = State(
    phase: Phase,
    generation: Option<nat>,
    runTask: Option<TaskId>,
    deferred: Option<RequestId>,
    busy: bool,
    requestsOpen: bool,
    answersOpen: bool,
    cancel: bool,
    requests: seq<Run>,
    answers: seq<Answer>,
    owner: Owner,
    rows: Rows,
    history: History)

  function Booted(rows: Rows, issued: set<nat>, seals: seq<Sealing>): State {
    State(Idle, None, None, None, false, false, false, false, [], [], Absent, rows, History(issued, seals, [], [], {}))
  }

  const Initial: State := Booted(map[], {}, [])

  datatype Event =
    | Watch(cause: StaleCause)
    | Begin(client: Client, task: Option<TaskId>, read: TaskRead, prepared: bool)
    | ClearFlag
    | Send(synchronous: bool)
    | Route(read: TaskRead)
    | Pump(observedRead: TaskRead, sealRead: TaskRead, stored: bool)
    | WaitOwed(observedRead: TaskRead)
    | Receive(sealRead: TaskRead, stored: bool)
    | Shutdown
    | Join
    | Crash
    | OwnerTake
    | OwnerHangup
    | OwnerFinish(outcome: Outcome)
    | OwnerPanic
    | OwnerSend
    | OwnerPing(disconnected: bool)

  /* ---- Dispatch steps ---- */

  function EnsureOwner(s: State): State {
    if s.owner != Absent then s
    else s.(owner := Waiting, requests := [], answers := [], requestsOpen := true, answersOpen := true)
  }

  /** `start_index_run` up to the reservation. A refusal keeps everything but a
      spawned owner. `prepared` is whether root and store allowed it. */
  ghost function Begun(s: State, client: Client, task: Option<TaskId>, read: TaskRead, prepared: bool): State {
    if Doomed(task, read) then s
    else
      var t := EnsureOwner(s);
      if t.busy || !prepared then t
      else
        var g := NextNumber(t.rows);
        t.(rows := Reserve(t.rows), generation := Some(g), runTask := task,
           phase := Prepared(Run(g, task), client),
           history := t.history.(issued := t.history.issued + {g}))
  }

  function Cleared(s: State): State
    requires s.phase.Prepared?
  {
    s.(cancel := false, phase := Armed(s.phase.run, s.phase.client))
  }

  predicate CanSend(s: State) {
    s.requestsOpen && !s.owner.Absent? && !s.owner.Exited? && |s.requests| < INDEX_RUN_CAPACITY
  }

  /** `try_send` of the armed run. */
  function Handed(s: State, started: bool): State
    requires s.phase.Armed?
  {
    if started then s.(requests := s.requests + [s.phase.run], busy := true) else s
  }

  function Sent(s: State, synchronous: bool): State
    requires s.phase.Armed?
  {
    if s.busy || !CanSend(s) then s.(phase := Idle)
    else
      var t := Handed(s, true);
      match s.phase.client
      case Request(id) =>
        t.(deferred := Some(id), phase := Routed(synchronous),
           history := t.history.(accepted := t.history.accepted + [(id, s.phase.run.number)]))
      case Repair => t.(phase := Idle)
      case Caller => t.(phase := Blocked(false))
  }

  /** `observe_index_cancellation`, under the `busy` test of every caller. */
  function Observed(s: State, read: TaskRead): State {
    if s.busy && Doomed(s.runTask, read) then
      s.(cancel := true,
         history := s.history.(observed :=
           s.history.observed + if s.generation.Some? then {(s.generation.value, s.runTask.value)} else {}))
    else s
  }

  /** The seal of one received answer; `owed` is whether the caller renders a
      response for a deferred request. */
  ghost function Finished(s: State, answer: Answer, read: TaskRead, stored: bool, owed: bool): State {
    var t := s.(busy := false);
    match t.generation
    case None => t
    case Some(g) =>
      var verdict := Verdict(t.runTask, read, answer.outcome);
      var rows := if stored then SealRow(t.rows, g, SealedState(verdict)) else t.rows;
      var record := Sealing(g, answer.number, t.runTask, read, answer.outcome, stored);
      var sealed := t.(generation := None, runTask := None, rows := rows,
                       history := t.history.(seals := t.history.seals + [record]));
      if owed && sealed.deferred.Some? then
        sealed.(deferred := None,
                history := sealed.history.(answered := sealed.history.answered + [(sealed.deferred.value, g)]))
      else sealed
  }

  ghost function Pumped(s: State, observedRead: TaskRead, sealRead: TaskRead, stored: bool): State {
    var t := Observed(s, observedRead);
    if t.answersOpen && t.answers != [] then
      Finished(t.(answers := t.answers[1..]), t.answers[0], sealRead, stored, true)
    else t
  }

  ghost function Received(s: State, sealRead: TaskRead, stored: bool): State
    requires s.phase.Blocked?
  {
    var t := s.(phase := Idle);
    if s.answers != [] then
      Finished(t.(answers := t.answers[1..]), t.answers[0], sealRead, stored, s.phase.owed)
    else t
  }

  function ShutdownBegun(s: State): State {
    s.(cancel := true, requestsOpen := false, answersOpen := false, phase := Closing)
  }

  function Joined(s: State): State {
    s.(owner := Absent, phase := Closed)
  }

  predicate Gone(owner: Owner) {
    owner.Absent? || owner.Exited?
  }

  /* ---- The interleaving ---- */

  predicate DispatchEnabled(s: State, e: Event) {
    match e
    case Watch(_) => s.phase.Idle?
    case Begin(client, _, _, _) => s.phase.Idle? && (client.Repair? ==> s.generation == None && !s.busy)
    case ClearFlag => s.phase.Prepared?
    case Send(_) => s.phase.Armed?
    case Route(_) => s.phase.Routed?
    case Pump(_, _, _) => s.phase.Idle?
    case WaitOwed(_) => s.phase.Idle? && s.answersOpen && (s.deferred.Some? || s.busy)
    case Receive(_, _) => s.phase.Blocked? && (s.answers != [] || Gone(s.owner))
    case Shutdown => true
    case Join => s.phase.Closing? && Gone(s.owner)
    case _ => false
  }

  ghost function DispatchStep(s: State, e: Event): State
    requires DispatchEnabled(s, e)
  {
    match e
    case Watch(cause) => s.(rows := MarkLatest(s.rows, cause))
    case Begin(client, task, read, prepared) => Begun(s, client, task, read, prepared)
    case ClearFlag => Cleared(s)
    case Send(synchronous) => Sent(s, synchronous)
    case Route(read) => if s.phase.synchronous then Observed(s, read).(phase := Blocked(true)) else s.(phase := Idle)
    case Pump(observedRead, sealRead, stored) => Pumped(s, observedRead, sealRead, stored)
    case WaitOwed(read) => Observed(s, read).(phase := Blocked(true))
    case Receive(sealRead, stored) => Received(s, sealRead, stored)
    case Shutdown => ShutdownBegun(s)
    case Join => Joined(s)
  }

  predicate OwnerEnabled(s: State, e: Event) {
    match e
    case OwnerTake => s.owner.Waiting? && s.requests != []
    case OwnerHangup => s.owner.Waiting? && s.requests == [] && !s.requestsOpen
    case OwnerFinish(_) => s.owner.Working?
    case OwnerPanic => s.owner.Working?
    case OwnerSend => s.owner.Answering? && (s.answersOpen ==> |s.answers| < INDEX_RUN_CAPACITY)
    case OwnerPing(_) => s.owner.Pinging?
    case _ => false
  }

  function OwnerStep(s: State, e: Event): State
    requires OwnerEnabled(s, e)
  {
    match e
    case OwnerTake => s.(owner := Working(s.requests[0]), requests := s.requests[1..])
    case OwnerHangup => s.(owner := Exited(false))
    case OwnerFinish(outcome) => s.(owner := Answering(Answer(s.owner.run.number, outcome)))
    case OwnerPanic => s.(owner := Exited(true))
    case OwnerSend =>
      if s.answersOpen then s.(answers := s.answers + [s.owner.answer], owner := Pinging) else s.(owner := Exited(false))
    case OwnerPing(disconnected) => s.(owner := if disconnected then Exited(false) else Waiting)
  }

  predicate Enabled(s: State, e: Event) {
    DispatchEnabled(s, e) || OwnerEnabled(s, e) || e.Crash?
  }

  /** A crash keeps the table and nothing else of the process. */
  ghost function Next(s: State, e: Event): State
    requires Enabled(s, e)
  {
    if e.Crash? then Booted(s.rows, s.history.issued, s.history.seals)
    else if OwnerEnabled(s, e) then OwnerStep(s, e)
    else DispatchStep(s, e)
  }

  ghost predicate IsRun(s: State, events: seq<Event>)
    decreases |events|
  {
    events == [] || (Enabled(s, events[0]) && IsRun(Next(s, events[0]), events[1..]))
  }

  ghost function After(s: State, events: seq<Event>): State
    requires IsRun(s, events)
    decreases |events|
  {
    if events == [] then s else After(Next(s, events[0]), events[1..])
  }
}
