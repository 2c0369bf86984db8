/** The program of the index owner, statement by statement: the generation table,
    the dispatch thread's methods and the owner thread's loop body. Each method
    is tied to the machine's own step. */
module IndexRuntime {
  import opened Wrappers
  import opened IndexOwner

  /** The generation table. SQLite is not part of this model: a statement either
      takes effect as a whole or reports failure. */
  class GenerationTable {
    var rows: Rows

    constructor (initial: Rows)
      ensures rows == initial
    {
      rows := initial;
    }

    method LatestIndexGeneration() returns (r: Option<nat>)
      ensures r == Latest(rows)
    {
      r := LatestOf(rows);
    }

    static method LatestOf(rows: Rows) returns (r: Option<nat>)
      ensures r == Latest(rows)
    {
      r := None;
      var left := rows.Keys;
      while left != {}
        invariant left <= rows.Keys
        invariant r == None ==> left == rows.Keys
        invariant r.Some? ==> r.value in rows && forall h :: h in rows && h !in left ==> h <= r.value
        decreases left
      {
        var g :| g in left;
        left := left - {g};
        if r == None || g > r.value {
          r := Some(g);
        }
      }
    }

    method ReserveIndexGeneration() returns (g: nat)
      modifies this
      ensures g == NextNumber(old(rows)) && rows == Reserve(old(rows))
    {
      var latest := LatestIndexGeneration();
      g := if latest.Some? then latest.value + 1 else 1;
      rows := rows[g := Row(Stale(Interrupted), false)];
    }

    /** State, supersession and retention commit together or not at all. */
    method SealIndexGeneration(g: nat, state: RowState, stored: bool)
      modifies this
      ensures rows == if stored then SealRow(old(rows), g, state) else old(rows)
    {
      if stored {
        var previous := LatestOf(Without(rows, g));
        if g in rows {
          rows := rows[g := Row(state, true)];
        }
        assert Without(rows, g) == Without(old(rows), g);
        if previous.Some? && rows[previous.value].state == Fresh {
          rows := rows[previous.value := Row(Stale(Superseded), true)];
        }
        rows := map h | h in rows && |Newer(rows, h)| < INDEX_GENERATION_RETENTION :: rows[h];
      }
    }

    method MarkIndexGenerationStale(cause: StaleCause)
      modifies this
      ensures rows == MarkLatest(old(rows), cause)
    {
      var latest := LatestIndexGeneration();
      if latest.Some? {
        rows := rows[latest.value := Row(Stale(cause), true)];
      }
    }
  }

  class Runtime {
    const store: GenerationTable
    // `IndexRuns`
    var requestsOpen: bool
    var answersOpen: bool
    var requests: seq<Run>
    var answers: seq<Answer>
    var owner: Owner
    var cancel: bool
    var busy: bool
    // the runtime's own slots
    var indexGeneration: Option<nat>
    var indexRunTask: Option<TaskId>
    var deferredIndexId: Option<RequestId>
    // where the dispatch thread stands, and what happened
    ghost var phase: Phase
    ghost var history: History

    ghost function View(): State
      reads this, store
    {
      State(phase, indexGeneration, indexRunTask, deferredIndexId, busy, requestsOpen, answersOpen, cancel,
            requests, answers, owner, store.rows, history)
    }

    constructor (store: GenerationTable, ghost issued: set<nat>, ghost seals: seq<Sealing>)
      ensures this.store == store
      ensures View() == Booted(store.rows, issued, seals)
    {
      this.store := store;
      requestsOpen, answersOpen, requests, answers := false, false, [], [];
      owner, cancel, busy := Absent, false, false;
      indexGeneration, indexRunTask, deferredIndexId := None, None, None;
      phase, history := Idle, History(issued, seals, [], [], {});
    }

    method EnsureOwner()
      modifies this
      ensures View() == IndexOwner.EnsureOwner(old(View()))
    {
      if owner != Absent {
        return;
      }
      requests, requestsOpen := [], true;
      answers, answersOpen := [], true;
      owner := Waiting;
    }

    /** Hands one run to the owner with a `try_send`. */
    method Start(run: Run) returns (started: bool)
      modifies this
      ensures started == (!old(busy) && CanSend(old(View())))
      ensures View() == if started then old(View()).(requests := old(requests) + [run], busy := true) else old(View())
    {
      if busy {
        return false;
      }
      if !requestsOpen {
        return false;
      }
      if owner.Absent? || owner.Exited? || |requests| >= INDEX_RUN_CAPACITY {
        return false;
      }
      requests := requests + [run];
      busy := true;
      started := true;
    }

    method TakeAnswer() returns (r: Option<Answer>)
      modifies this
      ensures r == if old(answersOpen && answers != []) then Some(old(answers)[0]) else None
      ensures View() == if r.Some? then old(View()).(answers := old(answers)[1..], busy := false) else old(View())
    {
      if !answersOpen || answers == [] {
        return None;
      }
      r := Some(answers[0]);
      answers := answers[1..];
      busy := false;
    }

    /** The reservation and the two slots, once root and store allowed them. */
    method PrepareIndexRun(task: Option<TaskId>, ghost client: Client) returns (run: Run)
      requires phase.Idle? && !busy
      modifies this, store
      ensures owner == old(owner)
      ensures old(owner) != Absent ==> View() == Begun(old(View()), client, task, Live, true)
      ensures phase == Prepared(run, client)
    {
      var g := store.ReserveIndexGeneration();
      indexGeneration := Some(g);
      indexRunTask := task;
      run := Run(g, task);
      history := history.(issued := history.issued + {g});
      phase := Prepared(run, client);
    }

    /** `start_index_run`, with the three steps it shares with the owner thread in
        their order. `client` is on whose behalf the caller starts. */
    method StartIndexRun(task: Option<TaskId>, read: TaskRead, prepared: bool, ghost client: Client)
      returns (started: bool)
      requires phase.Idle?
      modifies this, store
      ensures var begun := Begun(old(View()), client, task, read, prepared);
              if begun.phase.Prepared? then
                && started == (!begun.busy && CanSend(begun))
                && View() == Handed(Cleared(begun), started)
              else !started && View() == begun
    {
      if task.Some? && read != Live {
        return false;
      }
      EnsureOwner();
      if busy || !prepared {
        return false;
      }
      var run := PrepareIndexRun(task, client);
      cancel := false;
      phase := Armed(run, client);
      started := Start(run);
    }

    /** `observe_index_cancellation` under its callers' `busy` test. */
    method ObserveIndexCancellation(read: TaskRead)
      modifies this
      ensures View() == Observed(old(View()), read)
    {
      if busy && indexRunTask.Some? && read != Live {
        cancel := true;
        history := history.(observed := history.observed
          + if indexGeneration.Some? then {(indexGeneration.value, indexRunTask.value)} else {});
      }
    }

    /** The seal both receive paths share: the generation and the task are taken
        out of their slots before anything is written. */
    method SealTaken(answer: Answer, read: TaskRead, stored: bool) returns (sealed: bool)
      requires !busy
      modifies this, store
      ensures sealed == old(indexGeneration).Some?
      ensures View() == Finished(old(View()), answer, read, stored, false)
    {
      if indexGeneration == None {
        return false;
      }
      var g := indexGeneration.value;
      indexGeneration := None;
      var verdict := if indexRunTask.Some? && read != Live then Cancelled else answer.outcome;
      var record := Sealing(g, answer.number, indexRunTask, read, answer.outcome, stored);
      history := history.(seals := history.seals + [record]);
      indexRunTask := None;
      store.SealIndexGeneration(g, SealedState(verdict), stored);
      sealed := true;
    }

    /** `seal_index_answer`: the response a deferred request is owed. */
    method SealIndexAnswer(answer: Answer, read: TaskRead, stored: bool) returns (response: Option<RequestId>)
      requires !busy
      modifies this, store
      ensures View() == Finished(old(View()), answer, read, stored, true)
      ensures response == if old(indexGeneration).Some? then old(deferredIndexId) else None
    {
      ghost var g := indexGeneration;
      var sealed := SealTaken(answer, read, stored);
      if !sealed || deferredIndexId == None {
        return None;
      }
      response := deferredIndexId;
      deferredIndexId := None;
      history := history.(answered := history.answered + [(response.value, g.value)]);
    }

    /** `pump_index` without the repair it may start. */
    method PumpIndex(observedRead: TaskRead, sealRead: TaskRead, stored: bool) returns (response: Option<RequestId>)
      requires phase.Idle?
      modifies this, store
      ensures View() == Pumped(old(View()), observedRead, sealRead, stored)
      ensures response ==
              if old(answersOpen && answers != [] && indexGeneration.Some?) then old(deferredIndexId) else None
      ensures history.answered ==
              old(history.answered) + if response.Some? then [(response.value, old(indexGeneration).value)] else []
    {
      ObserveIndexCancellation(observedRead);
      var answer := TakeAnswer();
      if answer == None {
        return None;
      }
      response := SealIndexAnswer(answer.value, sealRead, stored);
    }

    /** A blocking receive at the moment it returns: with an answer, or because
        the owner is gone. `owed` tells `pump_index_blocking` and
        `pump_index_owed` from `block_on_index_answer`. */
    method ReceiveAnswer(sealRead: TaskRead, stored: bool, owed: bool) returns (response: Option<RequestId>)
      requires phase == Blocked(owed) && (answers != [] || Gone(owner))
      modifies this, store
      ensures View() == Received(old(View()), sealRead, stored)
      ensures response == if old(owed && answers != [] && indexGeneration.Some?) then old(deferredIndexId) else None
      ensures history.answered ==
              old(history.answered) + if response.Some? then [(response.value, old(indexGeneration).value)] else []
    {
      phase := Idle;
      if answers == [] {
        return None;
      }
      var answer := answers[0];
      answers := answers[1..];
      busy := false;
      if owed {
        response := SealIndexAnswer(answer, sealRead, stored);
      } else {
        var sealed := SealTaken(answer, sealRead, stored);
        response := None;
      }
    }

    /** `project_init` after its arguments and its watch batch were read. A
        success defers the request; `deferred` is the mark the dispatch reads. */
    method ProjectInit(id: RequestId, task: Option<TaskId>, read: TaskRead, prepared: bool, ghost synchronous: bool)
      returns (deferred: bool)
      requires phase.Idle?
      modifies this, store
      ensures var begun := Begun(old(View()), Request(id), task, read, prepared);
              if begun.phase.Prepared? then
                View() == Sent(Cleared(begun), synchronous) && deferred == (!begun.busy && CanSend(begun))
              else !deferred && View() == begun
    {
      deferred := StartIndexRun(task, read, prepared, Request(id));
      if deferred {
        deferredIndexId := Some(id);
        history := history.(accepted := history.accepted + [(id, phase.run.number)]);
        phase := Routed(synchronous);
      } else if phase.Armed? {
        phase := Idle;
      }
    }

    /** `shutdown` up to the join. */
    method BeginShutdown()
      modifies this
      ensures View() == ShutdownBegun(old(View()))
    {
      cancel := true;
      requestsOpen := false;
      answersOpen := false;
      phase := Closing;
    }

    /** The join, at the moment it returns. */
    method Join()
      requires phase.Closing? && Gone(owner)
      modifies this
      ensures View() == Joined(old(View()))
    {
      owner := Absent;
      phase := Closed;
    }

    /* The owner thread's loop body, one shared access at a time. */

    method ServeReceive() returns (run: Option<Run>)
      requires owner.Waiting? && (requests != [] || !requestsOpen)
      modifies this
      ensures View() == OwnerStep(old(View()), if old(requests) != [] then OwnerTake else OwnerHangup)
      ensures run == if old(requests) != [] then Some(old(requests)[0]) else None
    {
      if requests == [] {
        owner := Exited(false);
        return None;
      }
      run := Some(requests[0]);
      requests := requests[1..];
      owner := Working(run.value);
    }

    method ServeAnswer(outcome: Outcome)
      requires owner.Working?
      modifies this
      ensures View() == OwnerStep(old(View()), OwnerFinish(outcome))
    {
      owner := Answering(Answer(owner.run.number, outcome));
    }

    method ServeSend() returns (delivered: bool)
      requires OwnerEnabled(View(), OwnerSend)
      modifies this
      ensures View() == OwnerStep(old(View()), OwnerSend) && delivered == old(answersOpen)
    {
      if !answersOpen {
        owner := Exited(false);
        return false;
      }
      answers := answers + [owner.answer];
      owner := Pinging;
      delivered := true;
    }

    method ServePing(disconnected: bool)
      requires owner.Pinging?
      modifies this
      ensures View() == OwnerStep(old(View()), OwnerPing(disconnected))
    {
      owner := if disconnected then Exited(false) else Waiting;
    }
  }
}
