/** Every run of the publication protocol: one carrier thread whose shared
    accesses are single steps, foreign writers between any two of them, store
    failures, crashes at any point, and recovery. */
module PublicationMachine {
  import opened Wrappers
  import opened Publication

  /** Where the carrier thread stands. An index names a journal row. */
  datatype Job =
    | Resting
    | Staging(owner: Owner, target: Path, edit: Content)
    | Resolving(row: nat, owner: Owner, edit: Content)
    | Writing(row: nat, edit: Content)
    | Opened(row: nat, edit: Content, occupant: nat)
    | Receipting(row: nat)

  datatype State = State(disk: Disk, rows: Journal, job: Job)

  datatype Event =
    | Foreign(disk: Disk)
    | Admit(owner: Owner, target: Path, edit: Content, decision: Admission)
    | Stage(appended: bool)
    | Resolve
    | Open(admitted: bool)
    | Write(end: WriteEnd)
    | Receipt(recorded: bool)
    | Recover(row: nat)
    | Crash

  ghost predicate Enabled(s: State, e: Event) {
    match e
    case Foreign(disk) => Evolves(s.disk, disk)
    case Admit(owner, target, edit, decision) =>
      s.job.Resting? && Admits(s.rows, Look(s.disk, target), target, edit.digest, decision)
    case Stage(_) => s.job.Staging?
    case Resolve => s.job.Resolving?
    case Open(admitted) => s.job.Writing? && s.job.row < |s.rows|
    case Write(_) => s.job.Opened? && s.job.occupant in s.disk.objects
    case Receipt(_) => s.job.Receipting? && s.job.row < |s.rows|
    case Recover(row) => s.job.Resting? && row < |s.rows| && !s.rows[row].applied
    case Crash => true
  }

  function Judged(s: State, row: nat): Verdict
    requires row < |s.rows|
  {
    Classify(s.rows[row].intent, Look(s.disk, s.rows[row].intent.target))
  }

  function Next(s: State, e: Event): State
    requires Enabled(s, e)
  {
    match e
    case Foreign(disk) => s.(disk := disk)
    case Admit(owner, target, edit, decision) =>
      (match decision
       case Pending(row) => s.(job := Resolving(row, owner, edit))
       case Fresh => s.(job := Staging(owner, target, edit))
       case _ => s)
    case Stage(appended) =>
      var sight := Look(s.disk, s.job.target);
      if sight.Present? && appended then
        s.(rows := s.rows + [NewRow(s.rows, s.job.owner, s.job.target, s.job.edit.digest, sight)],
           job := Writing(|s.rows|, s.job.edit))
      else s.(job := Resting)
    case Resolve =>
      if s.job.row >= |s.rows| || s.rows[s.job.row].intent.owner != s.job.owner then s.(job := Resting)
      else if Judged(s, s.job.row) == ExactlyNew then s.(job := Receipting(s.job.row))
      else s.(job := Writing(s.job.row, s.job.edit))
    case Open(admitted) =>
      var intent := s.rows[s.job.row].intent;
      if admitted && s.job.edit.fits && MayWrite(intent, s.disk) then
        s.(job := Opened(s.job.row, s.job.edit, Occupant(s.disk, intent.target).value))
      else s.(job := Resting)
    case Write(end) =>
      s.(disk := Written(s.disk, s.job.occupant, s.job.edit, end),
         job := if end.Landed? then Receipting(s.job.row) else Resting)
    case Receipt(recorded) =>
      var done := Complete(s.rows, s.rows[s.job.row].intent);
      if recorded && done.Some? then s.(rows := done.value, job := Resting) else s.(job := Resting)
    case Recover(row) =>
      if Judged(s, row) == ExactlyNew then s.(job := Receipting(row)) else s
    case Crash => s.(job := Resting)
  }

  /* ---- Runs ---- */

  /** A run from an empty journal: consecutive states, each one step apart. */
  ghost predicate IsRun(states: seq<State>, events: seq<Event>) {
    && |states| == |events| + 1
    && ValidDisk(states[0].disk) && states[0].rows == [] && states[0].job == Resting
    && forall k {:trigger StepAt(states, events, k)} :: 0 <= k < |events| ==> StepAt(states, events, k)
  }

  ghost predicate StepAt(states: seq<State>, events: seq<Event>, k: nat)
    requires k < |events| && k + 1 < |states|
  {
    Enabled(states[k], events[k]) && states[k + 1] == Next(states[k], events[k])
  }

  /** In state `k` row `i` was staged, and the very file object its staging
      observed held the bytes it intended. */
  ghost predicate HeldAt(states: seq<State>, k: nat, i: nat)
    requires k < |states|
  {
    && i < |states[k].rows|
    && states[k].rows[i].origin in states[k].disk.objects
    && states[k].disk.objects[states[k].rows[i].origin].content.digest == states[k].rows[i].intent.intended
  }

  ghost predicate HeldBy(states: seq<State>, j: nat, i: nat)
    requires j < |states|
  {
    exists k :: 0 <= k <= j && HeldAt(states, k, i)
  }

  /** A staged row names the identity of the object it observed. */
  ghost predicate RowSound(s: State, i: nat)
    requires i < |s.rows|
  {
    && s.rows[i].origin in s.disk.objects
    && s.rows[i].intent.identity == Some(Journalled(s.disk.objects[s.rows[i].origin].identity))
  }

  ghost predicate JobSound(s: State) {
    match s.job
    case Resting => true
    case Staging(_, _, _) => true
    case Resolving(row, _, edit) => row < |s.rows| && s.rows[row].intent.intended == edit.digest
    case Writing(row, edit) => row < |s.rows| && s.rows[row].intent.intended == edit.digest
    case Opened(row, edit, occupant) =>
      row < |s.rows| && s.rows[row].intent.intended == edit.digest && s.rows[row].origin == occupant
    case Receipting(row) => row < |s.rows|
  }

  ghost predicate Sound(s: State) {
    && ValidDisk(s.disk)
    && UniqueKeys(s.rows)
    && (forall i {:trigger RowSound(s, i)} :: 0 <= i < |s.rows| ==> RowSound(s, i))
    && JobSound(s)
  }

  /** Attribution as `Same` against a staged row is the staged object itself. */
  lemma OccupantIsOrigin(s: State, i: nat, o: nat)
    requires ValidDisk(s.disk) && i < |s.rows| && RowSound(s, i) && o in s.disk.objects
    requires Attribute(s.rows[i].intent.identity.value, s.disk.objects[o].identity) == Same
    ensures o == s.rows[i].origin
  {
    AttributeSymmetric(s.disk.objects[s.rows[i].origin].identity, s.disk.objects[o].identity);
  }

  lemma StageSound(s: State, e: Event)
    requires Sound(s) && Enabled(s, e) && e.Stage?
    ensures Sound(Next(s, e))
  {
    var t := Next(s, e);
    if t.job.Writing? {
      forall i | 0 <= i < |t.rows|
        ensures RowSound(t, i)
      {
        if i < |s.rows| {
          assert RowSound(s, i);
        }
      }
      forall i | 0 <= i < |s.rows|
        ensures !Names(t.rows[i].intent, t.rows[|s.rows|].intent)
      {
      }
    } else {
      assert forall i :: 0 <= i < |t.rows| ==> RowSound(s, i) && RowSound(t, i);
    }
  }

  lemma ReceiptSound(s: State, e: Event)
    requires Sound(s) && Enabled(s, e) && e.Receipt?
    ensures Sound(Next(s, e))
  {
    CompleteOne(s.rows, s.job.row);
    var t := Next(s, e);
    forall i | 0 <= i < |t.rows|
      ensures RowSound(t, i)
    {
      assert RowSound(s, i);
    }
  }

  lemma StepSound(s: State, e: Event)
    requires Sound(s) && Enabled(s, e)
    ensures Sound(Next(s, e))
  {
    if e.Stage? {
      StageSound(s, e);
    } else if e.Receipt? {
      ReceiptSound(s, e);
    } else {
      var t := Next(s, e);
      if e.Open? && t.job.Opened? {
        assert RowSound(s, s.job.row);
        OccupantIsOrigin(s, s.job.row, t.job.occupant);
      }
      forall i | 0 <= i < |t.rows|
        ensures RowSound(t, i)
      {
        assert RowSound(s, i);
      }
    }
  }

  lemma {:induction false} RunSound(states: seq<State>, events: seq<Event>, j: nat)
    requires IsRun(states, events) && j < |states|
    ensures Sound(states[j])
  {
    if j > 0 {
      RunSound(states, events, j - 1);
      assert StepAt(states, events, j - 1);
      StepSound(states[j - 1], events[j - 1]);
    }
  }

  /** Rows are only appended, and only ever gain their receipt. */
  lemma RowsGrow(s: State, e: Event, i: nat)
    requires Sound(s) && Enabled(s, e) && i < |s.rows|
    ensures i < |Next(s, e).rows|
    ensures Next(s, e).rows[i] in {s.rows[i], s.rows[i].(applied := true)}
    ensures Next(s, e).rows[i].applied && !s.rows[i].applied ==> s.job == Receipting(i)
  {
    if e.Receipt? {
      CompleteOne(s.rows, s.job.row);
    }
  }

  /** What must already have been seen before a step may rest on it. */
  ghost predicate Witnessed(states: seq<State>, j: nat)
    requires j < |states|
  {
    && (forall i {:trigger HeldBy(states, j, i)} ::
          0 <= i < |states[j].rows| && states[j].rows[i].applied ==> HeldBy(states, j, i))
    && (states[j].job.Receipting? ==> HeldBy(states, j, states[j].job.row))
  }

  lemma WitnessStep(states: seq<State>, events: seq<Event>, j: nat)
    requires IsRun(states, events) && j + 1 < |states| && Witnessed(states, j)
    ensures Witnessed(states, j + 1)
  {
    var s, e, t := states[j], events[j], states[j + 1];
    RunSound(states, events, j);
    assert StepAt(states, events, j);
    var after := j + 1;
    forall i | 0 <= i < |t.rows| && t.rows[i].applied
      ensures HeldBy(states, after, i)
    {
      if i < |s.rows| {
        RowsGrow(s, e, i);
        assert HeldBy(states, j, i);
      }
    }
    if t.job.Receipting? {
      var i := t.job.row;
      if s.job == t.job {
        assert HeldBy(states, j, i);
      } else {
        assert RowSound(s, i);
        if !e.Write? {
          OccupantIsOrigin(s, i, Look(s.disk, s.rows[i].intent.target).occupant);
          assert HeldAt(states, j, i);
        } else {
          assert HeldAt(states, after, i);
        }
      }
    }
  }

  lemma {:induction false} RunWitnessed(states: seq<State>, events: seq<Event>, j: nat)
    requires IsRun(states, events) && j < |states|
    ensures Witnessed(states, j)
  {
    if j > 0 {
      RunWitnessed(states, events, j - 1);
      WitnessStep(states, events, j - 1);
    }
  }

  /** Main result. In every run, whatever crashes and foreign writers do, a row
      that reads applied was at some moment since its staging true of the disk:
      the very file object the staging observed held the intended bytes. */
  lemma AppliedRowsWereHeld(states: seq<State>, events: seq<Event>, j: nat, i: nat)
    requires IsRun(states, events) && j < |states|
    requires i < |states[j].rows| && states[j].rows[i].applied
    ensures exists k :: 0 <= k <= j && HeldAt(states, k, i)
  {
    RunWitnessed(states, events, j);
    assert HeldBy(states, j, i);
  }

  /* ---- No receipt without a token ---- */

  predicate HasToken(row: Row) {
    row.intent.identity.Some? && row.intent.identity.value.reuse.Ok?
  }

  /** Applied rows, and the row a receipt or a write is about to rest on. */
  predicate Tokened(s: State) {
    && (forall i :: 0 <= i < |s.rows| && s.rows[i].applied ==> HasToken(s.rows[i]))
    && (s.job.Opened? || s.job.Receipting? ==> s.job.row < |s.rows| && HasToken(s.rows[s.job.row]))
  }

  lemma TokenedStep(s: State, e: Event)
    requires Sound(s) && Enabled(s, e) && Tokened(s)
    ensures Tokened(Next(s, e))
  {
    if e.Receipt? {
      CompleteOne(s.rows, s.job.row);
    }
  }

  /** In every run, whatever crashes and foreign writers do, no row whose staging
      found no reuse token is ever receipted. */
  lemma {:induction false} AppliedRowsHaveTokens(states: seq<State>, events: seq<Event>, j: nat)
    requires IsRun(states, events) && j < |states|
    ensures forall i :: 0 <= i < |states[j].rows| && states[j].rows[i].applied ==> HasToken(states[j].rows[i])
    ensures Tokened(states[j])
  {
    if j > 0 {
      AppliedRowsHaveTokens(states, events, j - 1);
      RunSound(states, events, j - 1);
      assert StepAt(states, events, j - 1);
      TokenedStep(states[j - 1], events[j - 1]);
    }
  }

  /* ---- Admission numbers ---- */

  /** The rows admitted for one target. */
  function AdmittedFor(rows: Journal, target: Path): nat {
    if rows == [] then 0
    else
      AdmittedFor(rows[..|rows| - 1], target) + if rows[|rows| - 1].intent.target == target then 1 else 0
  }

  /** The rows of each target are numbered from one, without gaps. */
  ghost predicate Numbered(rows: Journal) {
    forall i :: 0 <= i < |rows| ==> rows[i].intent.admissionSeq == AdmittedFor(rows[..i], rows[i].intent.target) + 1
  }

  lemma {:induction false} MaxIsAdmitted(rows: Journal, target: Path)
    requires Numbered(rows)
    ensures MaxSeq(rows, target) == AdmittedFor(rows, target)
  {
    if rows != [] {
      var n := |rows| - 1;
      NumberedPrefix(rows, n);
      MaxIsAdmitted(rows[..n], target);
    }
  }

  lemma NumberedPrefix(rows: Journal, n: nat)
    requires Numbered(rows) && n <= |rows|
    ensures Numbered(rows[..n])
  {
    assert forall i :: 0 <= i < n ==> rows[..n][..i] == rows[..i];
  }

  lemma {:induction false} SameIntentsSameCount(rows: Journal, more: Journal, target: Path)
    requires |rows| == |more| && forall i :: 0 <= i < |rows| ==> rows[i].intent == more[i].intent
    ensures AdmittedFor(rows, target) == AdmittedFor(more, target)
  {
    if rows != [] {
      SameIntentsSameCount(rows[..|rows| - 1], more[..|rows| - 1], target);
    }
  }

  lemma NumberedStep(s: State, e: Event)
    requires Enabled(s, e) && Numbered(s.rows)
    ensures Numbered(Next(s, e).rows)
  {
    var rows, next := s.rows, Next(s, e).rows;
    hide AdmittedFor;
    if e.Receipt? && next != rows {
      forall i | 0 <= i < |next|
        ensures next[i].intent.admissionSeq == AdmittedFor(next[..i], next[i].intent.target) + 1
      {
        SameIntentsSameCount(next[..i], rows[..i], next[i].intent.target);
      }
    } else if e.Stage? && next != rows {
      MaxIsAdmitted(rows, s.job.target);
      assert forall i :: 0 <= i <= |rows| ==> next[..i] == rows[..i];
      assert rows[..|rows|] == rows;
    }
  }

  /** In every run the admissions of a target are numbered one after the other,
      whatever fails: a number is used again only for a row that was never
      appended. */
  lemma {:induction false} AdmissionsAreNumbered(states: seq<State>, events: seq<Event>, j: nat)
    requires IsRun(states, events) && j < |states|
    ensures Numbered(states[j].rows)
  {
    if j > 0 {
      AdmissionsAreNumbered(states, events, j - 1);
      assert StepAt(states, events, j - 1);
      NumberedStep(states[j - 1], events[j - 1]);
    }
  }

  /* ---- One pending row a command and file ---- */

  /** Every staging follows its own admission at once: one observation. */
  ghost predicate Atomic(events: seq<Event>) {
    forall k :: 0 <= k < |events| && events[k].Stage? ==> k > 0 && events[k - 1].Admit?
  }

  lemma StagedAtomically(states: seq<State>, events: seq<Event>, j: nat)
    requires IsRun(states, events) && Atomic(events) && j < |events| && events[j].Stage?
    requires Singleflight(states[j].rows)
    ensures Singleflight(states[j + 1].rows)
  {
    assert StepAt(states, events, j) && StepAt(states, events, j - 1);
    var job := states[j].job;
    var sight := Look(states[j].disk, job.target);
    if sight.Present? {
      assert events[j - 1] == Admit(job.owner, job.target, job.edit, Fresh);
      AtomicAdmissionIsSingleflight(states[j].rows, job.owner, job.target, job.edit.digest, states[j].disk);
    }
  }

  /** In every run of atomic admissions, whoever admits, under whatever spelling,
      and whatever happens to the files, no two pending rows of one intent can
      mean one file. */
  lemma {:induction false} AtomicRunsAreSingleflight(states: seq<State>, events: seq<Event>, j: nat)
    requires IsRun(states, events) && Atomic(events) && j < |states|
    ensures Singleflight(states[j].rows)
  {
    if j > 0 {
      AtomicRunsAreSingleflight(states, events, j - 1);
      assert StepAt(states, events, j - 1);
      var s, e := states[j - 1], events[j - 1];
      if e.Stage? {
        StagedAtomically(states, events, j - 1);
      } else if e.Receipt? {
        CompletionKeepsSingleflight(s.rows, s.rows[s.job.row].intent);
      }
    }
  }

  /* ---- Admission that is not one observation ---- */

  /** With a foreign rename between the sight and the staging, one command is
      journalled twice as pending for one file. */
  lemma SplitAdmissionCanClash(owner: Owner, target: Path, before: Content, edit: Content)
    returns (states: seq<State>, events: seq<Event>)
    ensures IsRun(states, events)
    ensures !Singleflight(states[|states| - 1].rows)
  {
    var one := FileObject(WriteIdentity(FileNumber(1, 1), Err(Unsupported)), before.(fits := true), true);
    var two := FileObject(WriteIdentity(FileNumber(1, 2), Err(Unsupported)), before.(fits := true), true);
    var a := Disk(map[1 := one, 2 := two], map[target := 1]);
    var b := Disk(map[1 := one, 2 := two], map[target := 2]);
    var r1 := NewRow([], owner, target, edit.digest, Look(a, target));
    var r2 := NewRow([r1], owner, target, edit.digest, Look(a, target));
    FreshBesides(r1, a, b, target, edit.digest);
    var staging := Staging(owner, target, edit);
    var admit := Admit(owner, target, edit, Fresh);
    states := [State(a, [], Resting), State(a, [], staging), State(a, [r1], Writing(0, edit)), State(a, [r1], Resting),
               State(b, [r1], Resting), State(b, [r1], staging), State(a, [r1], staging), State(a, [r1, r2], Writing(1, edit))];
    events := [admit, Stage(true), Crash, Foreign(b), admit, Foreign(a), Stage(true)];
    SplitRun(a, b, states, events, r1, r2, owner, target, edit);
    assert states[7].rows[0] == r1 && states[7].rows[1] == r2;
    BothPending(r1, r2);
  }

  lemma SplitRun(a: Disk, b: Disk, states: seq<State>, events: seq<Event>, r1: Row, r2: Row, owner: Owner, target: Path,
                 edit: Content)
    requires ValidDisk(a) && Evolves(a, b) && Evolves(b, a) && Look(a, target).Present?
    requires Admits([], Look(a, target), target, edit.digest, Fresh) && Admits([r1], Look(b, target), target, edit.digest, Fresh)
    requires r1 == NewRow([], owner, target, edit.digest, Look(a, target))
    requires r2 == NewRow([r1], owner, target, edit.digest, Look(a, target))
    requires var staging := Staging(owner, target, edit);
             states == [State(a, [], Resting), State(a, [], staging), State(a, [r1], Writing(0, edit)), State(a, [r1], Resting),
                        State(b, [r1], Resting), State(b, [r1], staging), State(a, [r1], staging),
                        State(a, [r1, r2], Writing(1, edit))]
    requires var admit := Admit(owner, target, edit, Fresh);
             events == [admit, Stage(true), Crash, Foreign(b), admit, Foreign(a), Stage(true)]
    ensures IsRun(states, events)
  {
    hide ValidDisk, Evolves, Admits, Look, NewRow;
    assert [] + [r1] == [r1] && [r1] + [r2] == [r1, r2];
    assert StepAt(states, events, 0) && StepAt(states, events, 1) && StepAt(states, events, 2);
    assert StepAt(states, events, 3) && StepAt(states, events, 4);
    assert StepAt(states, events, 5) && StepAt(states, events, 6);
  }

  /** A row staged on one file leaves admission fresh on another. */
  lemma FreshBesides(row: Row, a: Disk, b: Disk, target: Path, digest: Digest)
    requires Look(a, target).Present? && Look(b, target).Present?
    requires !row.applied && row.intent.identity == Some(Journalled(Look(a, target).identity))
    requires Look(a, target).identity.file != Look(b, target).identity.file
    ensures Admits([], Look(a, target), target, digest, Fresh)
    ensures Admits([row], Look(b, target), target, digest, Fresh)
  {
  }

  lemma BothPending(one: Row, two: Row)
    requires !one.applied && !two.applied && one.intent.intended == two.intent.intended
    requires one.intent.identity == two.intent.identity && one.intent.identity.Some?
    ensures Clash(one, two)
  {
  }
}
