/** One config command from its accepted edit to what every surface then serves
    (src/commands.rs), over the publication protocol (src/config.rs). */
module ConfigCommand {
  import opened Wrappers
  import opened Publication

  /** What the outside world decides for one command. */
  datatype Faults = Faults(readable: bool, appended: bool, admitted: bool, end: WriteEnd, recorded: bool)

  const NoFaults: Faults := Faults(true, true, true, Landed, true)

  /** `Served`: the row that answers. `Unlanded`: no bytes of this edit are known
      to be on disk. `Unreceipted`: they are, and only the receipt failed. */
  datatype Ending = Served(row: nat) | Unlanded | Unreceipted(row: nat)

  datatype Outcome = Outcome(rows: Journal, disk: Disk, ending: Ending)

  /* ---- The decision, first match first ---- */

  function FirstPending(rows: Journal, sight: Sight, target: Path, digest: Digest, i: nat): (r: Option<nat>)
    requires i <= |rows|
    ensures r.Some? ==> i <= r.value < |rows| && PendingMatch(rows[r.value], sight, target, digest)
    ensures r == None <==> forall j :: i <= j < |rows| ==> !PendingMatch(rows[j], sight, target, digest)
    decreases |rows| - i
  {
    if i == |rows| then None
    else if PendingMatch(rows[i], sight, target, digest) then Some(i)
    else FirstPending(rows, sight, target, digest, i + 1)
  }

  function FirstApplied(rows: Journal, sight: Sight, target: Path, digest: Digest, same: bool, i: nat): (r: Option<nat>)
    requires i <= |rows|
    ensures r.Some? ==> i <= r.value < |rows| && AppliedMatch(rows[r.value], sight, target, digest, same)
    ensures r == None <==> forall j :: i <= j < |rows| ==> !AppliedMatch(rows[j], sight, target, digest, same)
    decreases |rows| - i
  {
    if i == |rows| then None
    else if AppliedMatch(rows[i], sight, target, digest, same) then Some(i)
    else FirstApplied(rows, sight, target, digest, same, i + 1)
  }

  function Decide(rows: Journal, sight: Sight, target: Path, digest: Digest): (a: Admission)
    ensures Admits(rows, sight, target, digest, a)
  {
    var pending := FirstPending(rows, sight, target, digest, 0);
    var applied := FirstApplied(rows, sight, target, digest, true, 0);
    if pending.Some? then Pending(pending.value)
    else if applied.Some? then Applied(applied.value)
    else if FirstApplied(rows, sight, target, digest, false, 0).Some? then Refused
    else Fresh
  }

  /* ---- The write and the receipt ---- */

  function Receipted(rows: Journal, disk: Disk, row: nat, recorded: bool): Outcome
    requires row < |rows|
  {
    var done := Complete(rows, rows[row].intent);
    if recorded && done.Some? then Outcome(done.value, disk, Served(row)) else Outcome(rows, disk, Unreceipted(row))
  }

  function Published(rows: Journal, disk: Disk, row: nat, edit: Content, f: Faults): Outcome
    requires row < |rows|
  {
    if !f.admitted || !edit.fits || !MayWrite(rows[row].intent, disk) then Outcome(rows, disk, Unlanded)
    else
      var after := Written(disk, Occupant(disk, rows[row].intent.target).value, edit, f.end);
      if f.end.Landed? then Receipted(rows, after, row, f.recorded) else Outcome(rows, after, Unlanded)
  }

  function Resolved(rows: Journal, disk: Disk, row: nat, owner: Owner, edit: Content, f: Faults): Outcome
    requires row < |rows|
  {
    var intent := rows[row].intent;
    if intent.owner != owner then Outcome(rows, disk, Served(row))
    else if Classify(intent, Look(disk, intent.target)) == ExactlyNew then Receipted(rows, disk, row, f.recorded)
    else Published(rows, disk, row, edit, f)
  }

  /** Admission, publication and their failures as one command without foreign
      writers. */
  function Run(rows: Journal, disk: Disk, owner: Owner, target: Path, edit: Content, f: Faults): Outcome {
    if !f.readable then Outcome(rows, disk, Unlanded)
    else
      var sight := Look(disk, target);
      match Decide(rows, sight, target, edit.digest)
      case Pending(row) => Resolved(rows, disk, row, owner, edit, f)
      case Applied(row) => Outcome(rows, disk, Served(row))
      case Refused => Outcome(rows, disk, Unlanded)
      case Fresh =>
        if sight.Present? && f.appended then
          Published(rows + [NewRow(rows, owner, target, edit.digest, sight)], disk, |rows|, edit, f)
        else Outcome(rows, disk, Unlanded)
  }

  /* ---- The view the surfaces serve ---- */

  /** The retained document's digest and the digest preconditions quote. */
  datatype View = View(retained: Digest, served: Digest)

  function ViewAfter(before: Digest, served: Digest, edit: Content, ending: Ending): View {
    if ending.Unlanded? then View(before, served) else View(edit.digest, edit.digest)
  }

  /** Retained document, served digest and disk bytes are one. */
  ghost predicate Agrees(disk: Disk, target: Path, view: View) {
    && Look(disk, target).Present?
    && Look(disk, target).content.digest == view.retained == view.served
  }

  /** Every row was admitted by this carrier, under its one spelling. */
  ghost predicate OneCarrier(rows: Journal, owner: Owner, target: Path) {
    forall i :: 0 <= i < |rows| ==> rows[i].intent.owner == owner && rows[i].intent.target == target
  }

  lemma CompleteShape(rows: Journal, key: Intent)
    ensures Complete(rows, key).Some? ==>
              && |Complete(rows, key).value| == |rows|
              && forall i :: 0 <= i < |rows| ==>
                   && Complete(rows, key).value[i].intent == rows[i].intent
                   && (rows[i].applied || (Names(rows[i].intent, key)) ==> Complete(rows, key).value[i].applied)
                   && (!rows[i].applied && !Names(rows[i].intent, key) ==> Complete(rows, key).value[i] == rows[i])
  {
  }

  lemma WriteShape(disk: Disk, target: Path, content: Content)
    requires ValidDisk(disk) && Look(disk, target).Present? && content.fits
    ensures var after := WithContent(disk, Look(disk, target).occupant, content);
            ValidDisk(after) && Look(after, target) == Look(disk, target).(content := content)
  {
  }

  ghost predicate Left(disk: Disk, out: Outcome, owner: Owner, target: Path, edit: Content, f: Faults)
    requires Look(disk, target).Present?
  {
    && ValidDisk(out.disk) && OneCarrier(out.rows, owner, target)
    && Look(out.disk, target).Present?
    && var now := Look(out.disk, target).content;
       if out.ending.Unlanded? then now == Look(disk, target).content || (f.end.Mutated? && now == f.end.left.(fits := true))
       else now.digest == edit.digest
  }

  lemma PublishedLeaves(rows: Journal, disk: Disk, owner: Owner, target: Path, row: nat, edit: Content, f: Faults)
    requires ValidDisk(disk) && OneCarrier(rows, owner, target) && Look(disk, target).Present? && row < |rows|
    ensures Left(disk, Published(rows, disk, row, edit, f), owner, target, edit, f)
  {
    if edit.fits {
      WriteShape(disk, target, edit);
    }
    if f.end.Mutated? {
      WriteShape(disk, target, f.end.left.(fits := true));
    }
    CompleteShape(rows, rows[row].intent);
  }

  /** Where the three ends of a command leave the target's bytes. */
  lemma RunLeaves(rows: Journal, disk: Disk, owner: Owner, target: Path, edit: Content, f: Faults)
    requires ValidDisk(disk) && OneCarrier(rows, owner, target) && Look(disk, target).Present?
    ensures Left(disk, Run(rows, disk, owner, target, edit, f), owner, target, edit, f)
  {
    var sight := Look(disk, target);
    match Decide(rows, sight, target, edit.digest) {
      case Pending(row) =>
        PublishedLeaves(rows, disk, owner, target, row, edit, f);
        CompleteShape(rows, rows[row].intent);
      case Fresh =>
        var next := rows + [NewRow(rows, owner, target, edit.digest, sight)];
        assert OneCarrier(next, owner, target);
        PublishedLeaves(next, disk, owner, target, |rows|, edit, f);
      case _ =>
    }
  }

  /** Main result. One carrier, a retained document, no foreign writes: whatever
      fails, the retained document, the served digest and the disk agree after the
      command exactly unless an uncertain write left other bytes behind. */
  lemma ViewAgreesAfterEveryCommand(rows: Journal, disk: Disk, owner: Owner, target: Path, before: Digest,
                                    edit: Content, f: Faults)
    requires ValidDisk(disk) && OneCarrier(rows, owner, target) && Agrees(disk, target, View(before, before))
    ensures var out := Run(rows, disk, owner, target, edit, f);
            var view := ViewAfter(before, before, edit, out.ending);
            && ValidDisk(out.disk) && OneCarrier(out.rows, owner, target)
            && (Agrees(out.disk, target, view) <==>
                  !(out.ending.Unlanded? && Look(out.disk, target).content.digest != before))
            && (!f.end.Mutated? ==> Agrees(out.disk, target, view))
  {
    RunLeaves(rows, disk, owner, target, edit, f);
  }

  datatype Command = Command(edit: Content, faults: Faults)

  datatype Session = Session(rows: Journal, disk: Disk, view: View)

  function After(s: Session, owner: Owner, target: Path, commands: seq<Command>): Session
    decreases |commands|
  {
    if commands == [] then s
    else
      var c := commands[0];
      var out := Run(s.rows, s.disk, owner, target, c.edit, c.faults);
      After(Session(out.rows, out.disk, ViewAfter(s.view.retained, s.view.served, c.edit, out.ending)),
            owner, target, commands[1..])
  }

  /** Over any sequence of commands, and any failures but an uncertain write. */
  lemma {:induction false} SessionAgrees(s: Session, owner: Owner, target: Path, commands: seq<Command>)
    requires ValidDisk(s.disk) && OneCarrier(s.rows, owner, target) && Agrees(s.disk, target, s.view)
    requires forall c :: c in commands ==> !c.faults.end.Mutated?
    ensures Agrees(After(s, owner, target, commands).disk, target, After(s, owner, target, commands).view)
    decreases |commands|
  {
    if commands != [] {
      var c := commands[0];
      assert c in commands;
      ViewAgreesAfterEveryCommand(s.rows, s.disk, owner, target, s.view.retained, c.edit, c.faults);
      var out := Run(s.rows, s.disk, owner, target, c.edit, c.faults);
      var next := Session(out.rows, out.disk, ViewAfter(s.view.retained, s.view.served, c.edit, out.ending));
      SessionAgrees(next, owner, target, commands[1..]);
    }
  }

  /* ---- Retries ---- */

  /** Some row already stands for this edit on this file. */
  ghost predicate Journaled(rows: Journal, disk: Disk, target: Path, digest: Digest) {
    exists i :: 0 <= i < |rows| &&
      (PendingMatch(rows[i], Look(disk, target), target, digest)
       || AppliedMatch(rows[i], Look(disk, target), target, digest, true))
  }

  /** Publishing keeps its row findable: pending on the same file, or applied
      with its bytes on disk. */
  lemma PublishedIsJournaled(rows: Journal, disk: Disk, owner: Owner, target: Path, row: nat, edit: Content, f: Faults)
    requires ValidDisk(disk) && OneCarrier(rows, owner, target) && Look(disk, target).Present?
    requires row < |rows| && PendingMatch(rows[row], Look(disk, target), target, edit.digest)
    ensures var out := Published(rows, disk, row, edit, f);
            |out.rows| == |rows| && Journaled(out.rows, out.disk, target, edit.digest)
  {
    var out := Published(rows, disk, row, edit, f);
    CompleteShape(rows, rows[row].intent);
    assert |out.rows| == |rows|;
    assert Look(out.disk, target).Present? && Look(out.disk, target).identity == Look(disk, target).identity;
    assert PendingMatch(out.rows[row], Look(out.disk, target), target, edit.digest)
           || AppliedMatch(out.rows[row], Look(out.disk, target), target, edit.digest, true);
  }

  lemma ReceiptedIsJournaled(rows: Journal, disk: Disk, owner: Owner, target: Path, row: nat, digest: Digest, recorded: bool)
    requires OneCarrier(rows, owner, target) && row < |rows|
    requires PendingMatch(rows[row], Look(disk, target), target, digest)
    requires Classify(rows[row].intent, Look(disk, target)) == ExactlyNew
    ensures var out := Receipted(rows, disk, row, recorded);
            |out.rows| == |rows| && Journaled(out.rows, disk, target, digest)
  {
    var out := Receipted(rows, disk, row, recorded);
    CompleteShape(rows, rows[row].intent);
    assert PendingMatch(out.rows[row], Look(disk, target), target, digest)
           || AppliedMatch(out.rows[row], Look(disk, target), target, digest, true);
  }

  /** A command over a target it can observe leaves a row a retry will find
      exactly unless admission refused it; over any other it appends none. */
  lemma CommandIsJournaled(rows: Journal, disk: Disk, owner: Owner, target: Path, edit: Content, f: Faults)
    requires ValidDisk(disk) && OneCarrier(rows, owner, target)
    requires f.readable && f.appended
    ensures var out := Run(rows, disk, owner, target, edit, f);
            if Look(disk, target).Present? then
              Journaled(out.rows, out.disk, target, edit.digest) <==>
                !Decide(rows, Look(disk, target), target, edit.digest).Refused?
            else |out.rows| == |rows|
  {
    hide FirstPending, FirstApplied;
    var sight := Look(disk, target);
    match Decide(rows, sight, target, edit.digest) {
      case Pending(row) =>
        CompleteShape(rows, rows[row].intent);
        if !sight.Present? {
        } else if Classify(rows[row].intent, sight) == ExactlyNew {
          ReceiptedIsJournaled(rows, disk, owner, target, row, edit.digest, f.recorded);
        } else {
          PublishedIsJournaled(rows, disk, owner, target, row, edit, f);
        }
      case Fresh =>
        if sight.Present? {
          var next := rows + [NewRow(rows, owner, target, edit.digest, sight)];
          assert next[|rows|] == NewRow(rows, owner, target, edit.digest, sight);
          PublishedIsJournaled(next, disk, owner, target, |rows|, edit, f);
        }
      case Applied(row) =>
        assert AppliedMatch(rows[row], sight, target, edit.digest, true);
      case Refused =>
    }
  }

  /* ---- How a command ends ---- */

  /** A write through this sight can land: the target has a token and the edit
      fits the ceiling, and the world lets it. */
  predicate Lands(identity: WriteIdentity, edit: Content, f: Faults) {
    f.admitted && edit.fits && identity.reuse.Ok? && f.end.Landed?
  }

  /** A fresh command over a target it can observe is published: it ends served
      exactly when its row was appended, its write landed and its receipt was
      recorded, and unreceipted exactly when only the receipt was lost. */
  lemma FreshEnding(rows: Journal, disk: Disk, owner: Owner, target: Path, edit: Content, f: Faults)
    requires ValidDisk(disk) && Look(disk, target).Present?
    requires Decide(rows, Look(disk, target), target, edit.digest).Fresh?
    ensures var out := Run(rows, disk, owner, target, edit, f);
            var sight := Look(disk, target);
            var staged, landed := f.readable && f.appended, Lands(sight.identity, edit, f);
            && (out.ending == Served(|rows|) <==> staged && landed && f.recorded)
            && (out.ending == Unreceipted(|rows|) <==> staged && landed && !f.recorded)
            && (out.ending == Unlanded <==> !(staged && landed))
            && |out.rows| == |rows| + (if staged then 1 else 0)
            && (staged ==>
                  out.rows[|rows|] == NewRow(rows, owner, target, edit.digest, sight).(applied := landed && f.recorded))
            && (staged && landed ==> out.disk.objects[sight.occupant].content == edit)
  {
    hide FirstPending, FirstApplied, MaxSeq;
    var sight := Look(disk, target);
    if f.readable && f.appended {
      var row := NewRow(rows, owner, target, edit.digest, sight);
      var next := rows + [row];
      assert next[|rows|] == row;
      CompleteShape(next, row.intent);
    }
  }

  /** What a command over an already journalled edit of this carrier ends in. */
  lemma PendingEnding(rows: Journal, disk: Disk, owner: Owner, target: Path, edit: Content, f: Faults, row: nat)
    requires ValidDisk(disk) && f.readable
    requires Decide(rows, Look(disk, target), target, edit.digest) == Pending(row) && rows[row].intent.owner == owner
    ensures var out := Run(rows, disk, owner, target, edit, f);
            var there := Classify(rows[row].intent, Look(disk, rows[row].intent.target)) == ExactlyNew;
            var written := f.admitted && edit.fits && MayWrite(rows[row].intent, disk) && f.end.Landed?;
            && (out.ending == Served(row) <==> (there || written) && f.recorded)
            && (out.ending == Unreceipted(row) <==> (there || written) && !f.recorded)
            && (out.ending == Unlanded <==> !(there || written))
            && |out.rows| == |rows| && (out.rows[row].applied <==> out.ending.Served?)
            && (there ==> out.disk == disk)
  {
    hide FirstPending, FirstApplied;
    CompleteShape(rows, rows[row].intent);
  }

  /** No other decision, and no unreadable journal, changes anything. */
  lemma StillEnding(rows: Journal, disk: Disk, owner: Owner, target: Path, edit: Content, f: Faults)
    ensures var out := Run(rows, disk, owner, target, edit, f);
            match Decide(rows, Look(disk, target), target, edit.digest)
            case Applied(row) => out == Outcome(rows, disk, if f.readable then Served(row) else Unlanded)
            case Refused => out == Outcome(rows, disk, Unlanded)
            case Pending(row) =>
              !f.readable || rows[row].intent.owner != owner ==>
                out == Outcome(rows, disk, if f.readable then Served(row) else Unlanded)
            case Fresh => !f.readable || !Look(disk, target).Present? ==> out == Outcome(rows, disk, Unlanded)
  {
  }

  /** The first command for an edit, met by no fault, converges exactly where the
      target has a reuse token and the edit fits. */
  lemma FreshConverges(rows: Journal, disk: Disk, owner: Owner, target: Path, edit: Content)
    requires ValidDisk(disk) && Look(disk, target).Present?
    requires Decide(rows, Look(disk, target), target, edit.digest).Fresh?
    ensures Converged(Run(rows, disk, owner, target, edit, NoFaults), target, edit) <==>
            Look(disk, target).identity.reuse.Ok? && edit.fits
  {
    hide Decide, Run;
    FreshEnding(rows, disk, owner, target, edit, NoFaults);
    FreshKeepsNames(rows, disk, owner, target, edit);
  }

  lemma FreshKeepsNames(rows: Journal, disk: Disk, owner: Owner, target: Path, edit: Content)
    requires Look(disk, target).Present? && Decide(rows, Look(disk, target), target, edit.digest).Fresh?
    ensures Occupant(Run(rows, disk, owner, target, edit, NoFaults).disk, target) == Some(Look(disk, target).occupant)
  {
    hide Decide;
  }

  /* ---- What the journal decides ---- */

  /** The four decisions, told by what the rows for these bytes say of the file. */
  lemma AdmissionExact(rows: Journal, disk: Disk, target: Path, digest: Digest)
    ensures var sight := Look(disk, target);
            var d := Decide(rows, sight, target, digest);
            var held := sight.Present? && sight.content.digest == digest;
            var pending := exists i :: 0 <= i < |rows| && !rows[i].applied && MaySpeakOf(rows[i].intent, sight, target, digest);
            var confirmed := exists i :: 0 <= i < |rows| && rows[i].applied && Confirms(rows[i].intent, sight, digest);
            var unconfirmed := exists i :: 0 <= i < |rows| && rows[i].applied && MaySpeakOf(rows[i].intent, sight, target, digest);
            && (d.Pending? <==> pending)
            && (d.Applied? <==> !pending && held && confirmed)
            && (d.Refused? <==> !pending && held && !confirmed && unconfirmed)
            && (d.Fresh? <==> !pending && !(held && unconfirmed))
  {
    hide FirstPending, FirstApplied;
    var sight := Look(disk, target);
    forall i | 0 <= i < |rows|
      ensures PendingMatch(rows[i], sight, target, digest) <==>
              !rows[i].applied && MaySpeakOf(rows[i].intent, sight, target, digest)
      ensures AppliedMatch(rows[i], sight, target, digest, true) <==>
              rows[i].applied && sight.Present? && sight.content.digest == digest && Confirms(rows[i].intent, sight, digest)
      ensures AppliedMatch(rows[i], sight, target, digest, false) <==>
              && rows[i].applied && sight.Present? && sight.content.digest == digest
              && MaySpeakOf(rows[i].intent, sight, target, digest) && !Confirms(rows[i].intent, sight, digest)
    {
    }
  }

  /** The row is for these bytes, and its file is or may be the one in sight: the
      staged numbers are the observed ones and no two tokens differ, or neither
      was observed and the spellings agree. */
  predicate MaySpeakOf(intent: Intent, sight: Sight, target: Path, digest: Digest) {
    && intent.intended == digest
    && if !sight.Present? then intent.target.absolute == target.absolute
       else if intent.identity == None then intent.target == target
       else
         var staged := intent.identity.value;
         staged.file == sight.identity.file && !(staged.reuse.Ok? && sight.identity.reuse.Ok? && staged.reuse != sight.identity.reuse)
  }

  predicate Confirms(intent: Intent, sight: Sight, digest: Digest) {
    && intent.intended == digest && sight.Present? && intent.identity.Some?
    && intent.identity.value.reuse.Ok? && intent.identity.value == sight.identity
  }

  /** The command ended on an applied row for this edit, and its bytes are in the
      file the target names. */
  ghost predicate Converged(out: Outcome, target: Path, edit: Content) {
    && out.ending.Served? && out.ending.row < |out.rows|
    && out.rows[out.ending.row].applied && out.rows[out.ending.row].intent.intended == edit.digest
    && Occupant(out.disk, target).Some?
    && out.disk.objects[Occupant(out.disk, target).value].content.digest == edit.digest
  }

  /** A retry that meets no fault adds no row, and converges exactly unless the
      pending row it finds may not be written: its file has no token on both
      sides or was replaced, or the edit is over the ceiling and not yet there. */
  lemma RetryExact(rows: Journal, disk: Disk, owner: Owner, target: Path, edit: Content)
    requires ValidDisk(disk) && OneCarrier(rows, owner, target)
    requires Journaled(rows, disk, target, edit.digest)
    ensures var out := Run(rows, disk, owner, target, edit, NoFaults);
            && |out.rows| == |rows|
            && (Converged(out, target, edit) <==>
                  match Decide(rows, Look(disk, target), target, edit.digest)
                  case Applied(_) => true
                  case Pending(row) =>
                    && MayWrite(rows[row].intent, disk)
                    && (edit.fits || Classify(rows[row].intent, Look(disk, target)) == ExactlyNew)
                  case _ => false)
  {
    hide FirstPending, FirstApplied;
    var sight := Look(disk, target);
    match Decide(rows, sight, target, edit.digest) {
      case Pending(row) =>
        assert Names(rows[row].intent, rows[row].intent) && !rows[row].applied;
        CompleteShape(rows, rows[row].intent);
      case Applied(row) =>
      case Refused =>
      case Fresh =>
    }
  }

  /** Tokens on the target and on every row journalled for it. */
  ghost predicate Attested(rows: Journal, disk: Disk, target: Path) {
    && Look(disk, target).Present? && Look(disk, target).identity.reuse.Ok?
    && forall i :: 0 <= i < |rows| ==> rows[i].intent.identity.Some? && rows[i].intent.identity.value.reuse.Ok?
  }

  /** So where tokens exist every retry of a writable edit converges. */
  lemma RetryConverges(rows: Journal, disk: Disk, owner: Owner, target: Path, edit: Content)
    requires ValidDisk(disk) && OneCarrier(rows, owner, target) && Attested(rows, disk, target) && edit.fits
    requires Journaled(rows, disk, target, edit.digest)
    ensures Converged(Run(rows, disk, owner, target, edit, NoFaults), target, edit)
  {
    hide FirstPending, FirstApplied, Run;
    RetryExact(rows, disk, owner, target, edit);
  }

  /* ---- Two owners ---- */

  /** A pending row of another carrier is answered as served without a look at
      the bytes: the served digest then names bytes the disk does not hold. */
  lemma ForeignPendingRowDisagrees(target: Path)
    ensures exists rows, disk, edit: Content ::
              && ValidDisk(disk) && Agrees(disk, target, View("old", "old"))
              && var out := Run(rows, disk, "cli", target, edit, NoFaults);
                 out.ending.Served? && !Agrees(out.disk, target, ViewAfter("old", "old", edit, out.ending))
  {
    var file := FileObject(WriteIdentity(FileNumber(1, 1), Ok("t")), Content("old", true, true), true);
    var disk := Disk(map[1 := file], map[target := 1]);
    var edit := Content("new", true, true);
    var row := NewRow([], "file", target, "new", Look(disk, target));
    assert PendingMatch(row, Look(disk, target), target, "new");
    var out := Run([row], disk, "cli", target, edit, NoFaults);
    assert out == Outcome([row], disk, Served(0));
  }

  /** And only so: after a served answer the disk holds the edit exactly unless
      the answering row is another carrier's pending one over other bytes. */
  lemma ServedNamesTheDisk(rows: Journal, disk: Disk, owner: Owner, target: Path, edit: Content, f: Faults)
    requires ValidDisk(disk) && Look(disk, target).Present?
    requires Run(rows, disk, owner, target, edit, f).ending.Served?
    ensures var out := Run(rows, disk, owner, target, edit, f);
            var row := out.ending.row;
            && Look(out.disk, target).Present?
            && (Look(out.disk, target).content.digest == edit.digest <==>
                  !(&& row < |rows| && !rows[row].applied && rows[row].intent.owner != owner
                    && Look(disk, target).content.digest != edit.digest))
  {
    var sight := Look(disk, target);
    match Decide(rows, sight, target, edit.digest) {
      case Pending(row) => CompleteShape(rows, rows[row].intent);
      case _ =>
    }
  }
}
