/** What a recovery can tell from the bytes at a target (src/config.rs), and that
    the command program is a run of the publication protocol. */
module PublicationVerdicts {
  import opened Wrappers
  import opened Publication
  import opened PublicationMachine
  import opened ConfigCommand
  import opened PublicationProgram

  /* ---- Verdicts ---- */

  /** The bytes a crash window leaves name the point it was cut at: a write that
      landed reads as new, one that never began as old, and a torn one by what
      its bytes happen to be. */
  lemma VerdictNamesTheCut(rows: Journal, disk: Disk, owner: Owner, target: Path, edit: Content, end: WriteEnd)
    requires ValidDisk(disk) && edit.fits && Look(disk, target).Present? && Look(disk, target).identity.reuse.Ok?
    ensures var sight := Look(disk, target);
            var intent := NewRow(rows, owner, target, edit.digest, sight).intent;
            var base := sight.content.digest;
            var verdict := Classify(intent, Look(Written(disk, sight.occupant, edit, end), target));
            match end
            case Landed => verdict == ExactlyNew
            case Untouched => verdict == if base == edit.digest then ExactlyNew else Old
            case Mutated(left) =>
              verdict == if left.digest == edit.digest then ExactlyNew
                         else if left.digest == base then Old
                         else if left.parses then Conflicting
                         else TornOrUnparseable
  {
    hide MaxSeq;
  }

  /** What foreign programs did since the staging, whatever it was, as the verdict
      tells it: the target is gone or cannot be read, another file holds the
      intended bytes, or other bytes stand there. */
  lemma VerdictNamesTheChange(rows: Journal, disk: Disk, after: Disk, owner: Owner, target: Path, digest: Digest)
    requires ValidDisk(disk) && Evolves(disk, after) && Look(disk, target).Present?
    ensures var sight, now := Look(disk, target), Look(after, target);
            var intent := NewRow(rows, owner, target, digest, sight).intent;
            var verdict := Classify(intent, now);
            var holds := now.Present? && now.content.digest == digest;
            var other := now.Present? && now.occupant != sight.occupant;
            && (verdict == Missing <==> Occupant(after, target) == None)
            && (verdict == ExactlyNew <==> holds && !other && sight.identity.reuse.Ok?)
            && (verdict == ByteIdenticalThird ==> holds && other)
            && (holds && other && now.identity.reuse.Ok? && sight.identity.reuse.Ok? ==> verdict == ByteIdenticalThird)
            && (verdict == Unseen ==> Occupant(after, target).Some? && (now.Present? ==>
                  holds && !(now.identity.reuse.Ok? && sight.identity.reuse.Ok?)))
            && (!now.Present? && Occupant(after, target).Some? ==> verdict == Unseen)
            && (verdict == Old <==> now.Present? && !holds && now.content.digest == sight.content.digest)
            && (verdict == Conflicting <==>
                  now.Present? && !holds && now.content.digest != sight.content.digest && now.content.parses)
            && (verdict == TornOrUnparseable <==>
                  now.Present? && !holds && now.content.digest != sight.content.digest && !now.content.parses)
  {
    hide MaxSeq;
  }

  /** The first command for an edit over a file, told by the file: without fault it
      converges exactly when the file can be read, has a token, and old and new
      bytes fit; a file it cannot read is left alone, and no row says otherwise. */
  lemma FirstCommandOverFile(rows: Journal, disk: Disk, owner: Owner, target: Path, edit: Content, o: nat)
    requires ValidDisk(disk) && Occupant(disk, target) == Some(o)
    requires Decide(rows, Look(disk, target), target, edit.digest).Fresh?
    ensures var file := disk.objects[o];
            var out := Run(rows, disk, owner, target, edit, NoFaults);
            && (Converged(out, target, edit) <==>
                  file.readable && file.content.fits && file.identity.reuse.Ok? && edit.fits)
            && (!file.readable || !file.content.fits ==> out == Outcome(rows, disk, Unlanded))
  {
    hide Decide;
    StillEnding(rows, disk, owner, target, edit, NoFaults);
    if disk.objects[o].readable && disk.objects[o].content.fits {
      FreshConverges(rows, disk, owner, target, edit);
    }
  }

  /** Recovery reports each row it found pending and went past, in journal order
      and by its own verdict, and no other. */
  lemma {:induction false} ReportsExact(rows: Journal, disk: Disk, n: nat, i: nat, verdict: Verdict)
    requires n <= |rows|
    ensures (i, verdict) in Verdicts(rows, disk, n) <==>
              i < n && !rows[i].applied && verdict == Classify(rows[i].intent, Look(disk, rows[i].intent.target))
    ensures forall k :: 0 <= k < |Verdicts(rows, disk, n)| ==> Verdicts(rows, disk, n)[k].0 < n
    ensures forall k, l :: 0 <= k < l < |Verdicts(rows, disk, n)| ==>
              Verdicts(rows, disk, n)[k].0 < Verdicts(rows, disk, n)[l].0
  {
    hide Classify, Look;
    if n > 0 {
      ReportsExact(rows, disk, n - 1, i, verdict);
    }
  }

  /* ---- The program is a run of the protocol ---- */

  ghost predicate Follows(s: State, events: seq<Event>, t: State)
    decreases |events|
  {
    if events == [] then s == t else Enabled(s, events[0]) && Follows(Next(s, events[0]), events[1..], t)
  }

  lemma Followed(s: State, e: Event, events: seq<Event>, t: State)
    requires Enabled(s, e) && Follows(Next(s, e), events, t)
    ensures Follows(s, [e] + events, t)
  {
    assert ([e] + events)[0] == e && ([e] + events)[1..] == events;
  }

  lemma ReceiptFollows(s: State, row: nat, recorded: bool) returns (events: seq<Event>)
    requires s.job == Receipting(row) && row < |s.rows|
    ensures var out := Receipted(s.rows, s.disk, row, recorded);
            Follows(s, events, State(out.disk, out.rows, Resting))
  {
    events := [Receipt(recorded)] + [];
    var out := Receipted(s.rows, s.disk, row, recorded);
    assert Next(s, Receipt(recorded)) == State(out.disk, out.rows, Resting);
    Followed(s, Receipt(recorded), [], State(out.disk, out.rows, Resting));
  }

  lemma PublishFollows(s: State, row: nat, edit: Content, f: Faults) returns (events: seq<Event>)
    requires s.job == Writing(row, edit) && row < |s.rows|
    ensures var out := Published(s.rows, s.disk, row, edit, f);
            Follows(s, events, State(out.disk, out.rows, Resting))
  {
    var out := Published(s.rows, s.disk, row, edit, f);
    var t := State(out.disk, out.rows, Resting);
    var opening := Next(s, Open(f.admitted));
    if opening.job.Resting? {
      events := [Open(f.admitted)] + [];
      assert opening == t;
      Followed(s, Open(f.admitted), [], t);
    } else {
      var writing := Next(opening, Write(f.end));
      var rest := [];
      if f.end.Landed? {
        rest := ReceiptFollows(writing, row, f.recorded);
      } else {
        assert writing == t;
      }
      Followed(opening, Write(f.end), rest, t);
      Followed(s, Open(f.admitted), [Write(f.end)] + rest, t);
      events := [Open(f.admitted)] + ([Write(f.end)] + rest);
    }
  }

  lemma ResolveFollows(s: State, row: nat, owner: Owner, edit: Content, f: Faults) returns (events: seq<Event>)
    requires s.job == Resolving(row, owner, edit) && row < |s.rows|
    ensures var out := Resolved(s.rows, s.disk, row, owner, edit, f);
            Follows(s, events, State(out.disk, out.rows, Resting))
  {
    var out := Resolved(s.rows, s.disk, row, owner, edit, f);
    var t := State(out.disk, out.rows, Resting);
    var next := Next(s, Resolve);
    var rest := [];
    if next.job.Receipting? {
      rest := ReceiptFollows(next, row, f.recorded);
    } else if next.job.Writing? {
      rest := PublishFollows(next, row, edit, f);
    } else {
      assert next == t;
    }
    Followed(s, Resolve, rest, t);
    events := [Resolve] + rest;
  }

  /** A command that nothing interrupts is one run of the protocol, to the same
      journal and the same disk. */
  lemma CommandIsARun(s: State, owner: Owner, target: Path, edit: Content, f: Faults) returns (events: seq<Event>)
    requires s.job == Resting
    ensures var out := Run(s.rows, s.disk, owner, target, edit, f);
            Follows(s, events, State(out.disk, out.rows, Resting))
  {
    var out := Run(s.rows, s.disk, owner, target, edit, f);
    var t := State(out.disk, out.rows, Resting);
    events := [];
    if f.readable {
      var decision := Decide(s.rows, Look(s.disk, target), target, edit.digest);
      var admit := Admit(owner, target, edit, decision);
      var admitted := Next(s, admit);
      var rest := [];
      match decision {
        case Pending(row) => rest := ResolveFollows(admitted, row, owner, edit, f);
        case Fresh =>
          var staged := Next(admitted, Stage(f.appended));
          var after := [];
          if staged.job.Writing? {
            after := PublishFollows(staged, |s.rows|, edit, f);
          } else {
            assert staged == t;
          }
          Followed(admitted, Stage(f.appended), after, t);
          rest := [Stage(f.appended)] + after;
        case Applied(_) => assert admitted == t;
        case Refused => assert admitted == t;
      }
      Followed(s, admit, rest, t);
      events := [admit] + rest;
    }
  }

  /** So is the recovery of one pending row. */
  lemma RecoveryIsARun(s: State, row: nat, recorded: bool) returns (events: seq<Event>)
    requires s.job == Resting && row < |s.rows| && !s.rows[row].applied && UniqueKeys(s.rows)
    ensures var receipted := recorded && Recoverable(s.rows[row], s.disk);
            Follows(s, events, s.(rows := if receipted then s.rows[row := s.rows[row].(applied := true)] else s.rows))
  {
    var next := Next(s, Recover(row));
    var t := s.(rows := if recorded && Recoverable(s.rows[row], s.disk)
                        then s.rows[row := s.rows[row].(applied := true)] else s.rows);
    var rest := [];
    CompleteOne(s.rows, row);
    if next.job.Receipting? {
      rest := ReceiptFollows(next, row, recorded);
    }
    Followed(s, Recover(row), rest, t);
    events := [Recover(row)] + rest;
  }

  /** A recovery no receipt of which fails goes through the whole journal. */
  lemma RecoveryGoesThrough(rows: Journal, disk: Disk, failing: Option<nat>)
    ensures RecoveryStop(rows, disk, failing) == |rows| <==>
            !(failing.Some? && failing.value < |rows| && Recoverable(rows[failing.value], disk))
    ensures RecoveryStop(rows, disk, failing) < |rows| ==> failing == Some(RecoveryStop(rows, disk, failing))
  {
  }
}
