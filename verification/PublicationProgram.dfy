/** The program of one config command and of boot recovery (src/config.rs,
    src/commands.rs): a journal, a volume, and the runtime that edits both. */
module PublicationProgram {
  import opened Wrappers
  import opened Publication
  import opened ConfigCommand

  /** The journal table. SQLite is not part of this model: a statement takes
      effect as a whole or reports failure, as the caller's flags decide. */
  class TaskStore {
    var rows: Journal

    constructor (rows: Journal)
      ensures this.rows == rows
    {
      this.rows := rows;
    }

    method NextPublicationSeq(target: Path) returns (next: nat)
      ensures next == MaxSeq(rows, target) + 1
    {
      var max := 0;
      for i := 0 to |rows|
        invariant max == MaxSeq(rows[..i], target)
      {
        assert rows[..i + 1][..i] == rows[..i];
        if rows[i].intent.target == target && rows[i].intent.admissionSeq > max {
          max := rows[i].intent.admissionSeq;
        }
      }
      assert rows[..|rows|] == rows;
      next := max + 1;
    }

    method AppendPublication(owner: Owner, target: Path, intended: Digest, sight: Sight, appended: bool)
      returns (r: Option<nat>)
      requires sight.Present?
      modifies this
      ensures r == if appended then Some(|old(rows)|) else None
      ensures rows == if appended then old(rows) + [NewRow(old(rows), owner, target, intended, sight)] else old(rows)
    {
      if !appended {
        return None;
      }
      var seqNo := NextPublicationSeq(target);
      var intent := Intent(owner, target, seqNo, intended, Some(sight.content.digest), Some(Journalled(sight.identity)));
      r := Some(|rows|);
      rows := rows + [Row(intent, false, sight.occupant)];
    }

    /** One `UPDATE` over the key; no row changed is a conflict. */
    method CompletePublication(key: Intent, recorded: bool) returns (ok: bool)
      modifies this
      ensures ok == (recorded && Complete(old(rows), key).Some?)
      ensures rows == if ok then Complete(old(rows), key).value else old(rows)
    {
      if !recorded {
        return false;
      }
      ok := false;
      var next: Journal := [];
      for i := 0 to |rows|
        invariant |next| == i
        invariant ok <==> exists j :: 0 <= j < i && Names(rows[j].intent, key) && !rows[j].applied
        invariant forall j :: 0 <= j < i ==>
                    next[j] == if Names(rows[j].intent, key) && !rows[j].applied then rows[j].(applied := true) else rows[j]
      {
        if Names(rows[i].intent, key) && !rows[i].applied {
          next := next + [rows[i].(applied := true)];
          ok := true;
        } else {
          next := next + [rows[i]];
        }
      }
      if ok {
        rows := next;
        assert rows == Complete(old(rows), key).value;
      }
    }
  }

  /** The file system seen through one opened handle at a time. */
  class Volume {
    var disk: Disk

    constructor (disk: Disk)
      ensures this.disk == disk
    {
      this.disk := disk;
    }

    method ObserveTarget(target: Path) returns (sight: Sight)
      ensures sight == Look(disk, target)
    {
      if target !in disk.names || disk.names[target] !in disk.objects {
        return Absent;
      }
      var o := disk.names[target];
      if !disk.objects[o].readable || !disk.objects[o].content.fits {
        return Unknown;
      }
      sight := Present(o, disk.objects[o].identity, disk.objects[o].content);
    }

    /** `write_once`: the size of the payload, the occupant check on the opened
        handle, then the write through it. `admitted` is everything before the
        handle is held; `landed` is success. */
    method WriteOnce(intent: Intent, identity: WriteIdentity, edit: Content, f: Faults) returns (landed: bool)
      requires intent.identity == Some(identity)
      modifies this
      ensures var confirmed := f.admitted && edit.fits && MayWrite(intent, old(disk));
              && landed == (confirmed && f.end.Landed?)
              && disk == if confirmed then Written(old(disk), Occupant(old(disk), intent.target).value, edit, f.end)
                         else old(disk)
    {
      if !edit.fits || !f.admitted || intent.target !in disk.names || disk.names[intent.target] !in disk.objects {
        return false;
      }
      var handle := disk.names[intent.target];
      if Attribute(identity, disk.objects[handle].identity) != Same {
        return false;
      }
      match f.end {
        case Landed =>
          disk := WithContent(disk, handle, edit);
          return true;
        case Untouched =>
          return false;
        case Mutated(left) =>
          disk := WithContent(disk, handle, left.(fits := true));
          return false;
      }
    }
  }

  class ConfigRuntime {
    const store: TaskStore
    const volume: Volume
    const configPath: Path
    const carrier: Owner
    var retained: Digest
    var sourcesDigest: Digest

    constructor (store: TaskStore, volume: Volume, configPath: Path, carrier: Owner, digest: Digest)
      ensures this.store == store && this.volume == volume && this.configPath == configPath && this.carrier == carrier
      ensures retained == sourcesDigest == digest
    {
      this.store, this.volume, this.configPath, this.carrier := store, volume, configPath, carrier;
      retained, sourcesDigest := digest, digest;
    }

    /** `admit_publication` up to the fresh staging. */
    method AdmitPublication(edit: Content) returns (a: Admission)
      ensures a == Decide(store.rows, Look(volume.disk, configPath), configPath, edit.digest)
    {
      var sight := volume.ObserveTarget(configPath);
      var rows := store.rows;
      for i := 0 to |rows|
        invariant FirstPending(rows, sight, configPath, edit.digest, 0) ==
                  FirstPending(rows, sight, configPath, edit.digest, i)
      {
        if !rows[i].applied && rows[i].intent.intended == edit.digest {
          if SameTargetFile(rows[i].intent, sight, configPath) != Different {
            return Pending(i);
          }
        }
      }
      if !sight.Present? || sight.content.digest != edit.digest {
        return Fresh;
      }
      var unverifiable := false;
      for i := 0 to |rows|
        invariant FirstApplied(rows, sight, configPath, edit.digest, true, 0) ==
                  FirstApplied(rows, sight, configPath, edit.digest, true, i)
        invariant unverifiable <==>
                  exists j :: 0 <= j < i && AppliedMatch(rows[j], sight, configPath, edit.digest, false)
      {
        if rows[i].applied && rows[i].intent.intended == edit.digest {
          match SameTargetFile(rows[i].intent, sight, configPath) {
            case Same => return Applied(i);
            case Unverifiable(_) =>
              assert AppliedMatch(rows[i], sight, configPath, edit.digest, false);
              unverifiable := true;
            case Different =>
          }
        }
      }
      a := if unverifiable then Refused else Fresh;
    }

    /** `publish_intent`: the write, then the receipt. */
    method PublishIntent(row: nat, edit: Content, f: Faults) returns (ending: Ending)
      requires row < |store.rows|
      modifies store, volume
      ensures Outcome(store.rows, volume.disk, ending) == Published(old(store.rows), old(volume.disk), row, edit, f)
    {
      var intent := store.rows[row].intent;
      if intent.identity == None {
        return Unlanded;
      }
      var landed := volume.WriteOnce(intent, intent.identity.value, edit, f);
      if !landed {
        return Unlanded;
      }
      var ok := store.CompletePublication(intent, f.recorded);
      ending := if ok then Served(row) else Unreceipted(row);
    }

    method ResolvePendingPublication(row: nat, edit: Content, f: Faults) returns (ending: Ending)
      requires row < |store.rows|
      modifies store, volume
      ensures Outcome(store.rows, volume.disk, ending) ==
              Resolved(old(store.rows), old(volume.disk), row, carrier, edit, f)
    {
      var intent := store.rows[row].intent;
      if intent.owner != carrier {
        return Served(row);
      }
      var sight := volume.ObserveTarget(intent.target);
      if Classify(intent, sight) == ExactlyNew {
        var ok := store.CompletePublication(intent, f.recorded);
        return if ok then Served(row) else Unreceipted(row);
      }
      ending := PublishIntent(row, edit, f);
    }

    /** `admit_config_edit`, entered with the edit already retained and `before`
        the digest to restore. */
    method AdmitConfigEdit(edit: Content, before: Digest, f: Faults) returns (ending: Ending)
      requires retained == edit.digest
      modifies this, store, volume
      ensures Outcome(store.rows, volume.disk, ending) ==
              Run(old(store.rows), old(volume.disk), carrier, configPath, edit, f)
      ensures View(retained, sourcesDigest) == ViewAfter(before, old(sourcesDigest), edit, ending)
    {
      if !f.readable {
        retained := before;
        return Unlanded;
      }
      var admission := AdmitPublication(edit);
      match admission {
        case Pending(row) =>
          ending := ResolvePendingPublication(row, edit, f);
        case Applied(row) =>
          ending := Served(row);
        case Refused =>
          ending := Unlanded;
        case Fresh =>
          var sight := volume.ObserveTarget(configPath);
          ending := Unlanded;
          if sight.Present? {
            var row := store.AppendPublication(carrier, configPath, edit.digest, sight, f.appended);
            if row.Some? {
              ending := PublishIntent(row.value, edit, f);
            }
          }
      }
      if ending.Unlanded? {
        retained := before;
      } else {
        sourcesDigest := edit.digest;
      }
    }

    /** `recover_publications`; `failing` is the first receipt the store refuses,
        if any. The volume is only read. */
    method RecoverPublications(failing: Option<nat>) returns (verdicts: seq<(nat, Verdict)>, ok: bool)
      requires UniqueKeys(store.rows)
      modifies store
      ensures volume.disk == old(volume.disk)
      ensures var stop := RecoveryStop(old(store.rows), volume.disk, failing);
              && ok == (stop == |old(store.rows)|)
              && store.rows == Recovered(old(store.rows), volume.disk, stop)
              && verdicts == Verdicts(old(store.rows), volume.disk, stop)
    {
      verdicts := [];
      var journal := store.rows;
      for i := 0 to |journal|
        invariant i <= RecoveryStop(journal, volume.disk, failing)
        invariant store.rows == Recovered(journal, volume.disk, i)
        invariant verdicts == Verdicts(journal, volume.disk, i)
        invariant volume.disk == old(volume.disk)
      {
        RecoveredKeepsKeys(journal, volume.disk, i);
        if !journal[i].applied {
          var intent := journal[i].intent;
          var sight := volume.ObserveTarget(intent.target);
          var verdict := Classify(intent, sight);
          if verdict == ExactlyNew {
            CompleteOne(store.rows, i);
            var receipted := store.CompletePublication(intent, failing != Some(i));
            if !receipted {
              ok := false;
              return;
            }
          }
          verdicts := verdicts + [(i, verdict)];
        }
      }
      ok := true;
    }
  }

  /* ---- What recovery does to the journal ---- */

  predicate Recoverable(row: Row, disk: Disk) {
    !row.applied && Classify(row.intent, Look(disk, row.intent.target)) == ExactlyNew
  }

  /** The first `n` rows recovered against one disk. */
  function Recovered(rows: Journal, disk: Disk, n: nat): Journal
    requires n <= |rows|
  {
    seq(|rows|, i requires 0 <= i < |rows| =>
      if i < n && Recoverable(rows[i], disk) then rows[i].(applied := true) else rows[i])
  }

  function RecoveryStop(rows: Journal, disk: Disk, failing: Option<nat>): (n: nat)
    ensures n <= |rows|
  {
    if failing.Some? && failing.value < |rows| && Recoverable(rows[failing.value], disk) then failing.value else |rows|
  }

  function Verdicts(rows: Journal, disk: Disk, n: nat): seq<(nat, Verdict)>
    requires n <= |rows|
  {
    if n == 0 then []
    else
      Verdicts(rows, disk, n - 1) +
      if rows[n - 1].applied then []
      else [(n - 1, Classify(rows[n - 1].intent, Look(disk, rows[n - 1].intent.target)))]
  }

  lemma RecoveredKeepsKeys(rows: Journal, disk: Disk, n: nat)
    requires n <= |rows| && UniqueKeys(rows)
    ensures UniqueKeys(Recovered(rows, disk, n))
  {
  }

  /** Recovery receipts exactly the pending rows whose own staged file, told
      apart by a token on both sides, holds the intended bytes; a second one
      without writes between receipts nothing. */
  lemma RecoveryIsExact(rows: Journal, disk: Disk, i: nat)
    requires i < |rows|
    ensures var done := Recovered(rows, disk, |rows|);
            var sight := Look(disk, rows[i].intent.target);
            && done[i].intent == rows[i].intent
            && (done[i].applied <==>
                  rows[i].applied
                  || (sight.Present? && MayWrite(rows[i].intent, disk) && sight.content.digest == rows[i].intent.intended))
            && (done[i].applied && !rows[i].applied ==> rows[i].intent.identity.value.reuse.Ok?)
            && Recovered(done, disk, |done|) == done
            && Verdicts(done, disk, |done|) == Unsettled(done, disk, |done|)
  {
    RecoveredLeavesUnsettled(rows, disk, |rows|);
  }

  /** The verdicts a second recovery reports: none of them a receipt. */
  function Unsettled(rows: Journal, disk: Disk, n: nat): (verdicts: seq<(nat, Verdict)>)
    requires n <= |rows|
    ensures forall v :: v in verdicts ==> v.1 != ExactlyNew
  {
    if n == 0 then []
    else
      var verdict := Classify(rows[n - 1].intent, Look(disk, rows[n - 1].intent.target));
      Unsettled(rows, disk, n - 1) + if rows[n - 1].applied || verdict == ExactlyNew then [] else [(n - 1, verdict)]
  }

  lemma {:induction false} RecoveredLeavesUnsettled(rows: Journal, disk: Disk, n: nat)
    requires n <= |rows|
    ensures var done := Recovered(rows, disk, |rows|);
            Verdicts(done, disk, n) == Unsettled(done, disk, n)
  {
    if n > 0 {
      RecoveredLeavesUnsettled(rows, disk, n - 1);
    }
  }
}
