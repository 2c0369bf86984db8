/** Crash-safe config publication (src/config.rs): the journal of intents, the
    in-place write against a staged file identity, the receipt, and recovery,
    among foreign writers that may replace files and reuse their numbers.

    Bytes are represented by their digest, by whether they parse, and by whether
    they fit the ceiling that reads and managed writes share. */
module Publication {
  import opened Wrappers

  type Digest = string
  type Owner = string

  /** A spelling of a path together with its lexical absolute form. */
  datatype Path = Path(spelling: string, absolute: string)

  datatype FileNumber = FileNumber(dev: nat, ino: nat)

  datatype Unattested = Unsupported | Unrecorded

  /** `(dev, ino)` and the reuse token, or the reason there is none. */
  datatype WriteIdentity = WriteIdentity(file: FileNumber, reuse: Result<string, Unattested>)

  datatype FileAttribution = Different | Same | Unverifiable(cause: Unattested)

  function Attribute(staged: WriteIdentity, current: WriteIdentity): FileAttribution {
    if staged.file != current.file then Different
    else
      match (staged.reuse, current.reuse)
      case (Ok(a), Ok(b)) => if a == b then Same else Different
      case (Err(cause), _) => Unverifiable(cause)
      case (_, Err(cause)) => Unverifiable(cause)
  }

  /* ---- The disk ---- */

  datatype Content = Content(digest: Digest, parses: bool, fits: bool)

  /** One file object; its number in the disk is never used again. `readable`
      is whether this process can open it and it is a regular file. */
  datatype FileObject = FileObject(identity: WriteIdentity, content: Content, readable: bool)

  datatype Disk = Disk(objects: map<nat, FileObject>, names: map<Path, nat>)

  /** Two objects may share their numbers over time, but never numbers and token. */
  predicate ToldApart(a: WriteIdentity, b: WriteIdentity) {
    a.file == b.file && a.reuse.Ok? && b.reuse.Ok? ==> a.reuse.value != b.reuse.value
  }

  /** Any two objects are told apart, and two files that both have a name never
      share their numbers. */
  ghost predicate ValidDisk(disk: Disk) {
    && (forall p :: p in disk.names ==> disk.names[p] in disk.objects)
    && (forall a, b :: a in disk.objects && b in disk.objects && a != b ==>
          ToldApart(disk.objects[a].identity, disk.objects[b].identity))
    && (forall p, q :: p in disk.names && q in disk.names && disk.names[p] != disk.names[q] ==>
          disk.objects[disk.names[p]].identity.file != disk.objects[disk.names[q]].identity.file)
  }

  /** Whatever other programs do: write, tear, delete, rename, replace. An object
      keeps its identity, and a later one reusing its numbers has another token. */
  ghost predicate Evolves(before: Disk, after: Disk) {
    && ValidDisk(after)
    && forall o :: o in before.objects ==>
         o in after.objects && after.objects[o].identity == before.objects[o].identity
  }

  datatype Sight = Absent | Unknown | Present(occupant: nat, identity: WriteIdentity, content: Content)

  /** One observation through one opened handle. */
  function Look(disk: Disk, target: Path): Sight {
    if target !in disk.names || disk.names[target] !in disk.objects then Absent
    else
      var o := disk.names[target];
      var file := disk.objects[o];
      if file.readable && file.content.fits then Present(o, file.identity, file.content) else Unknown
  }

  function Occupant(disk: Disk, target: Path): (o: Option<nat>)
    ensures o.Some? ==> o.value in disk.objects
  {
    if target in disk.names && disk.names[target] in disk.objects then Some(disk.names[target]) else None
  }

  function WithContent(disk: Disk, o: nat, content: Content): Disk
    requires o in disk.objects
  {
    disk.(objects := disk.objects[o := disk.objects[o].(content := content)])
  }

  /* ---- The journal ---- */

  datatype Intent = Intent(
    owner: Owner, target: Path, admissionSeq: nat, intended: Digest, base: Option<Digest>, identity: Option<WriteIdentity>)

  /** A journal row, with the file object its staging observed. */
  datatype Row = Row(intent: Intent, applied: bool, origin: nat)

  type Journal = seq<Row>

  /** The identity column drops why a token is missing. */
  function Journalled(identity: WriteIdentity): WriteIdentity {
    if identity.reuse.Ok? then identity else identity.(reuse := Err(Unrecorded))
  }

  function MaxSeq(rows: Journal, target: Path): (m: nat)
    ensures forall i :: 0 <= i < |rows| && rows[i].intent.target == target ==> rows[i].intent.admissionSeq <= m
  {
    if rows == [] then 0
    else
      var last := rows[|rows| - 1].intent;
      var m := MaxSeq(rows[..|rows| - 1], target);
      if last.target == target && last.admissionSeq > m then last.admissionSeq else m
  }

  function NewRow(rows: Journal, owner: Owner, target: Path, intended: Digest, sight: Sight): Row
    requires sight.Present?
  {
    Row(Intent(owner, target, MaxSeq(rows, target) + 1, intended, Some(sight.content.digest),
               Some(Journalled(sight.identity))),
        false, sight.occupant)
  }

  predicate Names(intent: Intent, key: Intent) {
    intent.owner == key.owner && intent.target == key.target && intent.admissionSeq == key.admissionSeq
  }

  /** `complete_publication`; no pending row under the key is a conflict. */
  function Complete(rows: Journal, key: Intent): Option<Journal> {
    if exists i :: 0 <= i < |rows| && Names(rows[i].intent, key) && !rows[i].applied then
      Some(seq(|rows|, i requires 0 <= i < |rows| =>
             if Names(rows[i].intent, key) && !rows[i].applied then rows[i].(applied := true) else rows[i]))
    else None
  }

  ghost predicate UniqueKeys(rows: Journal) {
    forall i, j :: 0 <= i < j < |rows| ==> !Names(rows[i].intent, rows[j].intent)
  }

  lemma CompleteOne(rows: Journal, i: nat)
    requires UniqueKeys(rows) && i < |rows|
    ensures Complete(rows, rows[i].intent) == if rows[i].applied then None else Some(rows[i := rows[i].(applied := true)])
  {
    assert forall j :: 0 <= j < |rows| && Names(rows[j].intent, rows[i].intent) ==> j == i;
    if !rows[i].applied {
      assert Complete(rows, rows[i].intent).value == rows[i := rows[i].(applied := true)];
    }
  }

  /* ---- Judging a row ---- */

  function SameTargetFile(intent: Intent, sight: Sight, target: Path): FileAttribution {
    if sight.Present? then
      match intent.identity
      case Some(staged) => Attribute(staged, sight.identity)
      case None => if intent.target == target then Unverifiable(Unrecorded) else Different
    else if intent.target.absolute == target.absolute then Same
    else Different
  }

  datatype Verdict = ExactlyNew | Old | ByteIdenticalThird | Conflicting | TornOrUnparseable | Missing | Unseen

  function Classify(intent: Intent, sight: Sight): Verdict {
    match sight
    case Absent => Missing
    case Unknown => Unseen
    case Present(_, current, content) =>
      if content.digest == intent.intended then
        if intent.identity == None then Unseen
        else
          match Attribute(intent.identity.value, current)
          case Same => ExactlyNew
          case Different => ByteIdenticalThird
          case Unverifiable(_) => Unseen
      else if intent.base == Some(content.digest) then Old
      else if content.parses then Conflicting
      else TornOrUnparseable
  }

  /** The occupant check of the managed write: nothing but the staged file, under
      an equal token on both sides, may be opened for it. The old bytes are not
      read, so neither their size nor a read permission matters. */
  predicate MayWrite(intent: Intent, disk: Disk) {
    && Occupant(disk, intent.target).Some? && intent.identity.Some?
    && Attribute(intent.identity.value, disk.objects[Occupant(disk, intent.target).value].identity) == Same
  }

  /** What the managed write leaves behind once the occupant was confirmed. */
  datatype WriteEnd = Landed | Untouched | Mutated(left: Content)

  /** The file takes the payload's length before any byte moves, so torn bytes fit
      the ceiling as the payload does. */
  function Written(disk: Disk, o: nat, edit: Content, end: WriteEnd): Disk
    requires o in disk.objects
  {
    match end
    case Landed => WithContent(disk, o, edit)
    case Untouched => disk
    case Mutated(left) => WithContent(disk, o, left.(fits := true))
  }

  /* ---- Admission ---- */

  predicate PendingMatch(row: Row, sight: Sight, target: Path, digest: Digest) {
    !row.applied && row.intent.intended == digest && SameTargetFile(row.intent, sight, target) != Different
  }

  predicate AppliedMatch(row: Row, sight: Sight, target: Path, digest: Digest, same: bool) {
    && row.applied && row.intent.intended == digest
    && sight.Present? && sight.content.digest == digest
    && var attribution := SameTargetFile(row.intent, sight, target);
       if same then attribution == Same else attribution.Unverifiable?
  }

  datatype Admission = Pending(row: nat) | Applied(row: nat) | Refused | Fresh

  /** What the journal and one sight of the target decide. Of several matching
      rows any may be answered; the choice is the index carried. */
  ghost predicate Admits(rows: Journal, sight: Sight, target: Path, digest: Digest, a: Admission) {
    var pending := exists i :: 0 <= i < |rows| && PendingMatch(rows[i], sight, target, digest);
    var applied := exists i :: 0 <= i < |rows| && AppliedMatch(rows[i], sight, target, digest, true);
    var unverifiable := exists i :: 0 <= i < |rows| && AppliedMatch(rows[i], sight, target, digest, false);
    match a
    case Pending(i) => i < |rows| && PendingMatch(rows[i], sight, target, digest)
    case Applied(i) => !pending && i < |rows| && AppliedMatch(rows[i], sight, target, digest, true)
    case Refused => !pending && !applied && unverifiable
    case Fresh => !pending && !applied && !unverifiable
  }

  /** Symmetric up to the cause, and blind to how a journal reads back. */
  lemma AttributeSymmetric(a: WriteIdentity, b: WriteIdentity)
    ensures Attribute(a, b) == Same <==> Attribute(b, a) == Same
    ensures Attribute(a, b) == Different <==> Attribute(b, a) == Different
    ensures Attribute(Journalled(a), b) == Same <==> Attribute(a, b) == Same
    ensures Attribute(Journalled(a), b) == Different <==> Attribute(a, b) == Different
  {
  }

  /** Two pending rows for one intent on one file. */
  predicate Clash(a: Row, b: Row) {
    && !a.applied && !b.applied && a.intent.intended == b.intent.intended
    && match (a.intent.identity, b.intent.identity)
       case (Some(x), Some(y)) => Attribute(x, y) != Different
       case _ => a.intent.target == b.intent.target
  }

  ghost predicate Singleflight(rows: Journal) {
    forall i, j :: 0 <= i < j < |rows| ==> !Clash(rows[i], rows[j])
  }

  /** Appending keeps the journal free of clashes exactly when no pending row
      matches the file the staging observed. */
  lemma StagingKeepsSingleflight(rows: Journal, owner: Owner, target: Path, digest: Digest, sight: Sight)
    requires Singleflight(rows) && sight.Present?
    ensures Singleflight(rows + [NewRow(rows, owner, target, digest, sight)]) <==>
            forall i :: 0 <= i < |rows| ==> !PendingMatch(rows[i], sight, target, digest)
  {
    var added := NewRow(rows, owner, target, digest, sight);
    var next := rows + [added];
    forall i | 0 <= i < |rows|
      ensures Clash(next[i], added) <==> PendingMatch(rows[i], sight, target, digest)
    {
      if rows[i].intent.identity.Some? {
        AttributeSymmetric(rows[i].intent.identity.value, Journalled(sight.identity));
        AttributeSymmetric(sight.identity, rows[i].intent.identity.value);
      }
    }
    assert next[|rows|] == added;
    if Singleflight(next) {
      forall i | 0 <= i < |rows|
        ensures !PendingMatch(rows[i], sight, target, digest)
      {
        assert !Clash(next[i], next[|rows|]);
      }
    }
  }

  /** So an admission whose sight and staging are one observation never journals
      a command twice, whatever its owner, spelling or the file's history. */
  lemma AtomicAdmissionIsSingleflight(rows: Journal, owner: Owner, target: Path, digest: Digest, disk: Disk)
    requires Singleflight(rows) && Look(disk, target).Present?
    requires Admits(rows, Look(disk, target), target, digest, Fresh)
    ensures Singleflight(rows + [NewRow(rows, owner, target, digest, Look(disk, target))])
  {
    StagingKeepsSingleflight(rows, owner, target, digest, Look(disk, target));
  }

  lemma CompletionKeepsSingleflight(rows: Journal, key: Intent)
    requires Singleflight(rows)
    ensures Complete(rows, key).Some? ==> Singleflight(Complete(rows, key).value)
  {
    if Complete(rows, key).Some? {
      var next := Complete(rows, key).value;
      forall i, j | 0 <= i < j < |next|
        ensures !Clash(next[i], next[j])
      {
        assert !Clash(rows[i], rows[j]);
      }
    }
  }
}
