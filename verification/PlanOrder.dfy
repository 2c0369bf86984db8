/** The ordering of plan parts (src/actions.rs): validation of the parts, then
    repeated passes over the caller's list that place every part whose
    dependencies are already placed.

    The specification keeps, beside the identifiers the program collects, the
    pass and the list position at which each one was placed. */
module PlanOrder {
  import opened Wrappers

  const ARRAY_MAX_ITEMS: nat := 200
  const TEXT_MAX_BYTES: nat := 65_536
  const ID_MAX_BYTES: nat := 64

  datatype Part = Part(id: string, criteria: seq<string>, dependsOn: seq<string>, proof: seq<bv8>)

  datatype Refusal =
    | EmptyPlan
    | PlanTooLarge
    | InvalidPartId(part: string)
    | ProofTooLarge(part: string)
    | DuplicatePart(part: string)
    | UnknownDependency(part: string, dependency: string)
    | DependencyCycle(part: string)

  /* ---- Validation ---- */

  predicate LegalChar(c: char) {
    'a' <= c <= 'z' || 'A' <= c <= 'Z' || '0' <= c <= '9' || c in ['.', '_', '-']
  }

  /** Every legal identifier is ASCII, so its length in bytes is its length. */
  predicate LegalId(raw: string) {
    raw != "" && |raw| <= ID_MAX_BYTES && forall i :: 0 <= i < |raw| ==> LegalChar(raw[i])
  }

  predicate TooLarge(p: Part) {
    |p.criteria| > ARRAY_MAX_ITEMS || |p.dependsOn| > ARRAY_MAX_ITEMS
  }

  function Ids(parts: seq<Part>): set<string> {
    set p | p in parts :: p.id
  }

  /** The refusal part `i` earns on its own or against the parts before it, the
      tests in the program's order. */
  function PartRefusal(parts: seq<Part>, i: nat): Option<Refusal>
    requires i < |parts|
  {
    var p := parts[i];
    if TooLarge(p) then Some(PlanTooLarge)
    else if !LegalId(p.id) then Some(InvalidPartId(p.id))
    else if |p.proof| > TEXT_MAX_BYTES then Some(ProofTooLarge(p.id))
    else if p.id in Ids(parts[..i]) then Some(DuplicatePart(p.id))
    else None
  }

  function FirstRefusal(parts: seq<Part>, i: nat): Option<Refusal>
    requires i <= |parts|
    decreases |parts| - i
  {
    if i == |parts| then None
    else if PartRefusal(parts, i).Some? then PartRefusal(parts, i)
    else FirstRefusal(parts, i + 1)
  }

  function FirstUnknown(known: set<string>, dependsOn: seq<string>): (r: Option<string>)
    ensures r == None <==> forall d :: d in dependsOn ==> d in known
    ensures r.Some? ==> r.value in dependsOn && r.value !in known
  {
    if dependsOn == [] then None
    else if dependsOn[0] !in known then Some(dependsOn[0])
    else FirstUnknown(known, dependsOn[1..])
  }

  function UnknownRefusal(parts: seq<Part>, i: nat): Option<Refusal>
    requires i <= |parts|
    decreases |parts| - i
  {
    if i == |parts| then None
    else
      var unknown := FirstUnknown(Ids(parts), parts[i].dependsOn);
      if unknown.Some? then Some(UnknownDependency(parts[i].id, unknown.value)) else UnknownRefusal(parts, i + 1)
  }

  /** The refusal the whole list earns before any part is placed. */
  function Validate(parts: seq<Part>): Option<Refusal> {
    if parts == [] then Some(EmptyPlan)
    else if |parts| > ARRAY_MAX_ITEMS then Some(PlanTooLarge)
    else if FirstRefusal(parts, 0).Some? then FirstRefusal(parts, 0)
    else UnknownRefusal(parts, 0)
  }

  ghost predicate UniqueIds(parts: seq<Part>) {
    forall i, j :: 0 <= i < j < |parts| ==> parts[i].id != parts[j].id
  }

  ghost predicate KnownDependencies(parts: seq<Part>) {
    forall i, d :: 0 <= i < |parts| && d in parts[i].dependsOn ==> d in Ids(parts)
  }

  /** A part stays within the bounds on its own lists. */
  ghost predicate Bounded(p: Part) {
    |p.criteria| <= ARRAY_MAX_ITEMS && |p.dependsOn| <= ARRAY_MAX_ITEMS
  }

  /** What a caller must supply for the passes to start. */
  ghost predicate ValidParts(parts: seq<Part>) {
    && 0 < |parts| <= ARRAY_MAX_ITEMS
    && (forall i :: 0 <= i < |parts| ==>
          Bounded(parts[i]) && LegalId(parts[i].id) && |parts[i].proof| <= TEXT_MAX_BYTES)
    && UniqueIds(parts)
    && KnownDependencies(parts)
  }

  lemma {:induction false} FirstRefusalNone(parts: seq<Part>, i: nat)
    requires i <= |parts|
    ensures FirstRefusal(parts, i) == None <==> forall j :: i <= j < |parts| ==> PartRefusal(parts, j) == None
    decreases |parts| - i
  {
    if i < |parts| {
      FirstRefusalNone(parts, i + 1);
    }
  }

  lemma {:induction false} UnknownRefusalNone(parts: seq<Part>, i: nat)
    requires i <= |parts|
    ensures UnknownRefusal(parts, i) == None <==>
            forall j, d :: i <= j < |parts| && d in parts[j].dependsOn ==> d in Ids(parts)
    ensures UnknownRefusal(parts, i).Some? ==> !UnknownRefusal(parts, i).value.DependencyCycle?
    decreases |parts| - i
  {
    if i < |parts| {
      UnknownRefusalNone(parts, i + 1);
    }
  }

  /** A list is refused before placement exactly when it is not valid. */
  lemma ValidateExact(parts: seq<Part>)
    ensures Validate(parts) == None <==> ValidParts(parts)
  {
    FirstRefusalNone(parts, 0);
    UnknownRefusalNone(parts, 0);
    if Validate(parts) == None {
      forall i, j | 0 <= i < j < |parts|
        ensures parts[i].id != parts[j].id
      {
        assert PartRefusal(parts, j) == None;
        assert parts[..j][i] in parts[..j];
      }
      assert KnownDependencies(parts);
      forall i | 0 <= i < |parts|
        ensures !TooLarge(parts[i]) && LegalId(parts[i].id) && |parts[i].proof| <= TEXT_MAX_BYTES
      {
        assert PartRefusal(parts, i) == None;
      }
      assert ValidParts(parts);
    }
    if ValidParts(parts) {
      forall j | 0 <= j < |parts|
        ensures PartRefusal(parts, j) == None
      {
        forall p | p in parts[..j]
          ensures p.id != parts[j].id
        {
          var i :| 0 <= i < j && parts[..j][i] == p;
          assert parts[i] == p;
        }
      }
      assert FirstRefusal(parts, 0) == None;
      assert UnknownRefusal(parts, 0) == None;
    }
  }

  /** No part before `i` is refused on its own or against the parts before it. */
  ghost predicate CleanBefore(parts: seq<Part>, i: nat)
    requires i <= |parts|
  {
    && (forall j :: 0 <= j < i ==>
          Bounded(parts[j]) && LegalId(parts[j].id) && |parts[j].proof| <= TEXT_MAX_BYTES)
    && (forall j, k :: 0 <= j < k < i ==> parts[j].id != parts[k].id)
  }

  /** What a list is at fault with, first fault first. */
  ghost predicate AtFault(parts: seq<Part>, fault: Refusal) {
    match fault
    case EmptyPlan => parts == []
    case PlanTooLarge =>
      |parts| > ARRAY_MAX_ITEMS || exists i :: 0 <= i < |parts| && CleanBefore(parts, i) && !Bounded(parts[i])
    case InvalidPartId(id) =>
      && |parts| <= ARRAY_MAX_ITEMS
      && exists i :: 0 <= i < |parts| && CleanBefore(parts, i) && parts[i].id == id && Bounded(parts[i]) && !LegalId(id)
    case ProofTooLarge(id) =>
      && |parts| <= ARRAY_MAX_ITEMS
      && exists i :: 0 <= i < |parts| && CleanBefore(parts, i) && parts[i].id == id && Bounded(parts[i]) && LegalId(id)
                     && |parts[i].proof| > TEXT_MAX_BYTES
    case DuplicatePart(id) =>
      && |parts| <= ARRAY_MAX_ITEMS
      && exists j, i :: 0 <= j < i < |parts| && CleanBefore(parts, i) && parts[j].id == parts[i].id == id
                        && Bounded(parts[i]) && |parts[i].proof| <= TEXT_MAX_BYTES
    case UnknownDependency(part, dependency) =>
      && 0 < |parts| <= ARRAY_MAX_ITEMS && CleanBefore(parts, |parts|)
      && exists i, k :: FirstDangling(parts, i, k) && parts[i].id == part && parts[i].dependsOn[k] == dependency
    case DependencyCycle(_) => false
  }

  /** The first dependency, in list order, that names no part. */
  ghost predicate FirstDangling(parts: seq<Part>, i: int, k: int) {
    && 0 <= i < |parts| && 0 <= k < |parts[i].dependsOn| && parts[i].dependsOn[k] !in Ids(parts)
    && (forall l :: 0 <= l < k ==> parts[i].dependsOn[l] in Ids(parts))
    && (forall j, d :: 0 <= j < i && d in parts[j].dependsOn ==> d in Ids(parts))
  }

  lemma CleanStep(parts: seq<Part>, i: nat)
    requires i < |parts| && CleanBefore(parts, i)
    ensures PartRefusal(parts, i) == None <==> CleanBefore(parts, i + 1)
    ensures parts[i].id in Ids(parts[..i]) <==> exists j :: 0 <= j < i && parts[j].id == parts[i].id
    ensures PartRefusal(parts, i).Some? && |parts| <= ARRAY_MAX_ITEMS ==> AtFault(parts, PartRefusal(parts, i).value)
  {
    assert forall j :: 0 <= j < i ==> parts[..i][j] == parts[j] && parts[j] in parts[..i];
    if parts[i].id in Ids(parts[..i]) {
      var p :| p in parts[..i] && p.id == parts[i].id;
      var j :| 0 <= j < i && parts[..i][j] == p;
      assert parts[j].id == parts[i].id;
    }
  }

  lemma {:induction false} FirstRefusalFault(parts: seq<Part>, i: nat)
    requires i <= |parts| <= ARRAY_MAX_ITEMS && CleanBefore(parts, i)
    ensures FirstRefusal(parts, i).Some? ==> AtFault(parts, FirstRefusal(parts, i).value)
    ensures FirstRefusal(parts, i) == None ==> CleanBefore(parts, |parts|)
    decreases |parts| - i
  {
    hide AtFault, CleanBefore, PartRefusal;
    if i < |parts| {
      CleanStep(parts, i);
      if PartRefusal(parts, i) == None {
        FirstRefusalFault(parts, i + 1);
      }
    }
  }

  lemma {:induction false} FirstUnknownIndex(known: set<string>, dependsOn: seq<string>) returns (k: nat)
    requires FirstUnknown(known, dependsOn).Some?
    ensures k < |dependsOn| && dependsOn[k] == FirstUnknown(known, dependsOn).value && dependsOn[k] !in known
    ensures forall l :: 0 <= l < k ==> dependsOn[l] in known
  {
    k := 0;
    if dependsOn[0] in known {
      var rest := FirstUnknownIndex(known, dependsOn[1..]);
      k := rest + 1;
    }
  }

  lemma {:induction false} UnknownRefusalFault(parts: seq<Part>, i: nat)
    requires i <= |parts| && 0 < |parts| <= ARRAY_MAX_ITEMS && CleanBefore(parts, |parts|)
    requires forall j, d :: 0 <= j < i && d in parts[j].dependsOn ==> d in Ids(parts)
    ensures UnknownRefusal(parts, i).Some? ==> AtFault(parts, UnknownRefusal(parts, i).value)
    decreases |parts| - i
  {
    if i < |parts| {
      if FirstUnknown(Ids(parts), parts[i].dependsOn).Some? {
        var k := FirstUnknownIndex(Ids(parts), parts[i].dependsOn);
        assert FirstDangling(parts, i, k);
      } else {
        UnknownRefusalFault(parts, i + 1);
      }
    }
  }

  /** A list has at most one first fault. */
  lemma FaultUnique(parts: seq<Part>, one: Refusal, other: Refusal)
    requires AtFault(parts, one) && AtFault(parts, other)
    ensures one == other
  {
    hide LegalId, Ids;
    if one.UnknownDependency? && other.UnknownDependency? {
      var i, k :| FirstDangling(parts, i, k) && parts[i].id == one.part && parts[i].dependsOn[k] == one.dependency;
      var j, l :| FirstDangling(parts, j, l) && parts[j].id == other.part && parts[j].dependsOn[l] == other.dependency;
      DanglingUnique(parts, i, k, j, l);
    }
  }

  lemma DanglingUnique(parts: seq<Part>, i: int, k: int, j: int, l: int)
    requires FirstDangling(parts, i, k) && FirstDangling(parts, j, l)
    ensures i == j && k == l
  {
    hide Ids;
    assert parts[i].dependsOn[k] in parts[i].dependsOn && parts[j].dependsOn[l] in parts[j].dependsOn;
  }

  /** Validation answers exactly the first fault of a list, in the program's order. */
  lemma RefusalExact(parts: seq<Part>, fault: Refusal)
    ensures Validate(parts) == Some(fault) <==> AtFault(parts, fault)
  {
    ValidationNamesFault(parts);
    if AtFault(parts, fault) {
      if Validate(parts) == None {
        ValidateExact(parts);
        ValidHasNoFault(parts, fault);
      } else {
        FaultUnique(parts, fault, Validate(parts).value);
      }
    }
  }

  lemma ValidationNamesFault(parts: seq<Part>)
    ensures Validate(parts).Some? ==> AtFault(parts, Validate(parts).value)
  {
    hide PartRefusal, LegalId;
    if 0 < |parts| <= ARRAY_MAX_ITEMS {
      FirstRefusalFault(parts, 0);
      if FirstRefusal(parts, 0) == None {
        UnknownRefusalFault(parts, 0);
      }
    }
  }

  lemma ValidHasNoFault(parts: seq<Part>, fault: Refusal)
    requires ValidParts(parts)
    ensures !AtFault(parts, fault)
  {
    hide LegalId;
    if fault.UnknownDependency? {
      forall i, k
        ensures !FirstDangling(parts, i, k)
      {
        if 0 <= i < |parts| && 0 <= k < |parts[i].dependsOn| {
          assert parts[i].dependsOn[k] in parts[i].dependsOn;
        }
      }
    }
  }

  /* ---- Placement ---- */

  /** One placed part: its list position and the pass that placed it. */
  datatype Placement = Placement(id: string, index: nat, pass: nat)

  function Names(trail: seq<Placement>): (names: seq<string>)
    ensures |names| == |trail|
    ensures forall i :: 0 <= i < |trail| ==> names[i] == trail[i].id
  {
    seq(|trail|, i requires 0 <= i < |trail| => trail[i].id)
  }

  predicate Placed(trail: seq<Placement>, id: string) {
    exists t :: t in trail && t.id == id
  }

  predicate Ready(p: Part, trail: seq<Placement>) {
    !Placed(trail, p.id) && forall d :: d in p.dependsOn ==> Placed(trail, d)
  }

  /** The trail once parts `i..` were visited in pass `pass`. */
  function PassFrom(parts: seq<Part>, pass: nat, i: nat, trail: seq<Placement>): (r: seq<Placement>)
    requires i <= |parts|
    ensures trail <= r
    decreases |parts| - i
  {
    if i == |parts| then trail
    else
      PassFrom(parts, pass, i + 1,
               if Ready(parts[i], trail) then trail + [Placement(parts[i].id, i, pass)] else trail)
  }

  function FirstUnplaced(parts: seq<Part>, trail: seq<Placement>): (r: Option<string>)
    ensures r == None <==> forall p :: p in parts ==> Placed(trail, p.id)
    ensures r.Some? ==> !Placed(trail, r.value) && exists p :: p in parts && p.id == r.value
  {
    if parts == [] then None
    else if !Placed(trail, parts[0].id) then
      assert parts[0] in parts;
      Some(parts[0].id)
    else
      var r := FirstUnplaced(parts[1..], trail);
      assert parts == [parts[0]] + parts[1..];
      r
  }

  /** `(pass, index)` pairs in the order the program reaches them. */
  predicate Earlier(pass: nat, index: int, laterPass: nat, laterIndex: int) {
    pass < laterPass || (pass == laterPass && index < laterIndex)
  }

  ghost predicate PlacedBefore(trail: seq<Placement>, id: string, pass: nat, index: int) {
    exists t :: t in trail && t.id == id && Earlier(t.pass, t.index, pass, index)
  }

  /** A dependency listed after its dependent costs one more pass. */
  function Cost(t: Placement, dependent: int): nat {
    t.pass + if t.index >= dependent then 1 else 0
  }

  ghost predicate TightAt(parts: seq<Part>, trail: seq<Placement>, t: Placement)
    requires t.index < |parts|
  {
    && (forall d :: d in parts[t.index].dependsOn ==> PlacedBefore(trail, d, t.pass, t.index))
    && (t.pass > 0 ==>
          exists u :: u in trail && u.id in parts[t.index].dependsOn && Cost(u, t.index) == t.pass)
  }

  /** A part was visited at `(pass, index)` and had to wait. */
  ghost predicate HeldBack(p: Part, trail: seq<Placement>, pass: nat, index: int) {
    exists d :: d in p.dependsOn && !PlacedBefore(trail, d, pass, index)
  }

  /** Part `j` is placed, or its last visit found a dependency missing. */
  ghost predicate Accounted(parts: seq<Part>, pass: nat, i: nat, trail: seq<Placement>, j: nat)
    requires j < |parts|
  {
    || Placed(trail, parts[j].id)
    || (if j < i then HeldBack(parts[j], trail, pass, j) else pass > 0 ==> HeldBack(parts[j], trail, pass - 1, j))
  }

  /** The state of the passes when `(pass, i)` is about to be visited. */
  ghost predicate Frontier(parts: seq<Part>, pass: nat, i: nat, trail: seq<Placement>) {
    && (forall k :: 0 <= k < |trail| ==>
          && trail[k].index < |parts|
          && trail[k].id == parts[trail[k].index].id
          && Earlier(trail[k].pass, trail[k].index, pass, i))
    && (forall k {:trigger TightAt(parts, trail, trail[k])} :: 0 <= k < |trail| ==> TightAt(parts, trail, trail[k]))
    && (forall k, l :: 0 <= k < l < |trail| ==>
          trail[k].id != trail[l].id && Earlier(trail[k].pass, trail[k].index, trail[l].pass, trail[l].index))
    && (forall j {:trigger Accounted(parts, pass, i, trail, j)} :: 0 <= j < |parts| ==>
          Accounted(parts, pass, i, trail, j))
  }

  lemma PlacedExtend(trail: seq<Placement>, t: Placement, id: string)
    ensures Placed(trail + [t], id) <==> Placed(trail, id) || t.id == id
  {
    assert t in trail + [t];
    assert forall u :: u in trail + [t] <==> u in trail || u == t;
  }

  lemma BeforeExtend(trail: seq<Placement>, t: Placement, id: string, pass: nat, index: int)
    ensures PlacedBefore(trail + [t], id, pass, index) <==>
            PlacedBefore(trail, id, pass, index) || (t.id == id && Earlier(t.pass, t.index, pass, index))
  {
    assert t in trail + [t];
    assert forall u :: u in trail + [t] <==> u in trail || u == t;
  }

  lemma TightExtend(parts: seq<Part>, trail: seq<Placement>, u: Placement, t: Placement)
    requires t.index < |parts| && TightAt(parts, trail, t)
    ensures TightAt(parts, trail + [u], t)
  {
    forall d | d in parts[t.index].dependsOn
      ensures PlacedBefore(trail + [u], d, t.pass, t.index)
    {
      BeforeExtend(trail, u, d, t.pass, t.index);
    }
    assert forall v :: v in trail ==> v in trail + [u];
  }

  /** A part placed at `(pass, i)` waits for its dependencies and for nothing
      else: the previous pass held it back for one of them. */
  lemma PlacementTight(parts: seq<Part>, pass: nat, i: nat, trail: seq<Placement>)
    requires i < |parts| && Frontier(parts, pass, i, trail) && Ready(parts[i], trail)
    ensures TightAt(parts, trail, Placement(parts[i].id, i, pass))
  {
    forall d | d in parts[i].dependsOn
      ensures PlacedBefore(trail, d, pass, i)
    {
      var t :| t in trail && t.id == d;
    }
    if pass > 0 {
      assert Accounted(parts, pass, i, trail, i);
      var d :| d in parts[i].dependsOn && !PlacedBefore(trail, d, pass - 1, i);
      var u :| u in trail && u.id == d;
      assert Cost(u, i) == pass;
    }
  }

  lemma FrontierPlace(parts: seq<Part>, pass: nat, i: nat, trail: seq<Placement>)
    requires i < |parts| && Frontier(parts, pass, i, trail) && Ready(parts[i], trail)
    ensures Frontier(parts, pass, i + 1, trail + [Placement(parts[i].id, i, pass)])
  {
    var t := Placement(parts[i].id, i, pass);
    var next := trail + [t];
    PlacementTight(parts, pass, i, trail);
    forall k | 0 <= k < |next|
      ensures TightAt(parts, next, next[k])
    {
      assert k < |trail| ==> TightAt(parts, trail, trail[k]);
      TightExtend(parts, trail, t, next[k]);
    }
    forall k | 0 <= k < |trail|
      ensures trail[k].id != t.id
    {
      assert trail[k] in trail;
    }
    forall k | 0 <= k < |next|
      ensures next[k].index < |parts| && next[k].id == parts[next[k].index].id
      ensures Earlier(next[k].pass, next[k].index, pass, i + 1)
    {
      assert k < |trail| ==> next[k] == trail[k];
    }
    var after := i + 1;
    forall j | 0 <= j < |parts|
      ensures Accounted(parts, pass, after, next, j)
    {
      PlacedExtend(trail, t, parts[j].id);
      assert Accounted(parts, pass, i, trail, j);
      if Placed(next, parts[j].id) {
      } else if j < i {
        var d :| d in parts[j].dependsOn && !PlacedBefore(trail, d, pass, j);
        BeforeExtend(trail, t, d, pass, j);
      } else if j > i && pass > 0 {
        var d :| d in parts[j].dependsOn && !PlacedBefore(trail, d, pass - 1, j);
        BeforeExtend(trail, t, d, pass - 1, j);
      }
    }
  }

  lemma FrontierSkip(parts: seq<Part>, pass: nat, i: nat, trail: seq<Placement>)
    requires i < |parts| && Frontier(parts, pass, i, trail) && !Ready(parts[i], trail)
    ensures Frontier(parts, pass, i + 1, trail)
  {
    var after := i + 1;
    forall j | 0 <= j < |parts|
      ensures Accounted(parts, pass, after, trail, j)
    {
      assert Accounted(parts, pass, i, trail, j);
      if j == i && !Placed(trail, parts[i].id) {
        var d :| d in parts[i].dependsOn && !Placed(trail, d);
        assert HeldBack(parts[i], trail, pass, i);
      }
    }
    assert forall k :: 0 <= k < |trail| ==> TightAt(parts, trail, trail[k]);
  }

  lemma {:induction false} FrontierPass(parts: seq<Part>, pass: nat, i: nat, trail: seq<Placement>)
    requires i <= |parts| && Frontier(parts, pass, i, trail)
    ensures Frontier(parts, pass, |parts|, PassFrom(parts, pass, i, trail))
    decreases |parts| - i
  {
    if i == |parts| {
    } else if Ready(parts[i], trail) {
      FrontierPlace(parts, pass, i, trail);
      FrontierPass(parts, pass, i + 1, trail + [Placement(parts[i].id, i, pass)]);
    } else {
      FrontierSkip(parts, pass, i, trail);
      FrontierPass(parts, pass, i + 1, trail);
    }
  }

  lemma FrontierTurn(parts: seq<Part>, pass: nat, trail: seq<Placement>)
    requires Frontier(parts, pass, |parts|, trail)
    ensures Frontier(parts, pass + 1, 0, trail)
  {
    var turn, all := pass + 1, |parts|;
    forall j | 0 <= j < |parts|
      ensures Accounted(parts, turn, 0, trail, j)
    {
      assert Accounted(parts, pass, all, trail, j);
    }
    forall k | 0 <= k < |trail|
      ensures Earlier(trail[k].pass, trail[k].index, turn, 0)
    {
    }
    assert forall k :: 0 <= k < |trail| ==> TightAt(parts, trail, trail[k]);
  }

  /* ---- Passes until nothing is left or nothing moves ---- */

  lemma {:induction false} Pigeonhole(s: seq<nat>, n: nat)
    requires |s| > n
    requires forall i :: 0 <= i < |s| ==> s[i] < n
    ensures exists i, j :: 0 <= i < j < |s| && s[i] == s[j]
    decreases n
  {
    if forall i, j :: 0 <= i < j < |s| ==> s[i] != s[j] {
      assert n > 0 by {
        assert s[0] < n;
      }
      if last: nat :| last < |s| && s[last] == n - 1 {
        var rest := s[..last] + s[last + 1..];
        assert forall i :: 0 <= i < |rest| ==> rest[i] == if i < last then s[i] else s[i + 1];
        Pigeonhole(rest, n - 1);
      } else {
        Pigeonhole(s[1..], n - 1);
      }
    }
  }

  lemma TrailBound(parts: seq<Part>, pass: nat, i: nat, trail: seq<Placement>)
    requires Frontier(parts, pass, i, trail)
    ensures |trail| <= |parts|
  {
    if |trail| > |parts| {
      var at: seq<nat> := seq(|trail|, k requires 0 <= k < |trail| => trail[k].index);
      Pigeonhole(at, |parts|);
      assert false;
    }
  }

  ghost function Passes(parts: seq<Part>, pass: nat, trail: seq<Placement>): Result<seq<Placement>, Refusal>
    requires Frontier(parts, pass, 0, trail)
    decreases |parts| - |trail|
  {
    var stuck := FirstUnplaced(parts, trail);
    if stuck == None then Ok(trail)
    else
      var next := PassFrom(parts, pass, 0, trail);
      FrontierPass(parts, pass, 0, trail);
      FrontierTurn(parts, pass, next);
      TrailBound(parts, pass, |parts|, next);
      if |next| == |trail| then Err(DependencyCycle(stuck.value))
      else Passes(parts, pass + 1, next)
  }

  /** The whole operation: the refusal, or the identifiers in placement order. */
  ghost function Order(parts: seq<Part>): Result<seq<string>, Refusal> {
    var refusal := Validate(parts);
    if refusal.Some? then Err(refusal.value)
    else
      match Passes(parts, 0, [])
      case Ok(trail) => Ok(Names(trail))
      case Err(error) => Err(error)
  }

  /* ---- The graph ---- */

  predicate DependsOn(parts: seq<Part>, i: nat, j: nat)
    requires i < |parts| && j < |parts|
  {
    parts[j].id in parts[i].dependsOn
  }

  ghost predicate StepOf(parts: seq<Part>, w: seq<nat>, k: nat)
    requires k + 1 < |w| && w[k] < |parts| && w[k + 1] < |parts|
  {
    DependsOn(parts, w[k], w[k + 1])
  }

  ghost predicate Walk(parts: seq<Part>, w: seq<nat>) {
    && w != []
    && (forall k :: 0 <= k < |w| ==> w[k] < |parts|)
    && (forall k {:trigger StepOf(parts, w, k)} :: 0 <= k < |w| - 1 ==> StepOf(parts, w, k))
  }

  ghost predicate Cycle(parts: seq<Part>, w: seq<nat>) {
    |w| >= 2 && Walk(parts, w) && w[0] == w[|w| - 1]
  }

  ghost predicate Cyclic(parts: seq<Part>) {
    exists w :: Cycle(parts, w)
  }

  /** Some dependency path leads from part `i` onto a cycle. */
  ghost predicate ReachesCycle(parts: seq<Part>, i: nat) {
    exists path, cycle ::
      Walk(parts, path) && path[0] == i && Cycle(parts, cycle) && cycle[0] == path[|path| - 1]
  }

  /** A dependency listed at or after its dependent. */
  function Late(j: nat, i: nat): nat {
    if j >= i then 1 else 0
  }

  /** `rho[i]` is the maximum over the dependencies `j` of part `i` of `rho[j]`,
      plus one when `j` is listed at or after `i`; zero without dependencies. */
  ghost predicate IsRound(parts: seq<Part>, rho: seq<nat>) {
    && |rho| == |parts|
    && (forall i, j :: 0 <= i < |parts| && 0 <= j < |parts| && DependsOn(parts, i, j) ==>
          rho[j] + Late(j, i) <= rho[i])
    && (forall i :: 0 <= i < |parts| ==> Attained(parts, rho, i))
  }

  ghost predicate Attained(parts: seq<Part>, rho: seq<nat>, i: nat)
    requires i < |parts| == |rho|
  {
    rho[i] == 0 || exists j :: 0 <= j < |parts| && DependsOn(parts, i, j) && rho[j] + Late(j, i) == rho[i]
  }

  /** `order` lists every part once, sorted by round and then by list position;
      `at[k]` is the list position of the k-th. */
  ghost predicate Arranges(parts: seq<Part>, rho: seq<nat>, order: seq<string>, at: seq<nat>)
    requires |rho| == |parts|
  {
    && |at| == |order| == |parts|
    && (forall k :: 0 <= k < |at| ==> at[k] < |parts| && order[k] == parts[at[k]].id)
    && (forall k, l :: 0 <= k < l < |at| ==> Earlier(rho[at[k]], at[k], rho[at[l]], at[l]))
  }

  ghost predicate ByRound(parts: seq<Part>, order: seq<string>) {
    exists rho: seq<nat>, at: seq<nat> :: IsRound(parts, rho) && Arranges(parts, rho, order, at)
  }

  /* ---- What a stuck pass means ---- */

  ghost predicate Blocked(parts: seq<Part>, trail: seq<Placement>, i: nat)
    requires i < |parts|
  {
    exists j :: 0 <= j < |parts| && DependsOn(parts, i, j) && !Placed(trail, parts[j].id)
  }

  ghost predicate Stuck(parts: seq<Part>, trail: seq<Placement>) {
    forall i {:trigger Blocked(parts, trail, i)} ::
      0 <= i < |parts| && !Placed(trail, parts[i].id) ==> Blocked(parts, trail, i)
  }

  lemma HeldBackIsBlocked(parts: seq<Part>, pass: nat, trail: seq<Placement>, i: nat)
    requires KnownDependencies(parts) && i < |parts|
    requires forall k :: 0 <= k < |trail| ==> trail[k].pass < pass
    requires HeldBack(parts[i], trail, pass, i)
    ensures Blocked(parts, trail, i)
  {
    var d :| d in parts[i].dependsOn && !PlacedBefore(trail, d, pass, i);
    assert d in Ids(parts);
    var p :| p in parts && p.id == d;
    var j :| 0 <= j < |parts| && parts[j] == p;
    assert DependsOn(parts, i, j);
  }

  lemma IdlePassIsStuck(parts: seq<Part>, pass: nat, trail: seq<Placement>)
    requires KnownDependencies(parts)
    requires Frontier(parts, pass, 0, trail) && Frontier(parts, pass, |parts|, trail)
    ensures Stuck(parts, trail)
  {
    var all := |parts|;
    forall i | 0 <= i < |parts| && !Placed(trail, parts[i].id)
      ensures Blocked(parts, trail, i)
    {
      assert Accounted(parts, pass, all, trail, i);
      HeldBackIsBlocked(parts, pass, trail, i);
    }
  }

  lemma {:induction false} StuckWalk(parts: seq<Part>, trail: seq<Placement>, i: nat, steps: nat) returns (w: seq<nat>)
    requires Stuck(parts, trail) && i < |parts| && !Placed(trail, parts[i].id)
    ensures |w| == steps + 1 && Walk(parts, w) && w[0] == i
    decreases steps
  {
    if steps == 0 {
      w := [i];
    } else {
      assert Blocked(parts, trail, i);
      var j :| 0 <= j < |parts| && DependsOn(parts, i, j) && !Placed(trail, parts[j].id);
      var rest := StuckWalk(parts, trail, j, steps - 1);
      w := [i] + rest;
      assert StepOf(parts, w, 0);
      forall k | 0 < k < |w| - 1
        ensures StepOf(parts, w, k)
      {
        assert StepOf(parts, rest, k - 1);
      }
    }
  }

  lemma WalkSlice(parts: seq<Part>, w: seq<nat>, a: nat, b: nat)
    requires Walk(parts, w) && a < b <= |w|
    ensures Walk(parts, w[a..b])
  {
    forall k | 0 <= k < b - a - 1
      ensures StepOf(parts, w[a..b], k)
    {
      assert StepOf(parts, w, a + k);
    }
  }

  lemma StuckReachesCycle(parts: seq<Part>, trail: seq<Placement>, i: nat)
    requires Stuck(parts, trail) && i < |parts| && !Placed(trail, parts[i].id)
    ensures ReachesCycle(parts, i)
  {
    hide Stuck, Placed;
    var w := StuckWalk(parts, trail, i, |parts|);
    assert forall k :: 0 <= k < |w| ==> w[k] < |parts|;
    Pigeonhole(w, |parts|);
    var a, b :| 0 <= a < b < |w| && w[a] == w[b];
    WalkSlice(parts, w, 0, a + 1);
    WalkSlice(parts, w, a, b + 1);
    var path, cycle := w[0..a + 1], w[a..b + 1];
    hide Walk;
    assert path[0] == i && path[|path| - 1] == w[a] == cycle[0];
    assert |cycle| >= 2 && cycle[|cycle| - 1] == w[b];
    assert Cycle(parts, cycle);
  }

  /** Each step of a walk from a placed part goes to a part placed strictly
      earlier: `k` and `l` are the records of its ends. */
  lemma {:induction false} PlacedWalk(parts: seq<Part>, pass: nat, trail: seq<Placement>, w: seq<nat>, k: nat) returns (l: nat)
    requires UniqueIds(parts) && Frontier(parts, pass, 0, trail) && Walk(parts, w)
    requires k < |trail| && trail[k].index == w[0]
    ensures l + |w| - 1 <= k && trail[l].index == w[|w| - 1]
    decreases |w|
  {
    l := k;
    if |w| > 1 {
      var n := |w| - 1;
      WalkSlice(parts, w, 0, n);
      var m := PlacedWalk(parts, pass, trail, w[0..n], k);
      assert StepOf(parts, w, n - 1);
      assert TightAt(parts, trail, trail[m]);
      var u :| u in trail && u.id == parts[w[n]].id && Earlier(u.pass, u.index, trail[m].pass, trail[m].index);
      l :| 0 <= l < |trail| && trail[l] == u;
    }
  }

  lemma PlacedReachesNoCycle(parts: seq<Part>, pass: nat, trail: seq<Placement>, i: nat)
    requires UniqueIds(parts) && Frontier(parts, pass, 0, trail)
    requires i < |parts| && Placed(trail, parts[i].id)
    ensures !ReachesCycle(parts, i)
  {
    forall path, cycle | Walk(parts, path) && path[0] == i && Cycle(parts, cycle)
      ensures cycle[0] != path[|path| - 1]
    {
      if cycle[0] == path[|path| - 1] {
        var k := RecordOf(parts, pass, trail, i);
        var l := PlacedWalk(parts, pass, trail, path, k);
        var m := PlacedWalk(parts, pass, trail, cycle, l);
      }
    }
  }

  lemma {:induction false} FirstUnplacedIndex(parts: seq<Part>, trail: seq<Placement>) returns (i: nat)
    requires FirstUnplaced(parts, trail).Some?
    ensures i < |parts| && parts[i].id == FirstUnplaced(parts, trail).value && !Placed(trail, parts[i].id)
    ensures forall j :: 0 <= j < i ==> Placed(trail, parts[j].id)
  {
    i := 0;
    if Placed(trail, parts[0].id) {
      var k := FirstUnplacedIndex(parts[1..], trail);
      i := k + 1;
      forall j | 0 <= j < i
        ensures Placed(trail, parts[j].id)
      {
        assert j > 0 ==> parts[j] == parts[1..][j - 1];
      }
    }
  }

  /** Part `i` reaches a cycle and no part the caller listed before it does. */
  ghost predicate FirstToReach(parts: seq<Part>, i: nat) {
    && i < |parts| && ReachesCycle(parts, i)
    && forall j :: 0 <= j < i ==> !ReachesCycle(parts, j)
  }

  ghost predicate NamesFirst(parts: seq<Part>, part: string) {
    exists i: nat :: FirstToReach(parts, i) && parts[i].id == part
  }

  lemma NamesFirstIsCyclic(parts: seq<Part>, part: string)
    requires NamesFirst(parts, part)
    ensures Cyclic(parts)
  {
    var i: nat :| FirstToReach(parts, i) && parts[i].id == part;
    var path, cycle :| Walk(parts, path) && path[0] == i && Cycle(parts, cycle) && cycle[0] == path[|path| - 1];
  }

  lemma StuckNamesFirst(parts: seq<Part>, pass: nat, trail: seq<Placement>)
    requires UniqueIds(parts) && Frontier(parts, pass, 0, trail) && Stuck(parts, trail)
    requires FirstUnplaced(parts, trail).Some?
    ensures NamesFirst(parts, FirstUnplaced(parts, trail).value)
  {
    hide Frontier, Stuck, ReachesCycle;
    var i := FirstUnplacedIndex(parts, trail);
    StuckReachesCycle(parts, trail, i);
    forall j | 0 <= j < i
      ensures !ReachesCycle(parts, j)
    {
      PlacedReachesNoCycle(parts, pass, trail, j);
    }
    assert FirstToReach(parts, i);
  }

  ghost predicate Settled(parts: seq<Part>, done: seq<Placement>) {
    exists n: nat :: Frontier(parts, n, 0, done)
  }

  lemma {:induction false} PassesOutcome(parts: seq<Part>, pass: nat, trail: seq<Placement>)
    requires ValidParts(parts) && Frontier(parts, pass, 0, trail)
    ensures match Passes(parts, pass, trail)
            case Ok(done) =>
              && Settled(parts, done)
              && (forall p :: p in parts ==> Placed(done, p.id))
            case Err(error) =>
              && error.DependencyCycle?
              && NamesFirst(parts, error.part)
    decreases |parts| - |trail|
  {
    hide FirstToReach, NamesFirst;
    var stuck := FirstUnplaced(parts, trail);
    if stuck.Some? {
      var next := PassFrom(parts, pass, 0, trail);
      FrontierPass(parts, pass, 0, trail);
      FrontierTurn(parts, pass, next);
      TrailBound(parts, pass, |parts|, next);
      if |next| == |trail| {
        assert next == trail;
        IdlePassIsStuck(parts, pass, trail);
        StuckNamesFirst(parts, pass, trail);
      } else {
        PassesOutcome(parts, pass + 1, next);
      }
    }
  }

  /* ---- What a complete trail means ---- */

  /** The record of part `i` in a complete trail. */
  lemma RecordOf(parts: seq<Part>, n: nat, done: seq<Placement>, i: nat) returns (k: nat)
    requires UniqueIds(parts) && Frontier(parts, n, 0, done) && i < |parts| && Placed(done, parts[i].id)
    ensures k < |done| && done[k].index == i && done[k].id == parts[i].id
  {
    var t :| t in done && t.id == parts[i].id;
    k :| 0 <= k < |done| && done[k] == t;
  }

  lemma CompleteTrail(parts: seq<Part>, n: nat, done: seq<Placement>)
    requires ValidParts(parts) && Frontier(parts, n, 0, done)
    requires forall p :: p in parts ==> Placed(done, p.id)
    ensures ByRound(parts, Names(done))
  {
    var slot: seq<nat> := [];
    while |slot| < |parts|
      invariant |slot| <= |parts|
      invariant forall i :: 0 <= i < |slot| ==> slot[i] < |done| && done[slot[i]].index == i
    {
      var k := RecordOf(parts, n, done, |slot|);
      slot := slot + [k];
    }
    var rho: seq<nat> := seq(|parts|, i requires 0 <= i < |parts| => done[slot[i]].pass);
    var at: seq<nat> := seq(|done|, k requires 0 <= k < |done| => done[k].index);
    forall k | 0 <= k < |done|
      ensures rho[at[k]] == done[k].pass
    {
      assert done[k] == done[slot[at[k]]];
    }
    TrailBound(parts, n, 0, done);
    if |slot| > |done| {
      Pigeonhole(slot, |done|);
    }
    CompleteRound(parts, n, done, slot, rho);
    assert Arranges(parts, rho, Names(done), at);
  }

  lemma CompleteRound(parts: seq<Part>, n: nat, done: seq<Placement>, slot: seq<nat>, rho: seq<nat>)
    requires ValidParts(parts) && Frontier(parts, n, 0, done)
    requires |slot| == |rho| == |parts|
    requires forall i :: 0 <= i < |parts| ==>
               slot[i] < |done| && done[slot[i]].index == i && rho[i] == done[slot[i]].pass
    ensures IsRound(parts, rho)
  {
    forall i, j | 0 <= i < |parts| && 0 <= j < |parts| && DependsOn(parts, i, j)
      ensures rho[j] + Late(j, i) <= rho[i]
    {
      var t := done[slot[i]];
      assert TightAt(parts, done, t);
      var u :| u in done && u.id == parts[j].id && Earlier(u.pass, u.index, t.pass, t.index);
      assert u == done[slot[j]];
    }
    forall i | 0 <= i < |parts|
      ensures Attained(parts, rho, i)
    {
      var t := done[slot[i]];
      assert TightAt(parts, done, t);
      if rho[i] > 0 {
        var u :| u in done && u.id in parts[i].dependsOn && Cost(u, i) == t.pass;
        assert u == done[slot[u.index]];
        assert DependsOn(parts, i, u.index);
      }
    }
  }

  /* ---- Rounds exist at most once, and never beside a cycle ---- */

  lemma {:induction false} RoundUnique(parts: seq<Part>, one: seq<nat>, other: seq<nat>, i: nat)
    requires IsRound(parts, one) && IsRound(parts, other) && i < |parts|
    ensures one[i] == other[i]
    decreases one[i], i
  {
    assert Attained(parts, one, i) && Attained(parts, other, i);
    forall j | 0 <= j < |parts| && DependsOn(parts, i, j)
      ensures one[j] == other[j]
    {
      RoundUnique(parts, one, other, j);
    }
  }

  lemma {:induction false} WalkDescends(parts: seq<Part>, rho: seq<nat>, w: seq<nat>)
    requires IsRound(parts, rho) && Walk(parts, w) && |w| >= 2
    ensures Earlier(rho[w[|w| - 1]], w[|w| - 1], rho[w[0]], w[0])
    decreases |w|
  {
    assert StepOf(parts, w, 0);
    if |w| > 2 {
      var rest := w[1..];
      forall k | 0 <= k < |rest| - 1
        ensures StepOf(parts, rest, k)
      {
        assert StepOf(parts, w, k + 1);
      }
      WalkDescends(parts, rho, rest);
    }
  }

  lemma RoundExcludesCycle(parts: seq<Part>, rho: seq<nat>)
    requires IsRound(parts, rho)
    ensures !Cyclic(parts)
  {
    if w :| Cycle(parts, w) {
      WalkDescends(parts, rho, w);
    }
  }

  lemma {:induction false} Enumerates(parts: seq<Part>, rho: seq<nat>, order: seq<string>, at: seq<nat>, i: nat)
    returns (k: nat)
    requires |rho| == |parts| && Arranges(parts, rho, order, at) && i < |parts|
    ensures k < |at| && at[k] == i
  {
    if j :| 0 <= j < |at| && at[j] == i {
      k := j;
    } else {
      k := 0;
      Pigeonhole(at + [i], |parts|);
      assert false;
    }
  }

  /** Two lists sorted by one order over the same parts are one list. */
  lemma {:induction false} ArrangementUnique(parts: seq<Part>, rho: seq<nat>, one: seq<string>, a: seq<nat>,
                                             other: seq<string>, b: seq<nat>, k: nat)
    requires |rho| == |parts| && Arranges(parts, rho, one, a) && Arranges(parts, rho, other, b) && k < |parts|
    ensures a[k] == b[k]
    decreases k
  {
    var j := Enumerates(parts, rho, other, b, a[k]);
    var l := Enumerates(parts, rho, one, a, b[k]);
    if j < k {
      ArrangementUnique(parts, rho, one, a, other, b, j);
    }
    if l < k {
      ArrangementUnique(parts, rho, one, a, other, b, l);
    }
  }

  lemma ByRoundUnique(parts: seq<Part>, one: seq<string>, other: seq<string>)
    requires ByRound(parts, one) && ByRound(parts, other)
    ensures one == other
  {
    var rho: seq<nat>, a: seq<nat> :| IsRound(parts, rho) && Arranges(parts, rho, one, a);
    var sigma: seq<nat>, b: seq<nat> :| IsRound(parts, sigma) && Arranges(parts, sigma, other, b);
    forall i | 0 <= i < |parts|
      ensures rho[i] == sigma[i]
    {
      RoundUnique(parts, rho, sigma, i);
    }
    assert rho == sigma;
    forall k | 0 <= k < |parts|
      ensures one[k] == other[k]
    {
      ArrangementUnique(parts, rho, one, a, other, b, k);
    }
  }

  /* ---- Main results ---- */

  lemma FirstFrontier(parts: seq<Part>)
    ensures Frontier(parts, 0, 0, [])
  {
    var none: seq<Placement> := [];
    assert forall j :: 0 <= j < |parts| ==> Accounted(parts, 0, 0, none, j);
  }

  /** The operation succeeds with exactly the list sorted by (round, position),
      and fails exactly on an invalid or a cyclic list. */
  lemma OrderExact(parts: seq<Part>)
    ensures Order(parts).Ok? <==> ValidParts(parts) && !Cyclic(parts)
    ensures forall order :: Order(parts) == Ok(order) <==> ValidParts(parts) && ByRound(parts, order)
    ensures Order(parts).Err? && Order(parts).error.DependencyCycle? <==> ValidParts(parts) && Cyclic(parts)
  {
    ValidateExact(parts);
    FirstFrontier(parts);
    if !ValidParts(parts) {
      FirstRefusalNone(parts, 0);
      ValidateNamesNoCycle(parts);
    } else {
      PassesOutcome(parts, 0, []);
      match Passes(parts, 0, []) {
        case Ok(done) =>
          var n: nat :| Frontier(parts, n, 0, done);
          CompleteTrail(parts, n, done);
          ByRoundExcludesCycle(parts, Names(done));
          forall order | ByRound(parts, order)
            ensures order == Names(done)
          {
            ByRoundUnique(parts, order, Names(done));
          }
        case Err(error) =>
          NamesFirstIsCyclic(parts, error.part);
          forall order | ByRound(parts, order)
            ensures false
          {
            ByRoundExcludesCycle(parts, order);
          }
      }
    }
  }

  lemma ByRoundExcludesCycle(parts: seq<Part>, order: seq<string>)
    requires ByRound(parts, order)
    ensures !Cyclic(parts)
  {
    var rho: seq<nat>, at: seq<nat> :| IsRound(parts, rho) && Arranges(parts, rho, order, at);
    RoundExcludesCycle(parts, rho);
  }

  lemma {:induction false} FirstRefusalNamesNoCycle(parts: seq<Part>, i: nat)
    requires i <= |parts|
    ensures FirstRefusal(parts, i).Some? ==> !FirstRefusal(parts, i).value.DependencyCycle?
    decreases |parts| - i
  {
    if i < |parts| {
      FirstRefusalNamesNoCycle(parts, i + 1);
    }
  }

  lemma ValidateNamesNoCycle(parts: seq<Part>)
    ensures Validate(parts).Some? ==> !Validate(parts).value.DependencyCycle?
  {
    FirstRefusalNamesNoCycle(parts, 0);
    UnknownRefusalNone(parts, 0);
  }

  /** A `DependencyCycle` names the first part in the caller's order that has a
      dependency path onto a cycle, and is the answer exactly when there is one. */
  lemma NamedPartExact(parts: seq<Part>, part: string)
    ensures Order(parts) == Err(DependencyCycle(part)) <==>
            ValidParts(parts) && exists i: nat :: FirstToReach(parts, i) && parts[i].id == part
  {
    hide ReachesCycle;
    CycleRefusal(parts);
    if ValidParts(parts) && NamesFirst(parts, part) {
      NamesFirstIsCyclic(parts, part);
      OrderExact(parts);
      NamesFirstUnique(parts, part, Order(parts).error.part);
    }
  }

  lemma CycleRefusal(parts: seq<Part>)
    ensures match Order(parts)
            case Err(DependencyCycle(part)) => ValidParts(parts) && NamesFirst(parts, part)
            case _ => true
  {
    hide ValidParts, NamesFirst;
    ValidateExact(parts);
    ValidateNamesNoCycle(parts);
    FirstFrontier(parts);
    if ValidParts(parts) {
      PassesOutcome(parts, 0, []);
    }
  }

  lemma NamesFirstUnique(parts: seq<Part>, one: string, other: string)
    requires NamesFirst(parts, one) && NamesFirst(parts, other)
    ensures one == other
  {
    hide ReachesCycle;
    var i: nat :| FirstToReach(parts, i) && parts[i].id == one;
    var j: nat :| FirstToReach(parts, j) && parts[j].id == other;
    assert i == j;
  }

  ghost predicate OnCycle(parts: seq<Part>, i: nat) {
    exists w :: Cycle(parts, w) && w[0] == i
  }

  /** So the named part lies on a cycle exactly when some part on a cycle is
      listed before every other part that reaches one. */
  lemma NamedPartOnCycle(parts: seq<Part>, part: string)
    requires Order(parts) == Err(DependencyCycle(part))
    ensures (exists i :: 0 <= i < |parts| && parts[i].id == part && OnCycle(parts, i)) <==>
            (exists i :: 0 <= i < |parts| && OnCycle(parts, i) && forall j :: 0 <= j < i ==> !ReachesCycle(parts, j))
  {
    NamedPartExact(parts, part);
    var named: nat :| FirstToReach(parts, named) && parts[named].id == part;
    forall i: nat | i < |parts| && OnCycle(parts, i)
      ensures ReachesCycle(parts, i)
    {
      var w :| Cycle(parts, w) && w[0] == i;
      assert Walk(parts, [i]) && [i][0] == i;
    }
    assert UniqueIds(parts);
  }

  /** Whatever lies on a cycle has a dependent. */
  lemma CycleEntered(parts: seq<Part>, w: seq<nat>, k: nat)
    requires Cycle(parts, w) && k < |w|
    ensures exists i :: 0 <= i < |parts| && DependsOn(parts, i, w[k])
  {
    var entry := if k > 0 then k - 1 else |w| - 2;
    assert StepOf(parts, w, entry);
    assert DependsOn(parts, w[entry], w[k]);
  }

  lemma TwoPartOrder(parts: seq<Part>)
    requires parts == [Part("a", [], ["b"], []), Part("b", [], ["b"], [])]
    ensures Order(parts) == Err(DependencyCycle("a"))
  {
    assert parts[0] in parts && parts[1] in parts;
    assert Ids(parts) == {"a", "b"};
    assert ValidParts(parts);
    ValidateExact(parts);
    assert PassFrom(parts, 0, 2, []) == [];
    assert PassFrom(parts, 0, 1, []) == [];
    assert PassFrom(parts, 0, 0, []) == [];
  }

  /** It need not lie on one: here `a` waits for `b`, and only `b` is a cycle. */
  lemma NamedPartOffCycle()
    ensures var parts := [Part("a", [], ["b"], []), Part("b", [], ["b"], [])];
            && Order(parts) == Err(DependencyCycle("a"))
            && !exists w :: Cycle(parts, w) && 0 in w
  {
    var parts := [Part("a", [], ["b"], []), Part("b", [], ["b"], [])];
    TwoPartOrder(parts);
    hide Order;
    assert forall i :: 0 <= i < |parts| ==> !DependsOn(parts, i, 0);
    forall w | Cycle(parts, w)
      ensures 0 !in w
    {
      if 0 in w {
        var k: nat :| k < |w| && w[k] == 0;
        CycleEntered(parts, w, k);
      }
    }
  }

  /** Every part follows all of its dependencies. */
  lemma DependenciesFirst(parts: seq<Part>, order: seq<string>, p: Part, d: string)
    requires Order(parts) == Ok(order) && p in parts && d in p.dependsOn
    ensures exists k, l :: 0 <= k < l < |order| && order[k] == d && order[l] == p.id
  {
    OrderExact(parts);
    var rho: seq<nat>, at: seq<nat> :| IsRound(parts, rho) && Arranges(parts, rho, order, at);
    var i :| 0 <= i < |parts| && parts[i] == p;
    assert d in Ids(parts);
    var q :| q in parts && q.id == d;
    var j :| 0 <= j < |parts| && parts[j] == q;
    assert DependsOn(parts, i, j);
    var l := Enumerates(parts, rho, order, at, i);
    var k := Enumerates(parts, rho, order, at, j);
    assert order[k] == d && order[l] == p.id;
  }

  /** The result is a permutation of the identifiers. */
  lemma OrderIsPermutation(parts: seq<Part>, order: seq<string>)
    requires Order(parts) == Ok(order)
    ensures |order| == |parts|
    ensures forall id :: id in order <==> id in Ids(parts)
    ensures forall k, l :: 0 <= k < l < |order| ==> order[k] != order[l]
  {
    OrderExact(parts);
    var rho: seq<nat>, at: seq<nat> :| IsRound(parts, rho) && Arranges(parts, rho, order, at);
    forall id | id in Ids(parts)
      ensures id in order
    {
      var p :| p in parts && p.id == id;
      var i :| 0 <= i < |parts| && parts[i] == p;
      var k := Enumerates(parts, rho, order, at, i);
      assert order[k] == id;
    }
    forall id | id in order
      ensures id in Ids(parts)
    {
      var k :| 0 <= k < |order| && order[k] == id;
      assert parts[at[k]] in parts;
    }
    forall k, l | 0 <= k < l < |order|
      ensures order[k] != order[l]
    {
      assert at[k] != at[l];
      assert UniqueIds(parts);
    }
  }

  ghost predicate Topological(parts: seq<Part>) {
    forall i, j :: 0 <= i < |parts| && 0 <= j < |parts| && DependsOn(parts, i, j) ==> j < i
  }

  function ListedIds(parts: seq<Part>): seq<string> {
    seq(|parts|, i requires 0 <= i < |parts| => parts[i].id)
  }

  /** A list that already puts every part after its dependencies comes back as
      it is. */
  lemma TopologicalUnchanged(parts: seq<Part>)
    requires ValidParts(parts) && Topological(parts)
    ensures Order(parts) == Ok(ListedIds(parts))
  {
    var rho: seq<nat> := seq(|parts|, i => 0);
    var at: seq<nat> := seq(|parts|, i requires 0 <= i < |parts| => i);
    assert forall i :: 0 <= i < |parts| ==> Attained(parts, rho, i);
    assert IsRound(parts, rho) && Arranges(parts, rho, ListedIds(parts), at);
    OrderExact(parts);
  }

  /** Ordering the reordered list again changes nothing. */
  lemma OrderIdempotent(parts: seq<Part>, order: seq<string>, reordered: seq<Part>)
    requires Order(parts) == Ok(order)
    requires ListedIds(reordered) == order
    requires forall p :: p in reordered ==> p in parts
    ensures Order(reordered) == Ok(order)
  {
    OrderExact(parts);
    OrderIsPermutation(parts, order);
    forall i | 0 <= i < |reordered|
      ensures reordered[i].id == order[i] && reordered[i] in parts
    {
    }
    forall id
      ensures id in Ids(reordered) <==> id in order
    {
      if id in order {
        var k :| 0 <= k < |order| && order[k] == id;
        assert reordered[k] in reordered;
      }
      if id in Ids(reordered) {
        var p :| p in reordered && p.id == id;
        var k :| 0 <= k < |reordered| && reordered[k] == p;
        assert order[k] == id;
      }
    }
    forall i | 0 <= i < |reordered|
      ensures !TooLarge(reordered[i]) && LegalId(reordered[i].id) && |reordered[i].proof| <= TEXT_MAX_BYTES
      ensures forall d :: d in reordered[i].dependsOn ==> d in Ids(reordered)
    {
      var j :| 0 <= j < |parts| && parts[j] == reordered[i];
    }
    forall i, j | 0 <= i < |reordered| && 0 <= j < |reordered| && DependsOn(reordered, i, j)
      ensures j < i
    {
      DependenciesFirst(parts, order, reordered[i], reordered[j].id);
      var k, l :| 0 <= k < l < |order| && order[k] == reordered[j].id && order[l] == reordered[i].id;
      assert k == j && l == i;
    }
    TopologicalUnchanged(reordered);
  }

  /* ---- The program ---- */

  lemma TrailRoom(parts: seq<Part>, pass: nat, trail: seq<Placement>)
    requires Frontier(parts, pass, 0, trail) && FirstUnplaced(parts, trail).Some?
    ensures |trail| < |parts|
  {
    TrailBound(parts, pass, 0, trail);
    if |trail| == |parts| {
      var p :| p in parts && !Placed(trail, p.id);
      var i :| 0 <= i < |parts| && parts[i] == p;
      var at: seq<nat> := seq(|trail|, k requires 0 <= k < |trail| => trail[k].index) + [i];
      assert forall k, l :: 0 <= k < l < |trail| ==> at[k] != at[l];
      forall k | 0 <= k < |trail|
        ensures at[k] != i
      {
        assert trail[k] in trail;
      }
      Pigeonhole(at, |parts|);
    }
  }

  method FirstUnknownIn(known: set<string>, dependsOn: seq<string>) returns (r: Option<string>)
    ensures r == FirstUnknown(known, dependsOn)
  {
    for i := 0 to |dependsOn|
      invariant FirstUnknown(known, dependsOn) == FirstUnknown(known, dependsOn[i..])
    {
      if dependsOn[i] !in known {
        return Some(dependsOn[i]);
      }
    }
    r := None;
  }

  method CheckParts(parts: seq<Part>) returns (r: Option<Refusal>)
    ensures r == Validate(parts)
  {
    if |parts| == 0 {
      return Some(EmptyPlan);
    }
    if |parts| > ARRAY_MAX_ITEMS {
      return Some(PlanTooLarge);
    }
    var ids: set<string> := {};
    for i := 0 to |parts|
      invariant ids == Ids(parts[..i])
      invariant FirstRefusal(parts, 0) == FirstRefusal(parts, i)
    {
      var part := parts[i];
      if |part.criteria| > ARRAY_MAX_ITEMS || |part.dependsOn| > ARRAY_MAX_ITEMS {
        return Some(PlanTooLarge);
      }
      if !LegalId(part.id) {
        return Some(InvalidPartId(part.id));
      }
      if |part.proof| > TEXT_MAX_BYTES {
        return Some(ProofTooLarge(part.id));
      }
      if part.id in ids {
        return Some(DuplicatePart(part.id));
      }
      ids := ids + {part.id};
      assert parts[..i + 1] == parts[..i] + [part];
    }
    assert parts[..|parts|] == parts;
    for i := 0 to |parts|
      invariant UnknownRefusal(parts, 0) == UnknownRefusal(parts, i)
    {
      var unknown := FirstUnknownIn(ids, parts[i].dependsOn);
      if unknown.Some? {
        return Some(UnknownDependency(parts[i].id, unknown.value));
      }
    }
    r := None;
  }

  method FindUnplaced(parts: seq<Part>, placed: set<string>, ghost trail: seq<Placement>) returns (r: Option<string>)
    requires placed == PlacedIds(trail)
    ensures r == FirstUnplaced(parts, trail)
  {
    for i := 0 to |parts|
      invariant FirstUnplaced(parts, trail) == FirstUnplaced(parts[i..], trail)
    {
      if parts[i].id !in placed {
        return Some(parts[i].id);
      }
    }
    r := None;
  }

  function PlacedIds(trail: seq<Placement>): set<string> {
    set t | t in trail :: t.id
  }

  lemma PlacedIdsExtend(trail: seq<Placement>, t: Placement)
    ensures PlacedIds(trail + [t]) == PlacedIds(trail) + {t.id}
  {
    assert t in trail + [t];
    assert forall u :: u in trail + [t] <==> u in trail || u == t;
  }

  lemma ReadyExact(p: Part, trail: seq<Placement>)
    ensures Ready(p, trail) <==> p.id !in PlacedIds(trail) && forall d :: d in p.dependsOn ==> d in PlacedIds(trail)
  {
    assert forall id :: id in PlacedIds(trail) <==> Placed(trail, id);
  }

  /** One pass over the list. */
  method VisitParts(parts: seq<Part>, ghost pass: nat, placed: set<string>, order: seq<string>,
                    ghost trail: seq<Placement>)
    returns (nowPlaced: set<string>, nowOrder: seq<string>, ghost nowTrail: seq<Placement>)
    requires order == Names(trail) && placed == PlacedIds(trail)
    ensures nowTrail == PassFrom(parts, pass, 0, trail)
    ensures nowOrder == Names(PassFrom(parts, pass, 0, trail)) && nowPlaced == PlacedIds(PassFrom(parts, pass, 0, trail))
  {
    nowPlaced, nowOrder, nowTrail := placed, order, trail;
    for i := 0 to |parts|
      invariant nowOrder == Names(nowTrail) && nowPlaced == PlacedIds(nowTrail)
      invariant PassFrom(parts, pass, 0, trail) == PassFrom(parts, pass, i, nowTrail)
    {
      ReadyExact(parts[i], nowTrail);
      if parts[i].id !in nowPlaced && forall d :: d in parts[i].dependsOn ==> d in nowPlaced {
        ghost var t := Placement(parts[i].id, i, pass);
        PlacedIdsExtend(nowTrail, t);
        nowPlaced := nowPlaced + {parts[i].id};
        nowOrder := nowOrder + [parts[i].id];
        nowTrail := nowTrail + [t];
      }
    }
  }

  /** `placed` is a set of identifiers and `order` the list pushed onto;
      `passes` counts the turns of the outer loop. */
  method DependencyOrder(parts: seq<Part>) returns (r: Result<seq<string>, Refusal>, ghost passes: nat)
    ensures r == Order(parts)
    ensures passes <= |parts|
  {
    passes := 0;
    var refusal := CheckParts(parts);
    if refusal.Some? {
      return Err(refusal.value), 0;
    }
    FirstFrontier(parts);
    var placed: set<string> := {};
    var order: seq<string> := [];
    ghost var trail: seq<Placement> := [];
    var stuck := FindUnplaced(parts, placed, trail);
    while stuck.Some?
      invariant Frontier(parts, passes, 0, trail) && passes <= |trail| <= |parts|
      invariant order == Names(trail) && placed == PlacedIds(trail)
      invariant stuck == FirstUnplaced(parts, trail)
      invariant Passes(parts, 0, []) == Passes(parts, passes, trail)
      decreases |parts| - |trail|
    {
      TrailRoom(parts, passes, trail);
      var before := |order|;
      FrontierPass(parts, passes, 0, trail);
      placed, order, trail := VisitParts(parts, passes, placed, order, trail);
      FrontierTurn(parts, passes, trail);
      TrailBound(parts, passes, |parts|, trail);
      passes := passes + 1;
      if |order| == before {
        return Err(DependencyCycle(stuck.value)), passes;
      }
      stuck := FindUnplaced(parts, placed, trail);
    }
    r := Ok(order);
  }
}
