/** What a cut reports of itself (src/context.rs), and the rows its seal leaves as
    one insertion after another (src/state.rs). */
module ProjectIndexRows {
  import opened ProjectIndex
  import opened ProjectIndexRuns

  /* ---- The reasons a cut gives ---- */

  function UnreadableAt(files: seq<Candidate>): set<nat> {
    set i: nat | i < |files| && files[i].Unreadable?
  }

  /** Files no grammar claims and the project does not read as input. */
  function UnsupportedAt(files: seq<Candidate>): set<nat> {
    set i: nat | i < |files| && files[i].Unclaimed? && !files[i].projectInput
  }

  lemma {:induction false} UnreadableCounted(files: seq<Candidate>)
    ensures Unread(files) == |UnreadableAt(files)|
  {
    if files != [] {
      var n := |files| - 1;
      UnreadableCounted(files[..n]);
      if files[n].Unreadable? {
        assert UnreadableAt(files) == UnreadableAt(files[..n]) + {n};
      } else {
        assert UnreadableAt(files) == UnreadableAt(files[..n]);
      }
    }
  }

  lemma {:induction false} UnsupportedCounted(files: seq<Candidate>)
    ensures Unsupported(files) == |UnsupportedAt(files)|
  {
    if files != [] {
      var n := |files| - 1;
      UnsupportedCounted(files[..n]);
      if files[n].Unclaimed? && !files[n].projectInput {
        assert UnsupportedAt(files) == UnsupportedAt(files[..n]) + {n};
      } else {
        assert UnsupportedAt(files) == UnsupportedAt(files[..n]);
      }
    }
  }

  /** The names a reached source could not resolve. */
  ghost predicate LeftOpen(sources: seq<Source>, n: nat, r: Request, widened: bool, packages: set<Name>, derive: Derivation,
                           u: Name)
    requires n <= |sources|
  {
    exists i :: 0 <= i < n && Reached(sources, i, r, widened, packages, derive) &&
                u in derive(sources[i].relative, sources[i].document, Indexed(sources), packages).unresolved
  }

  lemma {:induction false} DerivedUnresolved(sources: seq<Source>, n: nat, r: Request, widened: bool, packages: set<Name>,
                                             derive: Derivation, u: Name)
    requires n <= |sources|
    ensures u in DeriveUpTo(sources, n, r, widened, packages, derive).unresolved <==>
            LeftOpen(sources, n, r, widened, packages, derive, u)
  {
    if n > 0 {
      DerivedUnresolved(sources, n - 1, r, widened, packages, derive, u);
      var s := sources[n - 1];
      var last := derive(s.relative, s.document, Indexed(sources), packages).unresolved;
      assert LeftOpen(sources, n, r, widened, packages, derive, u) <==>
             LeftOpen(sources, n - 1, r, widened, packages, derive, u)
             || (Reached(sources, n - 1, r, widened, packages, derive) && u in last);
    }
  }

  /** How many edges the first `n` sources state inside the narrowing. */
  function Weight(sources: seq<Source>, n: nat, r: Request, widened: bool, packages: set<Name>, derive: Derivation): nat
    requires n <= |sources|
  {
    if n == 0 then 0
    else
      var s := sources[n - 1];
      Weight(sources, n - 1, r, widened, packages, derive)
      + if !widened && r.changed != {} && s.relative !in r.changed then 0
        else |derive(s.relative, s.document, Indexed(sources), packages).edges|
  }

  /** The limit is met exactly when the sources state more edges than it allows,
      and never are more derived. */
  lemma {:induction false} LimitExact(sources: seq<Source>, n: nat, r: Request, widened: bool, packages: set<Name>,
                                      derive: Derivation)
    requires n <= |sources|
    ensures var p := DeriveUpTo(sources, n, r, widened, packages, derive);
            && (p.limited <==> Weight(sources, n, r, widened, packages, derive) > r.limit)
            && |p.edges| <= r.limit
            && (!p.limited ==> |p.edges| == Weight(sources, n, r, widened, packages, derive))
  {
    if n > 0 {
      LimitExact(sources, n - 1, r, widened, packages, derive);
    }
  }

  /** A cut discloses exactly what it missed: its limit, the entries it could not
      read, the files no grammar claims, and the names it could not resolve; and
      it reads complete exactly when it missed nothing. */
  lemma ReasonsExact(r: Request, files: seq<Candidate>, walkFailed: nat, packages: set<Name>, derive: Derivation)
    ensures var g := Cut(r, files, walkFailed, packages, derive);
            var sources := Sources(files);
            var failed, unclaimed := walkFailed + |UnreadableAt(files)|, |UnsupportedAt(files)|;
            var widened := Widened(r, failed, Indexed(sources));
            && (LimitReached(r.limit) in g.reasons <==>
                  Weight(sources, |sources|, r, widened, packages, derive) > r.limit)
            && (forall n :: EntriesFailed(n) in g.reasons <==> n == failed > 0)
            && (forall n :: UnsupportedLanguage(n) in g.reasons <==> n == unclaimed > 0)
            && (forall u :: u in g.unresolved <==> LeftOpen(sources, |sources|, r, widened, packages, derive, u))
            && ((exists n :: UnresolvedPaths(n) in g.reasons) <==> g.unresolved != {})
            && (g.reasons == [] <==> !Limited(g) && failed == 0 && unclaimed == 0 && g.unresolved == {})
  {
    hide DeriveUpTo, Sources, Unread, Unsupported, Widened, LeftOpen, Cut, Listed, Weight;
    UnreadableCounted(files);
    UnsupportedCounted(files);
    var sources := Sources(files);
    var widened := Widened(r, walkFailed + Unread(files), Indexed(sources));
    var p := DeriveUpTo(sources, |sources|, r, widened, packages, derive);
    LimitExact(sources, |sources|, r, widened, packages, derive);
    CutListed(r, files, walkFailed, packages, derive);
    forall u
      ensures u in Names(p.unresolved) <==> LeftOpen(sources, |sources|, r, widened, packages, derive, u)
    {
      DerivedUnresolved(sources, |sources|, r, widened, packages, derive, u);
    }
    UnresolvedCounted(p.unresolved);
    ReasonsListed(p.limited, r.limit, walkFailed + Unread(files), Unsupported(files), |p.unresolved|);
    var g := Cut(r, files, walkFailed, packages, derive);
    WhenLimited(g, r, files, walkFailed, packages, derive);
    assert UnresolvedPaths(|p.unresolved|) in g.reasons <==> g.unresolved != {};
  }

  lemma CutListed(r: Request, files: seq<Candidate>, walkFailed: nat, packages: set<Name>, derive: Derivation)
    ensures var g := Cut(r, files, walkFailed, packages, derive);
            var sources := Sources(files);
            var p := DeriveUpTo(sources, |sources|, r, Widened(r, walkFailed + Unread(files), Indexed(sources)), packages, derive);
            && g.reasons == Listed(p.limited, r.limit, walkFailed + Unread(files), Unsupported(files), |p.unresolved|)
            && g.unresolved == Names(p.unresolved)
  {
    hide DeriveUpTo, Sources, Unread, Unsupported, Widened;
  }

  lemma UnresolvedCounted(unresolved: seq<Name>)
    ensures |unresolved| > 0 <==> Names(unresolved) != {}
  {
    if unresolved != [] {
      assert unresolved[0] in Names(unresolved);
    }
  }

  function Listed(limited: bool, limit: nat, failed: nat, unsupported: nat, unresolved: nat): seq<Reason> {
    When(limited, LimitReached(limit)) + When(failed > 0, EntriesFailed(failed))
    + When(unsupported > 0, UnsupportedLanguage(unsupported)) + When(unresolved > 0, UnresolvedPaths(unresolved))
  }

  lemma ReasonsListed(limited: bool, limit: nat, failed: nat, unsupported: nat, unresolved: nat)
    ensures var reasons := Listed(limited, limit, failed, unsupported, unresolved);
            && (LimitReached(limit) in reasons <==> limited)
            && (forall n :: LimitReached(n) in reasons ==> limited)
            && (forall n :: EntriesFailed(n) in reasons <==> n == failed > 0)
            && (forall n :: UnsupportedLanguage(n) in reasons <==> n == unsupported > 0)
            && (forall n :: UnresolvedPaths(n) in reasons <==> n == unresolved > 0)
            && (reasons == [] <==> !limited && failed == 0 && unsupported == 0 && unresolved == 0)
  {
  }

  /* ---- Rows, one insertion after another ---- */

  datatype Key = Key(from: Name, line: nat, to: Name, kind: nat, provenance: nat)

  function KeyOf(e: Edge): Key {
    Key(e.from, e.line, e.to, e.kind, e.provenance)
  }

  /** The table after each row was inserted over any earlier one of its key. */
  function Table(rows: seq<Edge>): map<Key, Edge> {
    if rows == [] then map[] else Table(rows[..|rows| - 1])[KeyOf(rows[|rows| - 1]) := rows[|rows| - 1]]
  }

  ghost predicate LastOfItsKey(rows: seq<Edge>, i: nat)
    requires i < |rows|
  {
    forall j :: i < j < |rows| ==> !SameKey(rows[j], rows[i])
  }

  lemma {:induction false} TableHoldsTheLast(rows: seq<Edge>, e: Edge)
    ensures (KeyOf(e) in Table(rows) && Table(rows)[KeyOf(e)] == e) <==>
            exists i :: 0 <= i < |rows| && rows[i] == e && LastOfItsKey(rows, i)
    ensures KeyOf(e) in Table(rows) ==> KeyOf(Table(rows)[KeyOf(e)]) == KeyOf(e)
  {
    if rows != [] {
      var n := |rows| - 1;
      var earlier := rows[..n];
      TableHoldsTheLast(earlier, e);
      if i :| 0 <= i < |earlier| && earlier[i] == e && LastOfItsKey(earlier, i) {
        if !SameKey(rows[n], e) {
          assert rows[i] == e && LastOfItsKey(rows, i);
        }
      }
      if i :| 0 <= i < |rows| && rows[i] == e && LastOfItsKey(rows, i) {
        if i < n {
          assert earlier[i] == e;
          assert LastOfItsKey(earlier, i) by {
            forall j | i < j < |earlier|
              ensures !SameKey(earlier[j], earlier[i])
            {
              assert earlier[j] == rows[j];
            }
          }
          assert !SameKey(rows[n], rows[i]);
        }
      }
      if rows[n] == e {
        assert LastOfItsKey(rows, n);
      }
    }
  }

  function Stored(rows: seq<Edge>): set<Edge> {
    set k | k in Table(rows) :: Table(rows)[k]
  }

  lemma StoredExact(rows: seq<Edge>, e: Edge)
    ensures e in Stored(rows) <==> exists i :: 0 <= i < |rows| && rows[i] == e && LastOfItsKey(rows, i)
  {
    TableHoldsTheLast(rows, e);
    if e in Stored(rows) {
      var k :| k in Table(rows) && Table(rows)[k] == e;
      KeyKept(rows, k);
    }
  }

  lemma {:induction false} KeyKept(rows: seq<Edge>, k: Key)
    requires k in Table(rows)
    ensures KeyOf(Table(rows)[k]) == k
  {
    if rows != [] && k != KeyOf(rows[|rows| - 1]) {
      KeyKept(rows[..|rows| - 1], k);
    }
  }

  /** The edge order: of one key, the later row is the greater. */
  ghost predicate InEdgeOrder(rows: seq<Edge>) {
    forall i, j :: 0 <= i < j < |rows| && SameKey(rows[j], rows[i]) ==> rows[i].rest <= rows[j].rest
  }

  ghost predicate OneOfEachKey(rows: seq<Edge>) {
    forall i, j :: 0 <= i < j < |rows| ==> !SameKey(rows[j], rows[i])
  }

  /** Of the rows a cut inserts in edge order the greatest of each key stays. */
  lemma InsertionKeepsTheGreatest(rows: seq<Edge>)
    requires InEdgeOrder(rows)
    ensures Stored(rows) == Inserted(EdgeSet(rows))
  {
    forall e
      ensures e in Stored(rows) <==> e in Inserted(EdgeSet(rows))
    {
      hide Stored, Inserted, LastOfItsKey;
      StoredExact(rows, e);
      if i :| 0 <= i < |rows| && rows[i] == e && LastOfItsKey(rows, i) {
        LastIsGreatest(rows, i);
      }
      if e in Inserted(EdgeSet(rows)) {
        var i := GreatestIsLast(rows, e);
      }
    }
  }

  lemma LastIsGreatest(rows: seq<Edge>, i: nat)
    requires InEdgeOrder(rows) && i < |rows| && LastOfItsKey(rows, i)
    ensures rows[i] in Inserted(EdgeSet(rows))
  {
    forall other | other in EdgeSet(rows) && SameKey(other, rows[i])
      ensures other.rest <= rows[i].rest
    {
      var j :| 0 <= j < |rows| && rows[j] == other;
    }
  }

  lemma GreatestIsLast(rows: seq<Edge>, e: Edge) returns (i: nat)
    requires InEdgeOrder(rows) && e in Inserted(EdgeSet(rows))
    ensures i < |rows| && rows[i] == e && LastOfItsKey(rows, i)
  {
    var first :| 0 <= first < |rows| && rows[first] == e;
    forall j | first < j < |rows| && SameKey(rows[j], e)
      ensures rows[j] == e
    {
      assert rows[j] in EdgeSet(rows);
    }
    i := LastEqual(rows, e);
  }

  lemma {:induction false} LastEqual(rows: seq<Edge>, e: Edge) returns (i: nat)
    requires e in rows
    ensures i < |rows| && rows[i] == e && forall j :: i < j < |rows| ==> rows[j] != e
  {
    var n := |rows| - 1;
    if rows[n] == e {
      i := n;
    } else {
      i := LastEqual(rows[..n], e);
    }
  }

  /** A seal inserts the carried rows first and the derived ones over them: what
      stays is what the seal is specified to leave. */
  lemma SealIsInsertion(previous: set<Edge>, g: Graph, carried: seq<Edge>, derived: seq<Edge>)
    requires EdgeSet(carried) == if g.narrowedTo == {} then {} else Carried(previous, g.narrowedTo)
    requires OneOfEachKey(carried)
    requires EdgeSet(derived) == EdgeSet(g.edges) && InEdgeOrder(derived)
    ensures Stored(carried + derived) == SealedRows(previous, g)
  {
    hide Stored, LastOfItsKey;
    InsertionKeepsTheGreatest(derived);
    forall e
      ensures e in Stored(carried + derived) <==> e in Replacing(EdgeSet(carried), Stored(derived))
    {
      StoredAfter(carried, derived, e);
    }
    assert g.narrowedTo == {} ==> carried == [] by {
      if carried != [] {
        assert carried[0] in EdgeSet(carried);
      }
    }
    assert [] + derived == derived;
  }

  lemma StoredAfter(carried: seq<Edge>, derived: seq<Edge>, e: Edge)
    requires OneOfEachKey(carried)
    ensures e in Stored(carried + derived) <==> e in Replacing(EdgeSet(carried), Stored(derived))
  {
    var all := carried + derived;
    StoredExact(all, e);
    StoredExact(derived, e);
    assert forall j :: 0 <= j < |derived| ==> all[|carried| + j] == derived[j];
    if i :| 0 <= i < |all| && all[i] == e && LastOfItsKey(all, i) {
      if i < |carried| {
        forall f | f in Stored(derived)
          ensures !SameKey(f, e)
        {
          StoredExact(derived, f);
          var j :| 0 <= j < |derived| && derived[j] == f;
          assert !SameKey(all[|carried| + j], all[i]);
        }
      } else {
        var k := i - |carried|;
        forall j | k < j < |derived|
          ensures !SameKey(derived[j], derived[k])
        {
          assert !SameKey(all[|carried| + j], all[i]);
        }
        assert LastOfItsKey(derived, k);
      }
    }
    if i :| 0 <= i < |derived| && derived[i] == e && LastOfItsKey(derived, i) {
      var k := |carried| + i;
      forall j | k < j < |all|
        ensures !SameKey(all[j], all[k])
      {
        assert all[j] == derived[j - |carried|];
      }
      assert all[k] == e && LastOfItsKey(all, k);
    }
    if e in EdgeSet(carried) && forall f :: f in Stored(derived) ==> !SameKey(f, e) {
      var i :| 0 <= i < |carried| && carried[i] == e;
      forall j | i < j < |all|
        ensures !SameKey(all[j], all[i])
      {
        if j >= |carried| && SameKey(all[j], e) {
          var f := KeyStored(derived, j - |carried|);
        }
      }
      assert all[i] == e && LastOfItsKey(all, i);
    }
  }

  /** Whatever is inserted, some row of its key stays. */
  lemma {:induction false} KeyStored(rows: seq<Edge>, i: nat) returns (f: Edge)
    requires i < |rows|
    ensures f in Stored(rows) && SameKey(f, rows[i])
    decreases |rows| - i
  {
    if LastOfItsKey(rows, i) {
      f := rows[i];
      StoredExact(rows, f);
    } else {
      var j :| i < j < |rows| && SameKey(rows[j], rows[i]);
      f := KeyStored(rows, j);
    }
  }
}
