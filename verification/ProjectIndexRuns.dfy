/** Sequences of index cuts: the stored rows of a generation are those of a full
    derivation of the tree it was cut from, and exactly when. */
module ProjectIndexRuns {
  import opened Wrappers
  import opened ProjectIndex

  function Only(edges: set<Edge>, subjects: set<Name>): set<Edge> {
    set e | e in edges && e.from in subjects
  }

  function Except(edges: set<Edge>, subjects: set<Name>): set<Edge> {
    set e | e in edges && e.from !in subjects
  }

  /* ---- One cut ---- */

  lemma WhenLimited(g: Graph, r: Request, files: seq<Candidate>, walkFailed: nat, packages: set<Name>, derive: Derivation)
    requires g == Cut(r, files, walkFailed, packages, derive)
    ensures var widened := Widened(r, walkFailed + Unread(files), Indexed(Sources(files)));
            Limited(g) <==> DeriveUpTo(Sources(files), |Sources(files)|, r, widened, packages, derive).limited
  {
    var widened := Widened(r, walkFailed + Unread(files), Indexed(Sources(files)));
    if DeriveUpTo(Sources(files), |Sources(files)|, r, widened, packages, derive).limited {
      assert g.reasons[0] == LimitReached(r.limit);
    }
  }

  /** The documents whose edges a cut derived. */
  ghost function ReachedBy(r: Request, files: seq<Candidate>, walkFailed: nat, packages: set<Name>, derive: Derivation): set<Name> {
    var sources := Sources(files);
    var widened := Widened(r, walkFailed + Unread(files), Indexed(sources));
    set i | 0 <= i < |sources| && Reached(sources, i, r, widened, packages, derive) :: sources[i].relative
  }

  lemma EnumeratedKeys(files: seq<Candidate>, w: World)
    requires Enumerates(files, w)
    ensures Indexed(Sources(files)) == w.tree.Keys
  {
    forall p | p in w.tree
      ensures p in Indexed(Sources(files))
    {
      assert Source(p, w.tree[p]) in Sources(files);
    }
  }

  /** A cut records every document and derives every edge of exactly the ones it
      reached: within its narrowing, and all of it unless its limit stopped it. */
  lemma CutEdges(r: Request, files: seq<Candidate>, walkFailed: nat, w: World, derive: Derivation)
    requires Enumerates(files, w) && SubjectsOwnEdges(derive)
    ensures var g := Cut(r, files, walkFailed, w.packages, derive);
            var reached := ReachedBy(r, files, walkFailed, w.packages, derive);
            && g.documents == w.tree.Keys
            && EdgeSet(g.edges) == Only(AllEdges(w, derive), reached)
            && reached <= g.documents && (g.narrowedTo != {} ==> reached <= g.narrowedTo)
            && (!Limited(g) ==> reached == if g.narrowedTo == {} then g.documents else g.documents * g.narrowedTo)
  {
    var g := Cut(r, files, walkFailed, w.packages, derive);
    var reached := ReachedBy(r, files, walkFailed, w.packages, derive);
    var sources := Sources(files);
    var widened := Widened(r, walkFailed + Unread(files), Indexed(sources));
    EnumeratedKeys(files, w);
    assert EdgeSet(g.edges) == Only(AllEdges(w, derive), reached) by {
      hide DeriveUpTo, Reached, Widened, Sources, Unread, Unsupported, SubjectsOwnEdges, Enumerates;
      forall e
        ensures e in EdgeSet(g.edges) <==> e in AllEdges(w, derive) && e.from in reached
      {
        DerivedEdges(sources, |sources|, r, widened, w.packages, derive, e);
        StatedEdges(files, w, r, widened, derive, e);
      }
    }
    ReachedDocuments(files, w, r, widened, derive);
    WhenLimited(g, r, files, walkFailed, w.packages, derive);
  }

  /** What the reached sources state is what the tree states of the reached documents. */
  lemma StatedEdges(files: seq<Candidate>, w: World, r: Request, widened: bool, derive: Derivation, e: Edge)
    requires Enumerates(files, w) && SubjectsOwnEdges(derive)
    ensures var sources := Sources(files);
            Stated(sources, |sources|, r, widened, w.packages, derive, e) <==>
              && e in AllEdges(w, derive)
              && exists i :: 0 <= i < |sources| && Reached(sources, i, r, widened, w.packages, derive)
                             && sources[i].relative == e.from
  {
    hide Reached;
    var sources := Sources(files);
    EnumeratedKeys(files, w);
    assert forall i :: 0 <= i < |sources| ==>
                       sources[i] in sources && sources[i].relative in w.tree
                       && w.tree[sources[i].relative] == sources[i].document;
    if e in AllEdges(w, derive) {
      var p :| p in w.tree && e in derive(p, w.tree[p], w.tree.Keys, w.packages).edges;
      assert p == e.from;
    }
  }

  lemma ReachedDocuments(files: seq<Candidate>, w: World, r: Request, widened: bool, derive: Derivation)
    requires Enumerates(files, w)
    ensures var sources := Sources(files);
            var reached := (set i | 0 <= i < |sources| && Reached(sources, i, r, widened, w.packages, derive) :: sources[i].relative);
            && reached <= w.tree.Keys
            && (!widened && r.changed != {} ==> reached <= r.changed)
            && (!DeriveUpTo(sources, |sources|, r, widened, w.packages, derive).limited ==>
                  reached == set p | p in w.tree && !Skipped(r, widened, p))
  {
    hide DeriveUpTo;
    var sources := Sources(files);
    EnumeratedKeys(files, w);
    assert forall i :: 0 <= i < |sources| ==> sources[i] in sources;
    if !DeriveUpTo(sources, |sources|, r, widened, w.packages, derive).limited {
      forall i | 0 <= i < |sources|
        ensures Reached(sources, i, r, widened, w.packages, derive) <==> !Skipped(r, widened, sources[i].relative)
      {
        UnlimitedReaches(sources, i, r, widened, w.packages, derive);
      }
      forall p | p in w.tree
        ensures exists i :: 0 <= i < |sources| && sources[i].relative == p
      {
        assert Source(p, w.tree[p]) in sources;
      }
    }
  }

  /* ---- One seal ---- */

  /** Keys never cross subjects, so insertion works subject by subject. */
  lemma InsertedSplits(edges: set<Edge>, subjects: set<Name>)
    ensures Only(Inserted(edges), subjects) == Inserted(Only(edges, subjects))
    ensures Except(Inserted(edges), subjects) == Inserted(Except(edges, subjects))
    ensures Inserted(edges) == Inserted(Only(edges, subjects)) + Inserted(Except(edges, subjects))
  {
  }

  /** The rows of a narrowed seal over a previous full generation. */
  ghost function NarrowedRows(before: World, now: World, narrowed: set<Name>, derive: Derivation): set<Edge> {
    Replacing(Carried(FullRows(before, derive), narrowed), Inserted(Only(AllEdges(now, derive), narrowed)))
  }

  lemma NarrowedRowsSplit(before: World, now: World, narrowed: set<Name>, derive: Derivation)
    ensures NarrowedRows(before, now, narrowed, derive) ==
            Inserted(Only(AllEdges(now, derive), narrowed)) + Inserted(Except(AllEdges(before, derive), narrowed))
  {
    InsertedSplits(AllEdges(before, derive), narrowed);
    assert Carried(FullRows(before, derive), narrowed) == Except(FullRows(before, derive), narrowed);
  }

  /** What lets a narrowed cut stand for a full one: nothing is carried, or
      everything a carried document's edges depend on held still. */
  ghost predicate Aligned(before: World, now: World, narrowed: set<Name>) {
    || before.tree.Keys <= narrowed
    || (&& now.tree.Keys == before.tree.Keys && now.packages == before.packages
        && forall p :: p in before.tree && p !in narrowed ==> now.tree[p] == before.tree[p])
  }

  /** Aligned trees state the same edges outside the narrowing. */
  lemma AlignedEdges(before: World, now: World, narrowed: set<Name>, derive: Derivation)
    requires SubjectsOwnEdges(derive) && FileSetHeld(before.tree.Keys, now.tree.Keys, narrowed)
    requires Aligned(before, now, narrowed)
    ensures Except(AllEdges(before, derive), narrowed) == Except(AllEdges(now, derive), narrowed)
  {
    assert forall p :: p in before.tree.Keys - narrowed <==> p in now.tree.Keys - narrowed;
    forall e
      ensures e in Except(AllEdges(before, derive), narrowed) <==> e in Except(AllEdges(now, derive), narrowed)
    {
      if e in Except(AllEdges(before, derive), narrowed) {
        var p :| p in before.tree && e in derive(p, before.tree[p], before.tree.Keys, before.packages).edges;
        assert p == e.from && p in before.tree.Keys - narrowed;
      }
      if e in Except(AllEdges(now, derive), narrowed) {
        var p :| p in now.tree && e in derive(p, now.tree[p], now.tree.Keys, now.packages).edges;
        assert p == e.from && p in now.tree.Keys - narrowed;
      }
    }
  }

  lemma AlignedSuffices(before: World, now: World, narrowed: set<Name>, derive: Derivation)
    requires SubjectsOwnEdges(derive) && FileSetHeld(before.tree.Keys, now.tree.Keys, narrowed)
    requires Aligned(before, now, narrowed)
    ensures NarrowedRows(before, now, narrowed, derive) == FullRows(now, derive)
  {
    NarrowedRowsSplit(before, now, narrowed, derive);
    InsertedSplits(AllEdges(now, derive), narrowed);
    AlignedEdges(before, now, narrowed, derive);
  }

  /** The derivation that tells one carried document's two situations apart. */
  ghost function Telltale(now: World, q: Name): Derivation
    requires q in now.tree
  {
    var d, keys, packages := now.tree[q], now.tree.Keys, now.packages;
    (p, doc, indexed, roots) =>
      Derived(if p == q && !(doc == d && indexed == keys && roots == packages) then [Edge(q, 1, q, 0, 0, 0)] else [], [])
  }

  lemma MisalignedTells(before: World, now: World, narrowed: set<Name>) returns (derive: Derivation)
    requires FileSetHeld(before.tree.Keys, now.tree.Keys, narrowed) && !Aligned(before, now, narrowed)
    ensures SubjectsOwnEdges(derive) && NarrowedRows(before, now, narrowed, derive) != FullRows(now, derive)
  {
    var q: Name;
    if now.tree.Keys == before.tree.Keys && now.packages == before.packages {
      q :| q in before.tree && q !in narrowed && now.tree[q] != before.tree[q];
    } else {
      q :| q in before.tree && q !in narrowed;
    }
    assert q in before.tree.Keys - narrowed && q in now.tree.Keys - narrowed;
    derive := Telltale(now, q);
    var e := Edge(q, 1, q, 0, 0, 0);
    NarrowedRowsSplit(before, now, narrowed, derive);
    assert e in derive(q, before.tree[q], before.tree.Keys, before.packages).edges;
    assert e in Except(AllEdges(before, derive), narrowed);
    assert e in Inserted(Except(AllEdges(before, derive), narrowed));
    assert e !in AllEdges(now, derive);
  }

  /** A narrowing the program keeps yields a full derivation's rows, whatever the
      derivation is, exactly when the worlds are aligned: the program's own test
      looks only at names outside the narrowing. */
  lemma NarrowedCutExact(before: World, now: World, narrowed: set<Name>)
    requires FileSetHeld(before.tree.Keys, now.tree.Keys, narrowed)
    ensures (forall derive: Derivation :: SubjectsOwnEdges(derive) ==>
               NarrowedRows(before, now, narrowed, derive) == FullRows(now, derive))
            <==> Aligned(before, now, narrowed)
  {
    if Aligned(before, now, narrowed) {
      forall derive: Derivation | SubjectsOwnEdges(derive)
        ensures NarrowedRows(before, now, narrowed, derive) == FullRows(now, derive)
      {
        AlignedSuffices(before, now, narrowed, derive);
      }
    } else {
      var derive := MisalignedTells(before, now, narrowed);
    }
  }

  /* ---- Sequences of cuts ---- */

  datatype Generation = Generation(documents: set<Name>, rows: set<Edge>)

  const Empty: Generation := Generation({}, {})

  /** One attempt: a run that answered and was sealed, or one that failed, was
      cancelled, crashed or could not be sealed. */
  datatype Attempt =
    | Sealed(world: World, files: seq<Candidate>, walkFailed: nat, changed: set<Name>, fileSetMoved: bool, limit: nat)
    | Lost

  function Latest(generations: seq<Generation>): Generation {
    if generations == [] then Empty else generations[|generations| - 1]
  }

  function RequestOf(generations: seq<Generation>, a: Attempt): Request
    requires a.Sealed?
  {
    Request(a.changed, a.fileSetMoved, Latest(generations).documents, a.limit)
  }

  ghost function GraphOf(generations: seq<Generation>, a: Attempt, derive: Derivation): Graph
    requires a.Sealed?
  {
    Cut(RequestOf(generations, a), a.files, a.walkFailed, a.world.packages, derive)
  }

  /** The documents a sealed attempt derived. */
  ghost function ReachedIn(generations: seq<Generation>, a: Attempt, derive: Derivation): set<Name>
    requires a.Sealed?
  {
    ReachedBy(RequestOf(generations, a), a.files, a.walkFailed, a.world.packages, derive)
  }

  ghost function Attempted(generations: seq<Generation>, a: Attempt, derive: Derivation): seq<Generation> {
    generations + [if a.Lost? then Empty
                   else
                     var g := GraphOf(generations, a, derive);
                     Generation(g.documents, SealedRows(Latest(generations).rows, g))]
  }

  ghost function AfterAll(attempts: seq<Attempt>, derive: Derivation): seq<Generation> {
    if attempts == [] then []
    else Attempted(AfterAll(attempts[..|attempts| - 1], derive), attempts[|attempts| - 1], derive)
  }

  /** What the watch and the caller tell a cut of the changes since the previous
      tree: a moved file set is reported, and otherwise package roots held, no
      named document appeared or vanished, and every changed one is named. */
  ghost predicate Disclosed(before: World, a: Attempt)
    requires a.Sealed?
  {
    !a.fileSetMoved && a.changed != {} ==>
      && a.world.packages == before.packages
      && (forall p :: p in a.changed ==> (p in before.tree <==> p in a.world.tree))
      && (forall p :: p in before.tree && p in a.world.tree && a.world.tree[p] != before.tree[p] ==> p in a.changed)
  }

  /** The hypotheses on one attempt: it read the tree, and was told of the changes
      since the previous sealed one. */
  ghost predicate Steady(attempts: seq<Attempt>, k: nat)
    requires k < |attempts|
  {
    attempts[k].Sealed? ==>
      && Enumerates(attempts[k].files, attempts[k].world)
      && (k > 0 && attempts[k - 1].Sealed? ==> Disclosed(attempts[k - 1].world, attempts[k]))
  }

  ghost predicate AllSteady(attempts: seq<Attempt>) {
    forall k {:trigger Steady(attempts, k)} :: 0 <= k < |attempts| ==> Steady(attempts, k)
  }

  ghost predicate Unlimited(attempts: seq<Attempt>, k: nat, derive: Derivation)
    requires k < |attempts|
  {
    attempts[k].Sealed? ==> !Limited(GraphOf(AfterAll(attempts[..k], derive), attempts[k], derive))
  }

  ghost predicate AllUnlimited(attempts: seq<Attempt>, derive: Derivation) {
    forall k {:trigger Unlimited(attempts, k, derive)} :: 0 <= k < |attempts| ==> Unlimited(attempts, k, derive)
  }

  /** The documents the newest generation owes edges for: those a limit kept some
      cut from reaching and no later cut has reached since. */
  ghost function Missing(attempts: seq<Attempt>, derive: Derivation): set<Name> {
    if attempts == [] || attempts[|attempts| - 1].Lost? then {}
    else
      var earlier, a := attempts[..|attempts| - 1], attempts[|attempts| - 1];
      MissingAfter(AfterAll(earlier, derive), a, Missing(earlier, derive), derive)
  }

  ghost function MissingAfter(generations: seq<Generation>, a: Attempt, before: set<Name>, derive: Derivation): set<Name>
    requires a.Sealed?
  {
    var g := GraphOf(generations, a, derive);
    (if g.narrowedTo == {} then g.documents else (before + g.narrowedTo) * g.documents) - ReachedIn(generations, a, derive)
  }

  /** A first cut, and any cut after a lost one, is full. */
  lemma NothingBeforeMeansFull(generations: seq<Generation>, a: Attempt, derive: Derivation)
    requires a.Sealed? && Latest(generations).documents == {}
    ensures GraphOf(generations, a, derive).narrowedTo == {}
  {
  }

  /** A cut keeps the narrowing it was given exactly when there is one, nothing
      says the file set moved, every candidate was read, and the previous file set
      agrees with this one outside it; otherwise it is full. */
  lemma NarrowingKeptExact(r: Request, files: seq<Candidate>, walkFailed: nat, packages: set<Name>, derive: Derivation)
    ensures var g := Cut(r, files, walkFailed, packages, derive);
            var kept := && !r.fileSetMoved && walkFailed == 0 && r.previous != {}
                        && (forall i :: 0 <= i < |files| ==> !files[i].Unreadable?)
                        && (forall p :: p !in r.changed ==> (p in r.previous <==> p in g.documents));
            && (g.narrowedTo == if kept then r.changed else {})
            && (g.narrowedTo != {} <==> kept && r.changed != {})
  {
    UnreadExact(files);
    var indexed := Indexed(Sources(files));
    assert FileSetHeld(r.previous, indexed, r.changed) <==>
           forall p :: p !in r.changed ==> (p in r.previous <==> p in indexed) by {
      if FileSetHeld(r.previous, indexed, r.changed) {
        forall p | p !in r.changed
          ensures p in r.previous <==> p in indexed
        {
          assert p in indexed - r.changed <==> p in r.previous - r.changed;
        }
      }
    }
  }

  lemma {:induction false} UnreadExact(files: seq<Candidate>)
    ensures Unread(files) == 0 <==> forall i :: 0 <= i < |files| ==> !files[i].Unreadable?
  {
    if files != [] {
      UnreadExact(files[..|files| - 1]);
    }
  }

  lemma KeptNarrowingHeld(generations: seq<Generation>, a: Attempt, derive: Derivation)
    requires a.Sealed? && Enumerates(a.files, a.world)
    requires GraphOf(generations, a, derive).narrowedTo != {}
    ensures GraphOf(generations, a, derive).narrowedTo == a.changed && !a.fileSetMoved
    ensures FileSetHeld(Latest(generations).documents, a.world.tree.Keys, a.changed)
  {
    EnumeratedKeys(a.files, a.world);
  }

  /** The program's own test and what it was told align a kept narrowing. */
  lemma KeptNarrowingAligned(generations: seq<Generation>, a: Attempt, derive: Derivation, before: World)
    requires a.Sealed? && Enumerates(a.files, a.world) && Disclosed(before, a)
    requires Latest(generations).documents == before.tree.Keys
    requires GraphOf(generations, a, derive).narrowedTo != {}
    ensures Aligned(before, a.world, a.changed)
  {
    KeptNarrowingHeld(generations, a, derive);
    forall p
      ensures p in before.tree.Keys <==> p in a.world.tree.Keys
    {
      assert p !in a.changed ==> (p in before.tree.Keys - a.changed <==> p in a.world.tree.Keys - a.changed);
    }
    assert before.tree.Keys == a.world.tree.Keys;
  }

  lemma EarlierSteady(attempts: seq<Attempt>)
    requires attempts != [] && AllSteady(attempts)
    ensures AllSteady(attempts[..|attempts| - 1])
  {
    var earlier := attempts[..|attempts| - 1];
    forall k | 0 <= k < |earlier|
      ensures Steady(earlier, k)
    {
      assert Steady(attempts, k);
      assert earlier[..k] == attempts[..k];
    }
  }

  /** Main result: over any sequence of attempts from an empty table, lost and
      limited ones included, the newest generation holds the rows of a full
      derivation of its tree less those of the missing documents. */
  lemma {:induction false} IncrementalRows(attempts: seq<Attempt>, derive: Derivation)
    requires SubjectsOwnEdges(derive) && AllSteady(attempts)
    ensures var latest := Latest(AfterAll(attempts, derive));
            if attempts == [] || attempts[|attempts| - 1].Lost? then latest == Empty
            else
              var w := attempts[|attempts| - 1].world;
              latest == Generation(w.tree.Keys, Inserted(Except(AllEdges(w, derive), Missing(attempts, derive))))
              && Missing(attempts, derive) <= w.tree.Keys
    decreases |attempts|
  {
    if attempts != [] && attempts[|attempts| - 1].Sealed? {
      var n := |attempts| - 1;
      var earlier := attempts[..n];
      EarlierSteady(attempts);
      IncrementalRows(earlier, derive);
      assert Steady(attempts, n);
      SealRows(AfterAll(earlier, derive), attempts[n], derive,
               if n == 0 || attempts[n - 1].Lost? then None else Some(attempts[n - 1].world), Missing(earlier, derive));
    }
  }

  lemma SealRows(generations: seq<Generation>, a: Attempt, derive: Derivation, before: Option<World>, missing: set<Name>)
    requires SubjectsOwnEdges(derive) && a.Sealed? && Enumerates(a.files, a.world)
    requires before.Some? ==> Disclosed(before.value, a)
    requires Latest(generations) ==
             if before == None then Empty
             else Generation(before.value.tree.Keys, Inserted(Except(AllEdges(before.value, derive), missing)))
    ensures Latest(Attempted(generations, a, derive)) ==
            Generation(a.world.tree.Keys,
                       Inserted(Except(AllEdges(a.world, derive), MissingAfter(generations, a, missing, derive))))
    ensures MissingAfter(generations, a, missing, derive) <= a.world.tree.Keys
  {
    hide Cut, ReachedBy, Inserted, Enumerates, SubjectsOwnEdges, AllEdges;
    var g := GraphOf(generations, a, derive);
    var reached := ReachedIn(generations, a, derive);
    var r := RequestOf(generations, a);
    CutEdges(r, a.files, a.walkFailed, a.world, derive);
    EdgesOfDocuments(a.world, derive);
    var all := AllEdges(a.world, derive);
    var now := MissingAfter(generations, a, missing, derive);
    if g.narrowedTo == {} {
      assert Only(all, reached) == Except(all, now);
    } else {
      if before == None {
        NothingBeforeMeansFull(generations, a, derive);
      }
      KeptNarrowingHeld(generations, a, derive);
      KeptNarrowingAligned(generations, a, derive, before.value);
      AlignedEdges(before.value, a.world, g.narrowedTo, derive);
      CarriedRows(AllEdges(before.value, derive), all, missing, g.narrowedTo, reached, now);
    }
  }

  lemma EdgesOfDocuments(w: World, derive: Derivation)
    requires SubjectsOwnEdges(derive)
    ensures forall e :: e in AllEdges(w, derive) ==> e.from in w.tree.Keys
  {
  }

  /** Carried rows keep what was missing outside the narrowing missing, and
      derived rows bring back what was reached inside it. */
  lemma CarriedRows(was: set<Edge>, all: set<Edge>, missing: set<Name>, narrowed: set<Name>, reached: set<Name>,
                    now: set<Name>)
    requires reached <= narrowed && Except(was, narrowed) == Except(all, narrowed)
    requires forall e :: e in all ==> (e.from in now <==> e.from in missing + narrowed && e.from !in reached)
    ensures Replacing(Carried(Inserted(Except(was, missing)), narrowed), Inserted(Only(all, reached))) ==
            Inserted(Except(all, now))
  {
    var kept := Except(all, missing + narrowed);
    InsertedSplits(Except(was, missing), narrowed);
    forall e
      ensures e in Except(Except(was, missing), narrowed) <==> e in kept
    {
      assert e in Except(was, narrowed) <==> e in Except(all, narrowed);
    }
    assert Except(Except(was, missing), narrowed) == kept;
    assert Carried(Inserted(Except(was, missing)), narrowed) == Inserted(kept);
    InsertedSplits(Except(all, now), reached);
    assert Only(Except(all, now), reached) == Only(all, reached);
    assert Except(Except(all, now), reached) == kept;
    assert forall e :: e in Inserted(kept) ==> e.from !in reached;
  }

  function Above(edges: set<Edge>, e: Edge): set<Edge> {
    set other | other in edges && SameKey(other, e) && other.rest > e.rest
  }

  /** Of any edge's key some edge is kept. */
  lemma {:induction false} GreatestKept(edges: set<Edge>, e: Edge) returns (kept: Edge)
    requires e in edges
    ensures kept in Inserted(edges) && SameKey(kept, e)
    decreases Above(edges, e)
  {
    if above :| above in Above(edges, e) {
      assert above !in Above(edges, above);
      kept := GreatestKept(edges, above);
    } else {
      kept := e;
      forall other | other in edges && SameKey(other, e)
        ensures other.rest <= e.rest
      {
        assert other !in Above(edges, e);
      }
    }
  }

  /** Rows without some documents' edges are all rows exactly when those state none. */
  lemma NothingMissing(w: World, missing: set<Name>, derive: Derivation)
    requires SubjectsOwnEdges(derive) && missing <= w.tree.Keys
    ensures Inserted(Except(AllEdges(w, derive), missing)) == FullRows(w, derive) <==>
            forall p :: p in missing ==> derive(p, w.tree[p], w.tree.Keys, w.packages).edges == []
  {
    var all := AllEdges(w, derive);
    if forall p :: p in missing ==> derive(p, w.tree[p], w.tree.Keys, w.packages).edges == [] {
      assert Except(all, missing) == all;
    }
    forall p | p in missing && derive(p, w.tree[p], w.tree.Keys, w.packages).edges != []
      ensures Inserted(Except(all, missing)) != Inserted(all)
    {
      var edges := derive(p, w.tree[p], w.tree.Keys, w.packages).edges;
      assert edges[0] in edges && edges[0] in all;
      var kept := GreatestKept(all, edges[0]);
      assert kept !in Except(all, missing);
    }
  }

  /** So the newest generation is a full derivation exactly when every document a
      limit left out, and no later cut reached, states no edge. */
  lemma IncrementalExact(attempts: seq<Attempt>, derive: Derivation)
    requires SubjectsOwnEdges(derive) && AllSteady(attempts)
    requires attempts != [] && attempts[|attempts| - 1].Sealed?
    ensures var w := attempts[|attempts| - 1].world;
            && Missing(attempts, derive) <= w.tree.Keys
            && (Latest(AfterAll(attempts, derive)).rows == FullRows(w, derive) <==>
                  forall p :: p in Missing(attempts, derive) ==> derive(p, w.tree[p], w.tree.Keys, w.packages).edges == [])
  {
    hide AllSteady, SubjectsOwnEdges, Inserted, FullRows, AllEdges, Except, Missing, AfterAll;
    IncrementalRows(attempts, derive);
    NothingMissing(attempts[|attempts| - 1].world, Missing(attempts, derive), derive);
  }

  lemma {:induction false} NoLimitNoneMissing(attempts: seq<Attempt>, derive: Derivation)
    requires SubjectsOwnEdges(derive) && AllSteady(attempts) && AllUnlimited(attempts, derive)
    ensures Missing(attempts, derive) == {}
    decreases |attempts|
  {
    if attempts != [] && attempts[|attempts| - 1].Sealed? {
      var n := |attempts| - 1;
      var earlier, a := attempts[..n], attempts[n];
      EarlierSteady(attempts);
      forall k | 0 <= k < n
        ensures Unlimited(earlier, k, derive)
      {
        assert Unlimited(attempts, k, derive);
        assert earlier[..k] == attempts[..k];
      }
      NoLimitNoneMissing(earlier, derive);
      assert Steady(attempts, n) && Unlimited(attempts, n, derive);
      CutEdges(RequestOf(AfterAll(earlier, derive), a), a.files, a.walkFailed, a.world, derive);
    }
  }

  /** Where no cut met its limit, every sealed generation is a full derivation. */
  lemma IncrementalIsFull(attempts: seq<Attempt>, derive: Derivation)
    requires SubjectsOwnEdges(derive) && AllSteady(attempts) && AllUnlimited(attempts, derive)
    ensures var latest := Latest(AfterAll(attempts, derive));
            if attempts == [] || attempts[|attempts| - 1].Lost? then latest == Empty
            else
              var w := attempts[|attempts| - 1].world;
              latest == Generation(w.tree.Keys, FullRows(w, derive))
  {
    IncrementalRows(attempts, derive);
    NoLimitNoneMissing(attempts, derive);
    if attempts != [] && attempts[|attempts| - 1].Sealed? {
      var all := AllEdges(attempts[|attempts| - 1].world, derive);
      assert Except(all, {}) == all;
    }
  }

  /* ---- Where the program's own tests do not suffice ---- */

  lemma AfterTwo(a: Attempt, b: Attempt, derive: Derivation)
    ensures AfterAll([a, b], derive) == Attempted(Attempted([], a, derive), b, derive)
    ensures AfterAll([a, b][..1], derive) == Attempted([], a, derive)
  {
    assert [a][..0] == [] && [a, b][..1] == [a];
    assert AfterAll([], derive) == [];
    assert AfterAll([a], derive) == Attempted([], a, derive);
  }

  function SelfEdge(p: Name): Edge {
    Edge(p, 1, p, 0, 0, 0)
  }

  function OneFile(a: Name, doc: Document): seq<Candidate> {
    [Readable(a, doc)]
  }

  function TwoFiles(a: Name, b: Name, doc: Document): seq<Candidate> {
    [Readable(a, doc), Readable(b, doc)]
  }

  lemma ReadFiles(a: Name, b: Name, doc: Document)
    ensures Sources(OneFile(a, doc)) == [Source(a, doc)] && Unread(OneFile(a, doc)) == Unsupported(OneFile(a, doc)) == 0
    ensures Sources(TwoFiles(a, b, doc)) == [Source(a, doc), Source(b, doc)]
    ensures Unread(TwoFiles(a, b, doc)) == Unsupported(TwoFiles(a, b, doc)) == 0
    ensures Indexed([Source(a, doc)]) == {a} && Indexed([Source(a, doc), Source(b, doc)]) == {a, b}
    ensures Enumerates(TwoFiles(a, b, doc), World(map[a := doc, b := doc], {}))
  {
    assert OneFile(a, doc)[..0] == [] && TwoFiles(a, b, doc)[..1] == OneFile(a, doc);
  }

  /** A two-document cut whose derivations are known. */
  lemma CutOfTwo(a: Name, b: Name, doc: Document, r: Request, derive: Derivation, p: Progress)
    requires var two := [Source(a, doc), Source(b, doc)];
             DeriveUpTo(two, 2, r, Widened(r, 0, {a, b}), {}, derive) == p
    ensures var g := Cut(r, TwoFiles(a, b, doc), 0, {}, derive);
            && g.edges == p.edges && g.documents == {a, b}
            && g.narrowedTo == (if Widened(r, 0, {a, b}) then {} else r.changed)
            && (p.unresolved == [] && !p.limited ==> g.reasons == [])
  {
    ReadFiles(a, b, doc);
  }

  lemma FirstOfOne(a: Name, doc: Document, derive: Derivation)
    requires derive(a, doc, {a}, {}) == Derived([SelfEdge(a)], [])
    ensures var g := Cut(Request({}, false, {}, 10), OneFile(a, doc), 0, {}, derive);
            g.edges == [SelfEdge(a)] && g.documents == {a} && g.narrowedTo == {}
  {
    assert OneFile(a, doc)[..0] == [];
    assert Sources(OneFile(a, doc)) == [Source(a, doc)];
    assert Indexed([Source(a, doc)]) == {a};
    var r := Request({}, false, {}, 10);
    assert DeriveUpTo([Source(a, doc)], 0, r, true, {}, derive) == Progress([], [], false);
    assert DeriveUpTo([Source(a, doc)], 1, r, true, {}, derive) == Progress([SelfEdge(a)], [], false);
  }

  lemma SecondSkips(a: Name, b: Name, doc: Document, derive: Derivation)
    requires a != b && derive(b, doc, {a, b}, {}) == Derived([], [])
    ensures var g := Cut(Request({b}, false, {a}, 10), TwoFiles(a, b, doc), 0, {}, derive);
            g.edges == [] && g.narrowedTo == {b} && g.reasons == [] && g.documents == {a, b}
  {
    var r := Request({b}, false, {a}, 10);
    var sources := [Source(a, doc), Source(b, doc)];
    assert Indexed(sources) == {a, b};
    assert {a, b} - {b} == {a} - {b};
    assert !Widened(r, 0, {a, b});
    var none := Progress([], [], false);
    assert DeriveUpTo(sources, 0, r, false, {}, derive) == none;
    assert Skipped(r, false, a) && !Skipped(r, false, b);
    assert DeriveUpTo(sources, 1, r, false, {}, derive) == none;
    assert DeriveUpTo(sources, 2, r, false, {}, derive) == none;
    CutOfTwo(a, b, doc, r, derive, none);
  }

  /** A document that appears inside the narrowing, unreported by the watch: the
      program keeps the narrowing, and the carried rows are those of a project
      without it. */
  lemma AppearedInsideNarrowing(a: Name, b: Name) returns (attempts: seq<Attempt>, derive: Derivation)
    requires a != b
    ensures SubjectsOwnEdges(derive) && |attempts| == 2
    ensures attempts[0].Sealed? && attempts[1].Sealed? && Enumerates(attempts[1].files, attempts[1].world)
    ensures GraphOf(AfterAll(attempts[..1], derive), attempts[1], derive).reasons == []
    ensures Latest(AfterAll(attempts, derive)).rows != FullRows(attempts[1].world, derive)
  {
    var doc := Document([], false);
    var two := World(map[a := doc, b := doc], {});
    derive := Telltale(two, a);
    TelltaleFacts(a, b, doc, derive);
    attempts := [Sealed(World(map[a := doc], {}), OneFile(a, doc), 0, {}, false, 10),
                 Sealed(two, TwoFiles(a, b, doc), 0, {b}, false, 10)];
    AppearedRun(a, b, doc, derive, attempts[0], attempts[1]);
    AfterTwo(attempts[0], attempts[1], derive);
    ReadFiles(a, b, doc);
    assert attempts == [attempts[0], attempts[1]];
  }

  lemma TelltaleFacts(a: Name, b: Name, doc: Document, derive: Derivation)
    requires a != b && derive == Telltale(World(map[a := doc, b := doc], {}), a)
    ensures SubjectsOwnEdges(derive)
    ensures derive(a, doc, {a}, {}) == Derived([SelfEdge(a)], []) && derive(b, doc, {a, b}, {}) == Derived([], [])
    ensures SelfEdge(a) !in FullRows(World(map[a := doc, b := doc], {}), derive)
  {
    var two := World(map[a := doc, b := doc], {});
    assert two.tree.Keys == {a, b};
    assert b !in {a};
  }

  lemma AppearedRun(a: Name, b: Name, doc: Document, derive: Derivation, first: Attempt, second: Attempt)
    requires a != b
    requires first == Sealed(World(map[a := doc], {}), OneFile(a, doc), 0, {}, false, 10)
    requires second == Sealed(World(map[a := doc, b := doc], {}), TwoFiles(a, b, doc), 0, {b}, false, 10)
    requires derive(a, doc, {a}, {}) == Derived([SelfEdge(a)], []) && derive(b, doc, {a, b}, {}) == Derived([], [])
    ensures var generations := Attempted([], first, derive);
            && GraphOf(generations, second, derive).reasons == []
            && SelfEdge(a) in Latest(Attempted(generations, second, derive)).rows
  {
    FirstOfOne(a, doc, derive);
    SecondSkips(a, b, doc, derive);
    CarriedEdgeStays(Attempted([], first, derive), first, second, derive, SelfEdge(a));
  }

  lemma CarriedEdgeStays(generations: seq<Generation>, first: Attempt, second: Attempt, derive: Derivation, e: Edge)
    requires first.Sealed? && second.Sealed? && generations == Attempted([], first, derive)
    requires GraphOf([], first, derive).edges == [e] && GraphOf([], first, derive).narrowedTo == {}
    requires var g := GraphOf(generations, second, derive);
             g.edges == [] && g.narrowedTo != {} && e.from !in g.narrowedTo
    ensures e in Latest(Attempted(generations, second, derive)).rows
  {
    assert e in Latest(generations).rows;
  }

  lemma LimitedPair(a: Name, b: Name, doc: Document, derive: Derivation)
    requires a != b
    requires forall p, d, indexed, roots :: derive(p, d, indexed, roots) == Derived([SelfEdge(p)], [])
    ensures var g := Cut(Request({}, false, {}, 1), TwoFiles(a, b, doc), 0, {}, derive);
            g.edges == [SelfEdge(a)] && g.documents == {a, b}
    ensures var g := Cut(Request({a}, false, {a, b}, 1), TwoFiles(a, b, doc), 0, {}, derive);
            g.edges == [SelfEdge(a)] && g.narrowedTo == {a} && g.reasons == []
  {
    var sources := [Source(a, doc), Source(b, doc)];
    var r, s := Request({}, false, {}, 1), Request({a}, false, {a, b}, 1);
    var p := Progress([SelfEdge(a)], [], false);
    assert DeriveUpTo(sources, 1, r, true, {}, derive) == p;
    assert DeriveUpTo(sources, 2, r, true, {}, derive) == p.(limited := true);
    CutOfTwo(a, b, doc, r, derive, p.(limited := true));
    assert DeriveUpTo(sources, 1, s, false, {}, derive) == p;
    assert DeriveUpTo(sources, 2, s, false, {}, derive) == p;
    CutOfTwo(a, b, doc, s, derive, p);
  }

  /** A cut stopped by its limit still records every document, so the next
      narrowed cut carries rows that were never derived and reports complete. */
  lemma LimitedCutIsCarried(a: Name, b: Name) returns (attempts: seq<Attempt>, derive: Derivation)
    requires a != b
    ensures SubjectsOwnEdges(derive) && |attempts| == 2
    ensures attempts[0].Sealed? && attempts[1].Sealed? && attempts[0].world == attempts[1].world
    ensures Enumerates(attempts[1].files, attempts[1].world)
    ensures GraphOf(AfterAll(attempts[..1], derive), attempts[1], derive).reasons == []
    ensures Latest(AfterAll(attempts, derive)).rows != FullRows(attempts[1].world, derive)
  {
    var doc := Document([], false);
    var w := World(map[a := doc, b := doc], {});
    derive := (p, d, indexed, roots) => Derived([SelfEdge(p)], []);
    var first := Sealed(w, TwoFiles(a, b, doc), 0, {}, false, 1);
    var second := Sealed(w, TwoFiles(a, b, doc), 0, {a}, false, 1);
    attempts := [first, second];
    AfterTwo(first, second, derive);
    ReadFiles(a, b, doc);
    LimitedPair(a, b, doc, derive);
    var generations := Attempted([], first, derive);
    assert Latest(generations).documents == {a, b};
    assert forall e :: e in Latest(generations).rows ==> e == SelfEdge(a);
    var e := SelfEdge(b);
    assert e in derive(b, w.tree[b], w.tree.Keys, w.packages).edges;
    assert e in AllEdges(w, derive);
    assert e in FullRows(w, derive);
    assert e !in Latest(Attempted(generations, second, derive)).rows;
  }
}
