/** One project index cut (src/context.rs) and the generation it seals
    (src/commands.rs, src/state.rs): what a narrowed cut carries over, and when
    that is what a full cut would have derived. */
module ProjectIndex {
  type Name = string

  datatype Document = Document(bytes: seq<bv8>, ignored: bool)

  /** One derived relation. The first five fields are the row's key; `rest` orders
      the remaining columns as the edge order does. */
  datatype Edge = Edge(from: Name, line: nat, to: Name, kind: nat, provenance: nat, rest: nat)

  datatype Derived = Derived(edges: seq<Edge>, unresolved: seq<Name>)

  /** `derive_edges`: a function of the source, the indexed file set and the
      package roots, and of nothing else. */
  type Derivation = (Name, Document, set<Name>, set<Name>) -> Derived

  /** Every edge of a source states a relation of that source. */
  ghost predicate SubjectsOwnEdges(derive: Derivation) {
    forall p, d, indexed, packages :: forall i :: 0 <= i < |derive(p, d, indexed, packages).edges| ==>
      derive(p, d, indexed, packages).edges[i].from == p
  }

  /** A candidate of the enumeration. A deadline that passed, an unreadable file
      and bytes that are not text all leave it `Unreadable`. */
  datatype Candidate =
    | Unclaimed(relative: Name, projectInput: bool)
    | Unreadable(relative: Name)
    | Readable(relative: Name, document: Document)

  datatype Request = Request(changed: set<Name>, fileSetMoved: bool, previous: set<Name>, limit: nat)

  datatype Reason = LimitReached(limit: nat) | EntriesFailed(count: nat) | UnsupportedLanguage(count: nat) | UnresolvedPaths(count: nat)

  datatype Graph = Graph(
    edges: seq<Edge>, unresolved: set<Name>, reasons: seq<Reason>, narrowedTo: set<Name>, documents: set<Name>)

  datatype Source = Source(relative: Name, document: Document)

  /* ---- The cut ---- */

  function Sources(files: seq<Candidate>): seq<Source> {
    if files == [] then []
    else
      var last := files[|files| - 1];
      Sources(files[..|files| - 1]) + if last.Readable? then [Source(last.relative, last.document)] else []
  }

  function Unread(files: seq<Candidate>): nat {
    if files == [] then 0
    else Unread(files[..|files| - 1]) + if files[|files| - 1].Unreadable? then 1 else 0
  }

  function Unsupported(files: seq<Candidate>): nat {
    if files == [] then 0
    else
      var last := files[|files| - 1];
      Unsupported(files[..|files| - 1]) + if last.Unclaimed? && !last.projectInput then 1 else 0
  }

  function Indexed(sources: seq<Source>): set<Name> {
    set s | s in sources :: s.relative
  }

  /** Whether the file set outside the narrowing is the replaced generation's. */
  predicate FileSetHeld(previous: set<Name>, indexed: set<Name>, narrowed: set<Name>) {
    indexed - narrowed == previous - narrowed
  }

  /** The widening test, in the program's order of evidence. */
  predicate Widened(r: Request, failed: nat, indexed: set<Name>) {
    r.fileSetMoved || failed > 0 || r.previous == {} || !FileSetHeld(r.previous, indexed, r.changed)
  }

  predicate Skipped(r: Request, widened: bool, p: Name) {
    !widened && r.changed != {} && p !in r.changed
  }

  datatype Progress = Progress(edges: seq<Edge>, unresolved: seq<Name>, limited: bool)

  /** The derivation loop over the first `n` sources, stopped at the limit. */
  function DeriveUpTo(sources: seq<Source>, n: nat, r: Request, widened: bool, packages: set<Name>, derive: Derivation): Progress
    requires n <= |sources|
  {
    if n == 0 then Progress([], [], false)
    else
      var p := DeriveUpTo(sources, n - 1, r, widened, packages, derive);
      var s := sources[n - 1];
      if p.limited || Skipped(r, widened, s.relative) then p
      else
        var derived := derive(s.relative, s.document, Indexed(sources), packages);
        if |p.edges| + |derived.edges| > r.limit then p.(limited := true)
        else Progress(p.edges + derived.edges, p.unresolved + derived.unresolved, false)
  }

  function Names(names: seq<Name>): set<Name> {
    set u | u in names
  }

  function When(condition: bool, reason: Reason): seq<Reason> {
    if condition then [reason] else []
  }

  function Cut(r: Request, files: seq<Candidate>, walkFailed: nat, packages: set<Name>, derive: Derivation): Graph {
    var sources := Sources(files);
    var failed := walkFailed + Unread(files);
    var widened := Widened(r, failed, Indexed(sources));
    var p := DeriveUpTo(sources, |sources|, r, widened, packages, derive);
    Graph(p.edges,
          Names(p.unresolved),
          When(p.limited, LimitReached(r.limit)) + When(failed > 0, EntriesFailed(failed))
            + When(Unsupported(files) > 0, UnsupportedLanguage(Unsupported(files)))
            + When(|p.unresolved| > 0, UnresolvedPaths(|p.unresolved|)),
          if widened then {} else r.changed,
          Indexed(sources))
  }

  predicate Limited(g: Graph) {
    exists reason :: reason in g.reasons && reason.LimitReached?
  }

  /* ---- The program ---- */

  method ReadSources(files: seq<Candidate>, walkFailed: nat)
    returns (sources: seq<Source>, failed: nat, unsupported: nat)
    ensures sources == Sources(files) && failed == walkFailed + Unread(files) && unsupported == Unsupported(files)
  {
    sources, failed, unsupported := [], walkFailed, 0;
    for i := 0 to |files|
      invariant sources == Sources(files[..i])
      invariant failed == walkFailed + Unread(files[..i])
      invariant unsupported == Unsupported(files[..i])
    {
      assert files[..i + 1][..i] == files[..i];
      match files[i] {
        case Unclaimed(_, projectInput) =>
          if !projectInput {
            unsupported := unsupported + 1;
          }
        case Unreadable(_) =>
          failed := failed + 1;
        case Readable(relative, document) =>
          sources := sources + [Source(relative, document)];
      }
    }
    assert files[..|files|] == files;
  }

  method DeriveSources(sources: seq<Source>, r: Request, widened: bool, packages: set<Name>, derive: Derivation)
    returns (edges: seq<Edge>, unresolved: seq<Name>, limited: bool)
    ensures Progress(edges, unresolved, limited) == DeriveUpTo(sources, |sources|, r, widened, packages, derive)
  {
    edges, unresolved, limited := [], [], false;
    for i := 0 to |sources|
      invariant !limited
      invariant Progress(edges, unresolved, limited) == DeriveUpTo(sources, i, r, widened, packages, derive)
    {
      var source := sources[i];
      if !widened && r.changed != {} && source.relative !in r.changed {
        continue;
      }
      var derived := derive(source.relative, source.document, Indexed(sources), packages);
      if |edges| + |derived.edges| > r.limit {
        limited := true;
        LimitSticks(sources, i + 1, r, widened, packages, derive);
        return;
      }
      unresolved := unresolved + derived.unresolved;
      edges := edges + derived.edges;
    }
  }

  method CutProject(r: Request, files: seq<Candidate>, walkFailed: nat, packages: set<Name>, derive: Derivation)
    returns (graph: Graph)
    ensures graph == Cut(r, files, walkFailed, packages, derive)
  {
    hide DeriveUpTo, Sources, Unread, Unsupported, FileSetHeld;
    var sources, failed, unsupported := ReadSources(files, walkFailed);
    var indexed := Indexed(sources);
    var fileSetMoved :=
      r.fileSetMoved || failed > 0 || r.previous == {} || !FileSetHeld(r.previous, indexed, r.changed);
    var edges, unresolved, limited := DeriveSources(sources, r, fileSetMoved, packages, derive);
    var reasons: seq<Reason> := [];
    if limited {
      reasons := reasons + [LimitReached(r.limit)];
    }
    if failed > 0 {
      reasons := reasons + [EntriesFailed(failed)];
    }
    if unsupported > 0 {
      reasons := reasons + [UnsupportedLanguage(unsupported)];
    }
    if |unresolved| > 0 {
      reasons := reasons + [UnresolvedPaths(|unresolved|)];
    }
    graph := Graph(edges, Names(unresolved), reasons, if fileSetMoved then {} else r.changed, indexed);
  }

  lemma {:induction false} LimitSticks(sources: seq<Source>, n: nat, r: Request, widened: bool, packages: set<Name>,
                                       derive: Derivation)
    requires n <= |sources| && DeriveUpTo(sources, n, r, widened, packages, derive).limited
    ensures DeriveUpTo(sources, |sources|, r, widened, packages, derive) ==
            DeriveUpTo(sources, n, r, widened, packages, derive)
    decreases |sources| - n
  {
    if n < |sources| {
      LimitSticks(sources, n + 1, r, widened, packages, derive);
    }
  }

  /* ---- The rows a seal writes ---- */

  predicate SameKey(a: Edge, b: Edge) {
    a.from == b.from && a.line == b.line && a.to == b.to && a.kind == b.kind && a.provenance == b.provenance
  }

  /** Rows inserted in edge order, each replacing an earlier one of its key: the
      greatest edge of every key stays. */
  ghost function Inserted(edges: set<Edge>): set<Edge> {
    set e | e in edges && forall other :: other in edges && SameKey(other, e) ==> other.rest <= e.rest
  }

  ghost function Carried(previous: set<Edge>, replaced: set<Name>): set<Edge> {
    set e | e in previous && e.from !in replaced
  }

  ghost function Replacing(carried: set<Edge>, derived: set<Edge>): set<Edge> {
    derived + (set c | c in carried && forall f :: f in derived ==> !SameKey(f, c))
  }

  function EdgeSet(edges: seq<Edge>): set<Edge> {
    set e | e in edges
  }

  /** The carry policy follows the answer: no narrowing stated, nothing carried. */
  ghost function SealedRows(previous: set<Edge>, g: Graph): set<Edge> {
    if g.narrowedTo == {} then Inserted(EdgeSet(g.edges))
    else Replacing(Carried(previous, g.narrowedTo), Inserted(EdgeSet(g.edges)))
  }

  /* ---- The reference: a full derivation ---- */

  datatype World = World(tree: map<Name, Document>, packages: set<Name>)

  ghost function AllEdges(w: World, derive: Derivation): set<Edge> {
    set p, e | p in w.tree && e in derive(p, w.tree[p], w.tree.Keys, w.packages).edges :: e
  }

  /** Every row a full, unlimited derivation of the tree would store. */
  ghost function FullRows(w: World, derive: Derivation): set<Edge> {
    Inserted(AllEdges(w, derive))
  }

  /** An enumeration that read exactly the documents of the tree. */
  ghost predicate Enumerates(files: seq<Candidate>, w: World) {
    && (forall s :: s in Sources(files) <==> s.relative in w.tree && w.tree[s.relative] == s.document)
  }

  /** The derivation loop kept what source `i` states. */
  predicate Reached(sources: seq<Source>, i: nat, r: Request, widened: bool, packages: set<Name>, derive: Derivation)
    requires i < |sources|
  {
    !Skipped(r, widened, sources[i].relative) && !DeriveUpTo(sources, i + 1, r, widened, packages, derive).limited
  }

  ghost predicate Stated(sources: seq<Source>, n: nat, r: Request, widened: bool, packages: set<Name>, derive: Derivation,
                         e: Edge)
    requires n <= |sources|
  {
    exists i :: 0 <= i < n && Reached(sources, i, r, widened, packages, derive) &&
                e in derive(sources[i].relative, sources[i].document, Indexed(sources), packages).edges
  }

  /** Limited or not, a derivation holds exactly what the sources it reached state. */
  lemma {:induction false} DerivedEdges(sources: seq<Source>, n: nat, r: Request, widened: bool, packages: set<Name>,
                                        derive: Derivation, e: Edge)
    requires n <= |sources|
    ensures e in DeriveUpTo(sources, n, r, widened, packages, derive).edges <==>
            Stated(sources, n, r, widened, packages, derive, e)
  {
    if n > 0 {
      DerivedEdges(sources, n - 1, r, widened, packages, derive, e);
      var s := sources[n - 1];
      var last := derive(s.relative, s.document, Indexed(sources), packages).edges;
      assert Stated(sources, n, r, widened, packages, derive, e) <==>
             Stated(sources, n - 1, r, widened, packages, derive, e)
             || (Reached(sources, n - 1, r, widened, packages, derive) && e in last);
    }
  }

  lemma UnlimitedReaches(sources: seq<Source>, i: nat, r: Request, widened: bool, packages: set<Name>, derive: Derivation)
    requires i < |sources| && !DeriveUpTo(sources, |sources|, r, widened, packages, derive).limited
    ensures Reached(sources, i, r, widened, packages, derive) <==> !Skipped(r, widened, sources[i].relative)
  {
    if DeriveUpTo(sources, i + 1, r, widened, packages, derive).limited {
      LimitSticks(sources, i + 1, r, widened, packages, derive);
    }
  }
}
