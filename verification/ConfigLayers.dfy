/** The base document beneath the user's (src/config.rs): how the layers compose
    and what a purpose resolves to on the composed view. */
module ConfigLayers {
  import opened Wrappers
  import opened ConfigSchema

  /** A base states defaults and owns no connection or profile. */
  datatype Base = Base(workflow: Option<bool>, decisions: Option<DecisionMode>, autoCompact: Option<bool>, models: Models)

  /** `validated_base`: the reserved user namespace is the user's. */
  predicate BaseSound(personal: string -> bool, base: Base) {
    forall n :: n in base.models.purposes ==> !personal(n)
  }

  /* ---- Composition ---- */

  function Over<T>(upper: Option<T>, lower: Option<T>): Option<T> {
    if upper.Some? then upper else lower
  }

  function ComposeDefaults(base: Option<Defaults>, user: Option<Defaults>): Option<Defaults> {
    match (base, user)
    case (_, None) => base
    case (None, _) => user
    case (Some(b), Some(u)) =>
      Some(Defaults(if u.model.Inherit? then b.model else u.model,
                    if u.effort.InheritEffort? then b.effort else u.effort,
                    u.fallback))
  }

  /** A row the user writes is the user's whole. */
  function ComposeModels(base: Models, user: Models): Models {
    Models(ComposeDefaults(base.defaults, user.defaults), base.groups + user.groups, base.purposes + user.purposes)
  }

  const NoModels: Models := Models(None, map[], map[])
  const NoUser: Parsed := Parsed(0, None, None, None, map[], map[], NoModels)

  function Composed(base: Base, user: Option<Parsed>): Parsed {
    var u := if user.Some? then user.value else NoUser;
    Parsed(u.version, Over(u.workflow, base.workflow), Over(u.decisions, base.decisions),
           Over(u.autoCompact, base.autoCompact), u.connections, u.profiles, ComposeModels(base.models, u.models))
  }

  predicate Accepts(personal: string -> bool, base: Base, user: Option<Parsed>) {
    BaseSound(personal, base) && ReferencesHold(Composed(base, user).connections.Keys, Composed(base, user).models)
  }

  /** `resolve_effective_on`, answering the composed view. */
  function ResolveEffective(g: Grammar, personal: string -> bool, base: Base, doc: Option<Item>): Option<Parsed> {
    match doc
    case None => if Accepts(personal, base, None) then Some(Composed(base, None)) else None
    case Some(item) =>
      match DocumentOf(g, item)
      case None => None
      case Some(p) => if Accepts(personal, base, Some(p)) then Some(Composed(base, Some(p))) else None
  }

  /** Layers stack: it does not matter which two are joined first, an empty layer
      adds nothing, and a layer over itself is itself. */
  lemma LayersStack(lower: Models, middle: Models, upper: Models)
    ensures ComposeModels(lower, ComposeModels(middle, upper)) == ComposeModels(ComposeModels(lower, middle), upper)
    ensures ComposeModels(NoModels, upper) == upper == ComposeModels(upper, NoModels)
    ensures ComposeModels(lower, ComposeModels(lower, upper)) == ComposeModels(lower, upper)
  {
    hide ComposeDefaults;
    RowsStack(lower.groups, middle.groups, upper.groups);
    RowsStack(lower.purposes, middle.purposes, upper.purposes);
    DefaultsStack(lower.defaults, middle.defaults, upper.defaults);
  }

  lemma RowsStack<T>(lower: map<Name, T>, middle: map<Name, T>, upper: map<Name, T>)
    ensures lower + (middle + upper) == lower + middle + upper
    ensures lower + (lower + upper) == lower + upper
    ensures map[] + upper == upper == upper + map[]
  {
  }

  lemma DefaultsStack(lower: Option<Defaults>, middle: Option<Defaults>, upper: Option<Defaults>)
    ensures ComposeDefaults(lower, ComposeDefaults(middle, upper)) == ComposeDefaults(ComposeDefaults(lower, middle), upper)
    ensures ComposeDefaults(lower, ComposeDefaults(lower, upper)) == ComposeDefaults(lower, upper)
    ensures ComposeDefaults(None, upper) == upper == ComposeDefaults(upper, None)
  {
  }

  /* ---- Resolution ---- */

  datatype Source = PurposeRow | GroupRow(name: Name) | DefaultRow

  datatype Resolved = Resolved(
    model: ModelAssign, modelSource: Source, effort: EffortAssign, effortSource: Source,
    fallback: FallbackAssign, fallbackSource: Source)

  datatype ResolveRefusal = NoDefaults | UnknownGroup(group: Name)

  function RowAt(m: Models, purpose: Name): Purpose {
    if purpose in m.purposes then m.purposes[purpose] else EmptyPurpose
  }

  predicate PinsModel(row: Purpose) {
    row.model.Some? && !row.model.value.Inherit?
  }

  predicate PinsEffort(row: Purpose) {
    row.effort.Some? && !row.effort.value.InheritEffort?
  }

  function ResolvePurpose(m: Models, purpose: Name): Result<Resolved, ResolveRefusal> {
    if m.defaults == None then Err(NoDefaults)
    else
      var d := m.defaults.value;
      var row := RowAt(m, purpose);
      var (effort, effortSource) := if PinsEffort(row) then (row.effort.value, PurposeRow) else (d.effort, DefaultRow);
      var (fallback, fallbackSource) :=
        if row.fallback.Some? then (row.fallback.value, PurposeRow) else (d.fallback, DefaultRow);
      if PinsModel(row) then
        Ok(Resolved(row.model.value, PurposeRow, effort, effortSource, fallback, fallbackSource))
      else if row.group.Some? then
        if row.group.value in m.groups then
          Ok(Resolved(m.groups[row.group.value], GroupRow(row.group.value), effort, effortSource, fallback, fallbackSource))
        else Err(UnknownGroup(row.group.value))
      else Ok(Resolved(d.model, DefaultRow, effort, effortSource, fallback, fallbackSource))
  }

  /** On an accepted view with defaults every purpose name resolves, and every
      connection its answer names is declared. */
  lemma EffectiveResolves(g: Grammar, personal: string -> bool, base: Base, doc: Option<Item>, purpose: Name)
    requires ResolveEffective(g, personal, base, doc).Some?
    ensures var v := ResolveEffective(g, personal, base, doc).value;
            var r := ResolvePurpose(v.models, purpose);
            && (r.Ok? <==> v.models.defaults.Some?)
            && (r.Ok? ==> ModelDeclared(v.connections.Keys, r.value.model) && ChainDeclared(v.connections.Keys, r.value.fallback))
    ensures ResolveEffective(g, personal, base, doc).value.models.defaults == None <==>
              doc == None && base.models.defaults == None
  {
    hide SectionsOf, ModelDeclared, ChainDeclared, ConnectionSound;
    var v := ResolveEffective(g, personal, base, doc).value;
    if purpose in v.models.purposes {
      assert PurposeDeclared(v.connections.Keys, v.models.groups.Keys, v.models.purposes[purpose]);
    }
  }

  /** The composed view is accepted exactly when the user's own document is valid
      and everything the base adds resolves against the user's names. */
  lemma AcceptedAdditions(g: Grammar, personal: string -> bool, base: Base, p: Parsed)
    requires Coherent(g, p)
    ensures Accepts(personal, base, Some(p)) <==>
              && BaseSound(personal, base)
              && DefaultsDeclared(p.connections.Keys, ComposeDefaults(base.models.defaults, p.models.defaults))
              && (forall n :: n in base.models.groups && n !in p.models.groups ==>
                    ModelDeclared(p.connections.Keys, base.models.groups[n]))
              && (forall n :: n in base.models.purposes && n !in p.models.purposes ==>
                    PurposeDeclared(p.connections.Keys, base.models.groups.Keys + p.models.groups.Keys, base.models.purposes[n]))
  {
    hide ModelDeclared, ConnectionSound, DefaultsDeclared;
    var v := Composed(base, Some(p));
    var names, groups := p.connections.Keys, base.models.groups.Keys + p.models.groups.Keys;
    assert v.models.groups.Keys == groups;
    forall n | n in p.models.purposes
      ensures PurposeDeclared(names, groups, p.models.purposes[n])
    {
      assert PurposeDeclared(names, p.models.groups.Keys, p.models.purposes[n]);
    }
    if Accepts(personal, base, Some(p)) {
      forall n | n in base.models.groups && n !in p.models.groups
        ensures ModelDeclared(names, base.models.groups[n])
      {
        assert v.models.groups[n] == base.models.groups[n];
      }
      forall n | n in base.models.purposes && n !in p.models.purposes
        ensures PurposeDeclared(names, groups, base.models.purposes[n])
      {
        assert v.models.purposes[n] == base.models.purposes[n];
      }
    }
  }

  /* ---- What a base cannot move ---- */

  /** The user's document settles every slot of this purpose. */
  predicate Settled(personal: string -> bool, p: Parsed, purpose: Name)
    requires p.models.defaults.Some?
  {
    var row, d := RowAt(p.models, purpose), p.models.defaults.value;
    && (purpose in p.models.purposes || personal(purpose))
    && (PinsModel(row) || row.group.Some? || !d.model.Inherit?)
    && (PinsEffort(row) || !d.effort.InheritEffort?)
  }

  lemma SettledResolves(g: Grammar, personal: string -> bool, base: Base, p: Parsed, purpose: Name)
    requires Coherent(g, p) && BaseSound(personal, base) && Settled(personal, p, purpose)
    ensures ResolvePurpose(Composed(base, Some(p)).models, purpose) == ResolvePurpose(p.models, purpose)
  {
    hide ModelDeclared, ChainDeclared, ConnectionSound, DefaultsDeclared;
    var v := Composed(base, Some(p));
    assert RowAt(v.models, purpose) == RowAt(p.models, purpose);
    if purpose in p.models.purposes {
      assert PurposeDeclared(p.connections.Keys, p.models.groups.Keys, p.models.purposes[purpose]);
    }
  }

  /** A base of two defaults and, when the name is its to bind, one row. */
  function Probe(purpose: Name, bound: bool, model: ModelAssign, effort: EffortAssign): Base {
    Base(None, None, None,
         Models(Some(Defaults(model, effort, Off)), map[],
                if bound then map[purpose := Purpose(None, None, Some(effort), None, None, None)] else map[]))
  }

  lemma ProbeAccepted(g: Grammar, personal: string -> bool, p: Parsed, purpose: Name, bound: bool, model: ModelAssign,
                      effort: EffortAssign)
    requires Coherent(g, p) && (bound ==> !personal(purpose)) && ModelNames(model) == []
    ensures Accepts(personal, Probe(purpose, bound, model, effort), Some(p))
  {
    hide ConnectionSound;
    AcceptedAdditions(g, personal, Probe(purpose, bound, model, effort), p);
  }

  /** A purpose resolves the same under every accepted base exactly when the user's
      document settles it. */
  lemma SettledExact(g: Grammar, personal: string -> bool, p: Parsed, purpose: Name)
    requires Coherent(g, p)
    ensures Settled(personal, p, purpose) <==>
              forall a, b :: Accepts(personal, a, Some(p)) && Accepts(personal, b, Some(p)) ==>
                ResolvePurpose(Composed(a, Some(p)).models, purpose) == ResolvePurpose(Composed(b, Some(p)).models, purpose)
  {
    hide ReferencesHold, ConnectionSound;
    if Settled(personal, p, purpose) {
      forall a, b | Accepts(personal, a, Some(p)) && Accepts(personal, b, Some(p))
        ensures ResolvePurpose(Composed(a, Some(p)).models, purpose) == ResolvePurpose(Composed(b, Some(p)).models, purpose)
      {
        SettledResolves(g, personal, a, p, purpose);
        SettledResolves(g, personal, b, p, purpose);
      }
    } else {
      var bound := purpose !in p.models.purposes && !personal(purpose);
      var a := Probe(purpose, bound, Inherit, AutoEffort);
      var b := Probe(purpose, bound, Auto(None), FixedEffort(High));
      ProbeAccepted(g, personal, p, purpose, bound, Inherit, AutoEffort);
      ProbeAccepted(g, personal, p, purpose, bound, Auto(None), FixedEffort(High));
      ProbesDiffer(g, personal, p, purpose);
    }
  }

  lemma ProbesDiffer(g: Grammar, personal: string -> bool, p: Parsed, purpose: Name)
    requires Coherent(g, p) && !Settled(personal, p, purpose)
    ensures var bound := purpose !in p.models.purposes && !personal(purpose);
            ResolvePurpose(Composed(Probe(purpose, bound, Inherit, AutoEffort), Some(p)).models, purpose) !=
            ResolvePurpose(Composed(Probe(purpose, bound, Auto(None), FixedEffort(High)), Some(p)).models, purpose)
  {
    hide ModelDeclared, ChainDeclared, ConnectionSound, DefaultsDeclared;
    if purpose in p.models.purposes {
      assert PurposeDeclared(p.connections.Keys, p.models.groups.Keys, p.models.purposes[purpose]);
    }
  }

  /* ---- `inherit` ---- */

  /** Some name is longer than every name of a finite set. */
  lemma {:induction false} NameOutside(names: set<Name>) returns (longest: Name)
    ensures forall n :: n in names ==> |n| < |longest|
    decreases names
  {
    longest := ".";
    if names != {} {
      var n :| n in names;
      var rest := NameOutside(names - {n});
      longest := rest + n + ".";
    }
  }

  /** Every purpose resolves past `inherit` exactly when the defaults do and no
      unpinned row is bound to a group that says it: a group is the one layer that
      does not resolve through to the next. */
  lemma NothingInherits(m: Models)
    requires m.defaults.Some?
    requires forall n :: n in m.purposes && m.purposes[n].group.Some? ==> m.purposes[n].group.value in m.groups
    ensures (forall purpose :: !ResolvePurpose(m, purpose).value.model.Inherit?) <==>
              && !m.defaults.value.model.Inherit?
              && (forall n :: n in m.purposes && !PinsModel(m.purposes[n]) && m.purposes[n].group.Some? ==>
                    !m.groups[m.purposes[n].group.value].Inherit?)
  {
    var outside := NameOutside(m.purposes.Keys);
    assert outside !in m.purposes;
    assert ResolvePurpose(m, outside).value.model == m.defaults.value.model;
    if forall purpose :: !ResolvePurpose(m, purpose).value.model.Inherit? {
      forall n | n in m.purposes && !PinsModel(m.purposes[n]) && m.purposes[n].group.Some?
        ensures !m.groups[m.purposes[n].group.value].Inherit?
      {
        assert !ResolvePurpose(m, n).value.model.Inherit?;
      }
    }
  }

  /** A purpose bound to a group that inherits, under defaults that do not. */
  lemma GroupInheritIsReturned(group: Name, purpose: Name, fallback: FallbackAssign)
    ensures var row := Purpose(Some(group), None, None, None, None, None);
            var m := Models(Some(Defaults(Auto(None), AutoEffort, fallback)), map[group := Inherit], map[purpose := row]);
            && ResolvePurpose(m, purpose).Ok? && ResolvePurpose(m, purpose).value.model == Inherit
            && (forall names: set<Name> :: ChainDeclared(names, fallback) ==> ReferencesHold(names, m))
  {
  }
}
