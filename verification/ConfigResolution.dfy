/** What an edit of the user's document does to the composed view (src/config.rs):
    resolution answers what was written, from the layer it was written in. */
module ConfigResolution {
  import opened Wrappers
  import opened ConfigSchema
  import opened KeyAddress
  import opened ConfigEdit
  import opened ConfigEditValid
  import opened ConfigLayers

  /** The view a purpose resolves on. */
  function ViewOver(base: Base, p: Parsed): Models {
    Composed(base, Some(p)).models
  }

  function ResolvedOver(base: Base, p: Parsed, purpose: Name): Resolved
    requires ResolvePurpose(ViewOver(base, p), purpose).Ok?
  {
    ResolvePurpose(ViewOver(base, p), purpose).value
  }

  /** Over a valid document every purpose the user binds resolves. */
  lemma UserRowResolves(g: Grammar, base: Base, p: Parsed, purpose: Name)
    requires Coherent(g, p) && purpose in p.models.purposes
    ensures ResolvePurpose(ViewOver(base, p), purpose).Ok?
    ensures RowAt(ViewOver(base, p), purpose) == p.models.purposes[purpose]
    ensures var row := p.models.purposes[purpose]; row.group.Some? ==> row.group.value in p.models.groups
  {
    hide ModelDeclared, ChainDeclared, ConnectionSound, DefaultsDeclared;
    assert PurposeDeclared(p.connections.Keys, p.models.groups.Keys, p.models.purposes[purpose]);
  }

  /** The default a slot falls back to: the user's, or the base's where the user
      defers to it. */
  predicate IsComposedDefault(base: Base, p: Parsed, d: Defaults) {
    p.models.defaults.Some? &&
      var user := p.models.defaults.value;
      && (user.model != Inherit ==> d.model == user.model)
      && (user.effort != InheritEffort ==> d.effort == user.effort)
      && d.fallback == user.fallback
      && (base.models.defaults == None ==> d == user)
      && (base.models.defaults.Some? && user.model == Inherit ==> d.model == base.models.defaults.value.model)
      && (base.models.defaults.Some? && user.effort == InheritEffort ==> d.effort == base.models.defaults.value.effort)
  }

  /* ---- A purpose's own slots ---- */

  /** What an assigned purpose slot resolves to: the value from its own row, unless
      the value itself defers. */
  predicate AnswersFor(t: EditTarget, v: Value, r: Resolved) {
    && (t.PurposeModel? && v.Model? && v.model != Inherit ==> r.model == v.model && r.modelSource == PurposeRow)
    && (t.PurposeEffort? && v.Effort? && v.effort != InheritEffort ==> r.effort == v.effort && r.effortSource == PurposeRow)
    && (t.PurposeFallback? && v.Fallback? ==> r.fallback == v.fallback && r.fallbackSource == PurposeRow)
  }

  /** The slots an edit of one slot leaves alone. */
  predicate OthersAlike(t: EditTarget, r: Resolved, was: Resolved) {
    && (!t.PurposeModel? ==> r.model == was.model && r.modelSource == was.modelSource)
    && (!t.PurposeEffort? ==> r.effort == was.effort && r.effortSource == was.effortSource)
    && (!t.PurposeFallback? ==> r.fallback == was.fallback && r.fallbackSource == was.fallbackSource)
  }

  function RowWith(t: EditTarget, v: Value, row: Purpose): Purpose
    requires Fits(t, v) && (t.PurposeModel? || t.PurposeEffort? || t.PurposeFallback?)
  {
    if t.PurposeModel? then row.(model := Some(v.model))
    else if t.PurposeEffort? then row.(effort := Some(v.effort))
    else row.(fallback := Some(v.fallback))
  }

  lemma AssignedRow(base: Base, p: Parsed, t: EditTarget, v: Value)
    requires Assignable(p, t, v) && p.models.defaults.Some?
    requires t.PurposeModel? || t.PurposeEffort? || t.PurposeFallback?
    ensures var q := Assigned(p, t, v);
            && t.name in q.models.purposes && q.models.purposes[t.name] == RowWith(t, v, PurposeAt(p, t.name))
            && ViewOver(base, q).defaults == ViewOver(base, p).defaults
            && ViewOver(base, q).groups == ViewOver(base, p).groups
  {
  }

  lemma RowAnswers(m: Models, t: EditTarget, v: Value, row: Purpose)
    requires Fits(t, v) && (t.PurposeModel? || t.PurposeEffort? || t.PurposeFallback?)
    requires ResolvePurpose(m, t.name).Ok? && RowAt(m, t.name) == RowWith(t, v, row)
    ensures AnswersFor(t, v, ResolvePurpose(m, t.name).value)
  {
  }

  lemma AnswersAlike(m: Models, n: Models, t: EditTarget, v: Value)
    requires Fits(t, v) && (t.PurposeModel? || t.PurposeEffort? || t.PurposeFallback?)
    requires m.defaults == n.defaults && m.groups == n.groups
    requires ResolvePurpose(m, t.name).Ok? && ResolvePurpose(n, t.name).Ok?
    requires RowAt(n, t.name) == RowWith(t, v, RowAt(m, t.name))
    ensures AnswersFor(t, v, ResolvePurpose(n, t.name).value)
    ensures OthersAlike(t, ResolvePurpose(n, t.name).value, ResolvePurpose(m, t.name).value)
  {
    RowAnswers(n, t, v, RowAt(m, t.name));
    hide AnswersFor;
  }

  lemma AssignedResolves(g: Grammar, base: Base, p: Parsed, t: EditTarget, v: Value)
    requires Coherent(g, p) && Assignable(p, t, v) && Coherent(g, Assigned(p, t, v))
    requires t.PurposeModel? || t.PurposeEffort? || t.PurposeFallback?
    ensures ResolvePurpose(ViewOver(base, Assigned(p, t, v)), t.name).Ok?
    ensures AnswersFor(t, v, ResolvedOver(base, Assigned(p, t, v), t.name))
    ensures t.name in p.models.purposes ==>
              && ResolvePurpose(ViewOver(base, p), t.name).Ok?
              && OthersAlike(t, ResolvedOver(base, Assigned(p, t, v), t.name), ResolvedOver(base, p, t.name))
  {
    CoherentConnections(g, p);
    hide Coherent, Assigned, ViewOver, ResolvePurpose, AnswersFor, OthersAlike, RowWith;
    AssignedRow(base, p, t, v);
    UserRowResolves(g, base, Assigned(p, t, v), t.name);
    if t.name in p.models.purposes {
      UserRowResolves(g, base, p, t.name);
      AnswersAlike(ViewOver(base, p), ViewOver(base, Assigned(p, t, v)), t, v);
    } else {
      RowAnswers(ViewOver(base, Assigned(p, t, v)), t, v, PurposeAt(p, t.name));
    }
  }

  /** After an accepted `set` of a purpose's model, effort or fallback the purpose
      resolves under every base to that value from its own row, and a row that was
      there resolves as before in its other slots. */
  lemma SetPurposeResolves(g: Grammar, base: Base, doc: Item, p: Parsed, key: string, t: EditTarget, v: Value)
    requires DocumentOf(g, doc) == Some(p) && TargetOf(key) == Ok(t)
    requires SetDocument(g, Some(doc), key, v).Ok?
    requires t.PurposeModel? || t.PurposeEffort? || t.PurposeFallback?
    ensures var edited := DocumentOf(g, SetDocument(g, Some(doc), key, v).value);
            && edited.Some? && ResolvePurpose(ViewOver(base, edited.value), t.name).Ok?
            && AnswersFor(t, v, ResolvedOver(base, edited.value, t.name))
            && (t.name in p.models.purposes ==>
                  && ResolvePurpose(ViewOver(base, p), t.name).Ok?
                  && OthersAlike(t, ResolvedOver(base, edited.value, t.name), ResolvedOver(base, p, t.name)))
  {
    hide SectionsOf, TargetOf, SetDocument, Coherent, Resolves, Assigned, AnswersFor, OthersAlike, ViewOver;
    SetIsExact(g, doc, p, key, v);
    AssignedResolves(g, base, p, t, v);
  }

  /** After the matching `reset` a model resolves to its group's, or without one to
      the composed default; effort and fallback to the composed default. */
  lemma ResetPurposeResolves(g: Grammar, base: Base, doc: Item, p: Parsed, key: string, t: EditTarget)
    requires DocumentOf(g, doc) == Some(p) && TargetOf(key) == Ok(t)
    requires t.PurposeModel? || t.PurposeEffort? || t.PurposeFallback?
    requires t.name in p.models.purposes
    ensures ResetDocument(g, Some(doc), key).Ok?
    ensures var edited := DocumentOf(g, ResetDocument(g, Some(doc), key).value);
            && edited.Some? && ResolvePurpose(ViewOver(base, edited.value), t.name).Ok?
            && ViewOver(base, edited.value).defaults.Some?
            && IsComposedDefault(base, p, ViewOver(base, edited.value).defaults.value)
            && var r, d := ResolvedOver(base, edited.value, t.name), ViewOver(base, edited.value).defaults.value;
               var group := p.models.purposes[t.name].group;
               && (t.PurposeModel? ==>
                     if group.Some? then
                       group.value in p.models.groups && r.model == p.models.groups[group.value]
                       && r.modelSource == GroupRow(group.value)
                     else r.model == d.model && r.modelSource == DefaultRow)
               && (t.PurposeEffort? ==> r.effort == d.effort && r.effortSource == DefaultRow)
               && (t.PurposeFallback? ==> r.fallback == d.fallback && r.fallbackSource == DefaultRow)
  {
    hide SectionsOf, TargetOf, ResetDocument, Coherent;
    ResetIsExact(g, doc, p, key);
    var q := Cleared(p, t);
    assert p.models.defaults.Some? by { CoherentConnections(g, p); }
    UserRowResolves(g, base, q, t.name);
    UserRowResolves(g, base, p, t.name);
  }

  /** A value that defers resolves as if it were not there. */
  lemma DeferringIsAbsent(m: Models, purpose: Name, row: Purpose)
    requires purpose in m.purposes
    ensures var with := m.(purposes := m.purposes[purpose := row.(model := Some(Inherit), effort := Some(InheritEffort))]);
            var without := m.(purposes := m.purposes[purpose := row.(model := None, effort := None)]);
            ResolvePurpose(with, purpose) == ResolvePurpose(without, purpose)
  {
  }

  /* ---- The layers beneath ---- */

  /** After an accepted `set` of a group's model every purpose the user binds to the
      group and pins no model for resolves to it, from the group. */
  lemma SetGroupResolves(g: Grammar, base: Base, doc: Item, p: Parsed, key: string, group: Name, model: ModelAssign, purpose: Name)
    requires DocumentOf(g, doc) == Some(p) && TargetOf(key) == Ok(GroupModel(group))
    requires SetDocument(g, Some(doc), key, Model(model)).Ok?
    requires purpose in p.models.purposes && p.models.purposes[purpose].group == Some(group)
    requires p.models.purposes[purpose].model == None || p.models.purposes[purpose].model == Some(Inherit)
    ensures var edited := DocumentOf(g, SetDocument(g, Some(doc), key, Model(model)).value);
            && edited.Some? && ResolvePurpose(ViewOver(base, edited.value), purpose).Ok?
            && ResolvedOver(base, edited.value, purpose).model == model
            && ResolvedOver(base, edited.value, purpose).modelSource == GroupRow(group)
  {
    hide SectionsOf, TargetOf, SetDocument, Coherent, Resolves;
    SetIsExact(g, doc, p, key, Model(model));
    UserRowResolves(g, base, Assigned(p, GroupModel(group), Model(model)), purpose);
  }

  /** After an accepted `set` of a default every purpose neither layer binds resolves
      to it from the defaults, or to the base's where the value defers to it. */
  lemma SetDefaultResolves(g: Grammar, base: Base, doc: Item, p: Parsed, key: string, t: EditTarget, v: Value, purpose: Name)
    requires DocumentOf(g, doc) == Some(p) && TargetOf(key) == Ok(t)
    requires t.DefaultsModel? || t.DefaultsEffort? || t.DefaultsFallback?
    requires SetDocument(g, Some(doc), key, v).Ok?
    requires purpose !in p.models.purposes && purpose !in base.models.purposes
    ensures var edited := DocumentOf(g, SetDocument(g, Some(doc), key, v).value);
            && edited.Some? && ResolvePurpose(ViewOver(base, edited.value), purpose).Ok?
            && ViewOver(base, edited.value).defaults.Some?
            && IsComposedDefault(base, edited.value, ViewOver(base, edited.value).defaults.value)
            && var r, d := ResolvedOver(base, edited.value, purpose), ViewOver(base, edited.value).defaults.value;
               && r == Resolved(d.model, DefaultRow, d.effort, DefaultRow, d.fallback, DefaultRow)
               && (t.DefaultsModel? && v.Model? && v.model != Inherit ==> r.model == v.model)
               && (t.DefaultsEffort? && v.Effort? && v.effort != InheritEffort ==> r.effort == v.effort)
               && (t.DefaultsFallback? && v.Fallback? ==> r.fallback == v.fallback)
  {
    hide SectionsOf, TargetOf, SetDocument, Coherent, Resolves;
    SetIsExact(g, doc, p, key, v);
  }

  /** A purpose only the base binds resolves by the base's row. */
  lemma BaseRowResolves(base: Base, p: Parsed, purpose: Name)
    requires purpose in base.models.purposes && purpose !in p.models.purposes
    ensures RowAt(ViewOver(base, p), purpose) == base.models.purposes[purpose]
    ensures ResolvePurpose(ViewOver(base, p), purpose).Ok? ==>
              var row, r := base.models.purposes[purpose], ResolvedOver(base, p, purpose);
              && (row.model.Some? && row.model.value != Inherit ==> r.model == row.model.value && r.modelSource == PurposeRow)
              && (row.effort.Some? && row.effort.value != InheritEffort ==>
                    r.effort == row.effort.value && r.effortSource == PurposeRow)
              && (row.fallback.Some? ==> r.fallback == row.fallback.value && r.fallbackSource == PurposeRow)
  {
  }

  /* ---- The three flags ---- */

  /** After an accepted `set` of a flag the composed view holds it under every base,
      and after its `reset` the base's own value. */
  lemma FlagsCompose(g: Grammar, base: Base, doc: Item, p: Parsed, key: string, t: EditTarget, v: Value)
    requires DocumentOf(g, doc) == Some(p) && TargetOf(key) == Ok(t)
    requires t.WorkflowEnabled? || t.DecisionsMode? || t.ContextAutoCompact?
    requires SetDocument(g, Some(doc), key, v).Ok?
    ensures ResetDocument(g, Some(doc), key).Ok?
    ensures var set_ := DocumentOf(g, SetDocument(g, Some(doc), key, v).value);
            var reset := DocumentOf(g, ResetDocument(g, Some(doc), key).value);
            && set_.Some? && reset.Some?
            && var on, off := Composed(base, set_), Composed(base, reset);
               match t
               case WorkflowEnabled => v.Flag? && on.workflow == Some(v.on) && off.workflow == base.workflow
               case DecisionsMode => v.Decision? && on.decisions == Some(v.mode) && off.decisions == base.decisions
               case ContextAutoCompact => v.Flag? && on.autoCompact == Some(v.on) && off.autoCompact == base.autoCompact
  {
    hide SectionsOf, TargetOf, SetDocument, ResetDocument, Coherent, Resolves, ComposeModels;
    SetIsExact(g, doc, p, key, v);
    ResetIsExact(g, doc, p, key);
  }

  /* ---- Acceptance ---- */

  /** A base over a document is accepted exactly when the document is valid and what
      the base adds resolves against it; over none, when it resolves by itself. */
  lemma EffectiveExact(g: Grammar, personal: string -> bool, base: Base, doc: Option<Item>)
    ensures match doc
            case None =>
              ResolveEffective(g, personal, base, None) ==
              if BaseSound(personal, base) && ReferencesHold({}, base.models) then Some(Composed(base, None)) else None
            case Some(item) =>
              ResolveEffective(g, personal, base, doc) ==
              if DocumentOf(g, item).Some? && Accepts(personal, base, DocumentOf(g, item))
              then Some(Composed(base, DocumentOf(g, item))) else None
  {
    hide DocumentOf, ReferencesHold;
    LayersStack(NoModels, NoModels, base.models);
    assert Composed(base, None).models == base.models;
    assert Composed(base, None).connections.Keys == {};
  }
}
