/** What each slot of the document takes, which slots may be left out, and why an
    edit is refused (src/config.rs). */
module ConfigEditSlots {
  import opened Wrappers
  import opened ConfigSchema
  import opened KeyAddress
  import opened ConfigEdit
  import opened ConfigEditProofs
  import opened ConfigEditValid

  /* ---- One kind of value a slot ---- */

  predicate SameKind(v: Value, u: Value) {
    match v
    case Flag(_) => u.Flag?
    case Decision(_) => u.Decision?
    case Model(_) => u.Model?
    case Effort(_) => u.Effort?
    case Fallback(_) => u.Fallback?
    case Names(_) => u.Names?
    case Plain(_) => u.Plain?
  }

  /** A value of the kind the slot's reader answers. */
  function Sample(t: EditTarget): Value {
    match t
    case WorkflowEnabled => Flag(true)
    case ContextAutoCompact => Flag(true)
    case DecisionsMode => Decision(Ask)
    case DefaultsModel => Model(Inherit)
    case GroupModel(_) => Model(Inherit)
    case PurposeModel(_) => Model(Inherit)
    case DefaultsEffort => Effort(AutoEffort)
    case PurposeEffort(_) => Effort(AutoEffort)
    case DefaultsFallback => Fallback(Off)
    case PurposeFallback(_) => Fallback(Off)
    case PurposeEligible(_) => Names([])
    case ConnectionRegion(_) => Plain("")
    case ConnectionProfile(_) => Plain("")
    case ProfileCredentialRef(_) => Plain("")
  }

  /** Every slot takes one kind of value, all of that kind and no other. */
  lemma EachSlotTakesOneKind(t: EditTarget, v: Value)
    ensures Fits(t, v) <==> SameKind(Sample(t), v)
  {
  }

  /* ---- Slots that may be left out ---- */

  lemma NoDefaultsField(d: Item, field: string)
    requires field in {"model", "effort", "fallback"} && d.Table?
    ensures DefaultsOf(Table(d.fields - {field})) == None
  {
    hide ModelOf, EffortOf, FallbackOf;
  }

  lemma NoGroupModel(row: Item)
    requires row.Table?
    ensures GroupOf(Table(row.fields - {"model"})) == None
  {
  }

  lemma UnreadableModels(g: Grammar, doc: Item)
    requires doc.Table? && "models" in doc.fields && ModelsOf(doc.fields["models"]) == None
    ensures SectionsOf(g, doc) == None
  {
    hide ModelsOf, ConnectionRows, ProfileRows, Single;
  }

  lemma UnreadableDefaults(models: Item)
    requires models.Table? && "defaults" in models.fields && DefaultsOf(models.fields["defaults"]) == None
    ensures ModelsOf(models) == None
  {
    hide DefaultsOf, GroupRows, PurposeRows;
  }

  lemma UnreadableGroup(models: Item, name: Name)
    requires models.Table? && "groups" in models.fields && models.fields["groups"].Table?
    requires name in models.fields["groups"].fields && GroupOf(models.fields["groups"].fields[name]) == None
    ensures ModelsOf(models) == None
  {
    hide DefaultsOf, GroupOf, PurposeRows;
    assert GroupRows(models.fields["groups"]) == None;
  }

  lemma LookupStep(node: Item, path: seq<string>)
    requires path != [] && Lookup(node, path).Some?
    ensures node.Table? && path[0] in node.fields && Lookup(node.fields[path[0]], path[1..]) == Lookup(node, path)
  {
  }

  /** A default slot that is there cannot be taken away. */
  lemma DefaultIsRequired(g: Grammar, doc: Item, field: string)
    requires field in {"model", "effort", "fallback"}
    requires Lookup(doc, ["models", "defaults", field]).Some?
    ensures SectionsOf(g, RemoveAt(doc, ["models", "defaults"], field)) == None
  {
    hide ModelsOf, DefaultsOf, SectionsOf;
    var path := ["models", "defaults", field];
    assert path[1..] == ["defaults", field] && path[1..][1..] == [field];
    LookupStep(doc, path);
    LookupStep(doc.fields["models"], path[1..]);
    var models := doc.fields["models"];
    LookupStep(models.fields["defaults"], [field]);
    NoDefaultsField(models.fields["defaults"], field);
    RemoveAtOne(models, "defaults", field);
    UnreadableDefaults(RemoveAt(models, ["defaults"], field));
    RemoveAtStep(doc, "models", ["defaults"], field);
    assert ["models"] + ["defaults"] == ["models", "defaults"];
    UnreadableModels(g, RemoveAt(doc, ["models", "defaults"], field));
  }

  /** Nor can a group's model. */
  lemma GroupModelIsRequired(g: Grammar, doc: Item, name: Name)
    requires Lookup(doc, ["models", "groups", name, "model"]).Some?
    ensures SectionsOf(g, RemoveAt(doc, ["models", "groups", name], "model")) == None
  {
    hide ModelsOf, GroupOf, SectionsOf;
    var path := ["models", "groups", name, "model"];
    assert path[1..] == ["groups", name, "model"] && path[1..][1..] == [name, "model"] && path[1..][1..][1..] == ["model"];
    LookupStep(doc, path);
    var models := doc.fields["models"];
    LookupStep(models, path[1..]);
    var groups := models.fields["groups"];
    LookupStep(groups, path[1..][1..]);
    LookupStep(groups.fields[name], ["model"]);
    NoGroupModel(groups.fields[name]);
    RemoveAtOne(groups, name, "model");
    RemoveAtStep(models, "groups", [name], "model");
    assert ["groups"] + [name] == ["groups", name] && ["models"] + ["groups", name] == ["models", "groups", name];
    UnreadableGroup(RemoveAt(models, ["groups", name], "model"), name);
    RemoveAtStep(doc, "models", ["groups", name], "model");
    UnreadableModels(g, RemoveAt(doc, ["models", "groups", name], "model"));
  }

  lemma ConnectionAt(g: Grammar, doc: Item, p: Parsed, name: Name, field: string)
    requires SectionsOf(g, doc) == Some(p) && Lookup(doc, ["connections", name, field]).Some?
    ensures name in p.connections
  {
    hide SectionsOf, ModelsOf, ConnectionOf, ConnectionRows, ProfileRows, Single, Lookup;
    var path := ["connections", name, field];
    assert path[1..] == [name, field];
    LookupStep(doc, path);
    LookupStep(doc.fields["connections"], path[1..]);
    SectionFacts(g, doc, p);
    ConnectionRowFacts(g, doc.fields["connections"], p.connections);
  }

  /** A slot of a valid document may be reset exactly when the document is valid
      without it: the overrides are the optional slots and no others. */
  lemma OverrideExact(g: Grammar, doc: Item, p: Parsed, t: EditTarget)
    requires DocumentOf(g, doc) == Some(p) && Lookup(doc, Spelled(t)).Some?
    ensures IsOverride(t) <==> DocumentOf(g, Removed(doc, t)).Some?
  {
    hide SectionsOf, Coherent, Lookup, RemoveAt, Cleared;
    match t {
      case DefaultsModel =>
        assert Spelled(t) == ["models", "defaults", "model"];
        DefaultIsRequired(g, doc, "model");
      case DefaultsEffort =>
        assert Spelled(t) == ["models", "defaults", "effort"];
        DefaultIsRequired(g, doc, "effort");
      case DefaultsFallback =>
        assert Spelled(t) == ["models", "defaults", "fallback"];
        DefaultIsRequired(g, doc, "fallback");
      case GroupModel(name) =>
        assert Spelled(t) == ["models", "groups", name, "model"];
        GroupModelIsRequired(g, doc, name);
      case ConnectionRegion(name) =>
        assert Spelled(t) == ["connections", name, "region"];
        ConnectionAt(g, doc, p, name, "region");
        OverrideLeaves(g, doc, p, t);
      case ConnectionProfile(name) =>
        assert Spelled(t) == ["connections", name, "profile"];
        ConnectionAt(g, doc, p, name, "profile");
        OverrideLeaves(g, doc, p, t);
      case WorkflowEnabled => OverrideLeaves(g, doc, p, t);
      case DecisionsMode => OverrideLeaves(g, doc, p, t);
      case ContextAutoCompact => OverrideLeaves(g, doc, p, t);
      case PurposeModel(_) => OverrideLeaves(g, doc, p, t);
      case PurposeEffort(_) => OverrideLeaves(g, doc, p, t);
      case PurposeFallback(_) => OverrideLeaves(g, doc, p, t);
      case PurposeEligible(_) => OverrideLeaves(g, doc, p, t);
      case ProfileCredentialRef(_) => OverrideLeaves(g, doc, p, t);
    }
  }

  lemma OverrideLeaves(g: Grammar, doc: Item, p: Parsed, t: EditTarget)
    requires DocumentOf(g, doc) == Some(p) && IsOverride(t)
    requires t.ConnectionRegion? || t.ConnectionProfile? ==> t.name in p.connections
    ensures DocumentOf(g, Removed(doc, t)) == Some(Cleared(p, t))
  {
    hide SectionsOf, Coherent, Removed, Cleared;
    ResetSections(g, doc, p, t);
    ClearingKeepsCoherence(g, p, t);
  }

  /* ---- Refusals ---- */

  /** An edit meets something that is not a table exactly at a step of its path
      that is there and is none. */
  lemma {:induction false} SetAtExact(node: Item, path: seq<string>, field: string, item: Item)
    ensures SetAt(node, path, field, item) == None <==>
            exists k :: 0 <= k <= |path| && Lookup(node, path[..k]).Some? && !Lookup(node, path[..k]).value.Table?
    decreases |path|
  {
    assert path[..0] == [];
    if node.Table? && path != [] {
      var child := if path[0] in node.fields then node.fields[path[0]] else Table(map[]);
      SetAtExact(child, path[1..], field, item);
      forall k | 0 < k <= |path|
        ensures path[..k][0] == path[0] && path[..k][1..] == path[1..][..k - 1]
        ensures Lookup(node, path[..k]) ==
                if path[0] in node.fields then Lookup(node.fields[path[0]], path[1..][..k - 1]) else None
      {
      }
      if path[0] in node.fields {
        if k :| 0 <= k <= |path[1..]| && Lookup(child, path[1..][..k]).Some? && !Lookup(child, path[1..][..k]).value.Table? {
          var j := k + 1;
          assert Lookup(node, path[..j]) == Lookup(child, path[1..][..k]);
        }
      } else {
        forall k | 0 <= k <= |path[1..]|
          ensures Lookup(child, path[1..][..k]).Some? ==> Lookup(child, path[1..][..k]).value.Table?
        {
        }
      }
    }
  }

  /** Why a `set` on a valid document is refused: its key, the kind of its value, a
      connection that is not declared, or a name that does not resolve; never for
      the shape of the document. */
  lemma SetRefusalExact(g: Grammar, doc: Item, p: Parsed, key: string, v: Value)
    requires DocumentOf(g, doc) == Some(p)
    ensures var r := SetDocument(g, Some(doc), key, v);
            match TargetOf(key)
            case Err(cause) => r == Err(BadKey(cause))
            case Ok(t) =>
              var undeclared := (t.ConnectionRegion? || t.ConnectionProfile?) && t.name !in p.connections;
              && (r == Err(TypeMismatch) <==> !SameKind(Sample(t), v))
              && (r == Err(UnknownConnection) <==> SameKind(Sample(t), v) && undeclared)
              && (r == Err(Rejected) <==> SameKind(Sample(t), v) && !undeclared && !Resolves(g, p, t, v))
              && r != Err(NotATable) && r != Err(NoRetainedDocument) && r != Err(NotResettable)
  {
    hide SectionsOf, SetAt, TargetPath, TargetValid, Lookup, Assigned, SlotSound, TargetOf, Resolves, ConnectionDeclared;
    hide ReferencesHold, ConnectionSound, Sample;
    if TargetOf(key).Ok? {
      var t := TargetOf(key).value;
      EachSlotTakesOneKind(t, v);
      DeclaredExact(g, doc, p, t);
      if Assignable(p, t, v) {
        EditFindsTables(g, doc, p, t, v);
        AcceptedIsResolved(g, doc, p, t, v);
      }
    }
  }

  /** And a `reset`: its key, a slot no document can be without, or a connection
      that is not declared. */
  lemma ResetRefusalExact(g: Grammar, doc: Item, p: Parsed, key: string)
    requires DocumentOf(g, doc) == Some(p)
    ensures var r := ResetDocument(g, Some(doc), key);
            match TargetOf(key)
            case Err(cause) => r == Err(BadKey(cause))
            case Ok(t) =>
              var undeclared := (t.ConnectionRegion? || t.ConnectionProfile?) && t.name !in p.connections;
              && (r == Err(NotResettable) <==> !IsOverride(t))
              && (r == Err(UnknownConnection) <==> IsOverride(t) && undeclared)
              && (r.Ok? <==> IsOverride(t) && !undeclared)
  {
    hide SectionsOf, RemoveAt, TargetPath, Cleared, TargetOf, ConnectionDeclared, Coherent, TargetValid;
    ResetIsExact(g, doc, p, key);
    CoherentConnections(g, p);
    if TargetOf(key).Ok? {
      DeclaredExact(g, doc, p, TargetOf(key).value);
    }
  }

  /** Without a retained document every well-addressed, well-typed edit is refused
      for that alone. */
  lemma NothingRetained(g: Grammar, key: string, v: Value)
    ensures SetDocument(g, None, key, v) == Err(NoRetainedDocument) <==>
            TargetOf(key).Ok? && SameKind(Sample(TargetOf(key).value), v)
    ensures ResetDocument(g, None, key) == Err(NoRetainedDocument) <==>
            TargetOf(key).Ok? && IsOverride(TargetOf(key).value)
    ensures SetDocument(g, None, key, v).Err? && ResetDocument(g, None, key).Err?
  {
    hide TargetOf;
    if TargetOf(key).Ok? {
      EachSlotTakesOneKind(TargetOf(key).value, v);
    }
  }
}
