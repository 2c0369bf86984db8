/** Targeted validation is exact: on a valid document the one-slot check of an
    edit and the whole-document check of its outcome agree. */
module ConfigEditValid {
  import opened Wrappers
  import opened ConfigSchema
  import opened KeyAddress
  import opened ConfigEdit
  import opened ConfigEditProofs

  function Removed(doc: Item, t: EditTarget): Item {
    RemoveAt(doc, TargetPath(t).0, TargetPath(t).1)
  }

  /** What `Assigned` needs of its view. */
  predicate Assignable(p: Parsed, t: EditTarget, v: Value) {
    && Fits(t, v)
    && p.models.defaults.Some?
    && (t.ConnectionRegion? || t.ConnectionProfile? ==> t.name in p.connections)
  }

  /* ---- Every accepted `set`, one section at a time ---- */

  lemma SetSections(g: Grammar, doc: Item, p: Parsed, t: EditTarget, v: Value)
    requires Assignable(p, t, v) && SectionsOf(g, doc) == Some(p)
    requires t.ProfileCredentialRef? ==> g.credential(v.text)
    ensures Edited(doc, t, v).Some? && SectionsOf(g, Edited(doc, t, v).value) == Some(Assigned(p, t, v))
  {
    hide SectionsOf, SetAt, Edited, Assigned;
    match t {
      case WorkflowEnabled => FlagSet(g, doc, p, t, v);
      case DecisionsMode => FlagSet(g, doc, p, t, v);
      case ContextAutoCompact => FlagSet(g, doc, p, t, v);
      case DefaultsModel => DefaultsSet(g, doc, p, t, v);
      case DefaultsEffort => DefaultsSet(g, doc, p, t, v);
      case DefaultsFallback => DefaultsSet(g, doc, p, t, v);
      case GroupModel(name) => GroupSet(g, doc, p, name, v.model);
      case PurposeModel(_) => PurposeSet(g, doc, p, t, v);
      case PurposeEffort(_) => PurposeSet(g, doc, p, t, v);
      case PurposeFallback(_) => PurposeSet(g, doc, p, t, v);
      case PurposeEligible(_) => PurposeSet(g, doc, p, t, v);
      case ConnectionRegion(_) => ConnectionSet(g, doc, p, t, v);
      case ConnectionProfile(_) => ConnectionSet(g, doc, p, t, v);
      case ProfileCredentialRef(name) => ProfileSet(g, doc, p, name, v.text);
    }
  }

  /* ---- Every `reset` ---- */

  lemma FlagReset(g: Grammar, doc: Item, p: Parsed, t: EditTarget)
    requires SectionsOf(g, doc) == Some(p)
    requires t.WorkflowEnabled? || t.DecisionsMode? || t.ContextAutoCompact?
    ensures SectionsOf(g, Removed(doc, t)) == Some(Cleared(p, t))
  {
    hide SectionsOf, ModelsOf, ConnectionRows, ProfileRows;
    SectionFacts(g, doc, p);
    var section, field := TargetPath(t).0[0], TargetPath(t).1;
    if section in doc.fields {
      RemoveAtOne(doc, section, field);
      var next := Table(doc.fields[section].fields - {field});
      match t {
        case WorkflowEnabled => WorkflowReplaced(g, doc, p, next, None);
        case DecisionsMode => DecisionsReplaced(g, doc, p, next, None);
        case ContextAutoCompact => ContextReplaced(g, doc, p, next, None);
      }
    } else {
      RemoveAtMissing(doc, section, [], field);
      assert [section] + [] == TargetPath(t).0;
    }
  }

  function PurposeWithout(row: Purpose, field: string): Purpose {
    if field == "model" then row.(model := None)
    else if field == "effort" then row.(effort := None)
    else if field == "fallback" then row.(fallback := None)
    else row.(eligible := None)
  }

  lemma PurposeRowReset(rows: Item, purposes: map<Name, Purpose>, name: Name, field: string)
    requires PurposeRows(rows) == Some(purposes) && field in {"model", "effort", "fallback", "eligible"}
    ensures PurposeRows(RemoveAt(rows, [name], field)) ==
            Some(if name in purposes then purposes[name := PurposeWithout(purposes[name], field)] else purposes)
  {
    hide PurposeOf;
    if name in purposes {
      var row := rows.fields[name];
      PurposeTable(row);
      PurposeFieldRemoved(row, purposes[name], field);
      RemoveAtOne(rows, name, field);
      RowsUpdate(rows.fields, PurposeOf, name, Table(row.fields - {field}), PurposeWithout(purposes[name], field));
    } else {
      RemoveAtMissing(rows, name, [], field);
      assert [name] + [] == [name];
    }
  }

  function PurposesWithout(purposes: map<Name, Purpose>, name: Name, field: string): map<Name, Purpose> {
    if name in purposes then purposes[name := PurposeWithout(purposes[name], field)] else purposes
  }

  lemma PurposesReset(models: Item, m: Models, name: Name, field: string)
    requires ModelsOf(models) == Some(m) && field in {"model", "effort", "fallback", "eligible"}
    ensures ModelsOf(RemoveAt(models, ["purposes", name], field)) ==
            Some(m.(purposes := PurposesWithout(m.purposes, name, field)))
  {
    hide ModelsOf, PurposeOf, PurposeWithout, Rows;
    ModelFacts(models, m);
    assert ["purposes"] + [name] == ["purposes", name];
    if "purposes" in models.fields {
      var rows := models.fields["purposes"];
      PurposeRowReset(rows, m.purposes, name, field);
      RemoveAtStep(models, "purposes", [name], field);
      PurposesReplaced(models, m, RemoveAt(rows, [name], field), PurposesWithout(m.purposes, name, field));
    } else {
      RemoveAtMissing(models, "purposes", [name], field);
      NoPurposeRows(m.purposes);
    }
  }

  lemma NoPurposeRows(purposes: map<Name, Purpose>)
    requires PurposeRows(Table(map[])) == Some(purposes)
    ensures purposes == map[]
  {
  }

  lemma PurposeReset(g: Grammar, doc: Item, p: Parsed, name: Name, field: string)
    requires SectionsOf(g, doc) == Some(p) && field in {"model", "effort", "fallback", "eligible"}
    ensures SectionsOf(g, RemoveAt(doc, ["models", "purposes", name], field)) ==
            Some(p.(models := p.models.(purposes := PurposesWithout(p.models.purposes, name, field))))
  {
    hide SectionsOf, ModelsOf, ConnectionRows, ProfileRows, PurposeOf, PurposeWithout, Rows, Single;
    SectionFacts(g, doc, p);
    EmptySections(g);
    assert ["models"] + ["purposes", name] == ["models", "purposes", name];
    if "models" in doc.fields {
      var models := doc.fields["models"];
      PurposesReset(models, p.models, name, field);
      RemoveAtStep(doc, "models", ["purposes", name], field);
      ModelsReplaced(g, doc, p, RemoveAt(models, ["purposes", name], field),
                     p.models.(purposes := PurposesWithout(p.models.purposes, name, field)));
    } else {
      RemoveAtMissing(doc, "models", ["purposes", name], field);
    }
  }

  lemma ConnectionRowReset(g: Grammar, rows: Item, connections: map<Name, Connection>, name: Name, field: string)
    requires ConnectionRows(g, rows) == Some(connections) && name in connections && field in {"region", "profile"}
    ensures ConnectionRows(g, RemoveAt(rows, [name], field)) ==
            Some(connections[name := ConnectionWith(connections[name], field, None)])
  {
    hide ConnectionOf, ConnectionRows;
    ConnectionRowFacts(g, rows, connections);
    ConnectionField(g, rows.fields[name], connections[name], field, "");
    RemoveAtOne(rows, name, field);
    ConnectionRowReplaced(g, rows, connections, name, Table(rows.fields[name].fields - {field}),
                          ConnectionWith(connections[name], field, None));
  }

  lemma ConnectionReset(g: Grammar, doc: Item, p: Parsed, name: Name, field: string)
    requires SectionsOf(g, doc) == Some(p) && name in p.connections && field in {"region", "profile"}
    ensures SectionsOf(g, RemoveAt(doc, ["connections", name], field)) ==
            Some(p.(connections := p.connections[name := ConnectionWith(p.connections[name], field, None)]))
  {
    hide SectionsOf, ModelsOf, ConnectionRows, ProfileRows, Single, ConnectionWith;
    SectionFacts(g, doc, p);
    EmptySections(g);
    var rows := doc.fields["connections"];
    ConnectionRowReset(g, rows, p.connections, name, field);
    RemoveAtStep(doc, "connections", [name], field);
    assert ["connections"] + [name] == ["connections", name];
    ConnectionsReplaced(g, doc, p, RemoveAt(rows, [name], field),
                        p.connections[name := ConnectionWith(p.connections[name], field, None)]);
  }

  lemma ProfileRowReset(g: Grammar, rows: Item, profiles: map<Name, Option<string>>, name: Name)
    requires ProfileRows(g, rows) == Some(profiles) && name in profiles
    ensures rows.Table? && ProfileRows(g, RemoveAt(rows, [name], "credential_ref")) == Some(profiles[name := None])
  {
    var row := rows.fields[name];
    assert ProfileOf(g, row).Some?;
    RemoveAtOne(rows, name, "credential_ref");
    ProfileRowReplaced(g, rows, profiles, name, Table(row.fields - {"credential_ref"}), None);
  }

  lemma NoProfileRow(g: Grammar, rows: Item, profiles: map<Name, Option<string>>, name: Name)
    requires ProfileRows(g, rows) == Some(profiles) && name !in profiles
    ensures RemoveAt(rows, [name], "credential_ref") == rows
  {
    RemoveAtMissing(rows, name, [], "credential_ref");
    assert [name] + [] == [name];
  }

  lemma ProfileReset(g: Grammar, doc: Item, p: Parsed, name: Name)
    requires SectionsOf(g, doc) == Some(p)
    ensures SectionsOf(g, RemoveAt(doc, ["profiles", name], "credential_ref")) ==
            Some(if name in p.profiles then p.(profiles := p.profiles[name := None]) else p)
  {
    hide SectionsOf, ModelsOf, ConnectionRows, ProfileRows, Single;
    SectionFacts(g, doc, p);
    EmptySections(g);
    assert ["profiles"] + [name] == ["profiles", name];
    if "profiles" in doc.fields {
      var rows := doc.fields["profiles"];
      RemoveAtStep(doc, "profiles", [name], "credential_ref");
      if name in p.profiles {
        ProfileRowReset(g, rows, p.profiles, name);
        ProfilesReplaced(g, doc, p, RemoveAt(rows, [name], "credential_ref"), p.profiles[name := None]);
      } else {
        NoProfileRow(g, rows, p.profiles, name);
        assert doc.fields["profiles" := rows] == doc.fields;
      }
    } else {
      RemoveAtMissing(doc, "profiles", [name], "credential_ref");
    }
  }

  lemma ResetSections(g: Grammar, doc: Item, p: Parsed, t: EditTarget)
    requires IsOverride(t) && (t.ConnectionRegion? || t.ConnectionProfile? ==> t.name in p.connections)
    requires SectionsOf(g, doc) == Some(p)
    ensures SectionsOf(g, Removed(doc, t)) == Some(Cleared(p, t))
  {
    hide SectionsOf, RemoveAt;
    ModelKeysDiffer();
    ConnectionKeysDiffer();
    match t {
      case WorkflowEnabled => FlagReset(g, doc, p, t);
      case DecisionsMode => FlagReset(g, doc, p, t);
      case ContextAutoCompact => FlagReset(g, doc, p, t);
      case PurposeModel(name) => PurposeReset(g, doc, p, name, "model");
      case PurposeEffort(name) => PurposeReset(g, doc, p, name, "effort");
      case PurposeFallback(name) => PurposeReset(g, doc, p, name, "fallback");
      case PurposeEligible(name) => PurposeReset(g, doc, p, name, "eligible");
      case ConnectionRegion(name) => ConnectionReset(g, doc, p, name, "region");
      case ConnectionProfile(name) => ConnectionReset(g, doc, p, name, "profile");
      case ProfileCredentialRef(name) => ProfileReset(g, doc, p, name);
    }
  }

  /* ---- Coherence is decided at the edited slot ---- */

  predicate SlotSound(p: Parsed, t: EditTarget, v: Value) {
    match v
    case Model(model) => ModelDeclared(p.connections.Keys, model)
    case Fallback(fallback) => ChainDeclared(p.connections.Keys, fallback)
    case Plain(text) => t.ConnectionProfile? ==> text in p.profiles
    case _ => true
  }

  lemma ModelsCoherence(g: Grammar, p: Parsed, t: EditTarget, v: Value)
    requires Assignable(p, t, v) && Coherent(g, p) && (v.Model? || v.Effort? || v.Fallback? || v.Names?)
    ensures Coherent(g, Assigned(p, t, v)) <==> SlotSound(p, t, v)
  {
    hide ModelDeclared, ChainDeclared, ConnectionSound;
    var q := Assigned(p, t, v);
    var names := p.connections.Keys;
    if t.GroupModel? {
      assert q.models.groups[t.name] == v.model;
      if SlotSound(p, t, v) {
        assert forall n :: n in q.models.purposes ==> PurposeDeclared(names, p.models.groups.Keys, q.models.purposes[n]);
      }
    } else if t.PurposeModel? || t.PurposeEffort? || t.PurposeFallback? || t.PurposeEligible? {
      assert PurposeDeclared(names, p.models.groups.Keys, PurposeAt(p, t.name));
      assert q.models.purposes[t.name] == Assigned(p, t, v).models.purposes[t.name];
    }
  }

  lemma RootsCoherence(g: Grammar, p: Parsed, t: EditTarget, v: Value)
    requires Assignable(p, t, v) && Coherent(g, p) && (v.Flag? || v.Decision? || v.Plain?)
    ensures Coherent(g, Assigned(p, t, v)) <==> SlotSound(p, t, v)
  {
    hide ReferencesHold;
    var q := Assigned(p, t, v);
    if t.ConnectionRegion? || t.ConnectionProfile? {
      assert q.connections.Keys == p.connections.Keys;
      assert ConnectionSound(g, p.profiles.Keys, t.name, p.connections[t.name]);
      assert q.connections[t.name].credentialRef == p.connections[t.name].credentialRef;
    } else if t.ProfileCredentialRef? {
      assert p.profiles.Keys <= q.profiles.Keys;
      forall n | n in q.connections
        ensures ConnectionSound(g, q.profiles.Keys, n, q.connections[n])
      {
        assert ConnectionSound(g, p.profiles.Keys, n, p.connections[n]);
      }
    }
  }

  lemma CoherenceIsLocal(g: Grammar, p: Parsed, t: EditTarget, v: Value)
    requires Assignable(p, t, v) && Coherent(g, p)
    ensures Coherent(g, Assigned(p, t, v)) <==> SlotSound(p, t, v)
  {
    if v.Flag? || v.Decision? || v.Plain? {
      RootsCoherence(g, p, t, v);
    } else {
      ModelsCoherence(g, p, t, v);
    }
  }

  lemma ClearedShape(p: Parsed, t: EditTarget)
    requires IsOverride(t)
    ensures var q := Cleared(p, t);
            && q.connections.Keys == p.connections.Keys && q.profiles.Keys == p.profiles.Keys
            && q.models.groups == p.models.groups && q.models.defaults == p.models.defaults
            && q.models.purposes.Keys == p.models.purposes.Keys
            && (forall n :: n in q.connections ==> Weaker(p.connections[n], q.connections[n]))
            && (forall n :: n in q.models.purposes ==> FewerOverrides(p.models.purposes[n], q.models.purposes[n]))
  {
  }

  predicate Weaker(c: Connection, d: Connection) {
    d.kind == c.kind && d.credentialRef == c.credentialRef && (d.profile == None || d.profile == c.profile)
  }

  predicate FewerOverrides(a: Purpose, b: Purpose) {
    b.group == a.group && (b.model == None || b.model == a.model) && (b.fallback == None || b.fallback == a.fallback)
  }

  lemma WeakerIsSound(g: Grammar, profiles: set<Name>, name: Name, c: Connection, d: Connection)
    requires ConnectionSound(g, profiles, name, c) && Weaker(c, d)
    ensures ConnectionSound(g, profiles, name, d)
  {
  }

  lemma FewerIsDeclared(connections: set<Name>, groups: set<Name>, a: Purpose, b: Purpose)
    requires PurposeDeclared(connections, groups, a) && FewerOverrides(a, b)
    ensures PurposeDeclared(connections, groups, b)
  {
  }

  /** Removing an override never breaks a reference. */
  lemma ClearingKeepsCoherence(g: Grammar, p: Parsed, t: EditTarget)
    requires Coherent(g, p) && IsOverride(t)
    ensures Coherent(g, Cleared(p, t))
  {
    hide ModelDeclared, DefaultsDeclared, PurposeDeclared, ConnectionSound, Cleared, Weaker, FewerOverrides;
    ClearedShape(p, t);
    var q := Cleared(p, t);
    forall n | n in q.connections
      ensures ConnectionSound(g, q.profiles.Keys, n, q.connections[n])
    {
      WeakerIsSound(g, p.profiles.Keys, n, p.connections[n], q.connections[n]);
    }
    forall n | n in q.models.purposes
      ensures PurposeDeclared(q.connections.Keys, q.models.groups.Keys, q.models.purposes[n])
    {
      FewerIsDeclared(p.connections.Keys, p.models.groups.Keys, p.models.purposes[n], q.models.purposes[n]);
    }
  }

  /* ---- What the targeted check sees ---- */

  lemma ConnectionsRooted(g: Grammar, doc: Item, q: Parsed)
    requires SectionsOf(g, doc) == Some(q) && q.connections != map[]
    ensures var rows := Rooted(doc, "connections");
            rows.Some? && rows.value.Keys == q.connections.Keys &&
            forall n :: n in rows.value ==> ConnectionOf(g, rows.value[n]).Some?
  {
    hide SectionsOf, ModelsOf, ConnectionOf, ConnectionRows, ProfileRows, Single;
    SectionFacts(g, doc, q);
    EmptySections(g);
    ConnectionRowFacts(g, SectionItem(doc.fields, "connections"), q.connections);
    SectionIsRooted(doc, "connections");
  }

  lemma SectionIsRooted(doc: Item, root: string)
    requires doc.Table?
    ensures Rooted(doc, root) ==
            if root in doc.fields && doc.fields[root].Table? then Some(doc.fields[root].fields) else None
  {
    assert [root][1..] == [];
    if root in doc.fields {
      assert Lookup(doc, [root]) == Lookup(doc.fields[root], []) == Some(doc.fields[root]);
    }
  }

  lemma ProfilesRooted(g: Grammar, doc: Item, q: Parsed, name: Name)
    requires SectionsOf(g, doc) == Some(q)
    ensures (Rooted(doc, "profiles").Some? && name in Rooted(doc, "profiles").value) <==> name in q.profiles
  {
    hide SectionsOf, ModelsOf, ConnectionRows, Single, ProfileOf, Lookup;
    SectionFacts(g, doc, q);
    EmptySections(g);
    SectionIsRooted(doc, "profiles");
  }

  lemma NamesSeen(g: Grammar, doc: Item, q: Parsed, names: seq<Name>)
    requires SectionsOf(g, doc) == Some(q) && q.connections != map[]
    ensures NamesResolve(g, doc, names) <==> forall n :: n in names ==> n in q.connections
  {
    hide SectionsOf, Rooted, ConnectionOf;
    ConnectionsRooted(g, doc, q);
  }

  lemma ChainSeen(connections: set<Name>, fallback: FallbackAssign)
    ensures (forall n :: n in ChainNames(fallback) ==> n in connections) <==> ChainDeclared(connections, fallback)
  {
    var names := ChainNames(fallback);
    if fallback.AutoFallback? {
      if forall n :: n in names ==> n in connections {
        forall i | 0 <= i < |fallback.chain|
          ensures fallback.chain[i].connection in connections
        {
          assert names[i] in names;
        }
      }
    }
  }

  lemma SlotSeen(g: Grammar, doc: Item, q: Parsed, t: EditTarget, v: Value)
    requires Fits(t, v) && !t.ProfileCredentialRef?
    requires SectionsOf(g, doc) == Some(q) && q.connections != map[]
    requires Lookup(doc, Spelled(t)) == Some(ItemOf(v))
    ensures TargetValid(g, doc, t) <==> SlotSound(q, t, v)
  {
    hide SectionsOf, Lookup, Spelled, Rooted, NamesResolve, ModelOf, ModelItem, EffortOf, EffortItem, FallbackOf, FallbackItem;
    match v {
      case Flag(_) =>
      case Decision(mode) => ItemsRoundTrip(Inherit, AutoEffort, Off, mode);
      case Model(model) =>
        ItemsRoundTrip(model, AutoEffort, Off, Ask);
        NamesSeen(g, doc, q, ModelNames(model));
      case Effort(effort) => ItemsRoundTrip(Inherit, effort, Off, Ask);
      case Fallback(fallback) =>
        ItemsRoundTrip(Inherit, AutoEffort, fallback, Ask);
        NamesSeen(g, doc, q, ChainNames(fallback));
        ChainSeen(q.connections.Keys, fallback);
      case Names(names) => TextsRoundTrip(names);
      case Plain(text) => ProfilesRooted(g, doc, q, text);
    }
  }

  /* ---- The theorems ---- */

  /** An unreadable credential fails the whole-document check too. */
  lemma BadCredential(g: Grammar, doc: Item, name: Name, text: string)
    requires Lookup(doc, ["profiles", name, "credential_ref"]) == Some(Text(text)) && !g.credential(text)
    ensures SectionsOf(g, doc) == None
  {
    hide ModelsOf, ConnectionRows, Single;
    var path := ["profiles", name, "credential_ref"];
    assert path[1..] == [name, "credential_ref"] && path[1..][1..] == ["credential_ref"] && path[1..][1..][1..] == [];
    assert Lookup(doc, path) == Lookup(doc.fields["profiles"], path[1..]);
    var rows := doc.fields["profiles"];
    assert Lookup(rows, path[1..]) == Lookup(rows.fields[name], path[1..][1..]);
    var row := rows.fields[name];
    assert Lookup(row, ["credential_ref"]) == Lookup(row.fields["credential_ref"], []);
    assert ProfileOf(g, row) == None;
    assert ProfileRows(g, rows) == None;
  }

  lemma TargetSeen(g: Grammar, doc: Item, t: EditTarget, v: Value)
    requires t.ProfileCredentialRef? && Fits(t, v) && Lookup(doc, Spelled(t)) == Some(ItemOf(v))
    ensures TargetValid(g, doc, t) <==> g.credential(v.text)
    ensures Lookup(doc, ["profiles", t.name, "credential_ref"]) == Some(Text(v.text))
  {
    hide Lookup, Rooted;
    assert Spelled(t) == ["profiles", t.name, "credential_ref"];
  }

  lemma EditLands(doc: Item, t: EditTarget, v: Value)
    requires Edited(doc, t, v).Some?
    ensures Lookup(Edited(doc, t, v).value, Spelled(t)) == Some(ItemOf(v))
  {
    SetTouchesOnlyItsPath(doc, TargetPath(t).0, TargetPath(t).1, ItemOf(v), []);
  }

  /** On a valid document the check of the one touched slot accepts an edit
      exactly when the whole edited document is valid, and then the typed view
      changes by that edit and nothing else. */
  lemma TargetedCheckIsExact(g: Grammar, doc: Item, p: Parsed, t: EditTarget, v: Value)
    requires DocumentOf(g, doc) == Some(p) && Assignable(p, t, v)
    requires Edited(doc, t, v).Some?
    ensures TargetValid(g, Edited(doc, t, v).value, t) <==> DocumentOf(g, Edited(doc, t, v).value).Some?
    ensures TargetValid(g, Edited(doc, t, v).value, t) ==>
              DocumentOf(g, Edited(doc, t, v).value) == Some(Assigned(p, t, v))
  {
    hide SectionsOf, Coherent, SetAt, Edited, TargetPath, TargetValid, Lookup, Assigned, SlotSound;
    var edited := Edited(doc, t, v).value;
    EditLands(doc, t, v);
    if t.ProfileCredentialRef? {
      TargetSeen(g, edited, t, v);
      if !g.credential(v.text) {
        BadCredential(g, edited, t.name, v.text);
        return;
      }
    }
    SetSections(g, doc, p, t, v);
    CoherenceIsLocal(g, p, t, v);
    AssignedKeepsNames(g, p, t, v);
    if t.ProfileCredentialRef? {
      CredentialIsSound(p, t, v);
    } else {
      SlotSeen(g, edited, Assigned(p, t, v), t, v);
    }
  }

  lemma CredentialIsSound(p: Parsed, t: EditTarget, v: Value)
    requires t.ProfileCredentialRef? && Fits(t, v)
    ensures SlotSound(p, t, v)
  {
  }

  /** The names an edit is checked against are the ones from before it. */
  lemma AssignedKeepsNames(g: Grammar, p: Parsed, t: EditTarget, v: Value)
    requires Coherent(g, p) && Assignable(p, t, v)
    ensures Assigned(p, t, v).connections.Keys == p.connections.Keys && Assigned(p, t, v).connections != map[]
    ensures !t.ProfileCredentialRef? ==> SlotSound(Assigned(p, t, v), t, v) == SlotSound(p, t, v)
  {
    hide ReferencesHold, ConnectionSound;
    var q := Assigned(p, t, v);
    assert q.connections.Keys == p.connections.Keys;
    assert p.connections.Keys != {};
  }

  /** A valid document has a table wherever an edit goes. */
  lemma EditFindsTables(g: Grammar, doc: Item, p: Parsed, t: EditTarget, v: Value)
    requires Assignable(p, t, v) && SectionsOf(g, doc) == Some(p)
    ensures Edited(doc, t, v).Some?
  {
    hide SectionsOf, SetAt, Edited, Assigned, ConnectionRows, ProfileRows, ModelsOf, Single;
    if t.ProfileCredentialRef? {
      SectionFacts(g, doc, p);
      var rows := SectionItem(doc.fields, "profiles");
      ProfileRowIsTable(g, rows, p.profiles, t.name);
      ProfileEdited(doc, t, v);
    } else {
      SetSections(g, doc, p, t, v);
    }
  }

  lemma ProfileRowIsTable(g: Grammar, rows: Item, profiles: map<Name, Option<string>>, name: Name)
    requires ProfileRows(g, rows) == Some(profiles)
    ensures rows.Table? && SectionItem(rows.fields, name).Table?
  {
    if rows.Table? && name in rows.fields {
      assert ProfileOf(g, rows.fields[name]).Some?;
    }
  }

  lemma ProfileEdited(doc: Item, t: EditTarget, v: Value)
    requires t.ProfileCredentialRef? && doc.Table?
    requires var rows := SectionItem(doc.fields, "profiles"); rows.Table? && SectionItem(rows.fields, t.name).Table?
    ensures Edited(doc, t, v).Some?
  {
    hide SetAt, ItemOf;
    SetAtOne(SectionItem(doc.fields, "profiles"), t.name, "credential_ref", ItemOf(v));
    SetAtStep(doc, "profiles", [t.name], "credential_ref", ItemOf(v));
    assert ["profiles"] + [t.name] == TargetPath(t).0;
  }

  lemma DeclaredExact(g: Grammar, doc: Item, p: Parsed, t: EditTarget)
    requires SectionsOf(g, doc) == Some(p) && p.connections != map[]
    ensures ConnectionDeclared(doc, t) <==> (t.ConnectionRegion? || t.ConnectionProfile? ==> t.name in p.connections)
  {
    hide SectionsOf, Rooted, ConnectionOf;
    ConnectionsRooted(g, doc, p);
  }

  /** The names and the credential an edit carries resolve in the typed view. */
  predicate Resolves(g: Grammar, p: Parsed, t: EditTarget, v: Value) {
    SlotSound(p, t, v) && (t.ProfileCredentialRef? && v.Plain? ==> g.credential(v.text))
  }

  lemma AcceptedIsResolved(g: Grammar, doc: Item, p: Parsed, t: EditTarget, v: Value)
    requires DocumentOf(g, doc) == Some(p) && Assignable(p, t, v) && Edited(doc, t, v).Some?
    ensures TargetValid(g, Edited(doc, t, v).value, t) <==> Resolves(g, p, t, v)
  {
    hide SectionsOf, Coherent, SetAt, Edited, TargetPath, TargetValid, Lookup, Assigned, SlotSound;
    var edited := Edited(doc, t, v).value;
    EditLands(doc, t, v);
    if t.ProfileCredentialRef? {
      TargetSeen(g, edited, t, v);
      CredentialIsSound(p, t, v);
    } else {
      SetSections(g, doc, p, t, v);
      AssignedKeepsNames(g, p, t, v);
      SlotSeen(g, edited, Assigned(p, t, v), t, v);
    }
  }

  /** `set` on a valid document: accepted exactly when the key addresses a slot
      the value fits and every name it carries is declared; then the document is
      valid and its view is the old one with that slot assigned. */
  lemma SetIsExact(g: Grammar, doc: Item, p: Parsed, key: string, v: Value)
    requires DocumentOf(g, doc) == Some(p)
    ensures SetDocument(g, Some(doc), key, v).Ok? <==>
              TargetOf(key).Ok? && Assignable(p, TargetOf(key).value, v) && Resolves(g, p, TargetOf(key).value, v)
    ensures SetDocument(g, Some(doc), key, v).Ok? ==>
              DocumentOf(g, SetDocument(g, Some(doc), key, v).value) == Some(Assigned(p, TargetOf(key).value, v))
  {
    hide SectionsOf, SetAt, TargetPath, TargetValid, Lookup, Assigned, SlotSound, TargetOf, Resolves, ConnectionDeclared;
    hide ReferencesHold, ConnectionSound;
    if TargetOf(key).Ok? {
      var t := TargetOf(key).value;
      DeclaredExact(g, doc, p, t);
      if Assignable(p, t, v) {
        EditFindsTables(g, doc, p, t, v);
        AcceptedIsResolved(g, doc, p, t, v);
        TargetedCheckIsExact(g, doc, p, t, v);
      }
    }
  }

  /** `reset` on a valid document: accepted for every override of a declared row,
      and the view is the old one without that override. */
  lemma ResetIsExact(g: Grammar, doc: Item, p: Parsed, key: string)
    requires DocumentOf(g, doc) == Some(p)
    ensures var t := TargetOf(key);
            ResetDocument(g, Some(doc), key).Ok? <==>
              t.Ok? && IsOverride(t.value) &&
              (t.value.ConnectionRegion? || t.value.ConnectionProfile? ==> t.value.name in p.connections)
    ensures ResetDocument(g, Some(doc), key).Ok? ==>
              DocumentOf(g, ResetDocument(g, Some(doc), key).value) == Some(Cleared(p, TargetOf(key).value))
  {
    hide SectionsOf, RemoveAt, TargetPath, Cleared, TargetOf, ConnectionDeclared, Coherent;
    assert p.connections != map[] by { CoherentConnections(g, p); }
    if TargetOf(key).Ok? {
      var t := TargetOf(key).value;
      DeclaredExact(g, doc, p, t);
      if IsOverride(t) && ConnectionDeclared(doc, t) {
        RemoveTouchesOnlyItsPath(doc, TargetPath(t).0, TargetPath(t).1, []);
        ResetSections(g, doc, p, t);
        ClearingKeepsCoherence(g, p, t);
      }
    }
  }

  lemma CoherentConnections(g: Grammar, p: Parsed)
    requires Coherent(g, p)
    ensures p.connections != map[] && p.models.defaults.Some?
  {
  }

  /* ---- Whole sessions ---- */

  datatype Edit = SetEdit(key: string, value: Value) | ResetEdit(key: string)

  /** The document after an edit, refused or not. */
  function DocumentAfter(g: Grammar, doc: Item, e: Edit): Item {
    var r := match e
      case SetEdit(key, v) => SetDocument(g, Some(doc), key, v)
      case ResetEdit(key) => ResetDocument(g, Some(doc), key);
    if r.Ok? then r.value else doc
  }

  /** The same edit on the typed view, which never looks at the document. */
  function ViewAfter(g: Grammar, p: Parsed, e: Edit): Parsed {
    match TargetOf(e.key)
    case Err(_) => p
    case Ok(t) =>
      match e
      case SetEdit(_, v) => if Assignable(p, t, v) && Resolves(g, p, t, v) then Assigned(p, t, v) else p
      case ResetEdit(_) =>
        if IsOverride(t) && (t.ConnectionRegion? || t.ConnectionProfile? ==> t.name in p.connections) then Cleared(p, t) else p
  }

  function DocumentAfterAll(g: Grammar, doc: Item, edits: seq<Edit>): Item
    decreases |edits|
  {
    if edits == [] then doc else DocumentAfterAll(g, DocumentAfter(g, doc, edits[0]), edits[1..])
  }

  function ViewAfterAll(g: Grammar, p: Parsed, edits: seq<Edit>): Parsed
    decreases |edits|
  {
    if edits == [] then p else ViewAfterAll(g, ViewAfter(g, p, edits[0]), edits[1..])
  }

  lemma EditRefines(g: Grammar, doc: Item, p: Parsed, e: Edit)
    requires DocumentOf(g, doc) == Some(p)
    ensures DocumentOf(g, DocumentAfter(g, doc, e)) == Some(ViewAfter(g, p, e))
  {
    hide DocumentOf, TargetOf, SetDocument, ResetDocument, Assigned, Cleared, Assignable, Resolves;
    match e {
      case SetEdit(key, v) => SetIsExact(g, doc, p, key, v);
      case ResetEdit(key) => ResetIsExact(g, doc, p, key);
    }
  }

  /** Through any session of edits the document reads as the typed machine's view:
      every document on the way is valid, whatever was refused. */
  lemma {:induction false} SessionRefines(g: Grammar, doc: Item, p: Parsed, edits: seq<Edit>)
    requires DocumentOf(g, doc) == Some(p)
    ensures DocumentOf(g, DocumentAfterAll(g, doc, edits)) == Some(ViewAfterAll(g, p, edits))
    decreases |edits|
  {
    hide DocumentOf, DocumentAfter, ViewAfter;
    if edits != [] {
      EditRefines(g, doc, p, edits[0]);
      SessionRefines(g, DocumentAfter(g, doc, edits[0]), ViewAfter(g, p, edits[0]), edits[1..]);
    }
  }
}
