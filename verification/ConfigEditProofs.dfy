/** Why checking the touched slot suffices: an accepted edit of a valid document
    is the matching change of its typed view, and keeps the view coherent. */
module ConfigEditProofs {
  import opened Wrappers
  import opened ConfigSchema
  import opened KeyAddress
  import opened ConfigEdit

  function SectionItem(fields: map<string, Item>, key: string): Item {
    if key in fields then fields[key] else Table(map[])
  }

  /* ---- One level up: rows, sections, roots ---- */

  lemma RowsUpdate<T>(fields: map<string, Item>, read: Item -> Option<T>, k: string, item: Item, v: T)
    requires Rows(fields, read).Some? && read(item) == Some(v)
    ensures Rows(fields[k := item], read) == Some(Rows(fields, read).value[k := v])
  {
    var updated := fields[k := item];
    forall n | n in updated
      ensures read(updated[n]).Some?
    {
      assert n != k ==> n in fields;
    }
    assert Rows(updated, read).value == Rows(fields, read).value[k := v];
  }

  lemma RootKeysDiffer()
    ensures "workflow" != "decisions" && "workflow" != "context" && "workflow" != "connections"
    ensures "workflow" != "profiles" && "workflow" != "models" && "workflow" != "config_version"
    ensures "workflow" != "hooks" && "workflow" != "mcp"
    ensures "decisions" != "context" && "decisions" != "connections" && "decisions" != "profiles"
    ensures "decisions" != "models" && "decisions" != "config_version" && "decisions" != "hooks" && "decisions" != "mcp"
    ensures "context" != "connections" && "context" != "profiles" && "context" != "models"
    ensures "context" != "config_version" && "context" != "hooks" && "context" != "mcp"
    ensures "connections" != "profiles" && "connections" != "models" && "connections" != "config_version"
    ensures "connections" != "hooks" && "connections" != "mcp"
    ensures "profiles" != "models" && "profiles" != "config_version" && "profiles" != "hooks" && "profiles" != "mcp"
    ensures "models" != "config_version" && "models" != "hooks" && "models" != "mcp"
  {
    assert "workflow"[0] != "profiles"[0];
  }

  /** A missing section reads as an empty one. */
  lemma EmptySections(g: Grammar)
    ensures ConnectionRows(g, Table(map[])) == Some(map[]) && ProfileRows(g, Table(map[])) == Some(map[])
    ensures ModelsOf(Table(map[])) == Some(Models(None, map[], map[]))
  {
    hide ConnectionOf, ProfileOf;
  }

  /** What each section of a readable document reads as. */
  lemma SectionFacts(g: Grammar, doc: Item, p: Parsed)
    requires SectionsOf(g, doc) == Some(p)
    ensures doc.Table?
    ensures Single(SectionItem(doc.fields, "workflow"), "enabled", BoolOf) == Some(p.workflow)
    ensures Single(SectionItem(doc.fields, "decisions"), "mode", DecisionOf) == Some(p.decisions)
    ensures Single(SectionItem(doc.fields, "context"), "auto_compact", BoolOf) == Some(p.autoCompact)
    ensures ConnectionRows(g, SectionItem(doc.fields, "connections")) == Some(p.connections)
    ensures ProfileRows(g, SectionItem(doc.fields, "profiles")) == Some(p.profiles)
    ensures ModelsOf(SectionItem(doc.fields, "models")) == Some(p.models)
  {
    hide ConnectionRows, ProfileRows, ModelsOf;
    EmptySections(g);
  }

  lemma WorkflowReplaced(g: Grammar, doc: Item, p: Parsed, item: Item, w: Option<bool>)
    requires SectionsOf(g, doc) == Some(p) && Single(item, "enabled", BoolOf) == Some(w)
    ensures SectionsOf(g, Table(doc.fields["workflow" := item])) == Some(p.(workflow := w))
  {
    hide ConnectionRows, ProfileRows, ModelsOf;
    RootKeysDiffer();
  }

  lemma DecisionsReplaced(g: Grammar, doc: Item, p: Parsed, item: Item, d: Option<DecisionMode>)
    requires SectionsOf(g, doc) == Some(p) && Single(item, "mode", DecisionOf) == Some(d)
    ensures SectionsOf(g, Table(doc.fields["decisions" := item])) == Some(p.(decisions := d))
  {
    hide ConnectionRows, ProfileRows, ModelsOf;
    RootKeysDiffer();
  }

  lemma ContextReplaced(g: Grammar, doc: Item, p: Parsed, item: Item, c: Option<bool>)
    requires SectionsOf(g, doc) == Some(p) && Single(item, "auto_compact", BoolOf) == Some(c)
    ensures SectionsOf(g, Table(doc.fields["context" := item])) == Some(p.(autoCompact := c))
  {
    hide ConnectionRows, ProfileRows, ModelsOf;
    RootKeysDiffer();
  }

  lemma ConnectionsReplaced(g: Grammar, doc: Item, p: Parsed, item: Item, rows: map<Name, Connection>)
    requires SectionsOf(g, doc) == Some(p) && ConnectionRows(g, item) == Some(rows)
    ensures SectionsOf(g, Table(doc.fields["connections" := item])) == Some(p.(connections := rows))
  {
    hide ConnectionRows, ProfileRows, ModelsOf, Single;
    RootKeysDiffer();
  }

  lemma ProfilesReplaced(g: Grammar, doc: Item, p: Parsed, item: Item, rows: map<Name, Option<string>>)
    requires SectionsOf(g, doc) == Some(p) && ProfileRows(g, item) == Some(rows)
    ensures SectionsOf(g, Table(doc.fields["profiles" := item])) == Some(p.(profiles := rows))
  {
    hide ConnectionRows, ProfileRows, ModelsOf, Single;
    RootKeysDiffer();
  }

  lemma ModelsReplaced(g: Grammar, doc: Item, p: Parsed, item: Item, m: Models)
    requires SectionsOf(g, doc) == Some(p) && ModelsOf(item) == Some(m)
    ensures SectionsOf(g, Table(doc.fields["models" := item])) == Some(p.(models := m))
  {
    hide ConnectionRows, ProfileRows, ModelsOf, Single;
    RootKeysDiffer();
  }

  /* ---- Inside `models` ---- */

  lemma ModelKeysDiffer()
    ensures "defaults" != "groups" && "defaults" != "purposes" && "groups" != "purposes"
    ensures "model" != "effort" && "model" != "fallback" && "effort" != "fallback"
    ensures "model" != "eligible" && "effort" != "eligible" && "fallback" != "eligible"
    ensures "group" != "model" && "group" != "effort" && "group" != "fallback" && "group" != "eligible" && "group" != "pool"
    ensures "pool" != "model" && "pool" != "effort" && "pool" != "fallback" && "pool" != "eligible"
  {
    assert "defaults"[0] != "purposes"[0] && "fallback"[0] != "eligible"[0] && "group"[1] != "model"[1];
  }

  lemma ModelFacts(item: Item, m: Models)
    requires ModelsOf(item) == Some(m)
    ensures item.Table?
    ensures m.defaults.Some? ==> "defaults" in item.fields && DefaultsOf(item.fields["defaults"]) == m.defaults
    ensures SectionItem(item.fields, "groups").Table? && GroupRows(SectionItem(item.fields, "groups")) == Some(m.groups)
    ensures SectionItem(item.fields, "purposes").Table? && PurposeRows(SectionItem(item.fields, "purposes")) == Some(m.purposes)
  {
    hide DefaultsOf, GroupOf, PurposeOf;
  }

  lemma DefaultsReplaced(item: Item, m: Models, d: Item, v: Defaults)
    requires ModelsOf(item) == Some(m) && DefaultsOf(d) == Some(v)
    ensures ModelsOf(Table(item.fields["defaults" := d])) == Some(m.(defaults := Some(v)))
  {
    ModelKeysDiffer();
  }

  lemma GroupsReplaced(item: Item, m: Models, rows: Item, v: map<Name, ModelAssign>)
    requires ModelsOf(item) == Some(m) && GroupRows(rows) == Some(v)
    ensures ModelsOf(Table(item.fields["groups" := rows])) == Some(m.(groups := v))
  {
    ModelKeysDiffer();
  }

  lemma PurposesReplaced(item: Item, m: Models, rows: Item, v: map<Name, Purpose>)
    requires ModelsOf(item) == Some(m) && PurposeRows(rows) == Some(v)
    ensures ModelsOf(Table(item.fields["purposes" := rows])) == Some(m.(purposes := v))
  {
    ModelKeysDiffer();
  }

  /** One field of a purpose row, set or removed. */
  lemma PurposeField(row: Item, def: Purpose, field: string, item: Item)
    requires PurposeOf(row) == Some(def) && field in {"model", "effort", "fallback", "eligible"}
    ensures var set_ := PurposeOf(Table(row.fields[field := item]));
            && (field == "model" && ModelOf(item).Some? ==> set_ == Some(def.(model := ModelOf(item))))
            && (field == "effort" && EffortOf(item).Some? ==> set_ == Some(def.(effort := EffortOf(item))))
            && (field == "fallback" && FallbackOf(item).Some? ==> set_ == Some(def.(fallback := FallbackOf(item))))
            && (field == "eligible" && NamesOf(item).Some? ==> set_ == Some(def.(eligible := NamesOf(item))))
  {
    ModelKeysDiffer();
  }

  lemma PurposeFieldRemoved(row: Item, def: Purpose, field: string)
    requires PurposeOf(row) == Some(def) && field in {"model", "effort", "fallback", "eligible"}
    ensures PurposeOf(Table(row.fields - {field})) ==
            Some(if field == "model" then def.(model := None)
                 else if field == "effort" then def.(effort := None)
                 else if field == "fallback" then def.(fallback := None)
                 else def.(eligible := None))
  {
    ModelKeysDiffer();
    var f := row.fields - {field};
    assert f.Keys <= PURPOSE_KEYS;
  }

  lemma DefaultsField(d: Item, v: Defaults, field: string, item: Item)
    requires DefaultsOf(d) == Some(v) && field in {"model", "effort", "fallback"}
    ensures var set_ := DefaultsOf(Table(d.fields[field := item]));
            && (field == "model" && ModelOf(item).Some? ==> set_ == Some(v.(model := ModelOf(item).value)))
            && (field == "effort" && EffortOf(item).Some? ==> set_ == Some(v.(effort := EffortOf(item).value)))
            && (field == "fallback" && FallbackOf(item).Some? ==> set_ == Some(v.(fallback := FallbackOf(item).value)))
  {
    ModelKeysDiffer();
  }

  /** A purpose row, or the empty row an edit would create. */
  lemma PurposeRowFacts(rows: Item, purposes: map<Name, Purpose>, name: Name)
    requires PurposeRows(rows) == Some(purposes)
    ensures PurposeOf(SectionItem(rows.fields, name)) == Some(if name in purposes then purposes[name] else EmptyPurpose)
  {
  }

  /* ---- What `SetAt` and `RemoveAt` build ---- */

  lemma SetAtOne(node: Item, section: string, field: string, item: Item)
    requires node.Table? && SectionItem(node.fields, section).Table?
    ensures SetAt(node, [section], field, item) ==
            Some(Table(node.fields[section := Table(SectionItem(node.fields, section).fields[field := item])]))
  {
    var child := SectionItem(node.fields, section);
    assert [section][1..] == [];
    if field in child.fields {
      MergedIsItem(child.fields[field], item);
    }
    assert SetAt(child, [], field, item) == Some(Table(child.fields[field := item]));
  }

  lemma SetAtStep(node: Item, section: string, path: seq<string>, field: string, item: Item)
    requires node.Table? && SetAt(SectionItem(node.fields, section), path, field, item).Some?
    ensures SetAt(node, [section] + path, field, item) ==
            Some(Table(node.fields[section := SetAt(SectionItem(node.fields, section), path, field, item).value]))
  {
    assert ([section] + path)[1..] == path;
  }

  lemma RemoveAtOne(node: Item, section: string, field: string)
    requires node.Table? && section in node.fields && node.fields[section].Table?
    ensures RemoveAt(node, [section], field) == Table(node.fields[section := Table(node.fields[section].fields - {field})])
  {
    assert [section][1..] == [];
  }

  lemma RemoveAtStep(node: Item, section: string, path: seq<string>, field: string)
    requires node.Table? && section in node.fields
    ensures RemoveAt(node, [section] + path, field) ==
            Table(node.fields[section := RemoveAt(node.fields[section], path, field)])
  {
    assert ([section] + path)[1..] == path;
  }

  lemma RemoveAtMissing(node: Item, section: string, path: seq<string>, field: string)
    requires node.Table? && section !in node.fields
    ensures RemoveAt(node, [section] + path, field) == node
  {
  }

  /* ---- `set`, target by target ---- */

  function Edited(doc: Item, t: EditTarget, v: Value): Option<Item> {
    SetAt(doc, TargetPath(t).0, TargetPath(t).1, ItemOf(v))
  }

  lemma FlagSet(g: Grammar, doc: Item, p: Parsed, t: EditTarget, v: Value)
    requires SectionsOf(g, doc) == Some(p) && p.models.defaults.Some? && Fits(t, v)
    requires t.WorkflowEnabled? || t.DecisionsMode? || t.ContextAutoCompact?
    ensures Edited(doc, t, v).Some? && SectionsOf(g, Edited(doc, t, v).value) == Some(Assigned(p, t, v))
  {
    SectionFacts(g, doc, p);
    var section, field := TargetPath(t).0[0], TargetPath(t).1;
    SetAtOne(doc, section, field, ItemOf(v));
    var next := Table(SectionItem(doc.fields, section).fields[field := ItemOf(v)]);
    match t {
      case WorkflowEnabled => WorkflowReplaced(g, doc, p, next, Some(v.on));
      case DecisionsMode =>
        ItemsRoundTrip(Inherit, AutoEffort, Off, v.mode);
        DecisionsReplaced(g, doc, p, next, Some(v.mode));
      case ContextAutoCompact => ContextReplaced(g, doc, p, next, Some(v.on));
    }
  }

  /** An edit below `models` once its section is known to read. */
  lemma ModelsSet(g: Grammar, doc: Item, p: Parsed, path: seq<string>, field: string, item: Item, next: Item, m: Models)
    requires SectionsOf(g, doc) == Some(p)
    requires doc.Table?
    requires SetAt(SectionItem(doc.fields, "models"), path, field, item) == Some(next) && ModelsOf(next) == Some(m)
    ensures SetAt(doc, ["models"] + path, field, item) == Some(Table(doc.fields["models" := next]))
    ensures SectionsOf(g, Table(doc.fields["models" := next])) == Some(p.(models := m))
  {
    SetAtStep(doc, "models", path, field, item);
    ModelsReplaced(g, doc, p, next, m);
  }

  lemma DefaultsBelow(models: Item, m: Models, field: string, item: Item, after: Defaults)
    requires ModelsOf(models) == Some(m) && m.defaults.Some? && models.Table? && "defaults" in models.fields
    requires models.fields["defaults"].Table?
    requires DefaultsOf(Table(models.fields["defaults"].fields[field := item])) == Some(after)
    ensures var next := Table(models.fields["defaults" := Table(models.fields["defaults"].fields[field := item])]);
            SetAt(models, ["defaults"], field, item) == Some(next) && ModelsOf(next) == Some(m.(defaults := Some(after)))
  {
    SetAtOne(models, "defaults", field, item);
    DefaultsReplaced(models, m, Table(models.fields["defaults"].fields[field := item]), after);
  }

  lemma GroupsBelow(models: Item, m: Models, name: Name, item: Item, model: ModelAssign) returns (next: Item)
    requires ModelsOf(models) == Some(m) && ModelOf(item) == Some(model)
    ensures SetAt(models, ["groups", name], "model", item) == Some(next)
    ensures ModelsOf(next) == Some(m.(groups := m.groups[name := model]))
  {
    ModelFacts(models, m);
    var rows := SectionItem(models.fields, "groups");
    var nextRows := GroupRowSet(rows, m.groups, name, item, model);
    SetAtStep(models, "groups", [name], "model", item);
    assert ["groups"] + [name] == ["groups", name];
    GroupsReplaced(models, m, nextRows, m.groups[name := model]);
    next := Table(models.fields["groups" := nextRows]);
  }

  lemma GroupRowSet(rows: Item, groups: map<Name, ModelAssign>, name: Name, item: Item, model: ModelAssign)
    returns (next: Item)
    requires GroupRows(rows) == Some(groups) && ModelOf(item) == Some(model)
    ensures SetAt(rows, [name], "model", item) == Some(next) && GroupRows(next) == Some(groups[name := model])
  {
    var row := SectionItem(rows.fields, name);
    assert row.Table? && row.fields.Keys <= {"model"};
    SetAtOne(rows, name, "model", item);
    RowsUpdate(rows.fields, GroupOf, name, Table(row.fields["model" := item]), model);
    next := Table(rows.fields[name := Table(row.fields["model" := item])]);
  }

  lemma PurposeRowSet(rows: Item, purposes: map<Name, Purpose>, name: Name, field: string, item: Item, after: Purpose)
    returns (next: Item)
    requires PurposeRows(rows) == Some(purposes) && SectionItem(rows.fields, name).Table?
    requires PurposeOf(Table(SectionItem(rows.fields, name).fields[field := item])) == Some(after)
    ensures SetAt(rows, [name], field, item) == Some(next) && PurposeRows(next) == Some(purposes[name := after])
  {
    var row := SectionItem(rows.fields, name);
    SetAtOne(rows, name, field, item);
    RowsUpdate(rows.fields, PurposeOf, name, Table(row.fields[field := item]), after);
    next := Table(rows.fields[name := Table(row.fields[field := item])]);
  }

  lemma PurposesBelow(models: Item, m: Models, name: Name, field: string, item: Item, after: Purpose) returns (next: Item)
    requires ModelsOf(models) == Some(m) && models.Table?
    requires var rows := SectionItem(models.fields, "purposes");
             && PurposeRows(rows) == Some(m.purposes) && SectionItem(rows.fields, name).Table?
             && PurposeOf(Table(SectionItem(rows.fields, name).fields[field := item])) == Some(after)
    ensures SetAt(models, ["purposes", name], field, item) == Some(next)
    ensures ModelsOf(next) == Some(m.(purposes := m.purposes[name := after]))
  {
    var rows := SectionItem(models.fields, "purposes");
    var nextRows := PurposeRowSet(rows, m.purposes, name, field, item, after);
    SetAtStep(models, "purposes", [name], field, item);
    assert ["purposes"] + [name] == ["purposes", name];
    PurposesReplaced(models, m, nextRows, m.purposes[name := after]);
    next := Table(models.fields["purposes" := nextRows]);
  }

  lemma DefaultsTable(models: Item, m: Models)
    requires ModelsOf(models) == Some(m) && m.defaults.Some?
    ensures models.Table? && "defaults" in models.fields && models.fields["defaults"].Table?
    ensures DefaultsOf(models.fields["defaults"]) == m.defaults
  {
  }

  lemma DefaultsSet(g: Grammar, doc: Item, p: Parsed, t: EditTarget, v: Value)
    requires SectionsOf(g, doc) == Some(p) && p.models.defaults.Some? && Fits(t, v)
    requires t.DefaultsModel? || t.DefaultsEffort? || t.DefaultsFallback?
    ensures Edited(doc, t, v).Some? && SectionsOf(g, Edited(doc, t, v).value) == Some(Assigned(p, t, v))
  {
    SectionFacts(g, doc, p);
    var models := SectionItem(doc.fields, "models");
    DefaultsTable(models, p.models);
    var d := models.fields["defaults"];
    var field, item := TargetPath(t).1, ItemOf(v);
    var after := Assigned(p, t, v).models.defaults.value;
    DefaultsFieldSet(d, p, t, v);
    DefaultsBelow(models, p.models, field, item, after);
    assert ["models"] + ["defaults"] == TargetPath(t).0;
    ModelsSet(g, doc, p, ["defaults"], field, item, Table(models.fields["defaults" := Table(d.fields[field := item])]),
              p.models.(defaults := Some(after)));
  }

  lemma DefaultsFieldSet(d: Item, p: Parsed, t: EditTarget, v: Value)
    requires p.models.defaults.Some? && Fits(t, v) && DefaultsOf(d) == p.models.defaults && d.Table?
    requires t.DefaultsModel? || t.DefaultsEffort? || t.DefaultsFallback?
    ensures DefaultsOf(Table(d.fields[TargetPath(t).1 := ItemOf(v)])) == Assigned(p, t, v).models.defaults
  {
    DefaultsField(d, p.models.defaults.value, TargetPath(t).1, ItemOf(v));
    match v {
      case Model(model) => ItemsRoundTrip(model, AutoEffort, Off, Ask);
      case Effort(effort) => ItemsRoundTrip(Inherit, effort, Off, Ask);
      case Fallback(fallback) => ItemsRoundTrip(Inherit, AutoEffort, fallback, Ask);
    }
  }

  lemma GroupSet(g: Grammar, doc: Item, p: Parsed, name: Name, model: ModelAssign)
    requires SectionsOf(g, doc) == Some(p) && p.models.defaults.Some?
    ensures var edited := Edited(doc, GroupModel(name), Model(model));
            edited.Some? && SectionsOf(g, edited.value) == Some(Assigned(p, GroupModel(name), Model(model)))
  {
    hide SectionsOf, ModelsOf, ModelOf, ModelItem, ConnectionRows, ProfileRows, Single, SetAt;
    SectionFacts(g, doc, p);
    ItemsRoundTrip(model, AutoEffort, Off, Ask);
    var next := GroupsBelow(SectionItem(doc.fields, "models"), p.models, name, ModelItem(model), model);
    assert ["models"] + ["groups", name] == TargetPath(GroupModel(name)).0;
    ModelsSet(g, doc, p, ["groups", name], "model", ModelItem(model), next,
              p.models.(groups := p.models.groups[name := model]));
  }

  lemma PurposeFieldSet(row: Item, p: Parsed, t: EditTarget, v: Value)
    requires p.models.defaults.Some? && Fits(t, v)
    requires t.PurposeModel? || t.PurposeEffort? || t.PurposeFallback? || t.PurposeEligible?
    requires row.Table? && PurposeOf(row) == Some(PurposeAt(p, t.name))
    ensures PurposeOf(Table(row.fields[TargetPath(t).1 := ItemOf(v)])) == Some(Assigned(p, t, v).models.purposes[t.name])
  {
    PurposeField(row, PurposeAt(p, t.name), TargetPath(t).1, ItemOf(v));
    match v {
      case Model(model) => ItemsRoundTrip(model, AutoEffort, Off, Ask);
      case Effort(effort) => ItemsRoundTrip(Inherit, effort, Off, Ask);
      case Fallback(fallback) => ItemsRoundTrip(Inherit, AutoEffort, fallback, Ask);
      case Names(names) => TextsRoundTrip(names);
    }
  }

  lemma PurposeTable(row: Item)
    requires PurposeOf(row).Some?
    ensures row.Table?
  {
  }

  lemma PurposeSet(g: Grammar, doc: Item, p: Parsed, t: EditTarget, v: Value)
    requires SectionsOf(g, doc) == Some(p) && p.models.defaults.Some? && Fits(t, v)
    requires t.PurposeModel? || t.PurposeEffort? || t.PurposeFallback? || t.PurposeEligible?
    ensures Edited(doc, t, v).Some? && SectionsOf(g, Edited(doc, t, v).value) == Some(Assigned(p, t, v))
  {
    hide SectionsOf, ModelsOf, PurposeOf, PurposeRows, Rows, ConnectionRows, ProfileRows, Single, SetAt;
    SectionFacts(g, doc, p);
    var models := SectionItem(doc.fields, "models");
    ModelFacts(models, p.models);
    var rows := SectionItem(models.fields, "purposes");
    var name, field, item := t.name, TargetPath(t).1, ItemOf(v);
    PurposeRowFacts(rows, p.models.purposes, name);
    var row := SectionItem(rows.fields, name);
    PurposeTable(row);
    PurposeFieldSet(row, p, t, v);
    var after := Assigned(p, t, v).models.purposes[name];
    var next := PurposesBelow(models, p.models, name, field, item, after);
    assert ["models"] + ["purposes", name] == TargetPath(t).0;
    ModelsSet(g, doc, p, ["purposes", name], field, item, next, p.models.(purposes := p.models.purposes[name := after]));
  }

  /* ---- Connections and profiles ---- */

  lemma ConnectionKeysDiffer()
    ensures "kind" != "endpoint" && "kind" != "credential_ref" && "kind" != "region" && "kind" != "profile"
    ensures "endpoint" != "region" && "endpoint" != "profile" && "credential_ref" != "region" && "credential_ref" != "profile"
    ensures "region" != "profile" && "endpoint" != "credential_ref"
  {
  }

  lemma ConnectionField(g: Grammar, row: Item, c: Connection, field: string, text: string)
    requires ConnectionOf(g, row) == Some(c) && field in {"region", "profile"}
    ensures row.Table?
    ensures ConnectionOf(g, Table(row.fields[field := Text(text)])) ==
            Some(if field == "region" then c.(region := Some(text)) else c.(profile := Some(text)))
    ensures ConnectionOf(g, Table(row.fields - {field})) ==
            Some(if field == "region" then c.(region := None) else c.(profile := None))
  {
    ConnectionKeysDiffer();
    assert (row.fields - {field}).Keys <= CONNECTION_KEYS;
  }

  lemma ConnectionRowFacts(g: Grammar, rows: Item, connections: map<Name, Connection>)
    requires ConnectionRows(g, rows) == Some(connections)
    ensures rows.Table? && rows.fields.Keys == connections.Keys
    ensures forall n :: n in connections ==> ConnectionOf(g, rows.fields[n]) == Some(connections[n])
  {
  }

  lemma ConnectionRowReplaced(g: Grammar, rows: Item, connections: map<Name, Connection>, name: Name, row: Item, c: Connection)
    requires ConnectionRows(g, rows) == Some(connections) && ConnectionOf(g, row) == Some(c)
    ensures ConnectionRows(g, Table(rows.fields[name := row])) == Some(connections[name := c])
  {
    hide ConnectionOf;
    var next := rows.fields[name := row];
    assert forall n :: n in next ==> ConnectionOf(g, next[n]).Some?;
    assert ConnectionRows(g, Table(next)).value == connections[name := c];
  }

  lemma ProfileRowReplaced(g: Grammar, rows: Item, profiles: map<Name, Option<string>>, name: Name, row: Item, v: Option<string>)
    requires ProfileRows(g, rows) == Some(profiles) && ProfileOf(g, row) == Some(v)
    ensures ProfileRows(g, Table(rows.fields[name := row])) == Some(profiles[name := v])
  {
    hide ProfileOf;
    var next := rows.fields[name := row];
    assert forall n :: n in next ==> ProfileOf(g, next[n]).Some?;
    assert ProfileRows(g, Table(next)).value == profiles[name := v];
  }

  function ConnectionWith(c: Connection, field: string, value: Option<string>): Connection {
    if field == "region" then c.(region := value) else c.(profile := value)
  }

  lemma ConnectionRowSet(g: Grammar, rows: Item, connections: map<Name, Connection>, name: Name, field: string, text: string)
    returns (next: Item)
    requires ConnectionRows(g, rows) == Some(connections) && name in connections && field in {"region", "profile"}
    ensures SetAt(rows, [name], field, Text(text)) == Some(next)
    ensures ConnectionRows(g, next) == Some(connections[name := ConnectionWith(connections[name], field, Some(text))])
  {
    hide ConnectionOf, ConnectionRows, SetAt;
    ConnectionRowFacts(g, rows, connections);
    ConnectionField(g, rows.fields[name], connections[name], field, text);
    var row := Table(rows.fields[name].fields[field := Text(text)]);
    SetAtOne(rows, name, field, Text(text));
    ConnectionRowReplaced(g, rows, connections, name, row, ConnectionWith(connections[name], field, Some(text)));
    next := Table(rows.fields[name := row]);
  }

  lemma ConnectionPathSet(g: Grammar, doc: Item, p: Parsed, name: Name, field: string, text: string) returns (edited: Item)
    requires SectionsOf(g, doc) == Some(p) && name in p.connections && field in {"region", "profile"}
    ensures SetAt(doc, ["connections", name], field, Text(text)) == Some(edited)
    ensures SectionsOf(g, edited) ==
            Some(p.(connections := p.connections[name := ConnectionWith(p.connections[name], field, Some(text))]))
  {
    hide SectionsOf, ModelsOf, ConnectionRows, ProfileRows, Single, SetAt, ConnectionWith;
    SectionFacts(g, doc, p);
    var rows := SectionItem(doc.fields, "connections");
    var next := ConnectionRowSet(g, rows, p.connections, name, field, text);
    SetAtStep(doc, "connections", [name], field, Text(text));
    assert ["connections"] + [name] == ["connections", name];
    ConnectionsReplaced(g, doc, p, next, p.connections[name := ConnectionWith(p.connections[name], field, Some(text))]);
    edited := Table(doc.fields["connections" := next]);
  }

  lemma ConnectionSet(g: Grammar, doc: Item, p: Parsed, t: EditTarget, v: Value)
    requires SectionsOf(g, doc) == Some(p) && p.models.defaults.Some? && Fits(t, v)
    requires (t.ConnectionRegion? || t.ConnectionProfile?) && t.name in p.connections
    ensures Edited(doc, t, v).Some? && SectionsOf(g, Edited(doc, t, v).value) == Some(Assigned(p, t, v))
  {
    hide SectionsOf, SetAt;
    ConnectionKeysDiffer();
    if t.ConnectionRegion? {
      var edited := ConnectionPathSet(g, doc, p, t.name, "region", v.text);
    } else {
      var edited := ConnectionPathSet(g, doc, p, t.name, "profile", v.text);
    }
  }

  lemma ProfileRow(g: Grammar, rows: Item, profiles: map<Name, Option<string>>, name: Name, text: string)
    requires ProfileRows(g, rows) == Some(profiles) && g.credential(text)
    ensures rows.Table? && SectionItem(rows.fields, name).Table?
    ensures ProfileOf(g, Table(SectionItem(rows.fields, name).fields["credential_ref" := Text(text)])) == Some(Some(text))
  {
    var row := SectionItem(rows.fields, name);
    assert row.Table? && row.fields.Keys <= {"credential_ref"};
  }

  lemma ProfileSet(g: Grammar, doc: Item, p: Parsed, name: Name, text: string)
    requires SectionsOf(g, doc) == Some(p) && p.models.defaults.Some? && g.credential(text)
    ensures var t := ProfileCredentialRef(name);
            Edited(doc, t, Plain(text)).Some? &&
            SectionsOf(g, Edited(doc, t, Plain(text)).value) == Some(Assigned(p, t, Plain(text)))
  {
    hide SectionsOf, ModelsOf, ConnectionRows, ProfileRows, ProfileOf, Single, SetAt;
    SectionFacts(g, doc, p);
    var rows := SectionItem(doc.fields, "profiles");
    ProfileRow(g, rows, p.profiles, name, text);
    var next := Table(SectionItem(rows.fields, name).fields["credential_ref" := Text(text)]);
    SetAtOne(rows, name, "credential_ref", Text(text));
    SetAtStep(doc, "profiles", [name], "credential_ref", Text(text));
    assert ["profiles"] + [name] == TargetPath(ProfileCredentialRef(name)).0;
    ProfileRowReplaced(g, rows, p.profiles, name, next, Some(text));
    ProfilesReplaced(g, doc, p, Table(rows.fields[name := next]), p.profiles[name := Some(text)]);
  }
}
