/** A reference writer of config documents: what the schema of src/config.rs
    reads is pinned by what it was written from. */
module ConfigRendering {
  import opened Wrappers
  import opened ConfigSchema

  /** A table holding the slots that have something to say. */
  function Slots(keys: set<string>, slot: string -> Option<Item>): map<string, Item> {
    map k | k in keys && slot(k).Some? :: slot(k).value
  }

  function Maybe<T>(value: Option<T>, write: T -> Item): Option<Item> {
    if value.Some? then Some(write(value.value)) else None
  }

  /* ---- Rows ---- */

  function PurposeSlot(def: Purpose, key: string): Option<Item> {
    if key == "group" then Maybe(def.group, text => Text(text))
    else if key == "model" then Maybe(def.model, ModelItem)
    else if key == "effort" then Maybe(def.effort, EffortItem)
    else if key == "fallback" then Maybe(def.fallback, FallbackItem)
    else if key == "pool" then Maybe(def.pool, names => List(TextItems(names)))
    else if key == "eligible" then Maybe(def.eligible, names => List(TextItems(names)))
    else None
  }

  function PurposeItem(def: Purpose): Item {
    Table(Slots(PURPOSE_KEYS, key => PurposeSlot(def, key)))
  }

  function KindName(kind: ConnectionKind): string {
    match kind
    case ApiKey => "api_key"
    case Local => "local"
    case Subscription => "subscription"
  }

  function ConnectionSlot(c: Connection, key: string): Option<Item> {
    if key == "kind" then Some(Text(KindName(c.kind)))
    else if key == "endpoint" then Some(Text(c.endpoint))
    else if key == "credential_ref" then Maybe(c.credentialRef, text => Text(text))
    else if key == "region" then Maybe(c.region, text => Text(text))
    else if key == "profile" then Maybe(c.profile, text => Text(text))
    else None
  }

  function ConnectionItem(c: Connection): Item {
    Table(Slots(CONNECTION_KEYS, key => ConnectionSlot(c, key)))
  }

  function ProfileItem(credential: Option<string>): Item {
    if credential.Some? then Table(map["credential_ref" := Text(credential.value)]) else Table(map[])
  }

  function GroupItem(model: ModelAssign): Item {
    Table(map["model" := ModelItem(model)])
  }

  function DefaultsItem(d: Defaults): Item {
    Table(map["model" := ModelItem(d.model), "effort" := EffortItem(d.effort), "fallback" := FallbackItem(d.fallback)])
  }

  lemma PurposeItemReads(def: Purpose)
    ensures PurposeOf(PurposeItem(def)) == Some(def)
  {
    hide ModelOf, ModelItem, EffortOf, EffortItem, FallbackOf, FallbackItem, TextItems, TextsOf;
    PurposeSlotsRead(def);
    assert PurposeItem(def).fields.Keys <= PURPOSE_KEYS;
  }

  lemma PurposeSlotsRead(def: Purpose)
    ensures var f := PurposeItem(def).fields;
            && Optional(f, "group", TextOf) == Some(def.group) && Optional(f, "model", ModelOf) == Some(def.model)
            && Optional(f, "effort", EffortOf) == Some(def.effort) && Optional(f, "fallback", FallbackOf) == Some(def.fallback)
            && Optional(f, "pool", NamesOf) == Some(def.pool) && Optional(f, "eligible", NamesOf) == Some(def.eligible)
  {
    hide ModelOf, ModelItem, EffortOf, EffortItem, FallbackOf, FallbackItem, TextItems, TextsOf;
    if def.model.Some? { ModelRoundTrip(def.model.value); }
    if def.effort.Some? { EffortRoundTrip(def.effort.value); }
    if def.fallback.Some? { FallbackRoundTrip(def.fallback.value); }
    if def.pool.Some? { TextsRoundTrip(def.pool.value); }
    if def.eligible.Some? { TextsRoundTrip(def.eligible.value); }
    PurposeSlotsDiffer(def);
  }

  lemma PurposeSlotsDiffer(def: Purpose)
    ensures PurposeSlot(def, "group") == Maybe(def.group, text => Text(text))
    ensures PurposeSlot(def, "model") == Maybe(def.model, ModelItem)
    ensures PurposeSlot(def, "effort") == Maybe(def.effort, EffortItem)
    ensures PurposeSlot(def, "fallback") == Maybe(def.fallback, FallbackItem)
    ensures PurposeSlot(def, "pool") == Maybe(def.pool, names => List(TextItems(names)))
    ensures PurposeSlot(def, "eligible") == Maybe(def.eligible, names => List(TextItems(names)))
  {
    hide Maybe;
    assert "group" != "model" && "effort"[0] != "eligible"[1] && "fallback"[0] != "eligible"[0];
  }

  /** A connection of every kind, with every choice of optional fields, reads back
      exactly when its endpoint is admitted. */
  lemma ConnectionItemReads(g: Grammar, c: Connection)
    ensures ConnectionOf(g, ConnectionItem(c)) == if g.endpoint(c.endpoint) then Some(c) else None
  {
    var f := ConnectionItem(c).fields;
    ConnectionSlotsDiffer(c);
    KindReads(c.kind);
    assert f.Keys <= CONNECTION_KEYS;
    hide KindOf, KindName, ConnectionSlot;
    assert Required(f, "kind", KindOf) == Some(c.kind) && Required(f, "endpoint", TextOf) == Some(c.endpoint);
    assert Optional(f, "credential_ref", TextOf) == Some(c.credentialRef);
    assert Optional(f, "region", TextOf) == Some(c.region) && Optional(f, "profile", TextOf) == Some(c.profile);
  }

  lemma KindReads(kind: ConnectionKind)
    ensures KindOf(Text(KindName(kind))) == Some(kind)
  {
    assert "api_key" != "local" && "api_key" != "subscription" && "local" != "subscription";
  }

  lemma ConnectionSlotsDiffer(c: Connection)
    ensures ConnectionSlot(c, "kind") == Some(Text(KindName(c.kind))) && ConnectionSlot(c, "endpoint") == Some(Text(c.endpoint))
    ensures ConnectionSlot(c, "credential_ref") == Maybe(c.credentialRef, text => Text(text))
    ensures ConnectionSlot(c, "region") == Maybe(c.region, text => Text(text))
    ensures ConnectionSlot(c, "profile") == Maybe(c.profile, text => Text(text))
  {
    hide Maybe, KindName;
  }

  lemma ProfileItemReads(g: Grammar, credential: Option<string>)
    ensures ProfileOf(g, ProfileItem(credential)) ==
            if credential.Some? && !g.credential(credential.value) then None else Some(credential)
  {
  }

  lemma GroupItemReads(model: ModelAssign)
    ensures GroupOf(GroupItem(model)) == Some(model)
  {
    hide ModelOf, ModelItem;
    ModelRoundTrip(model);
    assert GroupItem(model).fields.Keys == {"model"};
  }

  lemma DefaultsItemReads(d: Defaults)
    ensures DefaultsOf(DefaultsItem(d)) == Some(d)
  {
    hide ModelOf, ModelItem, EffortOf, EffortItem, FallbackOf, FallbackItem;
    ItemsRoundTrip(d.model, d.effort, d.fallback, Ask);
    assert "model" != "effort" && "model" != "fallback" && "effort" != "fallback";
    assert DefaultsItem(d).fields.Keys == {"model", "effort", "fallback"};
  }

  /* ---- Sections ---- */

  function PurposesItem(purposes: map<Name, Purpose>): Item {
    Table(map n | n in purposes :: PurposeItem(purposes[n]))
  }

  function GroupsItem(groups: map<Name, ModelAssign>): Item {
    Table(map n | n in groups :: GroupItem(groups[n]))
  }

  function ConnectionsItem(connections: map<Name, Connection>): Item {
    Table(map n | n in connections :: ConnectionItem(connections[n]))
  }

  function ProfilesItem(profiles: map<Name, Option<string>>): Item {
    Table(map n | n in profiles :: ProfileItem(profiles[n]))
  }

  function ModelsSlot(m: Models, key: string): Option<Item> {
    if key == "defaults" then Maybe(m.defaults, DefaultsItem)
    else if key == "groups" then Some(GroupsItem(m.groups))
    else if key == "purposes" then Some(PurposesItem(m.purposes))
    else None
  }

  function ModelsItem(m: Models): Item {
    Table(Slots({"defaults", "groups", "purposes"}, key => ModelsSlot(m, key)))
  }

  lemma PurposesItemReads(purposes: map<Name, Purpose>)
    ensures PurposeRows(PurposesItem(purposes)) == Some(purposes)
  {
    hide PurposeOf, PurposeItem;
    forall n | n in purposes
      ensures PurposeOf(PurposeItem(purposes[n])) == Some(purposes[n])
    {
      PurposeItemReads(purposes[n]);
    }
    assert PurposeRows(PurposesItem(purposes)).value == purposes;
  }

  lemma GroupsItemReads(groups: map<Name, ModelAssign>)
    ensures GroupRows(GroupsItem(groups)) == Some(groups)
  {
    hide GroupOf, GroupItem;
    forall n | n in groups
      ensures GroupOf(GroupItem(groups[n])) == Some(groups[n])
    {
      GroupItemReads(groups[n]);
    }
    assert GroupRows(GroupsItem(groups)).value == groups;
  }

  predicate EndpointsAdmitted(g: Grammar, connections: map<Name, Connection>) {
    forall n :: n in connections ==> g.endpoint(connections[n].endpoint)
  }

  predicate CredentialsAdmitted(g: Grammar, profiles: map<Name, Option<string>>) {
    forall n :: n in profiles && profiles[n].Some? ==> g.credential(profiles[n].value)
  }

  lemma ConnectionsItemReads(g: Grammar, connections: map<Name, Connection>)
    ensures ConnectionRows(g, ConnectionsItem(connections)) ==
            if EndpointsAdmitted(g, connections) then Some(connections) else None
  {
    hide ConnectionOf, ConnectionItem;
    var fields := ConnectionsItem(connections).fields;
    forall n | n in fields
      ensures ConnectionOf(g, fields[n]) == if g.endpoint(connections[n].endpoint) then Some(connections[n]) else None
    {
      ConnectionItemReads(g, connections[n]);
    }
    if EndpointsAdmitted(g, connections) {
      assert ConnectionRows(g, ConnectionsItem(connections)).value == connections;
    } else {
      var n :| n in connections && !g.endpoint(connections[n].endpoint);
      assert n in fields && ConnectionOf(g, fields[n]) == None;
    }
  }

  lemma ProfilesItemReads(g: Grammar, profiles: map<Name, Option<string>>)
    ensures ProfileRows(g, ProfilesItem(profiles)) == if CredentialsAdmitted(g, profiles) then Some(profiles) else None
  {
    hide ProfileOf, ProfileItem;
    var fields := ProfilesItem(profiles).fields;
    forall n | n in fields
      ensures ProfileOf(g, fields[n]) ==
              if profiles[n].Some? && !g.credential(profiles[n].value) then None else Some(profiles[n])
    {
      ProfileItemReads(g, profiles[n]);
    }
    if CredentialsAdmitted(g, profiles) {
      assert ProfileRows(g, ProfilesItem(profiles)).value == profiles;
    } else {
      var n :| n in profiles && profiles[n].Some? && !g.credential(profiles[n].value);
      assert n in fields && ProfileOf(g, fields[n]) == None;
    }
  }

  lemma ModelsItemReads(m: Models)
    ensures ModelsOf(ModelsItem(m)) == Some(m)
  {
    hide DefaultsOf, DefaultsItem, GroupRows, GroupsItem, PurposeRows, PurposesItem;
    if m.defaults.Some? { DefaultsItemReads(m.defaults.value); }
    GroupsItemReads(m.groups);
    PurposesItemReads(m.purposes);
    var f := ModelsItem(m).fields;
    assert "defaults" != "groups" && "groups" != "purposes" && "defaults"[0] != "purposes"[0];
    assert ModelsSlot(m, "purposes") == Some(PurposesItem(m.purposes)) && ModelsSlot(m, "groups") == Some(GroupsItem(m.groups));
    assert f.Keys <= {"defaults", "groups", "purposes"};
  }

  /* ---- Documents ---- */

  /** The sections the typed view does not carry. */
  datatype Extras = Extras(hooks: Option<Item>, servers: Option<Item>)

  const NoExtras: Extras := Extras(None, None)

  function FlagItem(key: string, on: bool): Item {
    Table(map[key := Bool(on)])
  }

  function DocumentSlot(p: Parsed, x: Extras, key: string): Option<Item> {
    if key == "config_version" then Some(Int(p.version))
    else if key == "workflow" then Maybe(p.workflow, on => FlagItem("enabled", on))
    else if key == "decisions" then Maybe(p.decisions, mode => Table(map["mode" := Text(DecisionName(mode))]))
    else if key == "context" then Maybe(p.autoCompact, on => FlagItem("auto_compact", on))
    else if key == "connections" then Some(ConnectionsItem(p.connections))
    else if key == "profiles" then Some(ProfilesItem(p.profiles))
    else if key == "models" then Some(ModelsItem(p.models))
    else if key == "hooks" then x.hooks
    else if key == "mcp" then x.servers
    else None
  }

  function Rendered(p: Parsed, x: Extras): Item {
    Table(Slots(ROOT_KEYS, key => DocumentSlot(p, x, key)))
  }

  predicate Admitted(g: Grammar, p: Parsed, x: Extras) {
    && p.version == 1 && EndpointsAdmitted(g, p.connections) && CredentialsAdmitted(g, p.profiles)
    && (x.hooks.Some? ==> g.hooks(x.hooks.value)) && (x.servers.Some? ==> g.servers(x.servers.value))
  }

  lemma SlotRendered(p: Parsed, x: Extras, key: string)
    requires key in ROOT_KEYS
    ensures key in Rendered(p, x).fields <==> DocumentSlot(p, x, key).Some?
    ensures DocumentSlot(p, x, key).Some? ==> Rendered(p, x).fields[key] == DocumentSlot(p, x, key).value
  {
    hide DocumentSlot;
  }

  lemma FlagsRead(p: Parsed, x: Extras)
    ensures var f := Rendered(p, x).fields;
            && Optional(f, "workflow", item => Single(item, "enabled", BoolOf)) ==
               (if p.workflow.Some? then Some(Some(p.workflow)) else Some(None))
            && Optional(f, "context", item => Single(item, "auto_compact", BoolOf)) ==
               (if p.autoCompact.Some? then Some(Some(p.autoCompact)) else Some(None))
  {
    SlotRendered(p, x, "workflow");
    SlotRendered(p, x, "context");
    RootSlots(p, x);
    hide Rendered, DocumentSlot;
  }

  lemma DecisionsRead(p: Parsed, x: Extras)
    ensures Optional(Rendered(p, x).fields, "decisions", item => Single(item, "mode", DecisionOf)) ==
            if p.decisions.Some? then Some(Some(p.decisions)) else Some(None)
  {
    SlotRendered(p, x, "decisions");
    RootSlots(p, x);
    hide Rendered, DocumentSlot, DecisionOf, DecisionName;
    if p.decisions.Some? {
      ItemsRoundTrip(Inherit, AutoEffort, Off, p.decisions.value);
    }
  }

  lemma RootSlots(p: Parsed, x: Extras)
    ensures DocumentSlot(p, x, "config_version") == Some(Int(p.version))
    ensures DocumentSlot(p, x, "workflow") == Maybe(p.workflow, on => FlagItem("enabled", on))
    ensures DocumentSlot(p, x, "decisions") == Maybe(p.decisions, mode => Table(map["mode" := Text(DecisionName(mode))]))
    ensures DocumentSlot(p, x, "context") == Maybe(p.autoCompact, on => FlagItem("auto_compact", on))
    ensures DocumentSlot(p, x, "connections") == Some(ConnectionsItem(p.connections))
    ensures DocumentSlot(p, x, "profiles") == Some(ProfilesItem(p.profiles))
    ensures DocumentSlot(p, x, "models") == Some(ModelsItem(p.models))
    ensures DocumentSlot(p, x, "hooks") == x.hooks && DocumentSlot(p, x, "mcp") == x.servers
  {
    hide Maybe, ConnectionsItem, ProfilesItem, ModelsItem, FlagItem, DecisionName;
    assert "config_version"[3] != "connections"[3] && "context"[3] != "connections"[3] && "context"[3] != "config_version"[3];
    assert "models" != "mcp" && "workflow"[0] != "decisions"[0];
  }

  lemma TablesRead(g: Grammar, p: Parsed, x: Extras)
    ensures var f := Rendered(p, x).fields;
            && (Required(f, "config_version", VersionOf) == if p.version == 1 then Some(1) else None)
            && (Optional(f, "connections", item => ConnectionRows(g, item)) ==
                  if EndpointsAdmitted(g, p.connections) then Some(Some(p.connections)) else None)
            && (Optional(f, "profiles", item => ProfileRows(g, item)) ==
                  if CredentialsAdmitted(g, p.profiles) then Some(Some(p.profiles)) else None)
            && Optional(f, "models", ModelsOf) == Some(Some(p.models))
  {
    SlotRendered(p, x, "config_version");
    SlotRendered(p, x, "connections");
    SlotRendered(p, x, "profiles");
    SlotRendered(p, x, "models");
    RootSlots(p, x);
    hide Rendered, DocumentSlot, ConnectionRows, ConnectionsItem, ProfileRows, ProfilesItem, ModelsOf, ModelsItem,
         EndpointsAdmitted, CredentialsAdmitted;
    ConnectionsItemReads(g, p.connections);
    ProfilesItemReads(g, p.profiles);
    ModelsItemReads(p.models);
  }

  /** Every typed view is read back from the document it is written as, section by
      section, exactly when its version is the supported one and its endpoints,
      credentials and foreign sections are admitted. */
  lemma RenderedReads(g: Grammar, p: Parsed, x: Extras)
    ensures SectionsOf(g, Rendered(p, x)) == if Admitted(g, p, x) then Some(p) else None
  {
    hide Rendered, DocumentSlot, ConnectionRows, ProfileRows, ModelsOf, Single, EndpointsAdmitted, CredentialsAdmitted,
         Optional, Required, Maybe;
    FlagsRead(p, x);
    DecisionsRead(p, x);
    TablesRead(g, p, x);
    ExtrasRead(p, x);
  }

  lemma ExtrasRead(p: Parsed, x: Extras)
    ensures Rendered(p, x).Table? && Rendered(p, x).fields.Keys <= ROOT_KEYS
    ensures var f := Rendered(p, x).fields;
            && (if "hooks" in f then x.hooks == Some(f["hooks"]) else x.hooks == None)
            && (if "mcp" in f then x.servers == Some(f["mcp"]) else x.servers == None)
  {
    SlotRendered(p, x, "hooks");
    SlotRendered(p, x, "mcp");
    RootSlots(p, x);
    assert Rendered(p, x).fields.Keys <= ROOT_KEYS;
  }

  /** So a written view is a valid document exactly when it is also coherent. */
  lemma RenderedIsValid(g: Grammar, p: Parsed, x: Extras)
    ensures DocumentOf(g, Rendered(p, x)) == if Admitted(g, p, x) && Coherent(g, p) then Some(p) else None
  {
    hide SectionsOf, Rendered, Admitted, Coherent;
    RenderedReads(g, p, x);
  }

  /* ---- References ---- */

  /** An assignment names this connection. */
  predicate Assigns(model: ModelAssign, n: Name) {
    match model
    case Fixed(fixed) => n == fixed.connection
    case Auto(pool) => pool.Some? && n in pool.value
    case Inherit => false
  }

  ghost predicate ChainNames(fallback: FallbackAssign, n: Name) {
    fallback.AutoFallback? && exists i :: 0 <= i < |fallback.chain| && fallback.chain[i].connection == n
  }

  /** Some default, group or purpose names this connection. */
  ghost predicate Mentioned(m: Models, n: Name) {
    || (m.defaults.Some? && (Assigns(m.defaults.value.model, n) || ChainNames(m.defaults.value.fallback, n)))
    || (exists k :: k in m.groups && Assigns(m.groups[k], n))
    || (exists k :: k in m.purposes && PurposeMentions(m.purposes[k], n))
  }

  ghost predicate PurposeMentions(p: Purpose, n: Name) {
    (p.model.Some? && Assigns(p.model.value, n)) || (p.fallback.Some? && ChainNames(p.fallback.value, n))
  }

  ghost predicate GroupsBound(m: Models) {
    forall k :: k in m.purposes && m.purposes[k].group.Some? ==> m.purposes[k].group.value in m.groups
  }

  lemma AssignsExact(connections: set<Name>, model: ModelAssign)
    ensures ModelDeclared(connections, model) <==> forall n :: Assigns(model, n) ==> n in connections
  {
    assert forall n :: n in ModelNames(model) <==> Assigns(model, n);
  }

  lemma ChainExact(connections: set<Name>, fallback: FallbackAssign)
    ensures ChainDeclared(connections, fallback) <==> forall n :: ChainNames(fallback, n) ==> n in connections
  {
    if fallback.AutoFallback? && forall n :: ChainNames(fallback, n) ==> n in connections {
      forall i | 0 <= i < |fallback.chain|
        ensures fallback.chain[i].connection in connections
      {
        assert ChainNames(fallback, fallback.chain[i].connection);
      }
    }
  }

  lemma PurposeExact(connections: set<Name>, groups: set<Name>, p: Purpose)
    ensures PurposeDeclared(connections, groups, p) <==>
            (p.group.Some? ==> p.group.value in groups) && forall n :: PurposeMentions(p, n) ==> n in connections
  {
    hide ModelDeclared, ChainDeclared, Assigns, ChainNames;
    if p.model.Some? { AssignsExact(connections, p.model.value); }
    if p.fallback.Some? { ChainExact(connections, p.fallback.value); }
    assert forall n :: p.model.Some? && Assigns(p.model.value, n) ==> PurposeMentions(p, n);
    assert forall n :: p.fallback.Some? && ChainNames(p.fallback.value, n) ==> PurposeMentions(p, n);
  }

  lemma DefaultsExact(connections: set<Name>, d: Defaults)
    ensures DefaultsDeclared(connections, Some(d)) <==>
            forall n :: Assigns(d.model, n) || ChainNames(d.fallback, n) ==> n in connections
  {
    hide ModelDeclared, ChainDeclared, Assigns, ChainNames;
    AssignsExact(connections, d.model);
    ChainExact(connections, d.fallback);
  }

  /** The reference check of a file and of a composed document: every connection
      mentioned anywhere is declared, and every group bound to is there. */
  lemma ReferencesExact(connections: set<Name>, m: Models)
    ensures ReferencesHold(connections, m) <==> GroupsBound(m) && forall n :: Mentioned(m, n) ==> n in connections
  {
    hide ModelDeclared, ChainDeclared, PurposeDeclared, Assigns, ChainNames, PurposeMentions;
    if m.defaults.Some? { DefaultsExact(connections, m.defaults.value); }
    forall k | k in m.groups
      ensures ModelDeclared(connections, m.groups[k]) <==> forall n :: Assigns(m.groups[k], n) ==> n in connections
    {
      AssignsExact(connections, m.groups[k]);
    }
    forall k | k in m.purposes
      ensures PurposeDeclared(connections, m.groups.Keys, m.purposes[k]) <==>
              (m.purposes[k].group.Some? ==> m.purposes[k].group.value in m.groups)
              && forall n :: PurposeMentions(m.purposes[k], n) ==> n in connections
    {
      PurposeExact(connections, m.groups.Keys, m.purposes[k]);
    }
    if forall n :: Mentioned(m, n) ==> n in connections {
      MentionsSpread(connections, m);
    }
  }

  lemma MentionsSpread(connections: set<Name>, m: Models)
    requires forall n :: Mentioned(m, n) ==> n in connections
    ensures m.defaults.Some? ==>
              forall n :: Assigns(m.defaults.value.model, n) || ChainNames(m.defaults.value.fallback, n) ==> n in connections
    ensures forall k, n :: k in m.groups && Assigns(m.groups[k], n) ==> n in connections
    ensures forall k, n :: k in m.purposes && PurposeMentions(m.purposes[k], n) ==> n in connections
  {
    hide Assigns, ChainNames, PurposeMentions;
  }

  /** The whole-document rules: some connection, each under the rule of its kind
      and a declared profile, defaults, and references that resolve. */
  lemma CoherentExact(g: Grammar, p: Parsed)
    ensures Coherent(g, p) <==>
            && p.connections != map[] && p.models.defaults.Some? && GroupsBound(p.models)
            && (forall n :: n in p.connections ==>
                  && CredentialRule(g, n, p.connections[n])
                  && (p.connections[n].profile.Some? ==> p.connections[n].profile.value in p.profiles))
            && (forall n :: Mentioned(p.models, n) ==> n in p.connections)
  {
    hide ReferencesHold, GroupsBound, Mentioned;
    ReferencesExact(p.connections.Keys, p.models);
    forall n | n in p.connections
      ensures ConnectionSound(g, p.profiles.Keys, n, p.connections[n]) <==>
              && CredentialRule(g, n, p.connections[n])
              && (p.connections[n].profile.Some? ==> p.connections[n].profile.value in p.profiles)
    {
    }
  }

  /* ---- One connection ---- */

  function OneConnection(name: Name, c: Connection, d: Defaults): Parsed {
    Parsed(1, None, None, None, map[name := c], map[], Models(Some(d), map[], map[]))
  }

  /** What each kind asks of the reference to its credential. */
  predicate CredentialRule(g: Grammar, name: Name, c: Connection) {
    match c.kind
    case Local => c.credentialRef == None
    case Subscription => c.credentialRef.Some? && g.credential(c.credentialRef.value)
    case ApiKey => if c.credentialRef.Some? then g.credential(c.credentialRef.value) else g.keyless(name)
  }

  /** A document of one connection of any kind is valid exactly under that kind's
      rule, an admitted endpoint, no profile, and defaults that name no other. */
  lemma OneConnectionExact(g: Grammar, name: Name, c: Connection, d: Defaults)
    ensures DocumentOf(g, Rendered(OneConnection(name, c, d), NoExtras)) ==
            if g.endpoint(c.endpoint) && CredentialRule(g, name, c) && c.profile == None && DefaultsDeclared({name}, Some(d))
            then Some(OneConnection(name, c, d)) else None
  {
    var p := OneConnection(name, c, d);
    RenderedIsValid(g, p, NoExtras);
    hide DocumentOf, Rendered, ModelDeclared, ChainDeclared;
    assert p.connections.Keys == {name} && p.connections[name] == c;
    assert Coherent(g, p) <==> ConnectionSound(g, {}, name, c) && DefaultsDeclared({name}, Some(d)) by {
      assert p.profiles.Keys == {};
    }
    assert EndpointsAdmitted(g, p.connections) <==> g.endpoint(c.endpoint);
    assert CredentialsAdmitted(g, p.profiles);
  }

  /* ---- Nothing unknown is read ---- */

  /** A strict row that reads holds exactly the keys its reading is written with. */
  lemma RowsAreStrict(g: Grammar, row: Item)
    ensures PurposeOf(row).Some? ==> row.fields.Keys == PurposeItem(PurposeOf(row).value).fields.Keys
    ensures ConnectionOf(g, row).Some? ==> row.fields.Keys == ConnectionItem(ConnectionOf(g, row).value).fields.Keys
    ensures ProfileOf(g, row).Some? ==> row.fields.Keys == ProfileItem(ProfileOf(g, row).value).fields.Keys
    ensures GroupOf(row).Some? ==> row.fields.Keys == GroupItem(GroupOf(row).value).fields.Keys
    ensures DefaultsOf(row).Some? ==> row.fields.Keys == DefaultsItem(DefaultsOf(row).value).fields.Keys
  {
    hide PurposeOf, PurposeItem, ConnectionOf, ConnectionItem, ProfileOf, ProfileItem, GroupOf, DefaultsOf;
    if PurposeOf(row).Some? {
      PurposeKeysStrict(row);
    }
    if ConnectionOf(g, row).Some? {
      ConnectionKeysStrict(g, row);
    }
    SmallRowsAreStrict(g, row);
  }

  lemma SmallRowsAreStrict(g: Grammar, row: Item)
    ensures ProfileOf(g, row).Some? ==> row.fields.Keys == ProfileItem(ProfileOf(g, row).value).fields.Keys
    ensures GroupOf(row).Some? ==> row.fields.Keys == GroupItem(GroupOf(row).value).fields.Keys
    ensures DefaultsOf(row).Some? ==> row.fields.Keys == DefaultsItem(DefaultsOf(row).value).fields.Keys
  {
    hide ModelOf, EffortOf, FallbackOf, ModelItem, EffortItem, FallbackItem;
  }

  lemma PurposeKeysStrict(row: Item)
    requires PurposeOf(row).Some?
    ensures row.fields.Keys == PurposeItem(PurposeOf(row).value).fields.Keys
  {
    hide ModelOf, EffortOf, FallbackOf, NamesOf, ModelItem, EffortItem, FallbackItem;
    var def := PurposeOf(row).value;
    PurposeSlotsDiffer(def);
    hide PurposeSlot;
    forall k
      ensures k in row.fields <==> k in PURPOSE_KEYS && PurposeSlot(def, k).Some?
    {
      if k in PURPOSE_KEYS {
        assert k == "group" || k == "model" || k == "effort" || k == "fallback" || k == "pool" || k == "eligible";
      }
    }
  }

  lemma ConnectionKeysStrict(g: Grammar, row: Item)
    requires ConnectionOf(g, row).Some?
    ensures row.fields.Keys == ConnectionItem(ConnectionOf(g, row).value).fields.Keys
  {
    hide KindOf, KindName;
    var c := ConnectionOf(g, row).value;
    ConnectionSlotsDiffer(c);
    hide ConnectionSlot;
    forall k
      ensures k in row.fields <==> k in CONNECTION_KEYS && ConnectionSlot(c, k).Some?
    {
      if k in CONNECTION_KEYS {
        assert k == "kind" || k == "endpoint" || k == "credential_ref" || k == "region" || k == "profile";
      }
    }
  }

  /* ---- What assignments are read from ---- */

  /** The table holds at least these slots. */
  predicate Holds(fields: map<string, Item>, slots: map<string, Item>) {
    forall k :: k in slots ==> k in fields && fields[k] == slots[k]
  }

  lemma {:induction false} TextsExact(items: seq<Item>, names: seq<Name>)
    ensures TextsOf(items) == Some(names) <==> items == TextItems(names)
  {
    if items == [] {
      assert TextItems(names) == [] <==> names == [];
    } else if names == [] {
      assert TextItems(names) == [];
    } else {
      TextsExact(items[1..], names[1..]);
      assert TextItems(names)[1..] == TextItems(names[1..]) && TextItems(names)[0] == Text(names[0]);
      assert names == [names[0]] + names[1..] && items == [items[0]] + items[1..];
      assert TextItems(names) == [Text(names[0])] + TextItems(names[1..]);
      if TextsOf(items) == Some(names) {
        var head, tail := TextOf(items[0]).value, TextsOf(items[1..]).value;
        assert ([head] + tail)[0] == head && ([head] + tail)[1..] == tail;
      }
    }
  }

  /** A name list is read from exactly its list of strings. */
  lemma NamesExact(item: Item, names: seq<Name>)
    ensures NamesOf(item) == Some(names) <==> item == List(TextItems(names))
  {
    if item.List? {
      TextsExact(item.items, names);
    }
  }

  function BareEntryItem(entry: FixedModel): Item {
    Table(map["connection" := Text(entry.connection), "model_id" := Text(entry.modelId)])
  }

  lemma BareEntryReads(entry: FixedModel)
    ensures EntryOf(BareEntryItem(entry)) == Some(entry)
  {
    var f := BareEntryItem(entry).fields;
    assert "connection" != "mode" && "model_id" != "mode" && "connection" != "model_id";
    assert f.Keys == {"connection", "model_id"};
  }

  /** A chain entry is read from exactly its two strings, with or without its mode. */
  lemma EntryExact(item: Item, entry: FixedModel)
    ensures EntryOf(item) == Some(entry) <==> item == EntryItem(entry) || item == BareEntryItem(entry)
  {
    EntryRoundTrip(entry);
    BareEntryReads(entry);
    assert "connection" != "mode" && "model_id" != "mode" && "connection" != "model_id";
    if EntryOf(item) == Some(entry) {
      if "mode" in item.fields {
        assert item.fields == EntryItem(entry).fields;
      } else {
        assert item.fields == BareEntryItem(entry).fields;
      }
    }
  }

  lemma LevelExact(raw: string, level: EffortLevel)
    ensures LevelOf(raw) == Some(level) <==> raw == LevelName(level)
  {
    assert "minimal" != "medium" && "low" != "high" && "xhigh" != "high" && "minimal" != "low";
  }

  /** Assignment tables are permissive: they read by the slots of their mode and let
      any other stand, but for the pool an unrestricted model must not have. */
  lemma EffortExact(item: Item, effort: EffortAssign)
    ensures EffortOf(item) == Some(effort) <==> item.Table? && Holds(item.fields, EffortItem(effort).fields)
  {
    hide LevelOf, LevelName;
    assert "value" != "mode" && "inherit" != "auto" && "inherit" != "fixed" && "auto" != "fixed";
    if effort.FixedEffort? {
      forall raw
        ensures LevelOf(raw) == Some(effort.level) <==> raw == LevelName(effort.level)
      {
        LevelExact(raw, effort.level);
      }
    }
  }

  lemma ModelExact(item: Item, model: ModelAssign)
    ensures ModelOf(item) == Some(model) <==>
            item.Table? && Holds(item.fields, ModelItem(model).fields) && (model == Auto(None) ==> "pool" !in item.fields)
  {
    hide NamesOf, TextItems;
    assert "pool" != "mode" && "connection" != "mode" && "model_id" != "mode" && "connection" != "model_id";
    assert "inherit" != "auto" && "inherit" != "fixed" && "auto" != "fixed";
    if item.Table? && "pool" in item.fields && model.Auto? && model.pool.Some? {
      NamesExact(item.fields["pool"], model.pool.value);
    }
  }

  lemma FallbackExact(item: Item, fallback: FallbackAssign)
    ensures FallbackOf(item) == Some(fallback) <==>
            && item.Table?
            && match fallback
               case Manual => Holds(item.fields, map["mode" := Text("manual")])
               case Off => Holds(item.fields, map["mode" := Text("off")])
               case AutoFallback(chain) =>
                 && Holds(item.fields, map["mode" := Text("auto")])
                 && if "chain" in item.fields then ChainListOf(item.fields["chain"]) == Some(chain) else chain == []
  {
    hide ChainListOf;
    assert "chain" != "mode" && "manual" != "auto" && "manual" != "off" && "auto" != "off";
  }
}
