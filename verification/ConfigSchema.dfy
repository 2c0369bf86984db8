/** The config document as a plain item tree, and the schema that reads its typed
    view (src/config.rs). Refusals are told apart from acceptance, not from each
    other, so no result depends on the order of a table's keys. */
module ConfigSchema {
  import opened Wrappers

  /** `Table` stands for standard and inline tables alike, `Other` for every value
      the schema only ever refuses. */
  datatype Item = Bool(b: bool) | Int(i: int) | Text(s: string) | List(items: seq<Item>) | Table(fields: map<string, Item>) | Other

  type Name = string

  datatype FixedModel = FixedModel(connection: Name, modelId: string)

  datatype ModelAssign = Inherit | Auto(pool: Option<seq<Name>>) | Fixed(fixed: FixedModel)

  datatype EffortLevel = Minimal | Low | Medium | High | Xhigh

  datatype EffortAssign = InheritEffort | AutoEffort | FixedEffort(level: EffortLevel)

  datatype FallbackAssign = AutoFallback(chain: seq<FixedModel>) | Manual | Off

  datatype Defaults = Defaults(model: ModelAssign, effort: EffortAssign, fallback: FallbackAssign)

  datatype Purpose = Purpose(
    group: Option<Name>, model: Option<ModelAssign>, effort: Option<EffortAssign>, fallback: Option<FallbackAssign>,
    pool: Option<seq<Name>>, eligible: Option<seq<Name>>)

  const EmptyPurpose: Purpose := Purpose(None, None, None, None, None, None)

  /** A group is its model assignment. */
  datatype Models = Models(defaults: Option<Defaults>, groups: map<Name, ModelAssign>, purposes: map<Name, Purpose>)

  datatype ConnectionKind = ApiKey | Local | Subscription

  datatype Connection = Connection(
    kind: ConnectionKind, endpoint: string, credentialRef: Option<string>, region: Option<string>, profile: Option<Name>)

  datatype DecisionMode = Ask | AutoDecide | InheritMode

  /** A profile is its optional credential reference. */
  datatype Parsed = Parsed(
    version: nat, workflow: Option<bool>, decisions: Option<DecisionMode>, autoCompact: Option<bool>,
    connections: map<Name, Connection>, profiles: map<Name, Option<string>>, models: Models)

  /** The grammars this model does not open: hook and server sections, endpoints,
      credential references, and the connections that may omit one. */
  datatype Grammar = Grammar(
    hooks: Item -> bool, servers: Item -> bool, endpoint: string -> bool, credential: string -> bool, keyless: string -> bool)

  /* ---- Fields ---- */

  function TextOf(item: Item): Option<string> {
    if item.Text? then Some(item.s) else None
  }

  function BoolOf(item: Item): Option<bool> {
    if item.Bool? then Some(item.b) else None
  }

  /** An absent field reads as absent; a present one must satisfy its reader. */
  function Optional<T>(fields: map<string, Item>, key: string, read: Item -> Option<T>): Option<Option<T>> {
    if key !in fields then Some(None)
    else
      match read(fields[key])
      case Some(v) => Some(Some(v))
      case None => None
  }

  function Required<T>(fields: map<string, Item>, key: string, read: Item -> Option<T>): Option<T> {
    if key in fields then read(fields[key]) else None
  }

  /** Every row of a table, or nothing when one of them is refused. */
  function Rows<T>(fields: map<string, Item>, read: Item -> Option<T>): (r: Option<map<string, T>>)
    ensures r.Some? <==> forall k :: k in fields ==> read(fields[k]).Some?
    ensures r.Some? ==> r.value.Keys == fields.Keys && forall k :: k in fields ==> read(fields[k]) == Some(r.value[k])
  {
    if forall k :: k in fields ==> read(fields[k]).Some? then Some(map k | k in fields :: read(fields[k]).value) else None
  }

  function NamesOf(item: Item): Option<seq<Name>> {
    if item.List? then TextsOf(item.items) else None
  }

  function TextsOf(items: seq<Item>): Option<seq<string>> {
    if items == [] then Some([])
    else
      match (TextOf(items[0]), TextsOf(items[1..]))
      case (Some(head), Some(tail)) => Some([head] + tail)
      case _ => None
  }

  /* ---- Assignments ---- */

  function ModelOf(item: Item): Option<ModelAssign> {
    if !item.Table? then None
    else
      match Required(item.fields, "mode", TextOf)
      case None => None
      case Some(mode) =>
        if mode == "inherit" then Some(Inherit)
        else if mode == "auto" then
          (match Optional(item.fields, "pool", NamesOf)
           case Some(pool) => Some(Auto(pool))
           case None => None)
        else if mode == "fixed" then
          (match (Required(item.fields, "connection", TextOf), Required(item.fields, "model_id", TextOf))
           case (Some(connection), Some(id)) => Some(Fixed(FixedModel(connection, id)))
           case _ => None)
        else None
  }

  function LevelOf(raw: string): Option<EffortLevel> {
    if raw == "minimal" then Some(Minimal)
    else if raw == "low" then Some(Low)
    else if raw == "medium" then Some(Medium)
    else if raw == "high" then Some(High)
    else if raw == "xhigh" then Some(Xhigh)
    else None
  }

  function LevelName(level: EffortLevel): string {
    match level
    case Minimal => "minimal"
    case Low => "low"
    case Medium => "medium"
    case High => "high"
    case Xhigh => "xhigh"
  }

  function EffortOf(item: Item): Option<EffortAssign> {
    if !item.Table? then None
    else
      match Required(item.fields, "mode", TextOf)
      case None => None
      case Some(mode) =>
        if mode == "inherit" then Some(InheritEffort)
        else if mode == "auto" then Some(AutoEffort)
        else if mode == "fixed" then
          (match Required(item.fields, "value", TextOf)
           case Some(raw) =>
             (match LevelOf(raw)
              case Some(level) => Some(FixedEffort(level))
              case None => None)
           case None => None)
        else None
  }

  /** Chain entries are strict where the assignment tables are permissive. */
  function EntryOf(item: Item): Option<FixedModel> {
    if !item.Table? || !(item.fields.Keys <= {"mode", "connection", "model_id"}) then None
    else if "mode" in item.fields && item.fields["mode"] != Text("fixed") then None
    else
      match (Required(item.fields, "connection", TextOf), Required(item.fields, "model_id", TextOf))
      case (Some(connection), Some(id)) => Some(FixedModel(connection, id))
      case _ => None
  }

  function ChainOf(items: seq<Item>): Option<seq<FixedModel>> {
    if items == [] then Some([])
    else
      match (EntryOf(items[0]), ChainOf(items[1..]))
      case (Some(head), Some(tail)) => Some([head] + tail)
      case _ => None
  }

  function ChainListOf(item: Item): Option<seq<FixedModel>> {
    if item.List? then ChainOf(item.items) else None
  }

  function FallbackOf(item: Item): Option<FallbackAssign> {
    if !item.Table? then None
    else
      match Required(item.fields, "mode", TextOf)
      case None => None
      case Some(mode) =>
        if mode == "auto" then
          (match Optional(item.fields, "chain", ChainListOf)
           case Some(None) => Some(AutoFallback([]))
           case Some(Some(chain)) => Some(AutoFallback(chain))
           case None => None)
        else if mode == "manual" then Some(Manual)
        else if mode == "off" then Some(Off)
        else None
  }

  /* ---- Rows ---- */

  const PURPOSE_KEYS: set<string> := {"group", "model", "effort", "fallback", "pool", "eligible"}
  const CONNECTION_KEYS: set<string> := {"kind", "endpoint", "credential_ref", "region", "profile"}
  const ROOT_KEYS: set<string> :=
    {"config_version", "workflow", "decisions", "context", "connections", "profiles", "models", "hooks", "mcp"}

  function PurposeOf(item: Item): Option<Purpose> {
    if !item.Table? || !(item.fields.Keys <= PURPOSE_KEYS) then None
    else
      var f := item.fields;
      match (Optional(f, "group", TextOf), Optional(f, "model", ModelOf), Optional(f, "effort", EffortOf),
             Optional(f, "fallback", FallbackOf), Optional(f, "pool", NamesOf), Optional(f, "eligible", NamesOf))
      case (Some(group), Some(model), Some(effort), Some(fallback), Some(pool), Some(eligible)) =>
        Some(Purpose(group, model, effort, fallback, pool, eligible))
      case _ => None
  }

  function GroupOf(item: Item): Option<ModelAssign> {
    if !item.Table? || !(item.fields.Keys <= {"model"}) then None else Required(item.fields, "model", ModelOf)
  }

  function DefaultsOf(item: Item): Option<Defaults> {
    if !item.Table? || !(item.fields.Keys <= {"model", "effort", "fallback"}) then None
    else
      match (Required(item.fields, "model", ModelOf), Required(item.fields, "effort", EffortOf),
             Required(item.fields, "fallback", FallbackOf))
      case (Some(model), Some(effort), Some(fallback)) => Some(Defaults(model, effort, fallback))
      case _ => None
  }

  function GroupRows(item: Item): Option<map<Name, ModelAssign>> {
    if item.Table? then Rows(item.fields, GroupOf) else None
  }

  function PurposeRows(item: Item): Option<map<Name, Purpose>> {
    if item.Table? then Rows(item.fields, PurposeOf) else None
  }

  function OrEmpty<T>(rows: Option<map<string, T>>): map<string, T> {
    if rows.Some? then rows.value else map[]
  }

  function ModelsOf(item: Item): Option<Models> {
    if !item.Table? || !(item.fields.Keys <= {"defaults", "groups", "purposes"}) then None
    else
      match (Optional(item.fields, "defaults", DefaultsOf), Optional(item.fields, "groups", GroupRows),
             Optional(item.fields, "purposes", PurposeRows))
      case (Some(defaults), Some(groups), Some(purposes)) => Some(Models(defaults, OrEmpty(groups), OrEmpty(purposes)))
      case _ => None
  }

  function KindOf(item: Item): Option<ConnectionKind> {
    if item == Text("api_key") then Some(ApiKey)
    else if item == Text("local") then Some(Local)
    else if item == Text("subscription") then Some(Subscription)
    else None
  }

  function ConnectionOf(g: Grammar, item: Item): Option<Connection> {
    if !item.Table? || !(item.fields.Keys <= CONNECTION_KEYS) then None
    else
      var f := item.fields;
      match (Required(f, "kind", KindOf), Required(f, "endpoint", TextOf), Optional(f, "credential_ref", TextOf),
             Optional(f, "region", TextOf), Optional(f, "profile", TextOf))
      case (Some(kind), Some(endpoint), Some(credential), Some(region), Some(profile)) =>
        if g.endpoint(endpoint) then Some(Connection(kind, endpoint, credential, region, profile)) else None
      case _ => None
  }

  function CredentialOf(g: Grammar, item: Item): Option<string> {
    if item.Text? && g.credential(item.s) then Some(item.s) else None
  }

  function ProfileOf(g: Grammar, item: Item): Option<Option<string>> {
    if !item.Table? || !(item.fields.Keys <= {"credential_ref"}) then None
    else Optional(item.fields, "credential_ref", value => CredentialOf(g, value))
  }

  function ConnectionRows(g: Grammar, item: Item): Option<map<Name, Connection>> {
    if item.Table? then Rows(item.fields, entry => ConnectionOf(g, entry)) else None
  }

  function ProfileRows(g: Grammar, item: Item): Option<map<Name, Option<string>>> {
    if item.Table? then Rows(item.fields, entry => ProfileOf(g, entry)) else None
  }

  /** A section with one optional field. */
  function Single<T>(item: Item, key: string, read: Item -> Option<T>): Option<Option<T>> {
    if !item.Table? || !(item.fields.Keys <= {key}) then None else Optional(item.fields, key, read)
  }

  function DecisionOf(item: Item): Option<DecisionMode> {
    if item == Text("ask") then Some(Ask)
    else if item == Text("auto") then Some(AutoDecide)
    else if item == Text("inherit") then Some(InheritMode)
    else None
  }

  function VersionOf(item: Item): Option<nat> {
    if item == Int(1) then Some(1) else None
  }

  /* ---- References ---- */

  function ModelNames(model: ModelAssign): seq<Name> {
    match model
    case Fixed(fixed) => [fixed.connection]
    case Auto(Some(pool)) => pool
    case _ => []
  }

  predicate ModelDeclared(connections: set<Name>, model: ModelAssign) {
    forall n :: n in ModelNames(model) ==> n in connections
  }

  predicate ChainDeclared(connections: set<Name>, fallback: FallbackAssign) {
    fallback.AutoFallback? ==>
      forall i :: 0 <= i < |fallback.chain| ==> fallback.chain[i].connection in connections
  }

  predicate DefaultsDeclared(connections: set<Name>, defaults: Option<Defaults>) {
    defaults.Some? ==> ModelDeclared(connections, defaults.value.model) && ChainDeclared(connections, defaults.value.fallback)
  }

  predicate PurposeDeclared(connections: set<Name>, groups: set<Name>, p: Purpose) {
    && (p.group.Some? ==> p.group.value in groups)
    && (p.model.Some? ==> ModelDeclared(connections, p.model.value))
    && (p.fallback.Some? ==> ChainDeclared(connections, p.fallback.value))
  }

  /** `check_model_references`, one function for a file and a composed document. */
  predicate ReferencesHold(connections: set<Name>, m: Models) {
    && DefaultsDeclared(connections, m.defaults)
    && (forall n :: n in m.groups ==> ModelDeclared(connections, m.groups[n]))
    && (forall n :: n in m.purposes ==> PurposeDeclared(connections, m.groups.Keys, m.purposes[n]))
  }

  /** The whole-document rules on one connection. */
  predicate ConnectionSound(g: Grammar, profiles: set<Name>, name: Name, c: Connection) {
    && (!c.kind.Local? && c.credentialRef == None ==> c.kind.ApiKey? && g.keyless(name))
    && (c.kind.Local? ==> c.credentialRef == None)
    && (c.credentialRef.Some? ==> g.credential(c.credentialRef.value))
    && (c.profile.Some? ==> c.profile.value in profiles)
  }

  predicate Coherent(g: Grammar, p: Parsed) {
    && p.connections != map[]
    && (forall n :: n in p.connections ==> ConnectionSound(g, p.profiles.Keys, n, p.connections[n]))
    && p.models.defaults.Some?
    && ReferencesHold(p.connections.Keys, p.models)
  }

  /* ---- The document ---- */

  function Absent<T>(section: Option<Option<Option<T>>>): Option<T> {
    if section.Some? && section.value.Some? then section.value.value else None
  }

  function OrNoModels(models: Option<Models>): Models {
    if models.Some? then models.value else Models(None, map[], map[])
  }

  /** Every root section read on its own. */
  function SectionsOf(g: Grammar, doc: Item): Option<Parsed> {
    if !doc.Table? || !(doc.fields.Keys <= ROOT_KEYS) then None
    else
      var f := doc.fields;
      var workflow := Optional(f, "workflow", item => Single(item, "enabled", BoolOf));
      var decisions := Optional(f, "decisions", item => Single(item, "mode", DecisionOf));
      var context := Optional(f, "context", item => Single(item, "auto_compact", BoolOf));
      match (Required(f, "config_version", VersionOf), Optional(f, "connections", item => ConnectionRows(g, item)),
             Optional(f, "profiles", item => ProfileRows(g, item)), Optional(f, "models", ModelsOf))
      case (Some(version), Some(connections), Some(profiles), Some(models)) =>
        if workflow == None || decisions == None || context == None then None
        else if "hooks" in f && !g.hooks(f["hooks"]) then None
        else if "mcp" in f && !g.servers(f["mcp"]) then None
        else
          Some(Parsed(version, Absent(workflow), Absent(decisions), Absent(context),
                      OrEmpty(connections), OrEmpty(profiles), OrNoModels(models)))
      case _ => None
  }

  /** `validated_document`: the typed view, or a refusal. */
  function DocumentOf(g: Grammar, doc: Item): (r: Option<Parsed>)
    ensures r.Some? ==> Coherent(g, r.value)
  {
    match SectionsOf(g, doc)
    case Some(p) => if Coherent(g, p) then Some(p) else None
    case None => None
  }

  /* ---- Values a surface writes ---- */

  function TextItems(names: seq<string>): seq<Item> {
    seq(|names|, i requires 0 <= i < |names| => Text(names[i]))
  }

  function ModelItem(model: ModelAssign): Item {
    match model
    case Inherit => Table(map["mode" := Text("inherit")])
    case Auto(None) => Table(map["mode" := Text("auto")])
    case Auto(Some(pool)) => Table(map["mode" := Text("auto"), "pool" := List(TextItems(pool))])
    case Fixed(fixed) =>
      Table(map["mode" := Text("fixed"), "connection" := Text(fixed.connection), "model_id" := Text(fixed.modelId)])
  }

  function EffortItem(effort: EffortAssign): Item {
    match effort
    case InheritEffort => Table(map["mode" := Text("inherit")])
    case AutoEffort => Table(map["mode" := Text("auto")])
    case FixedEffort(level) => Table(map["mode" := Text("fixed"), "value" := Text(LevelName(level))])
  }

  function EntryItem(entry: FixedModel): Item {
    Table(map["mode" := Text("fixed"), "connection" := Text(entry.connection), "model_id" := Text(entry.modelId)])
  }

  function EntryItems(chain: seq<FixedModel>): seq<Item> {
    seq(|chain|, i requires 0 <= i < |chain| => EntryItem(chain[i]))
  }

  function FallbackItem(fallback: FallbackAssign): Item {
    match fallback
    case AutoFallback(chain) => Table(map["mode" := Text("auto"), "chain" := List(EntryItems(chain))])
    case Manual => Table(map["mode" := Text("manual")])
    case Off => Table(map["mode" := Text("off")])
  }

  function DecisionName(mode: DecisionMode): string {
    match mode
    case Ask => "ask"
    case AutoDecide => "auto"
    case InheritMode => "inherit"
  }

  lemma {:induction false} TextsRoundTrip(names: seq<string>)
    ensures TextsOf(TextItems(names)) == Some(names)
  {
    if names != [] {
      TextsRoundTrip(names[1..]);
      assert TextItems(names)[1..] == TextItems(names[1..]);
      assert [names[0]] + names[1..] == names;
    }
  }

  lemma {:induction false} ChainRoundTrip(chain: seq<FixedModel>)
    ensures ChainOf(EntryItems(chain)) == Some(chain)
  {
    if chain != [] {
      ChainRoundTrip(chain[1..]);
      assert EntryItems(chain)[1..] == EntryItems(chain[1..]);
      EntryRoundTrip(chain[0]);
      assert [chain[0]] + chain[1..] == chain;
    }
  }

  lemma EntryRoundTrip(entry: FixedModel)
    ensures EntryOf(EntryItem(entry)) == Some(entry)
  {
    var f := EntryItem(entry).fields;
    assert f.Keys == {"mode", "connection", "model_id"};
    assert "connection" != "mode" && "model_id" != "mode" && "connection" != "model_id";
  }

  lemma ModelRoundTrip(model: ModelAssign)
    ensures ModelOf(ModelItem(model)) == Some(model)
  {
    assert "pool" != "mode" && "connection" != "mode" && "model_id" != "mode" && "connection" != "model_id";
    if model.Auto? && model.pool.Some? {
      TextsRoundTrip(model.pool.value);
    }
  }

  lemma EffortRoundTrip(effort: EffortAssign)
    ensures EffortOf(EffortItem(effort)) == Some(effort)
  {
    assert "value" != "mode";
  }

  lemma FallbackRoundTrip(fallback: FallbackAssign)
    ensures FallbackOf(FallbackItem(fallback)) == Some(fallback)
  {
    assert "chain" != "mode";
    if fallback.AutoFallback? {
      ChainRoundTrip(fallback.chain);
    }
  }

  /** What a surface writes into a slot reads back as the value it was given. */
  lemma ItemsRoundTrip(model: ModelAssign, effort: EffortAssign, fallback: FallbackAssign, mode: DecisionMode)
    ensures ModelOf(ModelItem(model)) == Some(model)
    ensures EffortOf(EffortItem(effort)) == Some(effort)
    ensures FallbackOf(FallbackItem(fallback)) == Some(fallback)
    ensures DecisionOf(Text(DecisionName(mode))) == Some(mode)
  {
    hide ModelOf, ModelItem, EffortOf, EffortItem, FallbackOf, FallbackItem;
    ModelRoundTrip(model);
    EffortRoundTrip(effort);
    FallbackRoundTrip(fallback);
  }
}
