/** Targeted edits of the retained document (src/config.rs): `set` and `reset`
    check the one slot they touch; the proofs show that this is enough. */
module ConfigEdit {
  import opened Wrappers
  import opened ConfigSchema
  import opened KeyAddress

  datatype Value =
    | Flag(on: bool)
    | Decision(mode: DecisionMode)
    | Model(model: ModelAssign)
    | Effort(effort: EffortAssign)
    | Fallback(fallback: FallbackAssign)
    | Names(names: seq<Name>)
    | Plain(text: string)

  datatype Refusal =
    BadKey(cause: KeyRefusal) | TypeMismatch | NotResettable | NoRetainedDocument | UnknownConnection | NotATable | Rejected

  /* ---- Walking the item tree ---- */

  /** `set_field` on item trees: a table takes over a table key by key. */
  function Merged(existing: Item, item: Item): Item
    decreases item
  {
    if existing.Table? && item.Table? then
      Table(map k | k in item.fields :: if k in existing.fields then Merged(existing.fields[k], item.fields[k]) else item.fields[k])
    else item
  }

  lemma MergedIsItem(existing: Item, item: Item)
    ensures Merged(existing, item) == item
    decreases item
  {
    if existing.Table? && item.Table? {
      forall k | k in item.fields && k in existing.fields
        ensures Merged(existing.fields[k], item.fields[k]) == item.fields[k]
      {
        MergedIsItem(existing.fields[k], item.fields[k]);
      }
      assert Merged(existing, item).fields == item.fields;
    }
  }

  function FieldSet(fields: map<string, Item>, field: string, item: Item): map<string, Item> {
    fields[field := if field in fields then Merged(fields[field], item) else item]
  }

  /** `ensure_table_like` along the path, then `set_field`; `None` when a step
      meets something that is not a table. */
  function SetAt(node: Item, path: seq<string>, field: string, item: Item): Option<Item>
    decreases |path|
  {
    if !node.Table? then None
    else if path == [] then Some(Table(FieldSet(node.fields, field, item)))
    else
      var child := if path[0] in node.fields then node.fields[path[0]] else Table(map[]);
      match SetAt(child, path[1..], field, item)
      case Some(next) => Some(Table(node.fields[path[0] := next]))
      case None => None
  }

  /** `reset`: a path that is not there leaves the document as it is. */
  function RemoveAt(node: Item, path: seq<string>, field: string): Item
    decreases |path|
  {
    if !node.Table? then node
    else if path == [] then Table(node.fields - {field})
    else if path[0] !in node.fields then node
    else Table(node.fields[path[0] := RemoveAt(node.fields[path[0]], path[1..], field)])
  }

  function Lookup(node: Item, path: seq<string>): Option<Item>
    decreases |path|
  {
    if path == [] then Some(node)
    else if node.Table? && path[0] in node.fields then Lookup(node.fields[path[0]], path[1..])
    else None
  }

  /** Two paths part ways before either ends. */
  predicate Diverges(p: seq<string>, q: seq<string>) {
    p != [] && q != [] && (p[0] != q[0] || Diverges(p[1..], q[1..]))
  }

  /** An edit lands on its own path and leaves every other one alone, whatever
      the rest of the document holds. */
  lemma {:induction false} SetTouchesOnlyItsPath(node: Item, path: seq<string>, field: string, item: Item, other: seq<string>)
    requires SetAt(node, path, field, item).Some?
    ensures Lookup(SetAt(node, path, field, item).value, path + [field]) == Some(item)
    ensures Diverges(path + [field], other) ==>
              Lookup(SetAt(node, path, field, item).value, other) == Lookup(node, other)
    decreases |path|
  {
    var full := path + [field];
    if path == [] {
      assert full == [field] && full[1..] == [];
      assert other != [] ==> !Diverges(full[1..], other[1..]);
      if field in node.fields {
        MergedIsItem(node.fields[field], item);
      }
    } else {
      var child := if path[0] in node.fields then node.fields[path[0]] else Table(map[]);
      assert full[1..] == path[1..] + [field];
      SetTouchesOnlyItsPath(child, path[1..], field, item, if other == [] then [] else other[1..]);
      if other != [] && path[0] == other[0] && path[0] !in node.fields && Diverges(full, other) {
        assert Diverges(full[1..], other[1..]);
        assert other[1..] != [];
        assert Lookup(child, other[1..]) == None;
      }
    }
  }

  lemma {:induction false} RemoveTouchesOnlyItsPath(node: Item, path: seq<string>, field: string, other: seq<string>)
    ensures Lookup(RemoveAt(node, path, field), path + [field]) == None
    ensures Diverges(path + [field], other) ==> Lookup(RemoveAt(node, path, field), other) == Lookup(node, other)
    decreases |path|
  {
    var full := path + [field];
    if node.Table? && path != [] && path[0] in node.fields {
      assert full[1..] == path[1..] + [field];
      RemoveTouchesOnlyItsPath(node.fields[path[0]], path[1..], field, if other == [] then [] else other[1..]);
    } else if path == [] {
      assert full == [field] && full[1..] == [];
      assert other != [] ==> !Diverges(full[1..], other[1..]);
    }
  }

  /* ---- The two edits ---- */

  predicate IsOverride(t: EditTarget) {
    !(t.DefaultsModel? || t.DefaultsEffort? || t.DefaultsFallback? || t.GroupModel?)
  }

  predicate Fits(t: EditTarget, v: Value) {
    match v
    case Flag(_) => t.WorkflowEnabled? || t.ContextAutoCompact?
    case Decision(_) => t.DecisionsMode?
    case Model(_) => t.DefaultsModel? || t.GroupModel? || t.PurposeModel?
    case Effort(_) => t.DefaultsEffort? || t.PurposeEffort?
    case Fallback(_) => t.DefaultsFallback? || t.PurposeFallback?
    case Names(_) => t.PurposeEligible?
    case Plain(_) => t.ConnectionRegion? || t.ConnectionProfile? || t.ProfileCredentialRef?
  }

  function ItemOf(v: Value): Item {
    match v
    case Flag(on) => Bool(on)
    case Decision(mode) => Text(DecisionName(mode))
    case Model(model) => ModelItem(model)
    case Effort(effort) => EffortItem(effort)
    case Fallback(fallback) => FallbackItem(fallback)
    case Names(names) => List(TextItems(names))
    case Plain(text) => Text(text)
  }

  function Rooted(doc: Item, root: string): Option<map<string, Item>> {
    match Lookup(doc, [root])
    case Some(Table(fields)) => Some(fields)
    case _ => None
  }

  /** `require_declared_connection`. */
  predicate ConnectionDeclared(doc: Item, t: EditTarget) {
    t.ConnectionRegion? || t.ConnectionProfile? ==>
      Rooted(doc, "connections").Some? && t.name in Rooted(doc, "connections").value
  }

  /** The references a targeted check can see: the named rows are read, no others.
      A document without a connections table is not checked. */
  predicate NamesResolve(g: Grammar, doc: Item, names: seq<Name>) {
    match Rooted(doc, "connections")
    case None => true
    case Some(rows) =>
      && (forall n :: n in names && n in rows ==> ConnectionOf(g, rows[n]).Some?)
      && (forall n :: n in names ==> n in rows)
  }

  function ChainNames(fallback: FallbackAssign): seq<Name> {
    if fallback.AutoFallback? then
      seq(|fallback.chain|, i requires 0 <= i < |fallback.chain| => fallback.chain[i].connection)
    else []
  }

  /** `validate_target`: a missing path or field has nothing to check. */
  predicate TargetValid(g: Grammar, doc: Item, t: EditTarget) {
    match Lookup(doc, Spelled(t))
    case None => true
    case Some(item) =>
      if t.WorkflowEnabled? || t.ContextAutoCompact? then item.Bool?
      else if t.DecisionsMode? then DecisionOf(item).Some?
      else if t.DefaultsModel? || t.GroupModel? || t.PurposeModel? then
        ModelOf(item).Some? && NamesResolve(g, doc, ModelNames(ModelOf(item).value))
      else if t.DefaultsEffort? || t.PurposeEffort? then EffortOf(item).Some?
      else if t.DefaultsFallback? || t.PurposeFallback? then
        FallbackOf(item).Some? && NamesResolve(g, doc, ChainNames(FallbackOf(item).value))
      else if t.PurposeEligible? then NamesOf(item).Some?
      else if t.ConnectionRegion? then item.Text?
      else if t.ConnectionProfile? then
        item.Text? && Rooted(doc, "profiles").Some? && item.s in Rooted(doc, "profiles").value
      else CredentialOf(g, item).Some?
  }

  /** The document one `set` leaves, or why it leaves the old one. */
  function SetDocument(g: Grammar, raw: Option<Item>, key: string, v: Value): Result<Item, Refusal> {
    match TargetOf(key)
    case Err(cause) => Err(BadKey(cause))
    case Ok(t) =>
      if !Fits(t, v) then Err(TypeMismatch)
      else if raw == None then Err(NoRetainedDocument)
      else if !ConnectionDeclared(raw.value, t) then Err(UnknownConnection)
      else
        match SetAt(raw.value, TargetPath(t).0, TargetPath(t).1, ItemOf(v))
        case None => Err(NotATable)
        case Some(edited) => if TargetValid(g, edited, t) then Ok(edited) else Err(Rejected)
  }

  function ResetDocument(g: Grammar, raw: Option<Item>, key: string): Result<Item, Refusal> {
    match TargetOf(key)
    case Err(cause) => Err(BadKey(cause))
    case Ok(t) =>
      if !IsOverride(t) then Err(NotResettable)
      else if raw == None then Err(NoRetainedDocument)
      else if !ConnectionDeclared(raw.value, t) then Err(UnknownConnection)
      else
        var edited := RemoveAt(raw.value, TargetPath(t).0, TargetPath(t).1);
        if TargetValid(g, edited, t) then Ok(edited) else Err(Rejected)
  }

  /* ---- The typed meaning of an edit ---- */

  function PurposeAt(p: Parsed, name: Name): Purpose {
    if name in p.models.purposes then p.models.purposes[name] else EmptyPurpose
  }

  function WithPurpose(p: Parsed, name: Name, row: Purpose): Parsed {
    p.(models := p.models.(purposes := p.models.purposes[name := row]))
  }

  function WithDefaults(p: Parsed, d: Defaults): Parsed {
    p.(models := p.models.(defaults := Some(d)))
  }

  /** What an accepted `set` means for the typed view of a valid document. */
  function Assigned(p: Parsed, t: EditTarget, v: Value): Parsed
    requires Fits(t, v) && p.models.defaults.Some?
    requires t.ConnectionRegion? || t.ConnectionProfile? ==> t.name in p.connections
  {
    match t
    case WorkflowEnabled => p.(workflow := Some(v.on))
    case DecisionsMode => p.(decisions := Some(v.mode))
    case ContextAutoCompact => p.(autoCompact := Some(v.on))
    case DefaultsModel => WithDefaults(p, p.models.defaults.value.(model := v.model))
    case DefaultsEffort => WithDefaults(p, p.models.defaults.value.(effort := v.effort))
    case DefaultsFallback => WithDefaults(p, p.models.defaults.value.(fallback := v.fallback))
    case GroupModel(name) => p.(models := p.models.(groups := p.models.groups[name := v.model]))
    case PurposeModel(name) => WithPurpose(p, name, PurposeAt(p, name).(model := Some(v.model)))
    case PurposeEffort(name) => WithPurpose(p, name, PurposeAt(p, name).(effort := Some(v.effort)))
    case PurposeFallback(name) => WithPurpose(p, name, PurposeAt(p, name).(fallback := Some(v.fallback)))
    case PurposeEligible(name) => WithPurpose(p, name, PurposeAt(p, name).(eligible := Some(v.names)))
    case ConnectionRegion(name) => p.(connections := p.connections[name := p.connections[name].(region := Some(v.text))])
    case ConnectionProfile(name) => p.(connections := p.connections[name := p.connections[name].(profile := Some(v.text))])
    case ProfileCredentialRef(name) => p.(profiles := p.profiles[name := Some(v.text)])
  }

  /** What an accepted `reset` means: the override is gone, the row stays. */
  function Cleared(p: Parsed, t: EditTarget): Parsed {
    match t
    case WorkflowEnabled => p.(workflow := None)
    case DecisionsMode => p.(decisions := None)
    case ContextAutoCompact => p.(autoCompact := None)
    case PurposeModel(name) =>
      if name in p.models.purposes then WithPurpose(p, name, p.models.purposes[name].(model := None)) else p
    case PurposeEffort(name) =>
      if name in p.models.purposes then WithPurpose(p, name, p.models.purposes[name].(effort := None)) else p
    case PurposeFallback(name) =>
      if name in p.models.purposes then WithPurpose(p, name, p.models.purposes[name].(fallback := None)) else p
    case PurposeEligible(name) =>
      if name in p.models.purposes then WithPurpose(p, name, p.models.purposes[name].(eligible := None)) else p
    case ConnectionRegion(name) =>
      if name in p.connections then p.(connections := p.connections[name := p.connections[name].(region := None)]) else p
    case ConnectionProfile(name) =>
      if name in p.connections then p.(connections := p.connections[name := p.connections[name].(profile := None)]) else p
    case ProfileCredentialRef(name) =>
      if name in p.profiles then p.(profiles := p.profiles[name := None]) else p
    case _ => p
  }
}
