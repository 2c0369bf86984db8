/** The retained config document as the carrier holds it (src/config.rs): edits
    and renames change it in place and put it back when they are refused. */
module ConfigDocument {
  import opened Wrappers
  import opened ConfigSchema
  import opened KeyAddress
  import opened ConfigEdit
  import opened ConfigEditProofs
  import opened ConfigEditValid
  import PM = PurposeMoves

  const BlankView: Parsed := Parsed(0, None, None, None, map[], map[], Models(None, map[], map[]))

  /** `refresh_view_if_valid`. */
  function Refreshed(g: Grammar, doc: Item, view: Parsed): Parsed {
    match DocumentOf(g, doc)
    case Some(p) => p
    case None => view
  }

  function RowsOf(raw: Option<Item>): Option<PM.RowTable> {
    if raw.Some? then PM.PurposeTableOf(raw.value) else None
  }

  datatype MigrationKind = Role | Action

  datatype Migration = Migration(kind: MigrationKind, rule: PM.Rule)

  /** `purpose_moves`: an action rule names a capability and no row. */
  function RoleRules(migrations: seq<Migration>): seq<PM.Rule> {
    if migrations == [] then []
    else (if migrations[0].kind.Role? then [migrations[0].rule] else []) + RoleRules(migrations[1..])
  }

  lemma RowsReplaced(doc: Item, rows: PM.RowTable, more: PM.RowTable)
    requires PM.PurposeTableOf(doc).Some?
    ensures PM.PurposeTableOf(PM.WithRows(doc, rows)) == Some(rows)
    ensures PM.WithRows(PM.WithRows(doc, rows), more) == PM.WithRows(doc, more)
    ensures PM.WithRows(doc, PM.PurposeTableOf(doc).value) == doc
  {
    var models := doc.fields["models"];
    assert models.fields["purposes" := Table(PM.PurposeTableOf(doc).value)] == models.fields;
    assert doc.fields["models" := models] == doc.fields;
    var next := models.fields["purposes" := Table(rows)];
    assert next["purposes" := Table(more)] == models.fields["purposes" := Table(more)];
    assert doc.fields["models" := Table(next)]["models" := Table(next["purposes" := Table(more)])] ==
           doc.fields["models" := Table(models.fields["purposes" := Table(more)])];
  }

  /** The plan of the rules still to come, behind the moves already proven. */
  function Prefixed(moves: seq<PM.Rule>, rest: Option<PM.Plan>): Option<PM.Plan> {
    match rest
    case None => None
    case Some(plan) => Some(PM.Plan(moves + plan.moves, plan.rows))
  }

  function Behind(edited: bool, rest: Option<(PM.RowTable, bool)>): Option<(PM.RowTable, bool)> {
    match rest
    case None => None
    case Some((rows, more)) => Some((rows, edited || more))
  }

  lemma PrefixedEnds(moves: seq<PM.Rule>, rest: Option<PM.Plan>, rows: PM.RowTable)
    ensures Prefixed([], rest) == rest
    ensures Prefixed(moves, Some(PM.Plan([], rows))) == Some(PM.Plan(moves, rows))
  {
    if rest.Some? {
      assert [] + rest.value.moves == rest.value.moves;
    }
    assert moves + [] == moves;
  }

  lemma PlannedOnward(rows: PM.RowTable, rules: seq<PM.Rule>, moves: seq<PM.Rule>)
    requires rules != []
    ensures Prefixed(moves, PM.Planned(rows, rules)) ==
            match PM.Rebound(rows, rules[0])
            case Refused => None
            case Nothing => Prefixed(moves, PM.Planned(rows, rules[1..]))
            case Done(next) => Prefixed(moves + [rules[0]], PM.Planned(next, rules[1..]))
  {
    hide PM.Rebound;
    match PM.Rebound(rows, rules[0]) {
      case Refused =>
      case Nothing =>
      case Done(next) =>
        var rest := PM.Planned(next, rules[1..]);
        if rest.Some? {
          assert moves + ([rules[0]] + rest.value.moves) == moves + [rules[0]] + rest.value.moves;
        }
    }
  }

  /** The rules that move rows are the role rules, in the release's order. */
  lemma {:induction false} RoleRulesExact(before: seq<Migration>, after: seq<Migration>, m: Migration)
    ensures RoleRules(before + after) == RoleRules(before) + RoleRules(after)
    ensures RoleRules([m]) == if m.kind == Role then [m.rule] else []
  {
    assert [m][1..] == [];
    if before == [] {
      assert [] + after == after;
    } else {
      RoleRulesExact(before[1..], after, m);
      RoleRulesHead(before[0], before[1..]);
      RoleRulesHead(before[0], before[1..] + after);
      hide RoleRules;
      HeadAndTail(before, after);
      Associates(RoleRules([before[0]]), RoleRules(before[1..]), RoleRules(after));
    }
  }

  lemma RoleRulesHead(m: Migration, rest: seq<Migration>)
    ensures RoleRules([m] + rest) == RoleRules([m]) + RoleRules(rest)
  {
    assert ([m] + rest)[0] == m && ([m] + rest)[1..] == rest && [m][1..] == [];
  }

  lemma NothingPlanned(rows: PM.RowTable)
    ensures RoleRules([]) == [] && PM.Planned(rows, []) == Some(PM.Plan([], rows))
  {
  }

  lemma RulesOnward(migrations: seq<Migration>, i: nat)
    requires i < |migrations|
    ensures RoleRules(migrations[i..]) ==
            if migrations[i].kind.Role? then [migrations[i].rule] + RoleRules(migrations[i + 1..])
            else RoleRules(migrations[i + 1..])
  {
    assert migrations[i..][1..] == migrations[i + 1..];
    assert [] + RoleRules(migrations[i + 1..]) == RoleRules(migrations[i + 1..]);
  }

  class Config {
    const g: Grammar
    var raw: Option<Item>
    var view: Parsed

    /** `parse`: syntax only. */
    constructor (g: Grammar, raw: Option<Item>)
      ensures this.g == g && this.raw == raw && view == BlankView
    {
      this.g, this.raw, view := g, raw, BlankView;
    }

    constructor Clone(other: Config)
      ensures g == other.g && raw == other.raw && view == other.view
    {
      g, raw, view := other.g, other.raw, other.view;
    }

    /** The typed view is the retained document's. */
    ghost predicate InStep()
      reads this
    {
      raw.Some? && DocumentOf(g, raw.value) == Some(view)
    }

    method Validate() returns (ok: bool)
      modifies this`view
      ensures ok <==> raw.Some? ==> DocumentOf(g, raw.value).Some?
      ensures ok && raw.Some? ==> InStep()
      ensures raw == None || !ok ==> view == old(view)
    {
      if raw == None {
        return true;
      }
      var parsed := DocumentOf(g, raw.value);
      if parsed == None {
        return false;
      }
      view := parsed.value;
      return true;
    }

    method RefreshViewIfValid()
      modifies this`view
      ensures view == if raw.Some? then Refreshed(g, raw.value, old(view)) else old(view)
    {
      if raw.Some? {
        var parsed := DocumentOf(g, raw.value);
        if parsed.Some? {
          view := parsed.value;
        }
      }
    }

    /** The shared tail: a refused edit puts the original document back. */
    method CommitEdit(t: EditTarget, original: Option<Item>, failed: Option<Refusal>) returns (r: Result<Item, Refusal>)
      requires failed == None ==> raw.Some?
      modifies this
      ensures failed.Some? ==> r == Err(failed.value)
      ensures failed == None ==>
                r == if TargetValid(g, old(raw).value, t) then Ok(old(raw).value) else Err(Rejected)
      ensures r.Ok? ==> raw == old(raw) && view == Refreshed(g, raw.value, old(view))
      ensures r.Err? ==> raw == original && view == old(view)
    {
      if failed.Some? {
        raw := original;
        return Err(failed.value);
      }
      if !TargetValid(g, raw.value, t) {
        raw := original;
        return Err(Rejected);
      }
      RefreshViewIfValid();
      return Ok(raw.value);
    }

    /** Answers the edited document; a refusal leaves the document as it was. */
    method Set(key: string, v: Value) returns (r: Result<Item, Refusal>)
      modifies this
      ensures r == SetDocument(g, old(raw), key, v)
      ensures r.Ok? ==> raw == Some(r.value) && view == Refreshed(g, r.value, old(view))
      ensures r.Err? ==> raw == old(raw) && view == old(view)
      ensures old(InStep()) && r.Ok? ==>
                && Assignable(old(view), TargetOf(key).value, v)
                && InStep() && view == Assigned(old(view), TargetOf(key).value, v)
    {
      ghost var before, viewBefore := raw, view;
      if before.Some? && DocumentOf(g, before.value) == Some(viewBefore) {
        SetIsExact(g, before.value, viewBefore, key, v);
      }
      hide DocumentOf, TargetOf, TargetPath, TargetValid, SetAt, ItemOf, Assigned, Fits, ConnectionDeclared;
      var target := TargetOf(key);
      if target.Err? {
        return Err(BadKey(target.error));
      }
      if !Fits(target.value, v) {
        return Err(TypeMismatch);
      }
      var original, failed := raw, None;
      if raw == None {
        failed := Some(NoRetainedDocument);
      } else if !ConnectionDeclared(raw.value, target.value) {
        failed := Some(UnknownConnection);
      } else {
        var (path, field) := TargetPath(target.value);
        var edited := SetAt(raw.value, path, field, ItemOf(v));
        if edited.Some? {
          raw := edited;
        } else {
          failed := Some(NotATable);
        }
      }
      r := CommitEdit(target.value, original, failed);
    }

    method Reset(key: string) returns (r: Result<Item, Refusal>)
      modifies this
      ensures r == ResetDocument(g, old(raw), key)
      ensures r.Ok? ==> raw == Some(r.value) && view == Refreshed(g, r.value, old(view))
      ensures r.Err? ==> raw == old(raw) && view == old(view)
      ensures old(InStep()) && r.Ok? ==> InStep() && view == Cleared(old(view), TargetOf(key).value)
    {
      ghost var before, viewBefore := raw, view;
      if before.Some? && DocumentOf(g, before.value) == Some(viewBefore) {
        ResetIsExact(g, before.value, viewBefore, key);
      }
      hide DocumentOf, TargetOf, TargetPath, TargetValid, RemoveAt, Cleared, ConnectionDeclared;
      var target := TargetOf(key);
      if target.Err? {
        return Err(BadKey(target.error));
      }
      if !IsOverride(target.value) {
        return Err(NotResettable);
      }
      var original, failed := raw, None;
      if raw == None {
        failed := Some(NoRetainedDocument);
      } else if !ConnectionDeclared(raw.value, target.value) {
        failed := Some(UnknownConnection);
      } else {
        var (path, field) := TargetPath(target.value);
        raw := Some(RemoveAt(raw.value, path, field));
      }
      r := CommitEdit(target.value, original, failed);
    }

    /** The row moves as one item; a target already declared keeps its own. */
    method MovePurposeTable(rule: PM.Rule)
      requires RowsOf(raw).Some? && rule.from in RowsOf(raw).value && rule.from != rule.to
      modifies this`raw
      ensures raw == Some(PM.WithRows(old(raw).value, PM.Renamed(RowsOf(old(raw)).value, rule)))
    {
      var rows := PM.PurposeTableOf(raw.value).value;
      var binding := rows[rule.from];
      var declared := rule.to in rows;
      rows := rows - {rule.from};
      if !declared {
        rows := rows[rule.to := binding];
      }
      raw := Some(PM.WithRows(raw.value, rows));
    }

    /** `Ok(None)`: no row to move. */
    method RebindPurpose(rule: PM.Rule) returns (r: Result<Option<Item>, ()>)
      modifies this
      ensures RowsOf(old(raw)) == None ==> r == Ok(None)
      ensures RowsOf(old(raw)).Some? ==>
                match PM.Rebound(RowsOf(old(raw)).value, rule)
                case Nothing => r == Ok(None)
                case Refused => r == Err(())
                case Done(rows) => r == Ok(Some(PM.WithRows(old(raw).value, rows))) && raw == r.value
      ensures r == Ok(None) || r.Err? ==> raw == old(raw) && view == old(view)
      ensures r.Ok? && r.value.Some? ==> view == Refreshed(g, r.value.value, old(view))
    {
      hide DocumentOf, PurposeOf, Refreshed, PM.WithRows;
      if RowsOf(raw) == None {
        return Ok(None);
      }
      var rows := PM.PurposeTableOf(raw.value).value;
      if rule.from !in rows {
        return Ok(None);
      }
      var binding := PurposeOf(rows[rule.from]);
      if binding == None {
        return Err(());
      }
      var held := map[];
      if rule.to in rows {
        var target := PurposeOf(rows[rule.to]);
        if target == None {
          return Err(());
        }
        held := map[rule.to := target.value];
      }
      var moved := map[rule.to := binding.value];
      var ok, _ := MergePurposes(held, moved);
      if !ok {
        return Err(());
      }
      assert rule.to in held ==> held[rule.to] == moved[rule.to];
      if rule.from != rule.to {
        MovePurposeTable(rule);
      } else {
        RowsReplaced(raw.value, rows, rows);
      }
      RefreshViewIfValid();
      return Ok(raw);
    }

    /** Proven on a copy: this document and its view do not change. */
    method PlannedPurposeMoves(migrations: seq<Migration>) returns (r: Result<seq<PM.Rule>, ()>)
      ensures RowsOf(raw) == None ==> r == Ok([])
      ensures RowsOf(raw).Some? ==>
                match PM.Planned(RowsOf(raw).value, RoleRules(migrations))
                case None => r == Err(())
                case Some(plan) => r == Ok(plan.moves)
    {
      hide PM.Planned, PM.Rebound, PM.WithRows, RoleRules, PurposeOf, Refreshed;
      var proven := new Config.Clone(this);
      var moves := [];
      var i := 0;
      assert migrations[0..] == migrations;
      if RowsOf(raw).Some? {
        PrefixedEnds([], PM.Planned(RowsOf(raw).value, RoleRules(migrations)), map[]);
      }
      while i < |migrations|
        invariant 0 <= i <= |migrations| && unchanged(this) && fresh(proven)
        invariant RowsOf(raw) == None ==> RowsOf(proven.raw) == None && moves == []
        invariant RowsOf(raw).Some? ==>
                    && RowsOf(proven.raw).Some?
                    && PM.Planned(RowsOf(raw).value, RoleRules(migrations)) ==
                       Prefixed(moves, PM.Planned(RowsOf(proven.raw).value, RoleRules(migrations[i..])))
      {
        RulesOnward(migrations, i);
        if migrations[i].kind.Role? {
          ghost var rest := RoleRules(migrations[i + 1..]);
          ghost var rules := [migrations[i].rule] + rest;
          assert rules[1..] == rest;
          ghost var doc := proven.raw;
          if RowsOf(doc).Some? {
            PlannedOnward(RowsOf(doc).value, rules, moves);
          }
          var moved := proven.RebindPurpose(migrations[i].rule);
          if moved.Err? {
            return Err(());
          }
          if moved.value.Some? {
            moves := moves + [migrations[i].rule];
            RowsReplaced(doc.value, PM.Rebound(RowsOf(doc).value, migrations[i].rule).rows, map[]);
          }
        }
        i := i + 1;
      }
      assert migrations[i..] == [];
      if RowsOf(proven.raw).Some? {
        NothingPlanned(RowsOf(proven.raw).value);
        PrefixedEnds(moves, None, RowsOf(proven.raw).value);
      }
      return Ok(moves);
    }

    /** Answers the last edit, the document to write back. */
    method MovePurposeBindings(moves: seq<PM.Rule>) returns (r: Result<Option<Item>, ()>)
      modifies this
      ensures RowsOf(old(raw)) == None ==> r == Ok(None) && raw == old(raw) && view == old(view)
      ensures RowsOf(old(raw)).Some? ==>
                match PM.Applied(RowsOf(old(raw)).value, moves)
                case None => r.Err?
                case Some((rows, edited)) =>
                  r == Ok(if edited then raw else None) && raw == Some(PM.WithRows(old(raw).value, rows))
    {
      ghost var doc := raw;
      var edit: Option<Item> := None;
      var i := 0;
      assert moves[0..] == moves;
      if RowsOf(doc).Some? {
        RowsReplaced(doc.value, map[], map[]);
      }
      while i < |moves|
        invariant 0 <= i <= |moves|
        invariant RowsOf(doc) == None ==> raw == doc && view == old(view) && edit == None
        invariant RowsOf(doc).Some? ==>
                    && RowsOf(raw).Some? && raw == Some(PM.WithRows(doc.value, RowsOf(raw).value))
                    && (edit == None || edit == raw)
                    && PM.Applied(RowsOf(doc).value, moves) ==
                       Behind(edit.Some?, PM.Applied(RowsOf(raw).value, moves[i..]))
      {
        assert moves[i..][1..] == moves[i + 1..];
        ghost var now := raw;
        var moved := RebindPurpose(moves[i]);
        if moved.Err? {
          return Err(());
        }
        if moved.value.Some? {
          edit := moved.value;
          ghost var next := PM.Rebound(RowsOf(now).value, moves[i]).rows;
          RowsReplaced(now.value, next, map[]);
          RowsReplaced(doc.value, RowsOf(now).value, next);
        }
        i := i + 1;
      }
      return Ok(edit);
    }

    /** `cut_over_base` around the store's own cutover: a refusal on either side
        leaves the document alone, and what is served otherwise is the proven copy. */
    method CutOverBase(migrations: seq<Migration>, served: bool) returns (r: Result<Option<Item>, ()>)
      modifies this
      ensures r.Err? ==> raw == old(raw) && view == old(view)
      ensures RowsOf(old(raw)) == None ==> raw == old(raw) && r == if served then Ok(None) else Err(())
      ensures RowsOf(old(raw)).Some? ==>
                var plan := PM.Planned(RowsOf(old(raw)).value, RoleRules(migrations));
                && (r.Ok? <==> served && plan.Some?)
                && (r.Ok? ==> raw == Some(PM.WithRows(old(raw).value, plan.value.rows)))
                && (r.Ok? ==> r.value == if plan.value.moves == [] then None else raw)
    {
      var moves := PlannedPurposeMoves(migrations);
      if moves.Err? || !served {
        return Err(());
      }
      if RowsOf(raw).Some? {
        PM.PlanIsAppliedAsProven(RowsOf(raw).value, RoleRules(migrations));
      }
      r := MovePurposeBindings(moves.value);
    }
  }

  /** `retained_edit`: the carrier's document is taken out, edited and put back. */
  class Carrier {
    const g: Grammar
    var parsed: Config?

    constructor (g: Grammar)
      ensures this.g == g && parsed == null
    {
      this.g, parsed := g, null;
    }

    /** Without a retained document the edit is refused, and the absent document
        is replaced by an empty one: only a retained document is put back as it was. */
    method RetainedSet(key: string, v: Value) returns (r: Result<Item, Refusal>)
      requires parsed != null ==> parsed.g == g
      modifies this, if parsed == null then {} else {parsed}
      ensures parsed != null && (old(parsed) != null ==> parsed == old(parsed))
      ensures old(parsed) != null ==> r == SetDocument(g, old(parsed.raw), key, v)
      ensures old(parsed) != null && r.Err? ==> parsed.raw == old(parsed.raw) && parsed.view == old(parsed.view)
      ensures old(parsed) != null && r.Ok? ==>
                parsed.raw == Some(r.value) && parsed.view == Refreshed(g, r.value, old(parsed.view))
      ensures old(parsed) == null ==> r.Err? && fresh(parsed) && parsed.raw == None && parsed.view == BlankView
    {
      hide SetDocument, DocumentOf, Refreshed;
      var retained := parsed;
      parsed := null;
      if retained == null {
        retained := new Config(g, None);
        NothingToEdit(g, key, v);
      }
      r := retained.Set(key, v);
      parsed := retained;
    }
  }

  lemma NothingToEdit(g: Grammar, key: string, v: Value)
    ensures SetDocument(g, None, key, v).Err?
  {
    hide TargetOf, Fits;
  }

  /** `merge_purposes`, row by row: it stops at the first name bound two ways, and
      the rows merged before it stay. */
  method MergePurposes(held: map<Name, Purpose>, other: map<Name, Purpose>) returns (ok: bool, merged: map<Name, Purpose>)
    ensures ok <==> forall n :: n in held && n in other ==> held[n] == other[n]
    ensures ok ==> merged == held + other
    ensures held.Keys <= merged.Keys <= held.Keys + other.Keys
    ensures forall n :: n in merged ==> merged[n] == if n in held then held[n] else other[n]
  {
    merged := held;
    var left := other.Keys;
    while left != {}
      invariant left <= other.Keys
      invariant merged.Keys == held.Keys + (other.Keys - left)
      invariant forall n :: n in merged ==> merged[n] == if n in held then held[n] else other[n]
      invariant forall n :: n in held && n in other && n !in left ==> held[n] == other[n]
      decreases left
    {
      var n :| n in left;
      if n in merged {
        if merged[n] != other[n] {
          return false, merged;
        }
      } else {
        merged := merged[n := other[n]];
      }
      left := left - {n};
    }
    ok := true;
    assert merged == held + other;
  }

  /* ---- A valid document through a release ---- */

  /** The purpose rows of a renamed valid document, read. */
  function RowsRead(rows: PM.RowTable): map<Name, Purpose>
    requires forall n :: n in rows ==> PurposeOf(rows[n]).Some?
  {
    map n | n in rows :: PurposeOf(rows[n]).value
  }

  lemma RowsReadExact(rows: PM.RowTable)
    requires forall n :: n in rows ==> PurposeOf(rows[n]).Some?
    ensures PurposeRows(Table(rows)) == Some(RowsRead(rows))
  {
    hide PurposeOf;
    assert PurposeRows(Table(rows)).value == RowsRead(rows);
  }

  lemma RowsMean(rows: PM.RowTable, purposes: map<Name, Purpose>)
    requires PurposeRows(Table(rows)) == Some(purposes)
    ensures rows.Keys == purposes.Keys && forall n :: n in rows ==> PurposeOf(rows[n]) == Some(purposes[n])
  {
    hide PurposeOf;
  }

  lemma ValidRows(g: Grammar, doc: Item, p: Parsed)
    requires SectionsOf(g, doc) == Some(p) && PM.PurposeTableOf(doc).Some?
    ensures ModelsOf(doc.fields["models"]) == Some(p.models)
    ensures PurposeRows(Table(PM.PurposeTableOf(doc).value)) == Some(p.models.purposes)
  {
    hide SectionsOf, ModelsOf, ConnectionRows, ProfileRows, PurposeRows, Single;
    SectionFacts(g, doc, p);
    ModelFacts(doc.fields["models"], p.models);
  }

  /** A release keeps a valid document valid: every binding is found, unchanged,
      at its folded name, and no other part of the view moves. */
  lemma ReleaseKeepsValid(g: Grammar, doc: Item, p: Parsed, rules: seq<PM.Rule>, plan: PM.Plan)
    requires DocumentOf(g, doc) == Some(p) && PM.PurposeTableOf(doc).Some?
    requires PM.Planned(PM.PurposeTableOf(doc).value, rules) == Some(plan)
    ensures exists q :: DocumentOf(g, PM.WithRows(doc, plan.rows)) == Some(p.(models := p.models.(purposes := q)))
                        && (forall n :: n in p.models.purposes ==>
                              PM.Folded(n, rules) in q && q[PM.Folded(n, rules)] == p.models.purposes[n])
                        && (forall m :: m in q ==> exists n :: n in p.models.purposes && PM.Folded(n, rules) == m)
  {
    hide SectionsOf, ModelsOf, PurposeOf, Coherent, PurposeRows, PM.Planned;
    var rows := PM.PurposeTableOf(doc).value;
    ValidRows(g, doc, p);
    RowsMean(rows, p.models.purposes);
    PM.RowsAreCarried(rows, rules);
    forall m | m in plan.rows
      ensures PurposeOf(plan.rows[m]).Some?
    {
      var n :| n in rows && PM.Folded(n, rules) == m;
    }
    var q := RowsRead(plan.rows);
    RowsReadExact(plan.rows);
    PurposesReplaced(doc.fields["models"], p.models, Table(plan.rows), q);
    ModelsReplaced(g, doc, p, Table(doc.fields["models"].fields["purposes" := Table(plan.rows)]), p.models.(purposes := q));
    RenamedCoherent(g, p, rules, q);
    assert DocumentOf(g, PM.WithRows(doc, plan.rows)) == Some(p.(models := p.models.(purposes := q)));
  }

  lemma RenamedCoherent(g: Grammar, p: Parsed, rules: seq<PM.Rule>, q: map<Name, Purpose>)
    requires Coherent(g, p)
    requires forall n :: n in p.models.purposes ==> PM.Folded(n, rules) in q && q[PM.Folded(n, rules)] == p.models.purposes[n]
    requires forall m :: m in q ==> exists n :: n in p.models.purposes && PM.Folded(n, rules) == m
    ensures Coherent(g, p.(models := p.models.(purposes := q)))
  {
    hide PurposeDeclared, ConnectionSound, ModelDeclared, DefaultsDeclared;
    forall m | m in q
      ensures PurposeDeclared(p.connections.Keys, p.models.groups.Keys, q[m])
    {
      var n :| n in p.models.purposes && PM.Folded(n, rules) == m;
      assert q[m] == p.models.purposes[n];
    }
  }
}
