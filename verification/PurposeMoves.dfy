/** Purpose renames a base release ships, proven on a copy of the config document
    and then applied to it (src/config.rs, from src/state/learning.rs). */
module PurposeMoves {
  import opened Wrappers
  import opened ConfigSchema

  type RowTable = map<Name, Item>

  datatype Rule = Rule(from: Name, to: Name)

  /* ---- One rename ---- */

  /** The raw `models.purposes` table, its rows unread. */
  function PurposeTableOf(doc: Item): Option<RowTable> {
    if doc.Table? && "models" in doc.fields && doc.fields["models"].Table?
       && "purposes" in doc.fields["models"].fields && doc.fields["models"].fields["purposes"].Table?
    then Some(doc.fields["models"].fields["purposes"].fields)
    else None
  }

  /** The document with its purpose rows replaced and nothing else. */
  function WithRows(doc: Item, rows: RowTable): Item
    requires PurposeTableOf(doc).Some?
  {
    Table(doc.fields["models" := Table(doc.fields["models"].fields["purposes" := Table(rows)])])
  }

  datatype Moved = Nothing | Refused | Done(rows: RowTable)

  /** The raw row moves; a target already there keeps its own. */
  function Renamed(rows: RowTable, rule: Rule): RowTable
    requires rule.from in rows
  {
    if rule.from == rule.to then rows
    else if rule.to in rows then rows - {rule.from}
    else (rows - {rule.from})[rule.to := rows[rule.from]]
  }

  /** `rebind_purpose`: only the two rows of the rule are read. */
  function Rebound(rows: RowTable, rule: Rule): Moved {
    if rule.from !in rows then Nothing
    else if PurposeOf(rows[rule.from]) == None then Refused
    else if rule.to in rows && PurposeOf(rows[rule.to]) != PurposeOf(rows[rule.from]) then Refused
    else Done(Renamed(rows, rule))
  }

  /* ---- A release's rules ---- */

  datatype Plan = Plan(moves: seq<Rule>, rows: RowTable)

  /** `planned_purpose_moves` on the copy's rows: the rules that moved something,
      and the rows they leave. */
  function Planned(rows: RowTable, rules: seq<Rule>): Option<Plan>
    decreases |rules|
  {
    if rules == [] then Some(Plan([], rows))
    else
      match Rebound(rows, rules[0])
      case Refused => None
      case Nothing => Planned(rows, rules[1..])
      case Done(next) =>
        (match Planned(next, rules[1..])
         case Some(plan) => Some(Plan([rules[0]] + plan.moves, plan.rows))
         case None => None)
  }

  /** `move_purpose_bindings`: the last answer is whether any move edited. */
  function Applied(rows: RowTable, moves: seq<Rule>): Option<(RowTable, bool)>
    decreases |moves|
  {
    if moves == [] then Some((rows, false))
    else
      match Rebound(rows, moves[0])
      case Refused => None
      case Nothing => Applied(rows, moves[1..])
      case Done(next) =>
        (match Applied(next, moves[1..])
         case Some((last, _)) => Some((last, true))
         case None => None)
  }

  /** What passed on the copy passes on the document, with the copy's outcome,
      and edits exactly when a move was planned. */
  lemma {:induction false} PlanIsAppliedAsProven(rows: RowTable, rules: seq<Rule>)
    requires Planned(rows, rules).Some?
    ensures Applied(rows, Planned(rows, rules).value.moves) ==
            Some((Planned(rows, rules).value.rows, Planned(rows, rules).value.moves != []))
    decreases |rules|
  {
    if rules != [] {
      match Rebound(rows, rules[0]) {
        case Nothing => PlanIsAppliedAsProven(rows, rules[1..]);
        case Done(next) =>
          PlanIsAppliedAsProven(next, rules[1..]);
          var rest := Planned(next, rules[1..]).value;
          assert ([rules[0]] + rest.moves)[1..] == rest.moves;
      }
    }
  }

  /* ---- Where a name ends up ---- */

  function Step(name: Name, rule: Rule): Name {
    if name == rule.from then rule.to else name
  }

  function Folded(name: Name, rules: seq<Rule>): Name
    decreases |rules|
  {
    if rules == [] then name else Folded(Step(name, rules[0]), rules[1..])
  }

  /** Every row sits at its folded name with the meaning it had, nothing else is
      there, and rows share a name only when they mean the same. */
  ghost predicate Carried(rows: RowTable, rules: seq<Rule>, last: RowTable) {
    && (forall n :: n in rows ==> Folded(n, rules) in last && PurposeOf(last[Folded(n, rules)]) == PurposeOf(rows[n]))
    && (forall m :: m in last ==> exists n :: n in rows && Folded(n, rules) == m)
  }

  lemma StepCarries(rows: RowTable, rule: Rule)
    requires Rebound(rows, rule).Done?
    ensures var next := Rebound(rows, rule).rows;
            && (forall n :: n in rows ==> Step(n, rule) in next && PurposeOf(next[Step(n, rule)]) == PurposeOf(rows[n]))
            && (forall m :: m in next ==> (m in rows && Step(m, rule) == m) || (rule.from in rows && Step(rule.from, rule) == m))
  {
    hide PurposeOf;
  }

  lemma NextCarries(rows: RowTable, rule: Rule, next: RowTable)
    requires Rebound(rows, rule) == Done(next) || (Rebound(rows, rule).Nothing? && next == rows)
    ensures forall n :: n in rows ==> Step(n, rule) in next && PurposeOf(next[Step(n, rule)]) == PurposeOf(rows[n])
    ensures forall m :: m in next ==> exists n :: n in rows && Step(n, rule) == m
  {
    hide PurposeOf;
    if Rebound(rows, rule).Done? {
      StepCarries(rows, rule);
    }
    forall m | m in next
      ensures exists n :: n in rows && Step(n, rule) == m
    {
      var n := if m in rows && Step(m, rule) == m then m else rule.from;
      assert n in rows && Step(n, rule) == m;
    }
  }

  function After(rows: RowTable, rule: Rule): RowTable {
    if Rebound(rows, rule).Done? then Rebound(rows, rule).rows else rows
  }

  lemma CarriedOnward(rows: RowTable, next: RowTable, rules: seq<Rule>, last: RowTable)
    requires rules != [] && Carried(next, rules[1..], last)
    requires forall n :: n in rows ==>
               Step(n, rules[0]) in next && PurposeOf(next[Step(n, rules[0])]) == PurposeOf(rows[n])
    requires forall m :: m in next ==> exists n :: n in rows && Step(n, rules[0]) == m
    ensures Carried(rows, rules, last)
  {
    hide PurposeOf;
    forall m | m in last
      ensures exists n :: n in rows && Folded(n, rules) == m
    {
      var k :| k in next && Folded(k, rules[1..]) == m;
      var n :| n in rows && Step(n, rules[0]) == k;
      assert Folded(n, rules) == m;
    }
  }

  lemma {:induction false} RowsAreCarried(rows: RowTable, rules: seq<Rule>)
    requires Planned(rows, rules).Some?
    ensures Carried(rows, rules, Planned(rows, rules).value.rows)
    decreases |rules|
  {
    hide PurposeOf, Rebound;
    var last := Planned(rows, rules).value.rows;
    if rules == [] {
      forall m | m in last
        ensures exists n :: n in rows && Folded(n, rules) == m
      {
        assert Folded(m, rules) == m;
      }
    } else {
      hide Carried;
      var next := After(rows, rules[0]);
      RowsAreCarried(next, rules[1..]);
      NextCarries(rows, rules[0], next);
      CarriedOnward(rows, next, rules, last);
    }
  }

  /** Two bindings end under one name only when they were the same binding. */
  lemma MergesOnlyEquals(rows: RowTable, rules: seq<Rule>, a: Name, b: Name)
    requires Planned(rows, rules).Some? && a in rows && b in rows
    requires Folded(a, rules) == Folded(b, rules)
    ensures PurposeOf(rows[a]) == PurposeOf(rows[b])
  {
    hide PurposeOf;
    RowsAreCarried(rows, rules);
  }

  /** A rule that moves something names a row with a meaning. */
  lemma {:induction false} RulesMissUnreadable(rows: RowTable, rules: seq<Rule>, n: Name)
    requires Planned(rows, rules).Some? && n in rows && PurposeOf(rows[n]) == None
    ensures Folded(n, rules) == n && n in Planned(rows, rules).value.rows
    ensures Planned(rows, rules).value.rows[n] == rows[n]
    decreases |rules|
  {
    hide PurposeOf;
    if rules != [] {
      var rule := rules[0];
      assert n != rule.from;
      assert Step(n, rule) == n;
      if Rebound(rows, rule).Done? {
        assert n != rule.to;
        RulesMissUnreadable(Rebound(rows, rule).rows, rules[1..], n);
      } else {
        RulesMissUnreadable(rows, rules[1..], n);
      }
    }
  }

  predicate Mentions(rules: seq<Rule>, n: Name) {
    rules != [] && (n == rules[0].from || n == rules[0].to || Mentions(rules[1..], n))
  }

  /** A row no rule names keeps its raw item, or its absence. */
  lemma {:induction false} UnnamedRowsKeepTheirItem(rows: RowTable, rules: seq<Rule>, n: Name)
    requires Planned(rows, rules).Some? && !Mentions(rules, n)
    ensures n in Planned(rows, rules).value.rows <==> n in rows
    ensures n in rows ==> Planned(rows, rules).value.rows[n] == rows[n]
    decreases |rules|
  {
    hide PurposeOf;
    if rules != [] {
      match Rebound(rows, rules[0]) {
        case Nothing => UnnamedRowsKeepTheirItem(rows, rules[1..], n);
        case Done(next) => UnnamedRowsKeepTheirItem(next, rules[1..], n);
      }
    }
  }

  /** Every row of the outcome is one raw item of the document, carried whole. */
  lemma {:induction false} ItemsTravel(rows: RowTable, rules: seq<Rule>, m: Name) returns (n: Name)
    requires Planned(rows, rules).Some? && m in Planned(rows, rules).value.rows
    ensures n in rows && Folded(n, rules) == m && Planned(rows, rules).value.rows[m] == rows[n]
    decreases |rules|
  {
    hide PurposeOf;
    if rules == [] {
      n := m;
    } else {
      var rule := rules[0];
      var k := ItemsTravel(After(rows, rule), rules[1..], m);
      n := if Rebound(rows, rule).Done? && k !in rows then rule.from else k;
    }
  }

  /** The rule takes a row away from this name. */
  predicate Leaves(rules: seq<Rule>, n: Name) {
    rules != [] && ((rules[0].from == n && rules[0].to != n) || Leaves(rules[1..], n))
  }

  /** A row no rule takes away keeps its own raw item, whatever moves onto it. */
  lemma {:induction false} StayingRowsKeepTheirItem(rows: RowTable, rules: seq<Rule>, n: Name)
    requires Planned(rows, rules).Some? && n in rows && !Leaves(rules, n)
    ensures n in Planned(rows, rules).value.rows && Planned(rows, rules).value.rows[n] == rows[n]
    decreases |rules|
  {
    hide PurposeOf;
    if rules != [] {
      StayingRowsKeepTheirItem(After(rows, rules[0]), rules[1..], n);
    }
  }

  /* ---- When a release is refused ---- */

  /** Rows `i` rules would bring to the names of rule `i`. */
  ghost predicate Meets(rows: RowTable, rules: seq<Rule>, i: nat, n: Name)
    requires i < |rules|
  {
    n in rows && (Folded(n, rules[..i]) == rules[i].from || Folded(n, rules[..i]) == rules[i].to)
  }

  /** Rule `i` finds a row to move: then every row it touches means one thing. */
  ghost predicate Passes(rows: RowTable, rules: seq<Rule>, i: nat)
    requires i < |rules|
  {
    (exists s :: s in rows && Folded(s, rules[..i]) == rules[i].from) ==>
      && (forall n :: Meets(rows, rules, i, n) ==> PurposeOf(rows[n]).Some?)
      && (forall n, m :: Meets(rows, rules, i, n) && Meets(rows, rules, i, m) ==> PurposeOf(rows[n]) == PurposeOf(rows[m]))
  }

  lemma FoldedHead(n: Name, rules: seq<Rule>, i: nat)
    requires 0 < i <= |rules|
    ensures Folded(n, rules[..i]) == Folded(Step(n, rules[0]), rules[1..][..i - 1])
  {
    assert rules[..i][0] == rules[0] && rules[..i][1..] == rules[1..][..i - 1];
  }

  /** The rest of a release passes on the moved rows as on the original ones. */
  lemma PassesShift(rows: RowTable, next: RowTable, rules: seq<Rule>, i: nat)
    requires 0 < i < |rules|
    requires forall n :: n in rows ==>
               Step(n, rules[0]) in next && PurposeOf(next[Step(n, rules[0])]) == PurposeOf(rows[n])
    requires forall m :: m in next ==> exists n :: n in rows && Step(n, rules[0]) == m
    ensures Passes(rows, rules, i) <==> Passes(next, rules[1..], i - 1)
  {
    hide PurposeOf;
    var rest := rules[1..];
    forall n | n in rows
      ensures Folded(n, rules[..i]) == Folded(Step(n, rules[0]), rest[..i - 1])
      ensures Meets(rows, rules, i, n) <==> Meets(next, rest, i - 1, Step(n, rules[0]))
    {
      FoldedHead(n, rules, i);
    }
    if Passes(rows, rules, i) {
      if s :| s in next && Folded(s, rest[..i - 1]) == rest[i - 1].from {
        var o :| o in rows && Step(o, rules[0]) == s;
        assert Folded(o, rules[..i]) == rules[i].from;
        forall n, m | Meets(next, rest, i - 1, n) && Meets(next, rest, i - 1, m)
          ensures PurposeOf(next[n]) == PurposeOf(next[m]) && PurposeOf(next[n]).Some?
        {
          var a :| a in rows && Step(a, rules[0]) == n;
          var b :| b in rows && Step(b, rules[0]) == m;
          assert Meets(rows, rules, i, a) && Meets(rows, rules, i, b);
        }
      }
    }
    if Passes(next, rest, i - 1) {
      if s :| s in rows && Folded(s, rules[..i]) == rules[i].from {
        assert Step(s, rules[0]) in next;
        forall n, m | Meets(rows, rules, i, n) && Meets(rows, rules, i, m)
          ensures PurposeOf(rows[n]) == PurposeOf(rows[m]) && PurposeOf(rows[n]).Some?
        {
          assert Meets(next, rest, i - 1, Step(n, rules[0])) && Meets(next, rest, i - 1, Step(m, rules[0]));
        }
      }
    }
  }

  lemma FirstPasses(rows: RowTable, rules: seq<Rule>)
    requires rules != []
    ensures Passes(rows, rules, 0) <==> !Rebound(rows, rules[0]).Refused?
  {
    hide PurposeOf;
    var rule := rules[0];
    assert rules[..0] == [];
    assert forall n :: Folded(n, rules[..0]) == n;
    if rule.from in rows {
      assert Meets(rows, rules, 0, rule.from);
      if rule.to in rows {
        assert Meets(rows, rules, 0, rule.to);
      }
    }
  }

  ghost predicate AllPass(rows: RowTable, rules: seq<Rule>) {
    forall i :: 0 <= i < |rules| ==> Passes(rows, rules, i)
  }

  lemma AllPassShift(rows: RowTable, next: RowTable, rules: seq<Rule>)
    requires rules != [] && Passes(rows, rules, 0)
    requires forall n :: n in rows ==>
               Step(n, rules[0]) in next && PurposeOf(next[Step(n, rules[0])]) == PurposeOf(rows[n])
    requires forall m :: m in next ==> exists n :: n in rows && Step(n, rules[0]) == m
    ensures AllPass(rows, rules) <==> AllPass(next, rules[1..])
  {
    hide PurposeOf, Passes, Step;
    forall i | 0 < i < |rules|
      ensures Passes(rows, rules, i) <==> Passes(next, rules[1..], i - 1)
    {
      PassesShift(rows, next, rules, i);
    }
    if AllPass(rows, rules) {
      forall j | 0 <= j < |rules[1..]|
        ensures Passes(next, rules[1..], j)
      {
        assert Passes(rows, rules, j + 1);
      }
    }
  }

  lemma PlannedStep(rows: RowTable, rules: seq<Rule>)
    requires rules != []
    ensures Planned(rows, rules).Some? <==>
              !Rebound(rows, rules[0]).Refused? && Planned(After(rows, rules[0]), rules[1..]).Some?
  {
    hide Rebound;
  }

  lemma RefusedFirst(rows: RowTable, rules: seq<Rule>)
    requires rules != [] && AllPass(rows, rules)
    ensures Passes(rows, rules, 0) && !Rebound(rows, rules[0]).Refused?
  {
    hide Passes, Rebound;
    FirstPasses(rows, rules);
  }

  /** A release is refused exactly when, read on the rows as they were, some rule
      with a row to move would touch an unreadable row or join two bindings. */
  lemma {:induction false} PlannedExact(rows: RowTable, rules: seq<Rule>)
    ensures Planned(rows, rules).Some? <==> AllPass(rows, rules)
    decreases |rules|
  {
    if rules == [] {
    } else if Rebound(rows, rules[0]).Refused? {
      hide Passes, Rebound, AllPass, Planned;
      PlannedStep(rows, rules);
      if AllPass(rows, rules) {
        RefusedFirst(rows, rules);
      }
    } else {
      hide Passes, Rebound, AllPass, Planned, PurposeOf, Step, After;
      var next := After(rows, rules[0]);
      PlannedStep(rows, rules);
      FirstPasses(rows, rules);
      AfterCarries(rows, rules[0]);
      PlannedExact(next, rules[1..]);
      AllPassShift(rows, next, rules);
    }
  }

  lemma AfterCarries(rows: RowTable, rule: Rule)
    requires !Rebound(rows, rule).Refused?
    ensures forall n :: n in rows ==>
              Step(n, rule) in After(rows, rule) && PurposeOf(After(rows, rule)[Step(n, rule)]) == PurposeOf(rows[n])
    ensures forall m :: m in After(rows, rule) ==> exists n :: n in rows && Step(n, rule) == m
  {
    hide PurposeOf, Rebound;
    NextCarries(rows, rule, After(rows, rule));
  }
}
