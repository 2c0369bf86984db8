/** The root-key hint of the config surface (src/config.rs): the two-row edit
    distance between two keys, and the nearest legal root within three edits. */
module EditDistance {
  import opened Wrappers

  const CONFIG_ROOTS: seq<string> :=
    ["config_version", "workflow", "decisions", "context", "connections", "profiles", "models", "hooks", "mcp"]

  const ROOT_KEY_HINT_DISTANCE: nat := 3

  /* ---- Scripts: what a distance measures ---- */

  /** One edit of a left-to-right rewriting of one key into another. */
  datatype Edit = Keep(kept: char) | Substitute(from: char, to: char) | Delete(deleted: char) | Insert(inserted: char)

  function Source(e: Edit): string {
    match e
    case Keep(c) => [c]
    case Substitute(from, _) => [from]
    case Delete(c) => [c]
    case Insert(_) => []
  }

  function Target(e: Edit): string {
    match e
    case Keep(c) => [c]
    case Substitute(_, to) => [to]
    case Delete(_) => []
    case Insert(c) => [c]
  }

  function Price(e: Edit): nat {
    if e.Keep? then 0 else 1
  }

  function Read(script: seq<Edit>): string {
    if script == [] then [] else Source(script[0]) + Read(script[1..])
  }

  function Written(script: seq<Edit>): string {
    if script == [] then [] else Target(script[0]) + Written(script[1..])
  }

  function Total(script: seq<Edit>): nat {
    if script == [] then 0 else Price(script[0]) + Total(script[1..])
  }

  ghost predicate Rewrites(script: seq<Edit>, left: string, right: string) {
    Read(script) == left && Written(script) == right
  }

  /** `n` insertions, deletions and substitutions suffice, and no fewer do. */
  ghost predicate IsDistance(left: string, right: string, n: nat) {
    && (exists script :: Rewrites(script, left, right) && Total(script) == n)
    && (forall script :: Rewrites(script, left, right) ==> n <= Total(script))
  }

  /* ---- The recurrence the rows tabulate ---- */

  function Min(a: nat, b: nat): nat {
    if b < a then b else a
  }

  function Mismatch(a: char, b: char): nat {
    if a != b then 1 else 0
  }

  function Distance(left: string, right: string): nat {
    if left == [] then |right|
    else if right == [] then |left|
    else
      var l, r := |left| - 1, |right| - 1;
      Min(Min(Distance(left[..l], right[..r]) + Mismatch(left[l], right[r]),
              Distance(left[..l], right) + 1),
          Distance(left, right[..r]) + 1)
  }

  lemma {:induction false} AppendsRead(script: seq<Edit>, e: Edit)
    ensures Read(script + [e]) == Read(script) + Source(e)
  {
    if script == [] {
      assert script + [e] == [e] && [e][1..] == [];
    } else {
      hide Read, Source;
      AppendsRead(script[1..], e);
      ReadHead(script[0], script[1..]);
      ReadHead(script[0], script[1..] + [e]);
      HeadAndTail(script, [e]);
      Associates(Source(script[0]), Read(script[1..]), Source(e));
    }
  }

  lemma ReadHead(e: Edit, rest: seq<Edit>)
    ensures Read([e] + rest) == Source(e) + Read(rest)
  {
  }

  lemma {:induction false} AppendsWritten(script: seq<Edit>, e: Edit)
    ensures Written(script + [e]) == Written(script) + Target(e)
  {
    if script == [] {
      assert script + [e] == [e] && [e][1..] == [];
    } else {
      hide Written, Target;
      AppendsWritten(script[1..], e);
      WrittenHead(script[0], script[1..]);
      WrittenHead(script[0], script[1..] + [e]);
      HeadAndTail(script, [e]);
      Associates(Target(script[0]), Written(script[1..]), Target(e));
    }
  }

  lemma WrittenHead(e: Edit, rest: seq<Edit>)
    ensures Written([e] + rest) == Target(e) + Written(rest)
  {
  }

  lemma {:induction false} AppendsTotal(script: seq<Edit>, e: Edit)
    ensures Total(script + [e]) == Total(script) + Price(e)
  {
    if script == [] {
      assert [e][1..] == [];
    } else {
      AppendsTotal(script[1..], e);
      assert (script + [e])[1..] == script[1..] + [e];
    }
  }

  lemma Appends(script: seq<Edit>, e: Edit)
    ensures Read(script + [e]) == Read(script) + Source(e)
    ensures Written(script + [e]) == Written(script) + Target(e)
    ensures Total(script + [e]) == Total(script) + Price(e)
  {
    AppendsRead(script, e);
    AppendsWritten(script, e);
    AppendsTotal(script, e);
  }

  function Inserts(right: string): seq<Edit> {
    seq(|right|, i requires 0 <= i < |right| => Insert(right[i]))
  }

  function Deletes(left: string): seq<Edit> {
    seq(|left|, i requires 0 <= i < |left| => Delete(left[i]))
  }

  lemma {:induction false} InsertsWrite(right: string)
    ensures Rewrites(Inserts(right), [], right) && Total(Inserts(right)) == |right|
  {
    if right != [] {
      InsertsWrite(right[1..]);
      assert Inserts(right)[1..] == Inserts(right[1..]);
    }
  }

  lemma {:induction false} DeletesRead(left: string)
    ensures Rewrites(Deletes(left), left, []) && Total(Deletes(left)) == |left|
  {
    if left != [] {
      DeletesRead(left[1..]);
      assert Deletes(left)[1..] == Deletes(left[1..]);
    }
  }

  /** A script of the recurrence's length exists. */
  lemma {:induction false} Achieved(left: string, right: string) returns (script: seq<Edit>)
    ensures Rewrites(script, left, right) && Total(script) == Distance(left, right)
    decreases |left| + |right|
  {
    if left == [] {
      script := Inserts(right);
      InsertsWrite(right);
    } else if right == [] {
      script := Deletes(left);
      DeletesRead(left);
    } else {
      var l, r := |left| - 1, |right| - 1;
      assert left == left[..l] + [left[l]] && right == right[..r] + [right[r]];
      var diagonal := Distance(left[..l], right[..r]) + Mismatch(left[l], right[r]);
      if Distance(left, right) == diagonal {
        var s := Achieved(left[..l], right[..r]);
        var e := if left[l] == right[r] then Keep(left[l]) else Substitute(left[l], right[r]);
        Appends(s, e);
        script := s + [e];
      } else if Distance(left, right) == Distance(left[..l], right) + 1 {
        var s := Achieved(left[..l], right);
        Appends(s, Delete(left[l]));
        script := s + [Delete(left[l])];
      } else {
        var s := Achieved(left, right[..r]);
        Appends(s, Insert(right[r]));
        script := s + [Insert(right[r])];
      }
    }
  }

  lemma DistanceBoth(left: string, right: string, a: char, b: char)
    ensures Distance(left + [a], right + [b]) <= Distance(left, right) + Mismatch(a, b)
  {
    var l, r := left + [a], right + [b];
    assert l[..|l| - 1] == left && r[..|r| - 1] == right;
  }

  lemma DistanceDelete(left: string, right: string, c: char)
    requires |left| <= |right| + Distance(left, right)
    ensures Distance(left + [c], right) <= Distance(left, right) + 1
  {
    var l := left + [c];
    assert l[..|l| - 1] == left;
  }

  lemma DistanceInsert(left: string, right: string, c: char)
    requires |right| <= |left| + Distance(left, right)
    ensures Distance(left, right + [c]) <= Distance(left, right) + 1
  {
    var r := right + [c];
    assert r[..|r| - 1] == right;
  }

  /** What one more edit at the end can cost the recurrence. */
  lemma DistanceAppend(left: string, right: string, e: Edit)
    requires |left| <= |right| + Distance(left, right) && |right| <= |left| + Distance(left, right)
    ensures Distance(left + Source(e), right + Target(e)) <= Distance(left, right) + Price(e)
  {
    hide Distance;
    assert left + [] == left && right + [] == right;
    match e {
      case Keep(c) => DistanceBoth(left, right, c, c);
      case Substitute(from, to) => DistanceBoth(left, right, from, to);
      case Delete(c) => DistanceDelete(left, right, c);
      case Insert(c) => DistanceInsert(left, right, c);
    }
  }

  lemma {:induction false} DistanceBounds(left: string, right: string)
    ensures |left| <= |right| + Distance(left, right) && |right| <= |left| + Distance(left, right)
    decreases |left| + |right|
  {
    if left != [] && right != [] {
      DistanceBounds(left[..|left| - 1], right[..|right| - 1]);
      DistanceBounds(left[..|left| - 1], right);
      DistanceBounds(left, right[..|right| - 1]);
    }
  }

  /** No script is shorter. */
  lemma {:induction false} NoneShorter(script: seq<Edit>)
    ensures Distance(Read(script), Written(script)) <= Total(script)
    decreases |script|
  {
    if script != [] {
      hide Distance, Read, Written, Total;
      var n := |script| - 1;
      var init, e := script[..n], script[n];
      assert script == init + [e];
      Appends(init, e);
      NoneShorter(init);
      DistanceBounds(Read(init), Written(init));
      DistanceAppend(Read(init), Written(init), e);
    }
  }

  /** The recurrence is the length of a shortest script. */
  lemma DistanceExact(left: string, right: string, n: nat)
    ensures IsDistance(left, right, n) <==> n == Distance(left, right)
  {
    var best := Achieved(left, right);
    forall script | Rewrites(script, left, right)
      ensures Distance(left, right) <= Total(script)
    {
      NoneShorter(script);
    }
  }

  /* ---- A metric ---- */

  function Inverse(e: Edit): Edit {
    match e
    case Keep(c) => Keep(c)
    case Substitute(from, to) => Substitute(to, from)
    case Delete(c) => Insert(c)
    case Insert(c) => Delete(c)
  }

  function Inverted(script: seq<Edit>): seq<Edit> {
    seq(|script|, i requires 0 <= i < |script| => Inverse(script[i]))
  }

  lemma {:induction false} InvertedRewrites(script: seq<Edit>)
    ensures Rewrites(Inverted(script), Written(script), Read(script)) && Total(Inverted(script)) == Total(script)
  {
    if script != [] {
      InvertedRewrites(script[1..]);
      assert Inverted(script)[1..] == Inverted(script[1..]);
    }
  }

  /** Runs two scripts one after the other as one script. */
  function Composed(first: seq<Edit>, second: seq<Edit>): seq<Edit>
    decreases |first| + |second|
  {
    if first != [] && first[0].Delete? then [first[0]] + Composed(first[1..], second)
    else if second != [] && second[0].Insert? then [second[0]] + Composed(first, second[1..])
    else if first == [] || second == [] then []
    else Fused(first[0], second[0]) + Composed(first[1..], second[1..])
  }

  /** One edit that writes a character, then one that reads it. */
  function Fused(e: Edit, f: Edit): seq<Edit> {
    match (e, f)
    case (Keep(_), _) => [f]
    case (_, Keep(_)) => [e]
    case (Substitute(from, _), Substitute(_, to)) => [if from == to then Keep(from) else Substitute(from, to)]
    case (Substitute(from, _), Delete(_)) => [Delete(from)]
    case (Insert(_), Substitute(_, to)) => [Insert(to)]
    case _ => []
  }

  lemma {:induction false} ComposedRewrites(first: seq<Edit>, second: seq<Edit>)
    requires Written(first) == Read(second)
    ensures Rewrites(Composed(first, second), Read(first), Written(second))
    ensures Total(Composed(first, second)) <= Total(first) + Total(second)
    decreases |first| + |second|
  {
    if first != [] && first[0].Delete? {
      ComposedRewrites(first[1..], second);
      Prepends([first[0]], Composed(first[1..], second));
    } else if second != [] && second[0].Insert? {
      ComposedRewrites(first, second[1..]);
      Prepends([second[0]], Composed(first, second[1..]));
    } else if first != [] && second != [] {
      MiddleAgrees(first, second);
      ComposedRewrites(first[1..], second[1..]);
      Prepends(Fused(first[0], second[0]), Composed(first[1..], second[1..]));
      hide Composed;
      FusedEdits(first[0], second[0]);
    }
  }

  /** Two edits that meet write and read the same character. */
  lemma MiddleAgrees(first: seq<Edit>, second: seq<Edit>)
    requires Written(first) == Read(second) && first != [] && second != [] && !first[0].Delete? && !second[0].Insert?
    ensures Target(first[0]) == Source(second[0]) && Written(first[1..]) == Read(second[1..])
  {
    var middle := Written(first);
    assert middle == Target(first[0]) + Written(first[1..]) && middle == Source(second[0]) + Read(second[1..]);
    assert middle[0] == Target(first[0])[0] && middle[0] == Source(second[0])[0];
    assert Written(first[1..]) == middle[1..] && Read(second[1..]) == middle[1..];
  }

  lemma FusedEdits(e: Edit, f: Edit)
    requires Target(e) == Source(f) != []
    ensures Read(Fused(e, f)) == Source(e) && Written(Fused(e, f)) == Target(f)
    ensures Total(Fused(e, f)) <= Price(e) + Price(f)
  {
  }

  lemma Prepends(head: seq<Edit>, tail: seq<Edit>)
    requires |head| <= 1
    ensures Read(head + tail) == Read(head) + Read(tail)
    ensures Written(head + tail) == Written(head) + Written(tail)
    ensures Total(head + tail) == Total(head) + Total(tail)
  {
    if head == [] {
      assert head + tail == tail;
    } else {
      assert (head + tail)[1..] == tail && head[1..] == [];
    }
  }

  lemma {:induction false} FreeScriptCopies(script: seq<Edit>)
    requires Total(script) == 0
    ensures Read(script) == Written(script)
  {
    if script != [] {
      FreeScriptCopies(script[1..]);
    }
  }

  /** Zero exactly on equal keys, symmetric, and never longer over a detour. */
  lemma DistanceIsMetric(a: string, b: string, c: string)
    ensures Distance(a, b) == 0 <==> a == b
    ensures Distance(a, b) == Distance(b, a)
    ensures Distance(a, c) <= Distance(a, b) + Distance(b, c)
  {
    var ab := Achieved(a, b);
    var ba := Achieved(b, a);
    var bc := Achieved(b, c);
    if Distance(a, b) == 0 {
      FreeScriptCopies(ab);
    }
    if a == b {
      KeepsCopy(a);
      NoneShorter(Keeps(a));
    }
    InvertedRewrites(ab);
    NoneShorter(Inverted(ab));
    InvertedRewrites(ba);
    NoneShorter(Inverted(ba));
    ComposedRewrites(ab, bc);
    NoneShorter(Composed(ab, bc));
  }

  function Keeps(key: string): seq<Edit> {
    seq(|key|, i requires 0 <= i < |key| => Keep(key[i]))
  }

  lemma {:induction false} KeepsCopy(key: string)
    ensures Rewrites(Keeps(key), key, key) && Total(Keeps(key)) == 0
  {
    if key != [] {
      KeepsCopy(key[1..]);
      assert Keeps(key)[1..] == Keeps(key[1..]);
    }
  }

  /* ---- The program ---- */

  /** The distances from one text to every prefix of another, as far as computed. */
  ghost predicate Tabulates(row: seq<nat>, text: string, right: string) {
    |row| <= |right| + 1 && forall j :: 0 <= j < |row| ==> row[j] == Distance(text, right[..j])
  }

  /** `previous` holds the distances of `left[..row]`, `current` those of one
      more character; the rows are swapped, never copied. */
  method Compute(left: string, right: string) returns (distance: nat)
    ensures distance == Distance(left, right)
    ensures IsDistance(left, right, distance)
  {
    var previous := new nat[|right| + 1](i => i);
    var current := new nat[|right| + 1](i => 0);
    FirstRow(left, right, previous[..]);
    hide Distance, IsDistance, Min, Mismatch, Tabulates;
    for row := 0 to |left|
      invariant previous != current && previous.Length == current.Length == |right| + 1
      invariant fresh(previous) && fresh(current)
      invariant Tabulates(previous[..], left[..row], right)
    {
      current[0] := row + 1;
      assert current[..1] == [row + 1];
      RowStart(left, right, row);
      for column := 0 to |right|
        invariant Tabulates(previous[..], left[..row], right)
        invariant Tabulates(current[..column + 1], left[..row + 1], right)
      {
        CellStep(left, right, row, column, previous[..], current[..column + 1]);
        var substitution := previous[column] + Mismatch(left[row], right[column]);
        ghost var done := current[..column + 1];
        current[column + 1] := Min(Min(substitution, previous[column + 1] + 1), current[column] + 1);
        assert current[..column + 2] == done + [current[column + 1]];
      }
      assert current[..|right| + 1] == current[..];
      previous, current := current, previous;
    }
    distance := previous[|right|];
    LastCell(left, right, previous[..]);
    DistanceExact(left, right, distance);
  }

  lemma FirstRow(left: string, right: string, row: seq<nat>)
    requires |row| == |right| + 1 && forall j :: 0 <= j <= |right| ==> row[j] == j
    ensures Tabulates(row, left[..0], right)
  {
  }

  lemma RowStart(left: string, right: string, row: nat)
    requires row < |left|
    ensures Tabulates([row + 1], left[..row + 1], right)
  {
  }

  lemma CellStep(left: string, right: string, row: nat, column: nat, previous: seq<nat>, current: seq<nat>)
    requires row < |left| && column < |right| && |previous| == |right| + 1 && |current| == column + 1
    requires Tabulates(previous, left[..row], right) && Tabulates(current, left[..row + 1], right)
    ensures var substitution := previous[column] + Mismatch(left[row], right[column]);
            var cell := Min(Min(substitution, previous[column + 1] + 1), current[column] + 1);
            Tabulates(current + [cell], left[..row + 1], right)
  {
    var l, r := left[..row + 1], right[..column + 1];
    assert l[..row] == left[..row] && r[..column] == right[..column];
  }

  lemma LastCell(left: string, right: string, row: seq<nat>)
    requires |row| == |right| + 1 && Tabulates(row, left[..|left|], right)
    ensures row[|right|] == Distance(left, right)
  {
    assert left[..|left|] == left && right[..|right|] == right;
  }

  /** The hint over a list of legal roots: the earliest of the closest ones,
      when one lies within three edits. */
  ghost predicate IsNearest(roots: seq<string>, key: string, r: Option<string>) {
    match r
    case None => forall i :: 0 <= i < |roots| ==> Distance(key, roots[i]) > ROOT_KEY_HINT_DISTANCE
    case Some(root) =>
      exists i :: 0 <= i < |roots| && root == roots[i] &&
                  Distance(key, root) <= ROOT_KEY_HINT_DISTANCE && Closest(roots, key, i)
  }

  ghost predicate Closest(roots: seq<string>, key: string, i: nat)
    requires i < |roots|
  {
    && (forall j :: 0 <= j < |roots| ==> Distance(key, roots[i]) <= Distance(key, roots[j]))
    && (forall j :: 0 <= j < i ==> Distance(key, roots[i]) < Distance(key, roots[j]))
  }

  method NearestOf(roots: seq<string>, key: string) returns (r: Option<string>)
    ensures IsNearest(roots, key, r)
  {
    hide Distance, IsDistance;
    r := None;
    var best := 0;
    ghost var at := 0;
    for i := 0 to |roots|
      invariant r == None ==> forall j :: 0 <= j < i ==> Distance(key, roots[j]) > ROOT_KEY_HINT_DISTANCE
      invariant r.Some? ==> 0 <= at < i && r.value == roots[at] && best == Distance(key, roots[at])
      invariant r.Some? ==> best <= ROOT_KEY_HINT_DISTANCE
      invariant r.Some? ==> forall j :: 0 <= j < i ==> best <= Distance(key, roots[j])
      invariant r.Some? ==> forall j :: 0 <= j < at ==> best < Distance(key, roots[j])
    {
      var distance := Compute(key, roots[i]);
      if distance <= ROOT_KEY_HINT_DISTANCE && (r == None || distance < best) {
        r, best, at := Some(roots[i]), distance, i;
      }
    }
    if r.Some? {
      assert Closest(roots, key, at);
    }
  }

  method NearestRoot(key: string) returns (r: Option<string>)
    ensures IsNearest(CONFIG_ROOTS, key, r)
  {
    r := NearestOf(CONFIG_ROOTS, key);
  }

  /** The hint is determined, present exactly when some root lies within three
      edits, and a root is its own hint. */
  lemma NearestDetermined(roots: seq<string>, key: string, r: Option<string>, s: Option<string>)
    requires IsNearest(roots, key, r) && IsNearest(roots, key, s)
    ensures r == s
    ensures r.Some? <==> exists i :: 0 <= i < |roots| && Distance(key, roots[i]) <= ROOT_KEY_HINT_DISTANCE
    ensures key in roots ==> r == Some(key)
  {
    if r.Some? && s.Some? {
      var i :| 0 <= i < |roots| && r.value == roots[i] && Closest(roots, key, i);
      var j :| 0 <= j < |roots| && s.value == roots[j] && Closest(roots, key, j);
      assert i == j;
    }
    if key in roots {
      var k :| 0 <= k < |roots| && roots[k] == key;
      DistanceIsMetric(key, roots[k], key);
      if r.Some? {
        DistanceIsMetric(key, r.value, key);
      }
    }
  }
}
