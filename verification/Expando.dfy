/** The expando rewriting of Rust patterns (src/context.rs): which runs of `$`
    are meta-variable sigils and which stay literal. */
module Expando {

  predicate NameChar(c: char) {
    'A' <= c <= 'Z' || c == '_'
  }

  /** The first position at or after `i` that is not a dollar. */
  function RunEnd(q: string, i: nat): (end: nat)
    requires i <= |q|
    ensures i <= end <= |q| && (end < |q| ==> q[end] != '$')
    ensures forall k :: i <= k < end ==> q[k] == '$'
    decreases |q| - i
  {
    if i < |q| && q[i] == '$' then RunEnd(q, i + 1) else i
  }

  /** The last position at or before `i` that no dollar precedes. */
  function RunStart(q: string, i: nat): (start: nat)
    requires i <= |q|
    ensures start <= i && (start > 0 ==> q[start - 1] != '$')
    ensures forall k :: start <= k < i ==> q[k] == '$'
  {
    if i > 0 && q[i - 1] == '$' then RunStart(q, i - 1) else i
  }

  /** A maximal run is a sigil exactly when a name character follows it, or when
      it is three dollars long. */
  predicate Sigil(q: string, start: nat, end: nat)
    requires start <= end <= |q|
  {
    (end < |q| && NameChar(q[end])) || end - start == 3
  }

  function RewrittenChar(q: string, expando: char, i: nat): char
    requires i < |q|
  {
    if q[i] == '$' && Sigil(q, RunStart(q, i), RunEnd(q, i)) then expando else q[i]
  }

  function Rewritten(q: string, expando: char): (r: string)
    ensures |r| == |q|
  {
    seq(|q|, i requires 0 <= i < |q| => RewrittenChar(q, expando, i))
  }

  lemma {:induction false} RunEndUnique(q: string, i: nat, end: nat)
    requires i <= end <= |q| && (end < |q| ==> q[end] != '$')
    requires forall k :: i <= k < end ==> q[k] == '$'
    ensures RunEnd(q, i) == end
    decreases end - i
  {
    if i < end {
      RunEndUnique(q, i + 1, end);
    }
  }

  lemma {:induction false} RunStartUnique(q: string, i: nat, start: nat)
    requires start <= i <= |q| && (start > 0 ==> q[start - 1] != '$')
    requires forall k :: start <= k < i ==> q[k] == '$'
    ensures RunStart(q, i) == start
  {
    if start < i {
      RunStartUnique(q, i - 1, start);
    }
  }

  /** Every character of one maximal run is rewritten alike. */
  lemma RunRewritten(q: string, expando: char, start: nat, end: nat, i: nat)
    requires start <= i < end <= |q|
    requires start > 0 ==> q[start - 1] != '$'
    requires end < |q| ==> q[end] != '$'
    requires forall k :: start <= k < end ==> q[k] == '$'
    ensures RunStart(q, i) == start && RunEnd(q, i) == end
    ensures RewrittenChar(q, expando, i) ==
            if (end < |q| && ('A' <= q[end] <= 'Z' || q[end] == '_')) || end - start == 3 then expando else '$'
  {
    RunStartUnique(q, i, start);
    RunEndUnique(q, i, end);
  }

  /** A run that stayed is a run of the rewritten text, and stays again. */
  lemma StayingRun(q: string, expando: char, i: nat)
    requires expando != '$' && i < |q| && Rewritten(q, expando)[i] == '$'
    ensures RewrittenChar(Rewritten(q, expando), expando, i) == '$'
  {
    var r := Rewritten(q, expando);
    assert q[i] == '$';
    var start, end := RunStart(q, i), RunEnd(q, i);
    RunEndUnique(q, i, end);
    RunRewritten(q, expando, start, end, i);
    forall k | start <= k < end
      ensures r[k] == '$'
    {
      RunRewritten(q, expando, start, end, k);
    }
    assert forall k :: 0 <= k < |q| && q[k] != '$' ==> r[k] == q[k];
    hide Rewritten, RewrittenChar;
    RunRewritten(r, expando, start, end, i);
  }

  /** Everything that is not a sigil stays where it is, and a second rewriting
      finds nothing left to do. */
  lemma RewritingIsStable(q: string, expando: char)
    ensures forall i :: 0 <= i < |q| && q[i] != '$' ==> Rewritten(q, expando)[i] == q[i]
    ensures Rewritten(Rewritten(q, expando), expando) == Rewritten(q, expando)
  {
    var r := Rewritten(q, expando);
    if expando == '$' {
      assert r == q;
    } else {
      forall i | 0 <= i < |r|
        ensures RewrittenChar(r, expando, i) == r[i]
      {
        if r[i] == '$' {
          StayingRun(q, expando, i);
        }
      }
    }
  }

  /** The scanning program: dollars are counted, and written out when the next
      character, or the end, has decided them. */
  method ExpandoRewrite(query: string, expando: char) returns (ret: string)
    ensures ret == Rewritten(query, expando)
  {
    hide RewrittenChar;
    ret := "";
    var dollarCount := 0;
    for i := 0 to |query|
      invariant dollarCount <= i && |ret| == i - dollarCount
      invariant ret == Rewritten(query, expando)[..i - dollarCount]
      invariant forall k :: i - dollarCount <= k < i ==> query[k] == '$'
      invariant i - dollarCount > 0 ==> query[i - dollarCount - 1] != '$'
    {
      var c := query[i];
      if c == '$' {
        dollarCount := dollarCount + 1;
      } else {
        var needReplace := NameChar(c) || dollarCount == 3;
        var sigil := if needReplace then expando else '$';
        Flushed(query, expando, ret, i, sigil);
        ret := ret + seq(dollarCount, k => sigil) + [c];
        dollarCount := 0;
      }
    }
    var sigil := if dollarCount == 3 then expando else '$';
    FlushedRun(query, expando, |query| - dollarCount, |query|);
    ret := ret + seq(dollarCount, k => sigil);
  }

  /** The run before a character that ends it is written out, then that character. */
  lemma Flushed(q: string, expando: char, ret: string, i: nat, sigil: char)
    requires |ret| <= i < |q| && ret == Rewritten(q, expando)[..|ret|] && q[i] != '$'
    requires |ret| > 0 ==> q[|ret| - 1] != '$'
    requires forall k :: |ret| <= k < i ==> q[k] == '$'
    requires sigil == if NameChar(q[i]) || i - |ret| == 3 then expando else '$'
    ensures ret + seq(i - |ret|, k => sigil) + [q[i]] == Rewritten(q, expando)[..i + 1]
  {
    var all := Rewritten(q, expando);
    assert all[i] == q[i];
    FlushedRun(q, expando, |ret|, i);
    hide Rewritten;
    assert all[|ret|..i] == seq(i - |ret|, k => sigil);
    assert all[..i + 1] == all[..|ret|] + all[|ret|..i] + [all[i]];
  }

  lemma FlushedRun(q: string, expando: char, start: nat, end: nat)
    requires start <= end <= |q|
    requires start > 0 ==> q[start - 1] != '$'
    requires end < |q| ==> q[end] != '$'
    requires forall k :: start <= k < end ==> q[k] == '$'
    ensures Rewritten(q, expando)[start..end] ==
            seq(end - start, k => if Sigil(q, start, end) then expando else '$')
  {
    forall i | start <= i < end
      ensures RewrittenChar(q, expando, i) == if Sigil(q, start, end) then expando else '$'
    {
      RunRewritten(q, expando, start, end, i);
    }
  }
}
