/** Blocker addresses (src/config.rs): an owner and two tokens under the RFC 6901
    escape, and the decoder that accepts exactly what the encoder writes. */
module PointerAddress {
  import opened Wrappers

  datatype Parts = Parts(owner: string, record: string, field: string)

  /* ---- Tokens ---- */

  function Escape(token: string): string {
    if token == "" then ""
    else (match token[0] case '~' => "~0" case '/' => "~1" case c => [c]) + Escape(token[1..])
  }

  function Unescape(token: string): Option<string> {
    if token == "" then Some("")
    else if token[0] != '~' then
      var rest := Unescape(token[1..]);
      if rest.Some? then Some([token[0]] + rest.value) else None
    else if |token| >= 2 && token[1] in ['0', '1'] then
      var rest := Unescape(token[2..]);
      if rest.Some? then Some([if token[1] == '0' then '~' else '/'] + rest.value) else None
    else None
  }

  predicate WellFormedAt(token: string, i: nat)
    requires i < |token|
  {
    token[i] != '/' && (token[i] == '~' ==> i + 1 < |token| && token[i + 1] in ['0', '1'])
  }

  /** Section 3 of RFC 6901: no `/`, and every `~` opens `~0` or `~1`. */
  ghost predicate WellFormed(token: string) {
    forall i :: 0 <= i < |token| ==> WellFormedAt(token, i)
  }

  lemma WellFormedTail(token: string, n: nat)
    requires n <= |token| && forall i :: 0 <= i < n ==> WellFormedAt(token, i)
    ensures WellFormed(token) <==> WellFormed(token[n..])
  {
    var tail := token[n..];
    if WellFormed(token) {
      forall i | 0 <= i < |tail|
        ensures WellFormedAt(tail, i)
      {
        assert WellFormedAt(token, n + i);
      }
    }
    if WellFormed(tail) {
      forall i | 0 <= i < |token|
        ensures WellFormedAt(token, i)
      {
        if i >= n {
          assert WellFormedAt(tail, i - n);
        }
      }
    }
  }

  lemma {:induction false} EscapeRoundTrip(token: string)
    ensures Unescape(Escape(token)) == Some(token)
    ensures '/' !in Escape(token)
  {
    if token != "" {
      EscapeRoundTrip(token[1..]);
      var head := match token[0] case '~' => "~0" case '/' => "~1" case c => [c];
      assert Escape(token) == head + Escape(token[1..]);
      var escaped := head + Escape(token[1..]);
      assert escaped[|head|..] == Escape(token[1..]);
      assert [token[0]] + token[1..] == token;
      if token[0] == '~' || token[0] == '/' {
        assert escaped[0] == '~' && escaped[1] == head[1] && escaped[2..] == Escape(token[1..]);
      } else {
        assert escaped[0] == token[0] && escaped[1..] == Escape(token[1..]);
      }
    }
  }

  /** A `/`-free token decodes exactly when it is well-formed, and only to the
      value whose escape it is. */
  lemma {:induction false} UnescapeExact(token: string)
    requires '/' !in token
    ensures Unescape(token).Some? <==> WellFormed(token)
    ensures Unescape(token).Some? ==> Escape(Unescape(token).value) == token
    decreases |token|
  {
    if token != "" {
      if token[0] != '~' {
        UnescapeExact(token[1..]);
        WellFormedTail(token, 1);
        if Unescape(token[1..]).Some? {
          assert Unescape(token).value[1..] == Unescape(token[1..]).value;
        }
      } else if |token| >= 2 && token[1] in ['0', '1'] {
        UnescapeExact(token[2..]);
        WellFormedTail(token, 2);
        if Unescape(token[2..]).Some? {
          assert Unescape(token).value[1..] == Unescape(token[2..]).value;
          assert token == token[..2] + token[2..];
        }
      } else {
        assert !WellFormedAt(token, 0);
      }
    }
  }

  /** Section 4 of RFC 6901 decodes by two substitutions in order. */
  function Substituted(token: string, digit: char, to: char): string {
    if token == "" then ""
    else if |token| >= 2 && token[0] == '~' && token[1] == digit then [to] + Substituted(token[2..], digit, to)
    else [token[0]] + Substituted(token[1..], digit, to)
  }

  /** The one-pass decoder is that decoding on every well-formed token. */
  lemma {:induction false} OnePassIsTwoSubstitutions(token: string)
    requires '/' !in token && Unescape(token).Some?
    ensures Unescape(token) == Some(Substituted(Substituted(token, '1', '/'), '0', '~'))
    decreases |token|
  {
    if token != "" {
      if token[0] != '~' {
        OnePassIsTwoSubstitutions(token[1..]);
        var rest := Substituted(token[1..], '1', '/');
        assert Substituted(token, '1', '/') == [token[0]] + rest;
        assert ([token[0]] + rest)[1..] == rest;
      } else {
        OnePassIsTwoSubstitutions(token[2..]);
        var rest := Substituted(token[2..], '1', '/');
        if token[1] == '1' {
          assert Substituted(token, '1', '/') == ['/'] + rest;
          assert (['/'] + rest)[1..] == rest;
        } else {
          assert token[1..][1..] == token[2..];
          assert Substituted(token[1..], '1', '/') == ['0'] + rest;
          assert Substituted(token, '1', '/') == ['~'] + (['0'] + rest);
          assert (['~'] + (['0'] + rest))[2..] == rest;
        }
      }
    }
  }

  /* ---- Addresses ---- */

  function Address(p: Parts): string {
    p.owner + "/" + Escape(p.record) + "/" + Escape(p.field)
  }

  /** What each owner demands of its record and field. */
  predicate Valid(p: Parts) {
    match p.owner
    case "learning" => p.record != "" && p.field != "" && p.record[0] != '/' && p.field[0] != '/'
    case "config" => p.record != "" && p.field != "" && p.record[0] == '/' && p.field[0] == '/'
    case _ => false
  }

  function Split(s: string): (parts: seq<string>)
    ensures |parts| >= 1
  {
    if s == "" then [""]
    else
      var rest := Split(s[1..]);
      if s[0] == '/' then [""] + rest else [[s[0]] + rest[0]] + rest[1..]
  }

  lemma {:induction false} SplitConcat(head: string, tail: string)
    requires '/' !in head
    ensures Split(head + "/" + tail) == [head] + Split(tail)
  {
    var s := head + "/" + tail;
    if head == "" {
      assert s[1..] == tail;
    } else {
      SplitConcat(head[1..], tail);
      assert s[1..] == head[1..] + "/" + tail;
      assert Split(s) == [[s[0]] + Split(s[1..])[0]] + Split(s[1..])[1..];
      assert [s[0]] + head[1..] == head;
    }
  }

  lemma {:induction false} SplitWhole(s: string)
    requires '/' !in s
    ensures Split(s) == [s]
  {
    if s != "" {
      SplitWhole(s[1..]);
      assert [s[0]] + s[1..] == s;
    }
  }

  function Join(parts: seq<string>): string
    requires |parts| >= 1
  {
    if |parts| == 1 then parts[0] else parts[0] + "/" + Join(parts[1..])
  }

  lemma {:induction false} SplitJoin(s: string)
    ensures Join(Split(s)) == s
    ensures forall i :: 0 <= i < |Split(s)| ==> '/' !in Split(s)[i]
  {
    if s != "" {
      SplitJoin(s[1..]);
      var rest := Split(s[1..]);
      if s[0] == '/' {
        assert ([""] + rest)[1..] == rest;
      } else {
        var parts := [[s[0]] + rest[0]] + rest[1..];
        assert parts[1..] == rest[1..];
      }
    }
  }

  function PartsOf(address: string): Option<Parts> {
    var segments := Split(address);
    if |segments| != 3 then None
    else
      match (Unescape(segments[1]), Unescape(segments[2]))
      case (Some(record), Some(field)) =>
        var p := Parts(segments[0], record, field);
        if !Valid(p) || Address(p) != address then None else Some(p)
      case _ => None
  }

  lemma AddressSplits(p: Parts)
    requires '/' !in p.owner
    ensures Split(Address(p)) == [p.owner, Escape(p.record), Escape(p.field)]
  {
    EscapeRoundTrip(p.record);
    EscapeRoundTrip(p.field);
    var tail := Escape(p.record) + "/" + Escape(p.field);
    assert Address(p) == p.owner + "/" + tail;
    SplitConcat(p.owner, tail);
    SplitConcat(Escape(p.record), Escape(p.field));
    SplitWhole(Escape(p.field));
  }

  /** The decoder answers a triple exactly on the address of that triple, when it
      is one its owner admits; so no two triples share an address. */
  lemma PartsExact(address: string, p: Parts)
    ensures PartsOf(address) == Some(p) <==> address == Address(p) && Valid(p)
  {
    if address == Address(p) && Valid(p) {
      AddressSplits(p);
      EscapeRoundTrip(p.record);
      EscapeRoundTrip(p.field);
    }
  }

  lemma AddressInjective(p: Parts, q: Parts)
    requires Valid(p) && Valid(q) && Address(p) == Address(q)
    ensures p == q
  {
    PartsExact(Address(p), p);
    PartsExact(Address(p), q);
  }

  /** The final re-encoding never rejects anything: three segments that decode
      re-encode to the address itself. */
  lemma ReencodingRedundant(address: string)
    requires var s := Split(address); |s| == 3 && Unescape(s[1]).Some? && Unescape(s[2]).Some?
    ensures var s := Split(address);
            Address(Parts(s[0], Unescape(s[1]).value, Unescape(s[2]).value)) == address
  {
    var s := Split(address);
    SplitJoin(address);
    UnescapeExact(s[1]);
    UnescapeExact(s[2]);
    assert s[1..][1..] == [s[2]];
    assert Join(s[1..]) == s[1] + "/" + s[2];
    assert address == s[0] + "/" + (s[1] + "/" + s[2]);
  }

  /** The token of a value that opens with a slash. */
  predicate Points(token: string) {
    |token| >= 2 && token[0] == '~' && token[1] == '1'
  }

  lemma DecodedOpening(token: string)
    requires '/' !in token && Unescape(token).Some?
    ensures Unescape(token).value == "" <==> token == ""
    ensures Unescape(token).value != "" && Unescape(token).value[0] == '/' <==> Points(token)
  {
  }

  /** Which texts are addresses at all: three tokens, the last two well-formed;
      those of `learning` neither empty nor decoding to a slash in front, those of
      `config` both decoding to one. */
  lemma AcceptedExact(address: string)
    ensures PartsOf(address).Some? <==>
            var s := Split(address);
            && |s| == 3 && WellFormed(s[1]) && WellFormed(s[2])
            && ((s[0] == "learning" && s[1] != "" && s[2] != "" && !Points(s[1]) && !Points(s[2]))
                || (s[0] == "config" && Points(s[1]) && Points(s[2])))
  {
    var s := Split(address);
    SplitJoin(address);
    if |s| == 3 {
      UnescapeExact(s[1]);
      UnescapeExact(s[2]);
      if WellFormed(s[1]) && WellFormed(s[2]) {
        ReencodingRedundant(address);
        DecodedOpening(s[1]);
        DecodedOpening(s[2]);
      }
      hide Split, Unescape, Escape, WellFormed;
    }
  }

  /* ---- The program ---- */

  lemma EscapeStep(token: string, i: nat, escaped: string)
    requires i < |token|
    ensures var piece := match token[i] case '~' => "~0" case '/' => "~1" case c => [c];
            escaped + Escape(token[i..]) == (escaped + piece) + Escape(token[i + 1..])
  {
    var piece := match token[i] case '~' => "~0" case '/' => "~1" case c => [c];
    assert token[i..][1..] == token[i + 1..];
    assert Escape(token[i..]) == piece + Escape(token[i + 1..]);
    hide Escape;
    assert escaped + (piece + Escape(token[i + 1..])) == (escaped + piece) + Escape(token[i + 1..]);
  }

  lemma EscapeEnds(token: string, escaped: string)
    ensures "" + Escape(token[0..]) == Escape(token)
    ensures escaped + Escape(token[|token|..]) == escaped
  {
    assert token[0..] == token;
  }

  method PointerEscape(token: string) returns (escaped: string)
    ensures escaped == Escape(token)
  {
    hide Escape;
    escaped := "";
    EscapeEnds(token, "");
    for i := 0 to |token|
      invariant escaped + Escape(token[i..]) == Escape(token)
    {
      EscapeStep(token, i, escaped);
      var piece := match token[i] case '~' => "~0" case '/' => "~1" case c => [c];
      escaped := escaped + piece;
    }
    EscapeEnds(token, escaped);
  }

  function Prefixed(decoded: string, rest: Option<string>): Option<string> {
    if rest.Some? then Some(decoded + rest.value) else None
  }

  lemma PrefixedNothing(rest: Option<string>)
    ensures Prefixed("", rest) == rest
  {
    if rest.Some? {
      assert "" + rest.value == rest.value;
    }
  }

  lemma PrefixedTwice(decoded: string, piece: string, rest: Option<string>)
    ensures Prefixed(decoded, Prefixed(piece, rest)) == Prefixed(decoded + piece, rest)
  {
    if rest.Some? {
      assert decoded + (piece + rest.value) == decoded + piece + rest.value;
    }
  }

  method PointerUnescape(token: string) returns (r: Option<string>)
    ensures r == Unescape(token)
  {
    var decoded := "";
    var i := 0;
    assert token[0..] == token;
    PrefixedNothing(Unescape(token));
    while i < |token|
      invariant i <= |token|
      invariant Unescape(token) ==
                Prefixed(decoded, Unescape(token[i..]))
    {
      var character := token[i];
      assert token[i..][0] == character && token[i..][1..] == token[i + 1..];
      i := i + 1;
      if character != '~' {
        PrefixedTwice(decoded, [character], Unescape(token[i..]));
        decoded := decoded + [character];
        continue;
      }
      if i == |token| {
        return None;
      }
      assert token[i - 1..][1] == token[i] && token[i - 1..][2..] == token[i + 1..];
      PrefixedTwice(decoded, if token[i] == '0' then "~" else "/", Unescape(token[i + 1..]));
      match token[i] {
        case '0' => decoded := decoded + "~";
        case '1' => decoded := decoded + "/";
        case _ => return None;
      }
      i := i + 1;
    }
    assert token[i..] == "" && decoded + "" == decoded;
    r := Some(decoded);
  }

  method BlockerAddress(p: Parts) returns (address: string)
    ensures address == Address(p)
  {
    var record := PointerEscape(p.record);
    var field := PointerEscape(p.field);
    address := p.owner + "/" + record + "/" + field;
  }

  method BlockerAddressParts(address: string) returns (r: Option<Parts>)
    ensures r == PartsOf(address)
    ensures forall p :: r == Some(p) <==> address == Address(p) && Valid(p)
  {
    forall p {
      PartsExact(address, p);
    }
    var parts := Split(address);
    if |parts| != 3 {
      return None;
    }
    var record := PointerUnescape(parts[1]);
    if record == None {
      return None;
    }
    var field := PointerUnescape(parts[2]);
    if field == None {
      return None;
    }
    var p := Parts(parts[0], record.value, field.value);
    if !Valid(p) {
      return None;
    }
    var again := BlockerAddress(p);
    if again != address {
      return None;
    }
    r := Some(p);
  }
}
