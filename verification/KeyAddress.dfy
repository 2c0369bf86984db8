/** Dotted config keys (src/config.rs): how a key with quoted segments is read,
    and which slot of the document it may edit. */
module KeyAddress {
  import opened Wrappers

  const QUOTE: char := '"'

  /* ---- Reading a key ---- */

  function Toggled(quoted: bool, c: char): bool {
    if c == QUOTE then !quoted else quoted
  }

  /** Segments between the dots outside quotes, quotes still on. */
  function RawSegments(key: string, quoted: bool): (r: seq<string>)
    ensures |r| >= 1
  {
    if key == "" then [""]
    else if key[0] == '.' && !quoted then [""] + RawSegments(key[1..], quoted)
    else
      var rest := RawSegments(key[1..], Toggled(quoted, key[0]));
      [[key[0]] + rest[0]] + rest[1..]
  }

  function Quotes(key: string): nat {
    if key == "" then 0 else Quotes(key[1..]) + if key[0] == QUOTE then 1 else 0
  }

  function Stripped(segment: string): string {
    if |segment| >= 2 && segment[0] == QUOTE && segment[|segment| - 1] == QUOTE then segment[1..|segment| - 1] else segment
  }

  function AllStripped(segments: seq<string>): (r: seq<string>)
    ensures |r| == |segments|
  {
    seq(|segments|, i requires 0 <= i < |segments| => Stripped(segments[i]))
  }

  /** Absent exactly when a quote is left open. */
  function KeySegments(key: string): Option<seq<string>> {
    if Quotes(key) % 2 == 1 then None else Some(AllStripped(RawSegments(key, false)))
  }

  /* ---- Printing a key ---- */

  function PrintedSegment(segment: string): string {
    if '.' in segment then [QUOTE] + segment + [QUOTE] else segment
  }

  function Printed(segments: seq<string>): string
    requires |segments| >= 1
  {
    if |segments| == 1 then PrintedSegment(segments[0])
    else PrintedSegment(segments[0]) + "." + Printed(segments[1..])
  }

  ghost predicate QuoteFree(segments: seq<string>) {
    forall i :: 0 <= i < |segments| ==> QUOTE !in segments[i]
  }

  lemma {:induction false} QuotesConcat(a: string, b: string)
    ensures Quotes(a + b) == Quotes(a) + Quotes(b)
  {
    if a == "" {
      assert a + b == b;
    } else {
      QuotesConcat(a[1..], b);
      assert (a + b)[1..] == a[1..] + b;
    }
  }

  lemma {:induction false} NoQuotes(s: string)
    requires QUOTE !in s
    ensures Quotes(s) == 0
  {
    if s != "" {
      NoQuotes(s[1..]);
    }
  }

  /** A run without quotes, and without dots unless quoted, joins one segment. */
  lemma {:induction false} RunJoins(run: string, tail: string, quoted: bool)
    requires QUOTE !in run && ('.' !in run || quoted)
    ensures var rest := RawSegments(tail, quoted);
            RawSegments(run + tail, quoted) == [run + rest[0]] + rest[1..]
  {
    if run == "" {
      assert run + tail == tail;
      var rest := RawSegments(tail, quoted);
      assert run + rest[0] == rest[0];
      assert rest == [rest[0]] + rest[1..];
    } else {
      RunJoins(run[1..], tail, quoted);
      assert (run + tail)[1..] == run[1..] + tail;
      var rest := RawSegments(tail, quoted);
      assert [run[0]] + (run[1..] + rest[0]) == run + rest[0];
    }
  }

  lemma SegmentJoins(segment: string, tail: string)
    requires QUOTE !in segment
    ensures var rest := RawSegments(tail, false);
            RawSegments(PrintedSegment(segment) + tail, false) == [PrintedSegment(segment) + rest[0]] + rest[1..]
  {
    var rest := RawSegments(tail, false);
    if '.' in segment {
      var closed := [QUOTE] + tail;
      QuoteOpens(tail, true);
      RunJoins(segment, closed, true);
      QuoteOpens(segment + closed, false);
      hide RawSegments;
      QuotedText(segment, tail);
      QuotedText(segment, rest[0]);
    } else {
      RunJoins(segment, tail, false);
    }
  }

  lemma QuotedText(segment: string, tail: string)
    ensures [QUOTE] + (segment + ([QUOTE] + tail)) == ([QUOTE] + segment + [QUOTE]) + tail
  {
  }

  /** A quote stays in its segment and turns the state over. */
  lemma QuoteOpens(tail: string, quoted: bool)
    ensures var rest := RawSegments(tail, !quoted);
            RawSegments([QUOTE] + tail, quoted) == [[QUOTE] + rest[0]] + rest[1..]
  {
    assert ([QUOTE] + tail)[1..] == tail;
  }

  lemma {:induction false} PrintedRaw(segments: seq<string>)
    requires |segments| >= 1 && QuoteFree(segments)
    ensures RawSegments(Printed(segments), false) == seq(|segments|, i requires 0 <= i < |segments| => PrintedSegment(segments[i]))
    ensures Quotes(Printed(segments)) % 2 == 0
    decreases |segments|
  {
    var head := segments[0];
    NoQuotes(head);
    QuotesConcat([QUOTE], head);
    QuotesConcat([QUOTE] + head, [QUOTE]);
    if |segments| == 1 {
      SegmentJoins(head, "");
      assert PrintedSegment(head) + "" == PrintedSegment(head);
    } else {
      var tail := "." + Printed(segments[1..]);
      PrintedRaw(segments[1..]);
      assert tail[1..] == Printed(segments[1..]);
      SegmentJoins(head, tail);
      assert PrintedSegment(head) + "" == PrintedSegment(head);
      assert Printed(segments) == PrintedSegment(head) + tail;
      QuotesConcat(PrintedSegment(head), tail);
      assert Quotes(tail) == Quotes(Printed(segments[1..]));
    }
  }

  /** Reading inverts printing on every list of quote-free segments. */
  lemma SegmentsRoundTrip(segments: seq<string>)
    requires |segments| >= 1 && QuoteFree(segments)
    ensures KeySegments(Printed(segments)) == Some(segments)
  {
    PrintedRaw(segments);
    forall i | 0 <= i < |segments|
      ensures Stripped(PrintedSegment(segments[i])) == segments[i]
    {
      assert QUOTE !in segments[i];
      if '.' !in segments[i] && |segments[i]| >= 2 {
        assert segments[i][0] in segments[i];
      }
    }
    assert AllStripped(RawSegments(Printed(segments), false)) == segments;
  }

  /** Finished segments, the open one, and what the rest of the key adds to it. */
  function Glued(done: seq<string>, run: string, rest: seq<string>): seq<string>
    requires |rest| >= 1
  {
    done + [run + rest[0]] + rest[1..]
  }

  lemma GluedNothing(rest: seq<string>)
    requires |rest| >= 1
    ensures Glued([], "", rest) == rest
  {
    assert "" + rest[0] == rest[0];
    assert rest == [rest[0]] + rest[1..];
  }

  lemma GluedDot(done: seq<string>, run: string, rest: seq<string>)
    requires |rest| >= 1
    ensures Glued(done, run, [""] + rest) == Glued(done + [run], "", rest)
  {
    assert run + "" == run && "" + rest[0] == rest[0];
    assert ([""] + rest)[1..] == rest && rest == [rest[0]] + rest[1..];
  }

  lemma GluedChar(done: seq<string>, run: string, c: char, rest: seq<string>)
    requires |rest| >= 1
    ensures Glued(done, run, [[c] + rest[0]] + rest[1..]) == Glued(done, run + [c], rest)
  {
    assert run + ([c] + rest[0]) == run + [c] + rest[0];
    assert ([[c] + rest[0]] + rest[1..])[1..] == rest[1..];
  }

  lemma CutStep(key: string, index: nat, quoted: bool, done: seq<string>, start: nat)
    requires start <= index < |key|
    ensures Glued(done, key[start..index], RawSegments(key[index..], quoted)) ==
            if key[index] == '.' && !quoted then
              Glued(done + [key[start..index]], key[index + 1..index + 1], RawSegments(key[index + 1..], quoted))
            else Glued(done, key[start..index + 1], RawSegments(key[index + 1..], Toggled(quoted, key[index])))
  {
    var c := key[index];
    assert key[index..][1..] == key[index + 1..];
    if c == '.' && !quoted {
      GluedDot(done, key[start..index], RawSegments(key[index + 1..], quoted));
      assert key[index + 1..index + 1] == "";
    } else {
      assert key[start..index + 1] == key[start..index] + [c];
      GluedChar(done, key[start..index], c, RawSegments(key[index + 1..], Toggled(quoted, c)));
    }
  }

  lemma QuotesStep(key: string, index: nat)
    requires index < |key|
    ensures Quotes(key[..index + 1]) == Quotes(key[..index]) + if key[index] == QUOTE then 1 else 0
  {
    assert key[..index + 1] == key[..index] + [key[index]];
    QuotesConcat(key[..index], [key[index]]);
    assert [key[index]][1..] == "";
  }

  lemma CutEnds(key: string, done: seq<string>, start: nat, quoted: bool)
    requires start <= |key|
    ensures Glued(done, key[start..|key|], RawSegments(key[|key|..], quoted)) == done + [key[start..]]
    ensures key[..|key|] == key
  {
    assert key[|key|..] == "" && key[start..|key|] + "" == key[start..];
  }

  lemma CutBegins(key: string)
    ensures Glued([], key[0..0], RawSegments(key[0..], false)) == RawSegments(key, false)
    ensures Quotes(key[..0]) == 0
  {
    assert key[0..] == key && key[0..0] == "";
    GluedNothing(RawSegments(key, false));
  }

  /** The program: one pass with a start index and a quote flag. */
  method ReadSegments(key: string) returns (r: Option<seq<string>>)
    ensures r == KeySegments(key)
    ensures r == None <==> Quotes(key) % 2 == 1
  {
    hide RawSegments, Glued, Quotes;
    var segments: seq<string> := [];
    var start := 0;
    var quoted := false;
    CutBegins(key);
    for index := 0 to |key|
      invariant start <= index
      invariant quoted == (Quotes(key[..index]) % 2 == 1)
      invariant RawSegments(key, false) ==
                Glued(segments, key[start..index], RawSegments(key[index..], quoted))
    {
      var c := key[index];
      CutStep(key, index, quoted, segments, start);
      QuotesStep(key, index);
      if c == '.' && !quoted {
        segments := segments + [key[start..index]];
        start := index + 1;
      } else if c == QUOTE {
        quoted := !quoted;
      }
    }
    CutEnds(key, segments, start, quoted);
    if quoted {
      return None;
    }
    segments := segments + [key[start..]];
    var stripped: seq<string> := [];
    for i := 0 to |segments|
      invariant stripped == AllStripped(segments[..i])
    {
      stripped := stripped + [Stripped(segments[i])];
    }
    assert segments[..|segments|] == segments;
    r := Some(stripped);
  }

  /* ---- Addressing a slot ---- */

  datatype EditTarget =
    | WorkflowEnabled
    | DecisionsMode
    | ContextAutoCompact
    | DefaultsModel
    | DefaultsEffort
    | DefaultsFallback
    | GroupModel(name: string)
    | PurposeModel(name: string)
    | PurposeEffort(name: string)
    | PurposeFallback(name: string)
    | PurposeEligible(name: string)
    | ConnectionRegion(name: string)
    | ConnectionProfile(name: string)
    | ProfileCredentialRef(name: string)

  datatype KeyRefusal = UnterminatedQuote | EmptySegment | NotAnEditTarget

  const CARRIERS: nat := 6

  /** The table behind both wire surfaces: the pattern of each carrier, split at
      its dots. A pattern segment opening with `<` captures one non-empty segment. */
  function Pattern(carrier: nat): (r: seq<string>)
    requires carrier < CARRIERS
    ensures "" !in r
  {
    if carrier == 0 then ["workflow", "enabled"]
    else if carrier == 1 then ["decisions", "mode"]
    else if carrier == 2 then ["context", "auto_compact"]
    else if carrier == 3 then ["connections", "<id>", "region"]
    else if carrier == 4 then ["connections", "<id>", "profile"]
    else ["profiles", "<name>", "credential_ref"]
  }

  /** The slot each carrier addresses. */
  function Addressed(carrier: nat, name: string): EditTarget
    requires carrier < CARRIERS
  {
    if carrier == 0 then WorkflowEnabled
    else if carrier == 1 then DecisionsMode
    else if carrier == 2 then ContextAutoCompact
    else if carrier == 3 then ConnectionRegion(name)
    else if carrier == 4 then ConnectionProfile(name)
    else ProfileCredentialRef(name)
  }

  function Captures(pattern: seq<string>, segments: seq<string>): Option<seq<string>> {
    if |pattern| != |segments| then None
    else if pattern == [] then Some([])
    else
      var rest := Captures(pattern[1..], segments[1..]);
      if rest == None then None
      else if pattern[0] != "" && pattern[0][0] == '<' then
        if segments[0] == "" then None else Some([segments[0]] + rest.value)
      else if pattern[0] == segments[0] then rest
      else None
  }

  function FirstName(names: seq<string>): string {
    if names == [] then "" else names[0]
  }

  function CarrierFrom(segments: seq<string>, i: nat): Option<EditTarget>
    requires i <= CARRIERS
    decreases CARRIERS - i
  {
    if i == CARRIERS then None
    else
      match Captures(Pattern(i), segments)
      case Some(names) => Some(Addressed(i, FirstName(names)))
      case None => CarrierFrom(segments, i + 1)
  }

  /** Whether `config.read` serves this key. */
  predicate IsReadable(key: string) {
    KeySegments(key).Some? && CarrierFrom(KeySegments(key).value, 0).Some?
  }

  function AssignmentTarget(segments: seq<string>): Option<EditTarget> {
    if segments == ["models", "defaults", "model"] then Some(DefaultsModel)
    else if segments == ["models", "defaults", "effort"] then Some(DefaultsEffort)
    else if segments == ["models", "defaults", "fallback"] then Some(DefaultsFallback)
    else if |segments| != 4 || segments[0] != "models" then None
    else if segments[1] == "groups" && segments[3] == "model" then Some(GroupModel(segments[2]))
    else if segments[1] != "purposes" then None
    else if segments[3] == "model" then Some(PurposeModel(segments[2]))
    else if segments[3] == "effort" then Some(PurposeEffort(segments[2]))
    else if segments[3] == "fallback" then Some(PurposeFallback(segments[2]))
    else if segments[3] == "eligible" then Some(PurposeEligible(segments[2]))
    else None
  }

  function TargetOf(key: string): Result<EditTarget, KeyRefusal> {
    match KeySegments(key)
    case None => Err(UnterminatedQuote)
    case Some(segments) =>
      if "" in segments then Err(EmptySegment)
      else
        match CarrierFrom(segments, 0)
        case Some(target) => Ok(target)
        case None =>
          match AssignmentTarget(segments)
          case Some(target) => Ok(target)
          case None => Err(NotAnEditTarget)
  }

  /** The tables to walk and the field to write. */
  function TargetPath(t: EditTarget): (seq<string>, string) {
    match t
    case WorkflowEnabled => (["workflow"], "enabled")
    case DecisionsMode => (["decisions"], "mode")
    case ContextAutoCompact => (["context"], "auto_compact")
    case DefaultsModel => (["models", "defaults"], "model")
    case DefaultsEffort => (["models", "defaults"], "effort")
    case DefaultsFallback => (["models", "defaults"], "fallback")
    case GroupModel(name) => (["models", "groups", name], "model")
    case PurposeModel(name) => (["models", "purposes", name], "model")
    case PurposeEffort(name) => (["models", "purposes", name], "effort")
    case PurposeFallback(name) => (["models", "purposes", name], "fallback")
    case PurposeEligible(name) => (["models", "purposes", name], "eligible")
    case ConnectionRegion(name) => (["connections", name], "region")
    case ConnectionProfile(name) => (["connections", name], "profile")
    case ProfileCredentialRef(name) => (["profiles", name], "credential_ref")
  }

  function Spelled(t: EditTarget): seq<string> {
    TargetPath(t).0 + [TargetPath(t).1]
  }

  lemma CapturesLiteral(p: string, q: string, segments: seq<string>)
    requires p != "" && q != "" && p[0] != '<' && q[0] != '<'
    ensures Captures([p, q], segments) == if segments == [p, q] then Some([]) else None
  {
    if |segments| == 2 {
      assert [p, q][1..] == [q] && [q][1..] == [] && segments[1..][1..] == [];
      assert Captures([], []) == Some([]);
      assert Captures([q], segments[1..]) == if segments[1] == q then Some([]) else None;
      assert segments == [segments[0], segments[1]];
    }
  }

  lemma CapturesName(p: string, mark: string, q: string, segments: seq<string>)
    requires p != "" && q != "" && p[0] != '<' && q[0] != '<' && mark != "" && mark[0] == '<'
    ensures Captures([p, mark, q], segments) ==
            if |segments| == 3 && segments[0] == p && segments[2] == q && segments[1] != "" then Some([segments[1]]) else None
  {
    if |segments| == 3 {
      assert [p, mark, q][1..] == [mark, q] && [mark, q][1..] == [q] && [q][1..] == [];
      assert segments[1..][1..] == [segments[2]] && [segments[2]][1..] == [];
      assert Captures([], []) == Some([]);
      assert Captures([q], [segments[2]]) == if segments[2] == q then Some([]) else None;
      var rest := segments[1..];
      assert rest == [segments[1], segments[2]] && rest[0] == segments[1] && rest[1..] == [segments[2]];
      assert [mark, q][0] == mark && [mark, q][1..] == [q];
      assert Captures([mark, q][1..], rest[1..]) == if segments[2] == q then Some([]) else None;
      assert [segments[1]] + [] == [segments[1]];
      assert Captures([mark, q], rest) == if segments[2] == q && segments[1] != "" then Some([segments[1]]) else None;
    }
  }

  predicate OnCarrier(t: EditTarget) {
    || t.WorkflowEnabled? || t.DecisionsMode? || t.ContextAutoCompact?
    || t.ConnectionRegion? || t.ConnectionProfile? || t.ProfileCredentialRef?
  }

  /** The carrier table as one case distinction. */
  function CarrierCase(segments: seq<string>): Option<EditTarget> {
    if segments == ["workflow", "enabled"] then Some(WorkflowEnabled)
    else if segments == ["decisions", "mode"] then Some(DecisionsMode)
    else if segments == ["context", "auto_compact"] then Some(ContextAutoCompact)
    else if |segments| != 3 then None
    else if segments[0] == "connections" && segments[2] == "region" then Some(ConnectionRegion(segments[1]))
    else if segments[0] == "connections" && segments[2] == "profile" then Some(ConnectionProfile(segments[1]))
    else if segments[0] == "profiles" && segments[2] == "credential_ref" then Some(ProfileCredentialRef(segments[1]))
    else None
  }

  lemma ProfileCarrier(segments: seq<string>)
    requires "" !in segments
    ensures CarrierFrom(segments, 5) ==
            if |segments| == 3 && segments[0] == "profiles" && segments[2] == "credential_ref"
            then Some(ProfileCredentialRef(segments[1])) else None
  {
    CapturesName("profiles", "<name>", "credential_ref", segments);
    assert CarrierFrom(segments, 6) == None;
  }

  lemma ConnectionCarriers(segments: seq<string>)
    requires "" !in segments
    ensures CarrierFrom(segments, 4) ==
            if |segments| == 3 && segments[0] == "connections" && segments[2] == "profile"
            then Some(ConnectionProfile(segments[1])) else CarrierFrom(segments, 5)
    ensures CarrierFrom(segments, 3) ==
            if |segments| == 3 && segments[0] == "connections" && segments[2] == "region"
            then Some(ConnectionRegion(segments[1])) else CarrierFrom(segments, 4)
  {
    CapturesName("connections", "<id>", "profile", segments);
    CapturesName("connections", "<id>", "region", segments);
  }

  lemma CarrierTable(segments: seq<string>)
    requires "" !in segments
    ensures CarrierFrom(segments, 0) == CarrierCase(segments)
  {
    ProfileCarrier(segments);
    ConnectionCarriers(segments);
    CapturesLiteral("workflow", "enabled", segments);
    CapturesLiteral("decisions", "mode", segments);
    CapturesLiteral("context", "auto_compact", segments);
    assert CarrierFrom(segments, 2) ==
           if segments == ["context", "auto_compact"] then Some(ContextAutoCompact) else CarrierFrom(segments, 3);
    assert CarrierFrom(segments, 1) ==
           if segments == ["decisions", "mode"] then Some(DecisionsMode) else CarrierFrom(segments, 2);
  }

  /** Different keywords of the schema, told apart by length or letter. */
  lemma KeywordsDiffer()
    ensures "workflow" != "decisions" && "workflow" != "context" && "decisions" != "context"
    ensures "connections" != "profiles" && "region" != "profile" && "connections" != "models" && "profiles" != "models"
    ensures "groups" != "purposes" && "groups" != "defaults" && "purposes" != "defaults"
    ensures "model" != "effort" && "model" != "fallback" && "model" != "eligible"
    ensures "effort" != "fallback" && "effort" != "eligible" && "fallback" != "eligible"
  {
    assert "fallback"[0] != "eligible"[0] && "purposes"[0] != "defaults"[0];
  }

  /** The carrier table answers a target exactly on its own spelling. */
  lemma CarrierExact(segments: seq<string>, t: EditTarget)
    ensures CarrierCase(segments) == Some(t) <==> OnCarrier(t) && segments == Spelled(t)
  {
    KeywordsDiffer();
    if |segments| == 3 {
      assert segments == [segments[0], segments[1], segments[2]];
    }
    match t {
      case ConnectionRegion(name) => assert Spelled(t) == ["connections", name, "region"];
      case ConnectionProfile(name) => assert Spelled(t) == ["connections", name, "profile"];
      case ProfileCredentialRef(name) => assert Spelled(t) == ["profiles", name, "credential_ref"];
      case WorkflowEnabled => assert Spelled(t) == ["workflow", "enabled"];
      case DecisionsMode => assert Spelled(t) == ["decisions", "mode"];
      case ContextAutoCompact => assert Spelled(t) == ["context", "auto_compact"];
      case _ =>
    }
  }

  lemma AssignmentExact(segments: seq<string>, t: EditTarget)
    ensures AssignmentTarget(segments) == Some(t) <==> !OnCarrier(t) && segments == Spelled(t)
  {
    KeywordsDiffer();
    if |segments| == 4 {
      assert segments == [segments[0], segments[1], segments[2], segments[3]];
    }
    match t {
      case DefaultsModel => assert Spelled(t) == ["models", "defaults", "model"];
      case DefaultsEffort => assert Spelled(t) == ["models", "defaults", "effort"];
      case DefaultsFallback => assert Spelled(t) == ["models", "defaults", "fallback"];
      case GroupModel(name) => assert Spelled(t) == ["models", "groups", name, "model"];
      case PurposeModel(name) => assert Spelled(t) == ["models", "purposes", name, "model"];
      case PurposeEffort(name) => assert Spelled(t) == ["models", "purposes", name, "effort"];
      case PurposeFallback(name) => assert Spelled(t) == ["models", "purposes", name, "fallback"];
      case PurposeEligible(name) => assert Spelled(t) == ["models", "purposes", name, "eligible"];
      case _ =>
    }
  }

  /** A key edits a slot exactly when its segments are the slot's own path and
      field, none of them empty. */
  lemma TargetExact(key: string, t: EditTarget)
    ensures TargetOf(key) == Ok(t) <==> KeySegments(key) == Some(Spelled(t)) && "" !in Spelled(t)
  {
    if KeySegments(key).Some? && "" !in KeySegments(key).value {
      var segments := KeySegments(key).value;
      CarrierTable(segments);
      CarrierExact(segments, t);
      AssignmentExact(segments, t);
      if CarrierCase(segments).Some? {
        CarrierExact(segments, CarrierCase(segments).value);
        OnlyOneSpells(segments, CarrierCase(segments).value, t);
      }
    }
  }

  /** No two slots share a path. */
  lemma OnlyOneSpells(segments: seq<string>, t: EditTarget, u: EditTarget)
    ensures segments == Spelled(t) == Spelled(u) ==> t == u
  {
    if segments == Spelled(t) == Spelled(u) {
      CarrierExact(segments, t);
      CarrierExact(segments, u);
      AssignmentExact(segments, t);
      AssignmentExact(segments, u);
      CarrierOrAssignment(segments);
    }
  }

  lemma CarrierOrAssignment(segments: seq<string>)
    ensures CarrierCase(segments) == None || AssignmentTarget(segments) == None
  {
    KeywordsDiffer();
  }

  /** Every slot has a key, and every readable key is an edit target. */
  lemma SlotsAreAddressable(t: EditTarget)
    requires QuoteFree(Spelled(t)) && "" !in Spelled(t)
    ensures TargetOf(Printed(Spelled(t))) == Ok(t)
  {
    SegmentsRoundTrip(Spelled(t));
    TargetExact(Printed(Spelled(t)), t);
  }

  lemma {:induction false} CaptureNonEmpty(pattern: seq<string>, segments: seq<string>)
    requires "" !in pattern && Captures(pattern, segments).Some?
    ensures "" !in segments
  {
    if pattern != [] {
      assert pattern[0] in pattern;
      CaptureNonEmpty(pattern[1..], segments[1..]);
      assert segments == [segments[0]] + segments[1..];
    }
  }

  lemma ReadableIsEditable(key: string)
    requires IsReadable(key)
    ensures TargetOf(key).Ok?
  {
    var segments := KeySegments(key).value;
    CarrierNonEmpty(segments, 0);
  }

  lemma {:induction false} CarrierNonEmpty(segments: seq<string>, i: nat)
    requires i <= CARRIERS && CarrierFrom(segments, i).Some?
    ensures "" !in segments
    decreases CARRIERS - i
  {
    if Captures(Pattern(i), segments).Some? {
      CaptureNonEmpty(Pattern(i), segments);
    } else {
      CarrierNonEmpty(segments, i + 1);
    }
  }

  /** A key is readable exactly when it edits a slot of the carrier table. */
  lemma ReadableExact(key: string)
    ensures IsReadable(key) <==> exists t :: OnCarrier(t) && TargetOf(key) == Ok(t)
  {
    if KeySegments(key).Some? {
      var segments := KeySegments(key).value;
      if IsReadable(key) {
        CarrierNonEmpty(segments, 0);
        CarrierTable(segments);
        CarrierExact(segments, CarrierCase(segments).value);
        assert TargetOf(key) == Ok(CarrierCase(segments).value);
      }
      if t :| OnCarrier(t) && TargetOf(key) == Ok(t) {
        TargetExact(key, t);
        CarrierTable(segments);
        CarrierExact(segments, t);
      }
    }
  }

  /** A key is refused for an open quote, then for an empty segment, and else for
      spelling no slot. */
  lemma KeyRefusalExact(key: string)
    ensures TargetOf(key) == Err(UnterminatedQuote) <==> Quotes(key) % 2 == 1
    ensures TargetOf(key) == Err(EmptySegment) <==> Quotes(key) % 2 == 0 && "" in KeySegments(key).value
    ensures TargetOf(key) == Err(NotAnEditTarget) <==>
              Quotes(key) % 2 == 0 && "" !in KeySegments(key).value && forall t :: KeySegments(key).value != Spelled(t)
  {
    hide CarrierFrom, AssignmentTarget, Spelled;
    if TargetOf(key).Ok? {
      TargetExact(key, TargetOf(key).value);
    }
    forall t | KeySegments(key) == Some(Spelled(t)) && "" !in Spelled(t)
      ensures TargetOf(key) == Ok(t)
    {
      TargetExact(key, t);
    }
  }
}
