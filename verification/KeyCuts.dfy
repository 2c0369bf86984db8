/** Where a dotted config key is cut (src/config.rs): for any key, quotes anywhere. */
module KeyCuts {
  import opened KeyAddress

  function Joined(segments: seq<string>): string
    requires |segments| >= 1
  {
    if |segments| == 1 then segments[0] else segments[0] + "." + Joined(segments[1..])
  }

  /** Every dot of the text stands inside quotes. */
  predicate DotsQuoted(text: string, quoted: bool) {
    text != "" ==> (text[0] == '.' ==> quoted) && DotsQuoted(text[1..], Toggled(quoted, text[0]))
  }

  predicate EndsQuoted(text: string, quoted: bool) {
    if text == "" then quoted else EndsQuoted(text[1..], Toggled(quoted, text[0]))
  }

  /** No dot is left outside quotes, and every cut was made outside them. */
  predicate CutBetween(segments: seq<string>, quoted: bool) {
    segments != [] ==>
      && DotsQuoted(segments[0], quoted)
      && (|segments| > 1 ==> !EndsQuoted(segments[0], quoted))
      && CutBetween(segments[1..], false)
  }

  lemma {:induction false} RawJoined(key: string, quoted: bool)
    ensures Joined(RawSegments(key, quoted)) == key
  {
    if key == "" {
    } else if key[0] == '.' && !quoted {
      RawJoined(key[1..], quoted);
      var rest := RawSegments(key[1..], quoted);
      assert ([""] + rest)[1..] == rest;
    } else {
      var rest := RawSegments(key[1..], Toggled(quoted, key[0]));
      RawJoined(key[1..], Toggled(quoted, key[0]));
      JoinedPrepend(key[0], rest);
    }
  }

  lemma JoinedPrepend(c: char, rest: seq<string>)
    requires |rest| >= 1
    ensures Joined([[c] + rest[0]] + rest[1..]) == [c] + Joined(rest)
  {
    var longer := [[c] + rest[0]] + rest[1..];
    assert longer[0] == [c] + rest[0] && longer[1..] == rest[1..];
    if |rest| > 1 {
      hide Joined;
      var tail := Joined(rest[1..]);
      assert Joined(longer) == longer[0] + "." + tail && Joined(rest) == rest[0] + "." + tail by { JoinedTwo(longer); JoinedTwo(rest); }
      PrependAssociates(c, rest[0], tail);
    }
  }

  lemma JoinedTwo(segments: seq<string>)
    requires |segments| > 1
    ensures Joined(segments) == segments[0] + "." + Joined(segments[1..])
  {
  }

  lemma PrependAssociates(c: char, first: string, tail: string)
    ensures ([c] + first) + "." + tail == [c] + (first + "." + tail)
  {
  }

  lemma {:induction false} RawCut(key: string, quoted: bool)
    ensures CutBetween(RawSegments(key, quoted), quoted)
  {
    if key == "" {
    } else if key[0] == '.' && !quoted {
      RawCut(key[1..], quoted);
      var rest := RawSegments(key[1..], quoted);
      assert ([""] + rest)[1..] == rest;
    } else {
      var inner := Toggled(quoted, key[0]);
      RawCut(key[1..], inner);
      CutPrepend(key[0], RawSegments(key[1..], inner), quoted);
    }
  }

  lemma CutPrepend(c: char, rest: seq<string>, quoted: bool)
    requires |rest| >= 1 && (c == '.' ==> quoted) && CutBetween(rest, Toggled(quoted, c))
    ensures CutBetween([[c] + rest[0]] + rest[1..], quoted)
  {
    assert ([[c] + rest[0]] + rest[1..])[1..] == rest[1..];
    assert ([c] + rest[0])[1..] == rest[0];
  }

  /** The raw segments of any key spell it back, and are cut at exactly its dots
      outside quotes. */
  lemma RawSegmentsExact(key: string)
    ensures Joined(RawSegments(key, false)) == key && CutBetween(RawSegments(key, false), false)
  {
    RawJoined(key, false);
    RawCut(key, false);
  }

  /** And there is one way to cut a key so: whatever is cut between is what a key
      that spells it reads as. */
  lemma {:induction false} CutIsRead(segments: seq<string>, quoted: bool)
    requires |segments| >= 1 && CutBetween(segments, quoted)
    ensures RawSegments(Joined(segments), quoted) == segments
    decreases |segments|, |segments[0]|
  {
    if segments[0] == "" {
      if |segments| == 1 {
        assert segments == [""];
      } else {
        CutIsRead(segments[1..], false);
        var key := Joined(segments);
        assert key == "." + Joined(segments[1..]) && key[1..] == Joined(segments[1..]);
        assert segments == [""] + segments[1..];
      }
    } else {
      var c := segments[0][0];
      var rest := [segments[0][1..]] + segments[1..];
      assert rest[1..] == segments[1..];
      CutIsRead(rest, Toggled(quoted, c));
      JoinedPrepend(c, rest);
      assert segments == [[c] + rest[0]] + rest[1..] by {
        assert segments[0] == [c] + rest[0] && segments == [segments[0]] + segments[1..];
      }
      assert Joined(segments)[0] == c && Joined(segments)[1..] == Joined(rest);
    }
  }

  /** One pair of enclosing quotes is taken off, and nothing else. */
  lemma StrippedExact(segment: string, inner: string)
    ensures Stripped([QUOTE] + inner + [QUOTE]) == inner
    ensures (forall text: string :: segment != [QUOTE] + text + [QUOTE]) ==> Stripped(segment) == segment
  {
    if |segment| >= 2 && segment[0] == QUOTE && segment[|segment| - 1] == QUOTE {
      assert segment == [QUOTE] + segment[1..|segment| - 1] + [QUOTE];
    }
  }
}
