/** Splitting a topic string at its slashes. */
module TopicNames {
  import opened Bytes
  import opened Wrappers

  const SLASH: byte := 47
  const PLUS: byte := 43
  const HASH: byte := 35

  /** One level of a topic or filter, a C string. */
  datatype Segment = Segment(text: seq<byte>)

  const EMPTY := Segment([])

  // ---------- the reference: levels separated by slashes, empty ones included ----------

  function Levels(topic: seq<byte>): (levels: seq<Segment>)
    ensures |levels| >= 1
  {
    if topic == [] then [EMPTY]
    else
      var rest := Levels(topic[1..]);
      if topic[0] == SLASH then [EMPTY] + rest else [Segment([topic[0]] + rest[0].text)] + rest[1..]
  }

  function Join(levels: seq<Segment>): seq<byte>
    requires |levels| >= 1
  {
    if |levels| == 1 then levels[0].text else levels[0].text + [SLASH] + Join(levels[1..])
  }

  ghost predicate SlashFree(levels: seq<Segment>) {
    forall i :: 0 <= i < |levels| ==> SLASH !in levels[i].text
  }

  /** Joining the levels gives the topic back. */
  lemma {:induction false} JoinOfLevels(topic: seq<byte>)
    ensures SlashFree(Levels(topic)) && Join(Levels(topic)) == topic
  {
    if topic != [] {
      JoinOfLevels(topic[1..]);
      var rest := Levels(topic[1..]);
      if topic[0] == SLASH {
        assert ([EMPTY] + rest)[1..] == rest;
      } else {
        assert ([Segment([topic[0]] + rest[0].text)] + rest[1..])[1..] == rest[1..];
      }
    }
  }

  /** Text up to a slash is the first level of a longer topic. */
  lemma {:induction false} LevelsOfPrefixed(head: seq<byte>, tail: seq<byte>)
    requires SLASH !in head
    ensures Levels(head + [SLASH] + tail) == [Segment(head)] + Levels(tail)
    ensures Levels(head) == [Segment(head)]
  {
    var all := head + [SLASH] + tail;
    if head == [] {
      assert all[1..] == tail;
    } else {
      LevelsOfPrefixed(head[1..], tail);
      assert all[1..] == head[1..] + [SLASH] + tail;
      assert [head[0]] + head[1..] == head;
      assert ([Segment(head[1..])] + Levels(tail))[1..] == Levels(tail);
    }
  }

  /** Splitting the joined levels gives them back, so no two level lists spell the same topic. */
  lemma {:induction false} LevelsOfJoin(levels: seq<Segment>)
    requires |levels| >= 1 && SlashFree(levels)
    ensures Levels(Join(levels)) == levels
  {
    if |levels| == 1 {
      LevelsOfPrefixed(levels[0].text, []);
    } else {
      LevelsOfJoin(levels[1..]);
      LevelsOfPrefixed(levels[0].text, Join(levels[1..]));
    }
  }

  // ---------- what strtok keeps: the levels that are not empty ----------

  function NonEmpty(levels: seq<Segment>): seq<Segment> {
    if levels == [] then []
    else if levels[0] == EMPTY then NonEmpty(levels[1..])
    else [levels[0]] + NonEmpty(levels[1..])
  }

  function Tokens(topic: seq<byte>): seq<Segment> {
    NonEmpty(Levels(topic))
  }

  predicate NoEmptyLevel(topic: seq<byte>) {
    EMPTY !in Levels(topic)
  }

  lemma {:induction false} NonEmptyLength(levels: seq<Segment>)
    ensures |NonEmpty(levels)| <= |levels|
    ensures |NonEmpty(levels)| == |levels| <==> EMPTY !in levels
    ensures EMPTY !in levels ==> NonEmpty(levels) == levels
  {
    if levels != [] {
      NonEmptyLength(levels[1..]);
      assert levels == [levels[0]] + levels[1..];
    }
  }

  /** The token count never exceeds the slash-derived count, reaches it exactly when no level is
      empty, and then the tokens joined with slashes are the topic. */
  lemma TokensFillLevels(topic: seq<byte>)
    ensures |Tokens(topic)| <= |Levels(topic)|
    ensures |Tokens(topic)| == |Levels(topic)| <==> NoEmptyLevel(topic)
    ensures NoEmptyLevel(topic) ==> Tokens(topic) == Levels(topic) && Join(Tokens(topic)) == topic
  {
    NonEmptyLength(Levels(topic));
    JoinOfLevels(topic);
  }

  // ---------- the code ----------

  lemma TokensAfterSlash(tail: seq<byte>)
    ensures Tokens([SLASH] + tail) == Tokens(tail)
  {
    LevelsOfPrefixed([], tail);
    assert [SLASH] + tail == [] + [SLASH] + tail;
    assert ([EMPTY] + Levels(tail))[1..] == Levels(tail);
  }

  lemma TokensOfNothing()
    ensures Tokens([]) == []
  {
  }

  lemma TokensAfterWord(head: seq<byte>, tail: seq<byte>)
    requires SLASH !in head && head != []
    ensures Tokens(head + [SLASH] + tail) == [Segment(head)] + Tokens(tail)
    ensures Tokens(head) == [Segment(head)]
  {
    LevelsOfPrefixed(head, tail);
    assert ([Segment(head)] + Levels(tail))[1..] == Levels(tail);
    assert [Segment(head)] + [] == [Segment(head)];
    assert NonEmpty([Segment(head)]) == [Segment(head)] + NonEmpty([Segment(head)][1..]);
  }

  /** The advertised filter "/sensor/#": a leading slash makes three slots for two tokens, so one stays null. */
  lemma LeadingSlashLeavesSlotEmpty(word: seq<byte>)
    requires SLASH !in word && word != []
    ensures var filter := [SLASH] + word + [SLASH, HASH];
            && |Levels(filter)| == 3 && Tokens(filter) == [Segment(word), Segment([HASH])]
            && !NoEmptyLevel(filter)
  {
    var filter, tail := [SLASH] + word + [SLASH, HASH], word + [SLASH] + [HASH];
    assert filter == [] + [SLASH] + tail && filter == [SLASH] + tail;
    LevelsOfPrefixed([], tail);
    LevelsOfPrefixed(word, [HASH]);
    LevelsOfPrefixed([HASH], []);
    TokensAfterSlash(tail);
    TokensAfterWord(word, [HASH]);
    TokensAfterWord([HASH], []);
  }

  /** `strtok(…, "/")` resumed at `from`: skips slashes, then cuts at the next one. */
  method NextToken(text: seq<byte>, from: nat) returns (token: Option<Segment>, next: nat)
    requires from <= |text|
    ensures from <= next <= |text|
    ensures token.None? ==> Tokens(text[from..]) == []
    ensures token.Some? ==> from < next && Tokens(text[from..]) == [token.value] + Tokens(text[next..])
  {
    hide Tokens;
    TokensOfNothing();
    var start := from;
    while start < |text| && text[start] == SLASH
      invariant from <= start <= |text|
      invariant Tokens(text[start..]) == Tokens(text[from..])
    {
      TokensAfterSlash(text[start + 1..]);
      assert [SLASH] + text[start + 1..] == text[start..];
      start := start + 1;
    }
    if start == |text| {
      return None, start;
    }
    var end := start;
    while end < |text| && text[end] != SLASH
      invariant start <= end <= |text|
      invariant SLASH !in text[start..end]
      invariant end == start ==> text[start] != SLASH
    {
      end := end + 1;
    }
    token := Some(Segment(text[start..end]));
    if end == |text| {
      next := end;
      TokensAfterWord(text[start..end], []);
      assert text[start..end] == text[start..] && text[next..] == [];
    } else {
      next := end + 1;
      TokensAfterWord(text[start..end], text[next..]);
      assert text[start..] == text[start..end] + [SLASH] + text[next..];
    }
  }

  lemma LevelsOfNothing()
    ensures |Levels([])| == 1
  {
  }

  lemma {:induction false} LevelsCountSlashes(topic: seq<byte>, last: byte)
    ensures |Levels(topic + [last])| == |Levels(topic)| + (if last == SLASH then 1 else 0)
  {
    if topic == [] {
      assert Levels([last][1..]) == [EMPTY];
    } else {
      assert (topic + [last])[1..] == topic[1..] + [last];
      LevelsCountSlashes(topic[1..], last);
    }
  }

  /** The first loop of `split_topic`. */
  method CountLevels(topic: seq<byte>) returns (count: nat)
    ensures count == |Levels(topic)|
  {
    hide Levels;
    LevelsOfNothing();
    count := 0;
    for p := 0 to |topic|
      invariant count + 1 == |Levels(topic[..p])|
    {
      LevelsCountSlashes(topic[..p], topic[p]);
      assert topic[..p] + [topic[p]] == topic[..p + 1];
      if topic[p] == SLASH {
        count := count + 1;
      }
    }
    assert topic[..|topic|] == topic;
    count := count + 1;
  }

  lemma NextSlot(tokens: seq<Segment>, i: nat, token: Segment, rest: seq<Segment>)
    requires i <= |tokens| && tokens[i..] == [token] + rest
    ensures i < |tokens| && tokens[i] == token && tokens[i + 1..] == rest
  {
    assert tokens[i..][0] == token && tokens[i..][1..] == rest;
  }

  /** The second loop: every store is inside the array, which was sized from the slashes alone. */
  method FillSlots(topic: seq<byte>, segments: array<Option<Segment>>)
    requires |Tokens(topic)| <= segments.Length && forall i :: 0 <= i < segments.Length ==> segments[i] == None
    modifies segments
    ensures forall i :: 0 <= i < segments.Length ==>
              segments[i] == if i < |Tokens(topic)| then Some(Tokens(topic)[i]) else None
  {
    hide Tokens;
    ghost var tokens := Tokens(topic);
    assert topic[0..] == topic;
    var token, next := NextToken(topic, 0);
    var i := 0;
    while token.Some?
      invariant next <= |topic| && i <= |tokens|
      invariant tokens[i..] == (if token.Some? then [token.value] + Tokens(topic[next..]) else [])
      invariant forall j :: 0 <= j < segments.Length ==> segments[j] == if j < i then Some(tokens[j]) else None
      decreases token.Some?, |topic| - next
    {
      NextSlot(tokens, i, token.value, Tokens(topic[next..]));
      segments[i] := token;
      i := i + 1;
      token, next := NextToken(topic, next);
    }
    assert |tokens[i..]| == 0;
  }

  /** The slots hold the tokens in order; a slot no token reached stays null. */
  method SplitTopic(topic: seq<byte>) returns (segments: array<Option<Segment>>, count: nat)
    ensures fresh(segments)
    ensures count == segments.Length == |Levels(topic)|
    ensures |Tokens(topic)| <= count
    ensures forall i :: 0 <= i < count ==>
              segments[i] == if i < |Tokens(topic)| then Some(Tokens(topic)[i]) else None
  {
    hide Tokens, Levels;
    count := CountLevels(topic);
    segments := new Option<Segment>[count](_ => None);
    TokensFillLevels(topic);
    FillSlots(topic, segments);
  }
}
