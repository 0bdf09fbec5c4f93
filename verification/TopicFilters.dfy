/** When a subscription filter selects a topic, as a statement about positions. */
module TopicFilters {
  import opened TopicNames

  type Filter = seq<Segment>

  const ANY_LEVEL := Segment([PLUS])
  const ALL_LEVELS := Segment([HASH])

  predicate SegmentMatches(pattern: Segment, level: Segment) {
    pattern == level || pattern == ANY_LEVEL || pattern == ALL_LEVELS
  }

  predicate EndsInHash(filter: Filter) {
    |filter| > 0 && filter[|filter| - 1] == ALL_LEVELS
  }

  /** The filter is no longer than the topic, fits it level by level ("#" inside a filter takes one
      level, like "+"), and either covers the whole topic or ends in "#". */
  predicate Matches(filter: Filter, topic: seq<Segment>) {
    && 1 <= |filter| <= |topic|
    && (forall i :: 0 <= i < |filter| ==> SegmentMatches(filter[i], topic[i]))
    && (|filter| == |topic| || EndsInHash(filter))
  }

  /** Wildcard matching as sections 4.7.1.2 and 4.7.1.3 of MQTT 3.1.1 define it: "+" takes exactly one
      level, a closing "#" the parent and any number of levels below it. */
  predicate StandardMatches(filter: Filter, topic: seq<Segment>)
    decreases |filter|
  {
    if filter == [] then topic == []
    else if filter == [ALL_LEVELS] then true
    else (
      && topic != []
      && (filter[0] == ANY_LEVEL || filter[0] == topic[0])
      && StandardMatches(filter[1..], topic[1..]))
  }

  ghost predicate HashOnlyLast(filter: Filter) {
    forall i :: 0 <= i < |filter| - 1 ==> filter[i] != ALL_LEVELS
  }

  /** Without a restriction on the lengths, for the induction. */
  ghost predicate Fits(filter: Filter, topic: seq<Segment>) {
    && |filter| <= |topic|
    && (forall i :: 0 <= i < |filter| ==> SegmentMatches(filter[i], topic[i]))
    && (|filter| == |topic| || EndsInHash(filter))
  }

  lemma {:induction false} StandardByPosition(filter: Filter, topic: seq<Segment>)
    requires HashOnlyLast(filter)
    ensures StandardMatches(filter, topic)
       <==> Fits(filter, topic) ||
            (EndsInHash(filter) && |filter| == |topic| + 1 &&
             forall i :: 0 <= i < |topic| ==> SegmentMatches(filter[i], topic[i]))
  {
    if filter != [] && filter != [ALL_LEVELS] && topic != [] {
      var f, t := filter[1..], topic[1..];
      assert filter[0] != ALL_LEVELS;
      StandardByPosition(f, t);
      assert f != [] ==> (EndsInHash(f) <==> EndsInHash(filter));
      assert forall i :: 0 <= i < |f| ==> f[i] == filter[i + 1];
      assert forall i :: 0 <= i < |t| ==> t[i] == topic[i + 1];
      assert (forall i :: 0 <= i < |filter| && i < |topic| ==> SegmentMatches(filter[i], topic[i]))
        <==> (SegmentMatches(filter[0], topic[0])
             && (forall i :: 0 <= i < |f| && i < |t| ==> SegmentMatches(f[i], t[i]))) by {
        forall i | 0 < i < |filter| && i < |topic|
          ensures filter[i] == f[i - 1] && topic[i] == t[i - 1] {}
      }
    }
  }

  /** For filters that use "#" only in last place the code's matching is the standard's, except that
      "a/#" does not select its parent "a": the two disagree exactly when the filter is one level longer
      than the topic and the standard accepts it. */
  lemma AgreesWithStandard(filter: Filter, topic: seq<Segment>)
    requires |filter| >= 1 && |topic| >= 1 && HashOnlyLast(filter)
    ensures Matches(filter, topic) <==> StandardMatches(filter, topic) && |filter| <= |topic|
    ensures StandardMatches(filter, topic) && !Matches(filter, topic)
         ==> |filter| == |topic| + 1 && EndsInHash(filter)
  {
    StandardByPosition(filter, topic);
  }

  /** The standard's own example of the disagreement: "sport/#" and the topic "sport". */
  lemma ParentLevelDiffers(level: Segment)
    requires level !in {ANY_LEVEL, ALL_LEVELS}
    ensures var filter := [level, ALL_LEVELS];
            HashOnlyLast(filter) && StandardMatches(filter, [level]) && !Matches(filter, [level])
  {
    assert [level, ALL_LEVELS][1..] == [ALL_LEVELS];
  }

  /** A "#" that is not last takes exactly one level, so "a/#/b" selects "a/x/b" but not "a/x/y/b". */
  lemma InnerHashTakesOneLevel(before: Filter, after: Filter, topic: seq<Segment>)
    requires after != []
    ensures Matches(before + [ALL_LEVELS] + after, topic) <==> Matches(before + [ANY_LEVEL] + after, topic)
  {
    var f, g := before + [ALL_LEVELS] + after, before + [ANY_LEVEL] + after;
    assert forall i :: 0 <= i < |f| && i != |before| ==> f[i] == g[i];
    assert f[|before|] == ALL_LEVELS && g[|before|] == ANY_LEVEL;
  }
}
