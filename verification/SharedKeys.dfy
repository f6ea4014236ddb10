/**
 * What goes wrong when two freq rules share a key: configuration allows two rules of one name, and
 * a value with a colon makes a key of the one look like a key of the other.
 */
module SharedKeys {
  import opened AlgorithmSpec
  import opened EngineRuns
  import opened EngineSpec
  import opened GoTypes
  import opened Intervals
  import opened Keys
  import opened Limiters
  import opened Patterns
  import opened Transparency
  import Lists
  import SlidingWindow

  const SECOND := 1_000_000_000

  const RESULT := ResultConfig(1, "limited", 0)

  /** One request in ten seconds for device 1 and user 2. */
  const SLOW := Rule("r", map["did" := "1", "uid" := "2"], map[], Limit(10 * SECOND, 1, 0), Leak, RESULT)

  /** Five requests a second for any device. */
  const FAST := Rule("r", map["did" := "+"], map[], Limit(SECOND, 5, 0), Leak, RESULT)

  const RULES := RuleSet([], [], [SLOW, FAST], [], [], [])

  const SLOW_REQUEST := Request("", "2", "", "1", map[])
  const FAST_REQUEST := Request("", "", "", "1:uid=2", map[])

  /** The matchers that the patterns ask for: any value but the empty one, and equality. */
  function Accepted(kind: Kind, pattern: string, value: string): bool {
    if kind.Any? then value != "" else pattern == value
  }

  lemma AlreadySorted()
    ensures SortStrings(["did"]) == ["did"] && SortStrings(["did", "uid"]) == ["did", "uid"]
  {
    assert Le("did", "uid");
    assert SortStrings(["uid"]) == ["uid"];
  }

  lemma SortedPair()
    ensures SortedFields({"did"}) == ["did"] && SortedFields({"did", "uid"}) == ["did", "uid"]
  {
    hide SortedFields, SortStrings;
    AlreadySorted();
    AnyOrderSorts(["did"]);
    AnyOrderSorts(["did", "uid"]);
    assert Elements(["did"]) == {"did"} && Elements(["did", "uid"]) == {"did", "uid"};
  }

  lemma SameParts(v: string -> string, w: string -> string)
    requires v("did") == "1" && v("uid") == "2" && w("did") == "1:uid=2"
    ensures Parts(["did", "uid"], v) == Parts(["did"], w)
  {
    assert ["did", "uid"][1..] == ["uid"] && ["uid"][1..] == [] && ["did"][1..] == [];
    assert Parts(["uid"], v) == ":uid=2";
    assert Parts(["did"], w) == ":did=" + ("1" + ":uid=2");
  }

  lemma SharedKey()
    ensures KeyFor(SLOW, SLOW_REQUEST) == KeyFor(FAST, FAST_REQUEST)
  {
    hide SortedFields, Parts;
    SortedPair();
    SameParts(SLOW_REQUEST.GetField, FAST_REQUEST.GetField);
    assert SLOW.conditions.Keys == {"did", "uid"} && FAST.conditions.Keys == {"did"};
  }

  lemma SlowSelected()
    ensures Selected(RULES, SLOW_REQUEST, Accepted) == Some(Limited(SLOW))
  {
    hide IsRangePattern, FirstMatch;
    NoRange();
    assert Matches(SLOW, SLOW_REQUEST, Accepted);
    FirstMatchAt(Choices(RULES), 0, SLOW_REQUEST, Accepted);
  }

  lemma FastSelected()
    ensures Selected(RULES, FAST_REQUEST, Accepted) == Some(Limited(FAST))
  {
    hide IsRangePattern, FirstMatch;
    NoRange();
    assert !Accepted(MatcherFor(SLOW, "did"), "1", FAST_REQUEST.GetField("did"));
    assert Matches(FAST, FAST_REQUEST, Accepted);
    FirstMatchAt(Choices(RULES), 1, FAST_REQUEST, Accepted);
  }

  lemma NoRange()
    ensures !IsRangePattern("1") && !IsRangePattern("2")
  {
  }

  /** A slow check, a fast browse five seconds later, and a slow check a second after that. */
  function Calls(): seq<Call> {
    [ Call(SLOW_REQUEST, true, false, Instant(0)),
      Call(FAST_REQUEST, false, true, Instant(5 * SECOND)),
      Call(SLOW_REQUEST, true, false, Instant(6 * SECOND)) ]
  }

  lemma Steps()
    ensures SlidingWindow.Step([], SLOW.limit, Event(true, Instant(0))) == ([0], Some(0))
    ensures SlidingWindow.Step([0], FAST.limit, Event(false, Instant(5 * SECOND))) == ([], None)
    ensures SlidingWindow.Step([], SLOW.limit, Event(true, Instant(6 * SECOND))).1.Some?
    ensures SlidingWindow.Step([0], SLOW.limit, Event(true, Instant(6 * SECOND))).1.None?
  {
    hide Clean;
    SlidingWindow.CleanKeepsOrClears([], WindowStart(0, SLOW.limit));
    SlidingWindow.CleanKeepsOrClears([0], WindowStart(5 * SECOND, FAST.limit));
    SlidingWindow.CleanKeepsOrClears([], WindowStart(6 * SECOND, SLOW.limit));
    SlidingWindow.CleanKeepsOrClears([0], WindowStart(6 * SECOND, SLOW.limit));
    assert Lists.Pushed([], [0]) == [0];
  }

  /** The browse, though it admits nothing, turns the last answer from a denial into an admission. */
  lemma BrowseIsSeen()
    ensures var calls := Calls();
            && TimedCalls(0, calls) && (forall c :: c in calls && c.extra ==> !c.check)
            && Answers(RULES, Accepted, EMPTY, calls, true) != Answers(RULES, Accepted, EMPTY, calls, false)
  {
    hide Serve, Selected, KeyFor, SlidingWindow.Step;
    var calls := Calls();
    SharedKey();
    SlowSelected();
    FastSelected();
    Steps();
    LeakCall(EMPTY, SLOW, SLOW_REQUEST, calls[0]);
    var m := Serve(Some(Limited(SLOW)), EMPTY, SLOW_REQUEST, calls[0].clk, true).0;
    LeakCall(m, FAST, FAST_REQUEST, calls[1]);
    var m' := Serve(Some(Limited(FAST)), m, FAST_REQUEST, calls[1].clk, false).0;
    LeakCall(m, SLOW, SLOW_REQUEST, calls[2]);
    LeakCall(m', SLOW, SLOW_REQUEST, calls[2]);
    assert calls[1..] == [calls[1], calls[2]] && calls[1..][1..] == [calls[2]] && calls[1..][1..][1..] == [];
    assert Answers(RULES, Accepted, EMPTY, calls, true) == [Ok(ALLOWED)] + Answers(RULES, Accepted, m, calls[1..], true);
    assert Answers(RULES, Accepted, m, calls[1..], true) == Answers(RULES, Accepted, m', [calls[2]], true);
    assert Answers(RULES, Accepted, EMPTY, calls, false) == [Ok(ALLOWED)] + Answers(RULES, Accepted, m, calls[1..], false);
    assert Answers(RULES, Accepted, m, calls[1..], false) == Answers(RULES, Accepted, m, [calls[2]], false);
    assert Answers(RULES, Accepted, m', [calls[2]], true)[0] == Ok(ALLOWED);
    assert Answers(RULES, Accepted, m, [calls[2]], false)[0] != Ok(ALLOWED);
    assert Answers(RULES, Accepted, EMPTY, calls, true)[1] != Answers(RULES, Accepted, EMPTY, calls, false)[1];
  }

  /** In the same run the slow rule admits two requests within six of its ten seconds, one more than its limit. */
  lemma SlowOverrun()
    ensures !AtMost(Admissions(RULES, Accepted, SLOW, KeyFor(SLOW, SLOW_REQUEST), EMPTY, Calls()), SLOW.limit.count, SLOW.limit.time)
  {
    hide Serve, Selected, KeyFor, SlidingWindow.Step;
    var calls, key := Calls(), KeyFor(SLOW, SLOW_REQUEST);
    SharedKey();
    SlowSelected();
    FastSelected();
    Steps();
    LeakCall(EMPTY, SLOW, SLOW_REQUEST, calls[0]);
    var m := Serve(Some(Limited(SLOW)), EMPTY, SLOW_REQUEST, calls[0].clk, true).0;
    LeakCall(m, FAST, FAST_REQUEST, calls[1]);
    var m' := Serve(Some(Limited(FAST)), m, FAST_REQUEST, calls[1].clk, false).0;
    LeakCall(m', SLOW, SLOW_REQUEST, calls[2]);
    assert calls[1..] == [calls[1], calls[2]] && calls[1..][1..] == [calls[2]] && calls[1..][1..][1..] == [];
    var ts := Admissions(RULES, Accepted, SLOW, key, EMPTY, calls);
    assert ts == [0] + Admissions(RULES, Accepted, SLOW, key, m, calls[1..]);
    assert Admissions(RULES, Accepted, SLOW, key, m, calls[1..]) == Admissions(RULES, Accepted, SLOW, key, m', [calls[2]]);
    assert ts == [0, 6 * SECOND];
    CountInBlock(ts, 0, 1, 0, SLOW.limit.time);
    assert CountIn(ts, 0, SLOW.limit.time) > SLOW.limit.count;
  }
}
