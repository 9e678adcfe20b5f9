/** The median network height. */
module NetworkHeight {
  import opened Options
  import opened Admission
  import opened PeerProtocol

  /** Unknown heights and heights of zero are both falsy and are left out. */
  function Reported(heights: seq<Option<int>>): seq<int> {
    if heights == [] then []
    else (match heights[0] case Some(h) => (if h != 0 then [h] else []) case None => [])
         + Reported(heights[1..])
  }

  function Insert(x: int, s: seq<int>): seq<int> {
    if s == [] || x <= s[0] then [x] + s else [s[0]] + Insert(x, s[1..])
  }

  function Sort(s: seq<int>): (r: seq<int>)
    ensures |r| == |s|
  {
    if s == [] then [] else
    InsertSize(s[0], Sort(s[1..]));
    Insert(s[0], Sort(s[1..]))
  }

  lemma {:induction false} InsertSize(x: int, s: seq<int>)
    ensures |Insert(x, s)| == |s| + 1
  {
    if s != [] && x > s[0] { InsertSize(x, s[1..]); }
  }

  function Median(s: seq<int>): int {
    if s == [] then 0 else Sort(s)[|s| / 2]
  }

  function NetworkHeight(heights: seq<Option<int>>): int {
    Median(Reported(heights))
  }

  /** The reports of peers with these states; None: reading the height of a missing state throws. */
  function ReportedBy(states: seq<Option<Status>>): Option<seq<int>> {
    if states == [] then Some([])
    else if states[0].None? then None
    else
      var rest := ReportedBy(states[1..]);
      if rest.None? then None else Some(Reported([states[0].value.height]) + rest.value)
  }

  function GetNetworkHeight(states: seq<Option<Status>>): Option<int> {
    var reported := ReportedBy(states);
    if reported.None? then None else Some(Median(reported.value))
  }

  // ----- When there is a height -----

  ghost predicate AllHaveState(states: seq<Option<Status>>) {
    forall i | 0 <= i < |states| :: states[i].Some?
  }

  ghost function Heights(states: seq<Option<Status>>): seq<Option<int>>
    requires AllHaveState(states)
  {
    seq(|states|, i requires 0 <= i < |states| => states[i].value.height)
  }

  lemma {:induction false} ReportedByAll(states: seq<Option<Status>>)
    ensures ReportedBy(states).Some? <==> AllHaveState(states)
    ensures AllHaveState(states) ==> ReportedBy(states) == Some(Reported(Heights(states)))
  {
    if states != [] {
      ReportedByAll(states[1..]);
      assert states == [states[0]] + states[1..];
      if AllHaveState(states) {
        ReportedConcat([states[0].value.height], Heights(states[1..]));
        assert Heights(states) == [states[0].value.height] + Heights(states[1..]);
      }
    }
  }

  /** The reports are the heights that are known and not zero, each as often as it occurs. */
  lemma {:induction false} ReportedHeights(heights: seq<Option<int>>, h: int)
    ensures 0 !in Reported(heights)
    ensures h != 0 ==> multiset(Reported(heights))[h] == multiset(heights)[Some(h)]
  {
    if heights != [] {
      var first, rest := heights[0], heights[1..];
      ReportedHeights(rest, h);
      ReportedOne(first);
      ReportedConcat([first], rest);
      assert heights == [first] + rest;
      assert multiset(heights) == multiset{first} + multiset(rest);
    }
  }

  /** How many states have a known height that is not zero and is below `x`. */
  ghost function HeightsBelow(states: seq<Option<Status>>, x: int): nat {
    if states == [] then 0
    else
      (match states[0] case Some(Status(Some(h))) => if h != 0 && h < x then 1 else 0 case _ => 0)
      + HeightsBelow(states[1..], x)
  }

  /** How many states have a known height that is not zero. */
  ghost function HeightsKnown(states: seq<Option<Status>>): nat {
    if states == [] then 0
    else
      (match states[0] case Some(Status(Some(h))) => if h != 0 then 1 else 0 case _ => 0)
      + HeightsKnown(states[1..])
  }

  lemma ReportedOne(height: Option<int>)
    ensures Reported([height]) == if height.Some? && height.value != 0 then [height.value] else []
  {
    var one := match height case Some(h) => (if h != 0 then [h] else []) case None => [];
    assert [height][1..] == [];
    assert Reported([height]) == one + Reported([height][1..]);
  }

  lemma {:induction false} CountsOfReports(states: seq<Option<Status>>, x: int)
    requires ReportedBy(states).Some?
    ensures var s := ReportedBy(states).value;
      Below(s, x) == HeightsBelow(states, x) && |s| == HeightsKnown(states) && 0 !in s
    ensures forall r | r in ReportedBy(states).value :: Some(Status(Some(r))) in states
  {
    if states != [] {
      CountsOfReports(states[1..], x);
      var height := states[0].value.height;
      var first := Reported([height]);
      ReportedOne(height);
      if height.Some? && height.value != 0 {
        assert first[1..] == [];
        assert states[0] == Some(Status(Some(height.value)));
      }
      BelowConcat(first, ReportedBy(states[1..]).value, x);
      assert states == [states[0]] + states[1..];
    }
  }

  /** The height in terms of the states alone: zero if no state has a known height other than zero,
      and otherwise one of these heights, with at most half of them below it and more than half
      of them not above it. */
  lemma HeightOfStates(states: seq<Option<Status>>)
    requires forall i | 0 <= i < |states| :: states[i].Some?
    ensures
      var n, r := HeightsKnown(states), GetNetworkHeight(states);
      && (n == 0 ==> r == Some(0))
      && (n > 0 ==>
            && r.Some? && r.value != 0 && Some(Status(r)) in states
            && HeightsBelow(states, r.value) <= n / 2 < HeightsBelow(states, r.value + 1))
  {
    ReportedByAll(states);
    var s := ReportedBy(states).value;
    CountsOfReports(states, Median(s));
    CountsOfReports(states, Median(s) + 1);
    if s != [] { MedianIsInTheMiddle(s); }
  }

  /** The states of the accepted peers, in the order of this list of their ips. */
  ghost function StatesOf(w: World, ips: seq<Ip>): seq<Option<Status>>
    requires forall ip | ip in ips :: ip in w.net.accepted && w.net.accepted[ip] in w.peers
  {
    seq(|ips|, i requires 0 <= i < |ips| => w.peers[w.net.accepted[ips[i]]].status)
  }

  /** The reply that was delivered last to this peer object had no state. */
  ghost predicate LastReplyHadNoState(c: Config, es: seq<Event>, id: nat) {
    exists k: nat :: LastDelivered(c, es, k, id) && es[k].reply.status.None?
  }

  /** After every run, asking for the network height throws exactly if the reply that was
      delivered last to some accepted peer had no state. Otherwise the height is the median of
      what the accepted peers report. */
  lemma HeightThrowsExactlyWithoutState(c: Config, es: seq<Event>, ips: seq<Ip>)
    requires forall ip :: ip in ips <==> ip in After(c, es).net.accepted
    ensures
      var w := After(c, es);
      && (forall ip | ip in ips :: ip in w.net.accepted && w.net.accepted[ip] in w.peers)
      && (GetNetworkHeight(StatesOf(w, ips)).None? <==>
            (exists ip :: ip in w.net.accepted && LastReplyHadNoState(c, es, w.net.accepted[ip])))
      && (AllHaveState(StatesOf(w, ips)) ==>
            GetNetworkHeight(StatesOf(w, ips)) == Some(NetworkHeight(Heights(StatesOf(w, ips)))))
  {
    var w := After(c, es);
    forall ip | ip in ips
      ensures ip in w.net.accepted && w.net.accepted[ip] in w.peers
      ensures w.peers[w.net.accepted[ip]].status.None? <==> LastReplyHadNoState(c, es, w.net.accepted[ip])
    {
      AcceptedPeersHaveAnswered(c, es, ip);
      var k: nat :| LastDelivered(c, es, k, w.net.accepted[ip]);
      assert w.peers[w.net.accepted[ip]].status == es[k].reply.status;
    }
    var states := StatesOf(w, ips);
    ReportedByAll(states);
    if !AllHaveState(states) {
      var i :| 0 <= i < |states| && states[i].None?;
      assert LastReplyHadNoState(c, es, w.net.accepted[ips[i]]);
    }
    if ip :| ip in w.net.accepted && LastReplyHadNoState(c, es, w.net.accepted[ip]) {
      var i :| 0 <= i < |ips| && ips[i] == ip;
      assert states[i].None?;
    }
  }

  // ----- How many elements are below, or at most, a value -----

  function Below(s: seq<int>, x: int): nat {
    if s == [] then 0 else (if s[0] < x then 1 else 0) + Below(s[1..], x)
  }

  function AtMost(s: seq<int>, x: int): nat {
    Below(s, x + 1)
  }

  lemma {:induction false} BelowConcat(s: seq<int>, t: seq<int>, x: int)
    ensures Below(s + t, x) == Below(s, x) + Below(t, x)
  {
    if s == [] {
      assert s + t == t;
    } else {
      assert (s + t)[1..] == s[1..] + t;
      BelowConcat(s[1..], t, x);
    }
  }

  lemma MultisetWithout<T>(t: seq<T>, j: nat)
    requires j < |t|
    ensures t == t[..j] + ([t[j]] + t[j + 1..])
    ensures multiset(t[..j] + t[j + 1..]) == multiset(t) - multiset{t[j]}
  {
    assert t == t[..j] + ([t[j]] + t[j + 1..]);
    assert multiset(t) == multiset(t[..j]) + (multiset{t[j]} + multiset(t[j + 1..]));
  }

  /** The rest of one list without its head, and of a rearrangement of it without that element. */
  lemma RemoveHead<T>(s: seq<T>, t: seq<T>) returns (j: nat)
    requires s != [] && multiset(s) == multiset(t)
    ensures j < |t| && t[j] == s[0] && t == t[..j] + ([t[j]] + t[j + 1..])
    ensures multiset(s[1..]) == multiset(t[..j] + t[j + 1..])
  {
    assert s[0] in multiset(t);
    j :| 0 <= j < |t| && t[j] == s[0];
    MultisetWithout(t, j);
    assert multiset(s[1..]) == multiset(s) - multiset{s[0]} by {
      MultisetWithout(s, 0);
      assert s[..0] + s[1..] == s[1..];
    }
  }

  lemma {:induction false} BelowOfSame(s: seq<int>, t: seq<int>, x: int)
    requires multiset(s) == multiset(t)
    ensures |s| == |t| && Below(s, x) == Below(t, x)
  {
    if s == [] {
      assert |multiset(t)| == |multiset(s)| == 0;
    } else {
      var j := RemoveHead(s, t);
      BelowOfSame(s[1..], t[..j] + t[j + 1..], x);
      BelowConcat(t[..j], [t[j]] + t[j + 1..], x);
      BelowConcat([t[j]], t[j + 1..], x);
      BelowConcat(t[..j], t[j + 1..], x);
    }
  }

  lemma {:induction false} BelowBounds(s: seq<int>, x: int)
    ensures Below(s, x) <= |s|
    ensures (forall i | 0 <= i < |s| :: s[i] < x) ==> Below(s, x) == |s|
    ensures (forall i | 0 <= i < |s| :: s[i] >= x) ==> Below(s, x) == 0
  {
    if s != [] { BelowBounds(s[1..], x); }
  }

  lemma {:induction false} BelowMonotone(s: seq<int>, x: int, y: int)
    requires x <= y
    ensures Below(s, x) <= Below(s, y)
  {
    if s != [] { BelowMonotone(s[1..], x, y); }
  }

  ghost predicate Ascending(s: seq<int>) {
    forall i, j | 0 <= i < j < |s| :: s[i] <= s[j]
  }

  lemma {:induction false} InsertAdds(x: int, s: seq<int>)
    ensures multiset(Insert(x, s)) == multiset(s) + multiset{x}
  {
    if s != [] && x > s[0] {
      InsertAdds(x, s[1..]);
      assert s == [s[0]] + s[1..];
    }
  }

  ghost predicate AllAtLeast(s: seq<int>, low: int) {
    forall i | 0 <= i < |s| :: low <= s[i]
  }

  lemma {:induction false} InsertAbove(x: int, s: seq<int>, low: int)
    requires low <= x && AllAtLeast(s, low)
    ensures AllAtLeast(Insert(x, s), low)
  {
    if s != [] && x > s[0] { InsertAbove(x, s[1..], low); }
  }

  lemma {:induction false} InsertKeepsOrder(x: int, s: seq<int>)
    requires Ascending(s)
    ensures Ascending(Insert(x, s))
  {
    if s != [] && x > s[0] {
      InsertKeepsOrder(x, s[1..]);
      InsertAbove(x, s[1..], s[0]);
    }
  }

  /** The sorted list is an ascending rearrangement of the original. */
  lemma {:induction false} SortSorts(s: seq<int>)
    ensures Ascending(Sort(s)) && multiset(Sort(s)) == multiset(s)
  {
    if s != [] {
      SortSorts(s[1..]);
      InsertKeepsOrder(s[0], Sort(s[1..]));
      InsertAdds(s[0], Sort(s[1..]));
      assert s == [s[0]] + s[1..];
    }
  }

  lemma {:induction false} BelowAtCut(t: seq<int>, k: nat, x: int)
    requires k <= |t|
    ensures (forall i | k <= i < |t| :: t[i] >= x) ==> Below(t, x) <= k
    ensures (forall i | 0 <= i < k :: t[i] < x) ==> Below(t, x) >= k
  {
    assert t == t[..k] + t[k..];
    BelowConcat(t[..k], t[k..], x);
    BelowBounds(t[..k], x);
    BelowBounds(t[k..], x);
  }

  lemma PositionInSorted(t: seq<int>, k: nat)
    requires Ascending(t) && k < |t|
    ensures Below(t, t[k]) <= k < Below(t, t[k] + 1)
  {
    BelowAtCut(t, k, t[k]);
    BelowAtCut(t, k + 1, t[k] + 1);
  }

  lemma MedianIsReported(s: seq<int>)
    requires s != []
    ensures Median(s) in s
  {
    SortSorts(s);
    assert Sort(s)[|s| / 2] in multiset(Sort(s));
  }

  lemma MedianIsBetween(s: seq<int>)
    requires s != []
    ensures Below(s, Median(s)) <= |s| / 2 < AtMost(s, Median(s))
  {
    var t, k := Sort(s), |s| / 2;
    SortSorts(s);
    BelowOfSame(s, t, t[k]);
    BelowOfSame(s, t, t[k] + 1);
    PositionInSorted(t, k);
  }

  /** The result is one of the reported heights, and the middle position lies between the number
      of heights below it and the number of heights not above it. */
  lemma MedianIsInTheMiddle(s: seq<int>)
    requires s != []
    ensures Median(s) in s && Below(s, Median(s)) <= |s| / 2 < AtMost(s, Median(s))
  {
    MedianIsReported(s);
    MedianIsBetween(s);
  }

  lemma OnlyOneMiddle(s: seq<int>, x: int, y: int)
    requires Below(s, x) <= |s| / 2 < Below(s, x + 1)
    requires Below(s, y) <= |s| / 2 < Below(s, y + 1)
    ensures x == y
  {
    if x < y {
      BelowMonotone(s, x + 1, y);
    } else if y < x {
      BelowMonotone(s, y + 1, x);
    }
  }

  /** Being in the middle determines the value. */
  lemma MiddleIsUnique(s: seq<int>, x: int)
    requires s != [] && Below(s, x) <= |s| / 2 < AtMost(s, x)
    ensures Median(s) == x
  {
    MedianIsInTheMiddle(s);
    OnlyOneMiddle(s, Median(s), x);
  }

  /** At least half of the reports are at or below the result and at least half at or above it. */
  lemma HalfOnEitherSide(heights: seq<Option<int>>)
    requires Reported(heights) != []
    ensures
      var s, r := Reported(heights), NetworkHeight(heights);
      r in s && 2 * AtMost(s, r) >= |s| && 2 * (|s| - Below(s, r)) >= |s|
  {
    MedianIsInTheMiddle(Reported(heights));
  }

  /** The order of the peers is irrelevant. */
  lemma OrderIsIrrelevant(s: seq<int>, t: seq<int>)
    requires multiset(s) == multiset(t)
    ensures Median(s) == Median(t)
  {
    BelowOfSame(s, t, 0);
    if s != [] {
      MedianIsInTheMiddle(t);
      BelowOfSame(s, t, Median(t));
      BelowOfSame(s, t, Median(t) + 1);
      MiddleIsUnique(s, Median(t));
    }
  }

  /** Reordering the peers reorders the reports. */
  lemma {:induction false} PeerOrderIsIrrelevant(heights: seq<Option<int>>, others: seq<Option<int>>)
    requires multiset(heights) == multiset(others)
    ensures NetworkHeight(heights) == NetworkHeight(others)
  {
    ReportedOfSame(heights, others);
    OrderIsIrrelevant(Reported(heights), Reported(others));
  }

  lemma {:induction false} ReportedConcat(a: seq<Option<int>>, b: seq<Option<int>>)
    ensures Reported(a + b) == Reported(a) + Reported(b)
  {
    if a == [] {
      assert a + b == b;
    } else {
      assert (a + b)[1..] == a[1..] + b;
      ReportedConcat(a[1..], b);
    }
  }

  lemma {:induction false} ReportedOfSame(a: seq<Option<int>>, b: seq<Option<int>>)
    requires multiset(a) == multiset(b)
    ensures multiset(Reported(a)) == multiset(Reported(b))
  {
    if a == [] {
      assert |multiset(b)| == |multiset(a)| == 0;
    } else {
      var j := RemoveHead(a, b);
      assert a == [a[0]] + a[1..];
      ReportedOfSame(a[1..], b[..j] + b[j + 1..]);
      ReportedConcat(b[..j], [b[j]] + b[j + 1..]);
      ReportedConcat([b[j]], b[j + 1..]);
      ReportedConcat(b[..j], b[j + 1..]);
      ReportedConcat([a[0]], a[1..]);
    }
  }

  // ----- Robustness -----

  ghost predicate WithinRange(x: int, good: seq<int>) {
    && (exists i :: 0 <= i < |good| && good[i] <= x)
    && (exists j :: 0 <= j < |good| && x <= good[j])
  }

  /** If fewer than half of the reports are arbitrary, the result stays within the others. */
  lemma MinorityCannotMoveTheMedian(good: seq<int>, bad: seq<int>)
    requires |bad| < |good|
    ensures WithinRange(Median(good + bad), good)
  {
    var s, r := good + bad, Median(good + bad);
    MedianIsInTheMiddle(s);
    BelowConcat(good, bad, r);
    BelowConcat(good, bad, r + 1);
    BelowBounds(good, r);
    BelowBounds(good, r + 1);
    BelowBounds(bad, r);
    BelowBounds(bad, r + 1);
  }

  /** Half of the reports are enough to put the result anywhere above the others. */
  lemma HalfMovesTheMedian(good: seq<int>, count: nat, target: int)
    requires |good| <= count && count > 0
    requires forall i | 0 <= i < |good| :: good[i] < target
    ensures Median(good + seq(count, i => target)) == target
  {
    var bad := seq(count, i => target);
    BelowConcat(good, bad, target);
    BelowConcat(good, bad, target + 1);
    BelowBounds(good, target);
    BelowBounds(good, target + 1);
    BelowBounds(bad, target);
    BelowBounds(bad, target + 1);
    MiddleIsUnique(good + bad, target);
  }

  ghost predicate Robust(good: seq<int>, bad: seq<int>) {
    WithinRange(Median(good + bad), good)
  }

  /** The breaking point, exactly: `b` arbitrary reports among `g` others can be withstood if and
      only if they are fewer. */
  lemma RobustExactlyBelowHalf(g: nat, b: nat)
    requires g >= 1
    ensures (forall good, bad | |good| == g && |bad| == b :: Robust(good, bad)) <==> b < g
  {
    if b < g {
      forall good, bad | |good| == g && |bad| == b ensures Robust(good, bad) {
        MinorityCannotMoveTheMedian(good, bad);
      }
    } else {
      var good := seq(g, i => 1);
      HalfMovesTheMedian(good, b, 2);
      assert !Robust(good, seq(b, i => 2));
    }
  }
}
