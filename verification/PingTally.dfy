/** The bookkeeping of `cleansePeers`: failed pings are counted and grouped by their error while
    the pings finish in any order, before or after the waiting has been cut short. */
module PingTally {
  import opened Options

  /** The ping of the peer at position `peer` of the checked list failed. */
  datatype Failure = Failure(peer: nat, error: string)

  function Checked<T>(peers: seq<T>, peerCount: Option<nat>): seq<T> {
    if peerCount.Some? && peerCount.value != 0 && peerCount.value < |peers| then peers[..peerCount.value]
    else peers
  }

  /** The `max` that is logged: the number of peers, capped again by `peerCount` if that was given. */
  function MaxPeers<T>(peers: seq<T>, peerCount: Option<nat>): nat {
    var checked := Checked(peers, peerCount);
    if peerCount.Some? && peerCount.value != 0 && peerCount.value < |checked| then peerCount.value
    else |checked|
  }

  lemma MaxIsCheckedSize<T>(peers: seq<T>, peerCount: Option<nat>)
    ensures MaxPeers(peers, peerCount) == |Checked(peers, peerCount)|
  {
  }

  /** Each checked peer is pinged once, so it fails at most once. */
  ghost predicate CompletionOrder(failures: seq<Failure>, max: nat) {
    && (forall i | 0 <= i < |failures| :: failures[i].peer < max)
    && (forall i, j | 0 <= i < j < |failures| :: failures[i].peer != failures[j].peer)
  }

  /** The peers that failed with the given error, in the order in which they failed. */
  function FailedWith(failures: seq<Failure>, error: string): seq<nat> {
    if failures == [] then []
    else FailedWith(failures[..|failures| - 1], error)
         + if failures[|failures| - 1].error == error then [failures[|failures| - 1].peer] else []
  }

  ghost predicate Groups(peerErrors: map<string, seq<nat>>, failures: seq<Failure>) {
    && (forall e :: e in peerErrors <==> FailedWith(failures, e) != [])
    && (forall e | e in peerErrors :: peerErrors[e] == FailedWith(failures, e))
  }

  /** The sum of the lengths of the lists. */
  ghost function TotalLength(m: map<string, seq<nat>>): nat {
    if m == map[] then 0 else
    var k :| k in m;
    |m[k]| + TotalLength(m - {k})
  }

  lemma {:induction false} TotalLengthOf(m: map<string, seq<nat>>, k: string)
    requires k in m
    ensures TotalLength(m) == |m[k]| + TotalLength(m - {k})
    decreases |m|
  {
    var c :| c in m && TotalLength(m) == |m[c]| + TotalLength(m - {c});
    if c != k {
      assert |(m - {c}).Keys| == |m.Keys| - 1 by { assert (m - {c}).Keys == m.Keys - {c}; }
      assert |(m - {k}).Keys| == |m.Keys| - 1 by { assert (m - {k}).Keys == m.Keys - {k}; }
      TotalLengthOf(m - {c}, k);
      TotalLengthOf(m - {k}, c);
      assert m - {c} - {k} == m - {k} - {c};
    }
  }

  /** One failed ping: a new list for a new error, or one more entry in a known one. */
  function Recorded(m: map<string, seq<nat>>, f: Failure): map<string, seq<nat>> {
    if f.error in m then m[f.error := m[f.error] + [f.peer]] else m[f.error := [f.peer]]
  }

  lemma RecordedLength(m: map<string, seq<nat>>, f: Failure)
    ensures TotalLength(Recorded(m, f)) == TotalLength(m) + 1
  {
    var r := Recorded(m, f);
    TotalLengthOf(r, f.error);
    assert r - {f.error} == m - {f.error};
    if f.error in m {
      TotalLengthOf(m, f.error);
    } else {
      assert m - {f.error} == m;
    }
  }

  lemma FailedWithMore(failures: seq<Failure>, i: nat, e: string)
    requires i < |failures|
    ensures FailedWith(failures[..i + 1], e) ==
      FailedWith(failures[..i], e) + if failures[i].error == e then [failures[i].peer] else []
  {
    assert failures[..i + 1][..i] == failures[..i];
  }

  lemma RecordedGroups(m: map<string, seq<nat>>, failures: seq<Failure>, i: nat)
    requires i < |failures| && Groups(m, failures[..i])
    ensures Groups(Recorded(m, failures[i]), failures[..i + 1])
  {
    var r := Recorded(m, failures[i]);
    forall e
      ensures e in r <==> FailedWith(failures[..i + 1], e) != []
      ensures e in r ==> r[e] == FailedWith(failures[..i + 1], e)
    {
      FailedWithMore(failures, i, e);
    }
  }

  /** Pings the checked ones of these peers and goes through the pings that have failed so far, in
      the order of their completion. The number of peers that is logged as responsive,
      `max - unresponsivePeers`, is that of the checked peers without a failure. */
  method Tally<T>(peers: seq<T>, peerCount: Option<nat>, failures: seq<Failure>)
    returns (max: nat, unresponsivePeers: nat, peerErrors: map<string, seq<nat>>)
    requires CompletionOrder(failures, |Checked(peers, peerCount)|)
    ensures max == if peerCount == None || peerCount.value == 0 || peerCount.value > |peers| then |peers|
                   else peerCount.value
    ensures max == |Checked(peers, peerCount)| && Checked(peers, peerCount) <= peers
    ensures Groups(peerErrors, failures)
    ensures unresponsivePeers == |failures| == TotalLength(peerErrors)
    ensures max - unresponsivePeers ==
      |Positions(|Checked(peers, peerCount)|) - FailedPeers(failures)|
  {
    max := MaxPeers(peers, peerCount);
    MaxIsCheckedSize(peers, peerCount);
    unresponsivePeers, peerErrors := 0, map[];
    for i := 0 to |failures|
      invariant Groups(peerErrors, failures[..i])
      invariant unresponsivePeers == i == TotalLength(peerErrors)
    {
      var f := failures[i];
      RecordedGroups(peerErrors, failures, i);
      RecordedLength(peerErrors, f);
      unresponsivePeers := unresponsivePeers + 1;
      if f.error in peerErrors {
        peerErrors := peerErrors[f.error := peerErrors[f.error] + [f.peer]];
      } else {
        peerErrors := peerErrors[f.error := [f.peer]];
      }
    }
    assert failures[..|failures|] == failures;
    FailedSize(failures, max);
    PositionsBelow(max);
  }

  ghost function FailedPeers(failures: seq<Failure>): set<nat> {
    set f | f in failures :: f.peer
  }

  lemma LastFailureIsNew(failures: seq<Failure>, max: nat)
    requires CompletionOrder(failures, max) && failures != []
    ensures failures[|failures| - 1].peer !in FailedPeers(failures[..|failures| - 1])
  {
    var front, last := failures[..|failures| - 1], failures[|failures| - 1];
    forall f | f in front ensures f.peer != last.peer {
      var i :| 0 <= i < |front| && front[i] == f;
      assert failures[i] == f;
    }
  }

  lemma {:induction false} FailedSize(failures: seq<Failure>, max: nat)
    requires CompletionOrder(failures, max)
    ensures |FailedPeers(failures)| == |failures|
  {
    if failures != [] {
      var front, last := failures[..|failures| - 1], failures[|failures| - 1];
      assert CompletionOrder(front, max);
      FailedSize(front, max);
      LastFailureIsNew(failures, max);
      assert FailedPeers(failures) == FailedPeers(front) + {last.peer} by {
        assert failures == front + [last];
      }
    }
  }

  /** The positions in a list of this length. */
  ghost function Positions(max: nat): set<nat> {
    if max == 0 then {} else Positions(max - 1) + {max - 1}
  }

  lemma {:induction false} PositionsBelow(max: nat)
    ensures |Positions(max)| == max && forall p: nat :: p in Positions(max) <==> p < max
  {
    if max > 0 { PositionsBelow(max - 1); }
  }

  lemma {:induction false} FailedWithMembers(failures: seq<Failure>, error: string, peer: nat)
    ensures peer in FailedWith(failures, error) <==> Failure(peer, error) in failures
  {
    if failures != [] {
      var front, last := failures[..|failures| - 1], failures[|failures| - 1];
      assert failures == front + [last];
      FailedWithMembers(front, error, peer);
    }
  }

  /** `a` failed before `b`, both with this error. */
  ghost predicate FailedBefore(failures: seq<Failure>, error: string, a: nat, b: nat) {
    exists i, j :: 0 <= i < j < |failures| && failures[i] == Failure(a, error) && failures[j] == Failure(b, error)
  }

  ghost predicate InOrder(failures: seq<Failure>, error: string, group: seq<nat>) {
    forall k, l | 0 <= k < l < |group| :: FailedBefore(failures, error, group[k], group[l])
  }

  lemma FailedBeforeStays(failures: seq<Failure>, error: string, a: nat, b: nat)
    requires failures != [] && FailedBefore(failures[..|failures| - 1], error, a, b)
    ensures FailedBefore(failures, error, a, b)
  {
    var front := failures[..|failures| - 1];
    var i, j :| 0 <= i < j < |front| && front[i] == Failure(a, error) && front[j] == Failure(b, error);
    assert failures[i] == front[i] && failures[j] == front[j];
  }

  /** A group lists its peers in the order in which they failed. */
  lemma {:induction false} GroupsKeepOrder(failures: seq<Failure>, error: string)
    ensures InOrder(failures, error, FailedWith(failures, error))
  {
    if failures != [] {
      var front, last := failures[..|failures| - 1], failures[|failures| - 1];
      var before, group := FailedWith(front, error), FailedWith(failures, error);
      GroupsKeepOrder(front, error);
      forall k, l | 0 <= k < l < |group| ensures FailedBefore(failures, error, group[k], group[l]) {
        assert group[k] == before[k];
        if l < |before| {
          assert group[l] == before[l];
          FailedBeforeStays(failures, error, before[k], before[l]);
        } else {
          FailedWithMembers(front, error, before[k]);
          var i :| 0 <= i < |front| && front[i] == Failure(before[k], error);
          assert failures[i] == front[i] && failures[|front|] == Failure(group[l], error);
        }
      }
    }
  }

  /** The groups partition the failed peers: a peer is in the list of an error exactly if it
      failed with that error, and it is in no other list. */
  lemma GroupsPartition(failures: seq<Failure>, max: nat, peerErrors: map<string, seq<nat>>)
    requires CompletionOrder(failures, max) && Groups(peerErrors, failures)
    ensures forall p :: p in FailedPeers(failures) <==> exists e :: e in peerErrors && p in peerErrors[e]
    ensures forall d, e, p | d in peerErrors && e in peerErrors && p in peerErrors[d] && p in peerErrors[e] :: d == e
  {
    forall e, p ensures p in FailedWith(failures, e) <==> Failure(p, e) in failures {
      FailedWithMembers(failures, e, p);
    }
    forall p | p in FailedPeers(failures) ensures exists e :: e in peerErrors && p in peerErrors[e] {
      var f :| f in failures && f.peer == p;
      assert Failure(p, f.error) in failures;
      assert p in FailedWith(failures, f.error);
    }
    forall d, e, p | d in peerErrors && e in peerErrors && p in peerErrors[d] && p in peerErrors[e]
      ensures d == e
    {
      assert Failure(p, d) in failures && Failure(p, e) in failures;
    }
  }
}
