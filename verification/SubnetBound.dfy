/** How many peers of one /24 subnet can be admitted when acceptances overlap.

    The limit is compared with the accepted peers only, so acceptances that are still pending
    are not counted. With at most W of them in flight at a time the true bound is
    `maxSameSubnetPeers - 1 + W`, and it is reached. */
module SubnetBound {
  import opened Options
  import opened Admission
  import opened PeerProtocol
  import opened BatchAdmission

  /** Accepted peers of the subnet that did not come from the seed list. */
  ghost function Members(c: Config, w: World, net: string): set<Ip> {
    set ip | ip in w.net.accepted && c.subnet(ip) == Some(net) && w.net.accepted[ip] !in w.seeds
  }

  /** Acceptances of the subnet in flight that did not come from the seed list. */
  ghost function Candidates(c: Config, w: World, net: string): set<nat> {
    set op | op in w.ops && w.ops[op].Accepting? && !w.ops[op].seed && c.subnet(w.ops[op].ip) == Some(net)
  }

  ghost function Load(c: Config, w: World, net: string): nat {
    |Members(c, w, net)| + |Candidates(c, w, net)|
  }

  /** At no point of the run are more than `most` candidates of the subnet in flight. */
  ghost predicate AtMostInFlight(c: Config, es: seq<Event>, net: string, most: nat) {
    && |Candidates(c, After(c, es), net)| <= most
    && (es != [] ==> AtMostInFlight(c, es[..|es| - 1], net, most))
  }

  /** Which peer objects were created by seed acceptances, told by the operations in flight. */
  ghost predicate SeedsOk(w: World) {
    && w.seeds <= w.peers.Keys
    && (forall op | op in w.ops && w.ops[op].Accepting? ::
          w.ops[op].peer in w.peers && (w.ops[op].seed <==> w.ops[op].peer in w.seeds))
    && (forall ip | ip in w.net.accepted :: w.net.accepted[ip] in w.peers)
  }

  lemma AcceptKeepsSeedsOk(c: Config, w: World, ip: Ip, seed: bool, linked: bool, peer: nat, op: nat)
    requires SeedsOk(w) && peer !in w.peers && op !in w.ops
    ensures SeedsOk(Accept(c, w, ip, seed, linked, peer, op))
  {
  }

  lemma StepKeepsSeedsOk(c: Config, w: World, e: Event)
    requires SeedsOk(w)
    ensures SeedsOk(Next(c, w, e))
  {
    match e
    case Discover(ip, linked, peer, op) =>
      if peer !in w.peers && op !in w.ops { AcceptKeepsSeedsOk(c, w, ip, false, linked, peer, op); }
    case Repopulate(ip, linked, peer, op) =>
      if peer !in w.peers && op !in w.ops {
        AcceptKeepsSeedsOk(c, w.(net := ForgetPeer(w.net, ip)), ip, true, linked, peer, op);
      }
    case _ =>
  }

  lemma {:induction false} RunKeepsSeedsOk(c: Config, es: seq<Event>)
    ensures SeedsOk(After(c, es))
  {
    if es != [] {
      RunKeepsSeedsOk(c, es[..|es| - 1]);
      StepKeepsSeedsOk(c, After(c, es[..|es| - 1]), es[|es| - 1]);
    }
  }

  lemma SmallerLoad(c: Config, w: World, v: World, net: string)
    requires Members(c, v, net) <= Members(c, w, net)
    requires Candidates(c, v, net) <= Candidates(c, w, net)
    ensures Load(c, v, net) <= Load(c, w, net)
  {
    SubsetSize(Members(c, v, net), Members(c, w, net));
    SubsetSize(Candidates(c, v, net), Candidates(c, w, net));
  }

  lemma {:induction false} SubsetSize<T>(a: set<T>, b: set<T>)
    requires a <= b
    ensures |a| <= |b|
  {
    if a != {} {
      var x :| x in a;
      SubsetSize(a - {x}, b - {x});
    }
  }

  /** Admitting a candidate while fewer than the limit are accepted. */
  lemma AcceptLoad(c: Config, w: World, ip: Ip, seed: bool, linked: bool, peer: nat, op: nat, net: string)
    requires SeedsOk(w) && peer !in w.peers && op !in w.ops
    ensures
      var v := Accept(c, w, ip, seed, linked, peer, op);
      || Load(c, v, net) <= Load(c, w, net)
      || (|Members(c, v, net)| < c.maxSameSubnetPeers)
  {
    var v := Accept(c, w, ip, seed, linked, peer, op);
    if Starts(c, w.net, ip, seed) && !seed && c.subnet(ip) == Some(net) {
      assert Members(c, v, net) <= SameSubnet(c, w.net, ip);
      SubsetSize(Members(c, v, net), SameSubnet(c, w.net, ip));
    } else {
      SmallerLoad(c, w, v, net);
    }
  }

  lemma ContinueLoad(c: Config, w: World, op: nat, net: string)
    requires SeedsOk(w) && op in w.ops && w.ops[op].peer in w.peers
    ensures Load(c, Continue(w, op), net) <= Load(c, w, net)
  {
    var v := Continue(w, op);
    if op in Candidates(c, w, net) && w.ops[op].phase.Answered? {
      var ip := w.ops[op].ip;
      assert Members(c, v, net) <= Members(c, w, net) + {ip};
      SubsetSize(Members(c, v, net), Members(c, w, net) + {ip});
      assert Candidates(c, v, net) == Candidates(c, w, net) - {op};
    } else {
      SmallerLoad(c, w, v, net);
    }
  }

  lemma StepLoad(c: Config, w: World, e: Event, net: string)
    requires SeedsOk(w)
    ensures
      || Load(c, Next(c, w, e), net) <= Load(c, w, net)
      || |Members(c, Next(c, w, e), net)| < c.maxSameSubnetPeers
  {
    match e
    case Discover(ip, linked, peer, op) =>
      if peer !in w.peers && op !in w.ops { AcceptLoad(c, w, ip, false, linked, peer, op, net); }
    case Repopulate(ip, linked, peer, op) =>
      if peer !in w.peers && op !in w.ops {
        var u := w.(net := ForgetPeer(w.net, ip));
        AcceptLoad(c, u, ip, true, linked, peer, op, net);
        SmallerLoad(c, w, u, net);
      }
    case Resume(op) =>
      if op in w.ops && w.ops[op].peer in w.peers { ContinueLoad(c, w, op, net); }
    case _ =>
      SmallerLoad(c, w, Next(c, w, e), net);
  }

  /** With at most W candidates of a subnet in flight at a time, accepted members and candidates
      together never exceed the configured limit by more than W - 1. */
  lemma {:induction false} ConcurrentSubnetBound(c: Config, es: seq<Event>, net: string, most: nat)
    requires most >= 1 && AtMostInFlight(c, es, net, most)
    ensures Load(c, After(c, es), net) <= c.maxSameSubnetPeers - 1 + most
  {
    if es == [] {
      assert Members(c, INITIAL, net) == {} && Candidates(c, INITIAL, net) == {};
    } else {
      var before := es[..|es| - 1];
      ConcurrentSubnetBound(c, before, net, most);
      RunKeepsSeedsOk(c, before);
      StepLoad(c, After(c, before), es[|es| - 1], net);
    }
  }

  // ----- The bound is reached -----

  /** Ips of one subnet that the whitelist lets through. */
  ghost predicate Pool(c: Config, pool: set<Ip>, net: string) {
    forall ip | ip in pool :: c.whitelisted(ip) && c.subnet(ip) == Some(net)
  }

  /** Accepted and pending peers come from the pool, and every operation is an unanswered
      acceptance that does not come from the seed list. */
  ghost predicate InPool(w: World, pool: set<Ip>) {
    && w.seeds == {} && w.net.accepted.Keys + w.net.pending <= pool
    && (forall op | op in w.ops ::
          w.ops[op].Accepting? && !w.ops[op].seed && w.ops[op].phase.Waiting? && w.ops[op].ip in pool)
  }

  /** `done` peers of the pool are accepted and `waiting` acceptances have no answer yet. */
  ghost predicate Stage(c: Config, w: World, pool: set<Ip>, net: string, done: nat, waiting: nat) {
    && Pool(c, pool, net) && InPool(w, pool)
    && |w.net.accepted.Keys| == done && |w.ops.Keys| == waiting
  }

  lemma PoolSets(c: Config, w: World, pool: set<Ip>, net: string)
    requires Pool(c, pool, net) && InPool(w, pool)
    ensures Members(c, w, net) == w.net.accepted.Keys
    ensures Candidates(c, w, net) == Acceptances(w) == w.ops.Keys
  {
  }

  lemma PoolSubnet(c: Config, w: World, pool: set<Ip>, net: string, ip: Ip)
    requires Pool(c, pool, net) && InPool(w, pool) && ip in pool
    ensures SameSubnet(c, w.net, ip) == w.net.accepted.Keys
  {
  }

  lemma StageSizes(c: Config, es: seq<Event>, pool: set<Ip>, net: string, done: nat, waiting: nat)
    requires Stage(c, After(c, es), pool, net, done, waiting)
    ensures var n := After(c, es).net; |n.accepted.Keys + n.pending| == done + waiting
  {
    RunKeepsInv(c, es);
    PoolSets(c, After(c, es), pool, net);
    AcceptancesMatchPending(c, After(c, es));
  }

  lemma OpInRun(c: Config, es: seq<Event>, op: nat)
    requires op in After(c, es).ops && After(c, es).ops[op].Accepting?
    ensures
      var w := After(c, es);
      && w.ops[op].peer in w.peers && w.ops[op].ip in w.net.pending && w.ops[op].ip !in w.net.accepted
  {
    RunKeepsInv(c, es);
    assert OpOk(After(c, es), op);
  }

  lemma StartsInPool(c: Config, w: World, pool: set<Ip>, net: string, ip: Ip)
    requires Pool(c, pool, net) && InPool(w, pool) && !c.disableDiscovery
    requires |w.net.accepted.Keys| < c.maxSameSubnetPeers
    requires ip in pool && ip !in w.net.accepted && ip !in w.net.pending
    ensures Starts(c, w.net, ip, false)
  {
    PoolSubnet(c, w, pool, net, ip);
  }

  lemma BeginInPool(c: Config, w: World, pool: set<Ip>, ip: Ip, peer: nat, op: nat)
    requires InPool(w, pool) && ip in pool && op !in w.ops && Starts(c, w.net, ip, false)
    ensures
      var v := Accept(c, w, ip, false, true, peer, op);
      && InPool(v, pool) && v.net.accepted == w.net.accepted && v.ops.Keys == w.ops.Keys + {op}
  {
    var v := Accept(c, w, ip, false, true, peer, op);
    assert v.net.accepted == w.net.accepted && v.net.pending == w.net.pending + {ip};
    assert v.ops == w.ops[op := Accepting(ip, false, peer, Waiting)];
  }

  lemma OneMoreEvent(c: Config, es: seq<Event>, e: Event, net: string, most: nat)
    requires AtMostInFlight(c, es, net, most)
    requires |Candidates(c, Next(c, After(c, es), e), net)| <= most
    ensures After(c, es + [e]) == Next(c, After(c, es), e) && AtMostInFlight(c, es + [e], net, most)
  {
    assert (es + [e])[..|es|] == es;
  }

  /** One more acceptance starts. */
  lemma BeginOne(c: Config, es: seq<Event>, pool: set<Ip>, net: string, most: nat, done: nat, waiting: nat)
    returns (fs: seq<Event>)
    requires !c.disableDiscovery && Stage(c, After(c, es), pool, net, done, waiting)
    requires done + waiting < |pool| && done < c.maxSameSubnetPeers && waiting < most
    requires AtMostInFlight(c, es, net, most)
    ensures Stage(c, After(c, fs), pool, net, done, waiting + 1) && AtMostInFlight(c, fs, net, most)
  {
    var w := After(c, es);
    StageSizes(c, es, pool, net, done, waiting);
    var taken := w.net.accepted.Keys + w.net.pending;
    assert pool != taken;
    var ip :| ip in pool && ip !in taken;
    var peer := FreshId(w.peers.Keys);
    var op := FreshId(w.ops.Keys);
    var e := Discover(ip, true, peer, op);
    StartsInPool(c, w, pool, net, ip);
    BeginInPool(c, w, pool, ip, peer, op);
    PoolSets(c, Next(c, w, e), pool, net);
    OneMoreEvent(c, es, e, net, most);
    fs := es + [e];
  }

  lemma FinishInPool(c: Config, w: World, pool: set<Ip>, op: nat) returns (mid: World, v: World)
    requires InPool(w, pool) && op in w.ops && w.ops[op].peer in w.peers
    requires w.ops[op].ip in w.net.pending
    ensures mid == Next(c, w, Respond(op, Complete(None, ""), 0)) && v == Next(c, mid, Resume(op))
    ensures forall net :: Candidates(c, mid, net) == Candidates(c, w, net)
    ensures InPool(v, pool) && v.ops.Keys == w.ops.Keys - {op}
    ensures v.net.accepted.Keys == w.net.accepted.Keys + {w.ops[op].ip}
  {
    mid := Next(c, w, Respond(op, Complete(None, ""), 0));
    v := Next(c, mid, Resume(op));
    assert v.net == Store(w.net, w.ops[op].ip, w.ops[op].peer);
  }

  /** One acceptance in flight is answered and stored. */
  lemma FinishOne(c: Config, es: seq<Event>, pool: set<Ip>, net: string, most: nat, done: nat, waiting: nat)
    returns (fs: seq<Event>)
    requires Stage(c, After(c, es), pool, net, done, waiting) && waiting > 0
    requires AtMostInFlight(c, es, net, most)
    ensures Stage(c, After(c, fs), pool, net, done + 1, waiting - 1) && AtMostInFlight(c, fs, net, most)
  {
    var w := After(c, es);
    assert w.ops.Keys != {};
    var op :| op in w.ops.Keys;
    OpInRun(c, es, op);
    var e := Respond(op, Complete(None, ""), 0);
    var mid, v := FinishInPool(c, w, pool, op);
    PoolSets(c, w, pool, net);
    PoolSets(c, v, pool, net);
    OneMoreEvent(c, es, e, net, most);
    OneMoreEvent(c, es + [e], Resume(op), net, most);
    fs := es + [e] + [Resume(op)];
  }

  /** One acceptance after the other. */
  lemma {:induction false} Serially(c: Config, pool: set<Ip>, net: string, most: nat, done: nat)
    returns (es: seq<Event>)
    requires Pool(c, pool, net) && !c.disableDiscovery && most >= 1
    requires done <= |pool| && done <= c.maxSameSubnetPeers
    ensures Stage(c, After(c, es), pool, net, done, 0) && AtMostInFlight(c, es, net, most)
  {
    if done == 0 {
      es := [];
      assert Candidates(c, INITIAL, net) == {};
    } else {
      es := Serially(c, pool, net, most, done - 1);
      es := BeginOne(c, es, pool, net, most, done - 1, 0);
      es := FinishOne(c, es, pool, net, most, done - 1, 1);
    }
  }

  lemma {:induction false} BeginMany(
      c: Config, es: seq<Event>, pool: set<Ip>, net: string, most: nat, done: nat, waiting: nat)
    returns (fs: seq<Event>)
    requires !c.disableDiscovery && Stage(c, After(c, es), pool, net, done, 0)
    requires done + waiting <= |pool| && done < c.maxSameSubnetPeers && waiting <= most
    requires AtMostInFlight(c, es, net, most)
    ensures Stage(c, After(c, fs), pool, net, done, waiting) && AtMostInFlight(c, fs, net, most)
    decreases waiting
  {
    if waiting == 0 {
      fs := es;
    } else {
      fs := BeginMany(c, es, pool, net, most, done, waiting - 1);
      fs := BeginOne(c, fs, pool, net, most, done, waiting - 1);
    }
  }

  lemma {:induction false} FinishMany(
      c: Config, es: seq<Event>, pool: set<Ip>, net: string, most: nat, done: nat, waiting: nat)
    returns (fs: seq<Event>)
    requires Stage(c, After(c, es), pool, net, done, waiting) && AtMostInFlight(c, es, net, most)
    ensures Stage(c, After(c, fs), pool, net, done + waiting, 0) && AtMostInFlight(c, fs, net, most)
    decreases waiting
  {
    if waiting == 0 {
      fs := es;
    } else {
      fs := FinishOne(c, es, pool, net, most, done, waiting);
      fs := FinishMany(c, fs, pool, net, most, done + 1, waiting - 1);
    }
  }

  /** For every limit L >= 1, every W >= 1 and any L - 1 + W whitelisted ips of one subnet, some
      run with at most W candidates in flight accepts them all. */
  lemma SubnetBoundIsReached(c: Config, pool: set<Ip>, net: string, most: nat) returns (es: seq<Event>)
    requires Pool(c, pool, net) && !c.disableDiscovery
    requires c.maxSameSubnetPeers >= 1 && most >= 1 && |pool| == c.maxSameSubnetPeers - 1 + most
    ensures AtMostInFlight(c, es, net, most)
    ensures |Members(c, After(c, es), net)| == c.maxSameSubnetPeers - 1 + most
  {
    var done := c.maxSameSubnetPeers - 1;
    es := Serially(c, pool, net, most, done);
    es := BeginMany(c, es, pool, net, most, done, most);
    es := FinishMany(c, es, pool, net, most, done, most);
    PoolSets(c, After(c, es), pool, net);
  }

  ghost predicate LimitHolds(c: Config, es: seq<Event>, net: string) {
    |Members(c, After(c, es), net)| <= c.maxSameSubnetPeers
  }

  /** The configured limit is kept by every run exactly when acceptances of the subnet do not
      overlap. (The subnet must offer enough ips for an overlap to matter.) */
  lemma LimitHoldsExactlyWhenSerial(c: Config, pool: set<Ip>, net: string, most: nat)
    requires Pool(c, pool, net) && !c.disableDiscovery
    requires c.maxSameSubnetPeers >= 1 && most >= 1 && |pool| == c.maxSameSubnetPeers - 1 + most
    ensures (forall es | AtMostInFlight(c, es, net, most) :: LimitHolds(c, es, net)) <==> most == 1
  {
    if most == 1 {
      forall es | AtMostInFlight(c, es, net, most) ensures LimitHolds(c, es, net) {
        ConcurrentSubnetBound(c, es, net, most);
      }
    } else {
      var es := SubnetBoundIsReached(c, pool, net, most);
      assert !LimitHolds(c, es, net);
    }
  }
}
