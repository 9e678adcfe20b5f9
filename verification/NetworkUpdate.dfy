/** The node as a whole: the peer-to-peer protocol together with the periodic update, which
    populates the seeds when too few peers are accepted. */
module NetworkUpdate {
  import opened Options
  import opened Admission
  import opened PeerProtocol
  import opened BatchAdmission
  import UpdateLoop

  /** `seeds` is the configured list, `known` holds for the ips that peer lists may mention, and the
      minimum is that of accepted peers, which seed mode ignores. */
  datatype Node = Node(
    c: Config,
    mode: UpdateLoop.Mode,
    seeds: seq<Ip>,
    known: Ip -> bool,
    ignoreMinimum: bool,
    minimum: nat)

  /** `waiting` and `rejected` count the runs that have populated the seeds and wait for them, and
      those whose promise was rejected thereby. The other runs are discovering or cleansing. */
  datatype State = State(world: World, loop: UpdateLoop.Loop, waiting: nat, rejected: nat)

  /** Any stretch of the protocol apart from the seed loop; the seed loop of `start`; an outside call
      of `updateNetworkStatus`; a run that is done with discovering; a run that is done with waiting
      for its seeds; a run whose wait is rejected; a timer that fires. `linked(ip)` tells whether a
      connection can be stored. */
  datatype NodeEvent =
    | Peers(e: Event)
    | Populate(linked: Ip -> bool)
    | Call
    | EndDiscovery(linked: Ip -> bool)
    | SeedsDone
    | SeedsRejected
    | Fire

  const START := State(INITIAL, UpdateLoop.Loop(false, 0, 0), 0, 0)

  predicate Enough(d: Node, n: Net<nat>) {
    d.ignoreMinimum || |n.accepted| >= d.minimum
  }

  predicate Discovering(s: State) {
    s.loop.runs > s.waiting + s.rejected
  }

  /** What the event is for the update loop, if anything. */
  function LoopPart(d: Node, s: State, e: NodeEvent): Option<UpdateLoop.LoopEvent> {
    match e
    case Call => Some(UpdateLoop.Call)
    case Fire => Some(UpdateLoop.Fire)
    case EndDiscovery(_) => if Discovering(s) && Enough(d, s.world.net) then Some(UpdateLoop.EndRun) else None
    case SeedsDone => if s.waiting > 0 then Some(UpdateLoop.EndRun) else None
    case SeedsRejected => if s.rejected > 0 then Some(UpdateLoop.RejectRun) else None
    case _ => None
  }

  function LoopAfter(d: Node, s: State, e: NodeEvent): UpdateLoop.Loop {
    var part := LoopPart(d, s, e);
    if part.None? then s.loop else UpdateLoop.Next(d.mode, s.loop, part.value)
  }

  ghost function SeedsPopulated(d: Node, w: World, linked: Ip -> bool): World {
    RunBatch(d.c, w, d.seeds, true, linked)
  }

  /** A run that is done with discovering populates the seeds if there are too few peers. */
  predicate Populates(d: Node, s: State, e: NodeEvent) {
    e.EndDiscovery? && Discovering(s) && !Enough(d, s.world.net)
  }

  ghost predicate IsRejected(d: Node, s: State, e: NodeEvent) {
    Populates(d, s, e) && Rejects(d.c, s.world.net, d.seeds, true, e.linked)
  }

  ghost function WorldAfter(d: Node, s: State, e: NodeEvent): World {
    if e.Peers? then
      if e.e.Repopulate? || (e.e.Discover? && !d.known(e.e.ip)) then s.world
      else PeerProtocol.Next(d.c, s.world, e.e)
    else if e.Populate? || Populates(d, s, e) then SeedsPopulated(d, s.world, e.linked)
    else s.world
  }

  ghost function WaitingAfter(d: Node, s: State, e: NodeEvent): nat {
    if Populates(d, s, e) && !IsRejected(d, s, e) then s.waiting + 1
    else if e.SeedsDone? && s.waiting > 0 then s.waiting - 1
    else s.waiting
  }

  ghost function RejectedAfter(d: Node, s: State, e: NodeEvent): nat {
    if IsRejected(d, s, e) then s.rejected + 1
    else if e.SeedsRejected? && s.rejected > 0 then s.rejected - 1
    else s.rejected
  }

  ghost function Next(d: Node, s: State, e: NodeEvent): State {
    State(WorldAfter(d, s, e), LoopAfter(d, s, e), WaitingAfter(d, s, e), RejectedAfter(d, s, e))
  }

  ghost function After(d: Node, es: seq<NodeEvent>): State {
    if es == [] then START else Next(d, After(d, es[..|es| - 1]), es[|es| - 1])
  }

  function Calls(es: seq<NodeEvent>): nat {
    if es == [] then 0 else Calls(es[..|es| - 1]) + if es[|es| - 1].Call? then 1 else 0
  }

  ghost predicate Alive(d: Node, es: seq<NodeEvent>) {
    After(d, es).loop.runs + After(d, es).loop.timers > 0
  }

  lemma OneMore(d: Node, es: seq<NodeEvent>, e: NodeEvent)
    ensures After(d, es + [e]) == Next(d, After(d, es), e)
    ensures Calls(es + [e]) == Calls(es) + if e.Call? then 1 else 0
  {
    assert (es + [e])[..|es|] == es;
  }

  // ----- What holds in every state -----

  /** The ips that can become accepted or pending: seeds, and known ones if the subnet limit lets
      any in that is no seed. */
  ghost function Origin(d: Node): Ip -> bool {
    ip => ip in d.seeds || (d.known(ip) && d.c.maxSameSubnetPeers > 0)
  }

  ghost predicate WorldOk(d: Node, w: World) {
    PeerProtocol.Inv(d.c, w) && AllFrom(w.net, Origin(d))
  }

  lemma {:induction false} BatchKeepsInv(c: Config, w: World, seeds: seq<Ip>, linked: Ip -> bool, known: Ip -> bool)
    requires PeerProtocol.Inv(c, w) && AllFrom(w.net, known) && forall ip | ip in seeds :: known(ip)
    ensures var v := RunBatch(c, w, seeds, true, linked); PeerProtocol.Inv(c, v) && AllFrom(v.net, known)
  {
    if seeds != [] {
      var front, last := seeds[..|seeds| - 1], seeds[|seeds| - 1];
      BatchKeepsInv(c, w, front, linked, known);
      var v := RunBatch(c, w, front, true, linked);
      StepKeepsInv(c, v, Turn(v, last, true, linked));
      StepKeepsOrigin(c, v, Turn(v, last, true, linked), known);
    }
  }

  lemma NextKeepsWorldOk(d: Node, s: State, e: NodeEvent)
    requires WorldOk(d, s.world)
    ensures WorldOk(d, WorldAfter(d, s, e))
  {
    var v := WorldAfter(d, s, e);
    if e.Peers? {
      if v != s.world {
        StepKeepsInv(d.c, s.world, e.e);
        StepKeepsOrigin(d.c, s.world, e.e, Origin(d));
      }
    } else if e.Populate? || Populates(d, s, e) {
      BatchKeepsInv(d.c, s.world, d.seeds, e.linked, Origin(d));
    }
  }

  lemma {:induction false} WorldIsOk(d: Node, es: seq<NodeEvent>)
    ensures WorldOk(d, After(d, es).world)
  {
    if es != [] {
      WorldIsOk(d, es[..|es| - 1]);
      NextKeepsWorldOk(d, After(d, es[..|es| - 1]), es[|es| - 1]);
    }
  }

  // ----- The loop -----

  /** The run of the update loop that is part of a run of the node. */
  ghost function Trace(d: Node, es: seq<NodeEvent>): seq<UpdateLoop.LoopEvent> {
    if es == [] then []
    else
      var front := es[..|es| - 1];
      var part := LoopPart(d, After(d, front), es[|es| - 1]);
      if part.None? then Trace(d, front) else Trace(d, front) + [part.value]
  }

  lemma {:induction false} LoopIsATrace(d: Node, es: seq<NodeEvent>)
    ensures After(d, es).loop == UpdateLoop.After(d.mode, Trace(d, es))
    ensures Calls(es) == UpdateLoop.Calls(Trace(d, es))
  {
    if es != [] {
      var front := es[..|es| - 1];
      LoopIsATrace(d, front);
      var part := LoopPart(d, After(d, front), es[|es| - 1]);
      if part.Some? { UpdateLoop.OneMore(d.mode, Trace(d, front), part.value); }
    }
  }

  lemma NextFits(d: Node, s: State, e: NodeEvent)
    requires s.waiting + s.rejected <= s.loop.runs
    ensures WaitingAfter(d, s, e) + RejectedAfter(d, s, e) <= LoopAfter(d, s, e).runs
  {
    if Populates(d, s, e) {
      assert LoopAfter(d, s, e) == s.loop;
    } else {
      assert LoopAfter(d, s, e).runs >= s.loop.runs - if LoopPart(d, s, e).None? then 0 else 1;
    }
  }

  /** Waiting and rejected runs are runs in progress. */
  lemma {:induction false} WaitingRunsAreRuns(d: Node, es: seq<NodeEvent>)
    ensures var s := After(d, es); s.waiting + s.rejected <= s.loop.runs
  {
    if es != [] {
      WaitingRunsAreRuns(d, es[..|es| - 1]);
      NextFits(d, After(d, es[..|es| - 1]), es[|es| - 1]);
    }
  }

  /** The flag tells whether the one timer is outstanding, and waiting and rejected runs are runs. */
  ghost predicate Fits(s: State) {
    s.waiting + s.rejected <= s.loop.runs && s.loop.timers <= 1 && (s.loop.scheduled <==> s.loop.timers == 1)
  }

  lemma RunsFit(d: Node, es: seq<NodeEvent>)
    requires UpdateLoop.Discovers(d.mode)
    ensures Fits(After(d, es))
  {
    WaitingRunsAreRuns(d, es);
    LoopIsATrace(d, es);
    UpdateLoop.LoopNeitherDiesNorForks(d.mode, Trace(d, es));
  }

  /** A run that is done with discovering ends and leaves one timer if enough peers are accepted.
      Otherwise it goes through the seeds, and is rejected or waits. */
  lemma EndOfDiscovery(d: Node, es: seq<NodeEvent>, linked: Ip -> bool)
    requires UpdateLoop.Discovers(d.mode) && Discovering(After(d, es))
    ensures
      var s, t := After(d, es), After(d, es + [EndDiscovery(linked)]);
      var n := s.world.net;
      if d.ignoreMinimum || |n.accepted| >= d.minimum then
        t == State(s.world, UpdateLoop.Loop(true, 1, s.loop.runs - 1), s.waiting, s.rejected)
      else
        var rejected := Rejects(d.c, n, d.seeds, true, linked);
        && t.loop == s.loop && t.world.net == AdmitAll(d.c, n, d.seeds, true, linked)
        && t.rejected == s.rejected + (if rejected then 1 else 0)
        && t.waiting == s.waiting + (if rejected then 0 else 1)
  {
    OneMore(d, es, EndDiscovery(linked));
    RunsFit(d, es);
    RunOfBatch(d.c, After(d, es).world, d.seeds, true, linked);
  }

  /** The other things that can become of a run: done with waiting, it ends and leaves one timer;
      rejected, it ends and leaves none; a call starts one, and a timer that fires starts the next. */
  lemma EndOfRun(d: Node, es: seq<NodeEvent>, e: NodeEvent)
    requires UpdateLoop.Discovers(d.mode)
    ensures
      var s, t := After(d, es), After(d, es + [e]);
      && Fits(s)
      && (e.SeedsDone? && s.waiting > 0 ==>
            t == State(s.world, UpdateLoop.Loop(true, 1, s.loop.runs - 1), s.waiting - 1, s.rejected))
      && (e.SeedsRejected? && s.rejected > 0 ==>
            t == State(s.world, s.loop.(runs := s.loop.runs - 1), s.waiting, s.rejected - 1))
      && (e.Fire? && s.loop.timers > 0 ==>
            t == State(s.world, UpdateLoop.Loop(false, 0, s.loop.runs + 1), s.waiting, s.rejected))
      && (e.Call? ==> t == s.(loop := s.loop.(runs := s.loop.runs + 1)))
  {
    OneMore(d, es, e);
    RunsFit(d, es);
  }

  /** No whitelisted seed is incomparable with another ip that could be accepted. */
  ghost predicate SeedsParse(d: Node) {
    forall x, y | x in d.seeds && Origin(d)(y) && x != y && d.c.whitelisted(x) && d.c.whitelisted(y) ::
      d.c.subnet(x).Some? && d.c.subnet(y).Some?
  }

  ghost predicate Sound(d: Node) {
    d.ignoreMinimum || d.minimum <= 1 || SeedsParse(d)
  }

  lemma SoundRunsDoNotReject(d: Node, w: World, linked: Ip -> bool)
    requires WorldOk(d, w) && Sound(d) && !Enough(d, w.net)
    ensures !Rejects(d.c, w.net, d.seeds, true, linked)
  {
    SeedBatchRejects(d.c, w.net, d.seeds, linked);
    forall k: nat | k < |d.seeds| && d.c.whitelisted(d.seeds[k])
      ensures !SubnetThrows(d.c, LeftAt(w.net, d.seeds, k), d.seeds[k])
    {
      SoundTurn(d, w, k);
    }
  }

  lemma SoundTurn(d: Node, w: World, k: nat)
    requires WorldOk(d, w) && Sound(d) && !Enough(d, w.net)
    requires k < |d.seeds| && d.c.whitelisted(d.seeds[k])
    ensures !SubnetThrows(d.c, LeftAt(w.net, d.seeds, k), d.seeds[k])
  {
    var left, ip := LeftAt(w.net, d.seeds, k).accepted, d.seeds[k];
    if SeedsParse(d) {
      forall q | q in left ensures d.c.subnet(q).Some? && d.c.subnet(ip).Some? {
        assert ip in d.seeds[..k + 1];
        SoundPair(d, w, ip, q);
      }
    } else {
      assert w.net.accepted == map[];
    }
  }

  lemma SoundPair(d: Node, w: World, x: Ip, y: Ip)
    requires AllFrom(w.net, Origin(d)) && MapsOk(d.c, w.net) && SeedsParse(d)
    requires x in d.seeds && d.c.whitelisted(x) && y in w.net.accepted && x != y
    ensures d.c.subnet(x).Some? && d.c.subnet(y).Some?
  {
    assert Origin(d)(y) && d.c.whitelisted(y);
  }

  lemma {:induction false} SoundRunsAreNotRejected(d: Node, es: seq<NodeEvent>)
    requires Sound(d)
    ensures After(d, es).rejected == 0 && UpdateLoop.Rejections(d.mode, Trace(d, es)) == 0
  {
    if es != [] {
      var front, e := es[..|es| - 1], es[|es| - 1];
      SoundRunsAreNotRejected(d, front);
      var s := After(d, front);
      if Populates(d, s, e) {
        WorldIsOk(d, front);
        SoundRunsDoNotReject(d, s.world, e.linked);
      }
      var part := LoopPart(d, s, e);
      assert part != Some(UpdateLoop.RejectRun);
      if part.Some? { UpdateLoop.OneMore(d.mode, Trace(d, front), part.value); }
    }
  }

  // ----- A node that falls silent -----

  /** Only `b` is accepted, and no run is in progress; the seed `a` cannot be compared with `b`,
      which is not forgotten before. Then the next run is rejected and the loop ends. */
  ghost predicate Doomed(d: Node, es: seq<NodeEvent>, a: Ip, b: Ip, k: nat) {
    var s := After(d, es);
    && s.loop == UpdateLoop.Loop(false, 0, 0) && s.waiting == s.rejected == 0 && Calls(es) == 0
    && s.world.net.accepted.Keys == {b} && a !in s.world.net.pending
    && k < |d.seeds| && d.seeds[k] == a && b !in d.seeds[..k + 1]
    && d.c.whitelisted(a) && (d.c.subnet(a).None? || d.c.subnet(b).None?)
  }

  lemma DoomedSeedsReject(d: Node, n: Net<nat>, a: Ip, b: Ip, k: nat, linked: Ip -> bool)
    requires !d.c.disableDiscovery && d.c.whitelisted(a) && (d.c.subnet(a).None? || d.c.subnet(b).None?)
    requires b in n.accepted && a !in n.pending && k < |d.seeds| && d.seeds[k] == a && b !in d.seeds[..k + 1]
    ensures Rejects(d.c, n, d.seeds, true, linked)
  {
    SeedBatchRejects(d.c, n, d.seeds, linked);
    assert b in LeftAt(n, d.seeds, k).accepted;
    assert SubnetThrows(d.c, LeftAt(n, d.seeds, k), d.seeds[k]);
  }

  lemma DoomedLoopEnds(d: Node, es: seq<NodeEvent>, a: Ip, b: Ip, k: nat) returns (fs: seq<NodeEvent>)
    requires UpdateLoop.Discovers(d.mode) && !d.c.disableDiscovery && !d.ignoreMinimum && d.minimum > 1
    requires Doomed(d, es, a, b, k)
    ensures Calls(fs) == 1 && !Alive(d, fs)
  {
    var e := EndDiscovery(ip => true);
    var s := After(d, es);
    assert |s.world.net.accepted| == |s.world.net.accepted.Keys| == 1;
    DoomedSeedsReject(d, s.world.net, a, b, k, e.linked);
    OneMore(d, es, Call);
    var called := After(d, es + [Call]);
    assert called == s.(loop := UpdateLoop.Loop(false, 0, 1));
    OneMore(d, es + [Call], e);
    var ended := After(d, es + [Call] + [e]);
    assert IsRejected(d, called, e) && ended.rejected == 1 && ended.loop == called.loop;
    OneMore(d, es + [Call] + [e], SeedsRejected);
    fs := es + [Call] + [e] + [SeedsRejected];
  }

  /** Events of the protocol alone leave the loop alone. */
  lemma {:induction false} Lift(d: Node, es: seq<Event>) returns (fs: seq<NodeEvent>)
    requires forall e | e in es :: !e.Repopulate? && (e.Discover? ==> d.known(e.ip))
    ensures After(d, fs) == START.(world := PeerProtocol.After(d.c, es)) && Calls(fs) == 0
  {
    if es == [] {
      fs := [];
    } else {
      var e := es[|es| - 1];
      assert e in es;
      var front := Lift(d, es[..|es| - 1]);
      OneMore(d, front, Peers(e));
      fs := front + [Peers(e)];
    }
  }

  /** A known ip that is no seed is discovered and accepted. */
  lemma DoomedByDiscovery(d: Node, a: Ip, b: Ip) returns (es: seq<NodeEvent>, k: nat)
    requires !d.c.disableDiscovery && d.c.whitelisted(a) && d.c.whitelisted(b)
    requires a in d.seeds && b !in d.seeds && Origin(d)(b) && (d.c.subnet(a).None? || d.c.subnet(b).None?)
    ensures Doomed(d, es, a, b, k)
  {
    var run := AloneAccepted(d.c, b);
    es := Lift(d, run);
    k :| k < |d.seeds| && d.seeds[k] == a;
  }

  /** Of two seeds, one comes first. */
  lemma {:induction false} FirstOfTwo(seeds: seq<Ip>, x: Ip, y: Ip) returns (a: Ip, b: Ip, k: nat)
    requires x in seeds && y in seeds && x != y
    ensures (a == x && b == y) || (a == y && b == x)
    ensures k < |seeds| && seeds[k] == a && b !in seeds[..k + 1]
  {
    if seeds[0] == x {
      a, b, k := x, y, 0;
    } else if seeds[0] == y {
      a, b, k := y, x, 0;
    } else {
      var rest := seeds[1..];
      assert x in rest && y in rest;
      a, b, k := FirstOfTwo(rest, x, y);
      k := k + 1;
      assert seeds[..k + 1] == [seeds[0]] + rest[..k];
    }
  }

  ghost predicate Unanswered(w: World, linked: Ip -> bool) {
    forall op | op in w.ops :: w.ops[op].Accepting? && w.ops[op].phase == FirstPhase(linked(w.ops[op].ip))
  }

  lemma {:induction false} BatchIsUnanswered(c: Config, seeds: seq<Ip>, linked: Ip -> bool)
    ensures Unanswered(RunBatch(c, INITIAL, seeds, true, linked), linked)
  {
    if seeds != [] { BatchIsUnanswered(c, seeds[..|seeds| - 1], linked); }
  }

  lemma FirstBatch(d: Node, a: Ip, b: Ip) returns (w: World, f: nat, g: nat)
    requires !d.c.disableDiscovery && d.c.whitelisted(a) && d.c.whitelisted(b) && a != b
    requires a in d.seeds && b in d.seeds
    ensures w == SeedsPopulated(d, INITIAL, ip => ip == b) && PeerProtocol.Inv(d.c, w) && w.net.accepted == map[]
    ensures f in w.ops && w.ops[f].Accepting? && w.ops[f].ip == a && w.ops[f].phase.Failed?
    ensures g in w.ops && w.ops[g].Accepting? && w.ops[g].ip == b && w.ops[g].phase.Waiting?
  {
    var linked := ip => ip == b;
    w := SeedsPopulated(d, INITIAL, linked);
    BatchKeepsInv(d.c, INITIAL, d.seeds, linked, Origin(d));
    RunOfBatch(d.c, INITIAL, d.seeds, true, linked);
    SeedBatch(d.c, INITIAL.net, d.seeds, linked);
    SeedBatchRejects(d.c, INITIAL.net, d.seeds, linked);
    SeedsArePendingAfterwards(d.c, INITIAL.net, d.seeds, linked);
    BatchIsUnanswered(d.c, d.seeds, linked);
    assert BeingAccepted(w, a) && BeingAccepted(w, b);
    f :| f in w.ops && w.ops[f].Accepting? && w.ops[f].ip == a;
    g :| g in w.ops && w.ops[g].Accepting? && w.ops[g].ip == b;
  }

  /** The acceptance of `a` has failed, and that of `b` is answered. */
  lemma Settle(c: Config, w: World, f: nat, g: nat)
    requires PeerProtocol.Inv(c, w) && w.net.accepted == map[]
    requires f in w.ops && w.ops[f].Accepting? && w.ops[f].phase.Failed?
    requires g in w.ops && w.ops[g].Accepting? && w.ops[g].phase.Waiting? && w.ops[f].ip != w.ops[g].ip
    ensures
      var u := PeerProtocol.Next(c, w, Resume(f));
      var v := PeerProtocol.Next(c, u, Respond(g, Complete(None, ""), 0));
      var n := PeerProtocol.Next(c, v, Resume(g)).net;
      n.accepted.Keys == {w.ops[g].ip} && w.ops[f].ip !in n.pending
  {
    assert OpOk(w, f) && OpOk(w, g);
    var u := PeerProtocol.Next(c, w, Resume(f));
    assert u.net == Reject(w.net, w.ops[f].ip) && u.peers == w.peers && g in u.ops && u.ops[g] == w.ops[g];
    var v := PeerProtocol.Next(c, u, Respond(g, Complete(None, ""), 0));
    assert v.net == u.net && v.ops[g] == w.ops[g].(phase := Answered);
    assert PeerProtocol.Next(c, v, Resume(g)).net == Store(v.net, w.ops[g].ip, w.ops[g].peer);
  }

  /** The seeds are populated, and only the later of the two is accepted. */
  lemma DoomedBySeeds(d: Node, x: Ip, y: Ip) returns (es: seq<NodeEvent>, a: Ip, b: Ip, k: nat)
    requires !d.c.disableDiscovery && d.c.whitelisted(x) && d.c.whitelisted(y) && x != y
    requires x in d.seeds && y in d.seeds && (d.c.subnet(x).None? || d.c.subnet(y).None?)
    ensures Doomed(d, es, a, b, k)
  {
    a, b, k := FirstOfTwo(d.seeds, x, y);
    var w, f, g := FirstBatch(d, a, b);
    Settle(d.c, w, f, g);
    var e := Populate(ip => ip == b);
    var reply := Peers(Respond(g, Complete(None, ""), 0));
    OneMore(d, [], e);
    assert [] + [e] == [e];
    OneMore(d, [e], Peers(Resume(f)));
    OneMore(d, [e] + [Peers(Resume(f))], reply);
    OneMore(d, [e] + [Peers(Resume(f))] + [reply], Peers(Resume(g)));
    es := [e] + [Peers(Resume(f))] + [reply] + [Peers(Resume(g))];
  }

  lemma UnsoundLoopCanEnd(d: Node) returns (es: seq<NodeEvent>)
    requires UpdateLoop.Discovers(d.mode) && !d.c.disableDiscovery && !Sound(d)
    ensures Calls(es) == 1 && !Alive(d, es)
  {
    var x, y :| x in d.seeds && Origin(d)(y) && x != y && d.c.whitelisted(x) && d.c.whitelisted(y)
                && (d.c.subnet(x).None? || d.c.subnet(y).None?);
    var front, a, b, k := [], x, y, 0;
    if y in d.seeds {
      front, a, b, k := DoomedBySeeds(d, x, y);
    } else {
      front, k := DoomedByDiscovery(d, x, y);
    }
    es := DoomedLoopEnds(d, front, a, b, k);
  }

  /** When does the periodic update go on for ever? With discovery enabled, once called it always
      has a run in progress or a timer outstanding, after every run of the node, exactly if the
      minimum number of peers is ignored or at most one, or no whitelisted seed is incomparable with
      another whitelisted ip that is a seed or can be discovered. Otherwise already a node that calls
      it only once can fall silent. */
  lemma LoopSurvivesExactlyWhenSeedsParse(d: Node)
    requires UpdateLoop.Discovers(d.mode) && !d.c.disableDiscovery
    ensures (forall es | Calls(es) > 0 :: Alive(d, es)) <==> Sound(d)
    ensures (forall es | Calls(es) == 1 :: Alive(d, es)) <==> Sound(d)
  {
    if Sound(d) {
      forall es | Calls(es) > 0 ensures Alive(d, es) {
        LoopIsATrace(d, es);
        SoundRunsAreNotRejected(d, es);
        UpdateLoop.LoopNeitherDiesNorForks(d.mode, Trace(d, es));
      }
    } else {
      var es := UnsoundLoopCanEnd(d);
      assert !Alive(d, es) && Calls(es) == 1;
    }
  }
}
