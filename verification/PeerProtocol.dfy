/** The peer-to-peer code as a transition system.

    JavaScript runs an async function without interruption up to its first await, so each
    event below is one such stretch. A run is any sequence of events: any interleaving of
    acceptances, pings, peer-list requests, seed re-population and socket failures, for any
    ips, answers and clock readings. An event that does not apply leaves the world alone. */
module PeerProtocol {
  import opened Options
  import opened Admission

  /** An awaited ping: the socket has not answered, or it has and the caller has yet to resume. */
  datatype Phase = Waiting | Answered | Failed

  datatype Op =
    | Accepting(ip: Ip, seed: bool, peer: nat, phase: Phase)
    | Pinging(peer: nat, phase: Phase)

  /** `peers` holds every peer object ever created, by identity; `ops` the operations in flight;
      `seeds` the peer objects that were created by a seed acceptance. */
  datatype World = World(net: Net<nat>, peers: map<nat, PeerInfo>, ops: map<nat, Op>, seeds: set<nat>)

  /** New identities (`peer`, `op`) are chosen by the event and must be unused. */
  datatype Event =
    | Discover(ip: Ip, linked: bool, peer: nat, op: nat)
    | Repopulate(ip: Ip, linked: bool, peer: nat, op: nat)
    | Ping(ip: Ip, force: bool, now: int, linked: bool, op: nat)
    | FetchPeers(ip: Ip, linked: bool)
    | Respond(op: nat, reply: Reply, now: int)
    | Resume(op: nat)
    | SocketDown(ip: Ip)

  const INITIAL := World(Net(map[], {}, {}), map[], map[], {})

  /** A request whose connection could not be linked has already failed. */
  function FirstPhase(linked: bool): Phase {
    if linked then Waiting else Failed
  }

  function Accept(c: Config, w: World, ip: Ip, seed: bool, linked: bool, peer: nat, op: nat): World {
    if !Starts(c, w.net, ip, seed) then w
    else World(
        Begin(c, w.net, ip, seed, linked),
        w.peers[peer := FreshPeer(ip)],
        w.ops[op := Accepting(ip, seed, peer, FirstPhase(linked))],
        if seed then w.seeds + {peer} else w.seeds)
  }

  function StartPing(w: World, ip: Ip, force: bool, now: int, linked: bool, op: nat): World
    requires ip in w.net.accepted && w.net.accepted[ip] in w.peers
  {
    var id := w.net.accepted[ip];
    if RecentlyPinged(w.peers[id], now) && !force then w
    else w.(net := Connect(w.net, ip, linked), ops := w.ops[op := Pinging(id, FirstPhase(linked))])
  }

  function Answer(w: World, op: nat, reply: Reply, now: int): World
    requires op in w.ops && w.ops[op].peer in w.peers
  {
    var id := w.ops[op].peer;
    var phase := if Succeeds(reply) then Answered else Failed;
    w.(peers := w.peers[id := ApplyReply(w.peers[id], reply, now)],
       ops := w.ops[op := w.ops[op].(phase := phase)])
  }

  function Continue(w: World, op: nat): World
    requires op in w.ops && w.ops[op].peer in w.peers
  {
    var rest := w.ops - {op};
    match w.ops[op]
    case Accepting(ip, _, peer, Answered) => w.(net := Store(w.net, ip, peer), ops := rest)
    case Accepting(ip, _, _, Failed) => w.(net := Reject(w.net, ip), ops := rest)
    case Pinging(_, Answered) => w.(ops := rest)
    case Pinging(peer, Failed) => w.(net := DropPeer(w.net, w.peers[peer].ip), ops := rest)
    case _ => w
  }

  function Next(c: Config, w: World, e: Event): World {
    match e
    case Discover(ip, linked, peer, op) =>
      if peer in w.peers || op in w.ops then w else Accept(c, w, ip, false, linked, peer, op)
    case Repopulate(ip, linked, peer, op) =>
      if peer in w.peers || op in w.ops then w
      else Accept(c, w.(net := ForgetPeer(w.net, ip)), ip, true, linked, peer, op)
    case Ping(ip, force, now, linked, op) =>
      if ip in w.net.accepted && w.net.accepted[ip] in w.peers && op !in w.ops
      then StartPing(w, ip, force, now, linked, op) else w
    case FetchPeers(ip, linked) =>
      if ip in w.net.accepted then w.(net := Connect(w.net, ip, linked)) else w
    case Respond(op, reply, now) =>
      if op in w.ops && w.ops[op].peer in w.peers && w.ops[op].phase.Waiting?
      then Answer(w, op, reply, now) else w
    case Resume(op) =>
      if op in w.ops && w.ops[op].peer in w.peers then Continue(w, op) else w
    case SocketDown(ip) => w.(net := Disconnect(w.net, ip))
  }

  /** The world after a run. */
  function After(c: Config, es: seq<Event>): World {
    if es == [] then INITIAL else Next(c, After(c, es[..|es| - 1]), es[|es| - 1])
  }

  // ----- The invariant -----

  ghost predicate HasAnswered(w: World, id: nat) {
    id in w.peers && w.peers[id].lastPinged.Some? && w.peers[id].plugins.Some?
  }

  /** Accepted and pending ips passed the filter, and are apart. */
  ghost predicate MapsOk(c: Config, n: Net<nat>) {
    && n.accepted.Keys !! n.pending
    && (forall ip | ip in n.accepted :: c.whitelisted(ip) && !c.disableDiscovery)
    && (forall ip | ip in n.pending :: c.whitelisted(ip) && !c.disableDiscovery)
  }

  ghost predicate AcceptedOk(w: World) {
    forall ip | ip in w.net.accepted ::
      HasAnswered(w, w.net.accepted[ip]) && w.peers[w.net.accepted[ip]].ip == ip
  }

  ghost predicate OpOk(w: World, op: nat)
    requires op in w.ops
  {
    match w.ops[op]
    case Accepting(ip, _, peer, phase) =>
      && ip in w.net.pending && peer in w.peers && w.peers[peer].ip == ip
      && (phase.Answered? ==> HasAnswered(w, peer))
    case Pinging(peer, _) => HasAnswered(w, peer)
  }

  /** Two acceptances in flight are for different ips. */
  ghost predicate OneAcceptancePerIp(w: World) {
    forall a, b | a in w.ops && b in w.ops && a != b && w.ops[a].Accepting? && w.ops[b].Accepting? ::
      w.ops[a].ip != w.ops[b].ip
  }

  ghost predicate BeingAccepted(w: World, ip: Ip) {
    exists op :: op in w.ops && w.ops[op].Accepting? && w.ops[op].ip == ip
  }

  ghost predicate Inv(c: Config, w: World) {
    && MapsOk(c, w.net)
    && AcceptedOk(w)
    && (forall op | op in w.ops :: OpOk(w, op))
    && OneAcceptancePerIp(w)
    && (forall ip | ip in w.net.pending :: BeingAccepted(w, ip))
  }

  lemma AcceptKeepsInv(c: Config, w: World, ip: Ip, seed: bool, linked: bool, peer: nat, op: nat)
    requires Inv(c, w) && peer !in w.peers && op !in w.ops
    ensures Inv(c, Accept(c, w, ip, seed, linked, peer, op))
  {
    var v := Accept(c, w, ip, seed, linked, peer, op);
    if Starts(c, w.net, ip, seed) {
      assert op in v.ops && v.ops[op].ip == ip;
      forall q | q in v.net.pending ensures BeingAccepted(v, q) {
        if q != ip {
          var o :| o in w.ops && w.ops[o].Accepting? && w.ops[o].ip == q;
          assert o in v.ops && v.ops[o] == w.ops[o];
        }
      }
      forall o | o in v.ops ensures OpOk(v, o) {
        if o != op { assert OpOk(w, o); }
      }
    }
  }

  lemma ForgetKeepsInv(c: Config, w: World, ip: Ip)
    requires Inv(c, w)
    ensures Inv(c, w.(net := ForgetPeer(w.net, ip)))
  {
    var v := w.(net := ForgetPeer(w.net, ip));
    forall o | o in v.ops ensures OpOk(v, o) {
      assert OpOk(w, o);
    }
    forall q | q in v.net.pending ensures BeingAccepted(v, q) {
      assert BeingAccepted(w, q);
    }
  }

  lemma AnswerKeepsInv(c: Config, w: World, op: nat, reply: Reply, now: int)
    requires Inv(c, w) && op in w.ops && w.ops[op].peer in w.peers
    ensures Inv(c, Answer(w, op, reply, now))
  {
    var v := Answer(w, op, reply, now);
    assert forall id | HasAnswered(w, id) :: HasAnswered(v, id);
    forall o | o in v.ops ensures OpOk(v, o) {
      assert OpOk(w, o);
    }
    forall q | q in v.net.pending ensures BeingAccepted(v, q) {
      var o :| o in w.ops && w.ops[o].Accepting? && w.ops[o].ip == q;
      assert o in v.ops && v.ops[o].Accepting? && v.ops[o].ip == q;
    }
  }

  lemma ContinueKeepsInv(c: Config, w: World, op: nat)
    requires Inv(c, w) && op in w.ops && w.ops[op].peer in w.peers
    ensures Inv(c, Continue(w, op))
  {
    var v := Continue(w, op);
    assert OpOk(w, op);
    forall o | o in v.ops ensures OpOk(v, o) {
      assert OpOk(w, o);
    }
    forall q | q in v.net.pending ensures BeingAccepted(v, q) {
      var o :| o in w.ops && w.ops[o].Accepting? && w.ops[o].ip == q;
      assert o in v.ops && v.ops[o] == w.ops[o];
    }
  }

  lemma StartPingKeepsInv(c: Config, w: World, ip: Ip, force: bool, now: int, linked: bool, op: nat)
    requires Inv(c, w) && ip in w.net.accepted && w.net.accepted[ip] in w.peers && op !in w.ops
    ensures Inv(c, StartPing(w, ip, force, now, linked, op))
  {
    var v := StartPing(w, ip, force, now, linked, op);
    forall o | o in v.ops ensures OpOk(v, o) {
      if o in w.ops { assert OpOk(w, o); }
    }
    forall q | q in v.net.pending ensures BeingAccepted(v, q) {
      var o :| o in w.ops && w.ops[o].Accepting? && w.ops[o].ip == q;
      assert o in v.ops && v.ops[o] == w.ops[o];
    }
  }

  lemma ConnectedKeepsInv(c: Config, w: World, connected: set<Ip>)
    requires Inv(c, w)
    ensures Inv(c, w.(net := w.net.(connected := connected)))
  {
    var v := w.(net := w.net.(connected := connected));
    forall o | o in v.ops ensures OpOk(v, o) {
      assert OpOk(w, o);
    }
    forall q | q in v.net.pending ensures BeingAccepted(v, q) {
      assert BeingAccepted(w, q);
    }
  }

  lemma StepKeepsInv(c: Config, w: World, e: Event)
    requires Inv(c, w)
    ensures Inv(c, Next(c, w, e))
  {
    match e
    case Discover(ip, linked, peer, op) =>
      if peer !in w.peers && op !in w.ops { AcceptKeepsInv(c, w, ip, false, linked, peer, op); }
    case Repopulate(ip, linked, peer, op) =>
      if peer !in w.peers && op !in w.ops {
        ForgetKeepsInv(c, w, ip);
        AcceptKeepsInv(c, w.(net := ForgetPeer(w.net, ip)), ip, true, linked, peer, op);
      }
    case Ping(ip, force, now, linked, op) =>
      if ip in w.net.accepted && w.net.accepted[ip] in w.peers && op !in w.ops {
        StartPingKeepsInv(c, w, ip, force, now, linked, op);
      }
    case FetchPeers(ip, linked) =>
      if ip in w.net.accepted { ConnectedKeepsInv(c, w, Connect(w.net, ip, linked).connected); }
    case Respond(op, reply, now) =>
      if op in w.ops && w.ops[op].peer in w.peers && w.ops[op].phase.Waiting? {
        AnswerKeepsInv(c, w, op, reply, now);
      }
    case Resume(op) =>
      if op in w.ops && w.ops[op].peer in w.peers { ContinueKeepsInv(c, w, op); }
    case SocketDown(ip) =>
      ConnectedKeepsInv(c, w, w.net.connected - {ip});
  }

  lemma {:induction false} RunKeepsInv(c: Config, es: seq<Event>)
    ensures Inv(c, After(c, es))
  {
    if es != [] {
      RunKeepsInv(c, es[..|es| - 1]);
      StepKeepsInv(c, After(c, es[..|es| - 1]), es[|es| - 1]);
    }
  }

  // ----- Connections -----

  /** Every stored connection belongs to an accepted or a pending peer. */
  ghost predicate ConnectionsOwned(n: Net<nat>) {
    n.connected <= n.accepted.Keys + n.pending
  }

  /** A seed that was accepted and is forgotten becomes pending in the same stretch: the filter
      cannot turn it down, because it passed when the peer was accepted, unless it throws. */
  lemma RepopulateKeepsOwners(c: Config, w: World, ip: Ip, linked: bool, peer: nat, op: nat)
    requires MapsOk(c, w.net) && ConnectionsOwned(w.net)
    requires ip in w.net.accepted && ip in w.net.connected ==> !SubnetThrows(c, ForgetPeer(w.net, ip), ip)
    ensures ConnectionsOwned(Accept(c, w.(net := ForgetPeer(w.net, ip)), ip, true, linked, peer, op).net)
  {
    var n := ForgetPeer(w.net, ip);
    if ip in w.net.accepted && ip in w.net.connected {
      assert Starts(c, n, ip, true);
    }
  }

  /** The event populates a seed that is accepted and connected and cannot be compared with
      another accepted peer. */
  ghost predicate Orphans(c: Config, w: World, e: Event) {
    && e.Repopulate? && e.peer !in w.peers && e.op !in w.ops
    && e.ip in w.net.accepted && e.ip in w.net.connected
    && SubnetThrows(c, ForgetPeer(w.net, e.ip), e.ip)
  }

  lemma StepKeepsOwners(c: Config, w: World, e: Event)
    requires MapsOk(c, w.net) && ConnectionsOwned(w.net)
    ensures ConnectionsOwned(Next(c, w, e).net) <==> !Orphans(c, w, e)
  {
    if e.Repopulate? && e.peer !in w.peers && e.op !in w.ops {
      if Orphans(c, w, e) {
        assert e.ip in Next(c, w, e).net.connected;
      } else {
        RepopulateKeepsOwners(c, w, e.ip, e.linked, e.peer, e.op);
      }
    }
  }

  ghost predicate OrphansAt(c: Config, es: seq<Event>, k: nat) {
    k < |es| && Orphans(c, After(c, es[..k]), es[k])
  }

  ghost predicate OwnedUpTo(c: Config, es: seq<Event>, k: nat) {
    k <= |es| ==> ConnectionsOwned(After(c, es[..k]).net)
  }

  lemma {:induction false} OwnedBefore(c: Config, es: seq<Event>, k: nat)
    requires k <= |es| && forall j: nat | j < k :: !OrphansAt(c, es, j)
    ensures ConnectionsOwned(After(c, es[..k]).net)
  {
    if k > 0 {
      OwnedBefore(c, es, k - 1);
      RunKeepsInv(c, es[..k - 1]);
      NextAfter(c, es, k - 1);
      assert !OrphansAt(c, es, k - 1);
      StepKeepsOwners(c, After(c, es[..k - 1]), es[k - 1]);
    }
  }

  /** For every single run: each stored connection has an owner all along, exactly if the run never
      populates an accepted and connected seed that cannot be compared with another accepted peer. */
  lemma ConnectionsOwnedAllAlong(c: Config, es: seq<Event>)
    ensures (forall k: nat :: OwnedUpTo(c, es, k)) <==> forall k: nat :: !OrphansAt(c, es, k)
  {
    if forall k: nat :: !OrphansAt(c, es, k) {
      forall k: nat ensures OwnedUpTo(c, es, k) {
        if k <= |es| { OwnedBefore(c, es, k); }
      }
    } else if forall k: nat :: OwnedUpTo(c, es, k) {
      var k: nat :| OrphansAt(c, es, k);
      RunKeepsInv(c, es[..k]);
      NextAfter(c, es, k);
      assert OwnedUpTo(c, es, k) && OwnedUpTo(c, es, k + 1);
      StepKeepsOwners(c, After(c, es[..k]), es[k]);
    }
  }

  // ----- Where the ips come from -----

  /** The ips that the run tries to accept are known. */
  ghost predicate KnownOnly(es: seq<Event>, known: Ip -> bool) {
    forall e | e in es && (e.Discover? || e.Repopulate?) :: known(e.ip)
  }

  ghost predicate AllFrom(n: Net<nat>, known: Ip -> bool) {
    forall ip | ip in n.accepted || ip in n.pending :: known(ip)
  }

  /** Only an ip that passes the filter can become accepted or pending. */
  lemma StepKeepsOrigin(c: Config, w: World, e: Event, known: Ip -> bool)
    requires Inv(c, w) && AllFrom(w.net, known)
    requires e.Discover? && Starts(c, w.net, e.ip, false) ==> known(e.ip)
    requires e.Repopulate? ==> known(e.ip)
    ensures AllFrom(Next(c, w, e).net, known)
  {
    if e.Resume? && e.op in w.ops { assert OpOk(w, e.op); }
  }

  lemma {:induction false} RunKeepsOrigin(c: Config, es: seq<Event>, known: Ip -> bool)
    requires KnownOnly(es, known)
    ensures AllFrom(After(c, es).net, known)
  {
    if es != [] {
      var before, e := es[..|es| - 1], es[|es| - 1];
      assert e in es;
      RunKeepsOrigin(c, before, known);
      RunKeepsInv(c, before);
      StepKeepsOrigin(c, After(c, before), e, known);
    }
  }

  /** Of any two known ips that the whitelist lets through, both are addresses. */
  ghost predicate AddressesParse(c: Config, known: Ip -> bool) {
    forall x, y | x != y && known(x) && known(y) && c.whitelisted(x) && c.whitelisted(y) :: c.subnet(x).Some?
  }

  lemma ParsedAddressesNeverThrow(c: Config, n: Net<nat>, ip: Ip, known: Ip -> bool)
    requires MapsOk(c, n) && AllFrom(n, known) && AddressesParse(c, known)
    requires known(ip) && c.whitelisted(ip) && ip !in n.accepted
    ensures !SubnetThrows(c, n, ip)
  {
  }

  lemma RunKeepsOwners(c: Config, es: seq<Event>, known: Ip -> bool)
    requires KnownOnly(es, known) && (c.disableDiscovery || AddressesParse(c, known))
    ensures ConnectionsOwned(After(c, es).net)
  {
    forall k: nat | k < |es| ensures !OrphansAt(c, es, k) {
      var w := After(c, es[..k]);
      RunKeepsInv(c, es[..k]);
      RunKeepsOrigin(c, es[..k], known);
      assert es[k] in es;
      if Orphans(c, w, es[k]) {
        ParsedAddressesNeverThrow(c, ForgetPeer(w.net, es[k].ip), es[k].ip, known);
      }
    }
    OwnedBefore(c, es, |es|);
    assert es[..|es|] == es;
  }

  lemma NextAfter(c: Config, es: seq<Event>, k: nat)
    requires k < |es|
    ensures After(c, es[..k + 1]) == Next(c, After(c, es[..k]), es[k])
  {
    assert es[..k + 1][..k] == es[..k];
  }

  /** Two seeds are accepted together, one of them no address; when that one is populated again,
      it is forgotten and the subnet check throws. */
  function OrphaningRun(x: Ip, y: Ip): seq<Event> {
    var data := Complete(None, "");
    [Repopulate(x, true, 0, 0), Repopulate(y, true, 1, 1), Respond(0, data, 0), Respond(1, data, 0),
     Resume(0), Resume(1), Repopulate(x, true, 2, 2)]
  }

  function BothInFlight(x: Ip, y: Ip, p: Phase, a: PeerInfo, b: PeerInfo): World {
    World(Net(map[], {x, y}, {x, y}), map[0 := a, 1 := b],
          map[0 := Accepting(x, true, 0, p), 1 := Accepting(y, true, 1, p)], {0, 1})
  }

  function OneInFlight(x: Ip): World {
    World(Net(map[], {x}, {x}), map[0 := FreshPeer(x)], map[0 := Accepting(x, true, 0, Waiting)], {0})
  }

  lemma OneStarts(c: Config, x: Ip)
    requires !c.disableDiscovery && c.whitelisted(x)
    ensures Next(c, INITIAL, Repopulate(x, true, 0, 0)) == OneInFlight(x)
  {
    assert ForgetPeer(INITIAL.net, x) == INITIAL.net;
    assert Starts(c, INITIAL.net, x, true);
  }

  lemma OtherStarts(c: Config, x: Ip, y: Ip)
    requires !c.disableDiscovery && x != y && c.whitelisted(y)
    ensures Next(c, OneInFlight(x), Repopulate(y, true, 1, 1)) ==
      BothInFlight(x, y, Waiting, FreshPeer(x), FreshPeer(y))
  {
    var n := OneInFlight(x).net;
    assert ForgetPeer(n, y) == n;
    assert Starts(c, n, y, true);
  }

  lemma BothStart(c: Config, x: Ip, y: Ip)
    requires !c.disableDiscovery && x != y && c.whitelisted(x) && c.whitelisted(y)
    ensures After(c, OrphaningRun(x, y)[..2]) == BothInFlight(x, y, Waiting, FreshPeer(x), FreshPeer(y))
  {
    var es := OrphaningRun(x, y);
    NextAfter(c, es, 0);
    OneStarts(c, x);
    NextAfter(c, es, 1);
    OtherStarts(c, x, y);
  }

  /** The two answers and the two resumptions. */
  lemma BothAnswer(x: Ip, y: Ip)
    ensures
      var a, b := PeerInfo(x, Some(0), None, Some("")), PeerInfo(y, Some(0), None, Some(""));
      var u := Answer(BothInFlight(x, y, Waiting, FreshPeer(x), FreshPeer(y)), 0, Complete(None, ""), 0);
      && u.ops.Keys == u.peers.Keys == {0, 1} && u.ops[1] == Accepting(y, true, 1, Waiting)
      && Answer(u, 1, Complete(None, ""), 0) == BothInFlight(x, y, Answered, a, b)
  {
  }

  lemma BothResume(x: Ip, y: Ip, a: PeerInfo, b: PeerInfo)
    requires x != y
    ensures
      var v := Continue(BothInFlight(x, y, Answered, a, b), 0);
      && v == World(Net(map[x := 0], {y}, {x, y}), map[0 := a, 1 := b],
                    map[1 := Accepting(y, true, 1, Answered)], {0, 1})
      && Continue(v, 1) == World(Net(map[x := 0, y := 1], {}, {x, y}), map[0 := a, 1 := b], map[], {0, 1})
  {
    var w := BothInFlight(x, y, Answered, a, b);
    assert w.ops - {0} == map[1 := Accepting(y, true, 1, Answered)];
    assert w.net.pending - {x} == {y};
    var v := Continue(w, 0);
    assert v.ops - {1} == map[] && v.net.pending - {y} == {};
  }

  lemma BothHaveAnswered(c: Config, x: Ip, y: Ip)
    requires !c.disableDiscovery && x != y && c.whitelisted(x) && c.whitelisted(y)
    ensures After(c, OrphaningRun(x, y)[..4]) ==
      BothInFlight(x, y, Answered, PeerInfo(x, Some(0), None, Some("")), PeerInfo(y, Some(0), None, Some("")))
  {
    var es := OrphaningRun(x, y);
    BothStart(c, x, y);
    BothAnswer(x, y);
    NextAfter(c, es, 2);
    var u := Answer(After(c, es[..2]), 0, es[2].reply, 0);
    assert After(c, es[..3]) == u;
    NextAfter(c, es, 3);
  }

  lemma BothAreAccepted(c: Config, x: Ip, y: Ip)
    requires !c.disableDiscovery && x != y && c.whitelisted(x) && c.whitelisted(y)
    ensures var w := After(c, OrphaningRun(x, y)[..6]);
      w.net == Net(map[x := 0, y := 1], {}, {x, y}) && w.peers.Keys == {0, 1} && w.ops == map[]
  {
    var es := OrphaningRun(x, y);
    BothHaveAnswered(c, x, y);
    BothResume(x, y, PeerInfo(x, Some(0), None, Some("")), PeerInfo(y, Some(0), None, Some("")));
    NextAfter(c, es, 4);
    assert After(c, es[..5]) == Continue(After(c, es[..4]), 0);
    NextAfter(c, es, 5);
  }

  lemma OrphanedConnection(c: Config, x: Ip, y: Ip)
    requires !c.disableDiscovery && x != y && c.whitelisted(x) && c.whitelisted(y)
    requires c.subnet(x).None? || c.subnet(y).None?
    ensures var w := After(c, OrphaningRun(x, y));
      x in w.net.connected && x !in w.net.accepted && x !in w.net.pending && w.ops == map[]
  {
    var es := OrphaningRun(x, y);
    BothAreAccepted(c, x, y);
    NextAfter(c, es, 6);
    assert y in ForgetPeer(After(c, es[..6]).net, x).accepted;
    assert es[..7] == es;
  }

  /** Whatever ips are known, for instance all addresses: after every run over them each stored
      connection has an owner, exactly if discovery is disabled or no two of them pass the whitelist
      of which one is no address. */
  lemma ConnectionsOwnedExactlyWhenAddressesParse(c: Config, known: Ip -> bool)
    ensures (forall es | KnownOnly(es, known) :: ConnectionsOwned(After(c, es).net))
      <==> c.disableDiscovery || AddressesParse(c, known)
  {
    if c.disableDiscovery || AddressesParse(c, known) {
      forall es | KnownOnly(es, known) ensures ConnectionsOwned(After(c, es).net) {
        RunKeepsOwners(c, es, known);
      }
    } else {
      var x, y :| x != y && known(x) && known(y) && c.whitelisted(x) && c.whitelisted(y) && c.subnet(x).None?;
      OrphanedConnection(c, x, y);
      assert KnownOnly(OrphaningRun(x, y), known);
      assert !ConnectionsOwned(After(c, OrphaningRun(x, y)).net);
    }
  }

  /** If no acceptance is in flight, each stored connection belongs to an accepted peer. */
  ghost predicate IdleConnectionsAccepted(w: World) {
    Acceptances(w) == {} ==> w.net.connected <= w.net.accepted.Keys
  }

  /** The same condition decides whether a node at rest holds connections of accepted peers only. */
  lemma IdleConnectionsAreAccepted(c: Config, known: Ip -> bool)
    ensures (forall es | KnownOnly(es, known) :: IdleConnectionsAccepted(After(c, es)))
      <==> c.disableDiscovery || AddressesParse(c, known)
  {
    if c.disableDiscovery || AddressesParse(c, known) {
      forall es | KnownOnly(es, known) ensures IdleConnectionsAccepted(After(c, es)) {
        RunKeepsOwners(c, es, known);
        RunKeepsInv(c, es);
        var w := After(c, es);
        forall ip | ip in w.net.pending ensures Acceptances(w) != {} {
          var op :| op in w.ops && w.ops[op].Accepting? && w.ops[op].ip == ip;
          assert op in Acceptances(w);
        }
      }
    } else {
      var x, y :| x != y && known(x) && known(y) && c.whitelisted(x) && c.whitelisted(y) && c.subnet(x).None?;
      OrphanedConnection(c, x, y);
      assert KnownOnly(OrphaningRun(x, y), known);
      assert !IdleConnectionsAccepted(After(c, OrphaningRun(x, y)));
    }
  }

  // ----- Acceptances and pings -----

  ghost function Acceptances(w: World): set<nat> {
    set op | op in w.ops && w.ops[op].Accepting?
  }

  lemma {:induction false} SameSize(w: World, ops: set<nat>, ips: set<Ip>)
    requires ops <= w.ops.Keys && OneAcceptancePerIp(w)
    requires forall op | op in ops :: w.ops[op].Accepting? && w.ops[op].ip in ips
    requires forall ip | ip in ips :: exists op :: op in ops && w.ops[op].Accepting? && w.ops[op].ip == ip
    ensures |ops| == |ips|
    decreases |ips|
  {
    if ips == {} {
      assert ops == {};
    } else {
      var ip :| ip in ips;
      var op :| op in ops && w.ops[op].Accepting? && w.ops[op].ip == ip;
      forall q | q in ips - {ip}
        ensures exists o :: o in ops - {op} && w.ops[o].Accepting? && w.ops[o].ip == q
      {
        var o :| o in ops && w.ops[o].Accepting? && w.ops[o].ip == q;
        assert o in ops - {op};
      }
      SameSize(w, ops - {op}, ips - {ip});
    }
  }

  lemma AcceptancesMatchPending(c: Config, w: World)
    requires Inv(c, w)
    ensures forall op | op in Acceptances(w) :: w.ops[op].ip in w.net.pending
    ensures forall ip | ip in w.net.pending :: exists op :: op in Acceptances(w) && w.ops[op].ip == ip
    ensures |Acceptances(w)| == |w.net.pending|
  {
    forall op | op in Acceptances(w) ensures w.ops[op].ip in w.net.pending {
      assert OpOk(w, op);
    }
    forall ip | ip in w.net.pending ensures exists op :: op in Acceptances(w) && w.ops[op].ip == ip {
      var op :| op in w.ops && w.ops[op].Accepting? && w.ops[op].ip == ip;
      assert op in Acceptances(w);
    }
    SameSize(w, Acceptances(w), w.net.pending);
  }

  /** Acceptances in flight and pending ips are in one-to-one correspondence, and a pending ip
      is never an accepted one. */
  lemma AcceptancesArePendingPeers(c: Config, es: seq<Event>)
    ensures
      var w := After(c, es);
      && (forall op | op in Acceptances(w) :: w.ops[op].ip in w.net.pending)
      && (forall a, b | a in Acceptances(w) && b in Acceptances(w) && w.ops[a].ip == w.ops[b].ip :: a == b)
      && (forall ip | ip in w.net.pending :: exists op :: op in Acceptances(w) && w.ops[op].ip == ip)
      && |Acceptances(w)| == |w.net.pending|
      && w.net.accepted.Keys !! w.net.pending
  {
    RunKeepsInv(c, es);
    AcceptancesMatchPending(c, After(c, es));
  }

  /** Resuming an acceptance clears its pending entry and the operation, whichever way the ping
      went; the ip ends up accepted if the ping was answered and disconnected otherwise. */
  lemma FinishedAcceptanceClearsPending(c: Config, es: seq<Event>, op: nat)
    requires op in After(c, es).ops && After(c, es).ops[op].Accepting?
    requires !After(c, es).ops[op].phase.Waiting?
    ensures
      var w, v := After(c, es), After(c, es + [Resume(op)]);
      var a := w.ops[op];
      && v.net.pending == w.net.pending - {a.ip}
      && !BeingAccepted(v, a.ip)
      && (a.phase.Answered? ==> a.ip in v.net.accepted && v.net.accepted[a.ip] == a.peer)
      && (a.phase.Failed? ==> a.ip !in v.net.accepted && a.ip !in v.net.connected)
  {
    RunKeepsInv(c, es);
    var w := After(c, es);
    assert OpOk(w, op);
    assert (es + [Resume(op)])[..|es|] == es;
  }

  /** A ping of an accepted peer that failed drops the peer and its connection, even if the ip has
      been accepted anew meanwhile, and one that was answered keeps them; neither touches an
      acceptance that is pending. */
  lemma FinishedPingKeepsOrDrops(c: Config, es: seq<Event>, op: nat)
    requires op in After(c, es).ops && After(c, es).ops[op].Pinging?
    requires !After(c, es).ops[op].phase.Waiting?
    ensures
      var w, v := After(c, es), After(c, es + [Resume(op)]);
      && w.ops[op].peer in w.peers && op !in v.ops && v.net.pending == w.net.pending
      && (w.ops[op].phase.Answered? ==> v.net == w.net)
      && (w.ops[op].phase.Failed? ==>
            var ip := w.peers[w.ops[op].peer].ip;
            && v.net.accepted.Keys == w.net.accepted.Keys - {ip}
            && v.net.connected == w.net.connected - {ip})
  {
    RunKeepsInv(c, es);
    var w := After(c, es);
    assert OpOk(w, op);
    assert (es + [Resume(op)])[..|es|] == es;
  }

  /** The pings that start: a recently pinged peer is skipped unless forced; otherwise the peer
      object that is accepted at that moment is being pinged, over a connection that is stored, or
      the ping has failed already if none can be. Nothing else changes. */
  lemma StartedPing(c: Config, es: seq<Event>, ip: Ip, force: bool, now: int, linked: bool, op: nat)
    requires ip in After(c, es).net.accepted && op !in After(c, es).ops
    ensures
      var w, v := After(c, es), After(c, es + [Ping(ip, force, now, linked, op)]);
      var id := w.net.accepted[ip];
      && id in w.peers && w.peers[id].lastPinged.Some?
      && (if !force && now - w.peers[id].lastPinged.value < 120000 then v == w
          else
            && v.ops == w.ops[op := Pinging(id, if linked then Waiting else Failed)]
            && v.net == w.net.(connected := w.net.connected + if linked then {ip} else {})
            && v.peers == w.peers && v.seeds == w.seeds)
  {
    RunKeepsInv(c, es);
    assert (es + [Ping(ip, force, now, linked, op)])[..|es|] == es;
  }

  // ----- Accepted peers have answered -----

  /** Event `k` of the run delivers data to a ping of this peer object. */
  ghost predicate DeliveredAt(c: Config, es: seq<Event>, k: nat, id: nat) {
    && k < |es| && es[k].Respond? && !es[k].reply.Silent?
    && var w := After(c, es[..k]);
       es[k].op in w.ops && w.ops[es[k].op].phase.Waiting? && w.ops[es[k].op].peer == id && id in w.peers
  }

  /** It is the last event of the run that does. */
  ghost predicate LastDelivered(c: Config, es: seq<Event>, k: nat, id: nat) {
    DeliveredAt(c, es, k, id) && forall j: nat | j > k :: !DeliveredAt(c, es, j, id)
  }

  lemma DeliveredEarlier(c: Config, es: seq<Event>, e: Event, k: nat, id: nat)
    requires k < |es|
    ensures DeliveredAt(c, es + [e], k, id) <==> DeliveredAt(c, es, k, id)
  {
    assert (es + [e])[..k] == es[..k];
  }

  lemma LastDeliveredStays(c: Config, es: seq<Event>, e: Event, k: nat, id: nat)
    requires LastDelivered(c, es, k, id) && !DeliveredAt(c, es + [e], |es|, id)
    ensures LastDelivered(c, es + [e], k, id)
  {
    DeliveredEarlier(c, es, e, k, id);
    forall j: nat | j > k ensures !DeliveredAt(c, es + [e], j, id) {
      if j < |es| { DeliveredEarlier(c, es, e, j, id); }
    }
  }

  ghost predicate Holds(p: PeerInfo, e: Event) {
    e.Respond? && !e.reply.Silent? && p.lastPinged == Some(e.now) && p.status == e.reply.status
  }

  lemma StepDelivers(c: Config, w: World, e: Event, id: nat)
    requires id in Next(c, w, e).peers && Next(c, w, e).peers[id].lastPinged.Some?
    ensures
      var delivers := e.Respond? && !e.reply.Silent? && e.op in w.ops && w.ops[e.op].phase.Waiting?
                      && w.ops[e.op].peer == id && id in w.peers;
      if delivers then Holds(Next(c, w, e).peers[id], e)
      else id in w.peers && w.peers[id] == Next(c, w, e).peers[id]
  {
  }

  /** Whoever was pinged with success holds the time and the state that were delivered last. */
  lemma {:induction false} PeersHoldTheLastReply(c: Config, es: seq<Event>, id: nat) returns (k: nat)
    requires id in After(c, es).peers && After(c, es).peers[id].lastPinged.Some?
    ensures LastDelivered(c, es, k, id) && Holds(After(c, es).peers[id], es[k])
  {
    var last := |es| - 1;
    var before, e := es[..last], es[last];
    assert es == before + [e];
    StepDelivers(c, After(c, before), e, id);
    if DeliveredAt(c, es, last, id) {
      k := last;
    } else {
      k := PeersHoldTheLastReply(c, before, id);
      LastDeliveredStays(c, before, e, k, id);
    }
  }

  /** A peer object to which nothing was delivered is as it was created. */
  lemma {:induction false} UnansweredPeersAreFresh(c: Config, es: seq<Event>, id: nat)
    requires id in After(c, es).peers && forall k: nat :: !DeliveredAt(c, es, k, id)
    ensures var p := After(c, es).peers[id]; p == PeerInfo(p.ip, None, Some(Status(None)), None)
  {
    var last := |es| - 1;
    var before, e := es[..last], es[last];
    assert es == before + [e];
    assert !DeliveredAt(c, es, last, id);
    if id in After(c, before).peers {
      forall k: nat ensures !DeliveredAt(c, before, k, id) {
        if k < |before| { DeliveredEarlier(c, before, e, k, id); }
      }
      UnansweredPeersAreFresh(c, before, id);
    }
  }

  /** Event `k` of the run delivers a complete answer to a ping of this peer object. */
  ghost predicate CompletedAt(c: Config, es: seq<Event>, k: nat, id: nat) {
    DeliveredAt(c, es, k, id) && es[k].reply.Complete?
  }

  ghost predicate LastCompleted(c: Config, es: seq<Event>, k: nat, id: nat) {
    CompletedAt(c, es, k, id) && forall j: nat | j > k :: !CompletedAt(c, es, j, id)
  }

  lemma {:induction false} PeersHoldTheLastPlugins(c: Config, es: seq<Event>, id: nat) returns (k: nat)
    requires id in After(c, es).peers && After(c, es).peers[id].plugins.Some?
    ensures LastCompleted(c, es, k, id) && After(c, es).peers[id].plugins == Some(es[k].reply.plugins)
  {
    var last := |es| - 1;
    var before, e := es[..last], es[last];
    assert es == before + [e];
    if CompletedAt(c, es, last, id) {
      k := last;
    } else {
      k := PeersHoldTheLastPlugins(c, before, id);
      DeliveredEarlier(c, before, e, k, id);
      forall j: nat | j > k ensures !CompletedAt(c, es, j, id) {
        if j < |before| {
          DeliveredEarlier(c, before, e, j, id);
          assert !CompletedAt(c, before, j, id);
        }
      }
    }
  }

  /** Every accepted peer has answered a ping in full. Its time and its state are those of the reply
      that was delivered last to that very peer object, so it has a state exactly if that reply had
      one, and its plugins are those of the last complete one. */
  lemma AcceptedPeersHaveAnswered(c: Config, es: seq<Event>, ip: Ip)
    requires ip in After(c, es).net.accepted
    ensures
      var w := After(c, es);
      var id := w.net.accepted[ip];
      && id in w.peers && w.peers[id].ip == ip && w.peers[id].lastPinged.Some?
      && (exists k: nat :: LastDelivered(c, es, k, id))
      && (forall k: nat | LastDelivered(c, es, k, id) ::
            w.peers[id].lastPinged == Some(es[k].now) && w.peers[id].status == es[k].reply.status)
      && (exists k: nat :: LastCompleted(c, es, k, id))
      && (forall k: nat | LastCompleted(c, es, k, id) :: w.peers[id].plugins == Some(es[k].reply.plugins))
  {
    RunKeepsInv(c, es);
    var id := After(c, es).net.accepted[ip];
    var k := PeersHoldTheLastReply(c, es, id);
    forall j: nat | LastDelivered(c, es, j, id) ensures j == k {
      assert DeliveredAt(c, es, j, id) && DeliveredAt(c, es, k, id);
    }
    var l := PeersHoldTheLastPlugins(c, es, id);
    forall j: nat | LastCompleted(c, es, j, id) ensures j == l {
      assert CompletedAt(c, es, j, id) && CompletedAt(c, es, l, id);
    }
  }

  /** Any whitelisted ip can become the only accepted peer. */
  lemma AloneAccepted(c: Config, ip: Ip) returns (es: seq<Event>)
    requires !c.disableDiscovery && c.whitelisted(ip) && c.maxSameSubnetPeers > 0
    ensures es == [Discover(ip, true, 0, 0), Respond(0, Complete(None, ""), 0), Resume(0)]
    ensures var w := After(c, es);
      w.net.accepted == map[ip := 0] && w.net.pending == {} && 0 in w.peers && w.peers[0].status.None?
  {
    es := [Discover(ip, true, 0, 0), Respond(0, Complete(None, ""), 0), Resume(0)];
    NextAfter(c, es, 0);
    assert SameSubnet(c, INITIAL.net, ip) == {};
    NextAfter(c, es, 1);
    NextAfter(c, es, 2);
    assert es[..3] == es;
  }

  /** The claim that every accepted peer has a state is false: an answer without one is enough to
      be accepted. */
  lemma PeersWithoutStateAreAccepted(c: Config, ip: Ip) returns (es: seq<Event>)
    requires !c.disableDiscovery && c.whitelisted(ip) && c.maxSameSubnetPeers > 0
    ensures var w := After(c, es);
      ip in w.net.accepted && w.net.accepted[ip] in w.peers && w.peers[w.net.accepted[ip]].status.None?
  {
    es := AloneAccepted(c, ip);
  }

  /** Event `k` completes the ping of the acceptance of this peer object. */
  ghost predicate VerifiedAt(c: Config, es: seq<Event>, k: nat, id: nat)
    requires k < |es|
  {
    var w := After(c, es[..k]);
    && es[k].Respond? && es[k].reply.Complete?
    && es[k].op in w.ops && w.ops[es[k].op].Accepting? && w.ops[es[k].op].phase.Waiting?
    && w.ops[es[k].op].peer == id
  }

  ghost predicate Verified(c: Config, es: seq<Event>, id: nat) {
    exists k | 0 <= k < |es| :: VerifiedAt(c, es, k, id)
  }

  lemma VerifiedStays(c: Config, es: seq<Event>, e: Event, id: nat)
    requires Verified(c, es, id)
    ensures Verified(c, es + [e], id)
  {
    var k :| 0 <= k < |es| && VerifiedAt(c, es, k, id);
    assert (es + [e])[..k] == es[..k];
    assert VerifiedAt(c, es + [e], k, id);
  }

  ghost predicate AllVerified(c: Config, es: seq<Event>, w: World) {
    && (forall ip | ip in w.net.accepted :: Verified(c, es, w.net.accepted[ip]))
    && (forall op | op in w.ops && w.ops[op].Accepting? && w.ops[op].phase.Answered? ::
          Verified(c, es, w.ops[op].peer))
  }

  /** The event completes the ping of an acceptance that waits for it. */
  ghost predicate Verifies(w: World, e: Event) {
    e.Respond? && e.reply.Complete? && e.op in w.ops && w.ops[e.op].Accepting? && w.ops[e.op].phase.Waiting?
  }

  lemma StepKeepsVerified(c: Config, es: seq<Event>, w: World, e: Event)
    requires AllVerified(c, es, w)
    requires Verifies(w, e) ==> Verified(c, es, w.ops[e.op].peer)
    ensures AllVerified(c, es, Next(c, w, e))
  {
  }

  /** No peer is stored on a failed transport, an empty response or a malformed one: whatever is
      accepted, or about to be, had its own acceptance answered by complete data while it waited. */
  lemma {:induction false} OnlyCompleteRepliesAreStored(c: Config, es: seq<Event>)
    ensures AllVerified(c, es, After(c, es))
  {
    if es != [] {
      var last := |es| - 1;
      var before, e := es[..last], es[last];
      assert es == before + [e];
      OnlyCompleteRepliesAreStored(c, before);
      var w := After(c, before);
      forall id | Verified(c, before, id) ensures Verified(c, es, id) {
        VerifiedStays(c, before, e, id);
      }
      if Verifies(w, e) {
        assert VerifiedAt(c, es, last, w.ops[e.op].peer);
      }
      StepKeepsVerified(c, es, w, e);
    }
  }
}
