/** What the maps hold after a run, told by the events of the run alone: how the reply to a ping
    decides, and which ips are accepted and connected. */
module PeerHistory {
  import opened Options
  import opened Admission
  import opened PeerProtocol

  // ----- The reply decides -----

  lemma AfterConcat(c: Config, es: seq<Event>, e: Event)
    ensures After(c, es + [e]) == Next(c, After(c, es), e)
  {
    assert (es + [e])[..|es|] == es;
  }

  /** The events that can change this operation: its reply while it waits, and afterwards its
      resumption. */
  predicate Concerns(o: Op, op: nat, e: Event) {
    if o.phase.Waiting? then e.Respond? && e.op == op else e == Resume(op)
  }

  lemma StepLeavesOperation(c: Config, w: World, e: Event, op: nat)
    requires op in w.ops && !Concerns(w.ops[op], op, e)
    ensures op in Next(c, w, e).ops && Next(c, w, e).ops[op] == w.ops[op]
  {
  }

  /** Whatever else happens, an operation in flight stays as it is. */
  lemma {:induction false} OperationStays(c: Config, es: seq<Event>, mid: seq<Event>, op: nat)
    requires op in After(c, es).ops && forall e | e in mid :: !Concerns(After(c, es).ops[op], op, e)
    ensures op in After(c, es + mid).ops && After(c, es + mid).ops[op] == After(c, es).ops[op]
  {
    if mid == [] {
      assert es + mid == es;
    } else {
      var front, e := mid[..|mid| - 1], mid[|mid| - 1];
      assert mid == front + [e];
      OperationStays(c, es, front, op);
      assert es + mid == (es + front) + [e];
      AfterConcat(c, es + front, e);
      StepLeavesOperation(c, After(c, es + front), e, op);
    }
  }

  lemma StepKeepsIp(c: Config, w: World, e: Event, id: nat)
    requires id in w.peers
    ensures id in Next(c, w, e).peers && Next(c, w, e).peers[id].ip == w.peers[id].ip
  {
  }

  /** Peer objects keep their ip. */
  lemma {:induction false} IpStays(c: Config, es: seq<Event>, mid: seq<Event>, id: nat)
    requires id in After(c, es).peers
    ensures id in After(c, es + mid).peers && After(c, es + mid).peers[id].ip == After(c, es).peers[id].ip
  {
    if mid == [] {
      assert es + mid == es;
    } else {
      var front, e := mid[..|mid| - 1], mid[|mid| - 1];
      IpStays(c, es, front, id);
      assert es + mid == (es + front) + [e];
      AfterConcat(c, es + front, e);
      StepKeepsIp(c, After(c, es + front), e, id);
    }
  }

  /** The reply to a ping of an accepted peer decides, whatever happens before the caller resumes:
      after a complete one nothing changes, and after any other the ip of the pinged peer is
      neither accepted nor connected. The reply alone changes neither map. */
  lemma RepliesDecidePings(c: Config, es: seq<Event>, op: nat, reply: Reply, now: int, mid: seq<Event>)
    requires op in After(c, es).ops && After(c, es).ops[op].Pinging? && After(c, es).ops[op].phase.Waiting?
    requires Resume(op) !in mid
    ensures
      var w := After(c, es);
      var told := es + [Respond(op, reply, now)];
      var n, m := After(c, told + mid).net, After(c, told + mid + [Resume(op)]).net;
      && w.ops[op].peer in w.peers && After(c, told).net == w.net
      && m == (if reply.Complete? then n
               else
                 var ip := w.peers[w.ops[op].peer].ip;
                 Net(n.accepted - {ip}, n.pending, n.connected - {ip}))
      && op !in After(c, told + mid + [Resume(op)]).ops
  {
    var told := es + [Respond(op, reply, now)];
    RunKeepsInv(c, es);
    assert OpOk(After(c, es), op);
    AfterConcat(c, es, Respond(op, reply, now));
    OperationStays(c, told, mid, op);
    IpStays(c, told, mid, After(c, es).ops[op].peer);
    AfterConcat(c, told + mid, Resume(op));
  }

  /** The reply to the ping of an acceptance decides, too: the ip is pending no more; after a complete
      one the new peer object is stored and nothing else changes, and after any other the
      connection of the ip is dropped and nothing is stored. */
  lemma RepliesDecideAcceptances(c: Config, es: seq<Event>, op: nat, reply: Reply, now: int, mid: seq<Event>)
    requires op in After(c, es).ops && After(c, es).ops[op].Accepting? && After(c, es).ops[op].phase.Waiting?
    requires Resume(op) !in mid
    ensures
      var a := After(c, es).ops[op];
      var told := es + [Respond(op, reply, now)];
      var n, m := After(c, told + mid).net, After(c, told + mid + [Resume(op)]).net;
      && After(c, told).net == After(c, es).net
      && m == (if reply.Complete? then Net(n.accepted[a.ip := a.peer], n.pending - {a.ip}, n.connected)
               else Net(n.accepted, n.pending - {a.ip}, n.connected - {a.ip}))
      && op !in After(c, told + mid + [Resume(op)]).ops
  {
    var told := es + [Respond(op, reply, now)];
    RunKeepsInv(c, es);
    assert OpOk(After(c, es), op);
    AfterConcat(c, es, Respond(op, reply, now));
    OperationStays(c, told, mid, op);
    IpStays(c, told, mid, After(c, es).ops[op].peer);
    AfterConcat(c, told + mid, Resume(op));
  }

  // ----- Histories -----

  /** Something that begins to hold by `p` and ceases by `q` holds exactly if it has begun and not
      ceased since. */
  lemma {:induction false} History(p: nat -> bool, q: nat -> bool, h: nat -> bool, n: nat)
    requires !h(0) && forall k: nat | k < n :: h(k + 1) <==> p(k) || (h(k) && !q(k))
    ensures h(n) <==> exists k: nat :: k < n && p(k) && forall j: nat | k < j < n :: !q(j)
  {
    if n > 0 {
      History(p, q, h, n - 1);
      assert h(n - 1 + 1) <==> p(n - 1) || (h(n - 1) && !q(n - 1));
      if p(n - 1) {
        assert forall j: nat | n - 1 < j < n :: !q(j);
      } else if h(n - 1) && !q(n - 1) {
        var k: nat :| k < n - 1 && p(k) && forall j: nat | k < j < n - 1 :: !q(j);
        assert forall j: nat | k < j < n :: !q(j);
      }
    }
  }

  /** The event resumes an acceptance of `ip` that was answered in full. */
  ghost predicate Stores(w: World, e: Event, ip: Ip, id: nat) {
    && e.Resume? && e.op in w.ops
    && w.ops[e.op].Accepting? && w.ops[e.op].ip == ip && w.ops[e.op].peer == id && w.ops[e.op].phase.Answered?
  }

  /** The event resumes a failed ping of a peer with this ip, or populates it as a seed. */
  ghost predicate Drops(w: World, e: Event, ip: Ip) {
    || (&& e.Resume? && e.op in w.ops && w.ops[e.op].Pinging? && w.ops[e.op].phase.Failed?
        && w.ops[e.op].peer in w.peers && w.peers[w.ops[e.op].peer].ip == ip)
    || (e.Repopulate? && e.ip == ip && e.peer !in w.peers && e.op !in w.ops)
  }

  /** The event has a connection to `ip` stored: a peer list is fetched or a ping sent to an accepted
      peer, or an ip that may be accepted is. */
  ghost predicate Links(c: Config, w: World, e: Event, ip: Ip) {
    match e
    case FetchPeers(x, linked) => x == ip && linked && ip in w.net.accepted
    case Ping(x, force, now, linked, op) =>
      && x == ip && linked && op !in w.ops && ip in w.net.accepted && w.net.accepted[ip] in w.peers
      && var last := w.peers[w.net.accepted[ip]].lastPinged;
         force || last.None? || now - last.value >= 120000
    case Discover(x, linked, peer, op) =>
      x == ip && linked && peer !in w.peers && op !in w.ops && Eligible(c, w.net, ip)
    case Repopulate(x, linked, peer, op) =>
      x == ip && linked && peer !in w.peers && op !in w.ops && SeedEligible(c, w.net, ip)
    case _ => false
  }

  /** The socket of `ip` goes down, or a failed operation on it is resumed. */
  ghost predicate Unlinks(w: World, e: Event, ip: Ip) {
    || (e.SocketDown? && e.ip == ip)
    || (&& e.Resume? && e.op in w.ops && w.ops[e.op].phase.Failed? && w.ops[e.op].peer in w.peers
        && w.peers[w.ops[e.op].peer].ip == ip)
  }

  lemma StepOfAccepted(c: Config, w: World, e: Event, ip: Ip, id: nat)
    requires PeerProtocol.Inv(c, w)
    ensures
      var a, b := w.net.accepted, Next(c, w, e).net.accepted;
      (ip in b && b[ip] == id) <==> Stores(w, e, ip, id) || (ip in a && a[ip] == id && !Drops(w, e, ip))
  {
    if e.Resume? && e.op in w.ops { assert OpOk(w, e.op); }
  }

  lemma StepOfConnected(c: Config, w: World, e: Event, ip: Ip)
    requires PeerProtocol.Inv(c, w)
    ensures ip in Next(c, w, e).net.connected <==>
      Links(c, w, e, ip) || (ip in w.net.connected && !Unlinks(w, e, ip))
  {
    if e.Resume? && e.op in w.ops { assert OpOk(w, e.op); }
    if e.Discover? { StartsMeans(c, w.net, e.ip); }
    if e.Repopulate? { SeedStartsMeans(c, w.net, e.ip); }
  }

  lemma StartsMeans(c: Config, n: Net<nat>, ip: Ip)
    ensures Starts(c, n, ip, false) <==> Eligible(c, n, ip)
  {
    assert SameSubnet(c, n, ip) == set q | q in n.accepted && c.subnet(q) == c.subnet(ip);
  }

  lemma SeedStartsMeans(c: Config, n: Net<nat>, ip: Ip)
    ensures Starts(c, ForgetPeer(n, ip), ip, true) <==> SeedEligible(c, n, ip)
  {
    assert forall q :: q in ForgetPeer(n, ip).accepted <==> q in n.accepted && q != ip;
  }

  ghost predicate StoresAt(c: Config, es: seq<Event>, k: nat, ip: Ip, id: nat) {
    k < |es| && Stores(After(c, es[..k]), es[k], ip, id)
  }

  ghost predicate DropsAt(c: Config, es: seq<Event>, k: nat, ip: Ip) {
    k < |es| && Drops(After(c, es[..k]), es[k], ip)
  }

  ghost predicate LinksAt(c: Config, es: seq<Event>, k: nat, ip: Ip) {
    k < |es| && Links(c, After(c, es[..k]), es[k], ip)
  }

  ghost predicate UnlinksAt(c: Config, es: seq<Event>, k: nat, ip: Ip) {
    k < |es| && Unlinks(After(c, es[..k]), es[k], ip)
  }

  ghost predicate AcceptedAt(c: Config, es: seq<Event>, k: nat, ip: Ip, id: nat) {
    k <= |es| && var a := After(c, es[..k]).net.accepted; ip in a && a[ip] == id
  }

  ghost predicate ConnectedAt(c: Config, es: seq<Event>, k: nat, ip: Ip) {
    k <= |es| && ip in After(c, es[..k]).net.connected
  }

  /** A peer object is the accepted one of its ip exactly if its own acceptance was answered in full
      and resumed, and since then no ping of that ip has failed and it was not populated as a seed. */
  lemma AcceptedHistory(c: Config, es: seq<Event>, ip: Ip, id: nat)
    ensures (ip in After(c, es).net.accepted && After(c, es).net.accepted[ip] == id) <==>
      exists k: nat :: k < |es| && StoresAt(c, es, k, ip, id) && forall j: nat | k < j < |es| :: !DropsAt(c, es, j, ip)
  {
    forall k: nat | k < |es|
      ensures AcceptedAt(c, es, k + 1, ip, id) <==>
        StoresAt(c, es, k, ip, id) || (AcceptedAt(c, es, k, ip, id) && !DropsAt(c, es, k, ip))
    {
      RunKeepsInv(c, es[..k]);
      NextAfter(c, es, k);
      StepOfAccepted(c, After(c, es[..k]), es[k], ip, id);
    }
    assert es[..|es|] == es;
    var p, q := (k: nat) => StoresAt(c, es, k, ip, id), (k: nat) => DropsAt(c, es, k, ip);
    var h := (k: nat) => AcceptedAt(c, es, k, ip, id);
    assert forall k: nat :: p(k) <==> StoresAt(c, es, k, ip, id);
    assert forall k: nat :: q(k) <==> DropsAt(c, es, k, ip);
    History(p, q, h, |es|);
    assert h(|es|) <==> AcceptedAt(c, es, |es|, ip, id);
  }

  /** An ip is connected exactly if a connection was stored for it and since then its socket has not
      gone down and no operation on it has failed. */
  lemma ConnectedHistory(c: Config, es: seq<Event>, ip: Ip)
    ensures ip in After(c, es).net.connected <==>
      exists k: nat :: k < |es| && LinksAt(c, es, k, ip) && forall j: nat | k < j < |es| :: !UnlinksAt(c, es, j, ip)
  {
    forall k: nat | k < |es|
      ensures ConnectedAt(c, es, k + 1, ip) <==>
        LinksAt(c, es, k, ip) || (ConnectedAt(c, es, k, ip) && !UnlinksAt(c, es, k, ip))
    {
      RunKeepsInv(c, es[..k]);
      NextAfter(c, es, k);
      StepOfConnected(c, After(c, es[..k]), es[k], ip);
    }
    assert es[..|es|] == es;
    var p, q := (k: nat) => LinksAt(c, es, k, ip), (k: nat) => UnlinksAt(c, es, k, ip);
    var h := (k: nat) => ConnectedAt(c, es, k, ip);
    assert forall k: nat :: p(k) <==> LinksAt(c, es, k, ip);
    assert forall k: nat :: q(k) <==> UnlinksAt(c, es, k, ip);
    History(p, q, h, |es|);
    assert h(|es|) <==> ConnectedAt(c, es, |es|, ip);
  }
}
