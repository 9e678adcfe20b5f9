/** The two loops that start many acceptances in one synchronous stretch: the peers learned
    by discovery and the seed list. */
module BatchAdmission {
  import opened Options
  import opened Admission
  import opened PeerProtocol

  function Admit<P>(c: Config, n: Net<P>, ip: Ip, seed: bool, linked: Ip -> bool): Net<P> {
    if seed then Reseed(c, n, ip, linked(ip)) else Begin(c, n, ip, false, linked(ip))
  }

  /** `linked(ip)` tells whether a connection to `ip` can be stored. */
  function AdmitAll<P>(c: Config, n: Net<P>, ips: seq<Ip>, seed: bool, linked: Ip -> bool): Net<P> {
    if ips == [] then n
    else Admit(c, AdmitAll(c, n, ips[..|ips| - 1], seed, linked), ips[|ips| - 1], seed, linked)
  }

  ghost function Elements(ips: seq<Ip>): set<Ip> {
    set ip | ip in ips
  }

  lemma ElementsOfLast(ips: seq<Ip>)
    requires ips != []
    ensures Elements(ips) == Elements(ips[..|ips| - 1]) + {ips[|ips| - 1]}
  {
    assert ips == ips[..|ips| - 1] + [ips[|ips| - 1]];
  }

  ghost function Added<P>(c: Config, n: Net<P>, ips: seq<Ip>): set<Ip> {
    set ip | ip in ips && Eligible(c, n, ip)
  }

  /** A discovery batch adds to the pending peers exactly the ips that were eligible before it. */
  lemma {:induction false} DiscoveryBatch<P>(c: Config, n: Net<P>, ips: seq<Ip>, linked: Ip -> bool)
    ensures
      var m := AdmitAll(c, n, ips, false, linked);
      var added := Added(c, n, ips);
      && m.accepted == n.accepted
      && m.pending == n.pending + added
      && m.connected == n.connected + set ip | ip in added && linked(ip)
  {
    if ips != [] {
      var front, last := ips[..|ips| - 1], ips[|ips| - 1];
      assert ips == front + [last];
      DiscoveryBatch(c, n, front, linked);
      var m := AdmitAll(c, n, front, false, linked);
      assert SameSubnet(c, m, last) == SameSubnet(c, n, last) ==
        set q | q in n.accepted && c.subnet(q) == c.subnet(last);
      if Eligible(c, n, last) {
        assert Added(c, n, ips) == Added(c, n, front) + {last};
        assert Starts(c, m, last, false) <==> last !in Added(c, n, front);
      } else {
        assert Added(c, n, ips) == Added(c, n, front);
      }
    }
  }

  /** The order of the batch, and repetitions in it, make no difference. */
  lemma BatchOrderIsIrrelevant<P>(c: Config, n: Net<P>, ips: seq<Ip>, jps: seq<Ip>, linked: Ip -> bool)
    requires Elements(ips) == Elements(jps)
    ensures AdmitAll(c, n, ips, false, linked) == AdmitAll(c, n, jps, false, linked)
  {
    DiscoveryBatch(c, n, ips, linked);
    DiscoveryBatch(c, n, jps, linked);
    assert forall ip :: ip in ips <==> ip in Elements(ips);
    assert forall ip :: ip in jps <==> ip in Elements(jps);
    assert Added(c, n, ips) == Added(c, n, jps);
  }

  /** The accepted peers that are left for comparison at turn `k` of the seed loop: this seed and
      those before it have been forgotten. */
  ghost function LeftAt<P>(n: Net<P>, seeds: seq<Ip>, k: nat): Net<P>
    requires k < |seeds|
  {
    n.(accepted := n.accepted - Elements(seeds[..k + 1]))
  }

  /** Turn `k` gets past the whitelist and the subnet check, whose limit does not apply to seeds. */
  ghost predicate PassesAt<P>(c: Config, n: Net<P>, seeds: seq<Ip>, k: nat) {
    && k < |seeds| && !c.disableDiscovery && c.whitelisted(seeds[k])
    && forall q | q in n.accepted && q !in seeds[..k + 1] :: c.subnet(q).Some? && c.subnet(seeds[k]).Some?
  }

  ghost function Admitted<P>(c: Config, n: Net<P>, seeds: seq<Ip>): set<Ip> {
    set k: nat | k < |seeds| && PassesAt(c, n, seeds, k) :: seeds[k]
  }

  lemma PassesMeans<P>(c: Config, n: Net<P>, seeds: seq<Ip>, k: nat)
    requires k < |seeds|
    ensures PassesAt(c, n, seeds, k) <==>
      !c.disableDiscovery && c.whitelisted(seeds[k]) && !SubnetThrows(c, LeftAt(n, seeds, k), seeds[k])
  {
    assert forall q :: q in LeftAt(n, seeds, k).accepted <==> q in n.accepted && q !in seeds[..k + 1];
  }

  lemma PassesEarlier<P>(c: Config, n: Net<P>, front: seq<Ip>, last: Ip, k: nat)
    requires k < |front|
    ensures PassesAt(c, n, front + [last], k) <==> PassesAt(c, n, front, k)
  {
    assert (front + [last])[..k + 1] == front[..k + 1];
  }

  lemma AdmittedMore<P>(c: Config, n: Net<P>, front: seq<Ip>, last: Ip)
    ensures Admitted(c, n, front + [last]) ==
      Admitted(c, n, front) + if PassesAt(c, n, front + [last], |front|) then {last} else {}
  {
    var seeds := front + [last];
    forall ip ensures ip in Admitted(c, n, seeds) <==>
      ip in Admitted(c, n, front) || (ip == last && PassesAt(c, n, seeds, |front|))
    {
      if ip in Admitted(c, n, seeds) {
        var k: nat :| k < |seeds| && PassesAt(c, n, seeds, k) && seeds[k] == ip;
        if k < |front| { PassesEarlier(c, n, front, last, k); }
      }
      if ip in Admitted(c, n, front) {
        var k: nat :| k < |front| && PassesAt(c, n, front, k) && front[k] == ip;
        PassesEarlier(c, n, front, last, k);
        assert seeds[k] == ip;
      }
    }
  }

  lemma SeedTurn<P>(c: Config, m: Net<P>, ip: Ip, linked: bool)
    ensures
      var passes := !c.disableDiscovery && c.whitelisted(ip) && !SubnetThrows(c, ForgetPeer(m, ip), ip);
      Reseed(c, m, ip, linked) == Net(
        m.accepted - {ip},
        if passes then m.pending + {ip} else m.pending,
        if passes && ip !in m.pending && linked then m.connected + {ip} else m.connected)
  {
  }

  lemma SeedConnections(pending: set<Ip>, admitted: set<Ip>, ip: Ip, linked: Ip -> bool)
    ensures (set q | q in admitted + {ip} - pending && linked(q)) ==
      (set q | q in admitted - pending && linked(q)) + if ip !in pending && linked(ip) then {ip} else {}
  {
  }

  /** What the seed loop makes of the maps. */
  ghost predicate Populated<P>(c: Config, n: Net<P>, seeds: seq<Ip>, linked: Ip -> bool, m: Net<P>) {
    && m.accepted == n.accepted - Elements(seeds)
    && m.pending == n.pending + Admitted(c, n, seeds)
    && m.connected == n.connected + set ip | ip in Admitted(c, n, seeds) - n.pending && linked(ip)
  }

  lemma PopulatedMore<P>(c: Config, n: Net<P>, front: seq<Ip>, last: Ip, linked: Ip -> bool, m: Net<P>)
    requires Populated(c, n, front, linked, m)
    ensures Populated(c, n, front + [last], linked, Reseed(c, m, last, linked(last)))
  {
    var seeds := front + [last];
    ElementsOfLast(seeds);
    AdmittedMore(c, n, front, last);
    SeedTurn(c, m, last, linked(last));
    assert seeds[..|front| + 1] == seeds;
    assert ForgetPeer(m, last).accepted == LeftAt(n, seeds, |front|).accepted;
    PassesMeans(c, n, seeds, |front|);
    SeedConnections(n.pending, Admitted(c, n, front), last, linked);
  }

  /** The seed loop forgets every seed and leaves pending, in addition to what was, exactly those
      that have a turn which passes. It connects the new ones among them where it can. */
  lemma {:induction false} SeedBatch<P>(c: Config, n: Net<P>, seeds: seq<Ip>, linked: Ip -> bool)
    ensures Populated(c, n, seeds, linked, AdmitAll(c, n, seeds, true, linked))
  {
    if seeds != [] {
      var front, last := seeds[..|seeds| - 1], seeds[|seeds| - 1];
      assert seeds == front + [last];
      SeedBatch(c, n, front, linked);
      PopulatedMore(c, n, front, last, linked, AdmitAll(c, n, front, true, linked));
    }
  }

  /** The promise of turn `k` of a batch is rejected. */
  ghost predicate RejectsAt<P>(c: Config, n: Net<P>, ips: seq<Ip>, seed: bool, linked: Ip -> bool, k: nat)
    requires k < |ips|
  {
    var m := AdmitAll(c, n, ips[..k], seed, linked);
    ValidatePeerIp(c, if seed then ForgetPeer(m, ips[k]) else m, ips[k], seed).Thrown?
  }

  /** The promise of the whole batch is rejected; all of its turns take place nevertheless. */
  ghost predicate Rejects<P>(c: Config, n: Net<P>, ips: seq<Ip>, seed: bool, linked: Ip -> bool) {
    exists k: nat :: k < |ips| && RejectsAt(c, n, ips, seed, linked, k)
  }

  lemma RejectsEarlier<P>(c: Config, n: Net<P>, ips: seq<Ip>, seed: bool, linked: Ip -> bool, k: nat, j: nat)
    requires j < k <= |ips|
    ensures RejectsAt(c, n, ips[..k], seed, linked, j) <==> RejectsAt(c, n, ips, seed, linked, j)
  {
    assert ips[..k][..j] == ips[..j];
  }

  lemma RejectsBefore<P>(c: Config, n: Net<P>, ips: seq<Ip>, seed: bool, linked: Ip -> bool, k: nat)
    requires k <= |ips|
    ensures Rejects(c, n, ips[..k], seed, linked)
      <==> exists j: nat :: j < k && RejectsAt(c, n, ips, seed, linked, j)
  {
    var front := ips[..k];
    if j: nat :| j < |front| && RejectsAt(c, n, front, seed, linked, j) {
      RejectsEarlier(c, n, ips, seed, linked, k, j);
    }
    if j: nat :| j < k && RejectsAt(c, n, ips, seed, linked, j) {
      RejectsEarlier(c, n, ips, seed, linked, k, j);
      assert j < |front| && RejectsAt(c, n, front, seed, linked, j);
    }
  }

  lemma TurnOfBatch<P>(c: Config, n: Net<P>, ips: seq<Ip>, seed: bool, linked: Ip -> bool, k: nat)
    requires k < |ips|
    ensures AdmitAll(c, n, ips[..k + 1], seed, linked) ==
      Admit(c, AdmitAll(c, n, ips[..k], seed, linked), ips[k], seed, linked)
  {
    assert ips[..k + 1][..k] == ips[..k];
  }

  lemma RejectsMore<P>(c: Config, n: Net<P>, ips: seq<Ip>, seed: bool, linked: Ip -> bool, k: nat)
    requires k < |ips|
    ensures Rejects(c, n, ips[..k + 1], seed, linked)
      <==> Rejects(c, n, ips[..k], seed, linked) || RejectsAt(c, n, ips, seed, linked, k)
  {
    RejectsBefore(c, n, ips, seed, linked, k);
    RejectsBefore(c, n, ips, seed, linked, k + 1);
  }

  lemma FewerThrowLess<P>(c: Config, n: Net<P>, seeds: seq<Ip>, i: nat, k: nat)
    requires i <= k < |seeds| && SubnetThrows(c, LeftAt(n, seeds, k), seeds[k])
    ensures SubnetThrows(c, LeftAt(n, seeds, i), seeds[k])
  {
    var q :| q in LeftAt(n, seeds, k).accepted && (c.subnet(q).None? || c.subnet(seeds[k]).None?);
    assert seeds[..i + 1] == seeds[..k + 1][..i + 1];
    assert q in LeftAt(n, seeds, i).accepted;
  }

  lemma SeedTurnRejects<P>(c: Config, n: Net<P>, seeds: seq<Ip>, linked: Ip -> bool, k: nat)
    requires k < |seeds|
    ensures RejectsAt(c, n, seeds, true, linked, k) <==>
      !c.disableDiscovery && c.whitelisted(seeds[k]) && seeds[k] !in n.pending && !PassesAt(c, n, seeds, k)
  {
    var front, ip := seeds[..k], seeds[k];
    PassesMeans(c, n, seeds, k);
    SeedBatch(c, n, front, linked);
    ElementsOfLast(seeds[..k + 1]);
    assert seeds[..k + 1][..k] == front;
    var m := ForgetPeer(AdmitAll(c, n, front, true, linked), ip);
    assert m.accepted == LeftAt(n, seeds, k).accepted;
    if ip in Admitted(c, n, front) && !c.disableDiscovery && c.whitelisted(ip) {
      var i: nat :| i < k && PassesAt(c, n, front, i) && front[i] == ip;
      assert front[..i + 1] == seeds[..i + 1];
      PassesMeans(c, n, seeds, i);
      if !PassesAt(c, n, seeds, k) { FewerThrowLess(c, n, seeds, i, k); }
    }
  }

  /** Populating the seeds is rejected exactly if, with discovery enabled, a whitelisted seed that
      was not pending meets at its turn an accepted peer with which it cannot be compared. */
  lemma SeedBatchRejects<P>(c: Config, n: Net<P>, seeds: seq<Ip>, linked: Ip -> bool)
    ensures Rejects(c, n, seeds, true, linked) <==>
      exists k: nat :: k < |seeds| && !c.disableDiscovery && c.whitelisted(seeds[k]) && seeds[k] !in n.pending
        && SubnetThrows(c, LeftAt(n, seeds, k), seeds[k])
  {
    forall k: nat | k < |seeds| ensures RejectsAt(c, n, seeds, true, linked, k) <==>
      !c.disableDiscovery && c.whitelisted(seeds[k]) && seeds[k] !in n.pending && !PassesAt(c, n, seeds, k)
    {
      SeedTurnRejects(c, n, seeds, linked, k);
      PassesMeans(c, n, seeds, k);
    }
  }

  lemma DiscoveryTurnRejects<P>(c: Config, n: Net<P>, ips: seq<Ip>, linked: Ip -> bool, k: nat)
    requires k < |ips|
    ensures RejectsAt(c, n, ips, false, linked, k) <==>
      && !c.disableDiscovery && c.whitelisted(ips[k]) && ips[k] !in n.pending
      && exists q :: q in n.accepted && (c.subnet(q).None? || c.subnet(ips[k]).None?)
  {
    DiscoveryBatch(c, n, ips[..k], linked);
    var m := AdmitAll(c, n, ips[..k], false, linked);
    assert m.accepted == n.accepted;
    assert ips[k] in m.pending <==> ips[k] in n.pending || ips[k] in Added(c, n, ips[..k]);
  }

  /** The promise of a discovery batch is rejected exactly if, with discovery enabled, a whitelisted
      ip of it that was not pending cannot be compared with some accepted peer. */
  lemma DiscoveryBatchRejects<P>(c: Config, n: Net<P>, ips: seq<Ip>, linked: Ip -> bool)
    ensures Rejects(c, n, ips, false, linked) <==>
      exists k: nat, q :: k < |ips| && !c.disableDiscovery && c.whitelisted(ips[k]) && ips[k] !in n.pending
        && q in n.accepted && (c.subnet(q).None? || c.subnet(ips[k]).None?)
  {
    forall k: nat | k < |ips| ensures RejectsAt(c, n, ips, false, linked, k) <==>
      && !c.disableDiscovery && c.whitelisted(ips[k]) && ips[k] !in n.pending
      && exists q :: q in n.accepted && (c.subnet(q).None? || c.subnet(ips[k]).None?)
    {
      DiscoveryTurnRejects(c, n, ips, linked, k);
    }
  }

  /** With discovery enabled and unless it is rejected, every whitelisted seed is pending and not
      accepted afterwards, even if the list repeats it. Nobody else is dropped in any case. */
  lemma SeedsArePendingAfterwards<P>(c: Config, n: Net<P>, seeds: seq<Ip>, linked: Ip -> bool)
    requires !c.disableDiscovery
    ensures
      var m := AdmitAll(c, n, seeds, true, linked);
      && (!Rejects(c, n, seeds, true, linked) ==>
            forall ip | ip in seeds && c.whitelisted(ip) :: ip in m.pending && ip !in m.accepted)
      && (forall ip | ip in n.accepted && ip !in seeds :: ip in m.accepted && m.accepted[ip] == n.accepted[ip])
  {
    SeedBatch(c, n, seeds, linked);
    var m := AdmitAll(c, n, seeds, true, linked);
    if !Rejects(c, n, seeds, true, linked) {
      forall ip | ip in seeds && c.whitelisted(ip) ensures ip in m.pending && ip !in m.accepted {
        var k: nat :| k < |seeds| && seeds[k] == ip;
        assert !RejectsAt(c, n, seeds, true, linked, k);
        SeedTurnRejects(c, n, seeds, linked, k);
      }
    }
  }

  lemma SeedsDoNotReject(c: Config, n: Net<nat>, seeds: seq<Ip>, linked: Ip -> bool, known: Ip -> bool)
    requires MapsOk(c, n) && AllFrom(n, known) && AddressesParse(c, known)
    requires forall ip | ip in seeds :: known(ip)
    ensures !Rejects(c, n, seeds, true, linked)
  {
    SeedBatchRejects(c, n, seeds, linked);
    forall k: nat | k < |seeds| && c.whitelisted(seeds[k]) ensures !SubnetThrows(c, LeftAt(n, seeds, k), seeds[k]) {
      assert seeds[k] in seeds[..k + 1] && seeds[k] !in LeftAt(n, seeds, k).accepted;
      ParsedAddressesNeverThrow(c, LeftAt(n, seeds, k), seeds[k], known);
    }
  }

  ghost predicate SeedsWelcome(c: Config, es: seq<Event>, seeds: seq<Ip>, linked: Ip -> bool, known: Ip -> bool) {
    KnownOnly(es, known) && (forall ip | ip in seeds :: known(ip)) ==>
      !Rejects(c, After(c, es).net, seeds, true, linked)
  }

  lemma SeedsCanReject(c: Config, x: Ip, y: Ip)
    requires !c.disableDiscovery && x != y && c.whitelisted(x) && c.whitelisted(y) && c.subnet(x).None?
    ensures Rejects(c, After(c, OrphaningRun(x, y)[..6]).net, [x], true, ip => true)
  {
    var n, seeds := After(c, OrphaningRun(x, y)[..6]).net, [x];
    BothAreAccepted(c, x, y);
    SeedBatchRejects(c, n, seeds, ip => true);
    assert y in LeftAt(n, seeds, 0).accepted;
    assert seeds[0] == x && SubnetThrows(c, LeftAt(n, seeds, 0), seeds[0]);
  }

  lemma KnownSeedsWelcome(c: Config, es: seq<Event>, seeds: seq<Ip>, linked: Ip -> bool, known: Ip -> bool)
    requires c.disableDiscovery || AddressesParse(c, known)
    ensures SeedsWelcome(c, es, seeds, linked, known)
  {
    if KnownOnly(es, known) && forall ip | ip in seeds :: known(ip) {
      if c.disableDiscovery {
        SeedBatchRejects(c, After(c, es).net, seeds, linked);
      } else {
        RunKeepsInv(c, es);
        RunKeepsOrigin(c, es, known);
        SeedsDoNotReject(c, After(c, es).net, seeds, linked, known);
      }
    }
  }

  /** Whatever ips are known: after no run over them, populating known seeds is rejected, exactly
      if discovery is disabled or no two of them pass the whitelist of which one is no address. */
  lemma SeedsNeverRejectExactlyWhenAddressesParse(c: Config, known: Ip -> bool)
    ensures (forall es, seeds, linked :: SeedsWelcome(c, es, seeds, linked, known))
      <==> c.disableDiscovery || AddressesParse(c, known)
  {
    if c.disableDiscovery || AddressesParse(c, known) {
      forall es, seeds, linked ensures SeedsWelcome(c, es, seeds, linked, known) {
        KnownSeedsWelcome(c, es, seeds, linked, known);
      }
    } else {
      var x, y :| x != y && known(x) && known(y) && c.whitelisted(x) && c.whitelisted(y) && c.subnet(x).None?;
      SeedsCanReject(c, x, y);
      assert KnownOnly(OrphaningRun(x, y)[..6], known);
      assert !SeedsWelcome(c, OrphaningRun(x, y)[..6], [x], ip => true, known);
    }
  }

  // ----- Batches in runs -----

  lemma {:induction false} UnusedId(ids: set<nat>, n: nat) returns (id: nat)
    requires forall i | i in ids :: i >= n
    ensures id !in ids && id >= n
    decreases |ids|
  {
    if n in ids {
      id := UnusedId(ids - {n}, n + 1);
    } else {
      id := n;
    }
  }

  ghost function FreshId(ids: set<nat>): (id: nat)
    ensures id !in ids
  {
    assert exists id: nat :: id !in ids by {
      var id := UnusedId(ids, 0);
    }
    var id: nat :| id !in ids;
    id
  }

  /** One turn of the loop is one event, with identities that are not in use yet. */
  ghost function Turn(w: World, ip: Ip, seed: bool, linked: Ip -> bool): Event {
    var peer, op := FreshId(w.peers.Keys), FreshId(w.ops.Keys);
    if seed then Repopulate(ip, linked(ip), peer, op) else Discover(ip, linked(ip), peer, op)
  }

  ghost function RunBatch(c: Config, w: World, ips: seq<Ip>, seed: bool, linked: Ip -> bool): World {
    if ips == [] then w
    else
      var v := RunBatch(c, w, ips[..|ips| - 1], seed, linked);
      Next(c, v, Turn(v, ips[|ips| - 1], seed, linked))
  }

  lemma {:induction false} RunOfBatch(c: Config, w: World, ips: seq<Ip>, seed: bool, linked: Ip -> bool)
    ensures RunBatch(c, w, ips, seed, linked).net == AdmitAll(c, w.net, ips, seed, linked)
  {
    if ips != [] {
      RunOfBatch(c, w, ips[..|ips| - 1], seed, linked);
    }
  }

  /** A batch is a stretch of some run of the protocol, so what holds of every run holds after it. */
  lemma {:induction false} BatchIsARun(c: Config, es: seq<Event>, ips: seq<Ip>, seed: bool, linked: Ip -> bool)
    returns (fs: seq<Event>)
    ensures After(c, es + fs) == RunBatch(c, After(c, es), ips, seed, linked)
    ensures After(c, es + fs).net == AdmitAll(c, After(c, es).net, ips, seed, linked)
  {
    RunOfBatch(c, After(c, es), ips, seed, linked);
    if ips == [] {
      fs := [];
      assert es + fs == es;
    } else {
      var front := BatchIsARun(c, es, ips[..|ips| - 1], seed, linked);
      var e := Turn(After(c, es + front), ips[|ips| - 1], seed, linked);
      fs := front + [e];
      assert (es + fs)[..|es + fs| - 1] == es + front;
    }
  }
}
