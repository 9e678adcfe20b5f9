/** The classes of the peer-to-peer package, one method per synchronous stretch. Each method is
    proved against the function of module Admission that says what the stretch does. */
module PeerService {
  import opened Options
  import opened Admission
  import opened BatchAdmission
  import UpdateLoop

  class PeerRepository<T(==)> {
    var repository: map<string, T>

    constructor ()
      ensures repository == map[]
    {
      repository := map[];
    }

    method Get(key: string) returns (item: Option<T>)
      ensures item == if key in repository then Some(repository[key]) else None
    {
      item := if key in repository then Some(repository[key]) else None;
    }

    method Set(key: string, value: T)
      modifies this
      ensures repository == old(repository)[key := value]
    {
      repository := repository[key := value];
    }

    method Forget(key: string)
      modifies this
      ensures repository == old(repository) - {key}
    {
      repository := repository - {key};
    }

    method Pull(key: string) returns (item: Option<T>)
      modifies this
      ensures item == if key in old(repository) then Some(old(repository)[key]) else None
      ensures repository == old(repository) - {key}
    {
      item := Get(key);
      Forget(key);
    }
  }

  class Peer {
    const ip: Ip
    var lastPinged: Option<int>
    var status: Option<Status>
    var plugins: Option<string>

    constructor (ip: Ip)
      ensures View() == FreshPeer(ip)
    {
      this.ip := ip;
      lastPinged, status, plugins := None, Some(Status(None)), None;
    }

    function View(): PeerInfo
      reads this
    {
      PeerInfo(ip, lastPinged, status, plugins)
    }
  }

  class PeerStorage {
    const peers: PeerRepository<Peer>
    const peersPending: PeerRepository<Ip>

    constructor ()
      ensures fresh(peers) && fresh(peersPending) && peers as object != peersPending
      ensures peers.repository == map[] && peersPending.repository == map[]
    {
      peers := new PeerRepository<Peer>();
      peersPending := new PeerRepository<Ip>();
    }

    /** The accepted peers of the subnet of `ip`; None if comparing throws. */
    function SameSubnetPeers(c: Config, ip: Ip): Option<set<Ip>>
      reads peers
    {
      if exists q :: q in peers.repository && (c.subnet(q).None? || c.subnet(ip).None?) then None
      else Some(set q | q in peers.repository && c.subnet(q) == c.subnet(ip))
    }
  }

  class Socket {
    var open: bool

    constructor ()
      ensures open
    {
      open := true;
    }

    method Terminate()
      modifies this
      ensures !open
    {
      open := false;
    }
  }

  class PeerConnector {
    const connections: PeerRepository<Socket>
    var errors: map<Ip, string>

    constructor ()
      ensures fresh(connections) && connections.repository == map[] && errors == map[]
    {
      connections := new PeerRepository<Socket>();
      errors := map[];
    }

    /** Keeps the stored connection or stores a new one. `linked` is false when creating it, or
        reaching into it, throws; then nothing is stored. */
    method Connect(ip: Ip, linked: bool)
      modifies connections
      ensures ip in old(connections.repository) || !linked ==> connections.repository == old(connections.repository)
      ensures ip !in old(connections.repository) && linked ==>
        && ip in connections.repository && fresh(connections.repository[ip]) && connections.repository[ip].open
        && connections.repository == old(connections.repository)[ip := connections.repository[ip]]
    {
      if linked {
        var known := connections.Get(ip);
        var connection;
        if known.Some? {
          connection := known.value;
        } else {
          connection := new Socket();
        }
        connections.Set(ip, connection);
      }
    }

    /** The socket is forgotten as it is: one that was open stays open. */
    method Disconnect(ip: Ip)
      modifies connections
      ensures connections.repository == old(connections.repository) - {ip}
      ensures ip in old(connections.repository) ==>
        old(connections.repository[ip]).open == old(connections.repository[ip].open)
    {
      var connection := connections.Get(ip);
      if connection.Some? {
        connections.Forget(ip);
      }
    }

    /** The socket is closed and forgotten. */
    method Terminate(ip: Ip)
      modifies connections
      modifies if ip in connections.repository then {connections.repository[ip]} else {}
      ensures connections.repository == old(connections.repository) - {ip}
      ensures ip in old(connections.repository) ==> !old(connections.repository[ip]).open
    {
      var connection := connections.Get(ip);
      if connection.Some? {
        connection.value.Terminate();
        connections.Forget(ip);
      }
    }

    method ForgetError(ip: Ip)
      modifies this
      ensures errors == old(errors) - {ip}
    {
      errors := errors - {ip};
    }
  }

  ghost predicate Apart(storage: PeerStorage, connector: PeerConnector) {
    && storage.peers as object != storage.peersPending
    && storage.peers as object != connector.connections
    && storage.peersPending as object != connector.connections
  }

  ghost function View(storage: PeerStorage, connector: PeerConnector): Net<Peer>
    reads storage.peers, storage.peersPending, connector.connections
  {
    Net(storage.peers.repository, storage.peersPending.repository.Keys, connector.connections.repository.Keys)
  }

  /** How a call of `ping` gets to its first await. */
  datatype PingStart = Skipped | Sent | Unsent

  class PeerCommunicator {
    const connector: PeerConnector

    constructor (connector: PeerConnector)
      ensures this.connector == connector
    {
      this.connector := connector;
    }

    /** Up to the await: a recently pinged peer is left alone unless forced. */
    method StartPing(peer: Peer, force: bool, now: int, linked: bool) returns (start: PingStart)
      modifies connector, connector.connections
      ensures var skip := RecentlyPinged(peer.View(), now) && !force;
        && start == (if skip then Skipped else if linked then Sent else Unsent)
        && connector.errors == (if skip then old(connector.errors) else old(connector.errors) - {peer.ip})
        && connector.connections.repository.Keys ==
             old(connector.connections.repository.Keys) + (if !skip && linked then {peer.ip} else {})
    {
      if RecentlyPinged(peer.View(), now) && !force {
        return Skipped;
      }
      start := Emit(peer, linked);
    }

    method Emit(peer: Peer, linked: bool) returns (start: PingStart)
      modifies connector, connector.connections
      ensures start == if linked then Sent else Unsent
      ensures connector.errors == old(connector.errors) - {peer.ip}
      ensures connector.connections.repository.Keys ==
        old(connector.connections.repository.Keys) + (if linked then {peer.ip} else {})
    {
      connector.ForgetError(peer.ip);
      connector.Connect(peer.ip, linked);
      start := if linked then Sent else Unsent;
    }

    /** From the await to the end; `ok` is false when the call throws. */
    method FinishPing(peer: Peer, reply: Reply, now: int) returns (ok: bool)
      modifies peer
      ensures peer.View() == ApplyReply(old(peer.View()), reply, now)
      ensures ok == Succeeds(reply)
    {
      if reply.Silent? {
        return false;
      }
      peer.lastPinged := Some(now);
      peer.status := reply.status;
      if reply.Malformed? {
        return false;
      }
      peer.plugins := Some(reply.plugins);
      ok := true;
    }
  }

  class PeerProcessor {
    const config: Config
    const communicator: PeerCommunicator
    const connector: PeerConnector
    const storage: PeerStorage

    constructor (config: Config, communicator: PeerCommunicator, connector: PeerConnector, storage: PeerStorage)
      requires Apart(storage, connector) && communicator.connector == connector
      ensures this.config == config && this.storage == storage && this.connector == connector && Valid()
    {
      this.config, this.communicator, this.connector, this.storage := config, communicator, connector, storage;
    }

    ghost predicate Valid() {
      Apart(storage, connector) && communicator.connector == connector
    }

    method ValidatePeerIp(ip: Ip, seed: bool) returns (verdict: Verdict)
      ensures verdict == Admission.ValidatePeerIp(config, View(storage, connector), ip, seed)
    {
      var pending := storage.peersPending.Get(ip);
      if config.disableDiscovery && pending.None? {
        return Refused;
      }
      if pending.Some? {
        return Refused;
      }
      if !config.whitelisted(ip) {
        return Refused;
      }
      var sameSubnet := storage.SameSubnetPeers(config, ip);
      assert SubnetThrows(config, View(storage, connector), ip) <==> sameSubnet.None?;
      if sameSubnet.None? {
        return Thrown;
      }
      assert sameSubnet.value == SameSubnet(config, View(storage, connector), ip);
      if |sameSubnet.value| >= config.maxSameSubnetPeers && !seed {
        return Refused;
      }
      verdict := Passed;
    }

    /** `validateAndAcceptPeer` up to the awaited ping; `started` is the peer being pinged, if any,
        and `thrown` tells whether the promise is rejected. */
    method StartAcceptance(ip: Ip, seed: bool, now: int, linked: bool) returns (started: Peer?, thrown: bool)
      requires Valid()
      modifies storage.peersPending, connector, connector.connections
      ensures View(storage, connector) == Begin(config, old(View(storage, connector)), ip, seed, linked)
      ensures started != null <==> Starts(config, old(View(storage, connector)), ip, seed)
      ensures started != null ==> fresh(started) && started.View() == FreshPeer(ip)
      ensures thrown <==> Admission.ValidatePeerIp(config, old(View(storage, connector)), ip, seed).Thrown?
    {
      started := null;
      var verdict := ValidatePeerIp(ip, seed);
      if verdict.Passed? {
        started := AcceptNewPeer(ip, now, linked);
      }
      thrown := verdict.Thrown?;
    }

    /** `acceptNewPeer` up to the awaited ping. */
    method AcceptNewPeer(ip: Ip, now: int, linked: bool) returns (started: Peer?)
      requires Valid()
      modifies storage.peersPending, connector, connector.connections
      ensures ip in storage.peers.repository ==>
        started == null && View(storage, connector) == old(View(storage, connector))
      ensures ip !in storage.peers.repository ==>
        && started != null && fresh(started) && started.View() == FreshPeer(ip)
        && View(storage, connector) ==
             var n := old(View(storage, connector));
             Connect(n.(pending := n.pending + {ip}), ip, linked)
    {
      started := null;
      var known := storage.peers.Get(ip);
      if known.None? {
        started := new Peer(ip);
        storage.peersPending.Set(ip, ip);
        var start := communicator.StartPing(started, false, now, linked);
        assert start != Skipped;
      }
    }

    /** The rest of `acceptNewPeer`, after the ping has returned or thrown. */
    method FinishAcceptance(newPeer: Peer, answered: bool)
      requires Valid()
      modifies storage.peers, storage.peersPending, connector.connections
      ensures View(storage, connector) ==
        if answered then Store(old(View(storage, connector)), newPeer.ip, newPeer)
        else Reject(old(View(storage, connector)), newPeer.ip)
    {
      if answered {
        storage.peers.Set(newPeer.ip, newPeer);
      } else {
        connector.Disconnect(newPeer.ip);
      }
      storage.peersPending.Forget(newPeer.ip);
    }
  }

  class EventListener {
    const connector: PeerConnector
    const storage: PeerStorage

    constructor (connector: PeerConnector, storage: PeerStorage)
      ensures this.connector == connector && this.storage == storage
    {
      this.connector, this.storage := connector, storage;
    }

    method OnDisconnectPeer(peer: Peer)
      requires Apart(storage, connector)
      modifies storage.peers, connector.connections
      ensures View(storage, connector) == DropPeer(old(View(storage, connector)), peer.ip)
    {
      connector.Disconnect(peer.ip);
      storage.peers.Forget(peer.ip);
    }
  }

  class NetworkMonitor {
    const processor: PeerProcessor
    const storage: PeerStorage
    const mode: UpdateLoop.Mode
    const ignoreMinimumNetworkReach: bool
    const minimumNetworkReach: nat
    var coldStart: bool
    var nextUpdateNetworkStatusScheduled: bool
    ghost var timers: nat
    ghost var runs: nat
    ghost var waitingRuns: nat
    ghost var rejectedRuns: nat

    constructor (processor: PeerProcessor, mode: UpdateLoop.Mode, ignoreMinimum: bool, minimum: nat)
      ensures this.processor == processor && storage == processor.storage && this.mode == mode
      ensures ignoreMinimumNetworkReach == ignoreMinimum && minimumNetworkReach == minimum
      ensures !coldStart && Loop() == UpdateLoop.Loop(false, 0, 0) && waitingRuns == rejectedRuns == 0
    {
      this.processor, this.mode := processor, mode;
      ignoreMinimumNetworkReach, minimumNetworkReach := ignoreMinimum, minimum;
      storage := processor.storage;
      coldStart, nextUpdateNetworkStatusScheduled := false, false;
      timers, runs, waitingRuns, rejectedRuns := 0, 0, 0, 0;
    }

    ghost predicate Valid() {
      && processor.Valid() && storage == processor.storage
      && this as object != storage.peers && this as object != storage.peersPending
      && this as object != processor.connector && this as object != processor.connector.connections
    }

    ghost function Peers(): Net<Peer>
      reads storage.peers, storage.peersPending, processor.connector.connections
    {
      View(storage, processor.connector)
    }

    ghost function Loop(): UpdateLoop.Loop
      reads this
    {
      UpdateLoop.Loop(nextUpdateNetworkStatusScheduled, timers, runs)
    }

    /** `updateNetworkStatus` up to its first await; `running` tells whether it gets there. */
    method StartUpdate() returns (running: bool)
      modifies this
      ensures running <==> !mode.test && !mode.networkStart && !mode.disableDiscovery
      ensures Loop() == UpdateLoop.StartRun(mode, old(Loop()))
      ensures var l := old(Loop());
        Loop() == UpdateLoop.Loop(l.scheduled, l.timers, if running then l.runs + 1 else l.runs)
      ensures coldStart == (old(coldStart) || (!mode.test && mode.networkStart))
    {
      if mode.test {
        return false;
      }
      if mode.networkStart {
        coldStart := true;
        return false;
      }
      if mode.disableDiscovery {
        return false;
      }
      runs := runs + 1;
      running := true;
    }

    /** What a run does after discovering and cleansing: it ends if there are enough peers, and
        otherwise populates the seeds and waits for them. `timer` is the delay in seconds of the
        timer that is started, unless one is outstanding. */
    method EndUpdate(seeds: seq<Ip>, now: int, linked: Ip -> bool)
      returns (waiting: bool, rejected: bool, timer: Option<nat>)
      requires Valid() && runs > waitingRuns + rejectedRuns
      modifies this, storage.peers, storage.peersPending, processor.connector, processor.connector.connections
      ensures waiting <==> !ignoreMinimumNetworkReach && |old(Peers()).accepted| < minimumNetworkReach
      ensures !waiting ==> Peers() == old(Peers()) && Loop() == UpdateLoop.FinishRun(old(Loop()))
      ensures !waiting ==> timer == if old(nextUpdateNetworkStatusScheduled) then None else Some(600)
      ensures waiting ==> Loop() == old(Loop()) && timer == None
      ensures waiting ==> Peers() == AdmitAll(processor.config, old(Peers()), seeds, true, linked)
      ensures rejected <==> waiting && Rejects(processor.config, old(Peers()), seeds, true, linked)
      ensures rejectedRuns == old(rejectedRuns) + if rejected then 1 else 0
      ensures waitingRuns == old(waitingRuns) + if waiting && !rejected then 1 else 0
    {
      rejected, timer := false, None;
      var enough := HasMinimumPeers();
      waiting := !enough;
      if waiting {
        rejected := PopulateSeedPeers(seeds, now, linked);
        if rejected {
          rejectedRuns := rejectedRuns + 1;
        } else {
          waitingRuns := waitingRuns + 1;
        }
      } else {
        runs := runs - 1;
        timer := ScheduleUpdateNetworkStatus(600);
      }
    }

    /** A run that waited for its seeds goes on after all their promises have been fulfilled. */
    method EndRepopulation() returns (timer: Option<nat>)
      requires runs > 0 && waitingRuns > 0
      modifies this
      ensures Loop() == UpdateLoop.FinishRun(old(Loop()))
      ensures waitingRuns == old(waitingRuns) - 1 && rejectedRuns == old(rejectedRuns)
      ensures timer == if old(nextUpdateNetworkStatusScheduled) then None else Some(60)
    {
      runs, waitingRuns := runs - 1, waitingRuns - 1;
      timer := ScheduleUpdateNetworkStatus(60);
    }

    /** A run whose seeds were rejected is abandoned where it waits. */
    ghost method AbandonUpdate()
      requires runs > 0 && rejectedRuns > 0
      modifies this`runs, this`rejectedRuns
      ensures Loop() == UpdateLoop.AbandonRun(old(Loop())) && rejectedRuns == old(rejectedRuns) - 1
    {
      runs, rejectedRuns := runs - 1, rejectedRuns - 1;
    }

    method ScheduleUpdateNetworkStatus(nextUpdateInSeconds: nat) returns (timer: Option<nat>)
      modifies this
      ensures var l := old(Loop());
        Loop() == if l.scheduled then l else UpdateLoop.Loop(true, l.timers + 1, l.runs)
      ensures waitingRuns == old(waitingRuns) && rejectedRuns == old(rejectedRuns)
      ensures timer == if old(nextUpdateNetworkStatusScheduled) then None else Some(nextUpdateInSeconds)
      ensures coldStart == old(coldStart)
    {
      if nextUpdateNetworkStatusScheduled {
        return None;
      }
      nextUpdateNetworkStatusScheduled := true;
      timers := timers + 1;
      timer := Some(nextUpdateInSeconds);
    }

    method OnTimer()
      requires timers > 0
      modifies this
      ensures Loop() == UpdateLoop.FireTimer(mode, old(Loop()))
    {
      nextUpdateNetworkStatusScheduled := false;
      timers := timers - 1;
      var _ := StartUpdate();
    }

    method HasMinimumPeers() returns (enough: bool)
      ensures enough <==> ignoreMinimumNetworkReach || |storage.peers.repository| >= minimumNetworkReach
    {
      if ignoreMinimumNetworkReach {
        return true;
      }
      enough := |storage.peers.repository| >= minimumNetworkReach;
    }

    /** The synchronous part of the acceptances that `discoverPeers` starts all at once. A turn
        that throws rejects the promise of the whole batch and leaves the other turns alone. */
    method AcceptDiscovered(theirPeers: seq<Ip>, now: int, linked: Ip -> bool) returns (rejected: bool)
      requires Valid()
      modifies storage.peersPending, processor.connector, processor.connector.connections
      ensures Peers() == AdmitAll(processor.config, old(Peers()), theirPeers, false, linked)
      ensures rejected <==> Rejects(processor.config, old(Peers()), theirPeers, false, linked)
    {
      rejected := false;
      for i := 0 to |theirPeers|
        invariant Peers() == AdmitAll(processor.config, old(Peers()), theirPeers[..i], false, linked)
        invariant rejected <==> Rejects(processor.config, old(Peers()), theirPeers[..i], false, linked)
      {
        var ip := theirPeers[i];
        TurnOfBatch(processor.config, old(Peers()), theirPeers, false, linked, i);
        RejectsMore(processor.config, old(Peers()), theirPeers, false, linked, i);
        var _, thrown := processor.StartAcceptance(ip, false, now, linked(ip));
        rejected := rejected || thrown;
      }
      assert theirPeers[..|theirPeers|] == theirPeers;
    }

    /** The synchronous part of the loop over the seed list. */
    method PopulateSeedPeers(seeds: seq<Ip>, now: int, linked: Ip -> bool) returns (rejected: bool)
      requires Valid()
      modifies storage.peers, storage.peersPending, processor.connector, processor.connector.connections
      ensures Peers() == AdmitAll(processor.config, old(Peers()), seeds, true, linked)
      ensures rejected <==> Rejects(processor.config, old(Peers()), seeds, true, linked)
    {
      rejected := false;
      for i := 0 to |seeds|
        invariant Peers() == AdmitAll(processor.config, old(Peers()), seeds[..i], true, linked)
        invariant rejected <==> Rejects(processor.config, old(Peers()), seeds[..i], true, linked)
      {
        var ip := seeds[i];
        TurnOfBatch(processor.config, old(Peers()), seeds, true, linked, i);
        RejectsMore(processor.config, old(Peers()), seeds, true, linked, i);
        storage.peers.Forget(ip);
        var _, thrown := processor.StartAcceptance(ip, true, now, linked(ip));
        rejected := rejected || thrown;
      }
      assert seeds[..|seeds|] == seeds;
    }
  }
}
