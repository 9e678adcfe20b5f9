/** What each synchronous stretch of the peer-to-peer code does to the three ip-keyed maps:
    accepted peers, pending peers and stored connections.

    The functions are generic in the type `P` of accepted peers. The classes of module
    PeerService are proved against them with `P` a `Peer` reference, and module PeerProtocol
    runs them with `P` an object identity. */
module Admission {
  import opened Options

  type Ip = string

  /** `whitelisted` stands for the glob matching of the whitelist, `subnet` for the /24 of an ip,
      which cannot be computed (None: the computation throws) if the text is no address. */
  datatype Config = Config(
    disableDiscovery: bool,
    whitelisted: Ip -> bool,
    subnet: Ip -> Option<string>,
    maxSameSubnetPeers: nat)

  datatype Net<P> = Net(accepted: map<Ip, P>, pending: set<Ip>, connected: set<Ip>)

  /** The state part of a ping response. */
  datatype Status = Status(height: Option<int>)

  /** How an emitted request can end: without usable data, with data that lacks the
      configuration part, or with data that has it. The state part may be missing in either case. */
  datatype Reply = Silent | Malformed(status: Option<Status>) | Complete(status: Option<Status>, plugins: string)

  /** The fields of a peer object that a ping reads or writes. */
  datatype PeerInfo = PeerInfo(ip: Ip, lastPinged: Option<int>, status: Option<Status>, plugins: Option<string>)

  /** A new peer has a state of its own, without a height. */
  function FreshPeer(ip: Ip): PeerInfo {
    PeerInfo(ip, None, Some(Status(None)), None)
  }

  /** The whole-minute difference is truncated, so it is below two exactly when less than
      120000 milliseconds have passed. */
  predicate RecentlyPinged(p: PeerInfo, now: int) {
    p.lastPinged.Some? && now - p.lastPinged.value < 120000
  }

  predicate Succeeds(reply: Reply) {
    reply.Complete?
  }

  /** The fields after the awaited request has ended. A malformed response is noticed only after
      the time and the state have been written, and a missing state is written like any other. */
  function ApplyReply(p: PeerInfo, reply: Reply, now: int): PeerInfo {
    match reply
    case Silent => p
    case Malformed(status) => p.(lastPinged := Some(now), status := status)
    case Complete(status, plugins) => PeerInfo(p.ip, Some(now), status, Some(plugins))
  }

  function SameSubnet<P>(c: Config, n: Net<P>, ip: Ip): set<Ip> {
    set q | q in n.accepted && c.subnet(q) == c.subnet(ip)
  }

  /** Comparing the subnet of `ip` with those of the accepted peers throws. With no accepted peer
      there is nothing to compare, not even for a text that is no address. */
  predicate SubnetThrows<P>(c: Config, n: Net<P>, ip: Ip) {
    exists q :: q in n.accepted && (c.subnet(q).None? || c.subnet(ip).None?)
  }

  /** What lets an ip in that is no seed: discovery is enabled, and the ip is whitelisted, unknown,
      comparable with the accepted peers and in a subnet with fewer of them than the limit.
      Pending peers do not count. */
  ghost predicate Eligible<P>(c: Config, n: Net<P>, ip: Ip) {
    && !c.disableDiscovery && c.whitelisted(ip)
    && ip !in n.accepted && ip !in n.pending
    && (forall q | q in n.accepted :: c.subnet(q).Some? && c.subnet(ip).Some?)
    && |set q | q in n.accepted && c.subnet(q) == c.subnet(ip)| < c.maxSameSubnetPeers
  }

  /** What lets a seed in, once it has been forgotten. */
  ghost predicate SeedEligible<P>(c: Config, n: Net<P>, ip: Ip) {
    && !c.disableDiscovery && c.whitelisted(ip) && ip !in n.pending
    && (forall q | q in n.accepted && q != ip :: c.subnet(q).Some? && c.subnet(ip).Some?)
  }

  datatype Verdict = Refused | Passed | Thrown

  /** The subnet is looked at for seeds, too; only the limit does not apply to them. */
  function ValidatePeerIp<P>(c: Config, n: Net<P>, ip: Ip, seed: bool): Verdict {
    if c.disableDiscovery && ip !in n.pending then Refused
    else if ip in n.pending then Refused
    else if !c.whitelisted(ip) then Refused
    else if SubnetThrows(c, n, ip) then Thrown
    else if |SameSubnet(c, n, ip)| >= c.maxSameSubnetPeers && !seed then Refused
    else Passed
  }

  /** Does a call of `validateAndAcceptPeer` put a ping in flight? */
  predicate Starts<P>(c: Config, n: Net<P>, ip: Ip, seed: bool) {
    ValidatePeerIp(c, n, ip, seed).Passed? && ip !in n.accepted
  }

  /** `linked` tells whether the connector got as far as storing the connection. */
  function Connect<P>(n: Net<P>, ip: Ip, linked: bool): Net<P> {
    if linked then n.(connected := n.connected + {ip}) else n
  }

  function Disconnect<P>(n: Net<P>, ip: Ip): Net<P> {
    n.(connected := n.connected - {ip})
  }

  function ForgetPeer<P>(n: Net<P>, ip: Ip): Net<P> {
    n.(accepted := n.accepted - {ip})
  }

  /** The synchronous prefix of `validateAndAcceptPeer`. */
  function Begin<P>(c: Config, n: Net<P>, ip: Ip, seed: bool, linked: bool): Net<P> {
    if Starts(c, n, ip, seed) then Connect(n.(pending := n.pending + {ip}), ip, linked) else n
  }

  /** The acceptance goes on after a ping that succeeded. */
  function Store<P>(n: Net<P>, ip: Ip, p: P): Net<P> {
    n.(accepted := n.accepted[ip := p], pending := n.pending - {ip})
  }

  /** The acceptance goes on after a ping that threw. */
  function Reject<P>(n: Net<P>, ip: Ip): Net<P> {
    Disconnect(n, ip).(pending := n.pending - {ip})
  }

  /** The handler of the `internal.p2p.disconnectPeer` event. */
  function DropPeer<P>(n: Net<P>, ip: Ip): Net<P> {
    ForgetPeer(Disconnect(n, ip), ip)
  }

  /** One turn of the seed loop. */
  function Reseed<P>(c: Config, n: Net<P>, ip: Ip, linked: bool): Net<P> {
    Begin(c, ForgetPeer(n, ip), ip, true, linked)
  }
}
