/** How `discoverPeers` merges the peer lists it was sent. */
module DiscoveryMerge {
  import opened Options
  import opened Admission

  datatype PeerData = PeerData(ip: Ip, port: int, version: string)

  const MAX_ASKED := 8
  const MAX_PEERS_PER_PEER := 50

  function Slice<T>(s: seq<T>, n: nat): (r: seq<T>) {
    if |s| <= n then s else s[..n]
  }

  /** One list as an object keyed by ip: a later entry replaces an earlier one. */
  function Keyed(list: seq<PeerData>): map<Ip, PeerData> {
    if list == [] then map[]
    else Keyed(list[..|list| - 1])[list[|list| - 1].ip := list[|list| - 1]]
  }

  /** The objects merged: a later list wins. */
  function Merged(lists: seq<seq<PeerData>>): map<Ip, PeerData> {
    if lists == [] then map[]
    else Merged(lists[..|lists| - 1]) + Keyed(Slice(lists[|lists| - 1], MAX_PEERS_PER_PEER))
  }

  /** The lists received from the first eight of the (shuffled) peers. `answers` gives each
      peer's list as already shuffled; a missing answer counts as an empty list. */
  function Received(peers: seq<Ip>, answers: Ip -> Option<seq<PeerData>>): seq<seq<PeerData>> {
    var asked := Slice(peers, MAX_ASKED);
    seq(|asked|, i requires 0 <= i < |asked| =>
      match answers(asked[i]) case Some(list) => list case None => [])
  }

  function TheirPeers(peers: seq<Ip>, answers: Ip -> Option<seq<PeerData>>): map<Ip, PeerData> {
    Merged(Received(peers, answers))
  }

  /** Position `j` holds the last entry for `ip` in the list. */
  ghost predicate LastIn(list: seq<PeerData>, j: nat, ip: Ip) {
    && j < |list| && list[j].ip == ip
    && forall k | j < k < |list| :: list[k].ip != ip
  }

  ghost predicate Mentions(list: seq<PeerData>, ip: Ip) {
    exists j :: 0 <= j < |list| && list[j].ip == ip
  }

  lemma MentionsFront(list: seq<PeerData>, ip: Ip)
    requires list != []
    ensures Mentions(list, ip) <==> Mentions(list[..|list| - 1], ip) || list[|list| - 1].ip == ip
  {
    var front := list[..|list| - 1];
    if Mentions(front, ip) {
      var j :| 0 <= j < |front| && front[j].ip == ip;
      assert list[j].ip == ip;
    }
    if Mentions(list, ip) {
      var j :| 0 <= j < |list| && list[j].ip == ip;
      assert j < |front| ==> list[j] == front[j];
    }
  }

  ghost predicate KeptFrom(list: seq<PeerData>, ip: Ip, e: PeerData) {
    exists j: nat :: LastIn(list, j, ip) && list[j] == e
  }

  lemma KeptStays(list: seq<PeerData>, ip: Ip, e: PeerData)
    requires list != [] && list[|list| - 1].ip != ip && KeptFrom(list[..|list| - 1], ip, e)
    ensures KeptFrom(list, ip, e)
  {
    var front := list[..|list| - 1];
    var j: nat :| LastIn(front, j, ip) && front[j] == e;
    assert LastIn(list, j, ip);
  }

  lemma {:induction false} KeyedKeepsLast(list: seq<PeerData>, ip: Ip)
    ensures ip in Keyed(list) <==> Mentions(list, ip)
    ensures ip in Keyed(list) ==> KeptFrom(list, ip, Keyed(list)[ip])
  {
    if list != [] {
      var front, last := list[..|list| - 1], list[|list| - 1];
      KeyedKeepsLast(front, ip);
      MentionsFront(list, ip);
      if ip == last.ip {
        assert LastIn(list, |list| - 1, ip);
      } else if ip in Keyed(front) {
        KeptStays(list, ip, Keyed(front)[ip]);
      }
    }
  }

  lemma {:induction false} KeyedSize(list: seq<PeerData>)
    ensures |Keyed(list)| <= |list|
  {
    if list != [] {
      var front, last := list[..|list| - 1], list[|list| - 1];
      KeyedSize(front);
      assert Keyed(list).Keys == Keyed(front).Keys + {last.ip};
      assert |Keyed(list).Keys| <= |Keyed(front).Keys| + 1;
    }
  }

  /** The part of list `i` that is looked at. */
  function Part(lists: seq<seq<PeerData>>, i: nat): seq<PeerData>
    requires i < |lists|
  {
    Slice(lists[i], MAX_PEERS_PER_PEER)
  }

  /** List `i` is the last whose first fifty entries mention `ip`, and `e` is its last such entry. */
  ghost predicate Wins(lists: seq<seq<PeerData>>, i: nat, ip: Ip, e: PeerData) {
    && i < |lists| && KeptFrom(Part(lists, i), ip, e)
    && forall k | i < k < |lists| :: !Mentions(Part(lists, k), ip)
  }

  ghost predicate MentionedInSome(lists: seq<seq<PeerData>>, ip: Ip) {
    exists i :: 0 <= i < |lists| && Mentions(Part(lists, i), ip)
  }

  lemma MentionedInFront(lists: seq<seq<PeerData>>, ip: Ip)
    requires lists != []
    ensures MentionedInSome(lists, ip) <==>
      MentionedInSome(lists[..|lists| - 1], ip) || Mentions(Part(lists, |lists| - 1), ip)
  {
    var front := lists[..|lists| - 1];
    if MentionedInSome(front, ip) {
      var i :| 0 <= i < |front| && Mentions(Part(front, i), ip);
      assert Part(lists, i) == Part(front, i);
    }
    if MentionedInSome(lists, ip) {
      var i :| 0 <= i < |lists| && Mentions(Part(lists, i), ip);
      assert i < |front| ==> Part(lists, i) == Part(front, i);
    }
  }

  lemma {:induction false} MergedKeepsLast(lists: seq<seq<PeerData>>, ip: Ip)
    ensures ip in Merged(lists) <==> MentionedInSome(lists, ip)
    ensures ip in Merged(lists) ==> exists i: nat :: Wins(lists, i, ip, Merged(lists)[ip])
  {
    if lists != [] {
      var n := |lists| - 1;
      var front := lists[..n];
      MergedKeepsLast(front, ip);
      MentionedInFront(lists, ip);
      KeyedKeepsLast(Part(lists, n), ip);
      if ip in Keyed(Part(lists, n)) {
        assert Wins(lists, n, ip, Merged(lists)[ip]);
      } else if ip in Merged(front) {
        var i: nat :| Wins(front, i, ip, Merged(front)[ip]);
        WinsStays(lists, i, ip, Merged(front)[ip]);
      }
    }
  }

  lemma WinsStays(lists: seq<seq<PeerData>>, i: nat, ip: Ip, e: PeerData)
    requires lists != [] && Wins(lists[..|lists| - 1], i, ip, e)
    requires !Mentions(Part(lists, |lists| - 1), ip)
    ensures Wins(lists, i, ip, e)
  {
    var front := lists[..|lists| - 1];
    assert forall k | 0 <= k < |front| :: Part(front, k) == Part(lists, k);
  }

  lemma {:induction false} MergedSize(lists: seq<seq<PeerData>>)
    ensures |Merged(lists)| <= MAX_PEERS_PER_PEER * |lists|
  {
    if lists != [] {
      var front, last := lists[..|lists| - 1], Slice(lists[|lists| - 1], MAX_PEERS_PER_PEER);
      MergedSize(front);
      KeyedSize(last);
      assert Merged(lists).Keys == Merged(front).Keys + Keyed(last).Keys;
      assert |Merged(lists).Keys| <= |Merged(front).Keys| + |Keyed(last).Keys|;
    }
  }

  /** Entry `j` of the answer of peer `i` is `e`, and both are looked at: the first eight peers are
      asked, and the first fifty entries of each answer count. */
  ghost predicate Offers(peers: seq<Ip>, answers: Ip -> Option<seq<PeerData>>, i: nat, j: nat, e: PeerData) {
    && i < |peers| && i < 8 && answers(peers[i]).Some?
    && j < |answers(peers[i]).value| && j < 50 && answers(peers[i]).value[j] == e
  }

  lemma PartOfReceived(peers: seq<Ip>, answers: Ip -> Option<seq<PeerData>>, i: nat, j: nat, e: PeerData)
    ensures var lists := Received(peers, answers);
      Offers(peers, answers, i, j, e) <==> i < |lists| && j < |Part(lists, i)| && Part(lists, i)[j] == e
  {
  }

  /** The offer of `e` is the last one for its ip: none comes from a later peer, or later from the same. */
  ghost predicate LastOffer(peers: seq<Ip>, answers: Ip -> Option<seq<PeerData>>, i: nat, j: nat, e: PeerData) {
    && Offers(peers, answers, i, j, e)
    && forall k: nat, l: nat, f | Offers(peers, answers, k, l, f) && f.ip == e.ip :: k < i || (k == i && l <= j)
  }

  lemma WinnerIsLastOffer(peers: seq<Ip>, answers: Ip -> Option<seq<PeerData>>, i: nat, ip: Ip, e: PeerData)
    returns (j: nat)
    requires Wins(Received(peers, answers), i, ip, e)
    ensures e.ip == ip && LastOffer(peers, answers, i, j, e)
  {
    var lists := Received(peers, answers);
    j :| LastIn(Part(lists, i), j, ip) && Part(lists, i)[j] == e;
    PartOfReceived(peers, answers, i, j, e);
    forall k: nat, l: nat, f | Offers(peers, answers, k, l, f) && f.ip == ip ensures k < i || (k == i && l <= j) {
      PartOfReceived(peers, answers, k, l, f);
      assert Mentions(Part(lists, k), ip);
    }
  }

  lemma MentionedIsOffered(peers: seq<Ip>, answers: Ip -> Option<seq<PeerData>>, ip: Ip)
    ensures MentionedInSome(Received(peers, answers), ip) <==>
      exists i: nat, j: nat, e :: Offers(peers, answers, i, j, e) && e.ip == ip
  {
    var lists := Received(peers, answers);
    if i :| 0 <= i < |lists| && Mentions(Part(lists, i), ip) {
      var j :| 0 <= j < |Part(lists, i)| && Part(lists, i)[j].ip == ip;
      PartOfReceived(peers, answers, i, j, Part(lists, i)[j]);
    }
    if i: nat, j: nat, e :| Offers(peers, answers, i, j, e) && e.ip == ip {
      PartOfReceived(peers, answers, i, j, e);
      assert Mentions(Part(lists, i), ip);
    }
  }

  /** The merged peers are at most 400, one for each ip that is offered, and each is the last offer
      for its ip. */
  lemma DiscoveredPeers(peers: seq<Ip>, answers: Ip -> Option<seq<PeerData>>)
    ensures
      var their := TheirPeers(peers, answers);
      && |their| <= 400
      && (forall ip :: ip in their <==> exists i: nat, j: nat, e :: Offers(peers, answers, i, j, e) && e.ip == ip)
      && (forall ip | ip in their ::
            their[ip].ip == ip && exists i: nat, j: nat :: LastOffer(peers, answers, i, j, their[ip]))
  {
    var lists, their := Received(peers, answers), TheirPeers(peers, answers);
    MergedSize(lists);
    forall ip
      ensures ip in their <==> exists i: nat, j: nat, e :: Offers(peers, answers, i, j, e) && e.ip == ip
    {
      MergedKeepsLast(lists, ip);
      MentionedIsOffered(peers, answers, ip);
    }
    forall ip | ip in their
      ensures their[ip].ip == ip && exists i: nat, j: nat :: LastOffer(peers, answers, i, j, their[ip])
    {
      MergedKeepsLast(lists, ip);
      var i: nat :| Wins(lists, i, ip, their[ip]);
      var j := WinnerIsLastOffer(peers, answers, i, ip, their[ip]);
    }
  }
}
