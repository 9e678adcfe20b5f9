/** The seed list of `peers.json` and the list fetched from its sources. */
module SeedList {
  import opened Options

  /** `rest` stands for whatever else an entry carries. */
  datatype Seed = Seed(ip: string, port: int, rest: string)

  /** What a file or a body holds: a list, or something falsy such as null. */
  datatype Content = Falsy | List(seeds: seq<Seed>)

  /** A local file or a download. The content is None if the file cannot be loaded, or if the
      body cannot be fetched or parsed. */
  datatype Source = Local(content: Option<Content>) | Remote(content: Option<Content>)

  /** The loop over the sources throws, or it leaves a list or nothing. */
  datatype Outcome = Thrown | Fetched(list: Option<seq<Seed>>)

  predicate Same(a: Seed, b: Seed) {
    a.ip == b.ip && a.port == b.port
  }

  predicate Lists(seeds: seq<Seed>, s: Seed) {
    exists i :: 0 <= i < |seeds| && Same(seeds[i], s)
  }

  /** The list after the loop over the fetched entries. */
  function Merge(list: seq<Seed>, fetched: seq<Seed>): seq<Seed> {
    if fetched == [] then list
    else
      var before := Merge(list, fetched[..|fetched| - 1]);
      var peer := fetched[|fetched| - 1];
      if Lists(before, peer) then before else before + [peer]
  }

  /** The sources before this one are downloads that failed, and this one is not. */
  ghost predicate Decides(sources: seq<Source>, i: nat)
    requires i < |sources|
  {
    sources[i] != Remote(None) && forall j | 0 <= j < i :: sources[j] == Remote(None)
  }

  class PeersFile {
    var list: Option<seq<Seed>>

    constructor (list: Option<seq<Seed>>)
      ensures this.list == list
    {
      this.list := list;
    }

    /** The first source that ends the loop decides, even if its content is falsy. */
    static method Fetch(sources: seq<Source>) returns (outcome: Outcome)
      ensures (forall i | 0 <= i < |sources| :: sources[i] == Remote(None)) ==> outcome == Fetched(None)
      ensures forall i | 0 <= i < |sources| && Decides(sources, i) ::
        outcome == match sources[i].content
          case None => Thrown
          case Some(Falsy) => Fetched(None)
          case Some(List(seeds)) => Fetched(Some(seeds))
    {
      for i := 0 to |sources|
        invariant forall j | 0 <= j < i :: sources[j] == Remote(None)
      {
        match sources[i]
        case Local(content) =>
          if content.None? {
            return Thrown;
          }
          return Fetched(if content.value.Falsy? then None else Some(content.value.seeds));
        case Remote(content) =>
          if content.Some? {
            return Fetched(if content.value.Falsy? then None else Some(content.value.seeds));
          }
      }
      outcome := Fetched(None);
    }

    /** Without a fetched list nothing changes. */
    method BuildPeers(fetched: Option<seq<Seed>>)
      modifies this
      ensures fetched.None? ==> list == old(list)
      ensures fetched.Some? ==>
        list == Some(Merge(if old(list).Some? then old(list).value else [], fetched.value))
    {
      if fetched.None? {
        return;
      }
      if list.None? {
        list := Some([]);
      }
      ghost var start := list.value;
      for i := 0 to |fetched.value|
        invariant list == Some(Merge(start, fetched.value[..i]))
      {
        var peer := fetched.value[i];
        assert fetched.value[..i + 1][..i] == fetched.value[..i];
        if !Lists(list.value, peer) {
          list := Some(list.value + [peer]);
        }
      }
      assert fetched.value[..|fetched.value|] == fetched.value;
    }
  }

  /** Entries from position `from` on are new: no earlier entry has the same ip and port. */
  ghost predicate NoRepeats(list: seq<Seed>, from: nat) {
    forall i, j | 0 <= i < j < |list| && from <= j :: !Same(list[i], list[j])
  }

  lemma {:induction false} MergeGrows(list: seq<Seed>, fetched: seq<Seed>)
    ensures list <= Merge(list, fetched)
    ensures NoRepeats(Merge(list, fetched), |list|)
    ensures forall i | |list| <= i < |Merge(list, fetched)| :: Merge(list, fetched)[i] in fetched
  {
    if fetched != [] {
      var front := fetched[..|fetched| - 1];
      MergeGrows(list, front);
      assert fetched == front + [fetched[|fetched| - 1]];
    }
  }

  lemma {:induction false} MergeCovers(list: seq<Seed>, fetched: seq<Seed>)
    ensures forall f | f in fetched :: Lists(Merge(list, fetched), f)
  {
    if fetched != [] {
      var front, peer := fetched[..|fetched| - 1], fetched[|fetched| - 1];
      MergeCovers(list, front);
      assert fetched == front + [peer];
      var before, after := Merge(list, front), Merge(list, fetched);
      forall f | f in fetched ensures Lists(after, f) {
        if f in front {
          var i :| 0 <= i < |before| && Same(before[i], f);
          assert Same(after[i], f);
        } else if !Lists(before, peer) {
          assert Same(after[|before|], f);
        }
      }
    }
  }

  ghost predicate HasAddress(seeds: seq<Seed>, ip: string, port: int) {
    exists i :: 0 <= i < |seeds| && seeds[i].ip == ip && seeds[i].port == port
  }

  lemma MergedAddresses(list: seq<Seed>, fetched: seq<Seed>, ip: string, port: int)
    ensures HasAddress(Merge(list, fetched), ip, port) <==>
      HasAddress(list, ip, port) || HasAddress(fetched, ip, port)
  {
    var r := Merge(list, fetched);
    MergeGrows(list, fetched);
    MergeCovers(list, fetched);
    if i :| 0 <= i < |r| && r[i].ip == ip && r[i].port == port {
      if i < |list| {
        assert r[i] == list[i];
      } else {
        var k :| 0 <= k < |fetched| && fetched[k] == r[i];
      }
    }
    if i :| 0 <= i < |list| && list[i].ip == ip && list[i].port == port {
      assert r[i] == list[i];
    }
    if i :| 0 <= i < |fetched| && fetched[i].ip == ip && fetched[i].port == port {
      assert fetched[i] in fetched;
      var k :| 0 <= k < |r| && Same(r[k], fetched[i]);
    }
  }

  /** The original list is kept as a prefix, every addition is a fetched entry, exactly the pairs of
      ip and port of both lists are in the result, and no addition has the ip and the port of an
      entry before it. */
  lemma MergedList(list: seq<Seed>, fetched: seq<Seed>)
    ensures
      var r := Merge(list, fetched);
      && list <= r
      && (forall i | |list| <= i < |r| :: r[i] in fetched)
      && (forall ip, port :: HasAddress(r, ip, port) <==> HasAddress(list, ip, port) || HasAddress(fetched, ip, port))
      && (forall i, j | 0 <= i < j < |r| && |list| <= j :: r[i].ip != r[j].ip || r[i].port != r[j].port)
  {
    MergeGrows(list, fetched);
    var r := Merge(list, fetched);
    forall ip, port
      ensures HasAddress(r, ip, port) <==> HasAddress(list, ip, port) || HasAddress(fetched, ip, port)
    {
      MergedAddresses(list, fetched, ip, port);
    }
    assert forall i, j | 0 <= i < j < |r| && |list| <= j :: !Same(r[i], r[j]);
  }

  lemma {:induction false} NothingToAdd(list: seq<Seed>, fetched: seq<Seed>)
    requires forall f | f in fetched :: Lists(list, f)
    ensures Merge(list, fetched) == list
  {
    if fetched != [] {
      var front := fetched[..|fetched| - 1];
      assert fetched == front + [fetched[|fetched| - 1]];
      NothingToAdd(list, front);
    }
  }

  /** Merging the same fetched list again changes nothing. */
  lemma MergeTwice(list: seq<Seed>, fetched: seq<Seed>)
    ensures Merge(Merge(list, fetched), fetched) == Merge(list, fetched)
  {
    MergeCovers(list, fetched);
    NothingToAdd(Merge(list, fetched), fetched);
  }
}
