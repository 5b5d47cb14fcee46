/** The ring that the Go cluster client builds for itself (pkg/client/cluster_client.go), against the servers'. */
module ClientRing {
  import opened Options
  import opened HashRange
  import opened RingModel

  /** The node ids that buildHashRing adds: those reported as "active". */
  function ActiveIds(nodes: seq<(string, string)>): seq<string> {
    if nodes == [] then []
    else ActiveIds(nodes[..|nodes| - 1]) + (if nodes[|nodes| - 1].1 == "active" then [nodes[|nodes| - 1].0] else [])
  }

  /** A position of a shard is its own. */
  lemma OwnPosition(hash: string -> uint32, n: int, shards: seq<string>, s: string, p: uint32)
    requires NoCollisions(hash, n, shards) && s in shards && p in Spots(hash, s, Count(n))
    ensures Lookup(Build(hash, n, shards), p) == Some(s)
  {
    BuildOwners(hash, n, shards);
    var r := Build(hash, n, shards);
    hide Build, Spots;
    assert p in r.owner && r.owner[p] == s;
    assert forall q :: q in r.positions ==> Gap(p, p) <= Gap(p, q);
    ResponsibleIs(r.positions, p, p);
  }

  lemma OwnerIsListed(hash: string -> uint32, n: int, shards: seq<string>, h: uint32)
    ensures Lookup(Build(hash, n, shards), h).Some? ==> Lookup(Build(hash, n, shards), h).value in shards
  {
    BuildOwners(hash, n, shards);
    var r := Build(hash, n, shards);
    hide Build, Spots;
    LookupHitsEntry(r, h);
  }

  lemma MissingShardShows(hash: string -> uint32, n: int, a: seq<string>, b: seq<string>, s: string)
    requires n > 0 && NoCollisions(hash, n, a) && s in a && s !in b
    ensures exists h: uint32 :: Lookup(Build(hash, n, a), h) != Lookup(Build(hash, n, b), h)
  {
    var p := Spots(hash, s, Count(n))[0];
    hide Build, Lookup, NoCollisions;
    OwnPosition(hash, n, a, s, p);
    OwnerIsListed(hash, n, b, p);
    assert Lookup(Build(hash, n, a), p) != Lookup(Build(hash, n, b), p);
  }

  /** Without collisions two rings agree on every hash exactly when they were built from the same names. */
  lemma RingsAgreeIff(hash: string -> uint32, n: int, a: seq<string>, b: seq<string>)
    requires n > 0 && NoCollisions(hash, n, a + b)
    ensures (forall h: uint32 :: Lookup(Build(hash, n, a), h) == Lookup(Build(hash, n, b), h))
      <==> (forall s :: s in a <==> s in b)
  {
    assert NoCollisions(hash, n, a) && NoCollisions(hash, n, b);
    hide Build, Lookup, NoCollisions;
    if forall s :: s in a <==> s in b {
      forall h: uint32 ensures Lookup(Build(hash, n, a), h) == Lookup(Build(hash, n, b), h) {
        RingAgreement(hash, n, a, b, h);
      }
    } else if s :| s in a && s !in b {
      MissingShardShows(hash, n, a, b, s);
    } else {
      var s :| s in b && s !in a;
      MissingShardShows(hash, n, b, a, s);
    }
  }

  /** A server with a health checker reports no node as active, so the client adds none, and disagrees with every ring
      that has a shard. */
  lemma ClientAddsNoNode(hash: string -> uint32, n: int, nodes: seq<(string, string)>, shards: seq<string>)
    requires n > 0 && shards != [] && NoCollisions(hash, n, shards)
    requires forall i :: 0 <= i < |nodes| ==> nodes[i].1 in {"alive", "suspected", "dead", "unknown"}
    ensures ActiveIds(nodes) == []
    ensures exists h: uint32 :: Lookup(Build(hash, n, ActiveIds(nodes)), h) != Lookup(Build(hash, n, shards), h)
  {
    NoneActive(nodes);
    hide Build, Lookup, NoCollisions;
    MissingShardShows(hash, n, shards, [], shards[0]);
  }

  lemma {:induction false} NoneActive(nodes: seq<(string, string)>)
    requires forall i :: 0 <= i < |nodes| ==> nodes[i].1 != "active"
    ensures ActiveIds(nodes) == []
  {
    if nodes != [] {
      NoneActive(nodes[..|nodes| - 1]);
    }
  }
}
