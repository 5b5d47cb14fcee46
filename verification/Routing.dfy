/** Which node serves a key: internal/server/state.go with the shard tables of internal/config/config.go and
    internal/cluster/hash.go. */
module Routing {
  import opened Options
  import opened Decimal

  datatype Shard = Shard(id: string, leader: string, followers: seq<string>)
  datatype NodeInfo = NodeInfo(id: string, host: string, port: nat)

  /** What a node knows of the cluster: its configuration, and the member list of each shard on the ring. */
  datatype View = View(shards: seq<Shard>, nodes: seq<NodeInfo>, members: map<string, seq<string>>)

  /** The shard the ring gives for a key; None is an empty ring. */
  type Owner = string -> Option<string>

  datatype Decision = Local | Moved(node: string, address: string)

  predicate In(node: string, s: Shard) {
    node == s.leader || node in s.followers
  }

  function ShardOf(shards: seq<Shard>, node: string): Option<Shard> {
    if shards == [] then None
    else if In(node, shards[0]) then Some(shards[0])
    else ShardOf(shards[1..], node)
  }

  function LeaderOf(view: View, shard: string): Option<string> {
    if shard in view.members && view.members[shard] != [] then Some(view.members[shard][0]) else None
  }

  function Address(nodes: seq<NodeInfo>, id: string): string {
    if nodes == [] then ""
    else if nodes[0].id == id then nodes[0].host + ":" + Itoa(nodes[0].port)
    else Address(nodes[1..], id)
  }

  function Decide(view: View, owner: Owner, me: string, key: string, isWrite: bool): Decision {
    var s, mine := owner(key), ShardOf(view.shards, me);
    if s.None? || mine.None? then Local
    else if s.value == mine.value.id && !isWrite then Local
    else
      match LeaderOf(view, s.value)
      case None => Local
      case Some(leader) =>
        if s.value == mine.value.id && leader == me then Local else Moved(leader, Address(view.nodes, leader))
  }

  method GetShardForNode(shards: seq<Shard>, node: string) returns (r: Option<Shard>)
    ensures r == ShardOf(shards, node)
  {
    var i := 0;
    assert shards[0..] == shards;
    while i < |shards|
      invariant 0 <= i <= |shards|
      invariant ShardOf(shards, node) == ShardOf(shards[i..], node)
    {
      assert shards[i..][0] == shards[i] && shards[i..][1..] == shards[i + 1..];
      if shards[i].leader == node {
        return Some(shards[i]);
      }
      var j := 0;
      while j < |shards[i].followers|
        invariant 0 <= j <= |shards[i].followers|
        invariant node !in shards[i].followers[..j]
      {
        if shards[i].followers[j] == node {
          return Some(shards[i]);
        }
        j := j + 1;
      }
      assert shards[i].followers[..j] == shards[i].followers;
      i := i + 1;
    }
    return None;
  }

  method FindAddress(nodes: seq<NodeInfo>, id: string) returns (address: string)
    ensures address == Address(nodes, id)
  {
    var i := 0;
    assert nodes[0..] == nodes;
    while i < |nodes|
      invariant 0 <= i <= |nodes|
      invariant Address(nodes, id) == Address(nodes[i..], id)
    {
      assert nodes[i..][0] == nodes[i] && nodes[i..][1..] == nodes[i + 1..];
      if nodes[i].id == id {
        return nodes[i].host + ":" + Itoa(nodes[i].port);
      }
      i := i + 1;
    }
    return "";
  }

  method ShouldForwardRequest(view: View, owner: Owner, me: string, key: string, isWrite: bool) returns (d: Decision)
    ensures d == Decide(view, owner, me, key, isWrite)
  {
    var s := owner(key);
    if s.None? {
      return Local;
    }
    var mine := GetShardForNode(view.shards, me);
    if mine.None? {
      return Local;
    }
    if s.value == mine.value.id {
      if !isWrite {
        return Local;
      }
      var leader := LeaderOf(view, s.value);
      if leader.None? || leader.value == me {
        return Local;
      }
      var address := FindAddress(view.nodes, leader.value);
      return Moved(leader.value, address);
    }
    var leader := LeaderOf(view, s.value);
    if leader.None? {
      return Local;
    }
    var address := FindAddress(view.nodes, leader.value);
    return Moved(leader.value, address);
  }

  // ----- where a redirect ends

  /** Node i is the first configured with this identifier. */
  predicate FirstWithId(nodes: seq<NodeInfo>, id: string, i: int) {
    0 <= i < |nodes| && nodes[i].id == id && forall j :: 0 <= j < i ==> nodes[j].id != id
  }

  /** The address is host, colon and port of that node, or nothing if there is none. */
  ghost predicate AddressOf(nodes: seq<NodeInfo>, id: string, address: string) {
    && (forall i :: FirstWithId(nodes, id, i) ==> address == nodes[i].host + ":" + Itoa(nodes[i].port))
    && ((forall i :: 0 <= i < |nodes| ==> nodes[i].id != id) ==> address == "")
  }

  lemma {:induction false} AddressIsFirst(nodes: seq<NodeInfo>, id: string)
    ensures AddressOf(nodes, id, Address(nodes, id))
    decreases nodes
  {
    hide Itoa;
    if nodes != [] && nodes[0].id != id {
      AddressIsFirst(nodes[1..], id);
      forall i | FirstWithId(nodes, id, i) ensures Address(nodes, id) == nodes[i].host + ":" + Itoa(nodes[i].port) {
        assert nodes[1..][i - 1] == nodes[i];
        assert forall j :: 0 <= j < i - 1 ==> nodes[1..][j] == nodes[j + 1];
        assert FirstWithId(nodes[1..], id, i - 1);
      }
      if forall i :: 0 <= i < |nodes| ==> nodes[i].id != id {
        assert forall i :: 0 <= i < |nodes[1..]| ==> nodes[1..][i] == nodes[i + 1];
      }
    }
  }

  /** Every redirect names the leader of the shard that owns the key, with the address configured for it. */
  lemma RedirectIs(view: View, owner: Owner, me: string, key: string, isWrite: bool)
    ensures var d := Decide(view, owner, me, key, isWrite);
            d.Moved? ==> && owner(key).Some? && LeaderOf(view, owner(key).value) == Some(d.node)
                         && AddressOf(view.nodes, d.node, d.address)
  {
    hide AddressOf, Address;
    var d := Decide(view, owner, me, key, isWrite);
    if d.Moved? {
      AddressIsFirst(view.nodes, d.node);
    }
  }

  /** Among nodes that share one view, the target of a redirect serves the request itself exactly when the
      configuration does not put it in another shard; if it does, that node redirects to itself. */
  lemma OneHop(view: View, owner: Owner, me: string, key: string, isWrite: bool)
    requires Decide(view, owner, me, key, isWrite).Moved?
    ensures var target := Decide(view, owner, me, key, isWrite).node;
            var at := ShardOf(view.shards, target);
            var next := Decide(view, owner, target, key, isWrite);
            && (next == Local <==> at.None? || at.value.id == owner(key).value)
            && (next != Local ==> next.node == target)
  {
  }

  /** The failing input: the leader of one shard is listed as a follower of an earlier one. */
  lemma SelfRedirect()
    ensures exists view, owner, me, key ::
      var d := Decide(view, owner, me, key, true);
      d.Moved? && Decide(view, owner, d.node, key, true) == d
  {
    var s1, s2 := Shard("s1", "a", ["b"]), Shard("s2", "b", []);
    var view := View([s1, s2], [], map["s1" := ["a", "b"], "s2" := ["b"]]);
    var owner: Owner := (_: string) => Some("s2");
    assert In("a", s1) && In("b", s1) && view.shards[0] == s1;
    assert ShardOf(view.shards, "a") == Some(s1) && ShardOf(view.shards, "b") == Some(s1);
    assert Decide(view, owner, "a", "k", true) == Moved("b", "");
    assert Decide(view, owner, "b", "k", true) == Moved("b", "");
  }

  /** Every shard has its own identifier and its own nodes, and the ring lists its leader first. */
  ghost predicate Coherent(view: View) {
    && (forall i :: 0 <= i < |view.shards| ==>
          var s := view.shards[i]; s.id in view.members && view.members[s.id] == [s.leader] + s.followers)
    && (forall i, j, n :: 0 <= i < j < |view.shards| && In(n, view.shards[i]) ==> !In(n, view.shards[j]))
    && (forall i, j :: 0 <= i < j < |view.shards| ==> view.shards[i].id != view.shards[j].id)
  }

  lemma {:induction false} ShardOfMember(shards: seq<Shard>, k: nat, node: string)
    requires k < |shards| && In(node, shards[k])
    requires forall i, j, n :: 0 <= i < j < |shards| && In(n, shards[i]) ==> !In(n, shards[j])
    ensures ShardOf(shards, node) == Some(shards[k])
    decreases k
  {
    if k > 0 {
      assert !In(node, shards[0]);
      forall i, j, n | 0 <= i < j < |shards[1..]| && In(n, shards[1..][i]) ensures !In(n, shards[1..][j]) {
        assert In(n, shards[i + 1]) ==> !In(n, shards[j + 1]);
      }
      ShardOfMember(shards[1..], k - 1, node);
    }
  }

  lemma {:induction false} ShardOfIsMember(shards: seq<Shard>, node: string)
    ensures ShardOf(shards, node).Some? ==> exists k :: 0 <= k < |shards| && shards[k] == ShardOf(shards, node).value && In(node, shards[k])
    ensures ShardOf(shards, node).None? ==> forall k :: 0 <= k < |shards| ==> !In(node, shards[k])
  {
    if shards != [] {
      ShardOfIsMember(shards[1..], node);
      assert shards == [shards[0]] + shards[1..];
      if !In(node, shards[0]) && ShardOf(shards[1..], node).Some? {
        var k :| 0 <= k < |shards[1..]| && shards[1..][k] == ShardOf(shards[1..], node).value && In(node, shards[1..][k]);
        assert shards[k + 1] == ShardOf(shards, node).value && In(node, shards[k + 1]);
      }
    }
  }

  /** The member lists are those of the configured shards and no others, as the server sets them at start. */
  ghost predicate Configured(view: View) {
    && Coherent(view) && view.shards != []
    && forall id :: id in view.members ==> exists k :: 0 <= k < |view.shards| && view.shards[k].id == id
  }

  /** The ring's owner of the key is the k-th configured shard. */
  predicate OwnedBy(view: View, owner: Owner, key: string, k: int) {
    0 <= k < |view.shards| && owner(key) == Some(view.shards[k].id)
  }

  /** What each node with a shard does. If the owner is a configured shard, its leader alone keeps a write, its nodes
      alone keep a read, and everyone else names that leader with its configured address, and the leader keeps the
      request. Otherwise everyone keeps it. */
  lemma ServedByOwner(view: View, owner: Owner, me: string, key: string, isWrite: bool)
    requires Configured(view) && ShardOf(view.shards, me).Some?
    ensures var d := Decide(view, owner, me, key, isWrite);
            && (forall k :: OwnedBy(view, owner, key, k) ==>
                  var s := view.shards[k];
                  && (d == Local <==> if isWrite then me == s.leader else In(me, s))
                  && (d != Local ==> && d.node == s.leader && AddressOf(view.nodes, s.leader, d.address)
                                     && Decide(view, owner, s.leader, key, isWrite) == Local))
            && ((forall k :: !OwnedBy(view, owner, key, k)) ==> d == Local)
  {
    forall k | OwnedBy(view, owner, key, k)
      ensures var d, s := Decide(view, owner, me, key, isWrite), view.shards[k];
              && (d == Local <==> if isWrite then me == s.leader else In(me, s))
              && (d != Local ==> && d.node == s.leader && AddressOf(view.nodes, s.leader, d.address)
                                 && Decide(view, owner, s.leader, key, isWrite) == Local)
    {
      hide Decide, Coherent, AddressOf;
      OwnerServes(view, owner, k, me, key, isWrite);
      RedirectIs(view, owner, me, key, isWrite);
    }
    hide Decide, Coherent, AddressOf;
    if forall k :: !OwnedBy(view, owner, key, k) {
      KeptByAll(view, owner, me, key, isWrite);
    }
  }

  lemma OwnerServes(view: View, owner: Owner, k: int, me: string, key: string, isWrite: bool)
    requires Coherent(view) && OwnedBy(view, owner, key, k) && ShardOf(view.shards, me).Some?
    ensures var d, s := Decide(view, owner, me, key, isWrite), view.shards[k];
            && (d == Local <==> if isWrite then me == s.leader else In(me, s))
            && (d != Local ==> d.node == s.leader && Decide(view, owner, s.leader, key, isWrite) == Local)
  {
    var s := view.shards[k];
    ShardOfMember(view.shards, k, s.leader);
    ShardOfIsMember(view.shards, me);
    var m :| 0 <= m < |view.shards| && view.shards[m] == ShardOf(view.shards, me).value && In(me, view.shards[m]);
    assert m == k <==> view.shards[m].id == s.id;
    assert m != k ==> !In(me, s);
    assert LeaderOf(view, s.id) == Some(s.leader);
  }

  /** No member list, no redirect: GetShardLeader fails and the request is handled where it arrived. */
  lemma KeptByAll(view: View, owner: Owner, me: string, key: string, isWrite: bool)
    requires Configured(view) && forall k :: !OwnedBy(view, owner, key, k)
    ensures Decide(view, owner, me, key, isWrite) == Local
  {
    var s, mine := owner(key), ShardOf(view.shards, me);
    if s.Some? && mine.Some? {
      ShardOfIsMember(view.shards, me);
      var m :| 0 <= m < |view.shards| && view.shards[m] == mine.value;
      forall k | 0 <= k < |view.shards| ensures view.shards[k].id != s.value {
        assert !OwnedBy(view, owner, key, k);
      }
      assert s.value !in view.members;
    }
  }

  /** Every node with a shard that keeps a write of the key leads the shard that owns it. */
  ghost predicate OnlyLeaderKeeps(view: View, owner: Owner, key: string) {
    forall me :: ShardOf(view.shards, me).Some? && Decide(view, owner, me, key, true) == Local ==>
      exists k :: OwnedBy(view, owner, key, k) && view.shards[k].leader == me
  }

  /** The exact condition: the ring's owner of the key is a configured shard. */
  lemma OnlyLeaderKeepsIff(view: View, owner: Owner, key: string)
    requires Configured(view)
    ensures OnlyLeaderKeeps(view, owner, key) <==> exists k :: OwnedBy(view, owner, key, k)
  {
    if k :| OwnedBy(view, owner, key, k) {
      forall me | ShardOf(view.shards, me).Some? && Decide(view, owner, me, key, true) == Local
        ensures OwnedBy(view, owner, key, k) && view.shards[k].leader == me
      {
        OwnerServes(view, owner, k, me, key, true);
      }
    } else {
      var me := view.shards[0].leader;
      ShardOfIsMember(view.shards, me);
      KeptByAll(view, owner, me, key, true);
    }
  }
}
