/** The ring and the migration planner as the source runs them: loops over virtual nodes that update a
    slice and a map, and binary searches. Every method is proved against RingModel and MigrationPlan. */
module HashRing {
  import opened Options
  import opened HashRange
  import opened RingModel
  import R = RingModel
  import opened MigrationPlan

  /** sort.Search for the first element >= h. */
  method BinarySearch(s: seq<uint32>, h: uint32) returns (i: nat)
    requires Sorted(s)
    ensures i == Search(s, h)
  {
    i := 0;
    var j := |s|;
    while i < j
      invariant 0 <= i <= j <= |s|
      invariant forall k :: 0 <= k < i ==> s[k] < h
      invariant forall k :: j <= k < |s| ==> s[k] >= h
    {
      var mid := (i + j) / 2;
      if s[mid] >= h {
        j := mid;
      } else {
        i := mid + 1;
      }
    }
    SearchIs(s, h, i);
  }

  lemma {:induction false} SearchIs(s: seq<uint32>, h: uint32, i: nat)
    requires i <= |s| && (forall k :: 0 <= k < i ==> s[k] < h) && (i < |s| ==> s[i] >= h)
    ensures Search(s, h) == i
  {
    if i > 0 {
      SearchIs(s[1..], h, i - 1);
    }
  }

  lemma {:induction false} RemoveFirstAt(s: seq<uint32>, x: uint32, i: nat)
    requires i <= |s| && (forall k :: 0 <= k < i ==> s[k] != x) && (i < |s| ==> s[i] == x)
    ensures RemoveFirst(s, x) == if i == |s| then s else s[..i] + s[i + 1..]
  {
    if 0 < i {
      RemoveFirstAt(s[1..], x, i - 1);
      assert i < |s| ==> s[..i] + s[i + 1..] == [s[0]] + (s[1..][..i - 1] + s[1..][i..]);
    }
  }

  lemma SpotsStep(hash: string -> uint32, shard: string, i: nat)
    ensures Spots(hash, shard, i + 1) == Spots(hash, shard, i) + [hash(VirtualKey(shard, i))]
    ensures Spots(hash, shard, i + 1)[..i] == Spots(hash, shard, i)
  {
  }

  class HashRing {
    var hashValues: seq<uint32>
    var hashToShard: map<uint32, string>
    var nodeAddresses: map<string, string>
    var shardToNodes: map<string, seq<string>>
    const virtualNodes: int
    const hash: string -> uint32

    constructor (virtualNodes: int, hash: string -> uint32)
      ensures State() == Empty(virtualNodes) && this.hash == hash
      ensures nodeAddresses == map[] && shardToNodes == map[]
    {
      hashValues, hashToShard, nodeAddresses, shardToNodes := [], map[], map[], map[];
      this.virtualNodes, this.hash := virtualNodes, hash;
    }

    function State(): R.Ring
      reads this
    {
      R.Ring(hashValues, hashToShard, virtualNodes)
    }

    method AddShard(shardID: string)
      modifies `hashValues, `hashToShard
      ensures State() == R.AddShard(hash, old(State()), shardID)
    {
      hide Spots, Sort, Claim;
      NoSpots(hash, shardID, hashValues);
      EntriesStep(hashToShard, [], 0, shardID);
      for i := 0 to Count(virtualNodes)
        invariant hashValues == old(hashValues) + Spots(hash, shardID, i)
        invariant hashToShard == Claim(old(hashToShard), Spots(hash, shardID, i), shardID)
      {
        var hashValue := hash(VirtualKey(shardID, i));
        SpotsStep(hash, shardID, i);
        EntriesStep(old(hashToShard), Spots(hash, shardID, i), hashValue, shardID);
        hashToShard := hashToShard[hashValue := shardID];
        hashValues := hashValues + [hashValue];
      }
      hashValues := Sort(hashValues);
    }

    method RemoveShard(shardID: string)
      modifies `hashValues, `hashToShard
      ensures State() == R.RemoveShard(hash, old(State()), shardID)
    {
      hide Spots, RemoveFirst, RemoveEach;
      NoSpots(hash, shardID, hashValues);
      for i := 0 to Count(virtualNodes)
        invariant hashValues == RemoveEach(old(hashValues), Spots(hash, shardID, i))
        invariant hashToShard == old(hashToShard) - (set p | p in Spots(hash, shardID, i))
      {
        var hashValue := hash(VirtualKey(shardID, i));
        SpotsStep(hash, shardID, i);
        RemoveEachStep(old(hashValues), Spots(hash, shardID, i), hashValue);
        hashToShard := hashToShard - {hashValue};
        var idx := 0;
        while idx < |hashValues| && hashValues[idx] != hashValue
          invariant idx <= |hashValues| && forall k :: 0 <= k < idx ==> hashValues[k] != hashValue
        {
          idx := idx + 1;
        }
        RemoveFirstAt(hashValues, hashValue, idx);
        if idx < |hashValues| {
          hashValues := hashValues[..idx] + hashValues[idx + 1..];
        }
      }
    }

    /** GetShard and GetNode. */
    method GetShard(key: string) returns (r: Option<string>)
      requires Sorted(hashValues)
      ensures r == Lookup(State(), hash(key))
    {
      if |hashValues| == 0 {
        return None;
      }
      var idx := BinarySearch(hashValues, hash(key));
      if idx >= |hashValues| {
        idx := 0;
      }
      var hashValue := hashValues[idx];
      return Some(if hashValue in hashToShard then hashToShard[hashValue] else "");
    }

    method NewTask(newNodeID: string, vhash: uint32) returns (task: Task)
      requires Sorted(hashValues) && hashValues != []
      ensures task == AddTask(State(), newNodeID, vhash)
    {
      hide Sorted, Search;
      var idx := BinarySearch(hashValues, vhash);
      if idx == |hashValues| {
        idx := 0;
      }
      var prevHash := if idx == 0 then hashValues[|hashValues| - 1] else hashValues[idx - 1];
      var prevNode := if prevHash in hashToShard then hashToShard[prevHash] else "";
      return Task(prevNode, newNodeID, "*", prevHash, vhash);
    }

    /** None when the ring is empty: the source then indexes position -1. */
    method CalculateMigrations(newNodeID: string) returns (r: Option<seq<Task>>)
      requires Sorted(hashValues)
      ensures r.None? <==> hashValues == [] && virtualNodes > 0
      ensures hashValues != [] ==> r == Some(AddPlan(hash, State(), newNodeID, Count(virtualNodes)))
      ensures virtualNodes <= 0 ==> r == Some([])
    {
      hide Sorted, AddTask;
      var tasks: seq<Task> := [];
      for i := 0 to Count(virtualNodes)
        invariant i > 0 ==> hashValues != []
        invariant hashValues != [] ==> tasks == AddPlan(hash, State(), newNodeID, i)
        invariant i == 0 ==> tasks == []
      {
        if hashValues == [] {
          return None;
        }
        var task := NewTask(newNodeID, hash(VirtualKey(newNodeID, i)));
        if task.from != newNodeID {
          tasks := tasks + [task];
        }
      }
      return Some(tasks);
    }

    method LeavingTask(removeNodeID: string, vhash: uint32) returns (task: Task)
      requires Sorted(hashValues) && hashValues != []
      ensures task == RemoveTask(State(), removeNodeID, vhash)
    {
      hide Sorted, Search;
      var idx := BinarySearch(hashValues, vhash);
      var nextHash := hashValues[(idx + 1) % |hashValues|];
      var nextNode := if nextHash in hashToShard then hashToShard[nextHash] else "";
      var prevHash := if idx == 0 then hashValues[|hashValues| - 1] else hashValues[idx - 1];
      return Task(removeNodeID, nextNode, "*", prevHash, vhash);
    }

    method CalculateMigrationsForRemoval(removeNodeID: string) returns (tasks: seq<Task>)
      requires Sorted(hashValues)
      ensures hashValues == [] ==> tasks == []
      ensures hashValues != [] ==> tasks == RemovePlan(hash, State(), removeNodeID, Count(virtualNodes))
    {
      hide Sorted, RemoveTask;
      if |hashValues| == 0 {
        return [];
      }
      tasks := [];
      for i := 0 to Count(virtualNodes)
        invariant tasks == RemovePlan(hash, State(), removeNodeID, i)
      {
        var task := LeavingTask(removeNodeID, hash(VirtualKey(removeNodeID, i)));
        if task.to != removeNodeID {
          tasks := tasks + [task];
        }
      }
    }
  }

  lemma EntriesStep(m: map<uint32, string>, xs: seq<uint32>, x: uint32, shard: string)
    ensures Claim(m, xs, shard)[x := shard] == Claim(m, xs + [x], shard)
    ensures Claim(m, [], shard) == m
  {
  }

  lemma NoSpots(hash: string -> uint32, shard: string, s: seq<uint32>)
    ensures Spots(hash, shard, 0) == [] && s + Spots(hash, shard, 0) == s
    ensures RemoveEach(s, Spots(hash, shard, 0)) == s
  {
  }

  lemma RemoveEachStep(s: seq<uint32>, xs: seq<uint32>, x: uint32)
    ensures RemoveEach(s, xs + [x]) == RemoveFirst(RemoveEach(s, xs), x)
  {
    assert (xs + [x])[..|xs|] == xs;
  }
}
