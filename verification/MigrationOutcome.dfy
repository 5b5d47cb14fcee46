/** Where every key is after a completed migration: the plan, the transfer and the ring together. */
module MigrationOutcome {
  import opened Options
  import opened HashRange
  import opened MigrationPlan
  import opened Migrator
  import opened Transfer
  import R = RingModel

  /** A completed join: the node keeps exactly the keys whose next hash the new ring gives to another shard than
      the new one, and the new node holds all the others. */
  lemma JoinComplete(hash: string -> uint32, r: R.Ring, node: string, address: string, items: Items, items': Items,
                     stores: Stores, from: int, until: int)
    requires R.Valid(r) && r.positions != [] && R.NoClash(hash, r, node)
    requires forall p :: p in r.owner ==> r.owner[p] != node
    requires var plan := AddPlan(hash, r, node, R.Count(r.virtualNodes));
             Kept(items, items', stores, hash, plan, seq(|plan|, _ => address), from, until) && Cleared(items', hash, plan)
    ensures forall k :: k in items ==>
              && (k in items' <==> R.Lookup(R.AddShard(hash, r, node), Next(hash(k))) != Some(node))
              && (k in items' ==> items'[k] == items[k])
              && (k !in items' ==> Arrived(items[k], Held(stores, address, k), from, until))
  {
    hide R.AddShard, R.NoClash, R.Valid, R.Lookup, AddPlan, Arrived, InTask;
    var plan := AddPlan(hash, r, node, R.Count(r.virtualNodes));
    var targets := seq(|plan|, _ => address);
    forall k | k in items
      ensures k in items' <==> R.Lookup(R.AddShard(hash, r, node), Next(hash(k))) != Some(node)
      ensures k !in items' ==> Arrived(items[k], Held(stores, address, k), from, until)
    {
      AddPlanExact(hash, r, node, hash(k));
      if k !in items' {
        var j :| 0 <= j < |plan| && MovedBy(k, items[k], stores, hash, plan[j], targets[j], from, until);
        assert InTask(hash(k), plan[j]) && targets[j] == address;
      }
    }
  }

  /** So, for a key that does not hash to a ring position, it is kept exactly if the new shard does not own it. */
  lemma JoinOffPositions(hash: string -> uint32, r: R.Ring, node: string, address: string, items: Items, items': Items,
                         stores: Stores, from: int, until: int, k: string)
    requires R.Valid(r) && r.positions != [] && R.NoClash(hash, r, node)
    requires forall p :: p in r.owner ==> r.owner[p] != node
    requires var plan := AddPlan(hash, r, node, R.Count(r.virtualNodes));
             Kept(items, items', stores, hash, plan, seq(|plan|, _ => address), from, until) && Cleared(items', hash, plan)
    requires k in items && hash(k) !in R.AddShard(hash, r, node).positions
    ensures k in items' <==> R.Lookup(R.AddShard(hash, r, node), hash(k)) != Some(node)
  {
    R.AddValid(hash, r, node);
    assert R.Sorted(R.AddShard(hash, r, node).positions);
    hide R.AddShard, R.NoClash, R.Valid, R.Lookup, AddPlan, Kept, Cleared;
    JoinComplete(hash, r, node, address, items, items', stores, from, until);
    SameOwnerOffPositions(R.AddShard(hash, r, node), hash(k));
  }

  lemma {:induction false} RemovePlanOrigin(hash: string -> uint32, r: R.Ring, node: string, n: nat, j: nat)
    requires r.positions != [] && j < |RemovePlan(hash, r, node, n)|
    ensures exists v :: v in R.Spots(hash, node, n) && RemovePlan(hash, r, node, n)[j] == RemoveTask(r, node, v)
                        && RemoveTask(r, node, v).to != node
  {
    hide RemoveTask, R.Spots, R.VirtualKey;
    var v := hash(R.VirtualKey(node, n - 1));
    var most := RemovePlan(hash, r, node, n - 1);
    if j < |most| {
      RemovePlanOrigin(hash, r, node, n - 1, j);
      var w :| w in R.Spots(hash, node, n - 1) && most[j] == RemoveTask(r, node, w) && RemoveTask(r, node, w).to != node;
      SpotsSnoc(hash, node, n, w);
    } else {
      SpotsSnoc(hash, node, n, v);
    }
  }

  /** A completed departure: the node keeps exactly the keys whose next hash it does not hand over, and every other
      key is held by the node that the ring without it names for that hash. */
  lemma LeaveComplete(hash: string -> uint32, r: R.Ring, node: string, addresses: map<string, string>, items: Items,
                      items': Items, stores: Stores, from: int, until: int, k: string)
    requires Settled(hash, r, node) && r.positions != [] && k in items
    requires var plan := RemovePlan(hash, r, node, R.Count(r.virtualNodes));
             Kept(items, items', stores, hash, plan, Addresses(plan, addresses), from, until) && Cleared(items', hash, plan)
    ensures k in items' <==> !HandsOver(r, node, Next(hash(k)))
    ensures k in items' ==> items'[k] == items[k]
    ensures k !in items' ==>
              var owner := R.Lookup(R.RemoveShard(hash, r, node), Next(hash(k)));
              && owner.Some? && Arrived(items[k], Held(stores, ValueOf(addresses, owner.value), k), from, until)
              && (hash(k) !in r.positions ==> owner == R.Lookup(R.RemoveShard(hash, r, node), hash(k)))
  {
    hide *;
    var plan := RemovePlan(hash, r, node, R.Count(r.virtualNodes));
    RemovePlanExact(hash, r, node, hash(k));
    if k in items' {
      StillHere(items, items', stores, hash, plan, Addresses(plan, addresses), from, until, k);
    } else {
      var j := MovedAway(items, items', stores, hash, plan, Addresses(plan, addresses), from, until, k);
      TaskReaches(hash, r, node, j, hash(k));
      TargetAt(plan, addresses, j);
    }
  }

  lemma StillHere(items: Items, items': Items, stores: Stores, hash: string -> uint32, plan: seq<Task>, targets: seq<string>,
                  from: int, until: int, k: string)
    requires |targets| == |plan| && k in items' && Cleared(items', hash, plan)
    requires Kept(items, items', stores, hash, plan, targets, from, until)
    ensures k in items && items'[k] == items[k] && !InPlan(hash(k), plan)
  {
    hide InPlan, MovedBy;
  }

  lemma MovedAway(items: Items, items': Items, stores: Stores, hash: string -> uint32, plan: seq<Task>, targets: seq<string>,
                  from: int, until: int, k: string)
    returns (j: nat)
    requires |targets| == |plan| && k in items && k !in items'
    requires Kept(items, items', stores, hash, plan, targets, from, until)
    ensures j < |plan| && InTask(hash(k), plan[j]) && InPlan(hash(k), plan)
    ensures Arrived(items[k], Held(stores, targets[j], k), from, until)
  {
    hide InTask, Arrived, Held;
    j :| 0 <= j < |plan| && MovedBy(k, items[k], stores, hash, plan[j], targets[j], from, until);
  }

  /** Where no two neighbouring positions belong to the leaving node, it keeps exactly the keys it did not own,
      ring positions aside. */
  lemma LeaveScattered(hash: string -> uint32, r: R.Ring, node: string, addresses: map<string, string>, items: Items,
                       items': Items, stores: Stores, from: int, until: int, k: string)
    requires Settled(hash, r, node) && r.positions != [] && k in items && hash(k) !in r.positions
    requires forall p :: p in r.owner && r.owner[p] == node ==> r.owner[After(r.positions, p)] != node
    requires var plan := RemovePlan(hash, r, node, R.Count(r.virtualNodes));
             Kept(items, items', stores, hash, plan, Addresses(plan, addresses), from, until) && Cleared(items', hash, plan)
    ensures k in items' <==> R.Lookup(r, hash(k)) != Some(node)
  {
    CoveredKey(hash, r, node, hash(k));
    hide R.RemoveShard, R.Lookup, R.Count, Settled, RemovePlan, After, Addresses, HandsOver, Kept, Cleared;
    LeaveComplete(hash, r, node, addresses, items, items', stores, from, until, k);
  }

  lemma CoveredKey(hash: string -> uint32, r: R.Ring, node: string, h: uint32)
    requires Settled(hash, r, node) && r.positions != [] && h !in r.positions
    requires forall p :: p in r.owner && r.owner[p] == node ==> r.owner[After(r.positions, p)] != node
    ensures R.Lookup(r, h) == Some(node) <==> HandsOver(r, node, Next(h))
  {
    assert R.Sorted(r.positions);
    SameOwnerOffPositions(r, h);
    R.LookupHitsEntry(r, Next(h));
    RemovePlanCovers(hash, r, node);
    RemovePlanExact(hash, r, node, h);
  }

  lemma TargetAt(plan: seq<Task>, addresses: map<string, string>, j: nat)
    requires j < |plan|
    ensures Addresses(plan, addresses)[j] == ValueOf(addresses, plan[j].to)
  {
  }

  lemma TaskReaches(hash: string -> uint32, r: R.Ring, node: string, j: nat, h: uint32)
    requires Settled(hash, r, node) && r.positions != []
    requires j < |RemovePlan(hash, r, node, R.Count(r.virtualNodes))|
    requires InTask(h, RemovePlan(hash, r, node, R.Count(r.virtualNodes))[j])
    ensures var to := Some(RemovePlan(hash, r, node, R.Count(r.virtualNodes))[j].to);
            && R.Lookup(R.RemoveShard(hash, r, node), Next(h)) == to
            && (h !in r.positions ==> R.Lookup(R.RemoveShard(hash, r, node), h) == to)
  {
    var n := R.Count(r.virtualNodes);
    var plan := RemovePlan(hash, r, node, n);
    RemovePlanOrigin(hash, r, node, n, j);
    var v :| v in R.Spots(hash, node, n) && plan[j] == RemoveTask(r, node, v) && RemoveTask(r, node, v).to != node;
    assert v in R.SpotsOf(hash, r, node);
    assert plan[j].start in r.positions;
    hide R.RemoveShard, R.Lookup, RemovePlan, InTask, Settled, R.Spots;
    RemoveTaskCorrect(hash, r, node, v, h);
  }
}
