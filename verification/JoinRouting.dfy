/** Where requests go after a node has joined. MigrateToNewNode puts the bare node id on the ring, and only start-up
    gives a shard its member list. */
module JoinRouting {
  import opened Options
  import opened HashRange
  import opened MigrationPlan
  import opened Migrator
  import opened MigrationOutcome
  import opened Transfer
  import R = RingModel
  import S = Routing

  /** GetShard on the ring. */
  function OwnerOn(hash: string -> uint32, r: R.Ring): S.Owner {
    key => R.Lookup(r, hash(key))
  }

  /** After a completed join of a node without a member list, every key that moved, ring positions aside, is kept by
      every node asked for it: nobody redirects to the new node, which holds the key. */
  lemma MovedKeyUnreachable(hash: string -> uint32, r: R.Ring, node: string, address: string, items: Items, items': Items,
                            stores: Stores, from: int, until: int, view: S.View, key: string, me: string, isWrite: bool)
    requires R.Valid(r) && r.positions != [] && R.NoClash(hash, r, node)
    requires forall p :: p in r.owner ==> r.owner[p] != node
    requires var plan := AddPlan(hash, r, node, R.Count(r.virtualNodes));
             Kept(items, items', stores, hash, plan, seq(|plan|, _ => address), from, until) && Cleared(items', hash, plan)
    requires key in items && key !in items' && hash(key) !in R.AddShard(hash, r, node).positions
    requires S.Configured(view) && node !in view.members
    ensures S.Decide(view, OwnerOn(hash, R.AddShard(hash, r, node)), me, key, isWrite) == S.Local
    ensures Arrived(items[key], Held(stores, address, key), from, until)
  {
    var owner := OwnerOn(hash, R.AddShard(hash, r, node));
    assert owner(key) == R.Lookup(R.AddShard(hash, r, node), hash(key));
    hide R.Valid, R.NoClash, R.AddShard, R.Lookup, AddPlan, Kept, Cleared, Arrived, Held;
    JoinOffPositions(hash, r, node, address, items, items', stores, from, until, key);
    JoinComplete(hash, r, node, address, items, items', stores, from, until);
    forall k ensures !S.OwnedBy(view, owner, key, k) {
      NotConfigured(view, node, k);
    }
    S.KeptByAll(view, owner, me, key, isWrite);
  }

  lemma NotConfigured(view: S.View, node: string, k: int)
    requires S.Configured(view) && node !in view.members
    ensures 0 <= k < |view.shards| ==> view.shards[k].id != node
  {
  }
}
