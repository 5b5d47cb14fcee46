/** Moving keys when a node joins or leaves: internal/cluster/migrator.go. The clock is a non-decreasing
    function of the number of readings taken so far. */
module Migrator {
  import opened Options
  import opened Sequences
  import opened HashRange
  import opened MigrationPlan
  import opened Transfer
  import C = CacheHeap
  import M = CacheModel
  import H = HashRing
  import R = RingModel

  type Items = map<string, M.Entry>

  ghost predicate Monotone(clock: nat -> int) {
    forall i, j :: 0 <= i <= j ==> clock(i) <= clock(j)
  }

  predicate Live(e: M.Entry, now: int) {
    !M.Expired(e, now)
  }

  /** What the transfer sends for each key: its value if it is still live at the end, and the empty string
      if it had already expired at the beginning. */
  ghost predicate Collected(items: Items, keys: seq<string>, values: map<string, string>, from: int, until: int) {
    forall k :: k in keys ==>
      && k in items
      && (Live(items[k], until) ==> ValueOf(values, k) == items[k].value)
      && (!Live(items[k], from) ==> ValueOf(values, k) == "")
  }

  /** The target holds what was collected for the key. */
  predicate Arrived(e: M.Entry, held: Option<string>, from: int, until: int) {
    && held.Some?
    && (Live(e, until) ==> held == Some(e.value))
    && (!Live(e, from) ==> held == Some(""))
  }

  lemma LiveEarlier(e: M.Entry, t: int, u: int)
    requires t <= u && Live(e, u)
    ensures Live(e, t)
  {
  }

  /** One key range moved to addr, or left where it was. */
  ghost predicate RangeMoved(items: Items, items': Items, stores: Stores, stores': Stores, hash: string -> uint32,
                             start: uint32, end: uint32, addr: string, ok: bool, from: int, until: int) {
    && (!ok ==> items' == items)
    && (forall k :: k in items' ==> k in items && items'[k] == items[k])
    && (forall k :: k in items && k !in items' ==>
          HashInRange(hash(k), start, end) && Arrived(items[k], Held(stores', addr, k), from, until))
    && (ok ==> forall k :: k in items' ==> !HashInRange(hash(k), start, end))
    && (forall a, k :: Held(stores', a, k) == Held(stores, a, k)
                       || (a == addr && k in items && HashInRange(hash(k), start, end)))
  }

  /** What moving n keys of one range takes of the network: to connect and store each key, then to connect and ask for
      each key; nothing if there is none. */
  function Answers(n: nat): nat {
    if n == 0 then 0 else 2 * (1 + n)
  }

  ghost function KeysInRange(items: Items, hash: string -> uint32, start: uint32, end: uint32): set<string> {
    set k | k in items && HashInRange(hash(k), start, end)
  }

  /** The keys that the i-th task is the first to cover. */
  ghost function FirstIn(items: Items, hash: string -> uint32, tasks: seq<Task>, i: nat): set<string>
    requires i < |tasks|
  {
    set k | k in items && InTask(hash(k), tasks[i]) && !InPlan(hash(k), tasks[..i])
  }

  /** What moving the keys of the first n tasks takes. */
  ghost function Demand(items: Items, hash: string -> uint32, tasks: seq<Task>, n: nat): nat
    requires n <= |tasks|
  {
    if n == 0 then 0 else Demand(items, hash, tasks, n - 1) + Answers(|FirstIn(items, hash, tasks, n - 1)|)
  }

  /** Nothing is stored anywhere but by a task, at its target, for a key it covers. */
  ghost predicate Confined(items: Items, stores: Stores, stores': Stores, hash: string -> uint32, tasks: seq<Task>,
                           targets: seq<string>)
    requires |targets| == |tasks|
  {
    forall a, k :: Held(stores', a, k) == Held(stores, a, k) ||
                   (k in items && exists j :: 0 <= j < |tasks| && InTask(hash(k), tasks[j]) && targets[j] == a)
  }

  datatype Result = Done | Failed | Panicked

  /** GetNodeAddress of each task's target: "" when unknown. */
  function Addresses(tasks: seq<Task>, addresses: map<string, string>): (r: seq<string>)
    ensures |r| == |tasks|
  {
    seq(|tasks|, i requires 0 <= i < |tasks| => ValueOf(addresses, tasks[i].to))
  }

  ghost predicate MovedBy(k: string, e: M.Entry, stores: Stores, hash: string -> uint32, task: Task, target: string,
                          from: int, until: int) {
    InTask(hash(k), task) && Arrived(e, Held(stores, target, k), from, until)
  }

  /** Nothing is lost: a key is stored locally as before, or the target of a task that covers it holds it. */
  ghost predicate Kept(items: Items, items': Items, stores: Stores, hash: string -> uint32, tasks: seq<Task>,
                       targets: seq<string>, from: int, until: int)
    requires |targets| == |tasks|
  {
    && (forall k :: k in items' ==> k in items && items'[k] == items[k])
    && (forall k :: k in items && k !in items' ==>
          exists j :: 0 <= j < |tasks| && MovedBy(k, items[k], stores, hash, tasks[j], targets[j], from, until))
  }

  /** No stored key hashes into any of the ranges. */
  ghost predicate Cleared(items: Items, hash: string -> uint32, tasks: seq<Task>) {
    forall k :: k in items ==> !InPlan(hash(k), tasks)
  }

  /** Where the task loop is before task i: nothing lost, nothing stored in vain, and exactly the keys of the tasks done
      so far are gone, for exactly the answers these took. */
  ghost predicate Progress(items: Items, items': Items, stores: Stores, stores': Stores, script: seq<Outcome>,
                           script': seq<Outcome>, hash: string -> uint32, tasks: seq<Task>, targets: seq<string>, i: nat,
                           from: int, until: int)
    requires |targets| == |tasks| && i <= |tasks|
  {
    && Kept(items, items', stores', hash, tasks, targets, from, until)
    && Confined(items, stores, stores', hash, tasks, targets)
    && (forall k :: k in items' <==> k in items && !InPlan(hash(k), tasks[..i]))
    && Took(script, script', Demand(items, hash, tasks, i), true)
  }

  class Migrator {
    const cache: C.Cache
    const ring: H.HashRing
    const remote: Remote

    constructor (cache: C.Cache, ring: H.HashRing, remote: Remote)
      ensures this.cache == cache && this.ring == ring && this.remote == remote
    {
      this.cache, this.ring, this.remote := cache, ring, remote;
    }

    ghost predicate Valid()
      reads this, cache, cache.repr, ring
    {
      cache.Valid() && ring !in cache.repr && remote !in cache.repr && R.Sorted(ring.hashValues)
    }

    method CollectValues(keys: seq<string>, clock: nat -> int, t: nat) returns (values: map<string, string>)
      requires cache.Valid() && Monotone(clock) && forall k :: k in keys ==> k in cache.model.items
      modifies cache.repr
      ensures cache.Valid() && cache.repr == old(cache.repr) && cache.model.items == old(cache.model.items)
      ensures Collected(cache.model.items, keys, values, clock(t), clock(t + |keys|))
    {
      hide C.Cache.Valid;
      values := map[];
      ghost var items := cache.model.items;
      for i := 0 to |keys|
        invariant cache.Valid() && cache.repr == old(cache.repr) && cache.model.items == items
        invariant forall k :: k in values ==> k in items && values[k] == items[k].value && Live(items[k], clock(t))
        invariant forall k :: k in keys[..i] && Live(items[k], clock(t + i)) ==> k in values
      {
        var value := cache.Get(keys[i], clock(t + i));
        if value.Some? {
          LiveEarlier(items[keys[i]], clock(t), clock(t + i));
          values := values[keys[i] := value.value];
        }
        forall k | k in keys[..i + 1] && Live(items[k], clock(t + i + 1)) ensures k in values {
          assert keys[..i + 1] == keys[..i] + [keys[i]];
          LiveEarlier(items[k], clock(t + i), clock(t + i + 1));
        }
      }
      assert keys[..|keys|] == keys;
    }

    method DeleteAll(keys: seq<string>)
      requires cache.Valid()
      modifies cache.repr
      ensures cache.Valid() && cache.repr == old(cache.repr)
      ensures forall k :: k in cache.model.items <==> k in old(cache.model.items) && k !in keys
      ensures forall k :: k in cache.model.items ==> cache.model.items[k] == old(cache.model.items)[k]
    {
      hide C.Cache.Valid, M.Minus;
      for i := 0 to |keys|
        invariant cache.Valid() && cache.repr == old(cache.repr)
        invariant forall k :: k in cache.model.items <==> k in old(cache.model.items) && k !in keys[..i]
        invariant forall k :: k in cache.model.items ==> cache.model.items[k] == old(cache.model.items)[k]
      {
        cache.Delete(keys[i]);
        assert keys[..i + 1] == keys[..i] + [keys[i]];
      }
      assert keys[..|keys|] == keys;
    }

    /** The body of the task loop, for one range and one target. */
    method MoveRange(start: uint32, end: uint32, addr: string, clock: nat -> int, t: nat)
      returns (ok: bool, t': nat)
      requires Valid() && Monotone(clock)
      modifies cache.repr, remote
      ensures cache.Valid() && cache.repr == old(cache.repr) && t <= t'
      ensures RangeMoved(old(cache.model.items), cache.model.items, old(remote.stores), remote.stores, ring.hash,
                         start, end, addr, ok, clock(t), clock(t'))
      ensures Took(old(remote.script), remote.script,
                   Answers(|KeysInRange(old(cache.model.items), ring.hash, start, end)|), ok)
    {
      hide C.Cache.Valid, Wrote, AllHeld, Collected, RangeMoved, R.Sorted, AllGood, Unread, Took;
      var keys := cache.GetKeysInHashRange(start, end, ring.hash);
      CountKeys(keys, KeysInRange(cache.model.items, ring.hash, start, end));
      ghost var script := remote.script;
      if |keys| == 0 {
        NothingToMove(cache.model.items, remote.stores, ring.hash, start, end, addr, clock(t), keys);
        TookNothing(script);
        return true, t;
      }
      t' := t + |keys|;
      var values := CollectValues(keys, clock, t);
      ok := TransferKeysBatch(remote, addr, keys, values, 100);
      ghost var sent, script' := ok, remote.script;
      if ok {
        ok := VerifyTransfer(remote, addr, keys);
        if ok {
          DeleteAll(keys);
        }
      }
      TookBoth(script, script', remote.script, 1 + |keys|, sent, ok);
      MovedOrKept(old(cache.model.items), cache.model.items, old(remote.stores), remote.stores, ring.hash,
                  start, end, addr, ok, clock(t), clock(t'), keys, values);
    }

    /** The task loop of both migrations: move each range in turn and stop at the first failure. */
    method ExecuteTasks(tasks: seq<Task>, targets: seq<string>, clock: nat -> int) returns (ok: bool, t: nat)
      requires Valid() && Monotone(clock) && |targets| == |tasks|
      modifies cache.repr, remote
      ensures cache.Valid() && cache.repr == old(cache.repr)
      ensures Kept(old(cache.model.items), cache.model.items, remote.stores, ring.hash, tasks, targets, clock(0), clock(t))
      ensures Confined(old(cache.model.items), old(remote.stores), remote.stores, ring.hash, tasks, targets)
      ensures ok ==> Cleared(cache.model.items, ring.hash, tasks)
      ensures ok <==> AllGood(old(remote.script), Demand(old(cache.model.items), ring.hash, tasks, |tasks|))
    {
      hide C.Cache.Valid, RangeMoved, Kept, Cleared, Confined, R.Sorted, AllGood, Took, Answers, Demand, KeysInRange, Progress;
      t := 0;
      ghost var items := cache.model.items;
      NoProgress(items, remote.stores, remote.script, ring.hash, tasks, targets, clock(0));
      for i := 0 to |tasks|
        invariant cache.Valid() && cache.repr == old(cache.repr)
        invariant Progress(items, cache.model.items, old(remote.stores), remote.stores, old(remote.script), remote.script,
                           ring.hash, tasks, targets, i, clock(0), clock(t))
      {
        ghost var items', stores, script, t0 := cache.model.items, remote.stores, remote.script, t;
        ok, t := MoveRange(tasks[i].start, tasks[i].end, targets[i], clock, t);
        OneTask(items, items', cache.model.items, old(remote.stores), stores, remote.stores, old(remote.script), script,
                remote.script, ring.hash, tasks, targets, i, ok, clock(0), clock(t0), clock(t));
        if !ok {
          return false, t;
        }
      }
      AllProgress(items, cache.model.items, old(remote.stores), remote.stores, old(remote.script), remote.script,
                  ring.hash, tasks, targets, clock(0), clock(t));
      return true, t;
    }

    /** MigrateToNewNode. Whatever the network does, every key that is still live at the end is either
        stored locally as before or held by the new node; on success no stored key is left in the plan. */
    method MigrateToNewNode(newNodeID: string, newNodeAddr: string, clock: nat -> int) returns (r: Result, t: nat)
      requires Valid() && Monotone(clock)
      modifies cache.repr, remote, ring
      ensures cache.Valid() && cache.repr == old(cache.repr)
      ensures r.Panicked? <==> old(ring.hashValues) == [] && ring.virtualNodes > 0
      ensures r.Panicked? ==> cache.model == old(cache.model) && remote.stores == old(remote.stores)
      ensures !r.Panicked? ==> ring.State() == R.AddShard(ring.hash, old(ring.State()), newNodeID)
      ensures !r.Panicked? && old(ring.hashValues) != [] ==>
                var plan := AddPlan(ring.hash, old(ring.State()), newNodeID, R.Count(ring.virtualNodes));
                && Kept(old(cache.model.items), cache.model.items, remote.stores, ring.hash, plan,
                        seq(|plan|, _ => newNodeAddr), clock(0), clock(t))
                && Confined(old(cache.model.items), old(remote.stores), remote.stores, ring.hash, plan,
                            seq(|plan|, _ => newNodeAddr))
                && (r.Done? ==> Cleared(cache.model.items, ring.hash, plan))
                && (r.Done? <==> AllGood(old(remote.script), Demand(old(cache.model.items), ring.hash, plan, |plan|)))
      ensures !r.Panicked? && old(ring.hashValues) == [] ==>
                r.Done? && cache.model.items == old(cache.model.items) && remote.stores == old(remote.stores)
      ensures ring.nodeAddresses == if r.Panicked? then old(ring.nodeAddresses) else old(ring.nodeAddresses)[newNodeID := newNodeAddr]
    {
      hide C.Cache.Valid, Kept, Cleared, Confined, R.AddShard, AddPlan, AllGood, Demand;
      t := 0;
      var tasks := ring.CalculateMigrations(newNodeID);
      if tasks.None? {
        return Panicked, 0;
      }
      ring.AddShard(newNodeID);
      ring.nodeAddresses := ring.nodeAddresses[newNodeID := newNodeAddr];
      var targets := seq(|tasks.value|, _ => newNodeAddr);
      R.AddPositions(ring.hash, old(ring.State()), newNodeID);
      if |tasks.value| == 0 {
        NothingPlanned(cache.model.items, remote.stores, remote.script, ring.hash, tasks.value, targets, clock(0));
        return Done, 0;
      }
      var ok;
      ok, t := ExecuteTasks(tasks.value, targets, clock);
      r := if ok then Done else Failed;
    }

    /** MigrateFromLeavingNode. The shard leaves the ring only when every transfer succeeded. */
    method MigrateFromLeavingNode(leavingNodeID: string, clock: nat -> int) returns (r: Result, t: nat)
      requires Valid() && Monotone(clock)
      modifies cache.repr, remote, ring
      ensures cache.Valid() && cache.repr == old(cache.repr) && !r.Panicked?
      ensures r.Done? ==> ring.State() == R.RemoveShard(ring.hash, old(ring.State()), leavingNodeID)
      ensures r.Failed? ==> ring.State() == old(ring.State())
      ensures old(ring.hashValues) == [] ==> r.Done? && cache.model == old(cache.model) && remote.stores == old(remote.stores)
      ensures old(ring.hashValues) != [] ==>
                var plan := RemovePlan(ring.hash, old(ring.State()), leavingNodeID, R.Count(ring.virtualNodes));
                && Kept(old(cache.model.items), cache.model.items, remote.stores, ring.hash, plan,
                        Addresses(plan, old(ring.nodeAddresses)), clock(0), clock(t))
                && Confined(old(cache.model.items), old(remote.stores), remote.stores, ring.hash, plan,
                            Addresses(plan, old(ring.nodeAddresses)))
                && (r.Done? ==> Cleared(cache.model.items, ring.hash, plan))
                && (r.Done? <==> AllGood(old(remote.script), Demand(old(cache.model.items), ring.hash, plan, |plan|)))
                && ring.nodeAddresses == if plan == [] then old(ring.nodeAddresses)[leavingNodeID := ""] else old(ring.nodeAddresses)
    {
      hide C.Cache.Valid, Kept, Cleared, Confined, R.RemoveShard, RemovePlan;
      t := 0;
      var tasks := ring.CalculateMigrationsForRemoval(leavingNodeID);
      var targets := Addresses(tasks, ring.nodeAddresses);
      if |tasks| == 0 {
        NothingPlanned(cache.model.items, remote.stores, remote.script, ring.hash, tasks, targets, clock(0));
        ring.RemoveShard(leavingNodeID);
        ring.nodeAddresses := ring.nodeAddresses[leavingNodeID := ""];
        return Done, 0;
      }
      var ok;
      ok, t := ExecuteTasks(tasks, targets, clock);
      if !ok {
        return Failed, t;
      }
      ring.RemoveShard(leavingNodeID);
      return Done, t;
    }
  }

  lemma {:induction false} CountKeys(keys: seq<string>, all: set<string>)
    requires Distinct(keys) && forall k :: k in keys <==> k in all
    ensures |all| == |keys|
  {
    if keys == [] {
      assert all == {};
    } else {
      CountKeys(keys[1..], all - {keys[0]});
    }
  }

  lemma Short(script: seq<Outcome>, m: nat, n: nat)
    requires m <= n && !AllGood(script, m)
    ensures !AllGood(script, n)
  {
  }

  lemma {:induction false} DemandGrows(items: Items, hash: string -> uint32, tasks: seq<Task>, m: nat, n: nat)
    requires m <= n <= |tasks|
    ensures Demand(items, hash, tasks, m) <= Demand(items, hash, tasks, n)
  {
    if m < n {
      DemandGrows(items, hash, tasks, m, n - 1);
    }
  }

  lemma NoProgress(items: Items, stores: Stores, script: seq<Outcome>, hash: string -> uint32, tasks: seq<Task>,
                   targets: seq<string>, now: int)
    requires |targets| == |tasks|
    ensures Progress(items, items, stores, stores, script, script, hash, tasks, targets, 0, now, now)
  {
    KeptAll(items, stores, hash, tasks, targets, now);
    ConfinedStart(items, stores, hash, tasks, targets);
    TookNothing(script);
  }

  lemma NothingPlanned(items: Items, stores: Stores, script: seq<Outcome>, hash: string -> uint32, tasks: seq<Task>,
                       targets: seq<string>, now: int)
    requires |targets| == |tasks| == 0
    ensures Kept(items, items, stores, hash, tasks, targets, now, now) && Cleared(items, hash, tasks)
    ensures Confined(items, stores, stores, hash, tasks, targets) && AllGood(script, Demand(items, hash, tasks, |tasks|))
  {
    NoProgress(items, stores, script, hash, tasks, targets, now);
    AllProgress(items, items, stores, stores, script, script, hash, tasks, targets, now, now);
  }

  lemma AllProgress(items: Items, items': Items, stores: Stores, stores': Stores, script: seq<Outcome>,
                    script': seq<Outcome>, hash: string -> uint32, tasks: seq<Task>, targets: seq<string>, from: int, until: int)
    requires |targets| == |tasks|
    requires Progress(items, items', stores, stores', script, script', hash, tasks, targets, |tasks|, from, until)
    ensures Kept(items, items', stores', hash, tasks, targets, from, until) && Cleared(items', hash, tasks)
    ensures Confined(items, stores, stores', hash, tasks, targets) && AllGood(script, Demand(items, hash, tasks, |tasks|))
  {
    assert tasks[..|tasks|] == tasks;
  }

  lemma SameKeys(items: Items, mid: Items, hash: string -> uint32, tasks: seq<Task>, i: nat)
    requires i < |tasks| && forall k :: k in mid <==> k in items && !InPlan(hash(k), tasks[..i])
    ensures KeysInRange(mid, hash, tasks[i].start, tasks[i].end) == FirstIn(items, hash, tasks, i)
  {
    hide InPlan, HashInRange;
  }

  lemma TaskTook(items: Items, hash: string -> uint32, tasks: seq<Task>, i: nat, script: seq<Outcome>, script': seq<Outcome>,
                 script'': seq<Outcome>, ok: bool)
    requires i < |tasks| && Took(script, script', Demand(items, hash, tasks, i), true)
    requires Took(script', script'', Answers(|FirstIn(items, hash, tasks, i)|), ok)
    ensures ok ==> Took(script, script'', Demand(items, hash, tasks, i + 1), true)
    ensures !ok ==> !AllGood(script, Demand(items, hash, tasks, |tasks|))
  {
    hide AllGood, Unread, FirstIn, Answers;
    UnreadMore(script, Demand(items, hash, tasks, i), Answers(|FirstIn(items, hash, tasks, i)|));
    DemandGrows(items, hash, tasks, i + 1, |tasks|);
    if !ok {
      Short(script, Demand(items, hash, tasks, i + 1), Demand(items, hash, tasks, |tasks|));
    }
  }

  /** One task: on success one step further, on failure nothing lost and the network to blame. */
  lemma OneTask(items: Items, mid: Items, items': Items, stores: Stores, stores': Stores, stores'': Stores,
                script: seq<Outcome>, script': seq<Outcome>, script'': seq<Outcome>, hash: string -> uint32, tasks: seq<Task>,
                targets: seq<string>, i: nat, ok: bool, t0: int, t1: int, t2: int)
    requires |targets| == |tasks| && i < |tasks| && t0 <= t1 <= t2
    requires Progress(items, mid, stores, stores', script, script', hash, tasks, targets, i, t0, t1)
    requires RangeMoved(mid, items', stores', stores'', hash, tasks[i].start, tasks[i].end, targets[i], ok, t1, t2)
    requires Took(script', script'', Answers(|KeysInRange(mid, hash, tasks[i].start, tasks[i].end)|), ok)
    ensures ok ==> Progress(items, items', stores, stores'', script, script'', hash, tasks, targets, i + 1, t0, t2)
    ensures !ok ==> && Kept(items, items', stores'', hash, tasks, targets, t0, t2)
                    && Confined(items, stores, stores'', hash, tasks, targets)
                    && !AllGood(script, Demand(items, hash, tasks, |tasks|))
  {
    SameKeys(items, mid, hash, tasks, i);
    TaskTook(items, hash, tasks, i, script, script', script'', ok);
    hide Kept, Confined, RangeMoved, AllGood, Took, Demand, Answers, KeysInRange, InPlan, HashInRange, FirstIn;
    if ok {
      LeftAfter(items, mid, items', stores', stores'', hash, tasks, targets[i], i, t1, t2);
    }
    KeptStep(items, mid, items', stores', stores'', hash, tasks, targets, i, ok, t0, t1, t2);
    ConfinedStep(items, mid, items', stores, stores', stores'', hash, tasks, targets, i, ok, t1, t2);
  }

  /** After a completed task exactly the keys that no task has covered so far are left. */
  lemma LeftAfter(items: Items, mid: Items, items': Items, stores: Stores, stores': Stores, hash: string -> uint32,
                  tasks: seq<Task>, target: string, i: nat, from: int, until: int)
    requires i < |tasks| && forall k :: k in mid <==> k in items && !InPlan(hash(k), tasks[..i])
    requires RangeMoved(mid, items', stores, stores', hash, tasks[i].start, tasks[i].end, target, true, from, until)
    ensures forall k :: k in items' <==> k in items && !InPlan(hash(k), tasks[..i + 1])
  {
    hide InPlan, HashInRange, Held, Arrived;
    assert tasks[..i + 1] == tasks[..i] + [tasks[i]];
    forall k ensures k in items' <==> k in items && !InPlan(hash(k), tasks[..i + 1]) {
      InPlanSnoc(hash(k), tasks[..i], tasks[i]);
    }
  }

  lemma ConfinedStart(items: Items, stores: Stores, hash: string -> uint32, tasks: seq<Task>, targets: seq<string>)
    requires |targets| == |tasks|
    ensures Confined(items, stores, stores, hash, tasks, targets)
  {
  }

  lemma ConfinedStep(items: Items, mid: Items, items': Items, stores: Stores, stores': Stores, stores'': Stores,
                     hash: string -> uint32, tasks: seq<Task>, targets: seq<string>, i: nat, ok: bool, from: int, until: int)
    requires |targets| == |tasks| && i < |tasks| && forall k :: k in mid ==> k in items
    requires Confined(items, stores, stores', hash, tasks, targets)
    requires RangeMoved(mid, items', stores', stores'', hash, tasks[i].start, tasks[i].end, targets[i], ok, from, until)
    ensures Confined(items, stores, stores'', hash, tasks, targets)
  {
    hide HashInRange, Held, Arrived;
  }

  lemma NothingToMove(items: Items, stores: Stores, hash: string -> uint32, start: uint32, end: uint32, addr: string,
                      now: int, keys: seq<string>)
    requires keys == [] && forall k :: k in keys <==> k in items && HashInRange(hash(k), start, end)
    ensures RangeMoved(items, items, stores, stores, hash, start, end, addr, true, now, now)
  {
  }

  lemma MovedOrKept(items: Items, items': Items, stores: Stores, stores': Stores, hash: string -> uint32,
                    start: uint32, end: uint32, addr: string, ok: bool, from: int, until: int,
                    keys: seq<string>, values: map<string, string>)
    requires forall k :: k in keys <==> k in items && HashInRange(hash(k), start, end)
    requires Collected(items, keys, values, from, until) && Wrote(stores, stores', addr, keys, values)
    requires !ok ==> items' == items
    requires ok ==> AllHeld(stores', addr, keys, values)
    requires ok ==> forall k :: k in items' <==> k in items && k !in keys
    requires forall k :: k in items' ==> k in items && items'[k] == items[k]
    ensures RangeMoved(items, items', stores, stores', hash, start, end, addr, ok, from, until)
  {
  }

  lemma KeptAll(items: Items, stores: Stores, hash: string -> uint32, tasks: seq<Task>, targets: seq<string>, now: int)
    requires |targets| == |tasks|
    ensures Kept(items, items, stores, hash, tasks, targets, now, now)
  {
  }

  lemma ArrivedWiden(e: M.Entry, held: Option<string>, from: int, from': int, until: int, until': int)
    requires Arrived(e, held, from', until) && from <= from' && until <= until'
    ensures Arrived(e, held, from, until')
  {
  }

  lemma KeptStep(items: Items, mid: Items, items': Items, stores: Stores, stores': Stores, hash: string -> uint32,
                 tasks: seq<Task>, targets: seq<string>, i: nat, ok: bool, t0: int, t1: int, t2: int)
    requires |targets| == |tasks| && i < |tasks| && t0 <= t1 <= t2
    requires Kept(items, mid, stores, hash, tasks, targets, t0, t1)
    requires RangeMoved(mid, items', stores, stores', hash, tasks[i].start, tasks[i].end, targets[i], ok, t1, t2)
    ensures Kept(items, items', stores', hash, tasks, targets, t0, t2)
  {
    hide InPlan, HashInRange, Held;
    forall k | k in items && k !in items'
      ensures exists j :: 0 <= j < |tasks| && MovedBy(k, items[k], stores', hash, tasks[j], targets[j], t0, t2)
    {
      if k in mid {
        ArrivedWiden(items[k], Held(stores', targets[i], k), t0, t1, t2, t2);
        assert MovedBy(k, items[k], stores', hash, tasks[i], targets[i], t0, t2);
      } else {
        var j :| 0 <= j < |tasks| && MovedBy(k, items[k], stores, hash, tasks[j], targets[j], t0, t1);
        ArrivedWiden(items[k], Held(stores', targets[j], k), t0, t0, t1, t2);
        assert MovedBy(k, items[k], stores', hash, tasks[j], targets[j], t0, t2);
      }
    }
  }
}
