/** Which hash ranges move when a shard joins or leaves: internal/cluster/migration.go.
    Ownership intervals are (previous, position] but task ranges are [previous, position), so a range
    holds exactly the points whose next point the new ring gives to the shard. */
module MigrationPlan {
  import opened Options
  import opened HashRange
  import opened RingModel

  datatype Task = Task(from: string, to: string, pattern: string, start: uint32, end: uint32)

  /** The position before v: the one left of where sort.Search lands, or the last one. */
  function Before(s: seq<uint32>, v: uint32): (p: uint32)
    requires s != []
    ensures p in s
  {
    var i := Search(s, v);
    if i == 0 then s[|s| - 1] else s[i - 1]
  }

  function Wrap(i: nat, n: nat): (r: nat)
    requires n > 0
    ensures r < n && (i < n ==> r == i) && (i == n ==> r == 0)
  {
    i % n
  }

  /** The position one past where sort.Search lands, modulo the number of positions. */
  function After(s: seq<uint32>, v: uint32): (p: uint32)
    requires s != []
    ensures p in s
  {
    s[Wrap(Search(s, v) + 1, |s|)]
  }

  function EntryAt(r: Ring, p: uint32): string {
    if p in r.owner then r.owner[p] else ""
  }

  function AddTask(r: Ring, node: string, v: uint32): Task
    requires r.positions != []
  {
    var p := Before(r.positions, v);
    Task(EntryAt(r, p), node, "*", p, v)
  }

  /** One task per new virtual node, unless the position before it is already the new shard's. */
  function AddPlan(hash: string -> uint32, r: Ring, node: string, n: nat): seq<Task>
    requires r.positions != []
  {
    if n == 0 then []
    else
      var task := AddTask(r, node, hash(VirtualKey(node, n - 1)));
      AddPlan(hash, r, node, n - 1) + (if task.from != node then [task] else [])
  }

  function RemoveTask(r: Ring, node: string, v: uint32): Task
    requires r.positions != []
  {
    Task(node, EntryAt(r, After(r.positions, v)), "*", Before(r.positions, v), v)
  }

  /** One task per leaving virtual node whose successor belongs to another shard. */
  function RemovePlan(hash: string -> uint32, r: Ring, node: string, n: nat): seq<Task>
    requires r.positions != []
  {
    if n == 0 then []
    else
      var task := RemoveTask(r, node, hash(VirtualKey(node, n - 1)));
      RemovePlan(hash, r, node, n - 1) + (if task.to != node then [task] else [])
  }

  predicate InTask(h: uint32, task: Task) {
    HashInRange(h, task.start, task.end)
  }

  predicate InPlan(h: uint32, plan: seq<Task>) {
    exists i :: 0 <= i < |plan| && InTask(h, plan[i])
  }

  // ----- arcs of the circle

  lemma GapSplit(x: uint32, p: uint32, v: uint32)
    ensures Gap(p, v) <= Gap(x, v) ==> Gap(x, p) == Gap(x, v) - Gap(p, v)
    ensures Gap(x, p) <= Gap(x, v) ==> Gap(p, v) == Gap(x, v) - Gap(x, p)
    ensures p != v ==> Gap(p, v) > 0
  {
  }

  /** No position lies between the one before v and v. */
  lemma BeforeIsNearest(s: seq<uint32>, v: uint32, q: uint32)
    requires s != [] && Sorted(s) && q in s && q != v
    ensures Gap(Before(s, v), v) <= Gap(q, v)
    ensures Before(s, v) == v ==> Search(s, v) == 0 && s[|s| - 1] == v
  {
    var i := Search(s, v);
    var j :| 0 <= j < |s| && s[j] == q;
    assert j < |s| - 1 ==> s[j] <= s[|s| - 1];
    assert 0 < i && j < i - 1 ==> s[j] <= s[i - 1];
    assert i < j && i < |s| ==> s[i] <= s[j];
  }

  /** The arc up to a new position v holds x exactly when some new position is responsible for x. */
  lemma NewArc(s: seq<uint32>, s': seq<uint32>, spots: seq<uint32>, x: uint32)
    requires s != [] && Sorted(s) && s' != [] && Sorted(s')
    requires forall p :: p in s' <==> p in s || p in spots
    requires forall p :: p in spots ==> p !in s
    ensures (exists v :: v in spots && Gap(x, v) < Gap(Before(s, v), v)) <==> Responsible(s', x) in spots
  {
    hide Sorted, Before, Responsible, Gap;
    var q := Responsible(s', x);
    ResponsibleIsNearest(s', x);
    if q in spots {
      var p := Before(s, q);
      GapSplit(x, p, q);
      assert Gap(x, q) <= Gap(x, p);
    }
    forall v | v in spots && Gap(x, v) < Gap(Before(s, v), v) ensures q in spots {
      NewArcOnly(s, v, x, q);
    }
  }

  lemma NewArcOnly(s: seq<uint32>, v: uint32, x: uint32, q: uint32)
    requires s != [] && Sorted(s) && v !in s
    requires Gap(x, v) < Gap(Before(s, v), v) && Gap(x, q) <= Gap(x, v)
    ensures q !in s
  {
    if q in s {
      BeforeIsNearest(s, v, q);
      GapSplit(x, q, v);
      assert false;
    }
  }

  // ----- the plan for a joining shard

  lemma InPlanSnoc(h: uint32, plan: seq<Task>, task: Task)
    ensures InPlan(h, plan + [task]) <==> InPlan(h, plan) || InTask(h, task)
  {
    var longer := plan + [task];
    assert longer[|plan|] == task;
    if InPlan(h, plan) {
      var i :| 0 <= i < |plan| && InTask(h, plan[i]);
      assert InTask(h, longer[i]);
    }
  }

  lemma SpotsSnoc(hash: string -> uint32, node: string, n: nat, w: uint32)
    requires n > 0
    ensures w in Spots(hash, node, n) <==> w in Spots(hash, node, n - 1) || w == hash(VirtualKey(node, n - 1))
  {
  }

  lemma {:induction false} AddPlanTasks(hash: string -> uint32, r: Ring, node: string, n: nat, h: uint32)
    requires r.positions != [] && forall p :: p in r.positions ==> EntryAt(r, p) != node
    ensures InPlan(h, AddPlan(hash, r, node, n)) <==>
              exists v :: v in Spots(hash, node, n) && HashInRange(h, Before(r.positions, v), v)
  {
    hide Spots, InPlan, HashInRange;
    if n == 0 {
      NothingInPlan(hash, r, node, h);
    } else {
      AddPlanTasks(hash, r, node, n - 1, h);
      var v := hash(VirtualKey(node, n - 1));
      InPlanSnoc(h, AddPlan(hash, r, node, n - 1), AddTask(r, node, v));
      forall w ensures w in Spots(hash, node, n) <==> w in Spots(hash, node, n - 1) || w == v {
        SpotsSnoc(hash, node, n, w);
      }
    }
  }

  lemma NothingInPlan(hash: string -> uint32, r: Ring, node: string, h: uint32)
    ensures !InPlan(h, []) && forall v :: v !in Spots(hash, node, 0)
  {
  }

  /** For every hash, position or not: it lies in some task's range exactly when the enlarged ring
      gives the next hash to the joining shard. */
  lemma AddPlanExact(hash: string -> uint32, r: Ring, node: string, h: uint32)
    requires Valid(r) && r.positions != [] && NoClash(hash, r, node)
    requires forall p :: p in r.owner ==> r.owner[p] != node
    ensures InPlan(h, AddPlan(hash, r, node, Count(r.virtualNodes)))
      <==> Lookup(AddShard(hash, r, node), Next(h)) == Some(node)
  {
    var spots := SpotsOf(hash, r, node);
    var r' := AddShard(hash, r, node);
    AddPositions(hash, r, node);
    AddOwners(hash, r, node);
    NonEmpty(r.positions, r'.positions);
    AddPlanTasks(hash, r, node, Count(r.virtualNodes), h);
    assert forall v :: v in spots ==> (HashInRange(h, Before(r.positions, v), v)
      <==> Gap(Next(h), v) < Gap(Before(r.positions, v), v)) by {
      forall v | v in spots {
        InRangeByGap(h, Before(r.positions, v), v);
      }
    }
    NewArc(r.positions, r'.positions, spots, Next(h));
    AddValid(hash, r, node);
    LookupHitsEntry(r', Next(h));
  }

  /** Away from the positions, the ring gives a hash and the next one to the same shard. */
  lemma SameOwnerOffPositions(r: Ring, h: uint32)
    requires Sorted(r.positions) && h !in r.positions
    ensures Lookup(r, Next(h)) == Lookup(r, h)
  {
    if r.positions != [] {
      var p := Responsible(r.positions, h);
      ResponsibleIsNearest(r.positions, h);
      forall q | q in r.positions ensures Gap(Next(h), p) <= Gap(Next(h), q) {
        assert Gap(h, p) <= Gap(h, q);
      }
      ResponsibleIs(r.positions, Next(h), p);
    }
  }

  /** A hash that is no position of the enlarged ring is in the plan exactly when it changes hands. */
  lemma AddPlanOffPositions(hash: string -> uint32, r: Ring, node: string, h: uint32)
    requires Valid(r) && r.positions != [] && NoClash(hash, r, node)
    requires forall p :: p in r.owner ==> r.owner[p] != node
    requires h !in AddShard(hash, r, node).positions
    ensures InPlan(h, AddPlan(hash, r, node, Count(r.virtualNodes)))
      <==> Lookup(AddShard(hash, r, node), h) == Some(node)
  {
    AddPlanExact(hash, r, node, h);
    AddPositions(hash, r, node);
    SameOwnerOffPositions(AddShard(hash, r, node), h);
  }

  /** At the positions themselves the plan and the ownership differ: the last new position of a run is
      owned by the joining shard but in no range, and the old position before a run is in a range but
      keeps its owner. */
  lemma AddPlanAtPositions(hash: string -> uint32, r: Ring, node: string, v: uint32)
    requires Valid(r) && r.positions != [] && NoClash(hash, r, node)
    requires forall p :: p in r.owner ==> r.owner[p] != node
    requires v in AddShard(hash, r, node).positions
    ensures Lookup(AddShard(hash, r, node), v) == Some(node) <==> v in SpotsOf(hash, r, node)
    ensures InPlan(v, AddPlan(hash, r, node, Count(r.virtualNodes)))
      <==> Responsible(AddShard(hash, r, node).positions, Next(v)) in SpotsOf(hash, r, node)
  {
    var r' := AddShard(hash, r, node);
    AddPlanExact(hash, r, node, v);
    AddPositions(hash, r, node);
    AddOwners(hash, r, node);
    AddValid(hash, r, node);
    LookupHitsEntry(r', v);
    LookupHitsEntry(r', Next(v));
    assert forall q :: q in r'.positions ==> Gap(v, v) <= Gap(v, q);
    ResponsibleIs(r'.positions, v, v);
  }

  /** The spot from which p is reached soonest. */
  lemma {:induction false} NearestSpot(spots: seq<uint32>, p: uint32) returns (v: uint32)
    requires spots != []
    ensures v in spots && forall w :: w in spots ==> Gap(v, p) <= Gap(w, p)
  {
    v := spots[0];
    if |spots| > 1 {
      var w := NearestSpot(spots[1..], p);
      if Gap(w, p) < Gap(v, p) {
        v := w;
      }
    }
  }

  /** So every plan for a shard with virtual nodes is wrong somewhere: at the last new position before an old one,
      which the shard owns and no range holds. */
  lemma AddPlanWrongSomewhere(hash: string -> uint32, r: Ring, node: string) returns (v: uint32)
    requires Valid(r) && r.positions != [] && NoClash(hash, r, node) && Count(r.virtualNodes) > 0
    requires forall p :: p in r.owner ==> r.owner[p] != node
    ensures v in AddShard(hash, r, node).positions && Lookup(AddShard(hash, r, node), v) == Some(node)
    ensures !InPlan(v, AddPlan(hash, r, node, Count(r.virtualNodes)))
  {
    var spots, s' := SpotsOf(hash, r, node), AddShard(hash, r, node).positions;
    var p := r.positions[0];
    v := NearestSpot(spots, p);
    AddPositions(hash, r, node);
    assert p in s' && v in s' && p !in spots;
    AddedSorted(hash, r, node);
    hide AddShard, AddPlan, Valid, NoClash, Lookup, InPlan, Spots, Responsible, Sorted;
    AddPlanAtPositions(hash, r, node, v);
    ResponsibleIsNearest(s', Next(v));
    Nearer(v, Responsible(s', Next(v)), p);
  }

  lemma Nearer(v: uint32, w: uint32, p: uint32)
    requires v != p && Gap(Next(v), w) <= Gap(Next(v), p)
    ensures Gap(w, p) < Gap(v, p)
  {
  }

  lemma AddedSorted(hash: string -> uint32, r: Ring, node: string)
    requires Valid(r)
    ensures Sorted(AddShard(hash, r, node).positions)
  {
    AddValid(hash, r, node);
  }

  // ----- the plan for a leaving shard

  predicate StrictlySorted(s: seq<uint32>) {
    forall i, j :: 0 <= i < j < |s| ==> s[i] < s[j]
  }

  lemma SearchFinds(s: seq<uint32>, v: uint32)
    requires StrictlySorted(s) && v in s
    ensures Search(s, v) < |s| && s[Search(s, v)] == v
  {
    var i := Search(s, v);
    var j :| 0 <= j < |s| && s[j] == v;
  }

  lemma AfterIs(s: seq<uint32>, v: uint32)
    requires StrictlySorted(s) && v in s
    ensures var i := Search(s, v); i < |s| && s[i] == v && After(s, v) == s[if i + 1 == |s| then 0 else i + 1]
  {
    hide Search, StrictlySorted, Wrap;
    SearchFinds(s, v);
  }

  /** No position lies between v and the one after it. */
  lemma AfterIsNearest(s: seq<uint32>, v: uint32, q: uint32)
    requires StrictlySorted(s) && v in s && q in s && q != v
    ensures After(s, v) != v && Gap(v, After(s, v)) <= Gap(v, q)
  {
    hide Search, After;
    AfterIs(s, v);
    var i := Search(s, v);
    var j :| 0 <= j < |s| && s[j] == q;
    if i + 1 < |s| {
      assert s[i] < s[i + 1];
      assert i + 1 < j ==> s[i + 1] < s[j];
      assert j < i ==> s[j] < s[i];
    } else {
      assert s[j] < s[i];
      assert 0 < j ==> s[0] < s[j];
    }
  }

  /** On the arc up to v, v is the responsible position. */
  lemma ArcResponsible(s: seq<uint32>, v: uint32, x: uint32)
    requires StrictlySorted(s) && v in s && Before(s, v) != v
    ensures Gap(x, v) < Gap(Before(s, v), v) <==> Responsible(s, x) == v
  {
    var p := Before(s, v);
    GapSplit(x, p, v);
    if Gap(x, v) < Gap(p, v) {
      forall q | q in s ensures Gap(x, v) <= Gap(x, q) {
        if q != v {
          BeforeIsNearest(s, v, q);
          GapSplit(x, q, v);
        }
      }
      ResponsibleIs(s, x, v);
    } else {
      ResponsibleIsNearest(s, x);
    }
  }

  /** Once v and its shard leave, the next position takes over the arc up to v. */
  lemma ArcInherited(s: seq<uint32>, s': seq<uint32>, v: uint32, x: uint32)
    requires StrictlySorted(s) && v in s && Responsible(s, x) == v && After(s, v) != v
    requires Sorted(s') && (forall q :: q in s' ==> q in s && q != v) && After(s, v) in s'
    ensures Responsible(s', x) == After(s, v)
  {
    var n := After(s, v);
    ResponsibleIsNearest(s, x);
    forall q | q in s' ensures Gap(x, n) <= Gap(x, q) {
      AfterIsNearest(s, v, q);
      assert Gap(x, v) <= Gap(x, q) && Gap(x, v) <= Gap(x, n);
      GapSplit(x, v, q);
      GapSplit(x, v, n);
    }
    ResponsibleIs(s', x, n);
  }

  lemma OnlyOnePosition(s: seq<uint32>, v: uint32)
    requires StrictlySorted(s) && v in s
    ensures Before(s, v) == v <==> After(s, v) == v
    ensures Before(s, v) == v ==> s == [v]
  {
    hide Search, After;
    AfterIs(s, v);
    var i := Search(s, v);
    if |s| > 1 {
      if i == 0 {
        assert s[0] < s[|s| - 1] && s[0] < s[1];
      } else {
        assert s[i - 1] < s[i] && s[0] < s[i];
        assert i + 1 < |s| ==> s[i] < s[i + 1];
      }
    }
  }

  /** The ring holds each position once, and the shard's positions are exactly those it owns. */
  ghost predicate Settled(hash: string -> uint32, r: Ring, node: string) {
    && Valid(r) && StrictlySorted(r.positions)
    && (forall p :: p in SpotsOf(hash, r, node) ==> p in r.owner)
    && (forall p :: p in r.owner ==> (r.owner[p] == node <==> p in SpotsOf(hash, r, node)))
  }

  lemma {:induction false} StrictTimes(s: seq<uint32>, p: uint32)
    requires StrictlySorted(s)
    ensures Times(s, p) <= 1
  {
    if s != [] {
      StrictTimes(s[1..], p);
      Occurs(s[1..], p);
    }
  }

  /** After the shard has left, the positions are those of the other shards. */
  lemma SettledRemoval(hash: string -> uint32, r: Ring, node: string)
    requires Settled(hash, r, node)
    ensures Valid(RemoveShard(hash, r, node))
    ensures forall p :: p in RemoveShard(hash, r, node).positions <==> p in r.owner && r.owner[p] != node
  {
    forall p | p in SpotsOf(hash, r, node)
      ensures Times(r.positions, p) <= Times(SpotsOf(hash, r, node), p)
    {
      StrictTimes(r.positions, p);
      Occurs(SpotsOf(hash, r, node), p);
    }
    RemoveValid(hash, r, node);
    RemovePositions(hash, r, node);
  }

  lemma RemovedEntry(hash: string -> uint32, r: Ring, node: string, p: uint32)
    ensures p in RemoveShard(hash, r, node).owner ==> p in r.owner && RemoveShard(hash, r, node).owner[p] == r.owner[p]
  {
  }

  /** A hash in a leaving task's range: its next hash belonged to the leaving shard and now belongs to
      the task's target; strictly inside the range the same holds of the hash itself. */
  lemma RemoveTaskCorrect(hash: string -> uint32, r: Ring, node: string, v: uint32, h: uint32)
    requires Settled(hash, r, node) && v in SpotsOf(hash, r, node)
    requires RemoveTask(r, node, v).to != node && InTask(h, RemoveTask(r, node, v))
    ensures RemoveTask(r, node, v).from == node && RemoveTask(r, node, v).pattern == "*"
    ensures Lookup(r, Next(h)) == Some(node)
    ensures Lookup(RemoveShard(hash, r, node), Next(h)) == Some(RemoveTask(r, node, v).to)
    ensures h != RemoveTask(r, node, v).start ==>
              Lookup(r, h) == Some(node) && Lookup(RemoveShard(hash, r, node), h) == Some(RemoveTask(r, node, v).to)
  {
    var s, n := r.positions, After(r.positions, v);
    var r' := RemoveShard(hash, r, node);
    assert v in r.owner && v in s && n in r.owner && r.owner[n] != node;
    OnlyOnePosition(s, v);
    InRangeByGap(h, Before(s, v), v);
    ArcResponsible(s, v, Next(h));
    SettledRemoval(hash, r, node);
    ArcInherited(s, r'.positions, v, Next(h));
    RemovedEntry(hash, r, node, n);
    if h != Before(s, v) {
      assert Gap(h, v) < Gap(Before(s, v), v);
      ArcResponsible(s, v, h);
      ArcInherited(s, r'.positions, v, h);
    }
  }

  /** The position responsible for x is the shard's, and the one after it is another shard's. */
  ghost predicate HandsOver(r: Ring, node: string, x: uint32)
    requires Valid(r) && r.positions != []
  {
    var v := Responsible(r.positions, x);
    r.owner[v] == node && r.owner[After(r.positions, v)] != node
  }

  lemma RemoveTaskArc(hash: string -> uint32, r: Ring, node: string, v: uint32, h: uint32)
    requires Settled(hash, r, node) && v in SpotsOf(hash, r, node)
    ensures RemoveTask(r, node, v).to != node && InTask(h, RemoveTask(r, node, v))
      <==> Responsible(r.positions, Next(h)) == v && HandsOver(r, node, Next(h))
  {
    var s := r.positions;
    assert v in r.owner && v in s && After(s, v) in r.owner;
    OnlyOnePosition(s, v);
    if After(s, v) != v {
      InRangeByGap(h, Before(s, v), v);
      ArcResponsible(s, v, Next(h));
    }
  }

  lemma {:induction false} RemovePlanTasks(hash: string -> uint32, r: Ring, node: string, n: nat, h: uint32)
    requires r.positions != []
    ensures InPlan(h, RemovePlan(hash, r, node, n)) <==>
              exists v :: v in Spots(hash, node, n) && RemoveTask(r, node, v).to != node && InTask(h, RemoveTask(r, node, v))
  {
    hide Spots, InPlan, HashInRange, RemoveTask;
    if n == 0 {
      NothingInPlan(hash, r, node, h);
    } else {
      RemovePlanTasks(hash, r, node, n - 1, h);
      var v := hash(VirtualKey(node, n - 1));
      var most := RemovePlan(hash, r, node, n - 1);
      InPlanSnoc(h, most, RemoveTask(r, node, v));
      assert most + [] == most;
      forall w ensures w in Spots(hash, node, n) <==> w in Spots(hash, node, n - 1) || w == v {
        SpotsSnoc(hash, node, n, w);
      }
    }
  }

  /** For every hash: it lies in some task's range exactly when the leaving shard is responsible for the
      next hash and the position after the responsible one belongs to another shard. */
  lemma RemovePlanExact(hash: string -> uint32, r: Ring, node: string, h: uint32)
    requires Settled(hash, r, node) && r.positions != []
    ensures InPlan(h, RemovePlan(hash, r, node, Count(r.virtualNodes))) <==> HandsOver(r, node, Next(h))
  {
    hide Sorted, StrictlySorted, Spots, InPlan, Responsible, RemoveTask, After;
    RemovePlanTasks(hash, r, node, Count(r.virtualNodes), h);
    var spots := SpotsOf(hash, r, node);
    forall v | v in spots
      ensures (RemoveTask(r, node, v).to != node && InTask(h, RemoveTask(r, node, v)))
        <==> (Responsible(r.positions, Next(h)) == v && HandsOver(r, node, Next(h)))
    {
      RemoveTaskArc(hash, r, node, v, h);
    }
  }

  /** The plan covers every hash whose next hash the leaving shard owns, exactly when no position of the
      shard is followed by another of its own. */
  lemma RemovePlanCovers(hash: string -> uint32, r: Ring, node: string)
    requires Settled(hash, r, node) && r.positions != []
    ensures (forall h :: Lookup(r, Next(h)) == Some(node) ==>
               InPlan(h, RemovePlan(hash, r, node, Count(r.virtualNodes))))
      <==> (forall p :: p in r.owner && r.owner[p] == node ==> r.owner[After(r.positions, p)] != node)
  {
    hide Sorted, StrictlySorted, Spots, InPlan, RemovePlan, After;
    if forall p :: p in r.owner && r.owner[p] == node ==> r.owner[After(r.positions, p)] != node {
      forall h | Lookup(r, Next(h)) == Some(node)
        ensures InPlan(h, RemovePlan(hash, r, node, Count(r.virtualNodes)))
      {
        LookupHitsEntry(r, Next(h));
        RemovePlanExact(hash, r, node, h);
      }
    } else {
      var p :| p in r.owner && r.owner[p] == node && r.owner[After(r.positions, p)] == node;
      var h := if p == 0 then SPACE - 1 else p - 1;
      assert Next(h) == p;
      ResponsibleIs(r.positions, p, p);
      LookupHitsEntry(r, p);
      RemovePlanExact(hash, r, node, h);
      assert !InPlan(h, RemovePlan(hash, r, node, Count(r.virtualNodes)));
    }
  }

  const NEIGHBOURS := Ring([10, 20, 30], map[10 := "a", 20 := "a", 30 := "b"], 2)

  /** The failing input: two neighbouring positions of the leaving shard. It owns hash 10, and no task covers the hash
      before it. */
  lemma RemovePlanMissesNeighbours(hash: string -> uint32)
    requires hash(VirtualKey("a", 0)) == 10 && hash(VirtualKey("a", 1)) == 20
    ensures Settled(hash, NEIGHBOURS, "a") && Lookup(NEIGHBOURS, 10) == Some("a")
    ensures !InPlan(9, RemovePlan(hash, NEIGHBOURS, "a", Count(2)))
  {
    var s := NEIGHBOURS.positions;
    assert s[0] == 10 && s[1] == 20 && s[2] == 30 && |s| == 3;
    var spots := SpotsOf(hash, NEIGHBOURS, "a");
    assert |spots| == 2 && spots[0] == 10 && spots[1] == 20;
    hide Spots, VirtualKey;
    assert Settled(hash, NEIGHBOURS, "a");
    ResponsibleIs(s, 10, 10);
    SearchFinds(s, 10);
    AfterIs(s, 10);
    assert Search(s, 10) == 0;
    assert After(s, 10) == 20;
    hide Settled, RemovePlan, InPlan;
    RemovePlanExact(hash, NEIGHBOURS, "a", 9);
  }

  /** No hash is moved twice: two leaving virtual nodes at different positions have disjoint ranges. */
  lemma RemoveTasksDisjoint(hash: string -> uint32, r: Ring, node: string, v: uint32, w: uint32, h: uint32)
    requires Settled(hash, r, node) && v in SpotsOf(hash, r, node) && w in SpotsOf(hash, r, node) && v != w
    requires RemoveTask(r, node, v).to != node && RemoveTask(r, node, w).to != node
    ensures !(InTask(h, RemoveTask(r, node, v)) && InTask(h, RemoveTask(r, node, w)))
  {
    RemoveTaskArc(hash, r, node, v, h);
    RemoveTaskArc(hash, r, node, w, h);
  }

  // ----- the shard a join task names as its source

  /** The old ring gives all of the range to the position after it, not to the one before. */
  lemma OldOwnerOfRange(r: Ring, node: string, v: uint32, h: uint32)
    requires Valid(r) && r.positions != [] && v !in r.positions && InTask(h, AddTask(r, node, v))
    ensures Responsible(r.positions, Next(h)) == Responsible(r.positions, v)
  {
    var s, p, x := r.positions, Before(r.positions, v), Next(h);
    InRangeByGap(h, p, v);
    var q := Responsible(s, v);
    ResponsibleIsNearest(s, v);
    hide Sorted, Before, Responsible, HashInRange;
    forall y | y in s ensures Gap(x, q) <= Gap(x, y) {
      BeforeIsNearest(s, v, y);
      Around(x, v, q, y);
    }
    ResponsibleIs(s, x, q);
  }

  /** From a point before v, with nothing but q and y behind v, q is no farther than y. */
  lemma Around(x: uint32, v: uint32, q: uint32, y: uint32)
    requires Gap(v, q) <= Gap(v, y) && Gap(x, v) < Gap(y, v)
    ensures Gap(x, q) <= Gap(x, y)
  {
  }

  /** So the source a task names, the shard at the position before, is the old owner exactly if both positions belong to
      the same shard. */
  lemma AddTaskSource(r: Ring, node: string, v: uint32, h: uint32)
    requires Valid(r) && r.positions != [] && v !in r.positions && InTask(h, AddTask(r, node, v))
    ensures var task := AddTask(r, node, v);
            && task.to == node && task.pattern == "*" && task.end == v
            && (Lookup(r, Next(h)) == Some(task.from)
                <==> r.owner[Before(r.positions, v)] == r.owner[Responsible(r.positions, v)])
  {
    OldOwnerOfRange(r, node, v, h);
    hide Sorted, Before, Responsible;
  }

  /** The failing input: positions 10 of "a" and 20 of "b", and a new position 15. The task names "a", but its keys are
      those of "b". */
  lemma AddTaskNamesOther(node: string)
    ensures var r := Ring([10, 20], map[10 := "a", 20 := "b"], 1);
            && Valid(r) && AddTask(r, node, 15).from == "a" && InTask(12, AddTask(r, node, 15))
            && Lookup(r, 12) == Some("b") && Lookup(r, Next(12)) == Some("b")
  {
    var s: seq<uint32> := [10, 20];
    assert s[0] == 10 && s[1] == 20 && s[1..][0] == 20;
    assert Search(s, 15) == 1 && Search(s, 12) == 1 && Search(s, 13) == 1;
  }
}
