/** The consistent-hash ring of internal/cluster/hash.go as a value: sorted positions of virtual nodes
    and the shard stored for each position. The hash is a parameter; nothing is assumed about it
    except where a lemma names the absence of collisions. */
module RingModel {
  import opened Options
  import opened Decimal
  import opened HashRange

  datatype Ring = Ring(positions: seq<uint32>, owner: map<uint32, string>, virtualNodes: int)

  function Empty(virtualNodes: int): Ring {
    Ring([], map[], virtualNodes)
  }

  /** fmt.Sprintf("%s-%d", shardID, i). */
  function VirtualKey(shard: string, i: nat): string {
    shard + "-" + Itoa(i)
  }

  /** The last dash of a virtual key sits right after the shard. */
  lemma LastDash(s: string, i: nat, k: string)
    requires k == VirtualKey(s, i)
    ensures |s| < |k| && k[|s|] == '-' && k[..|s|] == s && k[|s| + 1..] == NatToString(i)
    ensures forall m :: |s| < m < |k| ==> k[m] != '-'
  {
    var digits := NatToString(i);
    assert forall m :: |s| < m < |k| ==> k[m] == digits[m - |s| - 1];
  }

  /** Different virtual nodes have different keys. */
  lemma VirtualKeyInjective(s: string, i: nat, t: string, j: nat)
    requires VirtualKey(s, i) == VirtualKey(t, j)
    ensures s == t && i == j
  {
    hide VirtualKey, NatToString;
    LastDash(s, i, VirtualKey(s, i));
    LastDash(t, j, VirtualKey(s, i));
    DigitsValueOfNat(i);
    DigitsValueOfNat(j);
  }

  function Count(virtualNodes: int): nat {
    if virtualNodes < 0 then 0 else virtualNodes
  }

  /** The positions of the first n virtual nodes of a shard. */
  function Spots(hash: string -> uint32, shard: string, n: nat): (ps: seq<uint32>)
    ensures |ps| == n && forall i :: 0 <= i < n ==> ps[i] == hash(VirtualKey(shard, i))
  {
    if n == 0 then [] else Spots(hash, shard, n - 1) + [hash(VirtualKey(shard, n - 1))]
  }

  function SpotsOf(hash: string -> uint32, r: Ring, shard: string): seq<uint32> {
    Spots(hash, shard, Count(r.virtualNodes))
  }

  // ----- sorting

  predicate Sorted(s: seq<uint32>) {
    forall i, j :: 0 <= i < j < |s| ==> s[i] <= s[j]
  }

  /** How often p occurs in s. */
  function Times(s: seq<uint32>, p: uint32): nat {
    if s == [] then 0 else (if s[0] == p then 1 else 0) + Times(s[1..], p)
  }

  lemma {:induction false} Occurs(s: seq<uint32>, p: uint32)
    ensures p in s <==> Times(s, p) > 0
  {
    if s != [] {
      Occurs(s[1..], p);
    }
  }

  lemma {:induction false} TimesAppend(s: seq<uint32>, t: seq<uint32>, p: uint32)
    ensures Times(s + t, p) == Times(s, p) + Times(t, p)
  {
    if s == [] {
      assert s + t == t;
    } else {
      assert (s + t)[1..] == s[1..] + t;
      TimesAppend(s[1..], t, p);
    }
  }

  function Insert(x: uint32, s: seq<uint32>): seq<uint32> {
    if s == [] || x <= s[0] then [x] + s else [s[0]] + Insert(x, s[1..])
  }

  lemma {:induction false} InsertTimes(x: uint32, s: seq<uint32>, p: uint32)
    ensures Times(Insert(x, s), p) == Times(s, p) + (if x == p then 1 else 0)
  {
    if s == [] || x <= s[0] {
      assert ([x] + s)[1..] == s;
    } else {
      InsertTimes(x, s[1..], p);
      assert Insert(x, s)[1..] == Insert(x, s[1..]);
    }
  }

  lemma ConsSorted(x: uint32, s: seq<uint32>)
    requires Sorted(s) && forall p :: p in s ==> x <= p
    ensures Sorted([x] + s)
  {
    assert forall j :: 0 <= j < |s| ==> s[j] in s;
  }

  lemma SortedHead(s: seq<uint32>, p: uint32)
    requires s != [] && Sorted(s)
    ensures Sorted(s[1..]) && (p in s ==> s[0] <= p)
  {
  }

  lemma {:induction false} InsertSorted(x: uint32, s: seq<uint32>)
    requires Sorted(s)
    ensures Sorted(Insert(x, s))
  {
    hide Sorted;
    if s == [] {
      ConsSorted(x, s);
    } else if x <= s[0] {
      forall p | p in s ensures x <= p {
        SortedHead(s, p);
      }
      ConsSorted(x, s);
    } else {
      SortedHead(s, x);
      InsertSorted(x, s[1..]);
      forall p | p in Insert(x, s[1..]) ensures s[0] <= p {
        SortedHead(s, p);
        InsertTimes(x, s[1..], p);
        Occurs(Insert(x, s[1..]), p);
        Occurs(s[1..], p);
      }
      ConsSorted(s[0], Insert(x, s[1..]));
    }
  }

  /** sort.Slice: the sorted arrangement of s. */
  function Sort(s: seq<uint32>): seq<uint32> {
    if s == [] then [] else Insert(s[0], Sort(s[1..]))
  }

  lemma {:induction false} SortSorted(s: seq<uint32>)
    ensures Sorted(Sort(s))
  {
    if s != [] {
      SortSorted(s[1..]);
      InsertSorted(s[0], Sort(s[1..]));
    }
  }

  lemma {:induction false} SortTimes(s: seq<uint32>, p: uint32)
    ensures Times(Sort(s), p) == Times(s, p)
  {
    if s != [] {
      SortTimes(s[1..], p);
      InsertTimes(s[0], Sort(s[1..]), p);
    }
  }

  /** Equal counts have only one sorted arrangement. */
  lemma {:induction false} SortedUnique(a: seq<uint32>, b: seq<uint32>)
    requires Sorted(a) && Sorted(b) && forall p :: Times(a, p) == Times(b, p)
    ensures a == b
  {
    hide Sorted;
    if a != [] {
      assert Times(a, a[0]) > 0;
      Occurs(b, a[0]);
    }
    if b != [] {
      assert Times(b, b[0]) > 0;
      Occurs(a, b[0]);
    }
    if a != [] {
      SortedHead(a, b[0]);
      SortedHead(b, a[0]);
      forall p ensures Times(a[1..], p) == Times(b[1..], p) {
        assert Times(a, p) == Times(b, p);
      }
      SortedUnique(a[1..], b[1..]);
      assert a == [a[0]] + a[1..] && b == [b[0]] + b[1..];
    }
  }

  // ----- operations

  /** The later entry wins when positions collide. */
  function Claim(owner: map<uint32, string>, spots: seq<uint32>, shard: string): map<uint32, string> {
    owner + (map p | p in spots :: shard)
  }

  function AddShard(hash: string -> uint32, r: Ring, shard: string): Ring {
    var spots := SpotsOf(hash, r, shard);
    Ring(Sort(r.positions + spots), Claim(r.owner, spots, shard), r.virtualNodes)
  }

  /** Removes the first occurrence of x, if any. */
  function RemoveFirst(s: seq<uint32>, x: uint32): seq<uint32> {
    if s == [] then [] else if s[0] == x then s[1..] else [s[0]] + RemoveFirst(s[1..], x)
  }

  function RemoveEach(s: seq<uint32>, xs: seq<uint32>): seq<uint32> {
    if xs == [] then s else RemoveFirst(RemoveEach(s, xs[..|xs| - 1]), xs[|xs| - 1])
  }

  function RemoveShard(hash: string -> uint32, r: Ring, shard: string): Ring {
    var spots := SpotsOf(hash, r, shard);
    Ring(RemoveEach(r.positions, spots), r.owner - (set p | p in spots), r.virtualNodes)
  }

  /** The index sort.Search finds: the first position >= h, or the length. */
  function Search(s: seq<uint32>, h: uint32): (i: nat)
    ensures i <= |s|
    ensures forall j :: 0 <= j < i ==> s[j] < h
    ensures i < |s| ==> s[i] >= h
  {
    if s == [] || s[0] >= h then 0 else 1 + Search(s[1..], h)
  }

  /** The position responsible for h: the first one at or after it, wrapping to the first of all. */
  function Responsible(s: seq<uint32>, h: uint32): (p: uint32)
    requires s != []
    ensures p in s
  {
    var i := Search(s, h);
    if i == |s| then s[0] else s[i]
  }

  /** GetShard and GetNode: None for an empty ring; a position without an entry reads as "". */
  function Lookup(r: Ring, h: uint32): Option<string> {
    if r.positions == [] then None
    else
      var p := Responsible(r.positions, h);
      Some(if p in r.owner then r.owner[p] else "")
  }

  /** Sorted positions, each with an entry, and no entry without a position. */
  ghost predicate Valid(r: Ring) {
    Sorted(r.positions) && forall p :: p in r.positions <==> p in r.owner
  }

  /** No virtual node of the shard hashes to a position that is already taken. */
  predicate NoClash(hash: string -> uint32, r: Ring, shard: string) {
    forall p :: p in SpotsOf(hash, r, shard) ==> p !in r.positions
  }

  // ----- the responsible position is the nearest one clockwise

  /** The responsible position is the nearest one clockwise, and the only such position. */
  lemma ResponsibleIsNearest(s: seq<uint32>, h: uint32)
    requires s != [] && Sorted(s)
    ensures forall q :: q in s ==> Gap(h, Responsible(s, h)) <= Gap(h, q)
  {
    var i := Search(s, h);
    forall q | q in s ensures Gap(h, Responsible(s, h)) <= Gap(h, q) {
      var j :| 0 <= j < |s| && s[j] == q;
      assert i < |s| && j < i ==> q < h;
      assert i < j ==> s[i] <= s[j];
      assert 0 < j ==> s[0] <= s[j];
    }
  }

  lemma NearestUnique(h: uint32, p: uint32, q: uint32)
    requires Gap(h, p) == Gap(h, q)
    ensures p == q
  {
  }

  lemma ResponsibleIs(s: seq<uint32>, h: uint32, p: uint32)
    requires s != [] && Sorted(s) && p in s && forall q :: q in s ==> Gap(h, p) <= Gap(h, q)
    ensures Responsible(s, h) == p
  {
    ResponsibleIsNearest(s, h);
    NearestUnique(h, p, Responsible(s, h));
  }

  lemma NonEmpty(s: seq<uint32>, t: seq<uint32>)
    requires forall p :: p in s ==> p in t
    ensures s != [] ==> t != []
  {
    if s != [] {
      assert s[0] in t;
    }
  }

  /** Lookups depend only on which positions exist and who owns them. */
  lemma LookupBySet(a: Ring, b: Ring, h: uint32)
    requires Sorted(a.positions) && Sorted(b.positions)
    requires forall p :: p in a.positions <==> p in b.positions
    requires a.owner == b.owner
    ensures Lookup(a, h) == Lookup(b, h)
  {
    NonEmpty(a.positions, b.positions);
    NonEmpty(b.positions, a.positions);
    if a.positions != [] {
      ResponsibleIsNearest(b.positions, h);
      ResponsibleIs(a.positions, h, Responsible(b.positions, h));
    }
  }

  // ----- adding a shard

  lemma AddPositions(hash: string -> uint32, r: Ring, shard: string)
    ensures Sorted(AddShard(hash, r, shard).positions)
    ensures forall p :: p in AddShard(hash, r, shard).positions <==>
              p in r.positions || p in SpotsOf(hash, r, shard)
  {
    var spots := SpotsOf(hash, r, shard);
    SortSorted(r.positions + spots);
    forall p ensures p in AddShard(hash, r, shard).positions <==> p in r.positions || p in spots {
      SortTimes(r.positions + spots, p);
      Occurs(Sort(r.positions + spots), p);
      Occurs(r.positions + spots, p);
    }
  }

  /** Adding a shard never leaves a position without an entry, even when positions collide. */
  lemma AddValid(hash: string -> uint32, r: Ring, shard: string)
    requires Valid(r)
    ensures Valid(AddShard(hash, r, shard))
  {
    AddPositions(hash, r, shard);
  }

  /** Adding a shard moves a key to that shard or not at all, even when positions collide. */
  lemma AddMovesOnlyToNew(hash: string -> uint32, r: Ring, shard: string, h: uint32)
    requires Valid(r)
    ensures Lookup(AddShard(hash, r, shard), h) == Some(shard)
         || Lookup(AddShard(hash, r, shard), h) == Lookup(r, h)
  {
    var r' := AddShard(hash, r, shard);
    AddPositions(hash, r, shard);
    NonEmpty(r.positions, r'.positions);
    if r'.positions != [] {
      var p := Responsible(r'.positions, h);
      ResponsibleIsNearest(r'.positions, h);
      if p !in SpotsOf(hash, r, shard) {
        ResponsibleIs(r.positions, h, p);
      }
    }
  }

  // ----- removing a shard

  lemma {:induction false} RemoveFirstTimes(s: seq<uint32>, x: uint32, p: uint32)
    ensures Times(RemoveFirst(s, x), p) == if p == x && Times(s, p) > 0 then Times(s, p) - 1 else Times(s, p)
  {
    if s != [] && s[0] != x {
      RemoveFirstTimes(s[1..], x, p);
      assert RemoveFirst(s, x)[1..] == RemoveFirst(s[1..], x);
    }
  }

  function Monus(a: nat, b: nat): nat {
    if a < b then 0 else a - b
  }

  lemma {:induction false} RemoveEachTimes(s: seq<uint32>, xs: seq<uint32>, p: uint32)
    ensures Times(RemoveEach(s, xs), p) == Monus(Times(s, p), Times(xs, p))
  {
    if xs != [] {
      var most, last := xs[..|xs| - 1], xs[|xs| - 1];
      RemoveEachTimes(s, most, p);
      RemoveFirstTimes(RemoveEach(s, most), last, p);
      assert xs == most + [last];
      TimesAppend(most, [last], p);
    }
  }

  lemma {:induction false} RemoveFirstSorted(s: seq<uint32>, x: uint32)
    requires Sorted(s)
    ensures Sorted(RemoveFirst(s, x))
  {
    hide Sorted;
    if s != [] {
      SortedHead(s, x);
      if s[0] != x {
        RemoveFirstSorted(s[1..], x);
        forall p | p in RemoveFirst(s[1..], x) ensures s[0] <= p {
          SortedHead(s, p);
          RemoveFirstTimes(s[1..], x, p);
          Occurs(RemoveFirst(s[1..], x), p);
          Occurs(s[1..], p);
        }
        ConsSorted(s[0], RemoveFirst(s[1..], x));
      }
    }
  }

  lemma {:induction false} RemoveEachSorted(s: seq<uint32>, xs: seq<uint32>)
    requires Sorted(s)
    ensures Sorted(RemoveEach(s, xs))
  {
    hide Sorted;
    if xs != [] {
      RemoveEachSorted(s, xs[..|xs| - 1]);
      RemoveFirstSorted(RemoveEach(s, xs[..|xs| - 1]), xs[|xs| - 1]);
    }
  }

  /** No position of the shard occurs more often than its virtual nodes account for. */
  predicate AddedOnce(hash: string -> uint32, r: Ring, shard: string) {
    forall p :: p in SpotsOf(hash, r, shard) ==>
      Times(r.positions, p) <= Times(SpotsOf(hash, r, shard), p)
  }

  lemma RemoveSurvivors(hash: string -> uint32, r: Ring, shard: string, p: uint32)
    ensures p in RemoveShard(hash, r, shard).positions <==>
              Times(r.positions, p) > Times(SpotsOf(hash, r, shard), p)
    ensures p in RemoveShard(hash, r, shard).owner <==> p in r.owner && p !in SpotsOf(hash, r, shard)
    ensures p !in SpotsOf(hash, r, shard) ==> (p in RemoveShard(hash, r, shard).positions <==> p in r.positions)
  {
    var spots := SpotsOf(hash, r, shard);
    RemoveEachTimes(r.positions, spots, p);
    Occurs(RemoveEach(r.positions, spots), p);
    Occurs(spots, p);
    Occurs(r.positions, p);
  }

  /** Removing a shard leaves every remaining position with an entry exactly when the shard's positions
      occur no more often than its virtual nodes: re-adding a present shard and then removing it does not. */
  lemma RemoveValid(hash: string -> uint32, r: Ring, shard: string)
    requires Valid(r)
    ensures Valid(RemoveShard(hash, r, shard)) <==> AddedOnce(hash, r, shard)
  {
    RemoveEachSorted(r.positions, SpotsOf(hash, r, shard));
    var r' := RemoveShard(hash, r, shard);
    assert Sorted(r'.positions);
    hide RemoveShard, Sorted, SpotsOf;
    if AddedOnce(hash, r, shard) {
      forall p ensures p in r'.positions <==> p in r'.owner {
        RemoveSurvivors(hash, r, shard, p);
      }
    } else {
      var p :| p in SpotsOf(hash, r, shard) && Times(r.positions, p) > Times(SpotsOf(hash, r, shard), p);
      RemoveSurvivors(hash, r, shard, p);
    }
  }

  /** A lookup on a valid ring never meets a position without an entry. */
  lemma LookupHitsEntry(r: Ring, h: uint32)
    requires Valid(r)
    ensures r.positions != [] ==>
              Responsible(r.positions, h) in r.owner && Lookup(r, h) == Some(r.owner[Responsible(r.positions, h)])
  {
  }

  lemma AddOwners(hash: string -> uint32, r: Ring, shard: string)
    ensures forall p :: p in SpotsOf(hash, r, shard) ==>
              p in AddShard(hash, r, shard).owner && AddShard(hash, r, shard).owner[p] == shard
  {
  }

  lemma TwiceThenOnce(hash: string -> uint32, n: int, shard: string, p: uint32)
    ensures var twice := AddShard(hash, AddShard(hash, Empty(n), shard), shard);
            var left := RemoveShard(hash, twice, shard);
            && (p in twice.positions <==> p in Spots(hash, shard, Count(n)))
            && (p in left.positions <==> p in Spots(hash, shard, Count(n)))
            && (p in twice.positions ==> p in twice.owner && twice.owner[p] == shard)
            && (p in left.positions ==> p !in left.owner)
  {
    var spots := Spots(hash, shard, Count(n));
    var once := AddShard(hash, Empty(n), shard);
    var twice := AddShard(hash, once, shard);
    SortTimes([] + spots, p);
    TimesAppend([], spots, p);
    SortTimes(once.positions + spots, p);
    TimesAppend(once.positions, spots, p);
    RemoveEachTimes(twice.positions, spots, p);
    Occurs(RemoveEach(twice.positions, spots), p);
    Occurs(twice.positions, p);
    Occurs(spots, p);
  }

  lemma FirstSpot(hash: string -> uint32, n: int, shard: string)
    requires n > 0
    ensures hash(VirtualKey(shard, 0)) in Spots(hash, shard, Count(n))
  {
    assert Spots(hash, shard, n)[0] == hash(VirtualKey(shard, 0));
  }

  lemma LookupUniform(r: Ring, h: uint32, v: string)
    requires r.positions != []
    requires forall p :: p in r.positions ==> (if p in r.owner then r.owner[p] else "") == v
    ensures Lookup(r, h) == Some(v)
  {
  }

  /** Adding a present shard again and removing it once leaves positions that read as "". */
  lemma ReAddThenRemoveDangles(hash: string -> uint32, n: int, shard: string, h: uint32)
    requires n > 0 && shard != ""
    ensures var twice := AddShard(hash, AddShard(hash, Empty(n), shard), shard);
            Lookup(twice, h) == Some(shard) && Lookup(RemoveShard(hash, twice, shard), h) == Some("")
  {
    hide *;
    var twice := AddShard(hash, AddShard(hash, Empty(n), shard), shard);
    var left := RemoveShard(hash, twice, shard);
    FirstSpot(hash, n, shard);
    TwiceThenOnce(hash, n, shard, hash(VirtualKey(shard, 0)));
    forall p | p in twice.positions ensures p in twice.owner && twice.owner[p] == shard {
      TwiceThenOnce(hash, n, shard, p);
    }
    forall p | p in left.positions ensures p !in left.owner {
      TwiceThenOnce(hash, n, shard, p);
    }
    LookupUniform(twice, h, shard);
    LookupUniform(left, h, "");
  }

  lemma AddThenRemovePositions(hash: string -> uint32, r: Ring, shard: string)
    requires Sorted(r.positions)
    ensures RemoveShard(hash, AddShard(hash, r, shard), shard).positions == r.positions
  {
    var spots := SpotsOf(hash, r, shard);
    var added := Sort(r.positions + spots);
    SortSorted(r.positions + spots);
    RemoveEachSorted(added, spots);
    var back := RemoveEach(added, spots);
    forall p ensures Times(back, p) == Times(r.positions, p) {
      RemoveEachTimes(added, spots, p);
      SortTimes(r.positions + spots, p);
      TimesAppend(r.positions, spots, p);
    }
    SortedUnique(back, r.positions);
  }

  lemma AddThenRemoveOwner(hash: string -> uint32, r: Ring, shard: string, p: uint32)
    ensures var back := RemoveShard(hash, AddShard(hash, r, shard), shard);
            && (p in back.owner <==> p in r.owner && p !in SpotsOf(hash, r, shard))
            && (p in back.owner ==> back.owner[p] == r.owner[p])
            && back.virtualNodes == r.virtualNodes
  {
  }

  lemma SameEntries(a: map<uint32, string>, b: map<uint32, string>)
    requires forall p :: p in a <==> p in b
    requires forall p :: p in a && p in b ==> a[p] == b[p]
    ensures a == b
  {
  }

  lemma AddThenRemoveOwners(hash: string -> uint32, r: Ring, shard: string)
    requires forall p :: p in SpotsOf(hash, r, shard) ==> p !in r.owner
    ensures RemoveShard(hash, AddShard(hash, r, shard), shard).owner == r.owner
  {
    hide *;
    var back := RemoveShard(hash, AddShard(hash, r, shard), shard).owner;
    forall p ensures (p in back <==> p in r.owner) && (p in back && p in r.owner ==> back[p] == r.owner[p]) {
      AddThenRemoveOwner(hash, r, shard, p);
    }
    SameEntries(back, r.owner);
  }

  /** Without collisions, adding a shard and removing it gives back the very same ring, and only then. */
  lemma AddThenRemove(hash: string -> uint32, r: Ring, shard: string)
    requires Valid(r)
    ensures RemoveShard(hash, AddShard(hash, r, shard), shard) == r <==> NoClash(hash, r, shard)
  {
    hide RemoveShard, AddShard, SpotsOf, Sorted;
    AddThenRemovePositions(hash, r, shard);
    if NoClash(hash, r, shard) {
      AddThenRemoveOwners(hash, r, shard);
      AddThenRemoveOwner(hash, r, shard, 0);
    } else {
      var p :| p in SpotsOf(hash, r, shard) && p in r.positions;
      AddThenRemoveOwner(hash, r, shard, p);
    }
  }

  /** The shard owns exactly its own positions, and each of them once. */
  ghost predicate Owns(hash: string -> uint32, r: Ring, shard: string) {
    AddedOnce(hash, r, shard)
    && forall p :: p in r.owner ==> (r.owner[p] == shard <==> p in SpotsOf(hash, r, shard))
  }

  lemma RemovePositions(hash: string -> uint32, r: Ring, shard: string)
    requires Valid(r) && AddedOnce(hash, r, shard)
    ensures Sorted(RemoveShard(hash, r, shard).positions)
    ensures forall p :: p in RemoveShard(hash, r, shard).positions <==>
              p in r.positions && p !in SpotsOf(hash, r, shard)
  {
    RemoveValid(hash, r, shard);
  }

  /** Removing a shard changes the owner of a key only if the shard owned it. */
  lemma RemoveMovesOnlyOwned(hash: string -> uint32, r: Ring, shard: string, h: uint32)
    requires Valid(r) && Owns(hash, r, shard)
    ensures Lookup(RemoveShard(hash, r, shard), h) == Lookup(r, h)
         || Lookup(r, h) == Some(shard)
  {
    var r' := RemoveShard(hash, r, shard);
    RemovePositions(hash, r, shard);
    if r.positions != [] {
      var p := Responsible(r.positions, h);
      ResponsibleIsNearest(r.positions, h);
      if r.owner[p] != shard {
        assert p in r'.positions;
        ResponsibleIs(r'.positions, h, p);
      }
    } else {
      NonEmpty(r'.positions, r.positions);
    }
  }

  // ----- agreement between rings built in different orders

  function Build(hash: string -> uint32, n: int, shards: seq<string>): (r: Ring)
    ensures r.virtualNodes == n
  {
    if shards == [] then Empty(n)
    else AddShard(hash, Build(hash, n, shards[..|shards| - 1]), shards[|shards| - 1])
  }

  /** Virtual nodes of different shards in the list never share a position. */
  ghost predicate NoCollisions(hash: string -> uint32, n: int, shards: seq<string>) {
    forall s, t, p :: s in shards && t in shards && p in Spots(hash, s, Count(n)) && p in Spots(hash, t, Count(n)) ==>
      s == t
  }

  /** The positions of a built ring are those of its shards, each owned by one of the shards it belongs to. */
  lemma {:induction false} BuildOwners(hash: string -> uint32, n: int, shards: seq<string>)
    ensures Valid(Build(hash, n, shards))
    ensures forall s, p :: s in shards && p in Spots(hash, s, Count(n)) ==> p in Build(hash, n, shards).owner
    ensures forall p :: p in Build(hash, n, shards).owner ==>
              var s := Build(hash, n, shards).owner[p]; s in shards && p in Spots(hash, s, Count(n))
  {
    if shards != [] {
      var past, s := shards[..|shards| - 1], shards[|shards| - 1];
      assert forall t :: t in shards <==> t in past || t == s;
      BuildOwners(hash, n, past);
      AddValid(hash, Build(hash, n, past), s);
    }
  }

  lemma OwnersAgree(hash: string -> uint32, n: int, a: seq<string>, b: seq<string>, p: uint32)
    requires NoCollisions(hash, n, a) && forall s :: s in a <==> s in b
    ensures p in Build(hash, n, a).owner ==>
              p in Build(hash, n, b).owner && Build(hash, n, a).owner[p] == Build(hash, n, b).owner[p]
  {
    BuildOwners(hash, n, a);
    BuildOwners(hash, n, b);
    var ra, rb := Build(hash, n, a).owner, Build(hash, n, b).owner;
    hide Build, Valid, Spots;
    if p in ra {
      var s := ra[p];
      assert s in b && p in Spots(hash, s, Count(n));
      var t := rb[p];
      assert t in a && p in Spots(hash, t, Count(n));
    }
  }

  lemma SameOwners(hash: string -> uint32, n: int, a: seq<string>, b: seq<string>)
    requires NoCollisions(hash, n, a) && NoCollisions(hash, n, b) && forall s :: s in a <==> s in b
    ensures Build(hash, n, a).owner == Build(hash, n, b).owner
  {
    hide *;
    var ra, rb := Build(hash, n, a).owner, Build(hash, n, b).owner;
    forall p ensures (p in ra <==> p in rb) && (p in ra && p in rb ==> ra[p] == rb[p]) {
      OwnersAgree(hash, n, a, b, p);
      OwnersAgree(hash, n, b, a, p);
    }
    SameEntries(ra, rb);
  }

  /** Without collisions, any order and any repetition of the same shards gives every key the same owner. */
  lemma RingAgreement(hash: string -> uint32, n: int, a: seq<string>, b: seq<string>, h: uint32)
    requires NoCollisions(hash, n, a) && forall s :: s in a <==> s in b
    ensures Lookup(Build(hash, n, a), h) == Lookup(Build(hash, n, b), h)
  {
    hide Build, Spots, Sorted, Lookup;
    assert NoCollisions(hash, n, b);
    BuildOwners(hash, n, a);
    BuildOwners(hash, n, b);
    SameOwners(hash, n, a, b);
    LookupBySet(Build(hash, n, a), Build(hash, n, b), h);
  }
}
