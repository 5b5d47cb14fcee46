/** The cache of internal/cache/cache.go as a value: the stored entries and the keys from most to
    least recently used. The clock is an argument of every operation that reads it. */
module CacheModel {
  import opened Options
  import opened Sequences

  datatype Expiry = Never | At(time: int)

  datatype Entry = Entry(value: string, expiry: Expiry)

  datatype Cache = Cache(items: map<string, Entry>, order: seq<string>, maxSize: int)

  ghost predicate Valid(c: Cache) {
    Distinct(c.order) && forall k :: k in c.order <==> k in c.items
  }

  function Empty(maxSize: int): Cache {
    Cache(map[], [], maxSize)
  }

  /** s without the keys in dead. */
  function Minus(s: seq<string>, dead: set<string>): (r: seq<string>)
    ensures forall k :: k in r <==> k in s && k !in dead
    ensures |r| <= |s|
  {
    if s == [] then []
    else
      var rest := Minus(s[1..], dead);
      if s[0] in dead then rest else [s[0]] + rest
  }

  function Touch(order: seq<string>, k: string): seq<string> {
    [k] + Minus(order, {k})
  }

  /** ttl <= 0 means the entry never expires. */
  function ExpiryOf(ttl: int, now: int): Expiry {
    if ttl > 0 then At(now + ttl) else Never
  }

  /** Strictly after the deadline. */
  predicate Expired(e: Entry, now: int) {
    e.expiry.At? && now > e.expiry.time
  }

  function Evict(c: Cache): Cache {
    if c.order == [] then c
    else
      var last := |c.order| - 1;
      Cache(c.items - {c.order[last]}, c.order[..last], c.maxSize)
  }

  function MakeRoom(c: Cache, k: string): Cache {
    if k !in c.items && |c.items| >= c.maxSize then Evict(c) else c
  }

  function Put(c: Cache, k: string, e: Entry): Cache {
    Cache(c.items[k := e], Touch(c.order, k), c.maxSize)
  }

  function Set(c: Cache, k: string, v: string, ttl: int, now: int): Cache {
    Put(MakeRoom(c, k), k, Entry(v, ExpiryOf(ttl, now)))
  }

  predicate Hit(c: Cache, k: string, now: int) {
    k in c.items && !Expired(c.items[k], now)
  }

  function Get(c: Cache, k: string, now: int): (Cache, Option<string>) {
    if Hit(c, k, now) then (c.(order := Touch(c.order, k)), Some(c.items[k].value)) else (c, None)
  }

  function Without(c: Cache, dead: set<string>): Cache {
    Cache(c.items - dead, Minus(c.order, dead), c.maxSize)
  }

  function Delete(c: Cache, k: string): Cache {
    Without(c, {k})
  }

  function ExpiredKeys(c: Cache, now: int): set<string> {
    set k | k in c.items && Expired(c.items[k], now)
  }

  function Cleanup(c: Cache, now: int): Cache {
    Without(c, ExpiredKeys(c, now))
  }

  // ----- memory accounting

  function ItemSize(key: string, value: string): nat {
    (|key| + 16) + (|value| + 16) + 64
  }

  function Bytes(items: map<string, Entry>, order: seq<string>): nat
    requires forall k :: k in order ==> k in items
  {
    if order == [] then 0
    else ItemSize(order[0], items[order[0]].value) + Bytes(items, order[1..])
  }

  /** What currentMemoryBytes must equal. */
  function Memory(c: Cache): nat
    requires Valid(c)
  {
    Bytes(c.items, c.order)
  }

  // ----- one operation

  datatype Op = OpSet(key: string, value: string, ttl: int) | OpGet(key: string) | OpDelete(key: string) | OpCleanup

  datatype Event = Event(op: Op, now: int)

  function Step(c: Cache, e: Event): Cache {
    match e.op
    case OpSet(k, v, ttl) => Set(c, k, v, ttl, e.now)
    case OpGet(k) => Get(c, k, e.now).0
    case OpDelete(k) => Delete(c, k)
    case OpCleanup => Cleanup(c, e.now)
  }

  function Run(c: Cache, trace: seq<Event>): Cache {
    if trace == [] then c else Step(Run(c, trace[..|trace| - 1]), trace[|trace| - 1])
  }

  // ----- facts about Minus

  lemma {:induction false} MinusDistinct(s: seq<string>, dead: set<string>)
    requires Distinct(s)
    ensures Distinct(Minus(s, dead))
  {
    if s != [] {
      MinusDistinct(s[1..], dead);
    }
  }

  lemma {:induction false} MinusAbsent(s: seq<string>, dead: set<string>)
    requires forall k :: k in s ==> k !in dead
    ensures Minus(s, dead) == s
  {
    if s != [] {
      assert s[0] in s && forall k :: k in s[1..] ==> k in s;
      MinusAbsent(s[1..], dead);
    }
  }

  lemma {:induction false} MinusOneLength(s: seq<string>, k: string)
    requires Distinct(s)
    ensures |Minus(s, {k})| == if k in s then |s| - 1 else |s|
  {
    if s != [] {
      MinusOneLength(s[1..], k);
      assert k in s <==> k == s[0] || k in s[1..];
    }
  }

  lemma {:induction false} MinusAppend(a: seq<string>, b: seq<string>, dead: set<string>)
    ensures Minus(a + b, dead) == Minus(a, dead) + Minus(b, dead)
  {
    if a == [] {
      assert a + b == b;
    } else {
      assert (a + b)[1..] == a[1..] + b;
      MinusAppend(a[1..], b, dead);
    }
  }

  lemma {:induction false} MinusMinus(s: seq<string>, a: set<string>, b: set<string>)
    ensures Minus(Minus(s, a), b) == Minus(s, a + b)
  {
    if s != [] {
      MinusMinus(s[1..], a, b);
      var rest := Minus(s[1..], a);
      assert s[0] !in a ==> ([s[0]] + rest)[1..] == rest;
    }
  }

  lemma WithoutMore(c: Cache, dead: set<string>, k: string)
    ensures Delete(Without(c, dead), k) == Without(c, dead + {k})
  {
    MinusMinus(c.order, dead, {k});
    assert c.items - dead - {k} == c.items - (dead + {k});
  }

  lemma {:induction false} SizeIsLength(items: map<string, Entry>, order: seq<string>)
    requires Distinct(order) && forall k :: k in order <==> k in items
    ensures |items| == |order|
  {
    if order == [] {
      assert items == map[];
    } else {
      var rest := items - {order[0]};
      assert forall k :: k in order[1..] <==> k in rest;
      SizeIsLength(rest, order[1..]);
      assert items.Keys == rest.Keys + {order[0]};
      assert |items.Keys| == |rest.Keys| + 1;
    }
  }

  // ----- the memory counter as a sum over the stored entries, in no particular order

  ghost function Total(items: map<string, Entry>): nat
    decreases |items|
  {
    if items == map[] then 0
    else
      var k :| k in items;
      Fewer(items, k);
      |k| + |items[k].value| + 96 + Total(items - {k})
  }

  lemma Fewer(items: map<string, Entry>, k: string)
    requires k in items
    ensures |items - {k}| == |items| - 1
  {
    assert (items - {k}).Keys == items.Keys - {k};
  }

  lemma {:induction false} TotalMinus(items: map<string, Entry>, k: string)
    requires k in items
    ensures Total(items) == |k| + |items[k].value| + 96 + Total(items - {k})
    decreases |items|
  {
    var x :| x in items && Total(items) == |x| + |items[x].value| + 96 + Total(items - {x});
    if x != k {
      Fewer(items, x);
      Fewer(items, k);
      TotalMinus(items - {x}, k);
      TotalMinus(items - {k}, x);
      assert items - {x} - {k} == items - {k} - {x};
    }
  }

  lemma {:induction false} BytesAreTotal(items: map<string, Entry>, order: seq<string>)
    requires Distinct(order) && forall k :: k in order <==> k in items
    ensures Bytes(items, order) == Total(items)
  {
    if order == [] {
      assert items == map[];
    } else {
      var k, rest := order[0], items - {order[0]};
      BytesAreTotal(rest, order[1..]);
      TotalMinus(items, k);
      SameBytes(items, rest, order[1..]);
    }
  }

  lemma {:induction false} SameBytes(a: map<string, Entry>, b: map<string, Entry>, order: seq<string>)
    requires forall k :: k in order ==> k in a && k in b && a[k] == b[k]
    ensures Bytes(a, order) == Bytes(b, order)
  {
    if order != [] {
      SameBytes(a, b, order[1..]);
    }
  }

  // ----- validity and the size bound over every run

  lemma EvictValid(c: Cache)
    requires Valid(c)
    ensures Valid(Evict(c)) && |Evict(c).order| == if c.order == [] then 0 else |c.order| - 1
  {
    DistinctPairs(c.order);
    DistinctPairs(Evict(c).order);
    if c.order != [] {
      var last := |c.order| - 1;
      assert c.order == c.order[..last] + [c.order[last]];
    }
  }

  predicate Bounded(c: Cache) {
    |c.order| <= if c.maxSize < 1 then 1 else c.maxSize
  }

  lemma StepValid(c: Cache, e: Event)
    requires Valid(c)
    ensures Valid(Step(c, e)) && Step(c, e).maxSize == c.maxSize
    ensures Bounded(c) ==> Bounded(Step(c, e))
  {
    match e.op
    case OpSet(k, v, ttl) =>
      SizeIsLength(c.items, c.order);
      EvictValid(c);
      var room := MakeRoom(c, k);
      MinusDistinct(room.order, {k});
      MinusOneLength(room.order, k);
    case OpGet(k) =>
      MinusDistinct(c.order, {k});
      MinusOneLength(c.order, k);
    case OpDelete(k) =>
      MinusDistinct(c.order, {k});
    case OpCleanup =>
      MinusDistinct(c.order, ExpiredKeys(c, e.now));
  }

  /** Every run keeps the order a list of the stored keys and stores at most max(1, maxSize) entries. */
  lemma {:induction false} RunBounded(maxSize: int, trace: seq<Event>)
    ensures var c := Run(Empty(maxSize), trace);
            Valid(c) && c.maxSize == maxSize && Bounded(c) && |c.items| == |c.order|
  {
    var c := Run(Empty(maxSize), trace);
    if trace != [] {
      RunBounded(maxSize, trace[..|trace| - 1]);
      StepValid(Run(Empty(maxSize), trace[..|trace| - 1]), trace[|trace| - 1]);
    }
    SizeIsLength(c.items, c.order);
  }

  // ----- a cache that never has to evict

  ghost predicate Roomy(c: Cache, keys: set<string>) {
    Valid(c) && c.items.Keys <= keys && |keys| <= c.maxSize
  }

  lemma NoEviction(c: Cache, keys: set<string>, k: string)
    requires Roomy(c, keys) && k in keys
    ensures MakeRoom(c, k) == c
  {
    if k !in c.items {
      assert c.items.Keys <= keys - {k};
      Subset(c.items.Keys, keys - {k});
      assert |c.items| == |c.items.Keys|;
    }
  }

  lemma {:induction false} Subset(a: set<string>, b: set<string>)
    requires a <= b
    ensures |a| <= |b|
  {
    if a != {} {
      var x :| x in a;
      Subset(a - {x}, b - {x});
    }
  }
}
