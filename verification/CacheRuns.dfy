/** Whole-run and two-run properties of the cache: a larger cache sees every hit a smaller one sees,
    and eviction always removes the key that was set or hit longest ago. */
module CacheRuns {
  import opened Sequences
  import opened CacheModel

  // ----- subsequences

  predicate Subsequence(a: seq<string>, b: seq<string>) {
    a == [] || (b != [] && (if a[0] == b[0] then Subsequence(a[1..], b[1..]) else Subsequence(a, b[1..])))
  }

  lemma {:induction false} SubsequenceMembers(a: seq<string>, b: seq<string>)
    requires Subsequence(a, b)
    ensures forall k :: k in a ==> k in b
    ensures |a| <= |b|
  {
    if a != [] {
      assert forall k :: k in a ==> k == a[0] || k in a[1..];
      if a[0] == b[0] {
        SubsequenceMembers(a[1..], b[1..]);
      } else {
        SubsequenceMembers(a, b[1..]);
      }
    }
  }

  /** Matching the head greedily loses nothing: the tail of a subsequence is a subsequence. */
  lemma {:induction false} SubsequenceTail(a: seq<string>, b: seq<string>)
    requires a != [] && Subsequence(a, b)
    ensures Subsequence(a[1..], b)
    decreases |a| + |b|, 1
  {
    if a[0] == b[0] {
      SubsequenceWiden(a[1..], b[0], b[1..]);
      assert b == [b[0]] + b[1..];
    } else {
      SubsequenceTail(a, b[1..]);
      SubsequenceWiden(a[1..], b[0], b[1..]);
      assert b == [b[0]] + b[1..];
    }
  }

  lemma {:induction false} SubsequenceWiden(a: seq<string>, x: string, b: seq<string>)
    requires Subsequence(a, b)
    ensures Subsequence(a, [x] + b)
    decreases |a| + |b|, 2
  {
    assert ([x] + b)[1..] == b;
    if a != [] && a[0] == x {
      SubsequenceTail(a, b);
    }
  }

  lemma {:induction false} SubsequenceMinus(a: seq<string>, b: seq<string>, dead: set<string>)
    requires Subsequence(a, b)
    ensures Subsequence(Minus(a, dead), Minus(b, dead))
    ensures |a| - |Minus(a, dead)| <= |b| - |Minus(b, dead)|
  {
    if a == [] {
    } else if a[0] == b[0] {
      SubsequenceMinus(a[1..], b[1..], dead);
      if a[0] !in dead {
        assert Minus(a, dead)[1..] == Minus(a[1..], dead) && Minus(b, dead)[1..] == Minus(b[1..], dead);
      }
    } else {
      SubsequenceMinus(a, b[1..], dead);
      if b[0] !in dead {
        SubsequenceWiden(Minus(a, dead), b[0], Minus(b[1..], dead));
      }
    }
  }

  lemma {:induction false} SubsequenceDropSmall(a: seq<string>, b: seq<string>)
    requires Subsequence(a, b) && a != []
    ensures Subsequence(a[..|a| - 1], b)
  {
    if |a| > 1 {
      if a[0] == b[0] {
        SubsequenceDropSmall(a[1..], b[1..]);
        assert a[..|a| - 1][1..] == a[1..][..|a| - 2];
      } else {
        SubsequenceDropSmall(a, b[1..]);
      }
    }
  }

  /** Dropping the last of b keeps a subsequence once a has dropped it too, if it held it at all. */
  lemma {:induction false} SubsequenceDropLarge(a: seq<string>, b: seq<string>)
    requires Subsequence(a, b) && b != [] && b[|b| - 1] !in a
    ensures Subsequence(a, b[..|b| - 1])
  {
    if a != [] {
      assert b[..|b| - 1][0] == b[0] || |b| == 1;
      assert |b| > 1 ==> b[..|b| - 1][1..] == b[1..][..|b| - 2];
      if a[0] == b[0] {
        SubsequenceDropLarge(a[1..], b[1..]);
      } else {
        SubsequenceDropLarge(a, b[1..]);
      }
    }
  }

  lemma {:induction false} SharedLastIsLast(a: seq<string>, b: seq<string>)
    requires Subsequence(a, b) && Distinct(b) && b != [] && b[|b| - 1] in a
    ensures a[|a| - 1] == b[|b| - 1]
  {
    if |a| > 1 {
      if a[0] == b[0] {
        assert b[1..][|b[1..]| - 1] == b[|b| - 1];
        SharedLastIsLast(a[1..], b[1..]);
      } else {
        SharedLastIsLast(a, b[1..]);
      }
    }
  }

  lemma SubsequenceDropBoth(a: seq<string>, b: seq<string>)
    requires Subsequence(a, b) && Distinct(a) && Distinct(b) && a != [] && b != []
    ensures Subsequence(a[..|a| - 1], b[..|b| - 1])
    ensures b[|b| - 1] !in a[..|a| - 1]
  {
    var cut := a[..|a| - 1];
    SubsequenceDropSmall(a, b);
    if b[|b| - 1] in a {
      SharedLastIsLast(a, b);
    }
    SubsequenceDropLarge(cut, b);
  }

  // ----- inclusion of a small cache in a large one

  /** The small cache is the large one with some keys missing, and it never has more room to spare. */
  ghost predicate Included(small: Cache, large: Cache) {
    && Valid(small) && Valid(large)
    && Subsequence(small.order, large.order)
    && (forall k :: k in small.items ==> k in large.items && small.items[k] == large.items[k])
    && |large.order| - |small.order| <= large.maxSize - small.maxSize
    && 1 <= small.maxSize <= large.maxSize
    && |small.order| <= small.maxSize
  }

  /** Forgetting any keys in both keeps inclusion. */
  lemma ForgetIncluded(small: Cache, large: Cache, deadSmall: set<string>, deadLarge: set<string>)
    requires Included(small, large)
    requires deadSmall <= deadLarge && deadLarge * small.items.Keys <= deadSmall
    ensures Included(Without(small, deadSmall), Without(large, deadLarge))
  {
    SubsequenceMinus(small.order, large.order, deadLarge);
    SameMinus(small.order, deadSmall, deadLarge);
    MinusDistinct(small.order, deadSmall);
    MinusDistinct(large.order, deadLarge);
  }

  lemma {:induction false} SameMinus(s: seq<string>, d: set<string>, e: set<string>)
    requires forall k :: k in s ==> (k in d <==> k in e)
    ensures Minus(s, d) == Minus(s, e)
  {
    if s != [] {
      SameMinus(s[1..], d, e);
    }
  }

  /** Moving one key to the front of both, or of the large one only when the small one lacks it. */
  lemma TouchIncluded(a: seq<string>, b: seq<string>, k: string)
    requires Subsequence(a, b)
    ensures Subsequence(Touch(a, k), Touch(b, k))
    ensures k !in a ==> Subsequence(a, Touch(b, k))
  {
    SubsequenceMinus(a, b, {k});
    assert Touch(a, k)[1..] == Minus(a, {k}) && Touch(b, k)[1..] == Minus(b, {k});
    if k !in a {
      MinusAbsent(a, {k});
      SubsequenceWiden(a, k, Minus(b, {k}));
    }
  }

  lemma MakeRoomOrders(small: Cache, large: Cache, k: string)
    requires Included(small, large)
    ensures Subsequence(MakeRoom(small, k).order, MakeRoom(large, k).order)
  {
    SizeIsLength(small.items, small.order);
    SizeIsLength(large.items, large.order);
    if k !in large.items && |large.items| >= large.maxSize {
      assert k !in small.items && |small.items| >= small.maxSize;
      SubsequenceDropBoth(small.order, large.order);
    } else if k !in small.items && |small.items| >= small.maxSize {
      SubsequenceDropSmall(small.order, large.order);
    }
  }

  /** When a new key arrives, the large cache never evicts a key the small one keeps. */
  lemma MakeRoomIncluded(small: Cache, large: Cache, k: string)
    requires Included(small, large)
    ensures Subsequence(MakeRoom(small, k).order, MakeRoom(large, k).order)
    ensures MakeRoom(small, k).items.Keys <= MakeRoom(large, k).items.Keys
  {
    MakeRoomOrders(small, large, k);
    var rs, rl := MakeRoom(small, k), MakeRoom(large, k);
    EvictValid(small);
    EvictValid(large);
    assert Valid(rs) && Valid(rl);
    SubsequenceMembers(rs.order, rl.order);
  }

  lemma SetLength(c: Cache, k: string, v: string, ttl: int, now: int)
    requires Valid(c) && 1 <= c.maxSize
    ensures |Set(c, k, v, ttl, now).order| ==
            if k in c.items || |c.order| >= c.maxSize then |c.order| else |c.order| + 1
  {
    SizeIsLength(c.items, c.order);
    EvictValid(c);
    MinusOneLength(MakeRoom(c, k).order, k);
  }

  lemma SetIncluded(small: Cache, large: Cache, k: string, v: string, ttl: int, now: int)
    requires Included(small, large)
    ensures Included(Set(small, k, v, ttl, now), Set(large, k, v, ttl, now))
  {
    MakeRoomIncluded(small, large, k);
    TouchIncluded(MakeRoom(small, k).order, MakeRoom(large, k).order, k);
    SetLength(small, k, v, ttl, now);
    SetLength(large, k, v, ttl, now);
    StepValid(small, Event(OpSet(k, v, ttl), now));
    StepValid(large, Event(OpSet(k, v, ttl), now));
  }

  lemma TouchLength(c: Cache, k: string)
    requires Valid(c) && k in c.items
    ensures |Touch(c.order, k)| == |c.order|
  {
    MinusOneLength(c.order, k);
  }

  lemma GetIncluded(small: Cache, large: Cache, k: string, now: int)
    requires Included(small, large)
    ensures Included(Get(small, k, now).0, Get(large, k, now).0)
    ensures Get(small, k, now).1.Some? ==> Get(large, k, now).1 == Get(small, k, now).1
  {
    if Hit(large, k, now) {
      TouchIncluded(small.order, large.order, k);
      TouchLength(large, k);
      StepValid(large, Event(OpGet(k), now));
      if Hit(small, k, now) {
        TouchLength(small, k);
        StepValid(small, Event(OpGet(k), now));
      }
    }
  }

  lemma StepIncluded(small: Cache, large: Cache, e: Event)
    requires Included(small, large)
    ensures Included(Step(small, e), Step(large, e))
  {
    match e.op
    case OpSet(k, v, ttl) => SetIncluded(small, large, k, v, ttl, e.now);
    case OpGet(k) => GetIncluded(small, large, k, e.now);
    case OpDelete(k) => ForgetIncluded(small, large, {k}, {k});
    case OpCleanup =>
      ForgetIncluded(small, large, ExpiredKeys(small, e.now), ExpiredKeys(large, e.now));
  }

  /** For every trace, whatever a cache of capacity n answers, one of capacity m >= n answers too. */
  lemma {:induction false} InclusionOverRuns(n: int, m: int, trace: seq<Event>)
    requires 1 <= n <= m
    ensures Included(Run(Empty(n), trace), Run(Empty(m), trace))
    ensures forall k, now :: Get(Run(Empty(n), trace), k, now).1.Some? ==>
              Get(Run(Empty(m), trace), k, now).1 == Get(Run(Empty(n), trace), k, now).1
  {
    if trace != [] {
      var past := trace[..|trace| - 1];
      InclusionOverRuns(n, m, past);
      StepIncluded(Run(Empty(n), past), Run(Empty(m), past), trace[|trace| - 1]);
    }
    forall k, now | Get(Run(Empty(n), trace), k, now).1.Some?
      ensures Get(Run(Empty(m), trace), k, now).1 == Get(Run(Empty(n), trace), k, now).1
    {
      GetIncluded(Run(Empty(n), trace), Run(Empty(m), trace), k, now);
    }
  }

  // ----- recency, measured on the trace alone

  /** The event sets k, or reads k and finds it. */
  predicate Touches(c: Cache, e: Event, k: string) {
    match e.op
    case OpSet(key, _, _) => key == k
    case OpGet(key) => key == k && Hit(c, k, e.now)
    case _ => false
  }

  /** The position in the trace of the last event that set or hit k, or -1. */
  function LastTouch(c: Cache, trace: seq<Event>, k: string): (t: int)
    ensures -1 <= t < |trace|
  {
    if trace == [] then -1
    else
      var past := trace[..|trace| - 1];
      if Touches(Run(c, past), trace[|trace| - 1], k) then |trace| - 1 else LastTouch(c, past, k)
  }

  ghost predicate ByRecency(order: seq<string>, c: Cache, trace: seq<Event>) {
    forall i, j :: 0 <= i < j < |order| ==> LastTouch(c, trace, order[i]) > LastTouch(c, trace, order[j])
  }

  lemma {:induction false} MinusKeepsOrder(s: seq<string>, dead: set<string>, c: Cache, trace: seq<Event>)
    requires ByRecency(s, c, trace)
    ensures ByRecency(Minus(s, dead), c, trace)
  {
    hide LastTouch, ByRecency;
    if s != [] {
      RecencySplit(s, c, trace);
      MinusKeepsOrder(s[1..], dead, c, trace);
      RecencyCons(s[0], Minus(s[1..], dead), c, trace);
    }
  }

  lemma RecencySplit(s: seq<string>, c: Cache, trace: seq<Event>)
    requires s != [] && ByRecency(s, c, trace)
    ensures ByRecency(s[1..], c, trace)
    ensures forall x :: x in s[1..] ==> LastTouch(c, trace, s[0]) > LastTouch(c, trace, x)
  {
    hide LastTouch;
  }

  lemma RecencyCons(k: string, s: seq<string>, c: Cache, trace: seq<Event>)
    requires ByRecency(s, c, trace) && forall x :: x in s ==> LastTouch(c, trace, k) > LastTouch(c, trace, x)
    ensures ByRecency([k] + s, c, trace)
  {
    hide LastTouch;
  }

  /** An event that touches no listed key leaves the order sorted; one that touches k puts k first. */
  lemma RecencyStep(order: seq<string>, c: Cache, trace: seq<Event>, k: string)
    requires trace != [] && k !in order
    requires ByRecency(order, c, trace[..|trace| - 1])
    requires forall x :: x in order ==> !Touches(Run(c, trace[..|trace| - 1]), trace[|trace| - 1], x)
    ensures ByRecency(order, c, trace)
    ensures Touches(Run(c, trace[..|trace| - 1]), trace[|trace| - 1], k) ==> ByRecency([k] + order, c, trace)
  {
    forall i | 0 <= i < |order|
      ensures LastTouch(c, trace, order[i]) == LastTouch(c, trace[..|trace| - 1], order[i])
    {
      assert order[i] in order;
    }
  }

  /** The stored keys are ordered by when they were last set or hit, in every run. */
  lemma {:induction false} OrderIsRecency(maxSize: int, trace: seq<Event>)
    ensures ByRecency(Run(Empty(maxSize), trace).order, Empty(maxSize), trace)
  {
    if trace != [] {
      var e0 := Empty(maxSize);
      var past, e := trace[..|trace| - 1], trace[|trace| - 1];
      var c := Run(e0, past);
      OrderIsRecency(maxSize, past);
      RunBounded(maxSize, past);
      hide ByRecency, Minus, Distinct, Expired;
      match e.op
      case OpSet(k, v, ttl) =>
        var room := MakeRoom(c, k);
        MinusKeepsOrder(room.order, {k}, e0, past);
        RecencyStep(Minus(room.order, {k}), e0, trace, k);
      case OpGet(k) =>
        if Hit(c, k, e.now) {
          MinusKeepsOrder(c.order, {k}, e0, past);
          RecencyStep(Minus(c.order, {k}), e0, trace, k);
        } else {
          NoTouch(c.order, e0, trace);
        }
      case OpDelete(k) =>
        MinusKeepsOrder(c.order, {k}, e0, past);
        NoTouch(Minus(c.order, {k}), e0, trace);
      case OpCleanup =>
        MinusKeepsOrder(c.order, ExpiredKeys(c, e.now), e0, past);
        NoTouch(Minus(c.order, ExpiredKeys(c, e.now)), e0, trace);
    }
  }

  lemma NoTouch(order: seq<string>, c: Cache, trace: seq<Event>)
    requires trace != [] && ByRecency(order, c, trace[..|trace| - 1])
    requires forall x :: x in order ==> !Touches(Run(c, trace[..|trace| - 1]), trace[|trace| - 1], x)
    ensures ByRecency(order, c, trace)
  {
    forall i | 0 <= i < |order|
      ensures LastTouch(c, trace, order[i]) == LastTouch(c, trace[..|trace| - 1], order[i])
    {
      assert order[i] in order;
    }
  }

  /** A stored key that was set or hit before every other stored key. */
  ghost predicate Oldest(victim: string, maxSize: int, trace: seq<Event>) {
    var stored := Run(Empty(maxSize), trace).items;
    victim in stored && forall x :: x in stored && x != victim ==>
      LastTouch(Empty(maxSize), trace, victim) < LastTouch(Empty(maxSize), trace, x)
  }

  lemma LastIsOldest(maxSize: int, trace: seq<Event>)
    requires Run(Empty(maxSize), trace).order != []
    ensures var order := Run(Empty(maxSize), trace).order; Oldest(order[|order| - 1], maxSize, trace)
  {
    hide Run, LastTouch, Distinct;
    RunBounded(maxSize, trace);
    OrderIsRecency(maxSize, trace);
    var c := Run(Empty(maxSize), trace);
    var victim := c.order[|c.order| - 1];
    assert victim in c.order;
    forall x | x in c.items && x != victim
      ensures LastTouch(Empty(maxSize), trace, victim) < LastTouch(Empty(maxSize), trace, x)
    {
      assert x in c.order;
      var i :| 0 <= i < |c.order| && c.order[i] == x;
    }
  }

  lemma RemovedKeys(c: Cache, k: string, v: string, ttl: int, now: int)
    requires Valid(c)
    ensures k in c.items || |c.items| < c.maxSize || c.order == [] ==>
              Set(c, k, v, ttl, now).items.Keys == c.items.Keys + {k}
    ensures k !in c.items && |c.items| >= c.maxSize && c.order != [] ==>
              Set(c, k, v, ttl, now).items.Keys == c.items.Keys - {c.order[|c.order| - 1]} + {k}
  {
  }

  /** Setting a new key evicts something only when the cache is full, and then exactly the one key
      that was set or hit before every other stored key. */
  lemma EvictsLeastRecent(maxSize: int, trace: seq<Event>, k: string, v: string, ttl: int, now: int)
    ensures var before := Run(Empty(maxSize), trace).items;
            var after := Set(Run(Empty(maxSize), trace), k, v, ttl, now).items;
            if k in before || |before| < maxSize || before == map[] then after.Keys == before.Keys + {k}
            else exists victim :: Oldest(victim, maxSize, trace) && after.Keys == before.Keys - {victim} + {k}
  {
    hide Run, Set, Oldest, Distinct;
    var c := Run(Empty(maxSize), trace);
    RunBounded(maxSize, trace);
    RemovedKeys(c, k, v, ttl, now);
    if c.order != [] {
      assert c.order[0] in c.items;
      LastIsOldest(maxSize, trace);
    }
  }
}
