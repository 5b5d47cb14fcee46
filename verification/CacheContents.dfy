/** The contents of the cache against an unbounded dictionary that knows nothing of recency or capacity. */
module CacheContents {
  import opened Sequences
  import opened Options
  import opened CacheModel

  type Dictionary = map<string, Entry>

  function Note(d: Dictionary, e: Event): Dictionary {
    match e.op
    case OpSet(k, v, ttl) => d[k := Entry(v, if ttl > 0 then At(e.now + ttl) else Never)]
    case OpGet(_) => d
    case OpDelete(k) => d - {k}
    case OpCleanup => map k | k in d && (d[k].expiry.At? ==> e.now <= d[k].expiry.time) :: d[k]
  }

  function Noted(trace: seq<Event>): Dictionary {
    if trace == [] then map[] else Note(Noted(trace[..|trace| - 1]), trace[|trace| - 1])
  }

  ghost predicate Within(items: Dictionary, d: Dictionary) {
    forall k :: k in items ==> k in d && d[k] == items[k]
  }

  lemma StepWithin(c: Cache, d: Dictionary, e: Event)
    requires Valid(c) && Within(c.items, d)
    ensures Within(Step(c, e).items, Note(d, e))
  {
    hide Minus, Distinct;
    match e.op
    case OpSet(k, _, _) =>
      assert Within(MakeRoom(c, k).items, d);
      hide MakeRoom;
    case OpGet(_) =>
    case OpDelete(_) =>
    case OpCleanup => hide Touch;
  }

  predicate SetsOnly(trace: seq<Event>, keys: set<string>) {
    forall i :: 0 <= i < |trace| && trace[i].op.OpSet? ==> trace[i].op.key in keys
  }

  lemma StepNoted(c: Cache, e: Event, keys: set<string>)
    requires Roomy(c, keys) && (e.op.OpSet? ==> e.op.key in keys)
    ensures Step(c, e).items == Note(c.items, e)
  {
    hide Minus, Distinct;
    if e.op.OpSet? {
      NoEviction(c, keys, e.op.key);
    }
  }

  /** In every run, whatever the capacity, each stored key has the value and deadline of the dictionary, so a
      hit answers with the value last set, deletions and expiry considered. */
  lemma {:induction false} CacheWithinDictionary(maxSize: int, trace: seq<Event>)
    ensures Within(Run(Empty(maxSize), trace).items, Noted(trace))
    ensures forall k, now :: Get(Run(Empty(maxSize), trace), k, now).1.Some? ==>
              && k in Noted(trace) && Get(Run(Empty(maxSize), trace), k, now).1 == Some(Noted(trace)[k].value)
              && (Noted(trace)[k].expiry.At? ==> now <= Noted(trace)[k].expiry.time)
  {
    hide Step, Note;
    if trace != [] {
      var past := trace[..|trace| - 1];
      CacheWithinDictionary(maxSize, past);
      RunBounded(maxSize, past);
      StepWithin(Run(Empty(maxSize), past), Noted(past), trace[|trace| - 1]);
    }
  }

  /** And while the keys ever set fit the capacity, the cache is the dictionary. */
  lemma {:induction false} CacheIsDictionary(maxSize: int, trace: seq<Event>, keys: set<string>)
    requires SetsOnly(trace, keys) && |keys| <= maxSize
    ensures Run(Empty(maxSize), trace).items == Noted(trace)
  {
    hide Step, Note;
    if trace != [] {
      var past := trace[..|trace| - 1];
      CacheIsDictionary(maxSize, past, keys);
      RunBounded(maxSize, past);
      NotedKeys(past, keys);
      StepNoted(Run(Empty(maxSize), past), trace[|trace| - 1], keys);
    }
  }

  lemma {:induction false} NotedKeys(trace: seq<Event>, keys: set<string>)
    requires SetsOnly(trace, keys)
    ensures Noted(trace).Keys <= keys
  {
    if trace != [] {
      NotedKeys(trace[..|trace| - 1], keys);
    }
  }
}
