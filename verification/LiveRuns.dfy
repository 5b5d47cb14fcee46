/** The runs of a node with its files once more, for entries that expire: whatever is still live survives with its value. */
module LiveRuns {
  import opened Sequences
  import opened Options
  import opened Decimal
  import opened Durations
  import opened AofLog
  import opened TornTail
  import opened Persistence
  import opened PersistenceRuns
  import M = CacheModel

  // ----- replay with expiry

  /** The index of the last operation on the key, or -1. */
  function LastTouch(ops: seq<Operation>, k: string): (i: int)
    ensures -1 <= i < |ops| && (i >= 0 ==> Touches(ops[i], k))
  {
    if ops == [] then -1
    else if Touches(ops[|ops| - 1], k) then |ops| - 1
    else LastTouch(ops[..|ops| - 1], k)
  }

  /** What a map of entries shows at a key. */
  function EntryAt(items: map<string, M.Entry>, k: string): Option<M.Entry> {
    if k in items then Some(items[k]) else None
  }

  /** What an operation leaves at its key: nothing, or its value with a deadline counted from the moment it was replayed. */
  function Leaves(op: Operation, now: int): Option<M.Entry> {
    var ttl := Duration(op.ttl);
    if op.kind == "DEL" then None else Some(M.Entry(op.value, if ttl > 0 then M.At(now + ttl) else M.Never))
  }

  lemma ApplyAt(c: M.Cache, op: Operation, now: int, keys: set<string>, k: string)
    requires M.Roomy(c, keys) && (op.kind == "SET" || op.kind == "DEL" ==> op.key in keys)
    ensures EntryAt(ApplyOp(c, op, now).items, k) == if Touches(op, k) then Leaves(op, now) else EntryAt(c.items, k)
  {
    hide M.Roomy, M.Set, M.Minus, Duration, Perm;
    if op.kind == "SET" {
      SetRoomy(c, keys, op.key, op.value, Duration(op.ttl), now);
    }
  }

  /** After a replay without eviction the last operation on a key decides what is there. */
  lemma {:induction false} ReplayAt(c: M.Cache, ops: seq<Operation>, clock: nat -> int, keys: set<string>, k: string)
    requires M.Roomy(c, keys) && KeysIn(ops, keys)
    ensures var i := LastTouch(ops, k);
            EntryAt(Replay(c, ops, clock).items, k) == if i < 0 then EntryAt(c.items, k) else Leaves(ops[i], clock(i))
  {
    if ops != [] {
      hide M.Roomy, ApplyOp, Leaves, EntryAt, Perm, PermReplay;
      var past, op := ops[..|ops| - 1], ops[|ops| - 1];
      ReplayAt(c, past, clock, keys, k);
      ReplayPerm(c, past, clock, keys);
      ApplyAt(Replay(c, past, clock), op, clock(|ops| - 1), keys, k);
    }
  }

  // ----- values, whether or not they expire

  function AllValues(items: map<string, M.Entry>): Values {
    map k | k in items :: items[k].value
  }

  function Put(m: Values, op: Operation): Values {
    if op.kind == "SET" then m[op.key := op.value] else if op.kind == "DEL" then m - {op.key} else m
  }

  function PutAll(m: Values, ops: seq<Operation>): Values {
    if ops == [] then m else Put(PutAll(m, ops[..|ops| - 1]), ops[|ops| - 1])
  }

  lemma PutSnoc(m: Values, ops: seq<Operation>, op: Operation)
    ensures PutAll(m, ops + [op]) == Put(PutAll(m, ops), op)
  {
    assert (ops + [op])[..|ops|] == ops;
  }

  /** What a key shows depends on the last operation on it, and before the first one on what was there. */
  predicate SameAt(a: Values, b: Values, k: string) {
    (k in a <==> k in b) && (k in a && k in b ==> a[k] == b[k])
  }

  lemma {:induction false} PutAllAt(m: Values, ops: seq<Operation>, k: string)
    ensures var i := LastTouch(ops, k);
            if i < 0 then SameAt(PutAll(m, ops), m, k)
            else if ops[i].kind == "SET" then k in PutAll(m, ops) && PutAll(m, ops)[k] == ops[i].value
            else k !in PutAll(m, ops)
  {
    if ops != [] {
      PutAllAt(m, ops[..|ops| - 1], k);
    }
  }

  lemma ApplyValues(c: M.Cache, op: Operation, now: int, keys: set<string>)
    requires M.Roomy(c, keys) && (op.kind == "SET" || op.kind == "DEL" ==> op.key in keys)
    ensures AllValues(ApplyOp(c, op, now).items) == Put(AllValues(c.items), op)
  {
    hide M.Roomy, M.Set, M.Minus, Duration, Perm;
    if op.kind == "SET" {
      SetRoomy(c, keys, op.key, op.value, Duration(op.ttl), now);
    }
  }

  lemma {:induction false} ReplayValues(c: M.Cache, ops: seq<Operation>, clock: nat -> int, keys: set<string>)
    requires M.Roomy(c, keys) && KeysIn(ops, keys)
    ensures AllValues(Replay(c, ops, clock).items) == PutAll(AllValues(c.items), ops)
  {
    if ops != [] {
      hide M.Roomy, ApplyOp, AllValues, Put, Perm, PermReplay;
      var past := ops[..|ops| - 1];
      ReplayValues(c, past, clock, keys);
      ReplayPerm(c, past, clock, keys);
      ApplyValues(Replay(c, past, clock), ops[|ops| - 1], clock(|ops| - 1), keys);
    }
  }

  // ----- what the files know

  function Loaded(snapshot: Option<Commands>): Values {
    if snapshot.None? then map[] else PutAll(map[], SnapshotOperations(snapshot.value))
  }

  function Known(s: System): Values {
    PutAll(Loaded(s.snapshot), ToOperations(s.log))
  }

  /** Recovery gives the values the files know, for every key. */
  lemma RecoveryIsKnown(s: System, keys: set<string>, next: seq<string>, written: string, clock: nat -> int, clock': nat -> int)
    requires Inv(s, keys) && (written == "" || (s.torn == "" && Torn(written, next)))
    ensures var r := Recovered(s, written, clock, clock');
            r.Some? && AllValues(r.value.items) == Known(s)
  {
    ReadFile(s, keys, next, written);
    hide ReadEntries, LogOf, Perm, Replay, PermReplay, PutAll, ToOperations, SnapshotOperations, EncodeCommand, Loggable, File,
      Cut, Torn, AllValues, ShortItems;
    var loaded := if s.snapshot.None? then [] else s.snapshot.value;
    if s.snapshot.Some? {
      ReadWhole(s.snapshot.value);
    }
    var fresh_ := M.Empty(s.cache.maxSize);
    EmptyRoomy(s.cache.maxSize, keys);
    NothingLoaded();
    NothingPut();
    ReplayPerm(fresh_, SnapshotOperations(loaded), clock, keys);
    ReplayValues(fresh_, SnapshotOperations(loaded), clock, keys);
    ReplayValues(Replay(fresh_, SnapshotOperations(loaded), clock), ToOperations(s.log), clock', keys);
  }

  lemma NothingPut()
    ensures AllValues(map[]) == map[] && PutAll(map[], []) == map[]
  {
  }

  // ----- what a rendered file says

  /** One more rendered entry. */
  lemma RenderOne(base: Values, entries: Commands, x: string, e: M.Entry, now: int)
    ensures PutAll(base, ToOperations(entries + RenderEntry(x, e, now)))
         == if Skipped(e, now) then PutAll(base, ToOperations(entries)) else PutAll(base, ToOperations(entries))[x := e.value]
  {
    hide PutAll, ToOperations, ToOperation, RenderEntry, Skipped, EffectOf, RenderEffect, Itoa;
    RenderedOperation(x, e, now);
    if Skipped(e, now) {
      assert entries + [] == entries;
    } else {
      var ttl :| RenderEntry(x, e, now) == [["SET", x, e.value, Itoa(ttl)]]
        && ToOperation(["SET", x, e.value, Itoa(ttl)]) == Operation("SET", x, e.value, ttl);
      OperationsSnoc(entries, ["SET", x, e.value, Itoa(ttl)]);
      PutSnoc(base, ToOperations(entries), Operation("SET", x, e.value, ttl));
    }
  }

  lemma {:induction false} RenderPuts(base: Values, items: map<string, M.Entry>, order: seq<string>, now: string -> int, k: string)
    requires Distinct(order) && forall x :: x in order ==> x in items
    ensures var m := PutAll(base, ToOperations(Render(items, order, now)));
            if k in order && !Skipped(items[k], now(k)) then k in m && m[k] == items[k].value else SameAt(m, base, k)
  {
    if order != [] {
      var most, x := order[..|order| - 1], order[|order| - 1];
      assert order == most + [x];
      DistinctInit(order);
      hide RenderEntry, Skipped, PutAll, ToOperations, Distinct;
      RenderPuts(base, items, most, now, k);
      RenderOne(base, Render(items, most, now), x, items[x], now(x));
    } else {
      NothingPutOn(base);
    }
  }

  // ----- live entries stay known

  /** The entry is known to the files, or its deadline lies before the given time. */
  ghost predicate KnownOrDead(items: map<string, M.Entry>, known: Values, k: string, time: int) {
    k in items ==> (k in known && known[k] == items[k].value) || M.Expired(items[k], time)
  }

  ghost predicate LiveKnown(s: System, time: int) {
    forall k :: KnownOrDead(s.cache.items, Known(s), k, time)
  }

  /** Snapshots and rewrites read the clock before the given time. */
  ghost predicate Before(step: Step, time: int) {
    match step
    case Snapshot(_, at, _) => forall k :: at(k) <= time
    case Rewrite(_, at) => forall k :: at(k) <= time
    case _ => true
  }

  lemma AppendKnown(s: System, cmd: seq<string>)
    requires s.torn == "" && cmd != []
    ensures Known(Append(s, cmd)) == Put(Known(s), ToOperation(cmd))
  {
    hide ToOperation, ToOperations, PutAll, Put, Loaded;
    OperationsSnoc(s.log, cmd);
    PutSnoc(Loaded(s.snapshot), ToOperations(s.log), ToOperation(cmd));
  }

  lemma SameKnown(s: System, s': System)
    requires s.snapshot == s'.snapshot && s.log == s'.log
    ensures Known(s) == Known(s')
  {
  }

  lemma ChangeLive(s: System, keys: set<string>, step: Step, time: int)
    requires Inv(s, keys) && LiveKnown(s, time) && Allowed(s, step, keys) && (step.Write? || step.Remove?)
    ensures LiveKnown(Do(s, step), time)
  {
    hide Known, WellLogged, M.Roomy, Append, M.Set, M.Delete, Seconds, Duration, Cut;
    match step
    case Write(k, v, ttl, now) =>
      var cmd := ["SET", k, v, Itoa(Seconds(Duration(ttl)))];
      SetRoomy(s.cache, keys, k, v, Duration(ttl), now);
      var s1 := s.(cache := M.Set(s.cache, k, v, Duration(ttl), now));
      AppendKnown(s1, cmd);
      SameKnown(s, s1);
      SameCache(s1, cmd);
      assert ToOperation(cmd).kind == "SET" && ToOperation(cmd).key == k && ToOperation(cmd).value == v;
      var items, known := s.cache.items[k := M.Entry(v, M.ExpiryOf(Duration(ttl), now))], Known(s)[k := v];
      forall x ensures KnownOrDead(items, known, x, time) {
        assert KnownOrDead(s.cache.items, Known(s), x, time);
      }
    case Remove(k) =>
      var s1 := s.(cache := M.Delete(s.cache, k));
      AppendKnown(s1, ["DEL", k]);
      SameKnown(s, s1);
      SameCache(s1, ["DEL", k]);
      DeletedItems(s.cache, k);
      assert ToOperation(["DEL", k]) == Operation("DEL", k, "", 0);
      var items, known := s.cache.items - {k}, Known(s) - {k};
      forall x ensures KnownOrDead(items, known, x, time) {
        assert KnownOrDead(s.cache.items, Known(s), x, time);
      }
  }

  lemma SameCache(s: System, cmd: seq<string>)
    ensures Append(s, cmd).cache == s.cache
  {
  }

  lemma DeletedItems(c: M.Cache, k: string)
    ensures M.Delete(c, k).items == c.items - {k}
  {
  }

  lemma QuietLive(s: System, step: Step, time: int)
    requires LiveKnown(s, time) && (step.Read? || step.Expire?)
    ensures LiveKnown(Do(s, step), time)
  {
    hide Known, M.Minus;
    SameKnown(s, Do(s, step));
    forall k ensures KnownOrDead(Do(s, step).cache.items, Known(s), k, time) {
      assert KnownOrDead(s.cache.items, Known(s), k, time);
    }
  }

  /** A key that a rendered file leaves out is dead by then. */
  lemma SkippedDead(e: M.Entry, now: int, time: int)
    requires now <= time && Skipped(e, now)
    ensures M.Expired(e, time)
  {
  }

  lemma SnapshotLive(s: System, keys: set<string>, order: seq<string>, at: string -> int, truncated: bool, time: int)
    requires Inv(s, keys) && LiveKnown(s, time) && Enumerates(order, s.cache.items) && forall k :: at(k) <= time
    ensures LiveKnown(Do(s, Snapshot(order, at, truncated)), time)
  {
    hide PutAll, ToOperations, Render, SnapshotOperations, Inv, LastTouch, Distinct, Skipped, M.Expired;
    var items, s' := s.cache.items, Do(s, Snapshot(order, at, truncated));
    SnapshotOfRendered(items, order, at);
    var base := Loaded(s'.snapshot);
    NothingPutOn(base);
    forall k ensures KnownOrDead(items, Known(s'), k, time) {
      assert KnownOrDead(items, Known(s), k, time);
      RenderPuts(map[], items, order, at, k);
      PutAllAt(base, ToOperations(s.log), k);
      PutAllAt(Loaded(s.snapshot), ToOperations(s.log), k);
      if k in items && Skipped(items[k], at(k)) {
        SkippedDead(items[k], at(k), time);
      }
    }
  }

  lemma NothingPutOn(m: Values)
    ensures ToOperations([]) == [] && PutAll(m, []) == m
  {
  }

  lemma RewriteLive(s: System, keys: set<string>, order: seq<string>, at: string -> int, time: int)
    requires Inv(s, keys) && Enumerates(order, s.cache.items) && forall k :: at(k) <= time
    ensures LiveKnown(Do(s, Rewrite(order, at)), time)
  {
    hide PutAll, ToOperations, Render, Inv, Distinct, Skipped, M.Expired, Loaded;
    var items, s' := s.cache.items, Do(s, Rewrite(order, at));
    forall k ensures KnownOrDead(items, Known(s'), k, time) {
      RenderPuts(Loaded(s.snapshot), items, order, at, k);
      if k in items && Skipped(items[k], at(k)) {
        SkippedDead(items[k], at(k), time);
      }
    }
  }

  lemma CrashLive(s: System, keys: set<string>, step: Step, time: int)
    requires Inv(s, keys) && Allowed(s, step, keys) && step.Crash?
    ensures LiveKnown(Do(s, step), time)
  {
    RecoveryIsKnown(s, keys, step.next, step.written, step.clock, step.clock');
    SameKnown(s, Do(s, step));
    hide Recovered, Known, Inv, Torn, M.Expired;
    var s' := Do(s, step);
    forall k ensures KnownOrDead(s'.cache.items, Known(s'), k, time) {
      assert k in s'.cache.items ==> AllValues(s'.cache.items)[k] == s'.cache.items[k].value;
    }
  }

  lemma StepLive(s: System, keys: set<string>, step: Step, time: int)
    requires Inv(s, keys) && LiveKnown(s, time) && Allowed(s, step, keys) && Before(step, time)
    ensures LiveKnown(Do(s, step), time)
  {
    hide Inv, Do, LiveKnown;
    match step
    case Write(_, _, _, _) => ChangeLive(s, keys, step, time);
    case Remove(_) => ChangeLive(s, keys, step, time);
    case Read(_, _) => QuietLive(s, step, time);
    case Expire(_) => QuietLive(s, step, time);
    case Snapshot(order, at, truncated) => SnapshotLive(s, keys, order, at, truncated, time);
    case Rewrite(order, at) => RewriteLive(s, keys, order, at, time);
    case Crash(_, _, _, _) => CrashLive(s, keys, step, time);
  }

  lemma {:induction false} RunLive(maxSize: int, steps: seq<Step>, keys: set<string>, time: int)
    requires |keys| <= maxSize && AllAllowed(maxSize, steps, keys) && forall i :: 0 <= i < |steps| ==> Before(steps[i], time)
    ensures LiveKnown(Run(maxSize, steps), time)
  {
    if steps != [] {
      hide Inv, Allowed, Do, LiveKnown, Before;
      var past := steps[..|steps| - 1];
      RunLive(maxSize, past, keys, time);
      RunKeeps(maxSize, past, keys);
      StepLive(Run(maxSize, past), keys, steps[|steps| - 1], time);
    }
  }

  /** After any run, cut off anywhere inside an append: every entry in the cache, with or without expiry, is recovered
      with its value, unless its deadline lies before the given time, which no snapshot or rewrite was later than. */
  lemma LiveSurvives(maxSize: int, steps: seq<Step>, keys: set<string>, time: int, next: seq<string>, written: string,
                     clock: nat -> int, clock': nat -> int)
    requires |keys| <= maxSize && AllAllowed(maxSize, steps, keys) && forall i :: 0 <= i < |steps| ==> Before(steps[i], time)
    requires written == "" || (Run(maxSize, steps).torn == "" && Torn(written, next))
    ensures var s := Run(maxSize, steps);
            var r := Recover(maxSize, Bytes(s.snapshot), File(s) + written, clock, clock');
            && r.Some?
            && forall k :: k in s.cache.items && !M.Expired(s.cache.items[k], time) ==>
                 k in r.value.items && r.value.items[k].value == s.cache.items[k].value
  {
    RunKeeps(maxSize, steps, keys);
    RunLive(maxSize, steps, keys, time);
    hide Run, AllAllowed, Inv, Known, Recover, Torn, Before;
    var s := Run(maxSize, steps);
    RecoveryIsKnown(s, keys, next, written, clock, clock');
    var r := Recovered(s, written, clock, clock').value;
    forall k | k in s.cache.items && !M.Expired(s.cache.items[k], time)
      ensures k in r.items && r.items[k].value == s.cache.items[k].value
    {
      assert KnownOrDead(s.cache.items, Known(s), k, time);
      assert k in AllValues(r.items);
    }
  }
}
