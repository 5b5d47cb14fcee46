/** Snapshot, log, log rewrite and recovery: internal/persistence. Files are lists of logged commands; what
    recovery reads are their bytes. Entries without expiry are what must survive: Perm. */
module Persistence {
  import opened Sequences
  import opened Options
  import opened Decimal
  import opened Durations
  import opened AofLog
  import M = CacheModel

  // ----- operations read from a file

  datatype Operation = Operation(kind: string, key: string, value: string, ttl: int)

  function TtlOf(parts: seq<string>): int {
    if |parts| >= 4 && Atoi(parts[3]).Some? then Atoi(parts[3]).value else 0
  }

  /** The body of the ReadOperations loop. */
  function ToOperation(parts: seq<string>): Operation
    requires parts != []
  {
    if parts[0] == "SET" && |parts| >= 3 then Operation("SET", parts[1], parts[2], TtlOf(parts))
    else if parts[0] == "DEL" && |parts| >= 2 then Operation("DEL", parts[1], "", 0)
    else Operation(parts[0], "", "", 0)
  }

  function ToOperations(entries: seq<seq<string>>): seq<Operation> {
    if entries == [] then []
    else ToOperations(entries[..|entries| - 1])
         + (if entries[|entries| - 1] == [] then [] else [ToOperation(entries[|entries| - 1])])
  }

  /** LoadSnapshot applies only SET commands with a key and a value. */
  function SnapshotOperations(entries: seq<seq<string>>): seq<Operation> {
    if entries == [] then []
    else
      var last := entries[|entries| - 1];
      SnapshotOperations(entries[..|entries| - 1])
      + (if |last| >= 3 && last[0] == "SET" then [ToOperation(last)] else [])
  }

  function ApplyOp(c: M.Cache, op: Operation, now: int): M.Cache {
    if op.kind == "SET" then M.Set(c, op.key, op.value, Duration(op.ttl), now)
    else if op.kind == "DEL" then M.Delete(c, op.key)
    else c
  }

  function Replay(c: M.Cache, ops: seq<Operation>, clock: nat -> int): M.Cache {
    if ops == [] then c
    else ApplyOp(Replay(c, ops[..|ops| - 1], clock), ops[|ops| - 1], clock(|ops| - 1))
  }

  /** RecoverAOF on the bytes of the snapshot file (if any) and of the log; None if a read panics. */
  function Recover(maxSize: int, snapshot: Option<string>, aof: string, clock: nat -> int, clock': nat -> int): Option<M.Cache> {
    var loaded := if snapshot.None? then Some([]) else ReadEntries(snapshot.value);
    var logged := ReadEntries(aof);
    if loaded.None? || logged.None? then None
    else
      var c := Replay(M.Empty(maxSize), SnapshotOperations(loaded.value), clock);
      Some(Replay(c, ToOperations(logged.value), clock'))
  }

  // ----- entries without expiry

  type Values = map<string, string>

  function PermItems(items: map<string, M.Entry>): Values {
    map k | k in items && items[k].expiry.Never? :: items[k].value
  }

  function Perm(c: M.Cache): Values {
    PermItems(c.items)
  }

  function PermApply(m: Values, op: Operation): Values {
    if op.kind == "SET" then (if Duration(op.ttl) <= 0 then m[op.key := op.value] else m - {op.key})
    else if op.kind == "DEL" then m - {op.key}
    else m
  }

  function PermReplay(m: Values, ops: seq<Operation>): Values {
    if ops == [] then m else PermApply(PermReplay(m, ops[..|ops| - 1]), ops[|ops| - 1])
  }

  predicate Touches(op: Operation, k: string) {
    (op.kind == "SET" || op.kind == "DEL") && op.key == k
  }

  /** What the last operation on k leaves there. */
  datatype Effect = Untouched | Gone | Holds(value: string)

  function EffectOf(op: Operation): Effect {
    if op.kind == "SET" && Duration(op.ttl) <= 0 then Holds(op.value) else Gone
  }

  function LastEffect(ops: seq<Operation>, k: string): Effect {
    if ops == [] then Untouched
    else if Touches(ops[|ops| - 1], k) then EffectOf(ops[|ops| - 1])
    else LastEffect(ops[..|ops| - 1], k)
  }

  predicate ShowsAt(m: Values, base: Values, e: Effect, k: string) {
    match e
    case Untouched => (k in m <==> k in base) && (k in m && k in base ==> m[k] == base[k])
    case Gone => k !in m
    case Holds(v) => k in m && m[k] == v
  }

  /** Replaying shows, at each key, the effect of the last operation on it. */
  lemma {:induction false} PermReplayAt(m: Values, ops: seq<Operation>, k: string)
    ensures ShowsAt(PermReplay(m, ops), m, LastEffect(ops, k), k)
  {
    if ops != [] {
      PermReplayAt(m, ops[..|ops| - 1], k);
    }
  }

  lemma SameValues(a: Values, b: Values)
    requires forall k :: (k in a <==> k in b) && (k in a && k in b ==> a[k] == b[k])
    ensures a == b
  {
  }

  /** Replaying a log on its own result changes nothing. */
  lemma ReplayIdempotent(m: Values, ops: seq<Operation>)
    ensures PermReplay(PermReplay(m, ops), ops) == PermReplay(m, ops)
  {
    hide PermReplay, LastEffect;
    var once := PermReplay(m, ops);
    var twice := PermReplay(once, ops);
    forall k ensures (k in twice <==> k in once) && (k in twice && k in once ==> twice[k] == once[k]) {
      PermReplayAt(m, ops, k);
      PermReplayAt(once, ops, k);
    }
    SameValues(twice, once);
  }

  // ----- recovery of a cache that never has to evict

  lemma PermUpdate(items: map<string, M.Entry>, k: string, e: M.Entry)
    ensures PermItems(items[k := e]) == if e.expiry.Never? then PermItems(items)[k := e.value] else PermItems(items) - {k}
    ensures PermItems(items - {k}) == PermItems(items) - {k}
  {
  }

  lemma SetRoomy(c: M.Cache, keys: set<string>, k: string, v: string, ttl: int, now: int)
    requires M.Roomy(c, keys) && k in keys
    ensures M.Roomy(M.Set(c, k, v, ttl, now), keys)
    ensures M.Set(c, k, v, ttl, now).items == c.items[k := M.Entry(v, M.ExpiryOf(ttl, now))]
    ensures Perm(M.Set(c, k, v, ttl, now)) == if ttl <= 0 then Perm(c)[k := v] else Perm(c) - {k}
  {
    hide M.MakeRoom, Distinct, M.Touch, PermItems;
    M.NoEviction(c, keys, k);
    M.StepValid(c, M.Event(M.OpSet(k, v, ttl), now));
    PermUpdate(c.items, k, M.Entry(v, M.ExpiryOf(ttl, now)));
  }

  lemma DeleteRoomy(c: M.Cache, keys: set<string>, k: string)
    requires M.Roomy(c, keys)
    ensures M.Roomy(M.Delete(c, k), keys) && Perm(M.Delete(c, k)) == Perm(c) - {k}
  {
    hide M.Minus, Distinct, PermItems;
    M.StepValid(c, M.Event(M.OpDelete(k), 0));
    PermUpdate(c.items, k, M.Entry("", M.Never));
  }

  predicate KeysIn(ops: seq<Operation>, keys: set<string>) {
    forall i :: 0 <= i < |ops| && (ops[i].kind == "SET" || ops[i].kind == "DEL") ==> ops[i].key in keys
  }

  /** Replaying into a roomy cache is, for the entries without expiry, replaying into a map. */
  lemma {:induction false} ReplayPerm(c: M.Cache, ops: seq<Operation>, clock: nat -> int, keys: set<string>)
    requires M.Roomy(c, keys) && KeysIn(ops, keys)
    ensures M.Roomy(Replay(c, ops, clock), keys) && Perm(Replay(c, ops, clock)) == PermReplay(Perm(c), ops)
  {
    hide M.Roomy, Perm;
    if ops != [] {
      var past, op := ops[..|ops| - 1], ops[|ops| - 1];
      ReplayPerm(c, past, clock, keys);
      var before := Replay(c, past, clock);
      if op.kind == "SET" {
        SetRoomy(before, keys, op.key, op.value, Duration(op.ttl), clock(|ops| - 1));
      } else if op.kind == "DEL" {
        DeleteRoomy(before, keys, op.key);
      }
    }
  }

  // ----- writing a snapshot

  /** The loop body shared by CreateSnapshot and rewriteAOF: an expired entry is skipped, otherwise the
      remaining time is truncated to whole seconds. */
  function RenderEntry(k: string, e: M.Entry, now: int): seq<seq<string>> {
    match e.expiry
    case Never => [["SET", k, e.value, "0"]]
    case At(t) => if Until(t, now) < 0 then [] else [["SET", k, e.value, Itoa(Seconds(Until(t, now)))]]
  }

  /** The whole file, for a map ranged over in the given order with a clock reading per key. */
  function Render(items: map<string, M.Entry>, order: seq<string>, now: string -> int): seq<seq<string>>
    requires forall k :: k in order ==> k in items
  {
    if order == [] then []
    else
      var k := order[|order| - 1];
      Render(items, order[..|order| - 1], now) + RenderEntry(k, items[k], now(k))
  }

  ghost predicate Enumerates(order: seq<string>, items: map<string, M.Entry>) {
    Distinct(order) && forall k :: k in order <==> k in items
  }

  /** The entry is written with ttl 0 although it has an expiry: less than a second is left. */
  predicate Fading(e: M.Entry, now: int) {
    e.expiry.At? && 0 <= Until(e.expiry.time, now) < SECOND
  }

  predicate Skipped(e: M.Entry, now: int) {
    e.expiry.At? && Until(e.expiry.time, now) < 0
  }

  /** What a rendered entry does when it is read back. */
  function RenderEffect(e: M.Entry, now: int): Effect {
    if e.expiry.Never? || Fading(e, now) then Holds(e.value) else if Skipped(e, now) then Untouched else Gone
  }

  lemma RenderedOperation(k: string, e: M.Entry, now: int)
    ensures Skipped(e, now) ==> RenderEntry(k, e, now) == []
    ensures !Skipped(e, now) ==>
              exists ttl :: RenderEntry(k, e, now) == [["SET", k, e.value, Itoa(ttl)]]
                && ToOperation(["SET", k, e.value, Itoa(ttl)]) == Operation("SET", k, e.value, ttl)
                && EffectOf(Operation("SET", k, e.value, ttl)) == RenderEffect(e, now)
  {
    if !Skipped(e, now) {
      var ttl := if e.expiry.Never? then 0 else Seconds(Until(e.expiry.time, now));
      assert Itoa(0) == "0";
      AtoiItoa(ttl);
      DurationExact(ttl);
      assert RenderEntry(k, e, now) == [["SET", k, e.value, Itoa(ttl)]];
    }
  }

  lemma OperationsSnoc(entries: seq<seq<string>>, parts: seq<string>)
    requires parts != []
    ensures ToOperations(entries + [parts]) == ToOperations(entries) + [ToOperation(parts)]
    ensures |parts| >= 3 && parts[0] == "SET" ==>
              SnapshotOperations(entries + [parts]) == SnapshotOperations(entries) + [ToOperation(parts)]
  {
    assert (entries + [parts])[..|entries|] == entries;
  }

  lemma {:induction false} SnapshotOfRendered(items: map<string, M.Entry>, order: seq<string>, now: string -> int)
    requires forall k :: k in order ==> k in items
    ensures ToOperations(Render(items, order, now)) == SnapshotOperations(Render(items, order, now))
  {
    if order != [] {
      var most, k := order[..|order| - 1], order[|order| - 1];
      SnapshotOfRendered(items, most, now);
      RenderedOperation(k, items[k], now(k));
      var entries := Render(items, most, now);
      if Skipped(items[k], now(k)) {
        assert entries + [] == entries;
      } else {
        var ttl :| RenderEntry(k, items[k], now(k)) == [["SET", k, items[k].value, Itoa(ttl)]];
        OperationsSnoc(entries, ["SET", k, items[k].value, Itoa(ttl)]);
      }
    }
  }

  lemma LastEffectSnoc(ops: seq<Operation>, op: Operation, k: string)
    ensures LastEffect(ops + [op], k) == if Touches(op, k) then EffectOf(op) else LastEffect(ops, k)
  {
    assert (ops + [op])[..|ops|] == ops;
  }

  /** Read back, a rendered file has exactly one effect per listed key, whatever the order. */
  lemma {:induction false} RenderEffects(items: map<string, M.Entry>, order: seq<string>, now: string -> int, k: string)
    requires Distinct(order) && forall x :: x in order ==> x in items
    ensures LastEffect(ToOperations(Render(items, order, now)), k)
      == if k in order then RenderEffect(items[k], now(k)) else Untouched
  {
    hide RenderEntry, RenderEffect, Skipped, ToOperation, EffectOf;
    if order != [] {
      var most, x := order[..|order| - 1], order[|order| - 1];
      assert order == most + [x];
      DistinctInit(order);
      RenderEffects(items, most, now, k);
      RenderedOperation(x, items[x], now(x));
      var entries := Render(items, most, now);
      if Skipped(items[x], now(x)) {
        assert entries + [] == entries;
        SkippedEffect(items[x], now(x));
      } else {
        var ttl :| RenderEntry(x, items[x], now(x)) == [["SET", x, items[x].value, Itoa(ttl)]]
          && ToOperation(["SET", x, items[x].value, Itoa(ttl)]) == Operation("SET", x, items[x].value, ttl)
          && EffectOf(Operation("SET", x, items[x].value, ttl)) == RenderEffect(items[x], now(x));
        OperationsSnoc(entries, ["SET", x, items[x].value, Itoa(ttl)]);
        LastEffectSnoc(ToOperations(entries), Operation("SET", x, items[x].value, ttl), k);
      }
    }
  }

  lemma SkippedEffect(e: M.Entry, now: int)
    requires Skipped(e, now)
    ensures RenderEffect(e, now) == Untouched
  {
  }

  // ----- what a snapshot or a rewritten log restores

  /** Reading back a rendered cache on top of base: a live entry shows its value (a fading one as if it never
      expired), an entry with time left shows nothing, and all else shows what base had. */
  function Restored(base: Values, items: map<string, M.Entry>, now: string -> int): Values {
    map k | k in base.Keys + items.Keys
            && (if k in items && !Skipped(items[k], now(k)) then RenderEffect(items[k], now(k)).Holds? else k in base)
          :: if k in items && !Skipped(items[k], now(k)) then items[k].value else base[k]
  }

  lemma RenderRestores(base: Values, items: map<string, M.Entry>, order: seq<string>, now: string -> int)
    requires Enumerates(order, items)
    ensures PermReplay(base, ToOperations(Render(items, order, now))) == Restored(base, items, now)
  {
    hide PermReplay, LastEffect, Render, ToOperations, Distinct;
    var ops := ToOperations(Render(items, order, now));
    var got, want := PermReplay(base, ops), Restored(base, items, now);
    forall k ensures (k in got <==> k in want) && (k in got && k in want ==> got[k] == want[k]) {
      PermReplayAt(base, ops, k);
      RenderEffects(items, order, now, k);
    }
    SameValues(got, want);
  }

  /** A fresh snapshot restores exactly the entries without expiry, unless some entry has less than a second
      left: such an entry comes back without expiry. */
  lemma SnapshotExact(items: map<string, M.Entry>, now: string -> int)
    ensures Restored(map[], items, now) == PermItems(items) <==> forall k :: k in items ==> !Fading(items[k], now(k))
  {
    var got, want := Restored(map[], items, now), PermItems(items);
    if forall k :: k in items ==> !Fading(items[k], now(k)) {
      SameValues(got, want);
    } else {
      var k :| k in items && Fading(items[k], now(k));
      assert k in got && k !in want;
    }
  }

  /** A rewritten log on top of the older snapshot restores exactly the entries without expiry, just when no
      entry is fading and every such key of the older snapshot is still stored and unexpired. */
  lemma RewriteExact(base: Values, items: map<string, M.Entry>, now: string -> int)
    ensures Restored(base, items, now) == PermItems(items) <==>
              (forall k :: k in items ==> !Fading(items[k], now(k)))
              && (forall k :: k in base ==> k in items && !Skipped(items[k], now(k)))
    ensures forall k :: k in PermItems(items) ==>
              k in Restored(base, items, now) && Restored(base, items, now)[k] == PermItems(items)[k]
    ensures forall k :: k in Restored(base, items, now) && k !in PermItems(items) ==>
              k in base || (k in items && Fading(items[k], now(k)))
  {
    var got, want := Restored(base, items, now), PermItems(items);
    if forall k :: k in items ==> !Fading(items[k], now(k)) {
      if forall k :: k in base ==> k in items && !Skipped(items[k], now(k)) {
        SameValues(got, want);
      } else {
        var k :| k in base && !(k in items && !Skipped(items[k], now(k)));
        assert k in got && k !in want;
      }
    } else {
      var k :| k in items && Fading(items[k], now(k));
      assert k in got && k !in want;
    }
  }

  /** The failing inputs: an entry in its last second comes back for good, and a rewrite revives a key that only the
      older snapshot holds. */
  lemma FadingComesBack(k: string, v: string, time: int, now: int)
    requires 0 <= time - now < SECOND
    ensures var items := map[k := M.Entry(v, M.At(time))];
            Restored(map[], items, _ => now) == map[k := v] && PermItems(items) == map[]
  {
  }

  lemma RewriteRevives(k: string, v: string, now: string -> int)
    ensures Restored(map[k := v], map[], now) == map[k := v] && PermItems(map[]) == map[]
  {
  }

  /** What a line does when it is replayed from the log, whoever wrote it: a SET may lack its TTL, a TTL that is no number
      counts as none, words beyond the needed ones are ignored, a SET or DEL without its words is about the empty key,
      and any other command does nothing. */
  lemma LineEffects(c: M.Cache, k: string, v: string, ttl: string, more: seq<string>, name: string, now: int)
    ensures ApplyOp(c, ToOperation(["SET", k, v]), now) == M.Set(c, k, v, 0, now)
    ensures ApplyOp(c, ToOperation(["SET", k, v, ttl] + more), now)
         == M.Set(c, k, v, if Atoi(ttl).Some? then Duration(Atoi(ttl).value) else 0, now)
    ensures ApplyOp(c, ToOperation(["DEL", k] + more), now) == M.Delete(c, k)
    ensures ApplyOp(c, ToOperation(["SET"]), now) == ApplyOp(c, ToOperation(["SET", k]), now) == M.Set(c, "", "", 0, now)
    ensures ApplyOp(c, ToOperation(["DEL"]), now) == M.Delete(c, "")
    ensures name != "SET" && name != "DEL" ==> ApplyOp(c, ToOperation([name] + more), now) == c
  {
    hide M.Set, M.Delete, Atoi, Duration;
    assert Duration(0) == 0 by {
      DurationExact(0);
    }
    assert |["SET", k, v, ttl] + more| >= 4 && |["DEL", k] + more| >= 2;
  }
}
