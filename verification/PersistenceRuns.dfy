/** Whole runs of a node with its files: client commands, expiry sweeps, snapshots stopped after the rename
    or after the truncation, log rewrites, and crashes in the middle of an append, after which the node restarts and
    goes on with the torn bytes still in its log. No command is appended between Cache.Snapshot and the file swap,
    and the distinct keys fit the cache. */
module PersistenceRuns {
  import opened Sequences
  import opened Options
  import opened Decimal
  import opened Durations
  import opened AofLog
  import opened TornTail
  import opened Persistence
  import M = CacheModel

  type Commands = seq<seq<string>>

  /** The log file holds the whole commands and then the torn bytes with all that was written behind them. */
  datatype System = System(cache: M.Cache, snapshot: Option<Commands>, log: Commands, torn: string)

  function File(s: System): string {
    LogOf(s.log) + s.torn
  }

  datatype Step =
    | Write(key: string, value: string, ttl: int, now: int)
    | Remove(key: string)
    | Read(key: string, now: int)
    | Expire(now: int)
    | Snapshot(order: seq<string>, at: string -> int, truncated: bool)
    | Rewrite(order: seq<string>, at: string -> int)
    | Crash(next: seq<string>, written: string, clock: nat -> int, clock': nat -> int)

  function Base(snapshot: Option<Commands>): Values {
    if snapshot.None? then map[] else PermReplay(map[], SnapshotOperations(snapshot.value))
  }

  /** What the whole commands of both files say about the entries without expiry. */
  function Logged(s: System): Values {
    PermReplay(Base(s.snapshot), ToOperations(s.log))
  }

  function Bytes(snapshot: Option<Commands>): Option<string> {
    if snapshot.None? then None else Some(LogOf(snapshot.value))
  }

  function Recovered(s: System, written: string, clock: nat -> int, clock': nat -> int): Option<M.Cache> {
    Recover(s.cache.maxSize, Bytes(s.snapshot), File(s) + written, clock, clock')
  }

  predicate Short(s: string) {
    |s| <= MAX_INT
  }

  /** Nothing is appended behind torn bytes: a crash that leaves some is followed by a truncating snapshot or a
      rewrite before the next append. */
  ghost predicate Allowed(s: System, step: Step, keys: set<string>) {
    match step
    case Write(k, v, ttl, _) => s.torn == "" && k in keys && Short(k) && Short(v)
    case Remove(k) => s.torn == "" && k in keys && Short(k)
    case Snapshot(order, _, _) => Enumerates(order, s.cache.items)
    case Rewrite(order, _) => Enumerates(order, s.cache.items)
    case Crash(next, written, _, _) => written == "" || (s.torn == "" && Torn(written, next))
    case _ => true
  }

  /** A TTL that is positive but, once it has wrapped, less than a second: it is logged as 0, that is, none. */
  predicate Vanishing(ttl: int) {
    0 < Duration(ttl) < SECOND
  }

  /** A snapshot or rewrite at a moment when it is exact, a write whose expiry is logged. */
  ghost predicate Precise(s: System, step: Step) {
    match step
    case Write(_, _, ttl, _) => !Vanishing(ttl)
    case Snapshot(_, at, _) => forall k :: k in s.cache.items ==> !Fading(s.cache.items[k], at(k))
    case Rewrite(_, at) =>
      && (forall k :: k in s.cache.items ==> !Fading(s.cache.items[k], at(k)))
      && (forall k :: k in Base(s.snapshot) ==> k in s.cache.items && !Skipped(s.cache.items[k], at(k)))
    case _ => true
  }

  /** Append writes at the end of the file. */
  function Append(s: System, cmd: seq<string>): System {
    if s.torn == "" then s.(log := s.log + [cmd]) else s.(torn := s.torn + EncodeCommand(cmd))
  }

  lemma AppendIsAppend(s: System, cmd: seq<string>)
    ensures File(Append(s, cmd)) == File(s) + EncodeCommand(cmd)
  {
    hide EncodeCommand, LogOf;
    LogAppend(s.log, [cmd]);
    LogOfOne(cmd);
    Associate(LogOf(s.log), s.torn, EncodeCommand(cmd));
    if s.torn == "" {
      assert LogOf(s.log) + "" == LogOf(s.log);
    }
  }

  ghost function Do(s: System, step: Step): System {
    match step
    case Write(k, v, ttl, now) =>
      Append(s.(cache := M.Set(s.cache, k, v, Duration(ttl), now)), ["SET", k, v, Itoa(Seconds(Duration(ttl)))])
    case Remove(k) => Append(s.(cache := M.Delete(s.cache, k)), ["DEL", k])
    case Read(k, now) => s.(cache := M.Get(s.cache, k, now).0)
    case Expire(now) => s.(cache := M.Cleanup(s.cache, now))
    case Snapshot(order, at, truncated) =>
      if !Enumerates(order, s.cache.items) then s
      else
        var s' := s.(snapshot := Some(Render(s.cache.items, order, at)));
        if truncated then s'.(log := [], torn := "") else s'
    case Rewrite(order, at) =>
      if !Enumerates(order, s.cache.items) then s
      else s.(log := Render(s.cache.items, order, at), torn := "")
    case Crash(_, written, clock, clock') =>
      var s' := s.(torn := s.torn + written);
      match Recovered(s, written, clock, clock')
      case None => s'
      case Some(c) => s'.(cache := c)
  }

  // ----- the invariants

  ghost predicate WellLogged(cmds: Commands, keys: set<string>) {
    && (forall i :: 0 <= i < |cmds| ==> cmds[i] != [] && Loggable(cmds[i]))
    && KeysIn(ToOperations(cmds), keys) && KeysIn(SnapshotOperations(cmds), keys)
  }

  predicate ShortItems(items: map<string, M.Entry>) {
    forall k :: k in items ==> Short(k) && Short(items[k].value)
  }

  ghost predicate Cut(torn: string) {
    torn == "" || exists next :: Torn(torn, next)
  }

  ghost predicate Inv(s: System, keys: set<string>) {
    && M.Roomy(s.cache, keys) && ShortItems(s.cache.items)
    && WellLogged(s.log, keys) && (s.snapshot.Some? ==> WellLogged(s.snapshot.value, keys))
    && Cut(s.torn)
  }

  ghost predicate Included(a: Values, b: Values) {
    forall k :: k in a ==> k in b && b[k] == a[k]
  }

  /** The files know every entry without expiry. */
  ghost predicate Safe(s: System) {
    Included(Perm(s.cache), Logged(s))
  }

  /** And no other. */
  ghost predicate Exact(s: System) {
    Perm(s.cache) == Logged(s)
  }

  /** Recovery from the files of such a system, with the log cut off inside a command that was being appended,
      gives exactly the entries without expiry that the files know. */
  lemma RecoveryIsLogged(s: System, keys: set<string>, next: seq<string>, written: string, clock: nat -> int, clock': nat -> int)
    requires Inv(s, keys) && (written == "" || (s.torn == "" && Torn(written, next)))
    ensures var r := Recovered(s, written, clock, clock');
            && r.Some? && Perm(r.value) == Logged(s)
            && M.Roomy(r.value, keys) && ShortItems(r.value.items) && r.value.maxSize == s.cache.maxSize
  {
    ReadFile(s, keys, next, written);
    hide ReadEntries, LogOf, Perm, Replay, PermReplay, ToOperations, SnapshotOperations, EncodeCommand, Loggable, File, Cut, Torn;
    var loaded := if s.snapshot.None? then [] else s.snapshot.value;
    if s.snapshot.Some? {
      ReadWhole(s.snapshot.value);
    }
    var fresh_ := M.Empty(s.cache.maxSize);
    EmptyRoomy(s.cache.maxSize, keys);
    NothingLoaded();
    ReplayPerm(fresh_, SnapshotOperations(loaded), clock, keys);
    var c := Replay(fresh_, SnapshotOperations(loaded), clock);
    ReplayPerm(c, ToOperations(s.log), clock', keys);
    ReplaySize(fresh_, SnapshotOperations(loaded), clock);
    ReplaySize(c, ToOperations(s.log), clock');
    OperationsShort(loaded);
    OperationsShort(s.log);
    ReplayShort(fresh_, SnapshotOperations(loaded), clock);
    ReplayShort(c, ToOperations(s.log), clock');
  }

  lemma ReadWhole(cmds: Commands)
    requires forall i :: 0 <= i < |cmds| ==> cmds[i] != [] && Loggable(cmds[i])
    ensures ReadEntries(LogOf(cmds)) == Some(cmds)
  {
    hide ReadEntries, LogOf, EncodeCommand;
    ReadLog(cmds, [], "");
    assert LogOf(cmds) + "" == LogOf(cmds);
    NoneEmpty(cmds);
  }

  lemma ReadFile(s: System, keys: set<string>, next: seq<string>, written: string)
    requires Inv(s, keys) && (written == "" || (s.torn == "" && Torn(written, next)))
    ensures ReadEntries(File(s) + written) == Some(s.log)
  {
    hide ReadEntries, LogOf, EncodeCommand;
    var next' := next;
    if s.torn != "" {
      next' :| Torn(s.torn, next');
    } else if written == "" {
      next' := [];
    }
    assert File(s) + written == LogOf(s.log) + (s.torn + written);
    assert s.torn + "" == s.torn && "" + written == written;
    ReadLog(s.log, next', s.torn + written);
    NoneEmpty(s.log);
  }

  predicate ShortOps(ops: seq<Operation>) {
    forall i :: 0 <= i < |ops| ==> Short(ops[i].key) && Short(ops[i].value)
  }

  lemma {:induction false} OperationsShort(cmds: Commands)
    requires AllLoggable(cmds)
    ensures ShortOps(ToOperations(cmds)) && ShortOps(SnapshotOperations(cmds))
  {
    if cmds != [] {
      OperationsShort(cmds[..|cmds| - 1]);
      var last := cmds[|cmds| - 1];
      assert last != [] ==> Short(ToOperation(last).key) && Short(ToOperation(last).value);
    }
  }

  lemma {:induction false} ReplayShort(c: M.Cache, ops: seq<Operation>, clock: nat -> int)
    requires ShortItems(c.items) && ShortOps(ops)
    ensures ShortItems(Replay(c, ops, clock).items)
  {
    hide M.Minus;
    if ops != [] {
      ReplayShort(c, ops[..|ops| - 1], clock);
    }
  }

  lemma EmptyRoomy(maxSize: int, keys: set<string>)
    requires |keys| <= maxSize
    ensures M.Roomy(M.Empty(maxSize), keys) && Perm(M.Empty(maxSize)) == map[]
  {
  }

  lemma NothingLoaded()
    ensures SnapshotOperations([]) == [] && PermReplay(map[], []) == map[]
  {
  }

  lemma {:induction false} ReplaySize(c: M.Cache, ops: seq<Operation>, clock: nat -> int)
    ensures Replay(c, ops, clock).maxSize == c.maxSize
  {
    if ops != [] {
      ReplaySize(c, ops[..|ops| - 1], clock);
    }
  }

  // ----- steps keep the invariant

  lemma KeysInSnoc(ops: seq<Operation>, op: Operation, keys: set<string>)
    requires KeysIn(ops, keys) && op.key in keys
    ensures KeysIn(ops + [op], keys)
  {
  }

  lemma LogOne(cmds: Commands, parts: seq<string>, keys: set<string>)
    requires WellLogged(cmds, keys) && parts != [] && Loggable(parts) && ToOperation(parts).key in keys
    ensures WellLogged(cmds + [parts], keys)
    ensures ToOperations(cmds + [parts]) == ToOperations(cmds) + [ToOperation(parts)]
  {
    hide ToOperation, ToOperations, SnapshotOperations, KeysIn, Loggable;
    OperationsSnoc(cmds, parts);
    KeysInSnoc(ToOperations(cmds), ToOperation(parts), keys);
    KeysInSnoc(SnapshotOperations(cmds), ToOperation(parts), keys);
    SnapshotSkips(cmds, parts);
  }

  lemma SnapshotSkips(cmds: Commands, parts: seq<string>)
    ensures !(|parts| >= 3 && parts[0] == "SET") ==> SnapshotOperations(cmds + [parts]) == SnapshotOperations(cmds)
  {
    assert (cmds + [parts])[..|cmds|] == cmds;
  }

  lemma PermReplaySnoc(m: Values, ops: seq<Operation>, op: Operation)
    ensures PermReplay(m, ops + [op]) == PermApply(PermReplay(m, ops), op)
  {
    assert (ops + [op])[..|ops|] == ops;
  }

  // ----- every step keeps the files readable, and what they know

  lemma AppendKeeps(s: System, cmd: seq<string>, keys: set<string>)
    requires s.torn == "" && WellLogged(s.log, keys) && cmd != [] && Loggable(cmd) && ToOperation(cmd).key in keys
    ensures var s' := Append(s, cmd);
            && WellLogged(s'.log, keys) && s'.torn == "" && s'.cache == s.cache && s'.snapshot == s.snapshot
            && Logged(s') == PermApply(Logged(s), ToOperation(cmd))
  {
    hide ToOperation, ToOperations, PermReplay, WellLogged, Base, PermApply, Loggable;
    LogOne(s.log, cmd, keys);
    PermReplaySnoc(Base(s.snapshot), ToOperations(s.log), ToOperation(cmd));
  }

  /** What an operation that is logged as op' may do to the cache: the same, or only remove. */
  predicate Covers(op': Operation, op: Operation) {
    op'.kind == op.kind && op'.key == op.key && (EffectOf(op') == EffectOf(op) || EffectOf(op) == Gone)
  }

  /** A write and a removal change cache and files alike, except that the log may know a value without expiry where the
      cache has one that vanishes within a second. */
  lemma ChangeKeeps(s: System, keys: set<string>, step: Step) returns (op: Operation, op': Operation)
    requires Inv(s, keys) && Allowed(s, step, keys) && (step.Write? || step.Remove?)
    ensures Inv(Do(s, step), keys)
    ensures Perm(Do(s, step).cache) == PermApply(Perm(s.cache), op) && Logged(Do(s, step)) == PermApply(Logged(s), op')
    ensures Covers(op', op) && (EffectOf(op') == EffectOf(op) <==> Precise(s, step))
    ensures op.kind == "SET" || op.kind == "DEL"
  {
    hide Perm, WellLogged, M.Roomy, Logged, Append, M.Set, M.Delete;
    match step
    case Write(k, v, ttl, now) =>
      var seconds := Seconds(Duration(ttl));
      LoggedTtl(ttl);
      AtoiItoa(seconds);
      ItoaLength(seconds);
      op, op' := Operation("SET", k, v, ttl), Operation("SET", k, v, seconds);
      SetRoomy(s.cache, keys, k, v, Duration(ttl), now);
      var s1 := s.(cache := M.Set(s.cache, k, v, Duration(ttl), now));
      AppendKeeps(s1, ["SET", k, v, Itoa(seconds)], keys);
      SameFiles(s, s1);
    case Remove(k) =>
      op, op' := Operation("DEL", k, "", 0), Operation("DEL", k, "", 0);
      DeleteRoomy(s.cache, keys, k);
      DeleteShort(s.cache, k);
      AppendKeeps(s.(cache := M.Delete(s.cache, k)), ["DEL", k], keys);
      SameFiles(s, s.(cache := M.Delete(s.cache, k)));
  }

  /** The seconds that are logged fit a Duration again, and say no expiry just when there is none or it vanishes. */
  lemma LoggedTtl(ttl: int)
    ensures var seconds := Seconds(Duration(ttl));
            && MIN_INT <= seconds <= MAX_INT && Duration(seconds) == seconds * SECOND
            && (Duration(seconds) <= 0 <==> Duration(ttl) <= 0 || Vanishing(ttl))
  {
    var d := Duration(ttl);
    assert -MAX_SECONDS <= Seconds(d) <= MAX_SECONDS;
    DurationExact(Seconds(d));
  }

  lemma DeleteShort(c: M.Cache, k: string)
    requires ShortItems(c.items)
    ensures ShortItems(M.Delete(c, k).items)
  {
    hide M.Minus;
  }

  lemma SameFiles(s: System, s': System)
    requires s.snapshot == s'.snapshot && s.log == s'.log
    ensures Logged(s) == Logged(s')
  {
  }

  lemma ApplyIncluded(a: Values, b: Values, op: Operation, op': Operation)
    requires Included(a, b) && Covers(op', op)
    ensures Included(PermApply(a, op), PermApply(b, op'))
  {
    hide Duration;
  }

  /** Reads and expiry sweeps touch no entry without expiry. */
  lemma QuietKeeps(s: System, keys: set<string>, step: Step)
    requires Inv(s, keys) && (step.Read? || step.Expire?)
    ensures var s' := Do(s, step); Inv(s', keys) && Perm(s'.cache) == Perm(s.cache) && Logged(s') == Logged(s)
  {
    hide PermReplay, WellLogged, ToOperations, Base, M.Minus, Distinct, Cut;
    var e := M.Event(if step.Read? then M.OpGet(step.key) else M.OpCleanup, step.now);
    M.StepValid(s.cache, e);
    assert Perm(Do(s, step).cache) == Perm(s.cache);
  }

  lemma {:induction false} RenderLogged(items: map<string, M.Entry>, order: seq<string>, now: string -> int, keys: set<string>)
    requires ShortItems(items) && items.Keys <= keys && forall k :: k in order ==> k in items
    ensures WellLogged(Render(items, order, now), keys)
  {
    hide KeysIn;
    if order == [] {
      NoOperations(keys);
    } else {
      var most, k := order[..|order| - 1], order[|order| - 1];
      RenderLogged(items, most, now, keys);
      RenderedOperation(k, items[k], now(k));
      var entries := Render(items, most, now);
      if Skipped(items[k], now(k)) {
        assert entries + [] == entries;
      } else {
        RenderedLoggable(k, items[k], now(k));
        LogOne(entries, RenderEntry(k, items[k], now(k))[0], keys);
      }
    }
  }

  lemma NoOperations(keys: set<string>)
    ensures WellLogged([], keys)
  {
  }

  lemma RenderedLoggable(k: string, e: M.Entry, now: int)
    requires Short(k) && Short(e.value) && !Skipped(e, now)
    ensures |RenderEntry(k, e, now)| == 1 && RenderEntry(k, e, now)[0] != []
    ensures Loggable(RenderEntry(k, e, now)[0]) && ToOperation(RenderEntry(k, e, now)[0]).key == k
  {
    if e.expiry.At? {
      ItoaLength(Seconds(Until(e.expiry.time, now)));
    }
  }

  lemma NothingToReplay(m: Values)
    ensures ToOperations([]) == [] && PermReplay(m, []) == m
  {
  }

  /** A snapshot knows what Restored says, with the old log replayed on top unless it was truncated. */
  lemma SnapshotLogged(s: System, keys: set<string>, order: seq<string>, at: string -> int, truncated: bool)
    requires Inv(s, keys) && Enumerates(order, s.cache.items)
    ensures var s' := Do(s, Snapshot(order, at, truncated));
            && Inv(s', keys) && s'.cache == s.cache
            && Logged(s') == if truncated then Restored(map[], s.cache.items, at)
                             else PermReplay(Restored(map[], s.cache.items, at), ToOperations(s.log))
  {
    hide PermReplay, WellLogged, ToOperations, Render, Restored, SnapshotOperations, M.Roomy, Cut;
    var items := s.cache.items;
    assert items.Keys <= keys && Cut("") by {
      RoomyKeys(s.cache, keys);
      NotCut();
    }
    RenderLogged(items, order, at, keys);
    SnapshotOfRendered(items, order, at);
    RenderRestores(map[], items, order, at);
    NothingToReplay(Restored(map[], items, at));
    NoOperations(keys);
  }

  lemma RoomyKeys(c: M.Cache, keys: set<string>)
    requires M.Roomy(c, keys)
    ensures c.items.Keys <= keys
  {
  }

  lemma NotCut()
    ensures Cut("")
  {
  }

  lemma RewriteLogged(s: System, keys: set<string>, order: seq<string>, at: string -> int)
    requires Inv(s, keys) && Enumerates(order, s.cache.items)
    ensures var s' := Do(s, Rewrite(order, at));
            Inv(s', keys) && s'.cache == s.cache && Logged(s') == Restored(Base(s.snapshot), s.cache.items, at)
  {
    hide PermReplay, WellLogged, ToOperations, Render, Restored, Base, M.Roomy, Cut;
    RoomyKeys(s.cache, keys);
    NotCut();
    RenderLogged(s.cache.items, order, at, keys);
    RenderRestores(Base(s.snapshot), s.cache.items, order, at);
  }

  /** Restarting after a crash rebuilds a cache that the same files describe exactly. */
  lemma CrashKeeps(s: System, keys: set<string>, step: Step)
    requires Inv(s, keys) && Allowed(s, step, keys) && step.Crash?
    ensures Inv(Do(s, step), keys) && Exact(Do(s, step)) && Logged(Do(s, step)) == Logged(s)
    ensures Do(s, step).cache.maxSize == s.cache.maxSize
  {
    hide Recovered, WellLogged, Perm, PermReplay, M.Roomy, Base, ShortItems, ToOperations, Torn;
    RecoveryIsLogged(s, keys, step.next, step.written, step.clock, step.clock');
    assert s.torn + "" == s.torn && "" + step.written == step.written;
  }

  /** The old log on top of a snapshot of the cache knows at least what it knew before. */
  lemma ReplayedIncluded(perm: Values, base: Values, base': Values, ops: seq<Operation>)
    requires Included(perm, PermReplay(base, ops)) && Included(perm, base')
    ensures Included(perm, PermReplay(base', ops))
  {
    hide PermReplay, LastEffect;
    forall k | k in perm ensures k in PermReplay(base', ops) && PermReplay(base', ops)[k] == perm[k] {
      PermReplayAt(base, ops, k);
      PermReplayAt(base', ops, k);
    }
  }

  lemma StepKeeps(s: System, keys: set<string>, step: Step)
    requires Inv(s, keys) && Safe(s) && Allowed(s, step, keys)
    ensures Inv(Do(s, step), keys) && Safe(Do(s, step))
  {
    hide Inv, Do, Logged, PermReplay, PermApply, Restored, PermItems, ToOperations;
    match step
    case Write(_, _, _, _) => ChangeSafe(s, keys, step);
    case Remove(_) => ChangeSafe(s, keys, step);
    case Read(_, _) => QuietKeeps(s, keys, step);
    case Expire(_) => QuietKeeps(s, keys, step);
    case Snapshot(order, at, truncated) =>
      SnapshotLogged(s, keys, order, at, truncated);
      RewriteExact(map[], s.cache.items, at);
      LoggedIs(s);
      ReplayedIncluded(Perm(s.cache), Base(s.snapshot), Restored(map[], s.cache.items, at), ToOperations(s.log));
    case Rewrite(order, at) =>
      RewriteLogged(s, keys, order, at);
      RewriteExact(Base(s.snapshot), s.cache.items, at);
    case Crash(_, _, _, _) => CrashKeeps(s, keys, step);
  }

  lemma LoggedIs(s: System)
    ensures Logged(s) == PermReplay(Base(s.snapshot), ToOperations(s.log))
  {
  }

  lemma ChangeSafe(s: System, keys: set<string>, step: Step)
    requires Inv(s, keys) && Safe(s) && Allowed(s, step, keys) && (step.Write? || step.Remove?)
    ensures Inv(Do(s, step), keys) && Safe(Do(s, step))
  {
    hide Inv, Do, Logged, PermApply, Allowed, Perm, Included;
    var op, op' := ChangeKeeps(s, keys, step);
    ApplyIncluded(Perm(s.cache), Logged(s), op, op');
  }

  /** A write or removal keeps the files exact exactly when it is precise. */
  lemma ChangeExact(s: System, keys: set<string>, step: Step)
    requires Inv(s, keys) && Exact(s) && Allowed(s, step, keys) && (step.Write? || step.Remove?)
    ensures Exact(Do(s, step)) <==> Precise(s, step)
  {
    hide Inv, Do, Logged, Allowed, Perm, Duration, Precise;
    var op, op' := ChangeKeeps(s, keys, step);
    assert EffectOf(op') != EffectOf(op) ==>
        op.key in PermApply(Logged(s), op') && op.key !in PermApply(Perm(s.cache), op);
  }

  /** The failing input: so many seconds wrap to 512 nanoseconds. The cache holds the entry for that long, the log for
      good. */
  lemma VanishingTtl()
    ensures Vanishing(20_211_507_185_753_197)
  {
  }

  lemma StepExact(s: System, keys: set<string>, step: Step)
    requires Inv(s, keys) && Exact(s) && Allowed(s, step, keys) && Precise(s, step)
    ensures Exact(Do(s, step))
  {
    hide Inv, Do, Logged, PermReplay, PermApply, Restored, PermItems, ToOperations;
    match step
    case Write(_, _, _, _) => ChangeExact(s, keys, step);
    case Remove(_) => ChangeExact(s, keys, step);
    case Read(_, _) => QuietKeeps(s, keys, step);
    case Expire(_) => QuietKeeps(s, keys, step);
    case Snapshot(order, at, truncated) =>
      SnapshotLogged(s, keys, order, at, truncated);
      SnapshotExact(s.cache.items, at);
      LoggedIs(s);
      ReplayIdempotent(Base(s.snapshot), ToOperations(s.log));
    case Rewrite(order, at) =>
      RewriteLogged(s, keys, order, at);
      RewriteExact(Base(s.snapshot), s.cache.items, at);
    case Crash(_, _, _, _) => CrashKeeps(s, keys, step);
  }

  // ----- runs

  /** A run from an empty node. */
  ghost function Run(maxSize: int, steps: seq<Step>): System {
    if steps == [] then System(M.Empty(maxSize), None, [], "")
    else Do(Run(maxSize, steps[..|steps| - 1]), steps[|steps| - 1])
  }

  ghost predicate AllAllowed(maxSize: int, steps: seq<Step>, keys: set<string>) {
    steps != [] ==>
      && AllAllowed(maxSize, steps[..|steps| - 1], keys)
      && Allowed(Run(maxSize, steps[..|steps| - 1]), steps[|steps| - 1], keys)
  }

  ghost predicate AllPrecise(maxSize: int, steps: seq<Step>) {
    steps != [] ==>
      && AllPrecise(maxSize, steps[..|steps| - 1])
      && Precise(Run(maxSize, steps[..|steps| - 1]), steps[|steps| - 1])
  }

  lemma {:induction false} RunKeeps(maxSize: int, steps: seq<Step>, keys: set<string>)
    requires |keys| <= maxSize && AllAllowed(maxSize, steps, keys)
    ensures var s := Run(maxSize, steps);
            Inv(s, keys) && Safe(s) && s.cache.maxSize == maxSize && (AllPrecise(maxSize, steps) ==> Exact(s))
  {
    hide Inv, Allowed, Do, Safe, Exact, Precise;
    if steps == [] {
      StartKeeps(maxSize, keys);
    } else {
      var past, step := steps[..|steps| - 1], steps[|steps| - 1];
      RunKeeps(maxSize, past, keys);
      StepKeeps(Run(maxSize, past), keys, step);
      if AllPrecise(maxSize, steps) {
        StepExact(Run(maxSize, past), keys, step);
      }
      SameSize(Run(maxSize, past), step, keys);
    }
  }

  lemma StartKeeps(maxSize: int, keys: set<string>)
    requires |keys| <= maxSize
    ensures var s := System(M.Empty(maxSize), None, [], ""); Inv(s, keys) && Safe(s) && Exact(s)
  {
    EmptyRoomy(maxSize, keys);
    NoOperations(keys);
  }

  lemma SameSize(s: System, step: Step, keys: set<string>)
    requires Inv(s, keys) && Allowed(s, step, keys)
    ensures Do(s, step).cache.maxSize == s.cache.maxSize
  {
    hide Recovered, Inv;
    if step.Crash? {
      CrashKeeps(s, keys, step);
    }
  }

  /** After any run, with any command cut off while it was being appended: recovery gives back every entry without
      expiry that the cache held. */
  lemma PermanentSurvives(maxSize: int, steps: seq<Step>, keys: set<string>, next: seq<string>, written: string,
                          clock: nat -> int, clock': nat -> int)
    requires |keys| <= maxSize && AllAllowed(maxSize, steps, keys)
    requires written == "" || (Run(maxSize, steps).torn == "" && Torn(written, next))
    ensures var s := Run(maxSize, steps);
            var r := Recover(maxSize, Bytes(s.snapshot), File(s) + written, clock, clock');
            r.Some? && Included(Perm(s.cache), Perm(r.value))
  {
    RunKeeps(maxSize, steps, keys);
    hide Run, AllAllowed, Inv, Perm, Logged, Recover, Torn;
    RecoveryIsLogged(Run(maxSize, steps), keys, next, written, clock, clock');
  }

  /** And nothing else, if snapshots and rewrites were taken when they are exact. */
  lemma CrashSafety(maxSize: int, steps: seq<Step>, keys: set<string>, next: seq<string>, written: string,
                    clock: nat -> int, clock': nat -> int)
    requires |keys| <= maxSize && AllAllowed(maxSize, steps, keys) && AllPrecise(maxSize, steps)
    requires written == "" || (Run(maxSize, steps).torn == "" && Torn(written, next))
    ensures var s := Run(maxSize, steps);
            var r := Recover(maxSize, Bytes(s.snapshot), File(s) + written, clock, clock');
            r.Some? && Perm(r.value) == Perm(s.cache)
  {
    RunKeeps(maxSize, steps, keys);
    hide Run, AllAllowed, AllPrecise, Inv, Perm, Logged, Recover, Torn;
    RecoveryIsLogged(Run(maxSize, steps), keys, next, written, clock, clock');
  }
}
