/** From the commands of the clients to the files and back: what a node served survives a crash. */
module Durability {
  import opened Sequences
  import opened Options
  import opened Decimal
  import opened Resp
  import opened AofLog
  import opened TornTail
  import opened Commands
  import opened Durations
  import P = Persistence
  import PR = PersistenceRuns
  import LR = LiveRuns
  import M = CacheModel
  import R = Replication

  /** What a command does to cache and log; None for commands that are refused or do neither. */
  function StepOf(cmd: Command, now: int): Option<PR.Step> {
    if 3 <= |cmd| <= 5 && cmd[0] == "SET" && SetTtl(cmd).Ttl? then Some(PR.Write(cmd[1], cmd[2], SetTtl(cmd).seconds, now))
    else if |cmd| == 2 && cmd[0] == "DEL" then Some(PR.Remove(cmd[1]))
    else if |cmd| == 2 && cmd[0] == "GET" then Some(PR.Read(cmd[1], now))
    else None
  }

  function StepsOf(cmds: seq<Command>, clock: nat -> int): seq<PR.Step> {
    if cmds == [] then []
    else
      var last := |cmds| - 1;
      StepsOf(cmds[..last], clock) + (match StepOf(cmds[last], clock(last)) case None => [] case Some(s) => [s])
  }

  /** A write that is not refused names one of the keys. */
  predicate Keyed(cmd: Command, keys: set<string>) {
    && cmd != [] && Loggable(cmd)
    && match StepOf(cmd, 0)
       case Some(Write(k, _, _, _)) => k in keys
       case Some(Remove(k)) => k in keys
       case _ => true
  }

  /** And its TTL, if any, is not lost in the log. */
  predicate Moderate(cmd: Command) {
    match StepOf(cmd, 0)
    case Some(Write(_, _, ttl, _)) => !PR.Vanishing(ttl)
    case _ => true
  }

  lemma ServeStep(set_: Setting, n: Node, s: PR.System, cmd: Command, now: int)
    requires cmd != [] && set_.role != "follower" && n.cache == s.cache && n.aof == PR.File(s)
    ensures var n' := Serve(set_, n, cmd, now).0;
            var s' := match StepOf(cmd, now) case None => s case Some(step) => PR.Do(s, step);
            && n'.cache == s'.cache && n'.aof == PR.File(s')
            && s'.snapshot == s.snapshot && (s.torn == "" ==> s'.torn == "")
  {
    hide M.Set, M.Get, M.Delete, Encode, EncodeCommand, PR.File, PR.Append, Upper, Itoa, Seconds, Duration;
    match StepOf(cmd, now)
    case Some(Write(k, v, ttl, _)) =>
      LogIt(s, M.Set(s.cache, k, v, Duration(ttl), now), ["SET", k, v, Itoa(Seconds(Duration(ttl)))]);
    case Some(Remove(k)) => LogIt(s, M.Delete(s.cache, k), ["DEL", k]);
    case Some(Read(k, _)) => SameFile(s, s.(cache := M.Get(s.cache, k, now).0));
    case _ =>
  }

  lemma LogIt(s: PR.System, c: M.Cache, cmd: Command)
    ensures var s' := PR.Append(s.(cache := c), cmd);
            && s'.cache == c && s'.snapshot == s.snapshot && (s.torn == "" ==> s'.torn == "")
            && PR.File(s') == PR.File(s) + EncodeCommand(cmd)
  {
    PR.AppendIsAppend(s.(cache := c), cmd);
    hide EncodeCommand, LogOf;
  }

  lemma SameFile(s: PR.System, s': PR.System)
    requires s.log == s'.log && s.torn == s'.torn
    ensures PR.File(s) == PR.File(s')
  {
  }

  lemma {:induction false} ServedIsRun(set_: Setting, maxSize: int, cmds: seq<Command>, clock: nat -> int)
    requires set_.role != "follower" && forall i :: 0 <= i < |cmds| ==> cmds[i] != []
    ensures var n := ServeAll(set_, Fresh(maxSize), cmds, clock).0;
            var s := PR.Run(maxSize, StepsOf(cmds, clock));
            n.cache == s.cache && n.aof == PR.File(s) && s.snapshot.None? && s.torn == ""
  {
    hide Serve, StepOf, PR.Do;
    if cmds == [] {
      assert LogOf([]) + "" == "";
    } else {
      var last := |cmds| - 1;
      ServedIsRun(set_, maxSize, cmds[..last], clock);
      var steps := StepsOf(cmds[..last], clock);
      ServeStep(set_, ServeAll(set_, Fresh(maxSize), cmds[..last], clock).0, PR.Run(maxSize, steps), cmds[last], clock(last));
      if StepOf(cmds[last], clock(last)).Some? {
        var more := steps + [StepOf(cmds[last], clock(last)).value];
        assert more[..|more| - 1] == steps && StepsOf(cmds, clock) == more;
      } else {
        assert StepsOf(cmds, clock) == steps;
      }
    }
  }

  lemma KeyedAllowed(s: PR.System, cmd: Command, now: int, keys: set<string>)
    requires Keyed(cmd, keys) && StepOf(cmd, now).Some? && s.torn == ""
    ensures PR.Allowed(s, StepOf(cmd, now).value, keys)
    ensures Moderate(cmd) ==> PR.Precise(s, StepOf(cmd, now).value)
  {
    hide Upper, Atoi, PR.Vanishing;
  }

  lemma AllowedMore(maxSize: int, steps: seq<PR.Step>, step: PR.Step, keys: set<string>)
    requires PR.AllAllowed(maxSize, steps, keys) && PR.Allowed(PR.Run(maxSize, steps), step, keys)
    ensures PR.AllAllowed(maxSize, steps + [step], keys)
    ensures PR.AllPrecise(maxSize, steps) && PR.Precise(PR.Run(maxSize, steps), step) ==> PR.AllPrecise(maxSize, steps + [step])
  {
    hide PR.Do, PR.Allowed, PR.Precise;
    assert (steps + [step])[..|steps|] == steps;
  }

  predicate AllModerate(cmds: seq<Command>) {
    forall i :: 0 <= i < |cmds| ==> Moderate(cmds[i])
  }

  lemma {:induction false} ServedAllowed(set_: Setting, maxSize: int, cmds: seq<Command>, clock: nat -> int, keys: set<string>)
    requires set_.role != "follower" && forall i :: 0 <= i < |cmds| ==> Keyed(cmds[i], keys)
    ensures PR.AllAllowed(maxSize, StepsOf(cmds, clock), keys)
    ensures AllModerate(cmds) ==> PR.AllPrecise(maxSize, StepsOf(cmds, clock))
  {
    assert forall i :: 0 <= i < |cmds| ==> cmds[i] != [];
    hide StepOf, Keyed, Moderate, PR.Allowed, PR.Precise, PR.Run, PR.File, Serve, ServeAll;
    if cmds != [] {
      var last := |cmds| - 1;
      ServedAllowed(set_, maxSize, cmds[..last], clock, keys);
      ServedIsRun(set_, maxSize, cmds[..last], clock);
      var steps := StepsOf(cmds[..last], clock);
      if StepOf(cmds[last], clock(last)).Some? {
        var step := StepOf(cmds[last], clock(last)).value;
        KeyedAllowed(PR.Run(maxSize, steps), cmds[last], clock(last), keys);
        AllowedMore(maxSize, steps, step, keys);
      } else {
        assert StepsOf(cmds, clock) == steps;
      }
    }
  }

  /** Whatever commands a node that is not a follower served, refused ones included, and wherever inside the
      next append it stopped: recovery from its log gives back every entry without expiry, and no other unless a TTL
      vanished in the log. */
  lemma ServedSurvives(set_: Setting, maxSize: int, keys: set<string>, cmds: seq<Command>, clock: nat -> int,
                       next: Command, tail: string, later: nat -> int, later': nat -> int)
    requires set_.role != "follower" && |keys| <= maxSize
    requires forall i :: 0 <= i < |cmds| ==> Keyed(cmds[i], keys)
    requires tail == "" || Torn(tail, next)
    ensures forall i :: 0 <= i < |cmds| ==> cmds[i] != []
    ensures var n := ServeAll(set_, Fresh(maxSize), cmds, clock).0;
            var r := P.Recover(maxSize, None, n.aof + tail, later, later');
            && r.Some? && PR.Included(P.Perm(n.cache), P.Perm(r.value))
            && (AllModerate(cmds) ==> P.Perm(r.value) == P.Perm(n.cache))
  {
    assert forall i :: 0 <= i < |cmds| ==> cmds[i] != [];
    assert PR.Bytes(None) == None;
    hide *;
    ServedIsRun(set_, maxSize, cmds, clock);
    ServedAllowed(set_, maxSize, cmds, clock, keys);
    PR.PermanentSurvives(maxSize, StepsOf(cmds, clock), keys, next, tail, later, later');
    if AllModerate(cmds) {
      PR.CrashSafety(maxSize, StepsOf(cmds, clock), keys, next, tail, later, later');
    }
  }

  lemma {:induction false} NoSnapshots(cmds: seq<Command>, clock: nat -> int, time: int)
    ensures forall i :: 0 <= i < |StepsOf(cmds, clock)| ==> LR.Before(StepsOf(cmds, clock)[i], time)
  {
    if cmds != [] {
      hide Upper, Atoi;
      NoSnapshots(cmds[..|cmds| - 1], clock, time);
    }
  }

  /** And every entry that expires comes back too, with its value. */
  lemma ServedValuesSurvive(set_: Setting, maxSize: int, keys: set<string>, cmds: seq<Command>, clock: nat -> int,
                            next: Command, tail: string, later: nat -> int, later': nat -> int)
    requires set_.role != "follower" && |keys| <= maxSize
    requires forall i :: 0 <= i < |cmds| ==> Keyed(cmds[i], keys)
    requires tail == "" || Torn(tail, next)
    ensures forall i :: 0 <= i < |cmds| ==> cmds[i] != []
    ensures var n := ServeAll(set_, Fresh(maxSize), cmds, clock).0;
            var r := P.Recover(maxSize, None, n.aof + tail, later, later');
            && r.Some?
            && forall k :: k in n.cache.items ==> k in r.value.items && r.value.items[k].value == n.cache.items[k].value
  {
    assert forall i :: 0 <= i < |cmds| ==> cmds[i] != [];
    assert PR.Bytes(None) == None;
    hide *;
    ServedIsRun(set_, maxSize, cmds, clock);
    ServedAllowed(set_, maxSize, cmds, clock, keys);
    var n := ServeAll(set_, Fresh(maxSize), cmds, clock).0;
    var r := P.Recover(maxSize, None, n.aof + tail, later, later');
    NoSnapshots(cmds, clock, 0);
    LR.LiveSurvives(maxSize, StepsOf(cmds, clock), keys, 0, next, tail, later, later');
    forall k | k in n.cache.items ensures k in r.value.items && r.value.items[k].value == n.cache.items[k].value {
      var e := n.cache.items[k];
      var time := if e.expiry.At? then e.expiry.time else 0;
      NotYet(e, time);
      NoSnapshots(cmds, clock, time);
      LR.LiveSurvives(maxSize, StepsOf(cmds, clock), keys, time, next, tail, later, later');
    }
  }

  lemma NotYet(e: M.Entry, time: int)
    requires e.expiry.At? ==> time == e.expiry.time
    ensures !M.Expired(e, time)
  {
  }

  // ----- the same commands, seen by the followers

  function ApplyAll(store: R.Store, ws: seq<R.Write>): R.Store {
    if ws == [] then store else R.Apply(ApplyAll(store, ws[..|ws| - 1]), ws[|ws| - 1])
  }

  function ValuesOf(items: map<string, M.Entry>): R.Store {
    map k | k in items :: items[k].value
  }

  lemma ApplyMore(store: R.Store, ws: seq<R.Write>, w: R.Write)
    ensures ApplyAll(store, ws + [w]) == R.Apply(ApplyAll(store, ws), w)
  {
    assert (ws + [w])[..|ws|] == ws;
  }

  lemma ServeEffect(set_: Setting, n: Node, cmd: Command, now: int)
    requires set_.role != "follower" && set_.leads && cmd != []
    ensures var n' := Serve(set_, n, cmd, now).0;
            match StepOf(cmd, now)
            case Some(Write(k, v, ttl, _)) =>
              n'.cache == M.Set(n.cache, k, v, Duration(ttl), now) && n'.sent == n.sent + [R.Set(k, v, Seconds(Duration(ttl)))]
            case Some(Remove(k)) => n'.cache == M.Delete(n.cache, k) && n'.sent == n.sent + [R.Delete(k)]
            case Some(Read(k, _)) => n'.cache == M.Get(n.cache, k, now).0 && n'.sent == n.sent
            case _ => n'.cache == n.cache && n'.sent == n.sent
  {
    hide Encode, EncodeCommand, Upper, Itoa, M.Set, M.Delete, M.Get;
  }

  lemma ValuesChange(items: map<string, M.Entry>, k: string, e: M.Entry)
    ensures ValuesOf(items[k := e]) == ValuesOf(items)[k := e.value] && ValuesOf(items - {k}) == ValuesOf(items) - {k}
  {
  }

  lemma ReadRoomy(c: M.Cache, keys: set<string>, k: string, now: int)
    requires M.Roomy(c, keys)
    ensures M.Roomy(M.Get(c, k, now).0, keys) && M.Get(c, k, now).0.items == c.items
  {
    hide M.Minus, Distinct;
    M.StepValid(c, M.Event(M.OpGet(k), now));
  }

  lemma KeysOfStep(cmd: Command, now: int, keys: set<string>)
    requires Keyed(cmd, keys)
    ensures match StepOf(cmd, now)
            case Some(Write(k, _, _, _)) => k in keys
            case Some(Remove(k)) => k in keys
            case _ => true
  {
  }

  lemma ServeMirrors(set_: Setting, n: Node, cmd: Command, now: int, keys: set<string>)
    requires set_.role != "follower" && set_.leads && Keyed(cmd, keys) && M.Roomy(n.cache, keys)
    requires ValuesOf(n.cache.items) == ApplyAll(map[], n.sent)
    ensures cmd != []
    ensures var n' := Serve(set_, n, cmd, now).0;
            M.Roomy(n'.cache, keys) && ValuesOf(n'.cache.items) == ApplyAll(map[], n'.sent)
  {
    ServeEffect(set_, n, cmd, now);
    KeysOfStep(cmd, now, keys);
    hide Serve, StepOf, Keyed, ApplyAll, ValuesOf, M.Roomy, P.Perm, M.Set, M.Get, M.MakeRoom, M.Touch, Duration, Seconds;
    match StepOf(cmd, now)
    case Some(Write(k, v, ttl, _)) =>
      P.SetRoomy(n.cache, keys, k, v, Duration(ttl), now);
      ValuesChange(n.cache.items, k, M.Entry(v, M.ExpiryOf(Duration(ttl), now)));
      ApplyMore(map[], n.sent, R.Set(k, v, Seconds(Duration(ttl))));
    case Some(Remove(k)) =>
      P.DeleteRoomy(n.cache, keys, k);
      ValuesChange(n.cache.items, k, M.Entry("", M.Never));
      ApplyMore(map[], n.sent, R.Delete(k));
    case Some(Read(k, _)) => ReadRoomy(n.cache, keys, k, now);
    case _ =>
  }

  /** The writes a leader replicated, applied in order to an empty store, give the values in its cache. */
  lemma {:induction false} SentMirrorsCache(set_: Setting, maxSize: int, keys: set<string>, cmds: seq<Command>, clock: nat -> int)
    requires set_.role != "follower" && set_.leads && |keys| <= maxSize
    requires forall i :: 0 <= i < |cmds| ==> Keyed(cmds[i], keys)
    ensures forall i :: 0 <= i < |cmds| ==> cmds[i] != []
    ensures var n := ServeAll(set_, Fresh(maxSize), cmds, clock).0;
            M.Roomy(n.cache, keys) && ValuesOf(n.cache.items) == ApplyAll(map[], n.sent)
  {
    assert forall i :: 0 <= i < |cmds| ==> cmds[i] != [];
    if cmds == [] {
      PR.EmptyRoomy(maxSize, keys);
    } else {
      hide Serve, Keyed, M.Roomy, ValuesOf, ApplyAll;
      var last := |cmds| - 1;
      SentMirrorsCache(set_, maxSize, keys, cmds[..last], clock);
      ServeMirrors(set_, ServeAll(set_, Fresh(maxSize), cmds[..last], clock).0, cmds[last], clock(last), keys);
    }
  }
}
