/** What clients read when many connections share one server: the items of EXEC's reply, and a lookup on any connection
    after any interleaving. */
module ServerAnswers {
  import opened Options
  import opened Decimal
  import opened Resp
  import opened Commands
  import opened CacheContents
  import opened Connections
  import opened Answers
  import C = PyClient
  import M = CacheModel
  import P = PubSub

  // ----- the items of an array

  lemma {:induction false} ItemsSnoc(k: nat, s: string)
    requires C.ReadItems(k, s).Got? && C.ParseReply(C.ReadItems(k, s).rest).Got?
    ensures var front := C.ReadItems(k, s);
            var last := C.ParseReply(front.rest);
            C.ReadItems(k + 1, s) == C.Got(front.value + [last.value], last.rest)
  {
    hide C.ParseReply;
    if k == 0 {
      var v := C.ParseReply(s);
      NoItemsRead(s);
      NoItemsRead(v.rest);
      assert [] + [v.value] == [v.value] + [];
    } else {
      var first := C.ParseReply(s);
      ItemsSnoc(k - 1, first.rest);
      var vs := C.ReadItems(k - 1, first.rest).value;
      var last := C.ParseReply(C.ReadItems(k, s).rest).value;
      assert [first.value] + (vs + [last]) == ([first.value] + vs) + [last];
    }
  }

  ghost predicate AllReadAs(replies: seq<string>, vs: seq<C.Py>) {
    |replies| == |vs| && forall i :: 0 <= i < |vs| ==> ReadAs(replies[i], vs[i])
  }

  lemma {:induction false} ItemsReadAs(replies: seq<string>, vs: seq<C.Py>, rest: string)
    requires AllReadAs(replies, vs)
    ensures C.ReadItems(|vs|, Concat(replies) + rest) == C.Got(vs, rest)
  {
    hide C.ParseReply, C.ReadItems;
    if vs == [] {
      assert Concat(replies) + rest == rest;
      NoItemsRead(rest);
    } else {
      var last := |vs| - 1;
      ItemsReadAs(replies[..last], vs[..last], replies[last] + rest);
      assert Concat(replies) + rest == Concat(replies[..last]) + (replies[last] + rest);
      assert ReadAs(replies[last], vs[last]);
      ItemsSnoc(last, Concat(replies) + rest);
      assert vs[..last] + [vs[last]] == vs;
    }
  }

  lemma NoItemsRead(s: string)
    ensures C.ReadItems(0, s) == C.Got([], s)
  {
  }

  /** A header and replies are read as the list of what the replies are read as. */
  lemma ArrayReadAs(replies: seq<string>, vs: seq<C.Py>)
    requires AllReadAs(replies, vs)
    ensures ReadAs("*" + Itoa(|replies|) + CRLF + Concat(replies), C.PyList(vs))
  {
    hide C.ParseReply, C.ReadInt, C.ReadItems, Itoa, Concat, AllReadAs;
    var body := Concat(replies);
    assert |replies| == |vs| by {
      SameCount(replies, vs);
    }
    forall rest ensures C.ParseReply("*" + Itoa(|replies|) + CRLF + body + rest) == C.Got(C.PyList(vs), rest) {
      assert "*" + Itoa(|replies|) + CRLF + body + rest == ['*'] + (Itoa(|replies|) + CRLF + (body + rest));
      C.ReplyKind('*', Itoa(|replies|) + CRLF + (body + rest));
      C.ReadIntOf(|replies|, body + rest);
      ItemsReadAs(replies, vs, rest);
    }
  }

  lemma SameCount(replies: seq<string>, vs: seq<C.Py>)
    requires AllReadAs(replies, vs)
    ensures |replies| == |vs|
  {
  }

  // ----- the commands of a queue

  /** Named by one line, and not DBSIZE. */
  predicate Readable(cmds: seq<Request>) {
    forall i :: 0 <= i < |cmds| ==> cmds[i][0] != "DBSIZE" && C.OneLine(cmds[i][0])
  }

  function LearnedByExec(d: Dictionary, cmds: seq<Request>, clock: nat -> int): Dictionary {
    if cmds == [] then d
    else
      var last := |cmds| - 1;
      Learn(ExecRefusal(cmds[last]), LearnedByExec(d, cmds[..last], clock), cmds[last], clock(last))
  }

  /** The keys stored after the commands. */
  function StoredBy(c: M.Cache, cmds: seq<Request>, clock: nat -> int): set<string> {
    match ExecuteAll(c, cmds, clock)
    case None => {}
    case Some((after, _)) => after.items.Keys
  }

  /** What the client reads for each queued command. */
  function ExecReadings(c: M.Cache, d: Dictionary, cmds: seq<Request>, clock: nat -> int): seq<C.Py> {
    if cmds == [] then []
    else
      var last := |cmds| - 1;
      var past := cmds[..last];
      ExecReadings(c, d, past, clock)
      + [Reading(ExecRefusal(cmds[last]), LearnedByExec(d, past, clock), StoredBy(c, past, clock), cmds[last], clock(last))]
  }

  lemma {:induction false} ExecutedLearns(c: M.Cache, d: Dictionary, cmds: seq<Request>, clock: nat -> int)
    requires M.Valid(c) && Within(c.items, d) && ExecuteAll(c, cmds, clock).Some?
    ensures var c' := ExecuteAll(c, cmds, clock).value.0;
            M.Valid(c') && Within(c'.items, LearnedByExec(d, cmds, clock))
  {
    if cmds != [] {
      var last := |cmds| - 1;
      var c', d' := ExecuteAll(c, cmds[..last], clock).value.0, LearnedByExec(d, cmds[..last], clock);
      assert cmds[last][0] != "DBSIZE";
      hide Execute, Learn, ExecRefusal, OpOf, After, M.Valid, Within;
      ExecutedLearns(c, d, cmds[..last], clock);
      ExecuteIsStep(c', cmds[last], clock(last));
      ExecuteRefuses(c', cmds[last], clock(last));
      StepLearns(c', d', ExecRefusal(cmds[last]), cmds[last], clock(last));
    }
  }

  lemma {:induction false} ExecutedReads(c: M.Cache, d: Dictionary, cmds: seq<Request>, clock: nat -> int)
    requires M.Valid(c) && Within(c.items, d) && Readable(cmds)
    ensures var r := ExecuteAll(c, cmds, clock);
            && r.Some? && AllReadAs(r.value.1, ExecReadings(c, d, cmds, clock))
  {
    if cmds != [] {
      hide Execute, Reading, Learn, ExecRefusal, OpOf, After, ReadAs, M.Valid, Within, C.OneLine;
      var last := |cmds| - 1;
      ExecutedReads(c, d, cmds[..last], clock);
      ExecutedLearns(c, d, cmds[..last], clock);
      var c', d' := ExecuteAll(c, cmds[..last], clock).value.0, LearnedByExec(d, cmds[..last], clock);
      ExecuteReads(c', d', cmds[last], clock(last));
    }
  }

  /** EXEC answers a list with, for each queued command, what the client would read for it in its turn: a value of the
      dictionary, null, OK, 1, PONG, or the reason why the command was refused. */
  lemma ExecAnswers(set_: Setting, n: Node, d: Dictionary, cmds: seq<Request>, clock: nat -> int)
    requires M.Valid(n.cache) && Within(n.cache.items, d) && Readable(cmds)
    ensures var x := Exec(set_, n, cmds, clock);
            && x.Some? && ReadAs(x.value.1, C.PyList(ExecReadings(n.cache, d, cmds, clock)))
            && M.Valid(x.value.0.cache) && Within(x.value.0.cache.items, LearnedByExec(d, cmds, clock))
  {
    hide ExecuteAll, AllReadAs, ReadAs, ExecReadings, LearnedByExec, Within, M.Valid, Concat, Itoa, RecordAll, Readable;
    ExecutedReads(n.cache, d, cmds, clock);
    ExecutedLearns(n.cache, d, cmds, clock);
    var c, replies := ExecuteAll(n.cache, cmds, clock).value.0, ExecuteAll(n.cache, cmds, clock).value.1;
    ArrayReadAs(replies, ExecReadings(n.cache, d, cmds, clock));
    RecordAllIgnoresCache(set_, n, cmds, c);
  }

  /** The same on a connection: MULTI, any commands that are accepted, and EXEC. */
  lemma TransactionAnswers(set_: Setting, route: Route, sv: Server, c: P.Conn, d: Dictionary, cmds: seq<Request>,
                           clock: nat -> (nat -> int), other: string)
    requires c in sv.sessions && sv.sessions[c] == IDLE && M.Valid(sv.node.cache) && Within(sv.node.cache.items, d)
    requires (forall i :: 0 <= i < |cmds| ==> !Ends(cmds[i])) && !Refused(cmds) && Readable(Accepted(cmds))
    ensures var r, queue := RunOn(set_, route, sv, c, [MULTI] + cmds + [EXEC], clock, other), Accepted(cmds);
            && r.Some? && Within(r.value.0.node.cache.items, LearnedByExec(d, queue, clock(|cmds| + 1)))
            && ReadAs(r.value.1[|cmds| + 1], C.PyList(ExecReadings(sv.node.cache, d, queue, clock(|cmds| + 1))))
  {
    hide RunOn, Refused, Accepted, Readable, Exec, ReadAs, Within, M.Valid, ExecReadings, LearnedByExec;
    TransactionRun(set_, route, sv, c, cmds, clock, other);
    ExecAnswers(set_, sv.node, d, Accepted(cmds), clock(|cmds| + 1));
  }

  // ----- every interleaving of connections

  /** The dictionary after an event: a write that is neither queued, blocked nor redirected takes effect at once, queued
      ones when EXEC runs them. */
  function Heard(set_: Setting, route: Route, sv: Server, d: Dictionary, e: Event): Dictionary {
    if !e.Receive? || e.c !in sv.sessions || sv.sessions[e.c].subscriberMode || Routed(route, e.cmd).Some? then d
    else
      var st := sv.sessions[e.c];
      if !st.inTransaction then if IsWrite(e.cmd) then Learn(Refusal(set_, e.cmd), d, e.cmd, e.clock(0)) else d
      else if e.cmd[0] == "EXEC" && !st.failed then LearnedByExec(d, st.queue, e.clock)
      else d
  }

  function HeardAll(set_: Setting, route: Route, sv: Server, es: seq<Event>): Dictionary {
    if es == [] then map[]
    else
      var past := es[..|es| - 1];
      match Run(set_, route, sv, past)
      case None => map[]
      case Some(before) => Heard(set_, route, before, HeardAll(set_, route, sv, past), es[|es| - 1])
  }

  lemma ServeHeard(set_: Setting, n: Node, d: Dictionary, cmd: Request, now: int)
    requires M.Valid(n.cache) && Within(n.cache.items, d)
    ensures var c := Serve(set_, n, cmd, now).0.cache;
            M.Valid(c) && Within(c.items, if IsWrite(cmd) then Learn(Refusal(set_, cmd), d, cmd, now) else d)
  {
    ServeIsStep(set_, n, cmd, now);
    ServeRefuses(set_, n, cmd, now);
    hide Serve, Refusal, OpOf, After, M.Valid, Within, WrongSize;
    StepLearns(n.cache, d, Refusal(set_, cmd), cmd, now);
  }

  lemma ExecHeard(set_: Setting, n: Node, d: Dictionary, queue: seq<Request>, clock: nat -> int)
    requires M.Valid(n.cache) && Within(n.cache.items, d) && Exec(set_, n, queue, clock).Some?
    ensures var c := Exec(set_, n, queue, clock).value.0.cache;
            M.Valid(c) && Within(c.items, LearnedByExec(d, queue, clock))
  {
    hide ExecuteAll, LearnedByExec, M.Valid, Within, Concat, Itoa, RecordAll;
    ExecutedLearns(n.cache, d, queue, clock);
    RecordAllIgnoresCache(set_, n, queue, ExecuteAll(n.cache, queue, clock).value.0);
  }

  /** What a command can do to the node: nothing, or what serving it or running the queue does. */
  lemma NodeAfter(set_: Setting, route: Route, sv: Server, c: P.Conn, cmd: Request, clock: nat -> int, other: string)
    requires c in sv.sessions && Handle(set_, route, sv, c, cmd, clock, other).Some?
    ensures var st, n := sv.sessions[c], Handle(set_, route, sv, c, cmd, clock, other).value.0.node;
            if st.subscriberMode then n == sv.node || (n == Serve(set_, sv.node, cmd, clock(0)).0 && cmd[0] in ALLOWED)
            else if !st.inTransaction then
              if Routed(route, cmd).Some? && CanQueue(cmd[0]) then n == sv.node
              else n == Serve(set_, sv.node, cmd, clock(0)).0 || (n == sv.node && !CanQueue(cmd[0]))
            else if cmd[0] == "EXEC" && !st.failed && Routed(route, cmd).None? then
              Exec(set_, sv.node, st.queue, clock).Some? && n == Exec(set_, sv.node, st.queue, clock).value.0
            else n == sv.node
  {
    hide Exec, Serve, HandleSubscribe, HandleUnsubscribe, Enqueue, Routed, Strings;
  }

  lemma StepHeard(set_: Setting, route: Route, sv: Server, d: Dictionary, e: Event)
    requires M.Valid(sv.node.cache) && Within(sv.node.cache.items, d) && Step(set_, route, sv, e).Some?
    ensures var c := Step(set_, route, sv, e).value.node.cache;
            M.Valid(c) && Within(c.items, Heard(set_, route, sv, d, e))
  {
    hide M.Valid, Within, Exec, Serve, Learn, Refusal, LearnedByExec, Routed, Handle;
    if e.Receive? && e.c in sv.sessions {
      var st := sv.sessions[e.c];
      NodeAfter(set_, route, sv, e.c, e.cmd, e.clock, e.other);
      ServeHeard(set_, sv.node, d, e.cmd, e.clock(0));
      if !st.subscriberMode && st.inTransaction && e.cmd[0] == "EXEC" && !st.failed && Routed(route, e.cmd).None? {
        ExecHeard(set_, sv.node, d, st.queue, e.clock);
      }
    }
  }

  /** Over every interleaving on any number of connections, transactions included, the cache holds nothing but what the
      writes left in the order in which they took effect. */
  lemma {:induction false} RunHeard(set_: Setting, route: Route, maxSize: int, es: seq<Event>)
    ensures var start := Server(Fresh(maxSize), map[], map[]);
            var r := Run(set_, route, start, es);
            r.Some? ==> M.Valid(r.value.node.cache) && Within(r.value.node.cache.items, HeardAll(set_, route, start, es))
  {
    if es != [] {
      hide Step, Heard, M.Valid, Within;
      var start := Server(Fresh(maxSize), map[], map[]);
      var past := es[..|es| - 1];
      RunHeard(set_, route, maxSize, past);
      var before := Run(set_, route, start, past);
      if before.Some? && Step(set_, route, before.value, es[|es| - 1]).Some? {
        StepHeard(set_, route, before.value, HeardAll(set_, route, start, past), es[|es| - 1]);
      }
    }
  }

  /** So a data command on any connection that is idle then, if it is not redirected, is answered by what all connections
      did before. */
  lemma AnyConnectionAnswers(set_: Setting, route: Route, maxSize: int, es: seq<Event>, c: P.Conn, cmd: Request,
                             clock: nat -> int, other: string)
    requires var r := Run(set_, route, Server(Fresh(maxSize), map[], map[]), es);
             r.Some? && c in r.value.sessions && r.value.sessions[c] == IDLE
    requires CanQueue(cmd[0]) && C.OneLine(cmd[0]) && Routed(route, cmd).None?
    ensures var start := Server(Fresh(maxSize), map[], map[]);
            var sv, d := Run(set_, route, start, es).value, HeardAll(set_, route, start, es);
            var r := Handle(set_, route, sv, c, cmd, clock, other);
            r.Some? && ReadAs(r.value.1, Reading(Refusal(set_, cmd), d, sv.node.cache.items.Keys, cmd, clock(0)))
  {
    hide Run, HeardAll, Handle, Serve, Reading, Refusal, ReadAs, Within, M.Valid, Routed, C.OneLine, CanQueue;
    var start := Server(Fresh(maxSize), map[], map[]);
    var sv, d := Run(set_, route, start, es).value, HeardAll(set_, route, start, es);
    RunHeard(set_, route, maxSize, es);
    HandleDirect(set_, route, sv, c, cmd, clock, other);
    ServeReads(set_, sv.node, d, cmd, clock(0));
  }
}
