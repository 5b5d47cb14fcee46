/** The command loop of internal/server/handler.go: every connection is a small state machine over one shared
    node and one shared set of subscriptions. */
module Connections {
  import opened Sequences
  import opened Options
  import opened Decimal
  import opened Commands
  import opened Resp
  import opened AofLog
  import P = PubSub
  import M = CacheModel

  /** A command as received: at least a name. */
  type Request = cmd: Command | cmd != [] witness ["PING"]

  /** failed records that a command was refused while queueing. */
  datatype Session = Session(subscriberMode: bool, inTransaction: bool, queue: seq<Request>, failed: bool)

  const IDLE := Session(false, false, [], false)

  datatype Server = Server(node: Node, subs: P.Subscriptions, sessions: map<P.Conn, Session>)

  /** The redirect, if any, for a key and whether the command writes. */
  type Route = (string, bool) -> Option<string>

  const ALLOWED := {"SUBSCRIBE", "UNSUBSCRIBE", "PSUBSCRIBE", "PUNSUBSCRIBE", "PING", "QUIT"}

  predicate CanQueue(name: string) {
    name !in {"MULTI", "EXEC", "DISCARD", "SUBSCRIBE", "UNSUBSCRIBE", "PUBLISH", "PSUBSCRIBE", "PUNSUBSCRIBE", "CLUSTER"}
  }

  /** The argument count checked while queueing. */
  predicate ArityOk(cmd: Request) {
    match cmd[0]
    case "SET" => 3 <= |cmd| <= 5
    case "GET" => |cmd| == 2
    case "DEL" => |cmd| == 2
    case "DBSIZE" => |cmd| == 1
    case "PING" => |cmd| <= 2
    case _ => true
  }

  function ArityError(name: string): string {
    ErrorReply(match name
               case "SET" => "wrong number of arguments for 'set' command"
               case "GET" => "wrong number of arguments for 'get' command"
               case "DEL" => "wrong number of arguments for 'del' command"
               case "DBSIZE" => "wrong number of arguments for 'dbsize' command"
               case _ => "wrong number of arguments for 'ping' command")
  }

  function Enqueue(st: Session, cmd: Request): (Session, string) {
    if st.failed then (st, QUEUED)
    else if !ArityOk(cmd) then (st.(failed := true), ArityError(cmd[0]))
    else (st.(queue := st.queue + [cmd]), QUEUED)
  }

  function Reset(st: Session): Session {
    st.(inTransaction := false, queue := [], failed := false)
  }

  function Multi(st: Session): (Session, string) {
    if st.inTransaction then (st, ErrorReply("ERR MULTI calls can not be nested"))
    else (Reset(st).(inTransaction := true), OK)
  }

  function Discard(st: Session): (Session, string) {
    if !st.inTransaction then (st, ErrorReply("ERR DISCARD without MULTI")) else (Reset(st), OK)
  }

  // ----- subscriptions; None stands for an argument that is not a string

  /** The subscriptions after the loop of handleSubscribe, and whether it reached the end. */
  function SubscribeEach(subs: P.Subscriptions, c: P.Conn, args: seq<Option<string>>): (P.Subscriptions, bool)
    decreases args
  {
    if args == [] then (subs, true)
    else if args[0].None? then (subs, false)
    else SubscribeEach(P.AddSubscription(subs, c, args[0].value), c, args[1..])
  }

  function HandleSubscribe(st: Session, subs: P.Subscriptions, c: P.Conn, args: seq<Option<string>>): (Session, P.Subscriptions) {
    if args == [] then (st, subs)
    else
      var (subs', complete) := SubscribeEach(subs, c, args);
      (if complete then st.(subscriberMode := true) else st, subs')
  }

  function UnsubscribeEach(subs: P.Subscriptions, c: P.Conn, args: seq<Option<string>>): (P.Subscriptions, bool)
    decreases args
  {
    if args == [] then (subs, true)
    else if args[0].None? then (subs, false)
    else UnsubscribeEach(P.DropSubscription(subs, c, args[0].value), c, args[1..])
  }

  function HandleUnsubscribe(st: Session, subs: P.Subscriptions, c: P.Conn, args: seq<Option<string>>): (Session, P.Subscriptions) {
    if args == [] then (st.(subscriberMode := false), subs - {c})
    else
      var (subs', complete) := UnsubscribeEach(subs, c, args);
      (if complete && c !in subs' then st.(subscriberMode := false) else st, subs')
  }

  function Strings(args: Command): seq<Option<string>> {
    seq(|args|, i requires 0 <= i < |args| => Some(args[i]))
  }

  // ----- one command

  function Routed(route: Route, cmd: Request): Option<string> {
    if |cmd| >= 2 && cmd[1] != "" then route(cmd[1], cmd[0] == "SET" || cmd[0] == "DEL") else None
  }

  function With(sv: Server, c: P.Conn, st: Session): Server {
    sv.(sessions := sv.sessions[c := st])
  }

  /** The replies to SUBSCRIBE, UNSUBSCRIBE, PUBLISH and CLUSTER are a parameter. None is a connection that
      never answers: an EXEC with DBSIZE in its queue. */
  function Handle(set_: Setting, route: Route, sv: Server, c: P.Conn, cmd: Request, clock: nat -> int, other: string)
    : Option<(Server, string)>
    requires c in sv.sessions
  {
    var st := sv.sessions[c];
    if st.subscriberMode && cmd[0] !in ALLOWED then
      Some((sv, ErrorReply("ERR only (P)SUBSCRIBE / (P)UNSUBSCRIBE / PING / QUIT allowed in this context")))
    else if st.inTransaction && cmd[0] != "EXEC" && cmd[0] != "DISCARD" then
      if CanQueue(cmd[0]) then Some((With(sv, c, Enqueue(st, cmd).0), Enqueue(st, cmd).1))
      else Some((sv, ErrorReply("ERR command '" + cmd[0] + " cannot be used in a transaction")))
    else if cmd[0] == "SUBSCRIBE" then
      var (st', subs') := HandleSubscribe(st, sv.subs, c, Strings(cmd[1..]));
      Some((With(sv, c, st').(subs := subs'), other))
    else if cmd[0] == "UNSUBSCRIBE" then
      var (st', subs') := HandleUnsubscribe(st, sv.subs, c, Strings(cmd[1..]));
      Some((With(sv, c, st').(subs := subs'), other))
    else if cmd[0] == "PUBLISH" || cmd[0] == "CLUSTER" then Some((sv, other))
    else if Routed(route, cmd).Some? then Some((sv, Routed(route, cmd).value))
    else Dispatch(set_, sv, c, cmd, clock)
  }

  function Dispatch(set_: Setting, sv: Server, c: P.Conn, cmd: Request, clock: nat -> int): Option<(Server, string)>
    requires c in sv.sessions
  {
    var st := sv.sessions[c];
    match cmd[0]
    case "MULTI" => Some((With(sv, c, Multi(st).0), Multi(st).1))
    case "EXEC" =>
      if !st.inTransaction then Some((sv, ErrorReply("ERR EXEC without MULTI")))
      else if st.failed then Some((With(sv, c, Reset(st)), EXECABORT))
      else
        (match Exec(set_, sv.node, st.queue, clock)
         case None => None
         case Some((n, reply)) => Some((With(sv, c, Reset(st)).(node := n), reply)))
    case "DISCARD" => Some((With(sv, c, Discard(st).0), Discard(st).1))
    case _ =>
      var (n, reply) := Serve(set_, sv.node, cmd, clock(0));
      Some((sv.(node := n), reply))
  }

  const EXECABORT := ErrorReply("EXECABORT Transaction discarded because of previous errors.")

  // ----- every run

  datatype Event = Open(c: P.Conn) | Close(c: P.Conn) | Receive(c: P.Conn, cmd: Request, clock: nat -> int, other: string)

  /** Opening is for a fresh connection; closing also runs RemoveConnection. Commands on a connection that is
      not open change nothing. */
  function Step(set_: Setting, route: Route, sv: Server, e: Event): Option<Server> {
    match e
    case Open(c) => Some(if c in sv.sessions then sv else With(sv, c, IDLE))
    case Close(c) => Some(sv.(subs := sv.subs - {c}, sessions := sv.sessions - {c}))
    case Receive(c, cmd, clock, other) =>
      if c !in sv.sessions then Some(sv)
      else
        match Handle(set_, route, sv, c, cmd, clock, other)
        case None => None
        case Some((sv', _)) => Some(sv')
  }

  function Run(set_: Setting, route: Route, sv: Server, es: seq<Event>): Option<Server> {
    if es == [] then Some(sv)
    else
      match Run(set_, route, sv, es[..|es| - 1])
      case None => None
      case Some(before) => Step(set_, route, before, es[|es| - 1])
  }

  /** Subscriber mode is having subscriptions, it excludes a transaction, and outside a transaction nothing is
      queued; what is queued passed the checks. */
  predicate Consistent(st: Session, subscribed: bool) {
    && (st.subscriberMode <==> subscribed)
    && !(st.subscriberMode && st.inTransaction)
    && (!st.inTransaction ==> st.queue == [] && !st.failed)
    && forall i :: 0 <= i < |st.queue| ==> CanQueue(st.queue[i][0]) && ArityOk(st.queue[i])
  }

  ghost predicate Inv(sv: Server) {
    && (forall c :: c in sv.sessions ==> Consistent(sv.sessions[c], c in sv.subs))
    && (forall c :: c in sv.subs ==> c in sv.sessions && sv.subs[c] != {})
  }

  // ----- subscriptions and subscriber mode

  predicate AllStrings(args: seq<Option<string>>) {
    forall i :: 0 <= i < |args| ==> args[i].Some?
  }

  /** The channels named before the first argument that is not a string. */
  function Named(args: seq<Option<string>>): set<string> {
    if args == [] || args[0].None? then {} else {args[0].value} + Named(args[1..])
  }

  function ChannelsOf(subs: P.Subscriptions, c: P.Conn): set<string> {
    if c in subs then subs[c] else {}
  }

  ghost predicate SameForOthers(subs: P.Subscriptions, subs': P.Subscriptions, c: P.Conn) {
    forall d :: d != c ==> (d in subs' <==> d in subs) && (d in subs ==> subs'[d] == subs[d])
  }

  predicate NoEmptySet(subs: P.Subscriptions, c: P.Conn) {
    c in subs ==> subs[c] != {}
  }

  lemma {:induction false} SubscribedEach(subs: P.Subscriptions, c: P.Conn, args: seq<Option<string>>)
    requires NoEmptySet(subs, c)
    ensures var (subs', complete) := SubscribeEach(subs, c, args);
            && (complete <==> AllStrings(args))
            && ChannelsOf(subs', c) == ChannelsOf(subs, c) + Named(args)
            && NoEmptySet(subs', c) && SameForOthers(subs, subs', c)
    decreases args
  {
    if args != [] && args[0].Some? {
      var more := P.AddSubscription(subs, c, args[0].value);
      assert args[0].value in more[c];
      SubscribedEach(more, c, args[1..]);
      assert AllStrings(args) <==> AllStrings(args[1..]) by {
        assert args == [args[0]] + args[1..];
      }
    }
  }

  lemma {:induction false} UnsubscribedEach(subs: P.Subscriptions, c: P.Conn, args: seq<Option<string>>)
    requires NoEmptySet(subs, c)
    ensures var (subs', complete) := UnsubscribeEach(subs, c, args);
            && (complete <==> AllStrings(args))
            && ChannelsOf(subs', c) == ChannelsOf(subs, c) - Named(args)
            && NoEmptySet(subs', c) && SameForOthers(subs, subs', c)
    decreases args
  {
    if args != [] && args[0].Some? {
      var less := P.DropSubscription(subs, c, args[0].value);
      if c in less && args[0].value in subs[c] {
        P.LeftOver(subs[c], args[0].value);
      }
      UnsubscribedEach(less, c, args[1..]);
      assert ChannelsOf(less, c) == ChannelsOf(subs, c) - {args[0].value};
      assert AllStrings(args) <==> AllStrings(args[1..]) by {
        assert args == [args[0]] + args[1..];
      }
    }
  }

  /** A SUBSCRIBE leaves a consistent connection consistent unless its first channel is a string, a later one is
      not, and the connection had no subscription: then it is subscribed without being in subscriber mode. */
  lemma SubscribeConsistent(st: Session, subs: P.Subscriptions, c: P.Conn, args: seq<Option<string>>)
    requires Consistent(st, c in subs) && !st.inTransaction && NoEmptySet(subs, c)
    ensures var (st', subs') := HandleSubscribe(st, subs, c, args);
            Consistent(st', c in subs') <==> c in subs || AllStrings(args) || args[0].None?
  {
    SubscribedEach(subs, c, args);
    assert args != [] && args[0].Some? ==> args[0].value in Named(args);
    assert ChannelsOf(SubscribeEach(subs, c, args).0, c) != {} <==> c in subs || Named(args) != {};
  }

  /** An UNSUBSCRIBE leaves it consistent unless it names every subscribed channel and then meets an argument
      that is not a string: then it is in subscriber mode without a subscription. */
  lemma UnsubscribeConsistent(st: Session, subs: P.Subscriptions, c: P.Conn, args: seq<Option<string>>)
    requires Consistent(st, c in subs) && !st.inTransaction && NoEmptySet(subs, c)
    ensures var (st', subs') := HandleUnsubscribe(st, subs, c, args);
            Consistent(st', c in subs') <==> c !in subs || AllStrings(args) || !(subs[c] <= Named(args))
  {
    UnsubscribedEach(subs, c, args);
  }

  /** The failing inputs: a channel and then an argument that is not a string. The first command leaves a subscription
      without subscriber mode, the second subscriber mode without a subscription. */
  lemma SubscribeStopsHalfway(c: P.Conn)
    ensures var (st, subs) := HandleSubscribe(IDLE, map[], c, [Some("a"), None]);
            subs == map[c := {"a"}] && !st.subscriberMode
  {
    assert [Some("a"), None][1..] == [None];
    assert {} + {"a"} == {"a"};
    assert P.AddSubscription(map[], c, "a") == map[c := {"a"}];
    assert SubscribeEach(map[c := {"a"}], c, [None]) == (map[c := {"a"}], false);
  }

  lemma UnsubscribeStopsHalfway(c: P.Conn)
    ensures var (st, subs) := HandleUnsubscribe(IDLE.(subscriberMode := true), map[c := {"a"}], c, [Some("a"), None]);
            subs == map[] && st.subscriberMode
  {
    assert [Some("a"), None][1..] == [None];
    assert P.DropSubscription(map[c := {"a"}], c, "a") == map[];
    assert UnsubscribeEach(map[], c, [None]) == (map[], false);
  }

  // ----- the invariant

  lemma InvWith(sv: Server, c: P.Conn, st: Session, subs: P.Subscriptions, n: Node)
    requires Inv(sv) && c in sv.sessions && Consistent(st, c in subs)
    requires SameForOthers(sv.subs, subs, c) && NoEmptySet(subs, c)
    ensures Inv(Server(n, subs, sv.sessions[c := st]))
  {
  }

  lemma SubscriptionInv(sv: Server, c: P.Conn, args: seq<Option<string>>)
    requires Inv(sv) && c in sv.sessions && !sv.sessions[c].inTransaction && AllStrings(args)
    ensures var (st, subs) := HandleSubscribe(sv.sessions[c], sv.subs, c, args); Inv(With(sv, c, st).(subs := subs))
    ensures var (st, subs) := HandleUnsubscribe(sv.sessions[c], sv.subs, c, args); Inv(With(sv, c, st).(subs := subs))
  {
    var st := sv.sessions[c];
    SubscribedEach(sv.subs, c, args);
    UnsubscribedEach(sv.subs, c, args);
    SubscribeConsistent(st, sv.subs, c, args);
    UnsubscribeConsistent(st, sv.subs, c, args);
    InvWith(sv, c, HandleSubscribe(st, sv.subs, c, args).0, HandleSubscribe(st, sv.subs, c, args).1, sv.node);
    InvWith(sv, c, HandleUnsubscribe(st, sv.subs, c, args).0, HandleUnsubscribe(st, sv.subs, c, args).1, sv.node);
  }

  lemma DispatchInv(set_: Setting, sv: Server, c: P.Conn, cmd: Request, clock: nat -> int)
    requires Inv(sv) && c in sv.sessions
    requires sv.sessions[c].subscriberMode ==> cmd[0] != "MULTI"
    ensures var r := Dispatch(set_, sv, c, cmd, clock); r.Some? ==> Inv(r.value.0)
  {
    hide Exec, Serve;
    var r := Dispatch(set_, sv, c, cmd, clock);
    if r.Some? {
      var st := r.value.0.sessions[c];
      InvWith(sv, c, st, sv.subs, r.value.0.node);
      assert sv.sessions[c := sv.sessions[c]] == sv.sessions;
    }
  }

  lemma HandleInv(set_: Setting, route: Route, sv: Server, c: P.Conn, cmd: Request, clock: nat -> int, other: string)
    requires Inv(sv) && c in sv.sessions
    ensures var r := Handle(set_, route, sv, c, cmd, clock, other); r.Some? ==> Inv(r.value.0)
  {
    hide Dispatch, HandleSubscribe, HandleUnsubscribe;
    var st := sv.sessions[c];
    if st.inTransaction && CanQueue(cmd[0]) {
      InvWith(sv, c, Enqueue(st, cmd).0, sv.subs, sv.node);
    } else if !st.inTransaction && (cmd[0] == "SUBSCRIBE" || cmd[0] == "UNSUBSCRIBE") {
      SubscriptionInv(sv, c, Strings(cmd[1..]));
    } else if !(st.subscriberMode && cmd[0] !in ALLOWED) {
      DispatchInv(set_, sv, c, cmd, clock);
    }
  }

  lemma StepInv(set_: Setting, route: Route, sv: Server, e: Event)
    requires Inv(sv)
    ensures var r := Step(set_, route, sv, e); r.Some? ==> Inv(r.value)
  {
    hide Handle;
    if e.Receive? && e.c in sv.sessions {
      HandleInv(set_, route, sv, e.c, e.cmd, e.clock, e.other);
    }
  }

  /** Over every interleaving of commands on any number of connections, from a server without connections:
      a connection is in subscriber mode exactly when it has subscriptions, never also in a transaction, and
      every queued command passed the queueing checks. */
  lemma {:induction false} RunInv(set_: Setting, route: Route, n: Node, es: seq<Event>)
    ensures var r := Run(set_, route, Server(n, map[], map[]), es); r.Some? ==> Inv(r.value)
  {
    hide Step;
    if es != [] {
      RunInv(set_, route, n, es[..|es| - 1]);
      var before := Run(set_, route, Server(n, map[], map[]), es[..|es| - 1]);
      if before.Some? {
        StepInv(set_, route, before.value, es[|es| - 1]);
      }
    }
  }

  /** A run stops at exactly one kind of event: an EXEC that is run and has DBSIZE in its queue. */
  lemma StopsAt(set_: Setting, route: Route, sv: Server, e: Event)
    ensures Step(set_, route, sv, e).None? <==>
              && e.Receive? && e.c in sv.sessions && e.cmd[0] == "EXEC" && Routed(route, e.cmd).None?
              && var st := sv.sessions[e.c];
                 !st.subscriberMode && st.inTransaction && !st.failed && exists i :: 0 <= i < |st.queue| && st.queue[i][0] == "DBSIZE"
  {
    hide Exec, Serve, HandleSubscribe, HandleUnsubscribe, Enqueue, Routed, Strings;
    if e.Receive? && e.c in sv.sessions {
      ExecStops(set_, sv.node, sv.sessions[e.c].queue, e.clock);
    }
  }

  lemma ExecStops(set_: Setting, n: Node, queue: seq<Request>, clock: nat -> int)
    ensures Exec(set_, n, queue, clock).None? <==> exists i :: 0 <= i < |queue| && queue[i][0] == "DBSIZE"
  {
    hide ExecuteAll, RecordAll, Itoa, Concat;
    ExecuteAllStops(n.cache, queue, clock);
  }

  lemma {:induction false} ExecuteAllStops(c: M.Cache, queue: seq<Request>, clock: nat -> int)
    ensures ExecuteAll(c, queue, clock).None? <==> exists i :: 0 <= i < |queue| && queue[i][0] == "DBSIZE"
  {
    if queue != [] {
      var last := |queue| - 1;
      ExecuteAllStops(c, queue[..last], clock);
      if ExecuteAll(c, queue[..last], clock).Some? {
        var c' := ExecuteAll(c, queue[..last], clock).value.0;
        if queue[last][0] != "DBSIZE" {
          ExecuteSucceeds(c', queue[last], clock(last));
        }
        assert queue[last][0] == "DBSIZE" ==> Execute(c', queue[last], clock(last)).None?;
      }
      hide Execute;
      if i :| 0 <= i < last && queue[..last][i][0] == "DBSIZE" {
        assert queue[i][0] == "DBSIZE";
      }
      if i :| 0 <= i < |queue| && queue[i][0] == "DBSIZE" {
        assert i < last ==> queue[..last][i][0] == "DBSIZE";
      }
    }
  }

  /** A connection that opens starts idle and unsubscribed, one that closes leaves nothing behind, and neither
      touches any other. */
  lemma OpenAndClose(set_: Setting, route: Route, sv: Server, c: P.Conn, d: P.Conn)
    requires Inv(sv)
    ensures var r := Step(set_, route, sv, Open(c));
            && r.Some? && r.value.node == sv.node && r.value.subs == sv.subs && c in r.value.sessions
            && (c !in sv.sessions ==> r.value.sessions[c] == Session(false, false, [], false) && c !in r.value.subs)
            && (d in sv.sessions ==> d in r.value.sessions && r.value.sessions[d] == sv.sessions[d])
    ensures var r := Step(set_, route, sv, Close(c));
            && r.Some? && r.value.node == sv.node && c !in r.value.sessions && c !in r.value.subs
            && (d != c && d in sv.sessions ==> d in r.value.sessions && r.value.sessions[d] == sv.sessions[d])
            && (d != c && d in sv.subs ==> d in r.value.subs && r.value.subs[d] == sv.subs[d])
  {
  }

  // ----- a transaction on one connection

  /** Commands received one after another on one connection; the i-th sees the clock clock(i). */
  function RunOn(set_: Setting, route: Route, sv: Server, c: P.Conn, cmds: seq<Request>, clock: nat -> (nat -> int), other: string)
    : Option<(Server, seq<string>)>
    ensures var r := RunOn(set_, route, sv, c, cmds, clock, other); r.Some? ==> |r.value.1| == |cmds|
  {
    if cmds == [] then Some((sv, []))
    else
      var last := |cmds| - 1;
      match RunOn(set_, route, sv, c, cmds[..last], clock, other)
      case None => None
      case Some((before, replies)) =>
        if c !in before.sessions then None
        else
          match Handle(set_, route, before, c, cmds[last], clock(last), other)
          case None => None
          case Some((after, reply)) => Some((after, replies + [reply]))
  }

  predicate Ends(cmd: Request) {
    cmd[0] == "EXEC" || cmd[0] == "DISCARD"
  }

  /** The commands a transaction queues: those allowed in one. */
  function Accepted(cmds: seq<Request>): seq<Request> {
    if cmds == [] then []
    else
      var last := cmds[|cmds| - 1];
      Accepted(cmds[..|cmds| - 1]) + (if CanQueue(last[0]) then [last] else [])
  }

  /** Some command allowed in a transaction has the wrong number of arguments. */
  predicate Refused(cmds: seq<Request>) {
    exists i :: 0 <= i < |cmds| && CanQueue(cmds[i][0]) && !ArityOk(cmds[i])
  }

  const MULTI: Request := ["MULTI"]
  const EXEC: Request := ["EXEC"]
  const DISCARD: Request := ["DISCARD"]

  /** The reply to the i-th command while queueing: an error for a command that is not allowed and for the first one
      with a wrong number of arguments, and QUEUED for all others, even those after an error. */
  ghost predicate QueueReply(cmds: seq<Request>, replies: seq<string>, i: nat)
    requires i < |cmds| && |replies| == |cmds| + 1
  {
    if CanQueue(cmds[i][0]) && (Refused(cmds[..i]) || ArityOk(cmds[i])) then replies[i + 1] == "+QUEUED\r\n"
    else IsError(replies[i + 1])
  }

  predicate IsError(reply: string) {
    reply != "" && reply[0] == '-'
  }

  /** The state and replies while queueing, from an idle connection. */
  ghost predicate Queueing(sv: Server, c: P.Conn, cmds: seq<Request>, r: Option<(Server, seq<string>)>)
    requires c in sv.sessions
  {
    && r.Some? && c in r.value.0.sessions
    && var st := r.value.0.sessions[c];
       && r.value.0 == With(sv, c, st)
       && st.inTransaction && !st.subscriberMode
       && (st.failed <==> Refused(cmds))
       && (!st.failed ==> st.queue == Accepted(cmds))
       && QueueReplies(cmds, r.value.1)
  }

  ghost predicate QueueReplies(cmds: seq<Request>, replies: seq<string>) {
    |replies| == |cmds| + 1 && replies[0] == "+OK\r\n" && forall i :: 0 <= i < |cmds| ==> QueueReply(cmds, replies, i)
  }

  lemma RefusedSnoc(cmds: seq<Request>)
    requires cmds != []
    ensures var last := cmds[|cmds| - 1];
            Refused(cmds) <==> Refused(cmds[..|cmds| - 1]) || (CanQueue(last[0]) && !ArityOk(last))
  {
    var front := cmds[..|cmds| - 1];
    if Refused(front) {
      var i :| 0 <= i < |front| && CanQueue(front[i][0]) && !ArityOk(front[i]);
      assert cmds[i] == front[i];
    }
    if Refused(cmds) {
      var i :| 0 <= i < |cmds| && CanQueue(cmds[i][0]) && !ArityOk(cmds[i]);
      if i < |front| {
        assert front[i] == cmds[i];
      }
    }
  }

  lemma QueueingStart(set_: Setting, route: Route, sv: Server, c: P.Conn, clock: nat -> (nat -> int), other: string)
    requires c in sv.sessions && sv.sessions[c] == IDLE
    ensures Queueing(sv, c, [], RunOn(set_, route, sv, c, [MULTI], clock, other))
  {
    hide HandleSubscribe, HandleUnsubscribe, Serve, Exec;
    assert [MULTI][..0] == [];
    assert RunOn(set_, route, sv, c, [], clock, other) == Some((sv, []));
    UnfoldRun(set_, route, sv, c, [MULTI], clock, other);
  }

  lemma {:induction false} QueueingRun(set_: Setting, route: Route, sv: Server, c: P.Conn, cmds: seq<Request>,
                                       clock: nat -> (nat -> int), other: string)
    requires c in sv.sessions && sv.sessions[c] == IDLE
    requires forall i :: 0 <= i < |cmds| ==> !Ends(cmds[i])
    ensures Queueing(sv, c, cmds, RunOn(set_, route, sv, c, [MULTI] + cmds, clock, other))
  {
    var all := [MULTI] + cmds;
    if cmds == [] {
      assert all == [MULTI];
      QueueingStart(set_, route, sv, c, clock, other);
    } else {
      var front := cmds[..|cmds| - 1];
      QueueingRun(set_, route, sv, c, front, clock, other);
      assert all[..|all| - 1] == [MULTI] + front && all[|all| - 1] == cmds[|cmds| - 1];
      hide RunOn, Refused, Handle, Queueing;
      QueueingStep(set_, route, sv, c, cmds, RunOn(set_, route, sv, c, [MULTI] + front, clock, other), clock(|cmds|), other);
      UnfoldRun(set_, route, sv, c, all, clock, other);
    }
  }

  lemma UnfoldRun(set_: Setting, route: Route, sv: Server, c: P.Conn, cmds: seq<Request>, clock: nat -> (nat -> int), other: string)
    requires cmds != []
    ensures var last := |cmds| - 1;
            var before := RunOn(set_, route, sv, c, cmds[..last], clock, other);
            before.Some? && c in before.value.0.sessions ==>
              var r := Handle(set_, route, before.value.0, c, cmds[last], clock(last), other);
              RunOn(set_, route, sv, c, cmds, clock, other)
              == if r.None? then None else Some((r.value.0, before.value.1 + [r.value.1]))
  {
    hide Handle;
  }

  lemma HandleQueued(set_: Setting, route: Route, sv: Server, c: P.Conn, cmd: Request, clock: nat -> int, other: string)
    requires c in sv.sessions && sv.sessions[c].inTransaction && !sv.sessions[c].subscriberMode && !Ends(cmd)
    ensures var st, r := sv.sessions[c], Handle(set_, route, sv, c, cmd, clock, other);
            && r.Some?
            && (CanQueue(cmd[0]) ==> r.value == (With(sv, c, Enqueue(st, cmd).0), Enqueue(st, cmd).1))
            && (!CanQueue(cmd[0]) ==>
                  r.value == (sv, ErrorReply("ERR command '" + cmd[0] + " cannot be used in a transaction")) && IsError(r.value.1))
  {
    hide HandleSubscribe, HandleUnsubscribe, Dispatch, Enqueue;
  }

  lemma EnqueueReply(st: Session, cmd: Request)
    ensures var reply := Enqueue(st, cmd).1;
            if st.failed || ArityOk(cmd) then reply == "+QUEUED\r\n" else IsError(reply)
  {
  }

  lemma SamePrefix(cmds: seq<Request>, front: seq<Request>, replies: seq<string>, reply: string, i: nat)
    requires |cmds| == |front| + 1 && front == cmds[..|front|] && i < |front| && |replies| == |front| + 1
    ensures QueueReply(cmds, replies + [reply], i) <==> QueueReply(front, replies, i)
  {
    assert cmds[..i] == front[..i] && cmds[i] == front[i];
  }

  lemma OneReplyMore(cmds: seq<Request>, replies: seq<string>, reply: string)
    requires cmds != [] && QueueReplies(cmds[..|cmds| - 1], replies)
    requires var last := cmds[|cmds| - 1];
             if CanQueue(last[0]) && (Refused(cmds[..|cmds| - 1]) || ArityOk(last)) then reply == "+QUEUED\r\n" else IsError(reply)
    ensures QueueReplies(cmds, replies + [reply])
  {
    var front := cmds[..|cmds| - 1];
    assert QueueReply(cmds, replies + [reply], |front|);
    hide QueueReply, IsError, Refused, CanQueue, ArityOk;
    forall i | 0 <= i < |front| ensures QueueReply(cmds, replies + [reply], i) {
      SamePrefix(cmds, front, replies, reply, i);
    }
  }

  lemma QueueingStep(set_: Setting, route: Route, sv: Server, c: P.Conn, cmds: seq<Request>,
                     before: Option<(Server, seq<string>)>, clock: nat -> int, other: string)
    requires c in sv.sessions && cmds != [] && !Ends(cmds[|cmds| - 1])
    requires Queueing(sv, c, cmds[..|cmds| - 1], before)
    ensures var r := Handle(set_, route, before.value.0, c, cmds[|cmds| - 1], clock, other);
            r.Some? && Queueing(sv, c, cmds, Some((r.value.0, before.value.1 + [r.value.1])))
  {
    var front := cmds[..|cmds| - 1];
    RefusedSnoc(cmds);
    HandleQueued(set_, route, before.value.0, c, cmds[|cmds| - 1], clock, other);
    EnqueueReply(before.value.0.sessions[c], cmds[|cmds| - 1]);
    var reply := Handle(set_, route, before.value.0, c, cmds[|cmds| - 1], clock, other).value.1;
    hide Refused, Handle, ArityOk, CanQueue, QueueReplies, IsError;
    OneReplyMore(cmds, before.value.1, reply);
  }

  lemma ExecStep(set_: Setting, route: Route, sv: Server, c: P.Conn, st: Session, clock: nat -> int, other: string)
    requires c in sv.sessions && sv.sessions[c] == IDLE && st.inTransaction && !st.subscriberMode
    ensures var r := Handle(set_, route, With(sv, c, st), c, EXEC, clock, other);
            if st.failed then r == Some((sv, "-" + "EXECABORT Transaction discarded because of previous errors." + CRLF))
            else
              var x := Exec(set_, sv.node, st.queue, clock);
              if x.None? then r.None? else r == Some((sv.(node := x.value.0), x.value.1))
  {
    hide Exec, Serve, HandleSubscribe, HandleUnsubscribe;
    assert sv.sessions[c := st][c := IDLE] == sv.sessions;
    assert EXEC[0] == "EXEC";
  }

  /** For every list of commands without EXEC or DISCARD, from an idle connection: MULTI, the list and EXEC leave
      the server as it was if a queued command was refused, and otherwise run exactly the accepted ones. */
  lemma TransactionRun(set_: Setting, route: Route, sv: Server, c: P.Conn, cmds: seq<Request>,
                       clock: nat -> (nat -> int), other: string)
    requires c in sv.sessions && sv.sessions[c] == IDLE
    requires forall i :: 0 <= i < |cmds| ==> !Ends(cmds[i])
    ensures var r := RunOn(set_, route, sv, c, [MULTI] + cmds + [EXEC], clock, other);
            if Refused(cmds) then
              r.Some? && r.value.0 == sv
              && r.value.1[|cmds| + 1] == "-" + "EXECABORT Transaction discarded because of previous errors." + CRLF
            else
              var x := Exec(set_, sv.node, Accepted(cmds), clock(|cmds| + 1));
              (r.None? <==> x.None?)
              && (x.Some? ==> r.value.0 == sv.(node := x.value.0) && r.value.1[|cmds| + 1] == x.value.1)
  {
    var all := [MULTI] + cmds + [EXEC];
    QueueingRun(set_, route, sv, c, cmds, clock, other);
    assert all[..|all| - 1] == [MULTI] + cmds && all[|all| - 1] == EXEC;
    UnfoldRun(set_, route, sv, c, all, clock, other);
    hide RunOn, Refused, Exec, Accepted, Handle;
    ExecStep(set_, route, sv, c, RunOn(set_, route, sv, c, [MULTI] + cmds, clock, other).value.0.sessions[c],
             clock(|cmds| + 1), other);
  }

  lemma DiscardStep(set_: Setting, route: Route, sv: Server, c: P.Conn, st: Session, clock: nat -> int, other: string)
    requires c in sv.sessions && sv.sessions[c] == IDLE && st.inTransaction && !st.subscriberMode
    ensures Handle(set_, route, With(sv, c, st), c, DISCARD, clock, other) == Some((sv, "+OK\r\n"))
  {
    hide Exec, Serve, HandleSubscribe, HandleUnsubscribe;
    assert sv.sessions[c := st][c := IDLE] == sv.sessions;
    assert DISCARD[0] == "DISCARD";
  }

  /** DISCARD undoes everything since MULTI, whether or not a command was refused: the server is as before. */
  lemma DiscardRun(set_: Setting, route: Route, sv: Server, c: P.Conn, cmds: seq<Request>,
                   clock: nat -> (nat -> int), other: string)
    requires c in sv.sessions && sv.sessions[c] == IDLE
    requires forall i :: 0 <= i < |cmds| ==> !Ends(cmds[i])
    ensures var r := RunOn(set_, route, sv, c, [MULTI] + cmds + [DISCARD], clock, other);
            r.Some? && r.value.0 == sv && r.value.1[|cmds| + 1] == "+OK\r\n"
  {
    hide RunOn, Refused, Accepted, Handle, QueueReplies;
    var all := [MULTI] + cmds + [DISCARD];
    QueueingRun(set_, route, sv, c, cmds, clock, other);
    assert all[..|all| - 1] == [MULTI] + cmds && all[|all| - 1] == DISCARD;
    UnfoldRun(set_, route, sv, c, all, clock, other);
    DiscardStep(set_, route, sv, c, RunOn(set_, route, sv, c, [MULTI] + cmds, clock, other).value.0.sessions[c],
                clock(|cmds| + 1), other);
  }

  /** EXEC and DISCARD without MULTI, or a second time, change nothing. */
  lemma StrayEnd(set_: Setting, route: Route, sv: Server, c: P.Conn, cmd: Request, clock: nat -> int, other: string)
    requires c in sv.sessions && sv.sessions[c] == IDLE && Ends(cmd) && Routed(route, cmd).None?
    ensures Handle(set_, route, sv, c, cmd, clock, other)
         == Some((sv, ErrorReply(if cmd[0] == "EXEC" then "ERR EXEC without MULTI" else "ERR DISCARD without MULTI")))
  {
    hide Exec, Serve, HandleSubscribe, HandleUnsubscribe;
    assert sv.sessions[c := IDLE] == sv.sessions;
  }

  /** In subscriber mode everything but the six commands for it is refused without effect. */
  lemma SubscriberOnly(set_: Setting, route: Route, sv: Server, c: P.Conn, cmd: Request, clock: nat -> int, other: string)
    requires c in sv.sessions && sv.sessions[c].subscriberMode
    requires cmd[0] !in {"SUBSCRIBE", "UNSUBSCRIBE", "PSUBSCRIBE", "PUNSUBSCRIBE", "PING", "QUIT"}
    ensures Handle(set_, route, sv, c, cmd, clock, other)
         == Some((sv, ErrorReply("ERR only (P)SUBSCRIBE / (P)UNSUBSCRIBE / PING / QUIT allowed in this context")))
  {
    hide Exec, Serve, HandleSubscribe, HandleUnsubscribe, Dispatch, Enqueue, CanQueue, Routed, Strings;
  }

  /** PUBLISH and CLUSTER are handled before routing, and outside the node. */
  lemma HandledApart(set_: Setting, route: Route, sv: Server, c: P.Conn, cmd: Request, clock: nat -> int, other: string)
    requires c in sv.sessions && sv.sessions[c] == IDLE && (cmd[0] == "PUBLISH" || cmd[0] == "CLUSTER")
    ensures Handle(set_, route, sv, c, cmd, clock, other) == Some((sv, other))
  {
    hide Dispatch, HandleSubscribe, HandleUnsubscribe, Routed, Strings;
  }

  // ----- which commands a transaction accepts

  /** The command joined the queue of its connection. */
  ghost predicate Joined(sv: Server, c: P.Conn, cmd: Request, r: Option<(Server, string)>)
    requires c in sv.sessions
  {
    var st := sv.sessions[c];
    r == Some((With(sv, c, st.(queue := st.queue + [cmd])), "+QUEUED\r\n"))
  }

  const CONTROL := {"MULTI", "SUBSCRIBE", "UNSUBSCRIBE", "PUBLISH", "PSUBSCRIBE", "PUNSUBSCRIBE", "CLUSTER"}

  function WhyRefused(name: string): string {
    if name in CONTROL then "ERR command '" + name + " cannot be used in a transaction"
    else if name == "SET" then "wrong number of arguments for 'set' command"
    else if name == "GET" then "wrong number of arguments for 'get' command"
    else if name == "DEL" then "wrong number of arguments for 'del' command"
    else if name == "DBSIZE" then "wrong number of arguments for 'dbsize' command"
    else "wrong number of arguments for 'ping' command"
  }

  /** The reply of a node that may write, if the command were sent to it directly. */
  function LeaderReply(n: Node, cmd: Request, now: int): string {
    Serve(Setting("leader", false), n, cmd, now).1
  }

  /** In a transaction without errors so far a SET, GET or DEL is queued unless serving it directly would give the
      argument-count error; DBSIZE takes no argument and PING at most one; commands that control connections or the
      cluster are refused; anything else is queued. What is refused leaves node and queue alone. */
  lemma QueuedIff(set_: Setting, route: Route, sv: Server, c: P.Conn, cmd: Request, clock: nat -> int, other: string,
                  n: Node, now: int)
    requires c in sv.sessions && !Ends(cmd)
    requires var st := sv.sessions[c]; st.inTransaction && !st.subscriberMode && !st.failed
    ensures var r, refused := Handle(set_, route, sv, c, cmd, clock, other),
              (match cmd[0]
               case "SET" => LeaderReply(n, cmd, now) == "-" + "Length of command doesn't match" + CRLF
               case "GET" => LeaderReply(n, cmd, now) == "-" + "Length of command doesn't match" + CRLF
               case "DEL" => LeaderReply(n, cmd, now) == "-" + "Length of command doesn't match" + CRLF
               case "DBSIZE" => |cmd| != 1
               case "PING" => |cmd| > 2
               case name => name in CONTROL);
            if refused then
              r == Some((With(sv, c, sv.sessions[c].(failed := cmd[0] !in CONTROL)), ErrorReply(WhyRefused(cmd[0]))))
            else Joined(sv, c, cmd, r)
  {
    HandleQueued(set_, route, sv, c, cmd, clock, other);
    EnqueueReply(sv.sessions[c], cmd);
    ControlNames(cmd[0]);
    assert sv.sessions[c := sv.sessions[c]] == sv.sessions;
    if cmd[0] == "SET" || cmd[0] == "GET" || cmd[0] == "DEL" {
      CountError(n, cmd, now);
    }
    hide Handle, Serve, LeaderReply;
  }

  lemma ControlNames(name: string)
    ensures !CanQueue(name) <==> name in CONTROL || name == "EXEC" || name == "DISCARD"
    ensures name in {"SET", "GET", "DEL", "DBSIZE", "PING"} ==> CanQueue(name)
  {
  }

  lemma CountError(n: Node, cmd: Request, now: int)
    requires cmd[0] == "SET" || cmd[0] == "GET" || cmd[0] == "DEL"
    ensures LeaderReply(n, cmd, now) == "-" + "Length of command doesn't match" + CRLF <==> !ArityOk(cmd)
  {
    hide M.Set, M.Get, M.Delete, Upper, Atoi, Record, Itoa;
    var e := "-" + "Length of command doesn't match" + CRLF;
    assert e[0] == '-' && e[1] == 'L';
    if cmd[0] == "SET" {
      if 3 <= |cmd| <= 5 && SetTtl(cmd).BadTtl? {
        var text := SetTtl(cmd).text;
        assert ErrorReply(text)[1] == text[0] != 'L';
      }
    } else if cmd[0] == "GET" {
      hide Encode;
      if |cmd| == 2 {
        GetStarts(M.Get(n.cache, cmd[1], now).1);
      }
    }
  }

  lemma GetStarts(r: Option<string>)
    ensures GetReply(r)[0] == '$'
  {
    hide Itoa;
  }

  /** A list of well-formed commands is refused exactly if it holds a PING with too many arguments; then the whole
      transaction is, although each of its commands would have been served outside one. */
  lemma LongPingAborts(set_: Setting, route: Route, sv: Server, c: P.Conn, cmds: seq<Request>,
                       clock: nat -> (nat -> int), other: string)
    requires c in sv.sessions && sv.sessions[c] == IDLE
    requires forall i :: 0 <= i < |cmds| ==> WellFormed(cmds[i]) && Loggable(cmds[i])
    ensures var r := RunOn(set_, route, sv, c, [MULTI] + cmds + [EXEC], clock, other);
            && r.Some?
            && (r.value.1[|cmds| + 1] == "-" + "EXECABORT Transaction discarded because of previous errors." + CRLF
                <==> exists i :: 0 <= i < |cmds| && LongPing(cmds[i]))
            && ((exists i :: 0 <= i < |cmds| && LongPing(cmds[i])) ==> r.value.0 == sv)
  {
    if exists i :: 0 <= i < |cmds| && LongPing(cmds[i]) {
      assert Refused(cmds);
      assert forall i :: 0 <= i < |cmds| ==> !Ends(cmds[i]);
      hide RunOn, Refused, WellFormed;
      TransactionRun(set_, route, sv, c, cmds, clock, other);
    } else {
      forall i | 0 <= i < |cmds| ensures Queueable(cmds[i]) {
        WellFormedQueueable(cmds[i]);
      }
      QueueableFacts(cmds);
      hide RunOn, Refused, WellFormed, Queueable, Exec, Accepted;
      TransactionNode(set_, route, sv, c, cmds, clock, other);
      ExecIsArray(set_, sv.node, cmds, clock(|cmds| + 1));
    }
  }

  lemma ExecIsArray(set_: Setting, n: Node, cmds: seq<Request>, clock: nat -> int)
    ensures var x := Exec(set_, n, cmds, clock); x.Some? ==> x.value.1 != EXECABORT
  {
    hide ExecuteAll, RecordAll, Concat, Itoa;
    assert EXECABORT[0] == '-';
  }

  // ----- a transaction and the same commands outside one

  /** PING with more than one argument: served outside a transaction, refused inside. */
  predicate LongPing(cmd: Request) {
    cmd[0] == "PING" && |cmd| > 2
  }

  /** A command that a transaction should queue and EXEC can run. */
  predicate Queueable(cmd: Request) {
    CanQueue(cmd[0]) && cmd[0] != "DBSIZE" && Sized(cmd) && (cmd[0] == "GET" ==> |cmd| == 2) && !LongPing(cmd)
  }

  /** Every well-formed command is one, except a PING with too many arguments. */
  lemma WellFormedQueueable(cmd: Request)
    requires WellFormed(cmd) && Loggable(cmd) && !LongPing(cmd)
    ensures Queueable(cmd)
  {
    hide Upper, Atoi;
  }

  lemma {:induction false} QueueableFacts(cmds: seq<Request>)
    requires forall i :: 0 <= i < |cmds| ==> Queueable(cmds[i])
    ensures !Refused(cmds) && Accepted(cmds) == cmds
    ensures forall i :: 0 <= i < |cmds| ==> !Ends(cmds[i]) && Sized(cmds[i])
  {
    forall i | 0 <= i < |cmds| ensures !Ends(cmds[i]) && Sized(cmds[i]) && CanQueue(cmds[i][0]) && ArityOk(cmds[i]) {
      QueueableOne(cmds[i]);
    }
    hide ArityOk, CanQueue, Queueable;
    if cmds != [] {
      QueueableFacts(cmds[..|cmds| - 1]);
      assert cmds == cmds[..|cmds| - 1] + [cmds[|cmds| - 1]];
    }
  }

  lemma QueueableOne(cmd: Request)
    requires Queueable(cmd)
    ensures !Ends(cmd) && Sized(cmd) && CanQueue(cmd[0]) && ArityOk(cmd)
  {
  }

  /** Outside a transaction a command is redirected or served. */
  function Direct(set_: Setting, route: Route, n: Node, cmd: Request, now: int): (Node, string) {
    match Routed(route, cmd)
    case Some(reply) => (n, reply)
    case None => Serve(set_, n, cmd, now)
  }

  lemma HandleDirect(set_: Setting, route: Route, sv: Server, c: P.Conn, cmd: Request, clock: nat -> int, other: string)
    requires c in sv.sessions && sv.sessions[c] == IDLE && CanQueue(cmd[0])
    ensures var (n, reply) := Direct(set_, route, sv.node, cmd, clock(0));
            Handle(set_, route, sv, c, cmd, clock, other) == Some((sv.(node := n), reply))
  {
    hide Serve, HandleSubscribe, HandleUnsubscribe, Exec;
  }

  /** What a command sent directly writes to the log. */
  function DirectEntry(set_: Setting, route: Route, cmd: Request): Option<Command> {
    if Routed(route, cmd).Some? then None else ServedEntry(set_, cmd)
  }

  function DirectEntries(set_: Setting, route: Route, cmds: seq<Request>): seq<Option<Command>> {
    seq(|cmds|, i requires 0 <= i < |cmds| => DirectEntry(set_, route, cmds[i]))
  }

  lemma DirectEntriesSnoc(set_: Setting, route: Route, cmds: seq<Request>)
    requires cmds != []
    ensures var last := |cmds| - 1;
            DirectEntries(set_, route, cmds) == DirectEntries(set_, route, cmds[..last]) + [DirectEntry(set_, route, cmds[last])]
  {
    hide DirectEntry;
  }

  lemma DirectLogs(set_: Setting, route: Route, n: Node, cmd: Request, now: int)
    ensures Direct(set_, route, n, cmd, now).0.aof == n.aof + LogOf(Flatten([DirectEntry(set_, route, cmd)]))
  {
    hide Serve, ServedEntry, Routed, LogOf;
    if Routed(route, cmd).Some? {
      OneEntry(None);
      assert n.aof + "" == n.aof;
    } else {
      ServeLogs(set_, n, cmd, now);
    }
  }

  lemma {:induction false} DirectRun(set_: Setting, route: Route, sv: Server, c: P.Conn, cmds: seq<Request>,
                                     clock: nat -> (nat -> int), other: string)
    requires c in sv.sessions && sv.sessions[c] == IDLE
    requires forall i :: 0 <= i < |cmds| ==> Queueable(cmds[i])
    ensures var r := RunOn(set_, route, sv, c, cmds, clock, other);
            && r.Some? && r.value.0 == sv.(node := r.value.0.node)
            && r.value.0.node.aof == sv.node.aof + LogOf(Flatten(DirectEntries(set_, route, cmds)))
            && ((forall i :: 0 <= i < |cmds| ==> Routed(route, cmds[i]).None?) ==>
                  (r.value.0.node, r.value.1) == ServeAll(set_, sv.node, cmds, (i: nat) => clock(i)(0)))
  {
    hide Serve, Handle, DirectEntry, Routed, Queueable, LogOf, Flatten;
    if cmds == [] {
      NoEntries(DirectEntries(set_, route, cmds));
      assert sv.node.aof + "" == sv.node.aof;
    } else {
      var last := |cmds| - 1;
      DirectRun(set_, route, sv, c, cmds[..last], clock, other);
      var before := RunOn(set_, route, sv, c, cmds[..last], clock, other).value.0;
      UnfoldRun(set_, route, sv, c, cmds, clock, other);
      QueueableName(cmds[last]);
      HandleDirect(set_, route, before, c, cmds[last], clock(last), other);
      DirectLogs(set_, route, before.node, cmds[last], clock(last)(0));
      var es, e := DirectEntries(set_, route, cmds[..last]), DirectEntry(set_, route, cmds[last]);
      DirectEntriesSnoc(set_, route, cmds);
      FlattenSnoc(es, e);
      Associate(sv.node.aof, LogOf(Flatten(es)), LogOf(Flatten([e])));
      hide RunOn, DirectEntries;
    }
  }

  lemma QueueableName(cmd: Request)
    requires Queueable(cmd)
    ensures CanQueue(cmd[0])
  {
  }

  lemma TransactionNode(set_: Setting, route: Route, sv: Server, c: P.Conn, cmds: seq<Request>,
                        clock: nat -> (nat -> int), other: string)
    requires c in sv.sessions && sv.sessions[c] == IDLE
    requires forall i :: 0 <= i < |cmds| ==> Queueable(cmds[i])
    ensures var r := RunOn(set_, route, sv, c, [MULTI] + cmds + [EXEC], clock, other);
            var x := Exec(set_, sv.node, cmds, clock(|cmds| + 1));
            && r.Some? && x.Some? && r.value.0 == sv.(node := x.value.0) && r.value.1[|cmds| + 1] == x.value.1
            && x.value.0.aof == sv.node.aof + LogOf(Flatten(ExecEntries(cmds)))
  {
    QueueableFacts(cmds);
    TransactionRun(set_, route, sv, c, cmds, clock, other);
    assert forall i :: 0 <= i < |cmds| ==> cmds[i][0] != "DBSIZE";
    hide Queueable, Accepted, Refused, RunOn, Itoa, Concat, ExecuteAll, LogOf, Flatten, RecordAll;
    ExecuteAllSucceeds(sv.node.cache, cmds, clock(|cmds| + 1));
    RecordAllLogs(set_, sv.node.(cache := ExecuteAll(sv.node.cache, cmds, clock(|cmds| + 1)).value.0), cmds);
  }

  /** A write that is served here, and written alike by both paths. */
  predicate Faithful(set_: Setting, route: Route, cmd: Request) {
    IsWrite(cmd) ==> set_.role != "follower" && Routed(route, cmd).None? && WellFormed(cmd)
  }

  lemma DirectAlike(set_: Setting, route: Route, cmd: Request)
    requires Queueable(cmd)
    ensures DirectEntry(set_, route, cmd).Some? ==> ExecEntry(cmd).Some?
    ensures DirectEntry(set_, route, cmd).Some? ==> Loggable(DirectEntry(set_, route, cmd).value) && DirectEntry(set_, route, cmd).value != []
    ensures ExecEntry(cmd).Some? ==> Loggable(ExecEntry(cmd).value) && ExecEntry(cmd).value != []
    ensures DirectEntry(set_, route, cmd) == ExecEntry(cmd) <==> Faithful(set_, route, cmd)
  {
    QueueableOne(cmd);
    EntriesAlike(set_, cmd);
    WritesAreRecorded(cmd);
    hide ServedEntry, ExecEntry, WellFormed, Routed, Loggable;
  }

  lemma WritesAreRecorded(cmd: Request)
    requires Sized(cmd)
    ensures ExecEntry(cmd).Some? <==> IsWrite(cmd)
  {
    hide Atoi, Itoa;
  }

  /** For every list of commands that a transaction queues, on an idle connection: MULTI, the list and EXEC write the
      same log as sending the commands one by one exactly when every SET and DEL among them is well-formed and would
      have been served here, neither redirected nor refused by a follower. */
  lemma TransactionLogsAlike(set_: Setting, route: Route, sv: Server, c: P.Conn, cmds: seq<Request>,
                             clock: nat -> (nat -> int), direct: nat -> (nat -> int), other: string)
    requires c in sv.sessions && sv.sessions[c] == IDLE
    requires forall i :: 0 <= i < |cmds| ==> Queueable(cmds[i])
    ensures var t := RunOn(set_, route, sv, c, [MULTI] + cmds + [EXEC], clock, other);
            var d := RunOn(set_, route, sv, c, cmds, direct, other);
            && t.Some? && d.Some?
            && (t.value.0.node.aof == d.value.0.node.aof <==> forall i :: 0 <= i < |cmds| ==> Faithful(set_, route, cmds[i]))
  {
    hide Queueable, RunOn, Exec, LogOf, Flatten, Faithful, DirectEntry, ExecEntry, Loggable, ServeAll;
    TransactionNode(set_, route, sv, c, cmds, clock, other);
    DirectRun(set_, route, sv, c, cmds, direct, other);
    var ds, es := DirectEntries(set_, route, cmds), ExecEntries(cmds);
    forall i | 0 <= i < |cmds|
      ensures ds[i].Some? ==> es[i].Some? && Loggable(ds[i].value) && ds[i].value != []
      ensures es[i].Some? ==> Loggable(es[i].value) && es[i].value != []
      ensures ds[i] == es[i] <==> Faithful(set_, route, cmds[i])
    {
      DirectAlike(set_, route, cmds[i]);
    }
    LogsAgree(ds, es);
    SameSuffix(sv.node.aof, LogOf(Flatten(ds)), LogOf(Flatten(es)));
    assert ds == es <==> forall i :: 0 <= i < |cmds| ==> ds[i] == es[i];
  }

  /** Where all are well-formed and served here, the transaction leaves the whole server as sending the commands one by
      one does, if EXEC runs each at the time it would have been served; the replies arrive together. */
  lemma TransactionIsDirect(set_: Setting, route: Route, sv: Server, c: P.Conn, cmds: seq<Request>,
                            clock: nat -> (nat -> int), direct: nat -> (nat -> int), other: string)
    requires c in sv.sessions && sv.sessions[c] == IDLE
    requires forall i :: 0 <= i < |cmds| ==> WellFormed(cmds[i]) && Loggable(cmds[i]) && !LongPing(cmds[i])
    requires clock(|cmds| + 1) == ((i: nat) => direct(i)(0))
    ensures var t := RunOn(set_, route, sv, c, [MULTI] + cmds + [EXEC], clock, other);
            var d := RunOn(set_, route, sv, c, cmds, direct, other);
            && t.Some? && d.Some?
            && (t.value.0.node.aof == d.value.0.node.aof <==>
                  forall i :: 0 <= i < |cmds| && IsWrite(cmds[i]) ==> set_.role != "follower" && Routed(route, cmds[i]).None?)
            && (MayWrite(set_, cmds) && (forall i :: 0 <= i < |cmds| ==> Routed(route, cmds[i]).None?) ==>
                  t.value.0 == d.value.0 && t.value.1[|cmds| + 1] == "*" + Itoa(|cmds|) + CRLF + Concat(d.value.1))
  {
    assert AllWellFormed(cmds);
    forall i | 0 <= i < |cmds| ensures Queueable(cmds[i]) {
      WellFormedQueueable(cmds[i]);
    }
    hide WellFormed, Queueable, RunOn, Exec, LogOf, Flatten, Itoa, Concat, Routed, IsWrite, ServeAll;
    TransactionLogsAlike(set_, route, sv, c, cmds, clock, direct, other);
    TransactionNode(set_, route, sv, c, cmds, clock, other);
    DirectRun(set_, route, sv, c, cmds, direct, other);
    if MayWrite(set_, cmds) {
      ExecRefinesServe(set_, sv.node, cmds, clock(|cmds| + 1));
    }
  }

  /** The first failing guard: a well-formed write of a key that another node owns is answered with a redirect and
      leaves the server alone; between MULTI and EXEC it is executed and logged here. */
  lemma RedirectedWriteRuns(set_: Setting, route: Route, sv: Server, c: P.Conn, cmd: Request,
                            clock: nat -> (nat -> int), other: string)
    requires c in sv.sessions && sv.sessions[c] == IDLE
    requires Queueable(cmd) && IsWrite(cmd) && Routed(route, cmd).Some?
    ensures Handle(set_, route, sv, c, cmd, clock(0), other) == Some((sv, Routed(route, cmd).value))
    ensures var t := RunOn(set_, route, sv, c, [MULTI] + [cmd] + [EXEC], clock, other);
            t.Some? && t.value.0.node.aof != sv.node.aof
  {
    hide Queueable, RunOn, Faithful, Serve, IsWrite, Exec;
    QueueableName(cmd);
    HandleDirect(set_, route, sv, c, cmd, clock(0), other);
    assert sv.(node := sv.node) == sv;
    Unfaithful(set_, route, sv, c, cmd, clock, other);
  }

  /** The second: a write on a follower is refused, and goes through in a transaction. */
  lemma FollowerWriteRuns(set_: Setting, route: Route, sv: Server, c: P.Conn, cmd: Request,
                          clock: nat -> (nat -> int), other: string)
    requires c in sv.sessions && sv.sessions[c] == IDLE && set_.role == "follower"
    requires Queueable(cmd) && IsWrite(cmd) && Routed(route, cmd).None?
    ensures var d := Handle(set_, route, sv, c, cmd, clock(0), other); d.Some? && d.value.0 == sv
    ensures var t := RunOn(set_, route, sv, c, [MULTI] + [cmd] + [EXEC], clock, other);
            t.Some? && t.value.0.node.aof != sv.node.aof
  {
    QueueableName(cmd);
    HandleDirect(set_, route, sv, c, cmd, clock(0), other);
    assert Serve(set_, sv.node, cmd, clock(0)(0)).0 == sv.node;
    assert sv.(node := sv.node) == sv;
    hide Queueable, RunOn, Faithful, Serve, Handle, Exec;
    Unfaithful(set_, route, sv, c, cmd, clock, other);
  }

  lemma Unfaithful(set_: Setting, route: Route, sv: Server, c: P.Conn, cmd: Request, clock: nat -> (nat -> int), other: string)
    requires c in sv.sessions && sv.sessions[c] == IDLE && Queueable(cmd) && IsWrite(cmd)
    ensures var t := RunOn(set_, route, sv, c, [MULTI] + [cmd] + [EXEC], clock, other);
            t.Some? && t.value.0.node.aof != sv.node.aof
  {
    hide RunOn, Exec;
    TransactionNode(set_, route, sv, c, [cmd], clock, other);
    QueueableOne(cmd);
    WritesAreRecorded(cmd);
    OneEntry(ExecEntry(cmd));
    assert ExecEntries([cmd]) == [ExecEntry(cmd)];
    StartsSomething(ExecEntry(cmd).value);
    hide LogOf, Flatten, ExecEntry, EncodeCommand;
    var e := EncodeCommand(ExecEntry(cmd).value);
    assert |sv.node.aof + e| > |sv.node.aof|;
  }

  lemma StartsSomething(cmd: Command)
    ensures EncodeCommand(cmd) != ""
  {
  }
}
