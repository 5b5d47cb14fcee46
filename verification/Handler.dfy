/** The handlers of internal/server/handler.go that change a connection's state in place. */
module Handler {
  import opened Options
  import opened Decimal
  import opened Resp
  import opened Commands
  import opened Connections
  import P = PubSub
  import M = CacheModel

  class ConnectionState {
    var subscriberMode: bool
    var inTransaction: bool
    var commandQueue: seq<Request>
    var transactionError: Option<string>

    ghost function View(): Session
      reads this
    {
      Session(subscriberMode, inTransaction, commandQueue, transactionError.Some?)
    }

    constructor ()
      ensures View() == IDLE
    {
      subscriberMode, inTransaction, commandQueue, transactionError := false, false, [], None;
    }

    method QueueCommand(cmd: Request) returns (reply: string)
      modifies this
      ensures (View(), reply) == Enqueue(old(View()), cmd)
    {
      if transactionError.Some? {
        return QUEUED;
      }
      var name := cmd[0];
      var n := |cmd|;
      var error: Option<string> := None;
      if name == "SET" {
        if n < 3 || n > 5 { error := Some("wrong number of arguments for 'set' command"); }
      } else if name == "GET" {
        if n != 2 { error := Some("wrong number of arguments for 'get' command"); }
      } else if name == "DEL" {
        if n != 2 { error := Some("wrong number of arguments for 'del' command"); }
      } else if name == "DBSIZE" {
        if n != 1 { error := Some("wrong number of arguments for 'dbsize' command"); }
      } else if name == "PING" {
        if n > 2 { error := Some("wrong number of arguments for 'ping' command"); }
      }
      if error.Some? {
        transactionError := error;
        return ErrorReply(error.value);
      }
      commandQueue := commandQueue + [cmd];
      return QUEUED;
    }

    method HandleMulti() returns (reply: string)
      modifies this
      ensures (View(), reply) == Multi(old(View()))
      ensures old(inTransaction) ==> reply == ErrorReply("ERR MULTI calls can not be nested") && View() == old(View())
      ensures !old(inTransaction) ==> reply == "+OK\r\n" && View() == Session(old(subscriberMode), true, [], false)
    {
      if inTransaction {
        return ErrorReply("ERR MULTI calls can not be nested");
      }
      inTransaction, commandQueue, transactionError := true, [], None;
      return OK;
    }

    method HandleDiscard() returns (reply: string)
      modifies this
      ensures (View(), reply) == Discard(old(View()))
      ensures !old(inTransaction) ==> reply == ErrorReply("ERR DISCARD without MULTI") && View() == old(View())
      ensures old(inTransaction) ==> reply == "+OK\r\n" && View() == Session(old(subscriberMode), false, [], false)
    {
      if !inTransaction {
        return ErrorReply("ERR DISCARD without MULTI");
      }
      inTransaction, commandQueue, transactionError := false, [], None;
      return OK;
    }

    /** None is the deadlock. */
    method HandleExec(set_: Setting, backend: Backend, clock: nat -> int) returns (reply: Option<string>)
      modifies this, backend
      ensures !old(inTransaction) ==>
                reply == Some(ErrorReply("ERR EXEC without MULTI")) && View() == old(View()) && backend.node == old(backend.node)
      ensures old(inTransaction && transactionError.Some?) ==>
                reply == Some(EXECABORT) && View() == Reset(old(View())) && backend.node == old(backend.node)
      ensures old(inTransaction && transactionError.None?) ==>
                var x := Exec(set_, old(backend.node), old(commandQueue), clock);
                (reply.None? <==> x.None?)
                && (x.Some? ==> reply == Some(x.value.1) && backend.node == x.value.0 && View() == Reset(old(View())))
    {
      if !inTransaction {
        return Some(ErrorReply("ERR EXEC without MULTI"));
      }
      if transactionError.Some? {
        inTransaction, commandQueue, transactionError := false, [], None;
        return Some(EXECABORT);
      }
      var replies := backend.ExecuteQueue(commandQueue, clock);
      if replies.None? {
        return None;
      }
      backend.RecordQueue(set_, commandQueue);
      var response := JoinReplies(replies.value);
      inTransaction, commandQueue, transactionError := false, [], None;
      return Some(response);
    }

    /** handleSubscribe: the channels are subscribed one by one until an argument is not a string. */
    method HandleSubscribe(conn: P.Conn, args: seq<Option<string>>, ps: P.PubSub)
      requires ps.Valid()
      modifies this, ps
      ensures ps.Valid()
      ensures (View(), ps.subscriptions) == Connections.HandleSubscribe(old(View()), old(ps.subscriptions), conn, args)
    {
      hide P.PubSub.Valid, P.AddSubscription;
      if |args| == 0 {
        return;
      }
      var i := 0;
      assert args[0..] == args;
      while i < |args|
        invariant 0 <= i <= |args|
        invariant ps.Valid() && View() == old(View())
        invariant SubscribeEach(old(ps.subscriptions), conn, args) == SubscribeEach(ps.subscriptions, conn, args[i..])
      {
        assert args[i..][0] == args[i] && args[i..][1..] == args[i + 1..];
        if args[i].None? {
          return;
        }
        ps.Subscribe(conn, args[i].value);
        i := i + 1;
      }
      assert args[i..] == [];
      subscriberMode := true;
    }

    /** handleUnsubscribe: without arguments it leaves every channel. */
    method HandleUnsubscribe(conn: P.Conn, args: seq<Option<string>>, ps: P.PubSub)
      requires ps.Valid()
      modifies this, ps, if conn in ps.connectionToSubscriber then {ps.connectionToSubscriber[conn]} else {}
      ensures ps.Valid()
      ensures (View(), ps.subscriptions) == Connections.HandleUnsubscribe(old(View()), old(ps.subscriptions), conn, args)
    {
      hide P.PubSub.Valid;
      if |args| == 0 {
        UnsubscribeAll(conn, ps);
        subscriberMode := false;
        return;
      }
      hide P.DropSubscription;
      var i := 0;
      assert args[0..] == args;
      while i < |args|
        invariant 0 <= i <= |args|
        invariant ps.Valid() && View() == old(View())
        invariant forall c :: c in ps.connectionToSubscriber ==>
                    c in old(ps.connectionToSubscriber) && ps.connectionToSubscriber[c] == old(ps.connectionToSubscriber)[c]
        invariant UnsubscribeEach(old(ps.subscriptions), conn, args) == UnsubscribeEach(ps.subscriptions, conn, args[i..])
      {
        assert args[i..][0] == args[i] && args[i..][1..] == args[i + 1..];
        if args[i].None? {
          return;
        }
        var _ := ps.Unsubscribe(conn, args[i].value);
        i := i + 1;
      }
      assert args[i..] == [];
      if conn !in ps.subscriptions {
        subscriberMode := false;
      }
    }
  }

  /** Leaves the channels of a connection one by one, in any order. */
  method UnsubscribeAll(conn: P.Conn, ps: P.PubSub)
    requires ps.Valid()
    modifies ps, if conn in ps.connectionToSubscriber then {ps.connectionToSubscriber[conn]} else {}
    ensures ps.Valid() && ps.subscriptions == old(ps.subscriptions) - {conn}
  {
    NoneEmpty(ps);
    hide P.PubSub.Valid;
    if conn !in ps.subscriptions {
      assert ps.subscriptions - {conn} == ps.subscriptions;
      return;
    }
    var channels := ps.subscriptions[conn];
    while channels != {}
      invariant ps.Valid()
      invariant forall c :: c in ps.connectionToSubscriber ==>
                  c in old(ps.connectionToSubscriber) && ps.connectionToSubscriber[c] == old(ps.connectionToSubscriber)[c]
      invariant ps.subscriptions - {conn} == old(ps.subscriptions) - {conn}
      invariant if channels == {} then conn !in ps.subscriptions else conn in ps.subscriptions && ps.subscriptions[conn] == channels
      decreases channels
    {
      var channel :| channel in channels;
      var left := channels - {channel};
      P.LastOrNot(channels, channel);
      label Before:
      var _ := ps.Unsubscribe(conn, channel);
      assert ps.subscriptions - {conn} == old@Before(ps.subscriptions) - {conn};
      channels := left;
    }
    assert ps.subscriptions - {conn} == ps.subscriptions;
  }

  lemma NoneEmpty(ps: P.PubSub)
    requires ps.Valid()
    ensures forall c :: c in ps.subscriptions ==> ps.subscriptions[c] != {}
  {
  }

  /** What the commands change. */
  class Backend {
    var node: Node

    /** The first loop of handleExec. */
    method ExecuteQueue(queue: seq<Request>, clock: nat -> int) returns (replies: Option<seq<string>>)
      modifies this
      ensures var r := ExecuteAll(old(node.cache), queue, clock);
              match r
              case None => replies.None?
              case Some((c, rs)) => replies == Some(rs) && node == old(node).(cache := c)
    {
      hide Execute;
      var done: seq<string> := [];
      var i := 0;
      while i < |queue|
        invariant 0 <= i <= |queue|
        invariant ExecuteAll(old(node.cache), queue[..i], clock) == Some((node.cache, done))
        invariant node == old(node).(cache := node.cache)
      {
        assert queue[..i + 1][..i] == queue[..i];
        match Execute(node.cache, queue[i], clock(i)) {
          case None =>
            Stuck(node.cache, queue, i, clock, old(node.cache), done);
            return None;
          case Some((c, reply)) =>
            node := node.(cache := c);
            done := done + [reply];
        }
        i := i + 1;
      }
      assert queue[..i] == queue;
      return Some(done);
    }

    /** The second loop: replicate and log. */
    method RecordQueue(set_: Setting, queue: seq<Request>)
      modifies this
      ensures node == RecordAll(set_, old(node), queue)
    {
      hide Record;
      var i := 0;
      while i < |queue|
        invariant 0 <= i <= |queue|
        invariant node == RecordAll(set_, old(node), queue[..i])
      {
        assert queue[..i + 1][..i] == queue[..i];
        match Recorded(queue[i]) {
          case None =>
          case Some(w) => node := Record(set_, node, w);
        }
        i := i + 1;
      }
      assert queue[..i] == queue;
    }
  }

  lemma {:induction false} Stuck(c: M.Cache, queue: seq<Request>, i: nat, clock: nat -> int, start: M.Cache, done: seq<string>)
    requires i < |queue| && ExecuteAll(start, queue[..i], clock) == Some((c, done)) && Execute(c, queue[i], clock(i)).None?
    ensures ExecuteAll(start, queue, clock).None?
    decreases |queue|
  {
    hide Execute;
    if i == |queue| - 1 {
    } else {
      var front := queue[..|queue| - 1];
      assert front[..i] == queue[..i];
      Stuck(c, front, i, clock, start, done);
    }
  }

  /** The third loop: an array header and the replies. */
  method JoinReplies(replies: seq<string>) returns (response: string)
    ensures response == "*" + Itoa(|replies|) + CRLF + Concat(replies)
  {
    response := "*" + Itoa(|replies|) + CRLF;
    var i := 0;
    while i < |replies|
      invariant 0 <= i <= |replies|
      invariant response == "*" + Itoa(|replies|) + CRLF + Concat(replies[..i])
    {
      assert replies[..i + 1][..i] == replies[..i];
      response := response + replies[i];
      i := i + 1;
    }
    assert replies[..i] == replies;
  }
}
