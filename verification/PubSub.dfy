/** The publish/subscribe registry of internal/pubsub/pubsub.go: three indexes over shared subscriber objects.
    Closing a closed channel and sending on a closed channel panic, so both are preconditions here, and every
    call below is proved to meet them. */
module PubSub {
  /** A client connection, known by its identity only. */
  datatype Conn = Conn(id: nat)

  const BUFFER := 100

  datatype Message = Message(channel: string, content: string)

  class Subscriber {
    const conn: Conn
    var messages: seq<Message>
    var messagesClosed: bool
    var doneClosed: bool

    constructor (conn: Conn)
      ensures this.conn == conn && messages == [] && !messagesClosed && !doneClosed
    {
      this.conn, messages, messagesClosed, doneClosed := conn, [], false, false;
    }

    method CloseMessages()
      requires !messagesClosed
      modifies `messagesClosed
      ensures messagesClosed
    {
      messagesClosed := true;
    }

    method CloseDone()
      requires !doneClosed
      modifies `doneClosed
      ensures doneClosed
    {
      doneClosed := true;
    }

    /** A non-blocking send: dropped when the buffer is full. */
    method TrySend(m: Message) returns (sent: bool)
      requires !messagesClosed
      modifies `messages
      ensures sent <==> |old(messages)| < BUFFER
      ensures messages == if sent then old(messages) + [m] else old(messages)
    {
      sent := |messages| < BUFFER;
      if sent {
        messages := messages + [m];
      }
    }
  }

  type Channels = map<string, map<Conn, Subscriber>>
  type Subscriptions = map<Conn, set<string>>
  type Owners = map<Conn, Subscriber>

  predicate Subscribed(s: Subscriptions, c: Conn, ch: string) {
    c in s && ch in s[c]
  }

  predicate Listed(subs: Channels, ch: string, c: Conn) {
    ch in subs && c in subs[ch]
  }

  /** The channel index and the connection index are mutual inverses without empty sets, and both lead to the
      one subscriber object of each connection. */
  ghost predicate Mirrored(subs: Channels, s: Subscriptions, owners: Owners) {
    && owners.Keys == s.Keys
    && (forall c :: c in s ==> s[c] != {})
    && (forall ch :: ch in subs ==> subs[ch] != map[])
    && (forall c, ch :: Subscribed(s, c, ch) <==> Listed(subs, ch, c))
    && (forall c, ch :: Listed(subs, ch, c) ==> c in owners && subs[ch][c] == owners[c])
  }

  // ----- what the operations do to the subscriptions

  function AddSubscription(s: Subscriptions, c: Conn, ch: string): Subscriptions {
    s[c := (if c in s then s[c] else {}) + {ch}]
  }

  function DropSubscription(s: Subscriptions, c: Conn, ch: string): Subscriptions {
    if !Subscribed(s, c, ch) then s
    else if s[c] == {ch} then s - {c}
    else s[c := s[c] - {ch}]
  }

  function ListAt(subs: Channels, ch: string, c: Conn, sub: Subscriber): Channels {
    var listed: map<Conn, Subscriber> := if ch in subs then subs[ch] else map[];
    subs[ch := listed[c := sub]]
  }

  function Unlist(subs: Channels, ch: string, c: Conn): Channels {
    if ch !in subs then subs
    else if subs[ch] - {c} == map[] then subs - {ch}
    else subs[ch := subs[ch] - {c}]
  }

  lemma ListedAfterAdd(subs: Channels, ch: string, c: Conn, sub: Subscriber, ch': string, c': Conn)
    ensures Listed(ListAt(subs, ch, c, sub), ch', c') <==> (ch' == ch && c' == c) || Listed(subs, ch', c')
    ensures Listed(ListAt(subs, ch, c, sub), ch', c') ==>
              ListAt(subs, ch, c, sub)[ch'][c'] == if ch' == ch && c' == c then sub else subs[ch'][c']
  {
  }

  lemma ListedAfterUnlist(subs: Channels, ch: string, c: Conn, ch': string, c': Conn)
    ensures Listed(Unlist(subs, ch, c), ch', c') <==> !(ch' == ch && c' == c) && Listed(subs, ch', c')
    ensures Listed(Unlist(subs, ch, c), ch', c') ==> Unlist(subs, ch, c)[ch'][c'] == subs[ch'][c']
  {
    if Listed(subs, ch, c') && c' != c {
      assert c' in subs[ch] - {c};
    }
  }

  lemma MirroredAdd(subs: Channels, s: Subscriptions, owners: Owners, c: Conn, ch: string, sub: Subscriber)
    requires Mirrored(subs, s, owners) && (c in owners ==> owners[c] == sub)
    ensures Mirrored(ListAt(subs, ch, c, sub), AddSubscription(s, c, ch), owners[c := sub])
  {
    hide ListAt;
    forall c', ch'
      ensures Subscribed(AddSubscription(s, c, ch), c', ch') <==> Listed(ListAt(subs, ch, c, sub), ch', c')
      ensures Listed(ListAt(subs, ch, c, sub), ch', c') ==>
                c' in owners[c := sub] && ListAt(subs, ch, c, sub)[ch'][c'] == owners[c := sub][c']
    {
      ListedAfterAdd(subs, ch, c, sub, ch', c');
    }
    NoEmptyAdd(subs, ch, c, sub);
  }

  lemma NoEmptyAdd(subs: Channels, ch: string, c: Conn, sub: Subscriber)
    requires forall x :: x in subs ==> subs[x] != map[]
    ensures forall x :: x in ListAt(subs, ch, c, sub) ==> ListAt(subs, ch, c, sub)[x] != map[]
  {
    assert c in ListAt(subs, ch, c, sub)[ch];
  }

  lemma NoEmptyUnlist(subs: Channels, ch: string, c: Conn)
    requires forall x :: x in subs ==> subs[x] != map[]
    ensures forall x :: x in Unlist(subs, ch, c) ==> Unlist(subs, ch, c)[x] != map[]
  {
  }

  /** Dropping one subscription; the owner goes too when it was the last. */
  lemma MirroredDrop(subs: Channels, s: Subscriptions, owners: Owners, c: Conn, ch: string)
    requires Mirrored(subs, s, owners) && Subscribed(s, c, ch)
    ensures Mirrored(Unlist(subs, ch, c), DropSubscription(s, c, ch), if s[c] == {ch} then owners - {c} else owners)
  {
    hide Unlist;
    var owners' := if s[c] == {ch} then owners - {c} else owners;
    forall c', ch'
      ensures Subscribed(DropSubscription(s, c, ch), c', ch') <==> Listed(Unlist(subs, ch, c), ch', c')
      ensures Listed(Unlist(subs, ch, c), ch', c') ==> c' in owners' && Unlist(subs, ch, c)[ch'][c'] == owners'[c']
    {
      ListedAfterUnlist(subs, ch, c, ch', c');
    }
    NoEmptyUnlist(subs, ch, c);
    if s[c] != {ch} {
      LeftOver(s[c], ch);
    }
  }

  lemma LeftOver(chs: set<string>, ch: string)
    requires ch in chs && chs != {ch}
    ensures chs - {ch} != {}
  {
    assert chs == (chs - {ch}) + {ch};
  }

  /** Every channel of one connection has been unlisted. */
  ghost predicate UnlistedAll(subs: Channels, subs': Channels, c: Conn, chs: set<string>) {
    && (forall x :: x in subs' ==> subs'[x] != map[])
    && (forall ch, c' :: Listed(subs', ch, c') <==> Listed(subs, ch, c') && !(c' == c && ch in chs))
    && (forall ch, c' :: Listed(subs', ch, c') ==> subs'[ch][c'] == subs[ch][c'])
  }

  lemma UnlistedMore(subs: Channels, subs': Channels, c: Conn, chs: set<string>, ch: string)
    requires UnlistedAll(subs, subs', c, chs)
    ensures UnlistedAll(subs, Unlist(subs', ch, c), c, chs + {ch})
  {
    hide Unlist;
    NoEmptyUnlist(subs', ch, c);
    forall x, c'
      ensures Listed(Unlist(subs', ch, c), x, c') <==> Listed(subs, x, c') && !(c' == c && x in chs + {ch})
      ensures Listed(Unlist(subs', ch, c), x, c') ==> Listed(subs, x, c') && Unlist(subs', ch, c)[x][c'] == subs[x][c']
    {
      ListedAfterUnlist(subs', ch, c, x, c');
    }
  }

  lemma MirroredRemove(subs: Channels, subs': Channels, s: Subscriptions, owners: Owners, c: Conn)
    requires Mirrored(subs, s, owners) && c in s && UnlistedAll(subs, subs', c, s[c])
    ensures Mirrored(subs', s - {c}, owners - {c})
  {
    forall c', ch ensures Subscribed(s - {c}, c', ch) <==> Listed(subs', ch, c') {
      assert Subscribed(s, c', ch) <==> Listed(subs, ch, c');
    }
  }

  class PubSub {
    var connectionToSubscriber: Owners
    var subscribers: Channels
    var subscriptions: Subscriptions

    ghost predicate Valid()
      reads this, connectionToSubscriber.Values
    {
      && Mirrored(subscribers, subscriptions, connectionToSubscriber)
      && forall c :: c in connectionToSubscriber ==>
           && connectionToSubscriber[c].conn == c
           && !connectionToSubscriber[c].messagesClosed && !connectionToSubscriber[c].doneClosed
    }

    constructor ()
      ensures Valid() && subscriptions == map[]
    {
      connectionToSubscriber, subscribers, subscriptions := map[], map[], map[];
    }

    method Subscribe(conn: Conn, channel: string)
      requires Valid()
      modifies this
      ensures Valid() && subscriptions == AddSubscription(old(subscriptions), conn, channel)
      ensures forall c :: c in old(connectionToSubscriber) ==>
                c in connectionToSubscriber && connectionToSubscriber[c] == old(connectionToSubscriber)[c]
      ensures conn !in old(connectionToSubscriber) ==>
                fresh(connectionToSubscriber[conn]) && connectionToSubscriber[conn].messages == []
    {
      hide Mirrored;
      SameKeys(subscribers, subscriptions, connectionToSubscriber, conn);
      var subscriber;
      if conn !in connectionToSubscriber {
        subscriber := new Subscriber(conn);
      } else {
        subscriber := connectionToSubscriber[conn];
        if channel in subscriptions[conn] {
          assert subscriptions[conn] + {channel} == subscriptions[conn];
          return;
        }
      }
      MirroredAdd(subscribers, subscriptions, connectionToSubscriber, conn, channel, subscriber);
      connectionToSubscriber := connectionToSubscriber[conn := subscriber];
      subscriptions := subscriptions[conn := (if conn in subscriptions then subscriptions[conn] else {}) + {channel}];
      subscribers := ListAt(subscribers, channel, conn, subscriber);
    }

    /** False is the error for a channel the connection is not subscribed to. The last unsubscribe closes both
        channels of the subscriber and forgets it. */
    method Unsubscribe(conn: Conn, channel: string) returns (ok: bool)
      requires Valid()
      modifies this, if conn in connectionToSubscriber then {connectionToSubscriber[conn]} else {}
      ensures Valid() && subscriptions == DropSubscription(old(subscriptions), conn, channel)
      ensures ok <==> Subscribed(old(subscriptions), conn, channel)
      ensures forall c :: c in connectionToSubscriber ==>
                c in old(connectionToSubscriber) && connectionToSubscriber[c] == old(connectionToSubscriber)[c]
      ensures conn in old(connectionToSubscriber) && conn !in connectionToSubscriber ==>
                old(connectionToSubscriber)[conn].messagesClosed && old(connectionToSubscriber)[conn].doneClosed
    {
      hide Mirrored;
      SameKeys(subscribers, subscriptions, connectionToSubscriber, conn);
      if conn !in subscriptions {
        return false;
      }
      var channelSet := subscriptions[conn];
      if channel !in channelSet {
        return false;
      }
      MirroredDrop(subscribers, subscriptions, connectionToSubscriber, conn, channel);
      LastOrNot(channelSet, channel);
      channelSet := channelSet - {channel};
      subscriptions := subscriptions[conn := channelSet];
      subscribers := Unlist(subscribers, channel, conn);
      if channelSet == {} {
        Cleanup(conn);
      }
      assert subscriptions == DropSubscription(old(subscriptions), conn, channel);
      return true;
    }

    /** cleanupConnection. */
    method Cleanup(conn: Conn)
      requires conn in connectionToSubscriber
      requires !connectionToSubscriber[conn].messagesClosed && !connectionToSubscriber[conn].doneClosed
      modifies `subscriptions, `connectionToSubscriber, connectionToSubscriber[conn]
      ensures subscriptions == old(subscriptions) - {conn}
      ensures connectionToSubscriber == old(connectionToSubscriber) - {conn}
      ensures old(connectionToSubscriber)[conn].messagesClosed && old(connectionToSubscriber)[conn].doneClosed
    {
      var subscriber := connectionToSubscriber[conn];
      subscriber.CloseMessages();
      subscriber.CloseDone();
      subscriptions := subscriptions - {conn};
      connectionToSubscriber := connectionToSubscriber - {conn};
    }

    method RemoveConnection(conn: Conn)
      requires Valid()
      modifies this, if conn in connectionToSubscriber then {connectionToSubscriber[conn]} else {}
      ensures Valid() && subscriptions == old(subscriptions) - {conn}
      ensures forall c :: c in connectionToSubscriber ==>
                c in old(connectionToSubscriber) && connectionToSubscriber[c] == old(connectionToSubscriber)[c]
      ensures conn in old(connectionToSubscriber) ==>
                conn !in connectionToSubscriber
                && old(connectionToSubscriber)[conn].messagesClosed && old(connectionToSubscriber)[conn].doneClosed
    {
      hide Mirrored, UnlistedAll;
      SameKeys(subscribers, subscriptions, connectionToSubscriber, conn);
      if conn !in connectionToSubscriber {
        assert subscriptions - {conn} == subscriptions;
        return;
      }
      var pending := subscriptions[conn];
      ghost var start, done := subscribers, {};
      UnlistedNone(subscribers, subscriptions, connectionToSubscriber, conn);
      while pending != {}
        invariant subscriptions == old(subscriptions) && connectionToSubscriber == old(connectionToSubscriber)
        invariant conn in connectionToSubscriber && unchanged(connectionToSubscriber[conn])
        invariant UnlistedAll(start, subscribers, conn, done) && done + pending == subscriptions[conn]
        decreases pending
      {
        var channel :| channel in pending;
        UnlistedMore(start, subscribers, conn, done, channel);
        done, pending := done + {channel}, pending - {channel};
        subscribers := Unlist(subscribers, channel, conn);
      }
      MirroredRemove(start, subscribers, subscriptions, connectionToSubscriber, conn);
      Cleanup(conn);
    }

    /** The connections a message to the channel reaches: its subscribers whose buffer has room. */
    ghost function Reached(channel: string): set<Conn>
      reads this, connectionToSubscriber.Values
    {
      set c | c in connectionToSubscriber && Subscribed(subscriptions, c, channel)
              && |connectionToSubscriber[c].messages| < BUFFER
    }

    /** A message reaches every subscriber of the channel whose buffer has room, once, and nobody else. */
    method Publish(channel: string, content: string) returns (count: nat)
      requires Valid()
      modifies connectionToSubscriber.Values
      ensures Valid() && subscriptions == old(subscriptions)
      ensures forall c :: c in connectionToSubscriber ==>
                connectionToSubscriber[c].messages == old(connectionToSubscriber[c].messages)
                  + (if c in old(Reached(channel)) then [Message(channel, content)] else [])
      ensures count == |old(Reached(channel))|
      ensures forall c :: c in connectionToSubscriber && c in subscriptions && channel in subscriptions[c] ==>
                (|connectionToSubscriber[c].messages| > old(|connectionToSubscriber[c].messages|)
                 <==> old(|connectionToSubscriber[c].messages|) < 100)
    {
      Audience(subscribers, subscriptions, connectionToSubscriber, channel);
      hide Mirrored;
      if channel !in subscribers || |subscribers[channel]| == 0 {
        assert Reached(channel) == {};
        return 0;
      }
      var targets := subscribers[channel];
      assert Reached(channel) == Ready(targets);
      count := Deliver(targets, Message(channel, content));
    }
  }

  ghost function Ready(targets: Owners): set<Conn>
    reads targets.Values
  {
    set c | c in targets && |targets[c].messages| < BUFFER
  }

  /** The loop of Publish over the subscribers of one channel, in any order. */
  method Deliver(targets: Owners, m: Message) returns (count: nat)
    requires forall c :: c in targets ==> targets[c].conn == c && !targets[c].messagesClosed
    modifies targets.Values
    ensures forall c :: c in targets ==>
              targets[c].messagesClosed == old(targets[c].messagesClosed) && targets[c].doneClosed == old(targets[c].doneClosed)
    ensures forall c :: c in targets ==>
              targets[c].messages == old(targets[c].messages) + (if c in old(Ready(targets)) then [m] else [])
    ensures count == |old(Ready(targets))|
  {
    count := 0;
    ghost var reached: set<Conn>, ready := {}, Ready(targets);
    assert forall c :: c in targets ==> (c in ready <==> |targets[c].messages| < BUFFER);
    assert ready <= targets.Keys;
    hide Ready;
    var pending := targets.Keys;
    while pending != {}
      invariant pending <= targets.Keys
      invariant forall c :: c in reached <==> c in ready && c !in pending
      invariant forall c :: c in targets ==>
                  !targets[c].messagesClosed && targets[c].doneClosed == old(targets[c].doneClosed)
      invariant forall c :: c in reached ==> targets[c].messages == old(targets[c].messages) + [m]
      invariant forall c :: c in targets && c !in reached ==> targets[c].messages == old(targets[c].messages)
      invariant count == |reached|
      decreases pending
    {
      var c :| c in pending;
      pending := pending - {c};
      var sent := targets[c].TrySend(m);
      assert forall d :: d in targets && d != c ==> targets[d] != targets[c];
      assert sent <==> c in ready;
      if sent {
        reached := reached + {c};
        count := count + 1;
      }
    }
    assert reached == ready;
  }

  lemma Audience(subs: Channels, s: Subscriptions, owners: Owners, ch: string)
    requires Mirrored(subs, s, owners)
    ensures forall c :: Subscribed(s, c, ch) <==> ch in subs && c in subs[ch]
    ensures forall c :: ch in subs && c in subs[ch] ==> c in owners && subs[ch][c] == owners[c]
  {
    assert forall c :: Subscribed(s, c, ch) <==> Listed(subs, ch, c);
  }

  lemma SameKeys(subs: Channels, s: Subscriptions, owners: Owners, c: Conn)
    requires Mirrored(subs, s, owners)
    ensures c in owners <==> c in s
  {
  }

  lemma LastOrNot(chs: set<string>, ch: string)
    requires ch in chs
    ensures chs - {ch} == {} <==> chs == {ch}
  {
    assert chs == (chs - {ch}) + {ch};
  }

  lemma UnlistedNone(subs: Channels, s: Subscriptions, owners: Owners, c: Conn)
    requires Mirrored(subs, s, owners)
    ensures UnlistedAll(subs, subs, c, {})
  {
  }
}
