/** The leader and follower objects behind the steps of Replication: loops that number messages, send them
    to every tracked follower, and apply what arrives. */
module ReplicationNodes {
  import opened Sequences
  import R = Replication

  /** A follower's connection; queue is what has been written to it and not yet read. */
  class FollowerConn {
    const id: string
    var open: bool
    var queue: seq<R.Message>

    constructor (id: string)
      ensures this.id == id && open && queue == []
    {
      this.id, open, queue := id, true, [];
    }

    /** A write to a dead connection fails and is only logged. */
    method Send(m: R.Message)
      modifies `queue
      ensures queue == if open then old(queue) + [m] else old(queue)
    {
      if open {
        queue := queue + [m];
      }
    }
  }

  /** Which object stands for which connection number; no two numbers share an object. */
  type Conns = c: map<nat, FollowerConn> | Injective(c)

  predicate Injective(c: map<nat, FollowerConn>) {
    forall a, b :: a in c && b in c && a != b ==> c[a] != c[b]
  }

  class Leader {
    var followers: seq<FollowerConn>
    var seqNum: int

    constructor ()
      ensures forall store :: Represents(R.Initial(store), map[])
    {
      followers, seqNum := [], 0;
    }

    /** The object's fields are those of the step system. */
    ghost predicate Represents(s: R.System, conns: Conns)
      reads this, conns.Values
    {
      && seqNum == s.seqNum && Matches(s.links, conns)
      && Tracks(followers, s.registered, conns)
    }

    /** Replicate is the message half of a write. */
    method Replicate(w: R.Write, ghost s: R.System, ghost conns: Conns)
      requires Represents(s, conns)
      modifies `seqNum, followers
      ensures Represents(R.Do(s, R.DoWrite(w)), conns)
    {
      PushIs(s.links, s.registered, R.Replicate(s.seqNum + 1, w), {w.key});
      hide Tracks, Distinct, R.Apply, R.Push;
      seqNum := seqNum + 1;
      Broadcast(R.Replicate(seqNum, w), s.registered, conns);
    }

    /** One round of sendHeartbeats. */
    method SendHeartbeat(ghost s: R.System, ghost conns: Conns)
      requires Represents(s, conns)
      modifies followers
      ensures Represents(R.Do(s, R.DoHeartbeat), conns)
    {
      PushIs(s.links, s.registered, R.Heartbeat(seqNum), {});
      hide Tracks, Distinct, R.Push;
      Broadcast(R.Heartbeat(seqNum), s.registered, conns);
    }

    /** The loop over the followers slice: the message goes to every tracked connection that is alive, once. */
    method Broadcast(message: R.Message, ghost registered: seq<nat>, ghost conns: Conns)
      requires Tracks(followers, registered, conns)
      modifies followers
      ensures forall c :: c in conns ==> conns[c].open == old(conns[c].open)
      ensures forall c :: c in conns ==>
                conns[c].queue == old(conns[c].queue) + if c in registered && old(conns[c].open) then [message] else []
    {
      DistinctPairs(registered);
      hide Distinct;
      for i := 0 to |followers|
        invariant forall c :: c in conns ==> conns[c].open == old(conns[c].open)
        invariant forall c :: c in conns ==>
                    conns[c].queue == old(conns[c].queue) + if c in registered[..i] && old(conns[c].open) then [message] else []
      {
        assert registered[i] !in registered[..i] && registered[..i + 1] == registered[..i] + [registered[i]];
        followers[i].Send(message);
      }
      assert registered[..|followers|] == registered;
    }

    /** The snapshot loop and the closing SYNCEND of handleFollower, for a map ranged over in any order. */
    method SendSnapshot(conn: FollowerConn, snapshot: R.Store) returns (ghost order: seq<string>)
      requires conn.open
      modifies `seqNum, conn`queue
      ensures Distinct(order) && forall k :: k in order <==> k in snapshot
      ensures seqNum == old(seqNum) + |order|
      ensures conn.queue == old(conn.queue) + (R.SnapshotMessages(snapshot, order, old(seqNum)) + [R.SyncEnd(seqNum)])
    {
      hide R.SnapshotMessages, Distinct;
      SnapshotStart(snapshot, seqNum);
      order := [];
      var pending := snapshot.Keys;
      while pending != {}
        invariant pending <= snapshot.Keys && forall k :: k in order <==> k in snapshot.Keys - pending
        invariant Distinct(order) && seqNum == old(seqNum) + |order|
        invariant conn.queue == old(conn.queue) + R.SnapshotMessages(snapshot, order, old(seqNum))
        decreases pending
      {
        var key :| key in pending;
        pending := pending - {key};
        seqNum := seqNum + 1;
        conn.Send(R.Replicate(seqNum, R.Set(key, snapshot[key], 0)));
        SnapshotSnoc(snapshot, order, key, old(seqNum));
        DistinctSnoc(order, key);
        order := order + [key];
      }
      conn.Send(R.SyncEnd(seqNum));
    }

    /** The synchronisation half of handleFollower. */
    method Synchronise(conn: FollowerConn, snapshot: R.Store, ghost s: R.System, ghost conns: Conns, ghost c: nat,
                       ghost follower: R.Follower)
      returns (ghost order: seq<string>)
      requires seqNum == s.seqNum && Matches(s.links, conns) && snapshot == s.store
      requires c !in conns && conn !in conns.Values && conn.open && conn.queue == []
      modifies `seqNum, conn`queue
      ensures R.CanAttach(s, R.Attach(c, conn.id, follower, order))
      ensures var s' := R.Do(s, R.Attach(c, conn.id, follower, order));
              && seqNum == s'.seqNum && s'.registered == s.registered + [c]
              && Injective(conns[c := conn]) && Matches(s'.links, conns[c := conn])
    {
      assert c !in s.links;
      hide Distinct, R.SnapshotMessages;
      order := SendSnapshot(conn, snapshot);
      assert Matches(s.links, conns);
      hide Matches;
      AttachIs(s, c, conn.id, follower, order);
      hide R.Do, R.CanAttach;
      MatchesAdd(s.links, conns, c, conn, R.NewLink(s, conn.id, follower, order));
    }

    /** handleFollower up to its reading loop: send the snapshot, then track the connection. */
    method HandleFollower(conn: FollowerConn, snapshot: R.Store, ghost s: R.System, ghost conns: Conns, ghost c: nat,
                          ghost follower: R.Follower)
      returns (ghost order: seq<string>)
      requires Represents(s, conns) && snapshot == s.store
      requires c !in conns && conn !in conns.Values && conn.open && conn.queue == []
      modifies `seqNum, `followers, conn`queue
      ensures R.CanAttach(s, R.Attach(c, conn.id, follower, order)) && Injective(conns[c := conn])
      ensures Represents(R.Do(s, R.Attach(c, conn.id, follower, order)), conns[c := conn])
    {
      TracksAdd(followers, s.registered, conns, c, conn);
      hide Tracks, Matches, R.Do, R.CanAttach, Injective;
      order := Synchronise(conn, snapshot, s, conns, c, follower);
      AddFollower(conn, R.Do(s, R.Attach(c, conn.id, follower, order)), conns[c := conn]);
    }

    method AddFollower(conn: FollowerConn, ghost s: R.System, ghost conns: Conns)
      requires seqNum == s.seqNum && Matches(s.links, conns) && Tracks(followers + [conn], s.registered, conns)
      modifies `followers
      ensures Represents(s, conns)
    {
      hide Matches, Tracks;
      followers := followers + [conn];
    }

    /** removeFollower: overwrites the first entry with the id by the last entry and shortens the slice. */
    method RemoveFollower(id: string, ghost s: R.System, ghost conns: Conns)
      requires Represents(s, conns)
      modifies `followers
      ensures Represents(s.(registered := R.RemoveFollower(s.registered, s.links, id)), conns)
    {
      hide Distinct, R.RemoveFollower;
      assert forall i :: 0 <= i < |followers| ==>
               s.registered[i] in s.links && followers[i].id == s.links[s.registered[i]].id && conns[s.registered[i]] == followers[i];
      assert |followers| == |s.registered|;
      ghost var tracked := followers;
      for i := 0 to |followers|
        invariant followers == tracked
        invariant forall j :: 0 <= j < i ==> followers[j].id != id
      {
        if followers[i].id == id {
          FirstIs(s.registered, s.links, id, i);
          TracksRemove(followers, s.registered, conns, i);
          followers := followers[i := followers[|followers| - 1]];
          followers := followers[..|followers| - 1];
          return;
        }
      }
      FirstIs(s.registered, s.links, id, |s.registered|);
    }

    /** The end of handleFollower's reading loop: the connection is dead. */
    method Disconnected(conn: FollowerConn, ghost s: R.System, ghost conns: Conns, ghost c: nat)
      requires Represents(s, conns) && c in conns && conns[c] == conn
      modifies `followers, conn`open
      ensures Represents(R.Do(s, R.Disconnect(c)), conns)
    {
      hide Tracks, R.RemoveFollower;
      conn.open := false;
      ghost var links := s.links[c := s.links[c].(open := false)];
      RemoveFollower(conn.id, s.(links := links), conns);
      SameIds(s.registered, s.links, links, conn.id);
    }
  }

  /** Every connection object holds what its link says. */
  ghost predicate Matches(links: map<nat, R.Link>, conns: Conns)
    reads conns.Values
  {
    && conns.Keys == links.Keys
    && forall c :: c in conns ==>
         conns[c].id == links[c].id && conns[c].open == links[c].open && conns[c].queue == links[c].queue
  }

  lemma MatchesAdd(links: map<nat, R.Link>, conns: Conns, c: nat, conn: FollowerConn, link: R.Link)
    requires Matches(links, conns) && c !in conns && conn !in conns.Values
    requires conn.id == link.id && conn.open == link.open && conn.queue == link.queue
    ensures Injective(conns[c := conn]) && Matches(links[c := link], conns[c := conn])
  {
  }

  /** The slice holds the objects of the registered connections, each once. */
  ghost predicate Tracks(followers: seq<FollowerConn>, registered: seq<nat>, conns: Conns) {
    && |followers| == |registered| && Distinct(registered)
    && forall i :: 0 <= i < |followers| ==> registered[i] in conns && conns[registered[i]] == followers[i]
  }

  lemma TracksAdd(followers: seq<FollowerConn>, registered: seq<nat>, conns: Conns, c: nat, conn: FollowerConn)
    requires Tracks(followers, registered, conns) && c !in conns && conn !in conns.Values
    ensures Injective(conns[c := conn])
    ensures Tracks(followers + [conn], registered + [c], conns[c := conn])
  {
    assert c !in registered;
    DistinctSnoc(registered, c);
  }

  lemma SnapshotStart(store: R.Store, n: int)
    ensures R.SnapshotMessages(store, [], n) == [] && Distinct<string>([])
  {
  }

  lemma SnapshotSnoc(store: R.Store, order: seq<string>, key: string, n: int)
    requires key in store && forall k :: k in order ==> k in store
    ensures R.SnapshotMessages(store, order + [key], n)
         == R.SnapshotMessages(store, order, n) + [R.Replicate(n + |order| + 1, R.Set(key, store[key], 0))]
  {
    assert (order + [key])[..|order|] == order;
  }

  lemma PushIs(links: map<nat, R.Link>, registered: seq<nat>, m: R.Message, keys: set<string>)
    ensures var links' := R.Push(links, registered, m, keys);
            && links'.Keys == links.Keys
            && forall c :: c in links ==>
                 && links'[c].id == links[c].id && links'[c].open == links[c].open
                 && links'[c].queue == links[c].queue + if c in registered && links[c].open then [m] else []
  {
  }

  lemma AttachIs(s: R.System, c: nat, id: string, follower: R.Follower, order: seq<string>)
    requires c !in s.links && Distinct(order) && forall k :: k in order <==> k in s.store
    ensures R.CanAttach(s, R.Attach(c, id, follower, order))
    ensures var s' := R.Do(s, R.Attach(c, id, follower, order));
            && s'.seqNum == s.seqNum + |order| && s'.registered == s.registered + [c]
            && s'.links == s.links[c := R.NewLink(s, id, follower, order)]
  {
    hide R.NewLink, Distinct, R.Apply, R.Push, R.RemoveFollower, R.Numbers;
  }

  lemma TracksRemove(followers: seq<FollowerConn>, registered: seq<nat>, conns: Conns, i: nat)
    requires Tracks(followers, registered, conns) && i < |followers|
    ensures var last := |followers| - 1;
            Tracks(followers[i := followers[last]][..last], registered[i := registered[last]][..last], conns)
  {
    SwapOutDistinct(registered, i);
    hide Distinct;
  }

  lemma SameIds(registered: seq<nat>, links: map<nat, R.Link>, links': map<nat, R.Link>, id: string)
    requires links.Keys == links'.Keys && forall c :: c in links ==> links[c].id == links'[c].id
    ensures R.RemoveFollower(registered, links, id) == R.RemoveFollower(registered, links', id)
  {
    assert R.FirstWithId(registered, links, id) == R.FirstWithId(registered, links', id);
  }

  lemma FirstIs(registered: seq<nat>, links: map<nat, R.Link>, id: string, i: nat)
    requires i <= |registered| && forall j :: 0 <= j < i ==> registered[j] in links && links[registered[j]].id != id
    requires i < |registered| ==> registered[i] in links && links[registered[i]].id == id
    ensures R.RemoveFollower(registered, links, id)
         == if i == |registered| then registered
            else registered[i := registered[|registered| - 1]][..|registered| - 1]
  {
    assert R.FirstWithId(registered, links, id) == i;
  }

  class Follower {
    var store: R.Store
    var lastSeqNum: int
    var syncing: bool

    constructor (store: R.Store)
      ensures State() == R.Follower(store, 0, true)
    {
      this.store, lastSeqNum, syncing := store, 0, true;
    }

    function State(): R.Follower
      reads this
    {
      R.Follower(store, lastSeqNum, syncing)
    }

    /** One round of either message loop. */
    method Handle(m: R.Message)
      modifies this
      ensures State() == R.Receive(old(State()), m)
    {
      match m {
        case Replicate(n, w) =>
          match w {
            case Set(k, v, _) => store := store[k := v];
            case Delete(k) => store := store - {k};
          }
          if n > lastSeqNum {
            lastSeqNum := n;
          }
        case SyncEnd(n) =>
          if syncing {
            if n > lastSeqNum {
              lastSeqNum := n;
            }
            syncing := false;
          }
        case Heartbeat(_) =>
      }
    }

    /** The message loops, up to the end of what the leader has sent. */
    method Process(queue: seq<R.Message>)
      modifies this
      ensures State() == R.Drain(old(State()), queue)
    {
      for i := 0 to |queue|
        invariant State() == R.Drain(old(State()), queue[..i])
      {
        assert queue[..i + 1][..i] == queue[..i];
        Handle(queue[i]);
      }
      assert queue[..|queue|] == queue;
    }
  }
}
