/** Leader-to-follower replication as a step system: internal/replication/leader.go and follower.go.
    A write (cache change plus Replicate) and an attach (Snapshot through addFollower) are single steps,
    stores neither evict nor expire, and a connection is a reliable queue until it is dropped. */
module Replication {
  import opened Sequences

  type Store = map<string, string>

  datatype Write = Set(key: string, value: string, ttl: int) | Delete(key: string)

  datatype Message = Replicate(seqNum: int, write: Write) | SyncEnd(seqNum: int) | Heartbeat(seqNum: int)

  function Apply(m: Store, w: Write): Store {
    match w
    case Set(k, v, _) => m[k := v]
    case Delete(k) => m - {k}
  }

  // ----- the follower

  datatype Follower = Follower(store: Store, lastSeqNum: int, syncing: bool)

  function Max(a: int, b: int): int {
    if a < b then b else a
  }

  /** sendSyncRequest while syncing, processReplicationStream afterwards. Both apply REPLICATE; only the
      first looks at SYNCEND; everything else is skipped. */
  function Receive(f: Follower, m: Message): Follower {
    match m
    case Replicate(n, w) => f.(store := Apply(f.store, w), lastSeqNum := Max(f.lastSeqNum, n))
    case SyncEnd(n) => if f.syncing then f.(lastSeqNum := Max(f.lastSeqNum, n), syncing := false) else f
    case Heartbeat(_) => f
  }

  function Drain(f: Follower, queue: seq<Message>): Follower {
    if queue == [] then f else Receive(Drain(f, queue[..|queue| - 1]), queue[|queue| - 1])
  }

  /** Delivering from the front and then draining is draining. */
  lemma {:induction false} DrainFront(f: Follower, queue: seq<Message>)
    requires queue != []
    ensures Drain(Receive(f, queue[0]), queue[1..]) == Drain(f, queue)
  {
    var last := |queue| - 1;
    if last == 0 {
      assert Drain(f, queue[..0]) == f;
    } else {
      DrainFront(f, queue[..last]);
      assert queue[..last][1..] == queue[1..][..last - 1];
    }
  }

  /** The number a follower has reached is the greatest of its own and those of the writes it received, or, while
      it was syncing, of the end of the sync. */
  lemma {:induction false} DrainReaches(f: Follower, queue: seq<Message>)
    ensures var n := Drain(f, queue).lastSeqNum;
            && n >= f.lastSeqNum
            && (forall i :: 0 <= i < |queue| && queue[i].Replicate? ==> queue[i].seqNum <= n)
            && (n == f.lastSeqNum || exists i :: 0 <= i < |queue| && !queue[i].Heartbeat? && queue[i].seqNum == n)
  {
    if queue != [] {
      var last := |queue| - 1;
      DrainReaches(f, queue[..last]);
      var n := Drain(f, queue[..last]).lastSeqNum;
      if i :| 0 <= i < last && !queue[..last][i].Heartbeat? && queue[..last][i].seqNum == n {
        assert !queue[i].Heartbeat? && queue[i].seqNum == n;
      }
      assert forall i :: 0 <= i < last ==> queue[..last][i] == queue[i];
    }
  }

  // ----- the leader

  /** One connection: the messages under way, the follower at its far end, and, for the statements below,
      what the follower held when it attached and which keys the leader has sent since. */
  datatype Link = Link(id: string, open: bool, queue: seq<Message>, follower: Follower, atAttach: Store, sent: set<string>)

  /** registered is the leader's followers slice; issued lists every REPLICATE number ever used. */
  datatype System = System(store: Store, seqNum: int, registered: seq<nat>, links: map<nat, Link>, issued: seq<int>)

  datatype Step =
    | DoWrite(write: Write)
    | DoHeartbeat
    | Attach(conn: nat, id: string, follower: Follower, order: seq<string>)
    | Deliver(conn: nat)
    | Disconnect(conn: nat)

  /** Every registered follower with a live connection gets the message. */
  function Push(links: map<nat, Link>, registered: seq<nat>, m: Message, keys: set<string>): map<nat, Link> {
    map c | c in links ::
      if c in registered && links[c].open then links[c].(queue := links[c].queue + [m], sent := links[c].sent + keys) else links[c]
  }

  /** The snapshot loop of handleFollower: one numbered SET per stored key, in any order. */
  function SnapshotMessages(store: Store, order: seq<string>, seqNum: int): seq<Message>
    requires forall k :: k in order ==> k in store
  {
    if order == [] then []
    else
      var most := order[..|order| - 1];
      var key := order[|order| - 1];
      SnapshotMessages(store, most, seqNum) + [Replicate(seqNum + |order|, Set(key, store[key], 0))]
  }

  function Numbers(seqNum: int, n: nat): seq<int> {
    seq(n, i => seqNum + 1 + i)
  }

  /** removeFollower: the first entry with the id is overwritten by the last one and the slice shortened. */
  function RemoveFollower(registered: seq<nat>, links: map<nat, Link>, id: string): seq<nat> {
    var i := FirstWithId(registered, links, id);
    if i == |registered| then registered
    else
      var last := |registered| - 1;
      registered[i := registered[last]][..last]
  }

  function FirstWithId(registered: seq<nat>, links: map<nat, Link>, id: string): (i: nat)
    ensures i <= |registered|
    ensures forall j :: 0 <= j < i ==> !(registered[j] in links && links[registered[j]].id == id)
    ensures i < |registered| ==> registered[i] in links && links[registered[i]].id == id
  {
    if registered == [] then 0
    else if registered[0] in links && links[registered[0]].id == id then 0
    else 1 + FirstWithId(registered[1..], links, id)
  }

  ghost predicate CanAttach(s: System, step: Step)
    requires step.Attach?
  {
    && step.conn !in s.links && Distinct(step.order)
    && (forall k :: k in step.order <==> k in s.store)
  }

  /** The connection of a follower to which the snapshot has been sent. */
  function NewLink(s: System, id: string, f: Follower, order: seq<string>): Link
    requires forall k :: k in order ==> k in s.store
  {
    var queue := SnapshotMessages(s.store, order, s.seqNum) + [SyncEnd(s.seqNum + |order|)];
    Link(id, true, queue, f.(syncing := true), f.store, s.store.Keys)
  }

  ghost function Do(s: System, step: Step): System {
    match step
    case DoWrite(w) =>
      var n := s.seqNum + 1;
      s.(store := Apply(s.store, w), seqNum := n, issued := s.issued + [n],
         links := Push(s.links, s.registered, Replicate(n, w), {w.key}))
    case DoHeartbeat =>
      s.(links := Push(s.links, s.registered, Heartbeat(s.seqNum), {}))
    case Attach(c, id, f, order) =>
      if !CanAttach(s, step) then s
      else
        s.(seqNum := s.seqNum + |order|, issued := s.issued + Numbers(s.seqNum, |order|), registered := s.registered + [c],
           links := s.links[c := NewLink(s, id, f, order)])
    case Deliver(c) =>
      if c !in s.links || !s.links[c].open || s.links[c].queue == [] then s
      else
        var l := s.links[c];
        s.(links := s.links[c := l.(queue := l.queue[1..], follower := Receive(l.follower, l.queue[0]))])
    case Disconnect(c) =>
      if c !in s.links then s
      else s.(registered := RemoveFollower(s.registered, s.links, s.links[c].id),
              links := s.links[c := s.links[c].(open := false)])
  }

  ghost function Run(s: System, steps: seq<Step>): System {
    if steps == [] then s else Do(Run(s, steps[..|steps| - 1]), steps[|steps| - 1])
  }

  function Initial(store: Store): System {
    System(store, 0, [], map[], [])
  }

  // ----- the store invariant

  predicate SameAt(a: Store, b: Store, k: string) {
    (k in a <==> k in b) && (k in a && k in b ==> a[k] == b[k])
  }

  /** Once everything under way has arrived, the follower is past its initial sync and agrees with the leader on every key
      the leader sent it, and on the other keys it is as it was when it attached, where the leader holds none. */
  ghost predicate InStep(store: Store, l: Link) {
    var final := Drain(l.follower, l.queue);
    && !final.syncing
    && forall k ::
      if k in l.sent then SameAt(final.store, store, k) else k !in store && SameAt(final.store, l.atAttach, k)
  }

  ghost predicate LinksInStep(s: System) {
    forall c :: c in s.registered && c in s.links && s.links[c].open ==> InStep(s.store, s.links[c])
  }

  lemma DrainSnoc(f: Follower, queue: seq<Message>, m: Message)
    ensures Drain(f, queue + [m]) == Receive(Drain(f, queue), m)
  {
    assert (queue + [m])[..|queue|] == queue;
  }

  lemma ApplySame(a: Store, b: Store, w: Write, k: string)
    ensures k == w.key ==> SameAt(Apply(a, w), Apply(b, w), k)
    ensures k != w.key ==> SameAt(Apply(a, w), a, k) && SameAt(Apply(b, w), b, k)
  {
  }

  lemma PushInStep(store: Store, l: Link, n: int, w: Write)
    requires InStep(store, l)
    ensures InStep(Apply(store, w), l.(queue := l.queue + [Replicate(n, w)], sent := l.sent + {w.key}))
  {
    hide Drain, Apply;
    DrainSnoc(l.follower, l.queue, Replicate(n, w));
    var final := Drain(l.follower, l.queue).store;
    forall k
      ensures if k in l.sent + {w.key} then SameAt(Apply(final, w), Apply(store, w), k)
              else k !in Apply(store, w) && SameAt(Apply(final, w), l.atAttach, k)
    {
      ApplySame(final, store, w, k);
    }
  }

  lemma BeatInStep(store: Store, l: Link, n: int)
    requires InStep(store, l)
    ensures InStep(store, l.(queue := l.queue + [Heartbeat(n)], sent := l.sent + {}))
  {
    hide Drain, SameAt;
    DrainSnoc(l.follower, l.queue, Heartbeat(n));
    assert l.sent + {} == l.sent;
  }

  /** Draining the snapshot overwrites exactly the listed keys, whatever their order. */
  lemma {:induction false} DrainSnapshot(store: Store, order: seq<string>, n: int, f: Follower, k: string)
    requires forall x :: x in order ==> x in store
    ensures var final := Drain(f, SnapshotMessages(store, order, n));
            && final.syncing == f.syncing
            && (if k in order then k in final.store && final.store[k] == store[k] else SameAt(final.store, f.store, k))
  {
    if order != [] {
      var most, key := order[..|order| - 1], order[|order| - 1];
      assert order == most + [key];
      DrainSnapshot(store, most, n, f, k);
      DrainSnoc(f, SnapshotMessages(store, most, n), Replicate(n + |order|, Set(key, store[key], 0)));
    }
  }

  lemma AttachInStep(s: System, id: string, follower: Follower, order: seq<string>)
    requires forall k :: k in order <==> k in s.store
    ensures InStep(s.store, NewLink(s, id, follower, order))
  {
    var f := follower.(syncing := true);
    var snapshot := SnapshotMessages(s.store, order, s.seqNum);
    DrainSnoc(f, snapshot, SyncEnd(s.seqNum + |order|));
    forall k
      ensures var final := Drain(f, snapshot).store;
              if k in s.store then SameAt(final, s.store, k) else SameAt(final, f.store, k)
    {
      DrainSnapshot(s.store, order, s.seqNum, f, k);
    }
    hide Drain, SnapshotMessages;
  }

  lemma RemoveFollowerSubset(registered: seq<nat>, links: map<nat, Link>, id: string)
    ensures forall c :: c in RemoveFollower(registered, links, id) ==> c in registered
  {
  }

  lemma StepInStep(s: System, step: Step)
    requires LinksInStep(s)
    ensures LinksInStep(Do(s, step))
  {
    hide InStep, Apply, RemoveFollower;
    var s' := Do(s, step);
    match step
    case DoWrite(w) =>
      forall c | c in s'.registered && c in s'.links && s'.links[c].open ensures InStep(s'.store, s'.links[c]) {
        PushInStep(s.store, s.links[c], s.seqNum + 1, w);
      }
    case DoHeartbeat =>
      forall c | c in s'.registered && c in s'.links && s'.links[c].open ensures InStep(s'.store, s'.links[c]) {
        BeatInStep(s.store, s.links[c], s.seqNum);
      }
    case Attach(_, id, f, order) =>
      if CanAttach(s, step) {
        AttachInStep(s, id, f, order);
        hide NewLink;
      }
    case Deliver(c) =>
      if c in s.links && s.links[c].open && s.links[c].queue != [] && c in s.registered {
        DeliverInStep(s.store, s.links[c]);
      }
    case Disconnect(c) =>
      if c in s.links {
        RemoveFollowerSubset(s.registered, s.links, s.links[c].id);
      }
  }

  lemma DeliverInStep(store: Store, l: Link)
    requires l.queue != [] && InStep(store, l)
    ensures InStep(store, l.(queue := l.queue[1..], follower := Receive(l.follower, l.queue[0])))
  {
    DrainFront(l.follower, l.queue);
  }

  /** In every run, for every registered follower with a live connection. */
  lemma {:induction false} RunInStep(store: Store, steps: seq<Step>)
    ensures LinksInStep(Run(Initial(store), steps))
  {
    if steps != [] {
      RunInStep(store, steps[..|steps| - 1]);
      StepInStep(Run(Initial(store), steps[..|steps| - 1]), steps[|steps| - 1]);
    }
  }

  /** What the invariant means: the drained follower has the leader's value for every key the leader holds,
      and it equals the leader exactly when every key it held at attach has since been sent to it. */
  lemma Convergence(store: Store, steps: seq<Step>, c: nat)
    requires var s := Run(Initial(store), steps); c in s.registered && c in s.links && s.links[c].open
    ensures var s := Run(Initial(store), steps);
            var final := Drain(s.links[c].follower, s.links[c].queue).store;
            && !Drain(s.links[c].follower, s.links[c].queue).syncing
            && (forall k :: k in s.store ==> k in final && final[k] == s.store[k])
            && (final == s.store <==> s.links[c].atAttach.Keys <= s.links[c].sent)
  {
    RunInStep(store, steps);
    var s := Run(Initial(store), steps);
    hide Run, Drain;
    var l := s.links[c];
    var final := Drain(l.follower, l.queue).store;
    assert forall k :: if k in l.sent then SameAt(final, s.store, k) else k !in s.store && SameAt(final, l.atAttach, k);
    if l.atAttach.Keys <= l.sent {
      assert forall k :: k in final <==> k in s.store;
      assert final == s.store;
    } else {
      var k :| k in l.atAttach.Keys && k !in l.sent;
      assert SameAt(final, l.atAttach, k) && k in final && k !in s.store;
    }
  }

  // ----- sequence numbers

  /** No message under way is ahead of the leader, and writes are under way in the order of their numbers. */
  ghost predicate InOrder(queue: seq<Message>, top: int) {
    && (forall i :: 0 <= i < |queue| ==> queue[i].seqNum <= top)
    && (forall i, j :: 0 <= i < j < |queue| && queue[i].Replicate? && queue[j].Replicate? ==> queue[i].seqNum < queue[j].seqNum)
  }

  /** The numbers from 1 up to the leader's have been used, each once and in this order, and so have those under way. */
  ghost predicate Numbered(s: System) {
    s.seqNum >= 0 && s.issued == Numbers(0, s.seqNum) && forall c :: c in s.links ==> InOrder(s.links[c].queue, s.seqNum)
  }

  lemma {:induction false} SnapshotNumbers(store: Store, order: seq<string>, n: int)
    requires forall k :: k in order ==> k in store
    ensures |SnapshotMessages(store, order, n)| == |order|
    ensures forall i :: 0 <= i < |order| ==> SnapshotMessages(store, order, n)[i].seqNum == n + 1 + i
  {
    if order != [] {
      SnapshotNumbers(store, order[..|order| - 1], n);
    }
  }

  lemma PushNumbers(queue: seq<Message>, m: Message, top: int)
    requires InOrder(queue, top) && (if m.Replicate? then top < m.seqNum else top <= m.seqNum)
    ensures InOrder(queue + [m], m.seqNum) && InOrder(queue, m.seqNum)
  {
  }

  lemma NumbersMore(n: nat, m: nat)
    ensures Numbers(0, n) + Numbers(n, m) == Numbers(0, n + m)
    ensures Numbers(0, n) + [n + 1] == Numbers(0, n + 1)
  {
  }

  lemma QueueMoves(queue: seq<Message>, top: int, top': int)
    requires InOrder(queue, top) && top <= top'
    ensures InOrder(queue, top') && (queue != [] ==> InOrder(queue[1..], top))
  {
  }

  lemma NewQueueInOrder(s: System, id: string, f: Follower, order: seq<string>)
    requires forall k :: k in order ==> k in s.store
    ensures InOrder(NewLink(s, id, f, order).queue, s.seqNum + |order|)
  {
    SnapshotNumbers(s.store, order, s.seqNum);
    hide SnapshotMessages;
  }

  lemma StepNumbered(s: System, step: Step)
    requires Numbered(s)
    ensures Numbered(Do(s, step)) && s.seqNum <= Do(s, step).seqNum && s.issued <= Do(s, step).issued
  {
    hide Apply, RemoveFollower, InOrder, NewLink, Numbers;
    var s' := Do(s, step);
    match step
    case DoWrite(w) =>
      NumbersMore(s.seqNum, 0);
      forall c | c in s'.links ensures InOrder(s'.links[c].queue, s'.seqNum) {
        PushNumbers(s.links[c].queue, Replicate(s.seqNum + 1, w), s.seqNum);
      }
    case DoHeartbeat =>
      forall c | c in s'.links ensures InOrder(s'.links[c].queue, s'.seqNum) {
        PushNumbers(s.links[c].queue, Heartbeat(s.seqNum), s.seqNum);
      }
    case Attach(conn, id, f, order) =>
      if CanAttach(s, step) {
        NumbersMore(s.seqNum, |order|);
        NewQueueInOrder(s, id, f, order);
        forall c | c in s'.links ensures InOrder(s'.links[c].queue, s'.seqNum) {
          if c != conn {
            QueueMoves(s.links[c].queue, s.seqNum, s'.seqNum);
          }
        }
      }
    case Deliver(c) =>
      if c in s.links {
        QueueMoves(s.links[c].queue, s.seqNum, s.seqNum);
      }
    case Disconnect(c) =>
  }

  lemma {:induction false} RunNumbered(store: Store, steps: seq<Step>)
    ensures Numbered(Run(Initial(store), steps))
  {
    if steps != [] {
      RunNumbered(store, steps[..|steps| - 1]);
      StepNumbered(Run(Initial(store), steps[..|steps| - 1]), steps[|steps| - 1]);
    }
  }

  /** No follower's lastSeqNum is ahead of the leader's number. */
  ghost predicate Behind(s: System) {
    forall c :: c in s.links ==> s.links[c].follower.lastSeqNum <= s.seqNum
  }

  /** An attaching follower knows no number beyond the one at which its snapshot ends. */
  ghost predicate Modest(s: System, step: Step) {
    step.Attach? && CanAttach(s, step) ==> step.follower.lastSeqNum <= s.seqNum + |step.order|
  }

  lemma StepBehind(s: System, step: Step)
    requires Numbered(s) && Behind(s)
    ensures Behind(Do(s, step)) <==> Modest(s, step)
  {
    hide Apply, RemoveFollower, SnapshotMessages;
    var s' := Do(s, step);
    if step.Attach? && CanAttach(s, step) {
      assert s'.links[step.conn].follower.lastSeqNum == step.follower.lastSeqNum;
    }
  }

  /** Behind in every state of the run. */
  ghost predicate AlwaysBehind(store: Store, steps: seq<Step>) {
    Behind(Run(Initial(store), steps)) && (steps != [] ==> AlwaysBehind(store, steps[..|steps| - 1]))
  }

  ghost predicate AllModest(store: Store, steps: seq<Step>) {
    steps != [] ==>
      var past := steps[..|steps| - 1];
      AllModest(store, past) && Modest(Run(Initial(store), past), steps[|steps| - 1])
  }

  /** In a run no follower is ever ahead of the leader exactly when every follower that attached knew no number
      beyond its snapshot. A follower of an earlier leader may: a promoted leader counts from 0 again. */
  lemma {:induction false} AheadIffAttachedAhead(store: Store, steps: seq<Step>)
    ensures AlwaysBehind(store, steps) <==> AllModest(store, steps)
  {
    assert Behind(Initial(store));
    hide Do, Behind, Modest, Numbered;
    if steps != [] {
      var past := steps[..|steps| - 1];
      AheadIffAttachedAhead(store, past);
      RunNumbered(store, past);
      if Behind(Run(Initial(store), past)) {
        StepBehind(Run(Initial(store), past), steps[|steps| - 1]);
      }
    }
  }

  /** The failing input: a follower that saw number 5 under an earlier leader attaches to a new one. */
  lemma FollowerOfEarlierLeaderIsAhead()
    ensures !Behind(Run(Initial(map[]), [Attach(0, "a", Follower(map[], 5, false), [])]))
  {
    var step := Attach(0, "a", Follower(map[], 5, false), []);
    assert [step][..0] == [];
    var s := Do(Initial(map[]), step);
    assert Run(Initial(map[]), []) == Initial(map[]);
    assert 0 in s.links && s.links[0].follower.lastSeqNum == 5 && s.seqNum == 0;
  }

  // ----- dropping a follower

  /** When a connection ends, the entry that leaves the slice is its own exactly when no earlier entry
      carries the same follower id. */
  lemma DisconnectRemovesOwn(registered: seq<nat>, links: map<nat, Link>, i: nat)
    requires i < |registered| && Distinct(registered) && registered[i] in links
    ensures registered[i] !in RemoveFollower(registered, links, links[registered[i]].id)
      <==> forall j :: 0 <= j < i ==> !(registered[j] in links && links[registered[j]].id == links[registered[i]].id)
  {
    DistinctPairs(registered);
    var id := links[registered[i]].id;
    var f := FirstWithId(registered, links, id);
    var last := |registered| - 1;
    var rest := RemoveFollower(registered, links, id);
    assert f <= i;
    if f < i {
      assert rest[if i == last then f else i] == registered[i];
    }
  }

  /** The slice lists connections, each once. */
  ghost predicate Registry(s: System) {
    Distinct(s.registered) && forall c :: c in s.registered ==> c in s.links
  }

  /** Every open connection is registered, so it gets every write. */
  ghost predicate AllTracked(s: System) {
    forall c :: c in s.links && s.links[c].open ==> c in s.registered
  }

  /** The entry that a disconnect removes, if any, is its own or belongs to a dead connection. */
  ghost predicate CleanDrop(s: System, step: Step) {
    step.Disconnect? && step.conn in s.links ==>
      var i := FirstWithId(s.registered, s.links, s.links[step.conn].id);
      i < |s.registered| ==> s.registered[i] == step.conn || !s.links[s.registered[i]].open
  }

  lemma RemovedIs(registered: seq<nat>, links: map<nat, Link>, id: string)
    requires Distinct(registered)
    ensures var i, rest := FirstWithId(registered, links, id), RemoveFollower(registered, links, id);
            Distinct(rest) && forall c :: c in rest <==> c in registered && (i < |registered| ==> c != registered[i])
  {
    var i, last := FirstWithId(registered, links, id), |registered| - 1;
    if i < |registered| {
      SwapOutDistinct(registered, i);
      DistinctPairs(registered);
      hide Distinct;
      var rest := registered[i := registered[last]][..last];
      forall c | c in registered && c != registered[i] ensures c in rest {
        var j :| 0 <= j < |registered| && registered[j] == c;
        assert rest[if j == last then i else j] == c;
      }
    }
  }

  lemma StepTracked(s: System, step: Step)
    requires Registry(s)
    ensures Registry(Do(s, step))
    ensures AllTracked(s) ==> (AllTracked(Do(s, step)) <==> CleanDrop(s, step))
  {
    hide Apply, NewLink, Numbers;
    if step.Disconnect? && step.conn in s.links {
      RemovedIs(s.registered, s.links, s.links[step.conn].id);
      hide RemoveFollower, Distinct;
      var i := FirstWithId(s.registered, s.links, s.links[step.conn].id);
      assert i < |s.registered| ==> s.registered[i] in s.links;
    } else if step.Attach? && CanAttach(s, step) {
      assert step.conn !in s.registered;
      DistinctSnoc(s.registered, step.conn);
      hide Distinct;
    } else {
      hide Distinct;
    }
  }

  ghost predicate AlwaysTracked(store: Store, steps: seq<Step>) {
    AllTracked(Run(Initial(store), steps)) && (steps != [] ==> AlwaysTracked(store, steps[..|steps| - 1]))
  }

  ghost predicate AllClean(store: Store, steps: seq<Step>) {
    steps != [] ==>
      var past := steps[..|steps| - 1];
      AllClean(store, past) && CleanDrop(Run(Initial(store), past), steps[|steps| - 1])
  }

  lemma {:induction false} RunRegistry(store: Store, steps: seq<Step>)
    ensures Registry(Run(Initial(store), steps))
  {
    hide Do;
    if steps != [] {
      RunRegistry(store, steps[..|steps| - 1]);
      StepTracked(Run(Initial(store), steps[..|steps| - 1]), steps[|steps| - 1]);
    }
  }

  /** Over every run: open connections stay registered exactly when every disconnect finds, as the first entry with
      its follower id, none, its own, or one that is dead. */
  lemma {:induction false} TrackedIffCleanDrops(store: Store, steps: seq<Step>)
    ensures AlwaysTracked(store, steps) <==> AllClean(store, steps)
  {
    assert AllTracked(Initial(store));
    hide Do, AllTracked, CleanDrop, Registry;
    if steps != [] {
      var past := steps[..|steps| - 1];
      TrackedIffCleanDrops(store, past);
      RunRegistry(store, past);
      StepTracked(Run(Initial(store), past), steps[|steps| - 1]);
    }
  }

  lemma RunSnoc(s: System, steps: seq<Step>, step: Step)
    ensures Run(s, steps + [step]) == Do(Run(s, steps), step)
  {
    assert (steps + [step])[..|steps|] == steps;
  }

  const NEWCOMER := Follower(map[], 0, false)

  lemma FirstLink(s: System, id: string)
    requires s.seqNum == 0
    ensures var l := NewLink(s, id, NEWCOMER, []);
            l.id == id && l.open && l.queue == [SyncEnd(0)] && l.follower == NEWCOMER.(syncing := true)
  {
  }

  /** Connections 0 ("x"), 1 and 2 (both "a", the second a reconnect) attach; then 0 drops out. */
  lemma SwapPutsNewerFirst(s: System)
    requires s == Do(Do(Do(Do(Initial(map[]), Attach(0, "x", NEWCOMER, [])), Attach(1, "a", NEWCOMER, [])),
                        Attach(2, "a", NEWCOMER, [])), Disconnect(0))
    ensures s.registered == [2, 1] && s.store == map[] && 1 in s.links && 2 in s.links
    ensures s.links[1].id == "a" && s.links[2].id == "a" && s.links[2].open
    ensures s.links[2].queue == [SyncEnd(0)] && s.links[2].follower == NEWCOMER.(syncing := true)
  {
    assert Distinct<string>([]);
    FirstLink(Initial(map[]), "x");
    hide Distinct, NewLink, SnapshotMessages;
    var s1 := Do(Initial(map[]), Attach(0, "x", NEWCOMER, []));
    assert s1.registered == [0] && s1.links.Keys == {0} && s1.links[0].id == "x" && s1.store == map[] && s1.seqNum == 0;
    FirstLink(s1, "a");
    var s2 := Do(s1, Attach(1, "a", NEWCOMER, []));
    assert s2.registered == [0, 1] && s2.links.Keys == {0, 1} && s2.store == map[] && s2.seqNum == 0;
    FirstLink(s2, "a");
    var s3 := Do(s2, Attach(2, "a", NEWCOMER, []));
    assert s3.registered == [0, 1, 2] && s3.links[0].id == "x" && s3.store == map[];
    assert s3.links[2].queue == [SyncEnd(0)];
    assert FirstWithId(s3.registered, s3.links, "x") == 0;
    assert s3.registered[0 := 2][..2] == [2, 1];
  }

  lemma DroppedInPlaceOfDead(s: System)
    requires s.registered == [2, 1] && s.store == map[] && 1 in s.links && 2 in s.links
    requires s.links[1].id == "a" && s.links[2].id == "a" && s.links[2].open
    requires s.links[2].queue == [SyncEnd(0)] && s.links[2].follower == NEWCOMER.(syncing := true)
    ensures var s' := Do(Do(Do(s, Disconnect(1)), Deliver(2)), DoWrite(Set("k", "v", 0)));
            && s'.registered == [1] && 2 in s'.links && s'.links[2].open && s'.links[2].queue == []
            && s'.links[2].follower.store == map[] && "k" in s'.store
  {
    assert FirstWithId(s.registered, s.links, "a") == 0;
    assert s.registered[0 := 1][..1] == [1];
    var s1 := Do(s, Disconnect(1));
    assert s1.registered == [1] && s1.links[2] == s.links[2];
    var s2 := Do(s1, Deliver(2));
    assert s2.links[2].queue == [] && s2.links[2].follower.store == map[];
  }

  /** A follower that reconnects under its own id can be dropped in place of its dead connection; from then
      on it misses writes although it is still connected. */
  lemma ReconnectedFollowerStranded()
    ensures exists steps, c ::
      var s := Run(Initial(map[]), steps);
      c in s.links && s.links[c].open && s.links[c].queue == [] && c !in s.registered && s.links[c].follower.store != s.store
  {
    hide Do;
    var s0 := Initial(map[]);
    var a, b, c := Attach(0, "x", NEWCOMER, []), Attach(1, "a", NEWCOMER, []), Attach(2, "a", NEWCOMER, []);
    var d, e, f, g := Disconnect(0), Disconnect(1), Deliver(2), DoWrite(Set("k", "v", 0));
    var four := [] + [a] + [b] + [c] + [d];
    RunSnoc(s0, [], a);
    RunSnoc(s0, [] + [a], b);
    RunSnoc(s0, [] + [a] + [b], c);
    RunSnoc(s0, [] + [a] + [b] + [c], d);
    RunSnoc(s0, four, e);
    RunSnoc(s0, four + [e], f);
    RunSnoc(s0, four + [e] + [f], g);
    var s := Run(s0, four);
    assert s == Do(Do(Do(Do(s0, a), b), c), d);
    SwapPutsNewerFirst(s);
    DroppedInPlaceOfDead(s);
    var end := Run(s0, four + [e] + [f] + [g]);
    assert end == Do(Do(Do(s, e), f), g);
    assert end.links[2].follower.store != end.store;
  }
}
