/** The wire form of the replication messages: internal/replication/protocol.go and the decoding done by
    the follower's message loops. */
module ReplicationProtocol {
  import opened Options
  import opened Decimal
  import opened Resp
  import opened RespReader
  import R = Replication

  // ----- writing

  function Elements(m: R.Message): seq<Element> {
    match m
    case Replicate(n, Set(k, v, ttl)) => [Text("REPLICATE"), Number(n), Text("SET"), Text(k), Text(v), Number(ttl)]
    case Replicate(n, Delete(k)) => [Text("REPLICATE"), Number(n), Text("DELETE"), Text(k)]
    case SyncEnd(n) => [Text("SYNCEND"), Number(n)]
    case Heartbeat(n) => [Text("HEARTBEAT"), Number(n), Text("leader")]
  }

  function EncodeMessage(m: R.Message): string {
    Encode(Command(Elements(m)))
  }

  function EncodeMessages(ms: seq<R.Message>): string {
    if ms == [] then "" else EncodeMessage(ms[0]) + EncodeMessages(ms[1..])
  }

  // ----- reading

  function ParseInt64(v: Value): Option<int> {
    match v
    case Int(n) => Some(n)
    case Str(s) => Atoi(s)
    case _ => None
  }

  /** What one turn of a message loop does with a parsed value. */
  datatype Turn = Handle(message: R.Message) | Skip | Abort

  function DecodeReplicate(arr: seq<Value>): Turn
    requires |arr| > 0
  {
    if |arr| < 4 || ParseInt64(arr[1]).None? || !arr[2].Str? || !arr[3].Str? then Abort
    else
      var n, key := ParseInt64(arr[1]).value, arr[3].s;
      if arr[2].s == "SET" then
        if |arr| != 6 || !arr[4].Str? || ParseInt64(arr[5]).None? then Abort
        else Handle(R.Replicate(n, R.Set(key, arr[4].s, ParseInt64(arr[5]).value)))
      else if arr[2].s == "DELETE" then
        if |arr| != 4 then Abort else Handle(R.Replicate(n, R.Delete(key)))
      else Abort
  }

  function DecodeSyncEnd(arr: seq<Value>): Option<int> {
    if |arr| != 2 || arr[0] != Str("SYNCEND") then None else ParseInt64(arr[1])
  }

  /** An empty array panics on resultSlice[0]; a SYNCEND is decoded while syncing and skipped afterwards. */
  function Decode(v: Value, syncing: bool): Turn {
    if !v.Arr? || v.items == [] then Abort
    else if v.items[0] == Str("REPLICATE") then DecodeReplicate(v.items)
    else if v.items[0] == Str("SYNCEND") && syncing then
      match DecodeSyncEnd(v.items)
      case Some(n) => Handle(R.SyncEnd(n))
      case None => Abort
    else Skip
  }

  // ----- reading back

  predicate Fits(m: R.Message) {
    && MIN_INT <= m.seqNum <= MAX_INT
    && (m.Replicate? ==> |m.write.key| <= MAX_INT)
    && (m.Replicate? && m.write.Set? ==> |m.write.value| <= MAX_INT && MIN_INT <= m.write.ttl <= MAX_INT)
  }

  function ElementValue(e: Element): Value {
    match e
    case Text(s) => Str(s)
    case Number(n) => Int(n)
  }

  lemma {:induction false} CommandValues(es: seq<Element>, fs: seq<Frame>)
    requires |fs| == |es| && forall i :: 0 <= i < |es| ==> fs[i] == ElementFrame(es[i])
    ensures |ToValues(fs)| == |es| && forall i :: 0 <= i < |es| ==> ToValues(fs)[i] == ElementValue(es[i])
  {
    if es != [] {
      CommandValues(es[1..], fs[1..]);
    }
  }

  lemma ElementsSendable(m: R.Message)
    requires Fits(m)
    ensures Sendable(Command(Elements(m)))
  {
    var fs := Command(Elements(m)).items;
    forall i | 0 <= i < |fs| ensures Sendable(fs[i]) {
      assert fs[i] == ElementFrame(Elements(m)[i]);
    }
  }

  /** A message written by the leader is read back by the follower, which then sits at the next message. */
  lemma MessageRoundTrip(m: R.Message, rest: string)
    requires Fits(m)
    ensures var r := Parse(EncodeMessage(m) + rest);
            && r.Ok? && r.rest == rest
            && Decode(r.value, true) == (if m.Heartbeat? then Skip else Handle(m))
            && Decode(r.value, false) == (if m.Replicate? then Handle(m) else Skip)
  {
    hide Encode, Parse, ToValues, Sendable;
    var es := Elements(m);
    ElementsSendable(m);
    ParseEncode(Command(es), rest);
    CommandValue(es);
    CommandValues(es, Command(es).items);
  }

  lemma CommandValue(es: seq<Element>)
    ensures ToValue(Command(es)) == Arr(ToValues(Command(es).items))
  {
  }

  /** The message loop over the bytes of a connection: stops at the first parse error or bad message. */
  function ReadStream(f: R.Follower, s: string): R.Follower
    decreases |s|
  {
    match Parse(s)
    case Fail(_, _) => f
    case Ok(v, rest) =>
      if s == "" then f
      else
        match Decode(v, f.syncing)
        case Handle(m) => ReadStream(R.Receive(f, m), rest)
        case Skip => ReadStream(f, rest)
        case Abort => f
  }

  /** Reading the bytes of any messages the leader wrote has the effect of receiving the messages. */
  lemma {:induction false} StreamIsDrain(f: R.Follower, ms: seq<R.Message>)
    requires forall i :: 0 <= i < |ms| ==> Fits(ms[i])
    ensures ReadStream(f, EncodeMessages(ms)) == R.Drain(f, ms)
    decreases |ms|
  {
    hide Parse, Decode, EncodeMessage, R.Drain;
    if ms == [] {
      EmptyStream(f);
    } else {
      var rest := EncodeMessages(ms[1..]);
      MessageRoundTrip(ms[0], rest);
      EncodeNotEmpty(ms[0]);
      R.DrainFront(f, ms);
      StreamIsDrain(R.Receive(f, ms[0]), ms[1..]);
    }
  }

  lemma EmptyStream(f: R.Follower)
    ensures Parse("").Fail? && R.Drain(f, []) == f
  {
  }

  lemma EncodeNotEmpty(m: R.Message)
    ensures EncodeMessage(m) != ""
  {
  }

  // ----- the bytes

  lemma Cons(f: Frame, fs: seq<Frame>)
    ensures EncodeAll([f] + fs) == Encode(f) + EncodeAll(fs)
  {
    assert ([f] + fs)[1..] == fs;
  }

  /** The bytes of two to six frames in a row. */
  lemma InARow(fs: seq<Frame>)
    requires 2 <= |fs| <= 6
    ensures EncodeAll(fs) == Encode(fs[0]) + EncodeAll(fs[1..])
    ensures |fs| == 2 ==> EncodeAll(fs) == Encode(fs[0]) + Encode(fs[1])
    ensures |fs| == 3 ==> EncodeAll(fs) == Encode(fs[0]) + (Encode(fs[1]) + Encode(fs[2]))
    ensures |fs| == 4 ==> EncodeAll(fs) == Encode(fs[0]) + (Encode(fs[1]) + (Encode(fs[2]) + Encode(fs[3])))
    ensures |fs| == 6 ==>
              EncodeAll(fs) == Encode(fs[0]) + (Encode(fs[1]) + (Encode(fs[2]) + (Encode(fs[3]) + (Encode(fs[4]) + Encode(fs[5])))))
    decreases |fs|
  {
    hide Encode;
    if |fs| == 2 {
      assert fs[1..] == [fs[1]];
      Cons(fs[1], []);
      assert Encode(fs[1]) + "" == Encode(fs[1]) && [fs[1]] + [] == [fs[1]];
    } else {
      InARow(fs[1..]);
      assert forall i :: 0 <= i < |fs| - 1 ==> fs[1..][i] == fs[i + 1];
      if |fs| == 6 {
        assert fs[1..][1..] == fs[2..];
        InARow(fs[2..]);
        assert forall i :: 0 <= i < 4 ==> fs[2..][i] == fs[i + 2];
      }
    }
  }

  lemma Written(m: R.Message)
    ensures EncodeMessage(m) == "*" + Itoa(|Elements(m)|) + CRLF + EncodeAll(Command(Elements(m)).items)
  {
  }

  lemma Headers()
    ensures "*" + Itoa(6) + CRLF == "*6\r\n" && "*" + Itoa(4) + CRLF == "*4\r\n"
    ensures "*" + Itoa(3) + CRLF == "*3\r\n" && "*" + Itoa(2) + CRLF == "*2\r\n"
  {
    assert Itoa(6) == "6" && Itoa(4) == "4" && Itoa(3) == "3" && Itoa(2) == "2";
  }

  /** The bytes of a replicated write. */
  lemma WriteBytes(n: int, k: string, v: string, ttl: int)
    ensures EncodeMessage(R.Replicate(n, R.Set(k, v, ttl)))
         == "*6\r\n" + (Encode(Bulk("REPLICATE")) + (Encode(Integer(n)) + (Encode(Bulk("SET")) + (Encode(Bulk(k)) + (Encode(Bulk(v))
            + Encode(Integer(ttl)))))))
    ensures EncodeMessage(R.Replicate(n, R.Delete(k)))
         == "*4\r\n" + (Encode(Bulk("REPLICATE")) + (Encode(Integer(n)) + (Encode(Bulk("DELETE")) + Encode(Bulk(k)))))
  {
    hide Encode, EncodeAll, EncodeMessage, Itoa;
    Headers();
    Written(R.Replicate(n, R.Set(k, v, ttl)));
    Written(R.Replicate(n, R.Delete(k)));
    InARow(Command(Elements(R.Replicate(n, R.Set(k, v, ttl)))).items);
    InARow(Command(Elements(R.Replicate(n, R.Delete(k)))).items);
  }

  /** And of the two other messages. */
  lemma MarkerBytes(n: int)
    ensures EncodeMessage(R.SyncEnd(n)) == "*2\r\n" + (Encode(Bulk("SYNCEND")) + Encode(Integer(n)))
    ensures EncodeMessage(R.Heartbeat(n))
         == "*3\r\n" + (Encode(Bulk("HEARTBEAT")) + (Encode(Integer(n)) + Encode(Bulk("leader"))))
  {
    hide Encode, EncodeAll, EncodeMessage, Itoa;
    Headers();
    Written(R.SyncEnd(n));
    Written(R.Heartbeat(n));
    InARow(Command(Elements(R.SyncEnd(n))).items);
    InARow(Command(Elements(R.Heartbeat(n))).items);
  }

  /** A value that is no message ends the loop: what comes after it is never read. */
  lemma BadMessageStops(f: R.Follower, t: string, rest: string)
    requires |t| <= MAX_INT
    ensures ReadStream(f, Encode(Bulk(t)) + rest) == f
    ensures ReadStream(f, Encode(Command([Text("REPLICATE"), Text("x"), Text("SET"), Text("k")])) + rest) == f
  {
    hide Encode, Parse;
    ParseEncode(Bulk(t), rest);
    var es := [Text("REPLICATE"), Text("x"), Text("SET"), Text("k")];
    BadNumber(es, rest);
  }

  lemma BadNumber(es: seq<Element>, rest: string)
    requires es == [Text("REPLICATE"), Text("x"), Text("SET"), Text("k")]
    ensures var r := Parse(Encode(Command(es)) + rest); r.Ok? && forall b :: Decode(r.value, b) == Abort
  {
    hide Encode, Parse, ToValues, Sendable;
    var fs := Command(es).items;
    assert forall i :: 0 <= i < 4 ==> fs[i] == ElementFrame(es[i]);
    FourSendable(fs);
    ParseEncode(Command(es), rest);
    CommandValue(es);
    CommandValues(es, fs);
    assert Atoi("x") == None;
  }

  lemma FourSendable(fs: seq<Frame>)
    requires |fs| == 4 && forall i :: 0 <= i < 4 ==> fs[i].Bulk? && |fs[i].text| <= 9
    ensures Sendable(Array(fs))
  {
  }

  /** Numbers are accepted as text too. */
  lemma NumbersAsText(n: int, k: string, v: string, m: int)
    requires MIN_INT <= n <= MAX_INT && MIN_INT <= m <= MAX_INT
    ensures Decode(Arr([Str("SYNCEND"), Str(Itoa(n))]), true) == Handle(R.SyncEnd(n))
    ensures Decode(Arr([Str("REPLICATE"), Str(Itoa(n)), Str("SET"), Str(k), Str(v), Str(Itoa(m))]), false)
         == Handle(R.Replicate(n, R.Set(k, v, m)))
  {
    AtoiItoa(n);
    AtoiItoa(m);
    hide Atoi, Itoa;
  }
}
