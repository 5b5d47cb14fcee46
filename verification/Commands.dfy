/** The data commands of internal/server/handler.go, issued one by one or queued and run by EXEC. */
module Commands {
  import opened Sequences
  import opened Options
  import opened Decimal
  import opened Durations
  import opened Resp
  import opened AofLog
  import M = CacheModel
  import R = Replication

  /** What the commands of one node change: the cache, the log and the replication messages. */
  datatype Node = Node(cache: M.Cache, aof: string, sent: seq<R.Write>)

  function Fresh(maxSize: int): Node {
    Node(M.Empty(maxSize), "", [])
  }

  /** role is "leader" or "follower"; leads says whether a replication leader is running. */
  datatype Setting = Setting(role: string, leads: bool)

  type Command = seq<string>

  const OK := "+OK\r\n"
  const QUEUED := "+QUEUED\r\n"
  const READONLY := "ERR READONLY You can't write " + "against a read only replica"

  function ErrorReply(text: string): string {
    Encode(Error(text))
  }

  function WrongCount(name: string): string {
    "ERR wrong number of arguments" + " for '" + name + "' command"
  }

  function UpperChar(c: char): char {
    if 'a' <= c <= 'z' then (c as int - 32) as char else c
  }

  function Upper(s: string): string {
    seq(|s|, i requires 0 <= i < |s| => UpperChar(s[i]))
  }

  /** The log entry of a replicated write. */
  function EntryFor(w: R.Write): Command {
    match w
    case Set(k, v, ttl) => ["SET", k, v, Itoa(ttl)]
    case Delete(k) => ["DEL", k]
  }

  /** Replicate if there is a leader, then append to the log. */
  function Record(set_: Setting, n: Node, w: R.Write): Node {
    n.(sent := if set_.leads then n.sent + [w] else n.sent, aof := n.aof + EncodeCommand(EntryFor(w)))
  }

  // ----- one command at a time

  /** The TTL argument: an error text, or seconds. */
  datatype Ttl = BadTtl(text: string) | Ttl(seconds: int)

  function SetTtl(cmd: Command): Ttl
    requires 3 <= |cmd| <= 5
  {
    if |cmd| == 5 then
      if Upper(cmd[3]) != "EX" then BadTtl("ERR syntax error")
      else if Atoi(cmd[4]).None? then BadTtl("ERR value is not an integer")
      else Ttl(Atoi(cmd[4]).value)
    else if |cmd| == 4 then
      if Atoi(cmd[3]).None? then BadTtl("Couldn't convert seconds to a string") else Ttl(Atoi(cmd[3]).value)
    else Ttl(0)
  }

  function HandleSet(set_: Setting, n: Node, cmd: Command, now: int): (Node, string) {
    if set_.role == "follower" then (n, ErrorReply(READONLY))
    else if |cmd| < 3 || |cmd| > 5 then (n, ErrorReply("Length of command doesn't match"))
    else
      match SetTtl(cmd)
      case BadTtl(text) => (n, ErrorReply(text))
      case Ttl(seconds) =>
        var ttl := Duration(seconds);
        var n' := n.(cache := M.Set(n.cache, cmd[1], cmd[2], ttl, now));
        (Record(set_, n', R.Set(cmd[1], cmd[2], Seconds(ttl))), OK)
  }

  function GetReply(r: Option<string>): string {
    match r
    case None => Encode(NullBulk)
    case Some(v) => Encode(Bulk(v))
  }

  function HandleGet(n: Node, cmd: Command, now: int): (Node, string) {
    if |cmd| != 2 then (n, ErrorReply("Length of command doesn't match"))
    else
      var (c, r) := M.Get(n.cache, cmd[1], now);
      (n.(cache := c), GetReply(r))
  }

  function HandleDelete(set_: Setting, n: Node, cmd: Command): (Node, string) {
    if set_.role == "follower" then (n, ErrorReply(READONLY))
    else if |cmd| != 2 then (n, ErrorReply("Length of command doesn't match"))
    else (Record(set_, n.(cache := M.Delete(n.cache, cmd[1])), R.Delete(cmd[1])), ":1\r\n")
  }

  /** SET, GET, DEL, DBSIZE, PING, and the reply to anything else. */
  function Serve(set_: Setting, n: Node, cmd: Command, now: int): (Node, string)
    requires cmd != []
  {
    match cmd[0]
    case "SET" => HandleSet(set_, n, cmd, now)
    case "GET" => HandleGet(n, cmd, now)
    case "DEL" => HandleDelete(set_, n, cmd)
    case "DBSIZE" => (n, Encode(Integer(|n.cache.items|)))
    case "PING" => (n, Encode(Simple("PONG")))
    case _ => (n, ErrorReply("ERR Unknown command '" + cmd[0] + "'"))
  }

  /** Commands served one after another; the clock gives the time of the i-th. */
  function ServeAll(set_: Setting, n: Node, cmds: seq<Command>, clock: nat -> int): (Node, seq<string>)
    requires forall i :: 0 <= i < |cmds| ==> cmds[i] != []
  {
    if cmds == [] then (n, [])
    else
      var last := |cmds| - 1;
      var (before, replies) := ServeAll(set_, n, cmds[..last], clock);
      var (after, reply) := Serve(set_, before, cmds[last], clock(last));
      (after, replies + [reply])
  }

  // ----- inside EXEC

  function ExecuteSet(c: M.Cache, cmd: Command, now: int): (M.Cache, string) {
    if |cmd| < 3 || |cmd| > 5 then (c, ErrorReply(WrongCount("set")))
    else if |cmd| == 5 && Upper(cmd[3]) != "EX" then (c, ErrorReply("ERR syntax error"))
    else if |cmd| > 3 && Atoi(cmd[|cmd| - 1]).None? then (c, ErrorReply("ERR value is not an integer or out of range"))
    else
      var seconds := if |cmd| > 3 then Atoi(cmd[|cmd| - 1]).value else 0;
      (M.Set(c, cmd[1], cmd[2], Duration(seconds), now), OK)
  }

  /** None is DBSIZE, which waits for a lock that EXEC itself holds. */
  function Execute(c: M.Cache, cmd: Command, now: int): Option<(M.Cache, string)>
    requires cmd != []
  {
    match cmd[0]
    case "SET" => Some(ExecuteSet(c, cmd, now))
    case "GET" =>
      if |cmd| != 2 then Some((c, ErrorReply(WrongCount("get"))))
      else Some((M.Get(c, cmd[1], now).0, GetReply(M.Get(c, cmd[1], now).1)))
    case "DEL" =>
      if |cmd| != 2 then Some((c, ErrorReply(WrongCount("del"))))
      else Some((M.Delete(c, cmd[1]), ":1\r\n"))
    case "DBSIZE" => None
    case "PING" => Some((c, Encode(Simple("PONG"))))
    case _ => Some((c, ErrorReply("ERR unknown command '" + cmd[0] + "'")))
  }

  function ExecuteAll(c: M.Cache, cmds: seq<Command>, clock: nat -> int): Option<(M.Cache, seq<string>)>
    requires forall i :: 0 <= i < |cmds| ==> cmds[i] != []
  {
    if cmds == [] then Some((c, []))
    else
      var last := |cmds| - 1;
      match ExecuteAll(c, cmds[..last], clock)
      case None => None
      case Some((before, replies)) =>
        match Execute(before, cmds[last], clock(last))
        case None => None
        case Some((after, reply)) => Some((after, replies + [reply]))
  }

  /** What the second loop of handleExec records for a command: a queued SET is recorded with whatever TTL
      parses, 0 if none does, whether or not the first loop applied it. */
  function Recorded(cmd: Command): Option<R.Write> {
    if |cmd| >= 3 && cmd[0] == "SET" then
      var seconds := if |cmd| == 4 || |cmd| == 5 then (match Atoi(cmd[|cmd| - 1]) case Some(n) => n case None => 0) else 0;
      Some(R.Set(cmd[1], cmd[2], seconds))
    else if |cmd| >= 2 && cmd[0] == "DEL" then Some(R.Delete(cmd[1]))
    else None
  }

  function RecordAll(set_: Setting, n: Node, cmds: seq<Command>): Node {
    if cmds == [] then n
    else
      var before := RecordAll(set_, n, cmds[..|cmds| - 1]);
      match Recorded(cmds[|cmds| - 1])
      case None => before
      case Some(w) => Record(set_, before, w)
  }

  function Concat(ss: seq<string>): string {
    if ss == [] then "" else Concat(ss[..|ss| - 1]) + ss[|ss| - 1]
  }

  /** The body of handleExec once the queue is known to be free of errors. */
  function Exec(set_: Setting, n: Node, cmds: seq<Command>, clock: nat -> int): Option<(Node, string)>
    requires forall i :: 0 <= i < |cmds| ==> cmds[i] != []
  {
    match ExecuteAll(n.cache, cmds, clock)
    case None => None
    case Some((c, replies)) =>
      Some((RecordAll(set_, n.(cache := c), cmds), "*" + Itoa(|replies|) + CRLF + Concat(replies)))
  }

  // ----- EXEC refines one-by-one execution

  predicate FitsDuration(seconds: int) {
    -MAX_SECONDS <= seconds <= MAX_SECONDS
  }

  /** Commands on which the two paths agree: a SET's TTL must parse and fit a Duration. */
  predicate WellFormed(cmd: Command) {
    if |cmd| == 0 then false
    else match cmd[0]
      case "SET" => 3 <= |cmd| <= 5 && SetTtl(cmd).Ttl? && FitsDuration(SetTtl(cmd).seconds)
      case "GET" => |cmd| == 2
      case "DEL" => |cmd| == 2
      case "PING" => true
      case _ => false
  }

  predicate AllWellFormed(cmds: seq<Command>) {
    forall i :: 0 <= i < |cmds| ==> WellFormed(cmds[i])
  }

  predicate IsWrite(cmd: Command) {
    cmd != [] && (cmd[0] == "SET" || cmd[0] == "DEL")
  }

  /** The node is no follower, or there is nothing to write. */
  predicate MayWrite(set_: Setting, cmds: seq<Command>) {
    forall i :: 0 <= i < |cmds| && IsWrite(cmds[i]) ==> set_.role != "follower"
  }

  /** One well-formed command: applying it and recording it separately is serving it. */
  lemma ExecuteIsServe(set_: Setting, n: Node, cmd: Command, now: int)
    requires WellFormed(cmd) && (IsWrite(cmd) ==> set_.role != "follower")
    ensures var r := Execute(n.cache, cmd, now);
            var recorded := match Recorded(cmd) case None => n case Some(w) => Record(set_, n, w);
            r.Some? && Serve(set_, n, cmd, now) == (recorded.(cache := r.value.0), r.value.1)
  {
    hide Encode, EncodeCommand, M.Set, M.Get, M.Delete, Upper;
    if cmd[0] == "SET" {
      DurationExact(SetTtl(cmd).seconds);
    }
  }

  lemma RecordIgnoresCache(set_: Setting, n: Node, w: R.Write, c: M.Cache)
    ensures Record(set_, n.(cache := c), w) == Record(set_, n, w).(cache := c)
  {
  }

  lemma {:induction false} RecordAllIgnoresCache(set_: Setting, n: Node, cmds: seq<Command>, c: M.Cache)
    ensures RecordAll(set_, n.(cache := c), cmds) == RecordAll(set_, n, cmds).(cache := c)
  {
    hide Record;
    if cmds != [] {
      RecordAllIgnoresCache(set_, n, cmds[..|cmds| - 1], c);
      if Recorded(cmds[|cmds| - 1]).Some? {
        RecordIgnoresCache(set_, RecordAll(set_, n, cmds[..|cmds| - 1]), Recorded(cmds[|cmds| - 1]).value, c);
      }
    }
  }

  /** For every queue of well-formed commands, without writes if the node is a follower, running all commands and then
      recording all of them leaves the same cache, log and messages, with the same replies, as serving the
      commands one by one. */
  lemma {:induction false} ExecIsSequential(set_: Setting, n: Node, cmds: seq<Command>, clock: nat -> int)
    requires AllWellFormed(cmds) && MayWrite(set_, cmds)
    ensures var r := ExecuteAll(n.cache, cmds, clock);
            && r.Some?
            && ServeAll(set_, n, cmds, clock) == (RecordAll(set_, n, cmds).(cache := r.value.0), r.value.1)
  {
    assert forall i :: 0 <= i < |cmds| ==> cmds[i] != [];
    hide Execute, Serve, Record, Recorded, WellFormed, IsWrite;
    if cmds != [] {
      var last := |cmds| - 1;
      ExecIsSequential(set_, n, cmds[..last], clock);
      var before := ServeAll(set_, n, cmds[..last], clock).0;
      ExecuteIsServe(set_, before, cmds[last], clock(last));
      var recorded := RecordAll(set_, n, cmds[..last]);
      if Recorded(cmds[last]).Some? {
        RecordIgnoresCache(set_, recorded, Recorded(cmds[last]).value, before.cache);
      }
    }
  }

  lemma ExecRefinesServe(set_: Setting, n: Node, cmds: seq<Command>, clock: nat -> int)
    requires AllWellFormed(cmds) && MayWrite(set_, cmds)
    ensures var (n', replies) := ServeAll(set_, n, cmds, clock);
            Exec(set_, n, cmds, clock) == Some((n', "*" + Itoa(|cmds|) + CRLF + Concat(replies)))
  {
    assert forall i :: 0 <= i < |cmds| ==> cmds[i] != [];
    hide Execute, Serve, Record, Recorded, WellFormed, IsWrite, Itoa, Concat;
    ExecIsSequential(set_, n, cmds, clock);
    RecordAllIgnoresCache(set_, n, cmds, ExecuteAll(n.cache, cmds, clock).value.0);
    ReplyCount(set_, n, cmds, clock);
  }

  lemma {:induction false} ReplyCount(set_: Setting, n: Node, cmds: seq<Command>, clock: nat -> int)
    requires forall i :: 0 <= i < |cmds| ==> cmds[i] != []
    ensures |ServeAll(set_, n, cmds, clock).1| == |cmds|
  {
    hide Serve;
    if cmds != [] {
      ReplyCount(set_, n, cmds[..|cmds| - 1], clock);
    }
  }

  lemma ItoaInjective(a: int, b: int)
    requires MIN_INT <= a <= MAX_INT && MIN_INT <= b <= MAX_INT && Itoa(a) == Itoa(b)
    ensures a == b
  {
    AtoiItoa(a);
    AtoiItoa(b);
  }

  lemma TtlInRange(cmd: Command)
    requires 3 <= |cmd| <= 5 && SetTtl(cmd).Ttl?
    ensures MIN_INT <= SetTtl(cmd).seconds <= MAX_INT
    ensures MIN_INT <= Seconds(Duration(SetTtl(cmd).seconds)) <= MAX_INT
  {
  }

  lemma SameSuffix(p: string, a: string, b: string)
    ensures p + a == p + b <==> a == b
  {
    assert (p + a)[|p|..] == a && (p + b)[|p|..] == b;
  }

  // ----- exactly when the two paths write the same log

  /** What serving a command writes to the log. */
  function ServedEntry(set_: Setting, cmd: Command): Option<Command> {
    if set_.role == "follower" then None
    else if 3 <= |cmd| <= 5 && cmd[0] == "SET" && SetTtl(cmd).Ttl? then
      Some(EntryFor(R.Set(cmd[1], cmd[2], Seconds(Duration(SetTtl(cmd).seconds)))))
    else if |cmd| == 2 && cmd[0] == "DEL" then Some(EntryFor(R.Delete(cmd[1])))
    else None
  }

  /** What EXEC writes for it. */
  function ExecEntry(cmd: Command): Option<Command> {
    match Recorded(cmd)
    case None => None
    case Some(w) => Some(EntryFor(w))
  }

  function Flatten(es: seq<Option<Command>>): seq<Command> {
    if es == [] then []
    else
      Flatten(es[..|es| - 1]) + (match es[|es| - 1] case None => [] case Some(e) => [e])
  }

  /** A write with a legal number of arguments, or no write. */
  predicate Sized(cmd: Command) {
    && cmd != [] && Loggable(cmd)
    && (cmd[0] == "SET" ==> 3 <= |cmd| <= 5) && (cmd[0] == "DEL" ==> |cmd| == 2)
  }

  lemma ServeLogs(set_: Setting, n: Node, cmd: Command, now: int)
    requires cmd != []
    ensures Serve(set_, n, cmd, now).0.aof == n.aof + LogOf(Flatten([ServedEntry(set_, cmd)]))
  {
    OneEntry(ServedEntry(set_, cmd));
    hide EncodeCommand, Flatten, LogOf, M.Set, M.Get, M.Delete, Encode, Itoa, Upper, Seconds, Duration;
    assert n.aof + "" == n.aof;
  }

  lemma OneEntry(e: Option<Command>)
    ensures LogOf(Flatten([e])) == match e case None => "" case Some(c) => EncodeCommand(c)
  {
    assert Flatten([e][..0]) == [];
    if e.Some? {
      assert Flatten([e]) == [e.value];
      LogOfOne(e.value);
    }
  }

  lemma FlattenSnoc(es: seq<Option<Command>>, e: Option<Command>)
    ensures Flatten(es + [e]) == Flatten(es) + Flatten([e])
    ensures LogOf(Flatten(es + [e])) == LogOf(Flatten(es)) + LogOf(Flatten([e]))
  {
    assert (es + [e])[..|es|] == es && [e][..0] == [];
    LogAppend(Flatten(es), Flatten([e]));
  }

  function ServedEntries(set_: Setting, cmds: seq<Command>): seq<Option<Command>> {
    seq(|cmds|, i requires 0 <= i < |cmds| => ServedEntry(set_, cmds[i]))
  }

  function ExecEntries(cmds: seq<Command>): seq<Option<Command>> {
    seq(|cmds|, i requires 0 <= i < |cmds| => ExecEntry(cmds[i]))
  }

  lemma ServedEntriesSnoc(set_: Setting, cmds: seq<Command>)
    requires cmds != []
    ensures var last := |cmds| - 1;
            ServedEntries(set_, cmds) == ServedEntries(set_, cmds[..last]) + [ServedEntry(set_, cmds[last])]
  {
    hide ServedEntry;
  }

  lemma ExecEntriesSnoc(cmds: seq<Command>)
    requires cmds != []
    ensures var last := |cmds| - 1; ExecEntries(cmds) == ExecEntries(cmds[..last]) + [ExecEntry(cmds[last])]
  {
    hide ExecEntry;
  }

  lemma {:induction false} ServeAllLogs(set_: Setting, n: Node, cmds: seq<Command>, clock: nat -> int)
    requires forall i :: 0 <= i < |cmds| ==> cmds[i] != []
    ensures ServeAll(set_, n, cmds, clock).0.aof == n.aof + LogOf(Flatten(ServedEntries(set_, cmds)))
  {
    hide Serve, ServedEntry;
    if cmds == [] {
      NoEntries(ServedEntries(set_, cmds));
      assert n.aof + "" == n.aof;
    } else {
      var last := |cmds| - 1;
      var es, e := ServedEntries(set_, cmds[..last]), ServedEntry(set_, cmds[last]);
      ServedEntriesSnoc(set_, cmds);
      hide Flatten, LogOf, ServedEntries;
      ServeAllLogs(set_, n, cmds[..last], clock);
      ServeLogs(set_, ServeAll(set_, n, cmds[..last], clock).0, cmds[last], clock(last));
      FlattenSnoc(es, e);
      Associate(n.aof, LogOf(Flatten(es)), LogOf(Flatten([e])));
    }
  }

  lemma RecordLogs(set_: Setting, n: Node, cmd: Command)
    ensures (match Recorded(cmd) case None => n case Some(w) => Record(set_, n, w)).aof == n.aof + LogOf(Flatten([ExecEntry(cmd)]))
  {
    OneEntry(ExecEntry(cmd));
    hide EncodeCommand, Flatten, LogOf, Itoa;
    assert n.aof + "" == n.aof;
  }

  lemma {:induction false} RecordAllLogs(set_: Setting, n: Node, cmds: seq<Command>)
    ensures RecordAll(set_, n, cmds).aof == n.aof + LogOf(Flatten(ExecEntries(cmds)))
  {
    hide Record, Recorded, ExecEntry;
    if cmds == [] {
      NoEntries(ExecEntries(cmds));
      assert n.aof + "" == n.aof;
    } else {
      var last := |cmds| - 1;
      var es, e := ExecEntries(cmds[..last]), ExecEntry(cmds[last]);
      ExecEntriesSnoc(cmds);
      hide Flatten, LogOf, ExecEntries;
      RecordAllLogs(set_, n, cmds[..last]);
      RecordLogs(set_, RecordAll(set_, n, cmds[..last]), cmds[last]);
      FlattenSnoc(es, e);
      Associate(n.aof, LogOf(Flatten(es)), LogOf(Flatten([e])));
    }
  }

  // ----- equal logs come from equal entries

  predicate AllLogged(cmds: seq<Command>) {
    forall i :: 0 <= i < |cmds| ==> cmds[i] != [] && Loggable(cmds[i])
  }

  lemma LogInjective(a: seq<Command>, b: seq<Command>)
    requires AllLogged(a) && AllLogged(b) && LogOf(a) == LogOf(b)
    ensures a == b
  {
    hide ReadEntries, LogOf, EncodeCommand;
    ReadLog(a, [], "");
    ReadLog(b, [], "");
    assert LogOf(a) + "" == LogOf(b) + "";
    NoneEmpty(a);
    NoneEmpty(b);
  }

  /** If es has an entry wherever ds has one, the flattened lists are equal only if the lists are. */
  lemma {:induction false} FlattenAgree(ds: seq<Option<Command>>, es: seq<Option<Command>>)
    requires |ds| == |es| && forall i :: 0 <= i < |ds| ==> (ds[i].Some? ==> es[i].Some?)
    ensures |Flatten(ds)| <= |Flatten(es)|
    ensures Flatten(ds) == Flatten(es) <==> ds == es
  {
    if ds != [] {
      var last := |ds| - 1;
      FlattenAgree(ds[..last], es[..last]);
      assert ds == ds[..last] + [ds[last]] && es == es[..last] + [es[last]];
      var d, e := Flatten(ds[..last]), Flatten(es[..last]);
      assert d + [] == d && e + [] == e;
      if ds[last].Some? && Flatten(ds) == Flatten(es) {
        assert |d| == |e| && d == Flatten(ds)[..|d|] && e == Flatten(es)[..|e|];
        assert Flatten(ds)[|d|] == ds[last].value && Flatten(es)[|e|] == es[last].value;
      }
    }
  }

  lemma {:induction false} FlattenLogged(es: seq<Option<Command>>)
    requires forall i :: 0 <= i < |es| && es[i].Some? ==> es[i].value != [] && Loggable(es[i].value)
    ensures AllLogged(Flatten(es))
  {
    if es != [] {
      FlattenLogged(es[..|es| - 1]);
    }
  }

  lemma LogsAgree(ds: seq<Option<Command>>, es: seq<Option<Command>>)
    requires |ds| == |es| && forall i :: 0 <= i < |ds| ==> (ds[i].Some? ==> es[i].Some?)
    requires forall i :: 0 <= i < |ds| && ds[i].Some? ==> ds[i].value != [] && Loggable(ds[i].value)
    requires forall i :: 0 <= i < |es| && es[i].Some? ==> es[i].value != [] && Loggable(es[i].value)
    ensures LogOf(Flatten(ds)) == LogOf(Flatten(es)) <==> ds == es
  {
    FlattenAgree(ds, es);
    FlattenLogged(ds);
    FlattenLogged(es);
    hide Flatten, LogOf;
    if LogOf(Flatten(ds)) == LogOf(Flatten(es)) {
      LogInjective(Flatten(ds), Flatten(es));
    }
  }

  /** For one command of legal size both paths write the same entry exactly when it is no write, or a well-formed
      write on a node that is not a follower. */
  lemma EntriesAlike(set_: Setting, cmd: Command)
    requires Sized(cmd)
    ensures ServedEntry(set_, cmd).Some? ==> ExecEntry(cmd).Some?
    ensures ServedEntry(set_, cmd).Some? ==> Loggable(ServedEntry(set_, cmd).value) && ServedEntry(set_, cmd).value != []
    ensures ExecEntry(cmd).Some? ==> Loggable(ExecEntry(cmd).value) && ExecEntry(cmd).value != []
    ensures ServedEntry(set_, cmd) == ExecEntry(cmd) <==> (IsWrite(cmd) ==> set_.role != "follower" && WellFormed(cmd))
  {
    if cmd[0] == "SET" {
      var logged := Recorded(cmd).value.ttl;
      RecordedInRange(cmd);
      ItoaLength(logged);
      if SetTtl(cmd).Ttl? {
        var seconds := SetTtl(cmd).seconds;
        assert seconds == logged;
        TtlInRange(cmd);
        ItoaLength(Seconds(Duration(seconds)));
        SecondsRoundTrip(seconds);
        hide Itoa, Upper, Atoi;
        if ServedEntry(set_, cmd) == ExecEntry(cmd) && set_.role != "follower" {
          assert ServedEntry(set_, cmd).value[3] == ExecEntry(cmd).value[3];
          ItoaInjective(Seconds(Duration(seconds)), logged);
        }
      }
    }
  }

  lemma RecordedInRange(cmd: Command)
    requires Sized(cmd) && cmd[0] == "SET"
    ensures MIN_INT <= Recorded(cmd).value.ttl <= MAX_INT
  {
  }

  /** For every queue of commands of legal size, on any node: EXEC and serving the commands one by one write the same
      log exactly when every write in the queue is well-formed and the node is no follower, or there is no write. */
  lemma QueueLogsAlike(set_: Setting, n: Node, cmds: seq<Command>, clock: nat -> int)
    requires forall i :: 0 <= i < |cmds| ==> Sized(cmds[i])
    ensures forall i :: 0 <= i < |cmds| ==> cmds[i] != []
    ensures ServeAll(set_, n, cmds, clock).0.aof == RecordAll(set_, n, cmds).aof
      <==> forall i :: 0 <= i < |cmds| && IsWrite(cmds[i]) ==> set_.role != "follower" && WellFormed(cmds[i])
  {
    assert forall i :: 0 <= i < |cmds| ==> cmds[i] != [];
    hide Serve, Record, Sized, ServedEntry, ExecEntry, WellFormed, IsWrite, Loggable;
    ServeAllLogs(set_, n, cmds, clock);
    RecordAllLogs(set_, n, cmds);
    var ds, es := ServedEntries(set_, cmds), ExecEntries(cmds);
    forall i | 0 <= i < |cmds|
      ensures ds[i].Some? ==> es[i].Some? && Loggable(ds[i].value) && ds[i].value != []
      ensures es[i].Some? ==> Loggable(es[i].value) && es[i].value != []
      ensures ds[i] == es[i] <==> (IsWrite(cmds[i]) ==> set_.role != "follower" && WellFormed(cmds[i]))
    {
      EntriesAlike(set_, cmds[i]);
    }
    hide ServeAll, RecordAll;
    LogsAgree(ds, es);
    SameSuffix(n.aof, LogOf(Flatten(ds)), LogOf(Flatten(es)));
    hide Flatten, LogOf;
    assert ds == es <==> forall i :: 0 <= i < |cmds| ==> ds[i] == es[i];
  }

  /** A follower refuses every SET and DEL, but the same commands queued between MULTI and EXEC go through. */
  lemma FollowerExecWrites(set_: Setting, n: Node, cmds: seq<Command>, clock: nat -> int)
    requires set_.role == "follower" && forall i :: 0 <= i < |cmds| ==> Sized(cmds[i]) && cmds[i][0] != "DBSIZE"
    ensures forall i :: 0 <= i < |cmds| ==> cmds[i] != []
    ensures Exec(set_, n, cmds, clock).Some?
    ensures ServeAll(set_, n, cmds, clock).0.aof == n.aof
    ensures Exec(set_, n, cmds, clock).value.0.aof == n.aof <==> forall i :: 0 <= i < |cmds| ==> !IsWrite(cmds[i])
  {
    assert forall i :: 0 <= i < |cmds| ==> cmds[i] != [];
    QueueLogsAlike(set_, n, cmds, clock);
    ServeAllLogs(set_, n, cmds, clock);
    NoEntries(ServedEntries(set_, cmds));
    hide Serve, Record, Execute, Sized, IsWrite, WellFormed, ServedEntry;
    ExecuteAllSucceeds(n.cache, cmds, clock);
    RecordAllIgnoresCache(set_, n, cmds, ExecuteAll(n.cache, cmds, clock).value.0);
    hide ServeAll, RecordAll;
    assert n.aof + "" == n.aof;
  }

  lemma {:induction false} NoEntries(es: seq<Option<Command>>)
    requires forall i :: 0 <= i < |es| ==> es[i].None?
    ensures LogOf(Flatten(es)) == ""
  {
    if es != [] {
      NoEntries(es[..|es| - 1]);
      assert Flatten(es) == Flatten(es[..|es| - 1]);
    }
  }

  lemma {:induction false} ExecuteAllSucceeds(c: M.Cache, cmds: seq<Command>, clock: nat -> int)
    requires forall i :: 0 <= i < |cmds| ==> cmds[i] != [] && cmds[i][0] != "DBSIZE"
    ensures ExecuteAll(c, cmds, clock).Some?
  {
    if cmds != [] {
      var last := |cmds| - 1;
      ExecuteAllSucceeds(c, cmds[..last], clock);
      ExecuteSucceeds(ExecuteAll(c, cmds[..last], clock).value.0, cmds[last], clock(last));
      hide Execute;
    }
  }

  lemma ExecuteSucceeds(c: M.Cache, cmd: Command, now: int)
    requires cmd != [] && cmd[0] != "DBSIZE"
    ensures Execute(c, cmd, now).Some?
  {
    hide M.Set, M.Get, M.Delete, ExecuteSet, Encode;
  }

  /** A transaction of one command. */
  lemma ExecOne(set_: Setting, n: Node, cmd: Command, clock: nat -> int)
    requires cmd != [] && Execute(n.cache, cmd, clock(0)).Some?
    ensures var r, n' := Execute(n.cache, cmd, clock(0)).value, n.(cache := Execute(n.cache, cmd, clock(0)).value.0);
            Exec(set_, n, [cmd], clock)
            == Some((match Recorded(cmd) case None => n' case Some(w) => Record(set_, n', w), "*1\r\n" + r.1))
  {
    hide Execute, Recorded, Record;
    var reply, none: seq<string> := Execute(n.cache, cmd, clock(0)).value.1, [];
    assert [cmd][..0] == [] && none + [reply] == [reply];
    assert ExecuteAll(n.cache, [], clock) == Some((n.cache, none));
    assert RecordAll(set_, n.(cache := Execute(n.cache, cmd, clock(0)).value.0), []) == n.(cache := Execute(n.cache, cmd, clock(0)).value.0);
    assert Concat(none) == "" && [reply][..0] == none && Concat([reply]) == "" + reply;
    assert Itoa(1) == "1" && "*" + Itoa(1) + CRLF == "*1\r\n" && "" + reply == reply;
  }

  /** The failing input: a SET with a TTL that is no number. Sent directly it leaves the node alone. EXEC refuses it too,
      but logs it without a TTL, so that recovery brings back a value the cache never held. */
  lemma RejectedSetIsLogged(set_: Setting, n: Node, k: string, v: string, ttl: string, clock: nat -> int, now: int)
    requires Atoi(ttl).None?
    ensures var cmd := ["SET", k, v, ttl];
            var x := Exec(set_, n, [cmd], clock);
            && Serve(set_, n, cmd, now).0 == n
            && x.Some? && x.value.0.cache == n.cache && x.value.0.aof == n.aof + EncodeCommand(["SET", k, v, "0"])
            && x.value.1 == "*1\r\n" + ErrorReply("ERR value is not an integer or out of range")
  {
    var cmd := ["SET", k, v, ttl];
    assert Itoa(0) == "0";
    hide Encode, EncodeCommand, Atoi, M.Set, Exec, Itoa;
    ExecOne(set_, n, cmd, clock);
  }
}
