/** What a client reads in reply to a data command, said without the server's functions: by a dictionary of the commands
    carried out so far, and in the values of the Python client. */
module Answers {
  import opened Options
  import opened Decimal
  import opened Durations
  import opened Resp
  import opened Commands
  import opened CacheContents
  import C = PyClient
  import M = CacheModel

  // ----- the reference

  predicate IsEx(word: string) {
    word == "EX" || word == "ex" || word == "Ex" || word == "eX"
  }

  /** Why a command sent directly is refused, if it is. */
  function Refusal(set_: Setting, cmd: Command): Option<string>
    requires cmd != []
  {
    var name, n := cmd[0], |cmd|;
    if (name == "SET" || name == "DEL") && set_.role == "follower" then
      Some("ERR READONLY You can't write " + "against a read only replica")
    else if WrongSize(cmd) then Some("Length of command doesn't match")
    else if name == "SET" && n == 5 && !IsEx(cmd[3]) then Some("ERR syntax error")
    else if name == "SET" && n == 5 && Atoi(cmd[4]).None? then Some("ERR value is not an integer")
    else if name == "SET" && n == 4 && Atoi(cmd[3]).None? then Some("Couldn't convert seconds to a string")
    else if name !in {"SET", "GET", "DEL", "DBSIZE", "PING"} then Some("ERR Unknown command '" + name + "'")
    else None
  }

  /** Why EXEC refuses a queued command, if it does; it does not ask for the role. */
  function ExecRefusal(cmd: Command): Option<string>
    requires cmd != []
  {
    var name, n := cmd[0], |cmd|;
    if WrongSize(cmd) then Some("ERR wrong number of arguments" + " for '" + Lower(name) + "' command")
    else if name == "SET" && n == 5 && !IsEx(cmd[3]) then Some("ERR syntax error")
    else if name == "SET" && n > 3 && Atoi(cmd[n - 1]).None? then Some("ERR value is not an integer or out of range")
    else if name !in {"SET", "GET", "DEL", "PING"} then Some("ERR unknown command '" + name + "'")
    else None
  }

  /** SET takes two to four arguments, GET and DEL one. */
  predicate WrongSize(cmd: Command) {
    cmd != [] && match cmd[0]
                 case "SET" => !(3 <= |cmd| <= 5)
                 case "GET" => |cmd| != 2
                 case "DEL" => |cmd| != 2
                 case _ => false
  }

  function Lower(name: string): string {
    if name == "SET" then "set" else if name == "GET" then "get" else "del"
  }

  /** The last word of a SET with more than two arguments is its TTL in seconds; what is not positive, once it has
      wrapped, is no TTL. */
  function Deadline(cmd: Command, now: int): M.Expiry {
    if |cmd| <= 3 || Atoi(cmd[|cmd| - 1]).None? then M.Never
    else
      var ttl := Duration(Atoi(cmd[|cmd| - 1]).value);
      if ttl > 0 then M.At(now + ttl) else M.Never
  }

  /** The dictionary after a command that is refused or not. */
  function Learn(refusal: Option<string>, d: Dictionary, cmd: Command, now: int): Dictionary {
    if refusal.Some? then d
    else if |cmd| >= 3 && cmd[0] == "SET" then d[cmd[1] := M.Entry(cmd[2], Deadline(cmd, now))]
    else if |cmd| >= 2 && cmd[0] == "DEL" then d - {cmd[1]}
    else d
  }

  predicate Unexpired(d: Dictionary, k: string, now: int) {
    k in d && (d[k].expiry.At? ==> now <= d[k].expiry.time)
  }

  /** What the client reads when the cache stores these keys of the dictionary. */
  function Reading(refusal: Option<string>, d: Dictionary, stored: set<string>, cmd: Command, now: int): C.Py {
    if refusal.Some? then C.PyError(refusal.value)
    else if |cmd| >= 2 && cmd[0] == "GET" then
      if cmd[1] in stored && Unexpired(d, cmd[1], now) then C.PyStr(d[cmd[1]].value) else C.PyNone
    else if cmd == [] || cmd[0] == "PING" then C.PyStr("PONG")
    else if cmd[0] == "SET" then C.PyStr("OK")
    else if cmd[0] == "DEL" then C.PyInt(1)
    else C.PyInt(|stored|)
  }

  /** The bytes are read as this value, whatever follows them. */
  ghost predicate ReadAs(reply: string, v: C.Py) {
    forall rest :: C.ParseReply(reply + rest) == C.Got(v, rest)
  }

  // ----- reading the bytes

  lemma ReadFrame(f: Frame)
    requires Sendable(f)
    ensures ReadAs(Encode(f), C.ToPy(f))
  {
    hide C.ParseReply, Encode, Sendable, C.ToPy;
    forall rest ensures C.ParseReply(Encode(f) + rest) == C.Got(C.ToPy(f), rest) {
      C.ReplyRoundTrip(f, rest);
    }
  }

  lemma ReadBulk(t: string)
    ensures ReadAs(Encode(Bulk(t)), C.PyStr(t))
  {
    hide C.ParseReply, Encode;
    forall rest ensures C.ParseReply(Encode(Bulk(t)) + rest) == C.Got(C.PyStr(t), rest) {
      C.ReplyBulk(t, rest);
    }
  }

  /** An error is read as its text exactly if the text holds no line break. */
  lemma ReadError(text: string)
    ensures ReadAs(ErrorReply(text), C.PyError(text)) <==> C.OneLine(text)
  {
    hide C.ReadLine, C.OneLine;
    forall rest ensures C.ParseReply(ErrorReply(text) + rest) == C.Got(C.PyError(text), rest) <==> C.OneLine(text) {
      assert (ErrorReply(text) + rest)[1..] == text + CRLF + rest;
      C.ReadLineOf(text, rest);
    }
    assert C.ParseReply(ErrorReply(text) + "") == C.Got(C.PyError(text), "") <==> C.OneLine(text);
  }

  lemma NoBreak(t: string)
    requires '\r' !in t
    ensures C.OneLine(t)
  {
  }

  lemma Enclosed(before: string, name: string, after: string)
    requires '\r' !in before && '\n' !in after && '\r' !in after
    ensures C.OneLine(before + name + after) <==> C.OneLine(name)
  {
    var t := before + name + after;
    assert forall i :: 0 <= i < |name| ==> t[|before| + i] == name[i];
    if C.OneLine(t) {
      forall i | 0 < i < |name| ensures !(name[i - 1] == '\r' && name[i] == '\n') {
        assert t[|before| + i - 1] == name[i - 1] && t[|before| + i] == name[i];
      }
    }
    if C.OneLine(name) {
      forall i | 0 < i < |t| ensures !(t[i - 1] == '\r' && t[i] == '\n') {
        if i - 1 < |before| {
          assert t[i - 1] == before[i - 1];
        } else if i < |before| + |name| {
          assert t[i - 1] == name[i - 1 - |before|];
        } else {
          assert t[i] == after[i - |before| - |name|];
        }
      }
    }
  }

  lemma LongTexts(name: string)
    requires '\r' !in name
    ensures C.OneLine("ERR READONLY You can't write " + "against a read only replica")
    ensures C.OneLine("ERR wrong number of arguments" + " for '" + name + "' command")
  {
    assert '\r' !in "ERR READONLY You can't write " && '\r' !in "against a read only replica";
    NoBreak("ERR READONLY You can't write " + "against a read only replica");
    assert '\r' !in "ERR wrong number of arguments" && '\r' !in " for '" && '\r' !in "' command";
    NoBreak("ERR wrong number of arguments" + " for '" + name + "' command");
  }

  lemma SizeTexts()
    ensures C.OneLine("Length of command doesn't match") && C.OneLine("ERR syntax error")
  {
    NoBreak("Length of command doesn't match");
    NoBreak("ERR syntax error");
  }

  lemma TtlText()
    ensures C.OneLine("ERR value is not an integer")
  {
    NoBreak("ERR value is not an integer");
  }

  lemma SecondsText()
    ensures C.OneLine("Couldn't convert seconds to a string")
  {
    NoBreak("Couldn't convert seconds to a string");
  }

  lemma ExecTtlText()
    ensures C.OneLine("ERR value is not an integer or out of range")
  {
    NoBreak("ERR value is not an integer or out of range");
  }

  lemma RefusalOneLine(set_: Setting, cmd: Command)
    requires cmd != [] && C.OneLine(cmd[0]) && Refusal(set_, cmd).Some?
    ensures C.OneLine(Refusal(set_, cmd).value)
  {
    hide Atoi, IsEx, C.OneLine, WrongSize;
    LongTexts("");
    SizeTexts();
    TtlText();
    SecondsText();
    Enclosed("ERR Unknown command '", cmd[0], "'");
  }

  lemma ExecRefusalOneLine(cmd: Command)
    requires cmd != [] && C.OneLine(cmd[0]) && ExecRefusal(cmd).Some?
    ensures C.OneLine(ExecRefusal(cmd).value)
  {
    hide Atoi, IsEx, C.OneLine, WrongSize;
    LongTexts(Lower(cmd[0]));
    SizeTexts();
    ExecTtlText();
    Enclosed("ERR unknown command '", cmd[0], "'");
  }

  lemma UpperEx(word: string)
    ensures Upper(word) == "EX" <==> IsEx(word)
  {
    if |word| == 2 {
      assert Upper(word)[0] == UpperChar(word[0]) && Upper(word)[1] == UpperChar(word[1]);
      assert word == [word[0], word[1]];
    }
  }

  // ----- one command

  /** What a lookup in the cache answers, and what the dictionary says. */
  lemma GetReads(c: M.Cache, d: Dictionary, k: string, now: int)
    requires Within(c.items, d)
    ensures ReadAs(GetReply(M.Get(c, k, now).1),
                   if k in c.items && Unexpired(d, k, now) then C.PyStr(d[k].value) else C.PyNone)
  {
    hide ReadAs, Encode;
    if k in c.items && Unexpired(d, k, now) {
      ReadBulk(d[k].value);
    } else {
      ReadFrame(NullBulk);
    }
  }

  lemma ReadInteger(n: int)
    ensures ReadAs(Encode(Integer(n)), C.PyInt(n))
  {
    hide C.ReadInt, Itoa;
    forall rest ensures C.ParseReply(Encode(Integer(n)) + rest) == C.Got(C.PyInt(n), rest) {
      assert (Encode(Integer(n)) + rest)[1..] == Itoa(n) + CRLF + rest;
      C.ReadIntOf(n, rest);
    }
  }

  lemma PlainReplies()
    ensures ReadAs("+OK\r\n", C.PyStr("OK")) && ReadAs(Encode(Simple("PONG")), C.PyStr("PONG"))
    ensures ReadAs(":1\r\n", C.PyInt(1))
  {
    hide ReadAs;
    ReadFrame(Simple("OK"));
    assert Encode(Simple("OK")) == "+OK\r\n";
    ReadFrame(Simple("PONG"));
    ReadInteger(1);
    assert Itoa(1) == "1" && Encode(Integer(1)) == ":1\r\n";
  }

  /** Serving a command that is refused leaves the node alone and gives the reason. */
  lemma ServeRefuses(set_: Setting, n: Node, cmd: Command, now: int)
    requires cmd != []
    ensures Refusal(set_, cmd).Some? ==> Serve(set_, n, cmd, now) == (n, ErrorReply(Refusal(set_, cmd).value))
    ensures Refusal(set_, cmd).None? ==> cmd[0] in {"SET", "GET", "DEL", "DBSIZE", "PING"} && !WrongSize(cmd)
    ensures Refusal(set_, cmd).None? && cmd[0] == "SET" ==> Serve(set_, n, cmd, now).1 == "+OK\r\n"
    ensures Refusal(set_, cmd).None? && cmd[0] == "DEL" ==> Serve(set_, n, cmd, now).1 == ":1\r\n"
  {
    if |cmd| == 5 {
      UpperEx(cmd[3]);
    }
    hide Encode, Atoi, Upper, IsEx, M.Set, M.Get, M.Delete, Record;
  }

  /** The reply to a command sent directly is read as the dictionary says. */
  lemma ServeReads(set_: Setting, n: Node, d: Dictionary, cmd: Command, now: int)
    requires cmd != [] && Within(n.cache.items, d) && C.OneLine(cmd[0])
    ensures ReadAs(Serve(set_, n, cmd, now).1, Reading(Refusal(set_, cmd), d, n.cache.items.Keys, cmd, now))
  {
    ServeRefuses(set_, n, cmd, now);
    PlainReplies();
    assert |n.cache.items.Keys| == |n.cache.items|;
    hide ReadAs, C.OneLine, Within, Encode, Refusal, HandleSet, HandleDelete;
    var refusal := Refusal(set_, cmd);
    if refusal.Some? {
      RefusalOneLine(set_, cmd);
      ReadError(refusal.value);
    } else if cmd[0] == "GET" {
      hide GetReply, M.Get;
      GetReads(n.cache, d, cmd[1], now);
    } else if cmd[0] == "DBSIZE" {
      ReadInteger(|n.cache.items|);
    }
  }

  lemma ExecuteRefuses(c: M.Cache, cmd: Command, now: int)
    requires cmd != [] && cmd[0] != "DBSIZE"
    ensures Execute(c, cmd, now).Some?
    ensures ExecRefusal(cmd).Some? ==> Execute(c, cmd, now) == Some((c, ErrorReply(ExecRefusal(cmd).value)))
    ensures ExecRefusal(cmd).None? ==> cmd[0] in {"SET", "GET", "DEL", "PING"} && !WrongSize(cmd)
    ensures ExecRefusal(cmd).None? && cmd[0] == "SET" ==> Execute(c, cmd, now).value.1 == "+OK\r\n"
    ensures ExecRefusal(cmd).None? && cmd[0] == "DEL" ==> Execute(c, cmd, now).value.1 == ":1\r\n"
  {
    if |cmd| == 5 {
      UpperEx(cmd[3]);
    }
    hide Encode, Atoi, Upper, IsEx, M.Set, M.Get, M.Delete;
  }

  /** So is the reply to a command that EXEC runs. */
  lemma ExecuteReads(c: M.Cache, d: Dictionary, cmd: Command, now: int)
    requires cmd != [] && cmd[0] != "DBSIZE" && Within(c.items, d) && C.OneLine(cmd[0])
    ensures Execute(c, cmd, now).Some?
    ensures ReadAs(Execute(c, cmd, now).value.1, Reading(ExecRefusal(cmd), d, c.items.Keys, cmd, now))
  {
    ExecuteRefuses(c, cmd, now);
    PlainReplies();
    hide ReadAs, C.OneLine, Within, Encode, ExecRefusal, ExecuteSet;
    var refusal := ExecRefusal(cmd);
    if refusal.Some? {
      ExecRefusalOneLine(cmd);
      ReadError(refusal.value);
    } else if cmd[0] == "GET" {
      hide GetReply, M.Get;
      GetReads(c, d, cmd[1], now);
    }
  }

  // ----- what a command leaves behind

  /** What a command that is carried out does to the cache. */
  function OpOf(refusal: Option<string>, cmd: Command): Option<M.Op> {
    if refusal.Some? then None
    else if |cmd| >= 3 && cmd[0] == "SET" then
      Some(M.OpSet(cmd[1], cmd[2], if |cmd| > 3 && Atoi(cmd[|cmd| - 1]).Some? then Duration(Atoi(cmd[|cmd| - 1]).value) else 0))
    else if |cmd| == 2 && cmd[0] == "DEL" then Some(M.OpDelete(cmd[1]))
    else if |cmd| == 2 && cmd[0] == "GET" then Some(M.OpGet(cmd[1]))
    else None
  }

  function After(c: M.Cache, op: Option<M.Op>, now: int): M.Cache {
    if op.None? then c else M.Step(c, M.Event(op.value, now))
  }

  lemma ServeIsStep(set_: Setting, n: Node, cmd: Command, now: int)
    requires cmd != []
    ensures Serve(set_, n, cmd, now).0.cache == After(n.cache, OpOf(Refusal(set_, cmd), cmd), now)
  {
    ServeRefuses(set_, n, cmd, now);
    assert Duration(0) == 0;
    hide Encode, Atoi, Upper, IsEx, M.Set, M.Get, M.Delete, Duration, Seconds, Refusal, ErrorReply;
  }

  lemma ExecuteIsStep(c: M.Cache, cmd: Command, now: int)
    requires cmd != [] && cmd[0] != "DBSIZE"
    ensures Execute(c, cmd, now).Some? && Execute(c, cmd, now).value.0 == After(c, OpOf(ExecRefusal(cmd), cmd), now)
  {
    ExecuteRefuses(c, cmd, now);
    assert Duration(0) == 0;
    hide Encode, Atoi, Upper, IsEx, M.Set, M.Get, M.Delete, Duration, ExecRefusal, ErrorReply;
  }

  lemma StepLearns(c: M.Cache, d: Dictionary, refusal: Option<string>, cmd: Command, now: int)
    requires M.Valid(c) && Within(c.items, d) && (cmd == [] || WrongSize(cmd) ==> refusal.Some?)
    ensures var c' := After(c, OpOf(refusal, cmd), now);
            M.Valid(c') && c'.maxSize == c.maxSize && Within(c'.items, Learn(refusal, d, cmd, now))
  {
    hide M.Step, M.Valid, Within, Atoi, Duration;
    var op := OpOf(refusal, cmd);
    if op.Some? {
      StepWithin(c, d, M.Event(op.value, now));
      M.StepValid(c, M.Event(op.value, now));
    }
  }

  lemma StepFits(c: M.Cache, refusal: Option<string>, cmd: Command, now: int, keys: set<string>)
    requires M.Roomy(c, keys) && (cmd == [] || WrongSize(cmd) ==> refusal.Some?)
    requires |cmd| >= 3 && cmd[0] == "SET" && refusal.None? ==> cmd[1] in keys
    ensures var c' := After(c, OpOf(refusal, cmd), now);
            M.Roomy(c', keys) && c'.items == Learn(refusal, c.items, cmd, now)
  {
    var op := OpOf(refusal, cmd);
    if op.Some? {
      StepNoted(c, M.Event(op.value, now), keys);
      M.StepValid(c, M.Event(op.value, now));
    }
    hide M.Step, M.Valid, Atoi, Duration;
  }

  // ----- commands sent directly, one after another

  function Learned(set_: Setting, cmds: seq<Command>, clock: nat -> int): Dictionary
    requires forall i :: 0 <= i < |cmds| ==> cmds[i] != []
  {
    if cmds == [] then map[]
    else
      var last := |cmds| - 1;
      Learn(Refusal(set_, cmds[last]), Learned(set_, cmds[..last], clock), cmds[last], clock(last))
  }

  lemma {:induction false} ServedLearns(set_: Setting, maxSize: int, cmds: seq<Command>, clock: nat -> int)
    requires forall i :: 0 <= i < |cmds| ==> cmds[i] != []
    ensures var c := ServeAll(set_, Fresh(maxSize), cmds, clock).0.cache;
            M.Valid(c) && Within(c.items, Learned(set_, cmds, clock))
  {
    if cmds != [] {
      hide Serve, Refusal, Learn, OpOf, After, M.Valid, Within;
      var last := |cmds| - 1;
      ServedLearns(set_, maxSize, cmds[..last], clock);
      var n := ServeAll(set_, Fresh(maxSize), cmds[..last], clock).0;
      ServeIsStep(set_, n, cmds[last], clock(last));
      ServeRefuses(set_, n, cmds[last], clock(last));
      StepLearns(n.cache, Learned(set_, cmds[..last], clock), Refusal(set_, cmds[last]), cmds[last], clock(last));
    }
  }

  /** Every SET that is not refused names one of the keys. */
  predicate SetsWithin(set_: Setting, cmds: seq<Command>, keys: set<string>) {
    forall i :: 0 <= i < |cmds| ==>
      cmds[i] != [] && (|cmds[i]| >= 3 && cmds[i][0] == "SET" && Refusal(set_, cmds[i]).None? ==> cmds[i][1] in keys)
  }

  lemma {:induction false} ServedFits(set_: Setting, maxSize: int, cmds: seq<Command>, clock: nat -> int, keys: set<string>)
    requires SetsWithin(set_, cmds, keys) && |keys| <= maxSize
    ensures var c := ServeAll(set_, Fresh(maxSize), cmds, clock).0.cache;
            M.Roomy(c, keys) && c.items == Learned(set_, cmds, clock)
  {
    if cmds != [] {
      hide Serve, Refusal, Learn, OpOf, After, M.Roomy;
      var last := |cmds| - 1;
      ServedFits(set_, maxSize, cmds[..last], clock, keys);
      var n := ServeAll(set_, Fresh(maxSize), cmds[..last], clock).0;
      ServeIsStep(set_, n, cmds[last], clock(last));
      ServeRefuses(set_, n, cmds[last], clock(last));
      StepFits(n.cache, Refusal(set_, cmds[last]), cmds[last], clock(last), keys);
    }
  }

  /** After any commands, refused ones included, and whatever the capacity: the reply to one more is read by the client as
      the dictionary of the commands says, for the keys that are stored; and all keys of the dictionary are stored
      while the keys ever set fit the capacity. */
  lemma ServedAnswers(set_: Setting, maxSize: int, cmds: seq<Command>, clock: nat -> int, cmd: Command, now: int,
                      keys: set<string>)
    requires cmd != [] && C.OneLine(cmd[0]) && forall i :: 0 <= i < |cmds| ==> cmds[i] != []
    ensures var n, d := ServeAll(set_, Fresh(maxSize), cmds, clock).0, Learned(set_, cmds, clock);
            && Within(n.cache.items, d)
            && ReadAs(Serve(set_, n, cmd, now).1, Reading(Refusal(set_, cmd), d, n.cache.items.Keys, cmd, now))
            && (SetsWithin(set_, cmds, keys) && |keys| <= maxSize ==> n.cache.items.Keys == d.Keys)
  {
    hide ServeAll, Learned, Reading, Refusal, ReadAs, Serve, SetsWithin, Within, C.OneLine, M.Roomy;
    ServedLearns(set_, maxSize, cmds, clock);
    ServeReads(set_, ServeAll(set_, Fresh(maxSize), cmds, clock).0, Learned(set_, cmds, clock), cmd, now);
    if SetsWithin(set_, cmds, keys) && |keys| <= maxSize {
      ServedFits(set_, maxSize, cmds, clock, keys);
    }
  }

  /** The exact condition on the name of an unknown command: it holds no line break. */
  lemma UnknownAnswer(set_: Setting, n: Node, cmd: Command, now: int)
    requires cmd != [] && cmd[0] !in {"SET", "GET", "DEL", "DBSIZE", "PING"}
    ensures ReadAs(Serve(set_, n, cmd, now).1, C.PyError("ERR Unknown command '" + cmd[0] + "'")) <==> C.OneLine(cmd[0])
  {
    hide ReadAs, Encode, C.OneLine;
    ReadError("ERR Unknown command '" + cmd[0] + "'");
    Enclosed("ERR Unknown command '", cmd[0], "'");
  }

  /** End to end: a value set with a TTL is read back until its deadline and no longer. */
  lemma SetThenGet(set_: Setting, n: Node, k: string, v: string, seconds: int, now: int, later: int)
    requires set_.role != "follower" && M.Valid(n.cache) && FitsDuration(seconds)
    ensures var n' := Serve(set_, n, ["SET", k, v, "EX", Itoa(seconds)], now).0;
            ReadAs(Serve(set_, n', ["GET", k], later).1,
                   if seconds <= 0 || later <= now + seconds * 1_000_000_000 then C.PyStr(v) else C.PyNone)
  {
    var cmd := ["SET", k, v, "EX", Itoa(seconds)];
    AtoiItoa(seconds);
    DurationExact(seconds);
    hide ReadAs, Encode, Record, C.OneLine, Itoa, Duration;
    ServeIsStep(set_, n, cmd, now);
    var n' := Serve(set_, n, cmd, now).0;
    var d := n'.cache.items;
    assert k in d && d[k] == M.Entry(v, M.ExpiryOf(Duration(seconds), now));
    GetReads(n'.cache, d, k, later);
  }
}
