/** The append-only log as bytes: what ReadOperations and LoadSnapshot (internal/persistence) make of any
    file, and in particular of a log that was cut off in the middle of a command. */
module AofLog {
  import opened Options
  import opened Decimal
  import opened Resp
  import opened RespReader

  /** A logged command: an array of bulk strings. */
  function Words(args: seq<string>): seq<Frame> {
    seq(|args|, i requires 0 <= i < |args| => Bulk(args[i]))
  }

  function CommandFrame(args: seq<string>): Frame {
    Array(Words(args))
  }

  function EncodeCommand(args: seq<string>): string {
    Encode(CommandFrame(args))
  }

  function LogOf(cmds: seq<seq<string>>): string {
    if cmds == [] then "" else EncodeCommand(cmds[0]) + LogOf(cmds[1..])
  }

  predicate Loggable(args: seq<string>) {
    |args| <= MAX_INT && forall i :: 0 <= i < |args| ==> |args[i]| <= MAX_INT
  }

  predicate AllLoggable(cmds: seq<seq<string>>) {
    forall i :: 0 <= i < |cmds| ==> Loggable(cmds[i])
  }

  /** The conversion loop of both readers: it stops at the first element that is not a string, and the
      remaining parts stay empty. */
  function Parts(items: seq<Value>): (parts: seq<string>)
    ensures |parts| == |items|
  {
    if items == [] then []
    else if items[0].Str? then [items[0].s] + Parts(items[1..])
    else seq(|items|, _ => "")
  }

  /** Every non-empty array in the file, in order; entries that do not parse are skipped, io.EOF ends the
      file, and a negative length (other than -1) panics. */
  function ReadEntries(s: string): Option<seq<seq<string>>>
    decreases |s|
  {
    match Parse(s)
    case Fail(Eof, _) => Some([])
    case Fail(Panic, _) => None
    case Fail(_, rest) => ReadEntries(rest)
    case Ok(v, rest) =>
      if s == "" then Some([])
      else
        match ReadEntries(rest)
        case None => None
        case Some(more) => Some(EntryOf(v) + more)
  }

  // ----- a whole log

  lemma {:induction false} WordValues(args: seq<string>, items: seq<Value>)
    requires items == ToValues(Words(args))
    ensures Parts(items) == args && (items == [] <==> args == [])
  {
    if args != [] {
      assert Words(args)[0] == Bulk(args[0]) && Words(args)[1..] == Words(args[1..]);
      WordValues(args[1..], items[1..]);
      assert args == [args[0]] + args[1..];
    }
  }

  lemma CommandSendable(args: seq<string>)
    requires Loggable(args)
    ensures Sendable(CommandFrame(args))
  {
    assert forall i :: 0 <= i < |args| ==> Words(args)[i] == Bulk(args[i]);
  }

  function NonEmpty(cmds: seq<seq<string>>): seq<seq<string>> {
    if cmds == [] then []
    else (if cmds[0] == [] then [] else [cmds[0]]) + NonEmpty(cmds[1..])
  }

  lemma {:induction false} NoneEmpty(cmds: seq<seq<string>>)
    requires forall i :: 0 <= i < |cmds| ==> cmds[i] != []
    ensures NonEmpty(cmds) == cmds
  {
    if cmds != [] {
      NoneEmpty(cmds[1..]);
      assert cmds == [cmds[0]] + cmds[1..];
    }
  }

  lemma ReadCommand(args: seq<string>, rest: string)
    requires Loggable(args)
    ensures ReadEntries(EncodeCommand(args) + rest)
      == match ReadEntries(rest) {
           case None => None
           case Some(more) => Some(NonEmpty([args]) + more)
         }
  {
    hide Parse, Encode, ToValues, Words, Parts;
    CommandSendable(args);
    ParseEncode(CommandFrame(args), rest);
    ParsedCommand(args);
    WordValues(args, ToValues(Words(args)));
    assert NonEmpty([args]) == (if args == [] then [] else [args]);
    assert EncodeCommand(args) + rest != "";
  }

  lemma ParsedCommand(args: seq<string>)
    ensures ToValue(CommandFrame(args)) == Arr(ToValues(Words(args)))
  {
  }

  /** How many commands lie wholly within the first n bytes. */
  function Whole(cmds: seq<seq<string>>, n: nat): (k: nat)
    ensures k <= |cmds|
  {
    if cmds == [] || n < |EncodeCommand(cmds[0])| then 0
    else 1 + Whole(cmds[1..], n - |EncodeCommand(cmds[0])|)
  }

  lemma {:induction false} WholeIsMost(cmds: seq<seq<string>>, n: nat)
    ensures |LogOf(cmds[..Whole(cmds, n)])| <= n
    ensures Whole(cmds, n) < |cmds| ==> n < |LogOf(cmds[..Whole(cmds, n) + 1])|
  {
    hide EncodeCommand;
    var k := Whole(cmds, n);
    if k == 0 {
      if cmds != [] {
        assert cmds[..1][0] == cmds[0];
      }
    } else {
      WholeIsMost(cmds[1..], n - |EncodeCommand(cmds[0])|);
      assert cmds[..k][0] == cmds[0] && cmds[..k][1..] == cmds[1..][..k - 1];
      if k < |cmds| {
        assert cmds[..k + 1][0] == cmds[0] && cmds[..k + 1][1..] == cmds[1..][..k];
      }
    }
  }

  lemma ReadCutCommand(p: string, args: seq<string>)
    requires Loggable(args) && StrictPrefix(p, EncodeCommand(args))
    ensures ReadEntries(p) == Some([])
  {
    hide Encode, ParseArray;
    CommandSendable(args);
    ParseCut(p, CommandFrame(args));
  }

  /** A log cut after any number of bytes yields exactly the commands that lie wholly before the cut. */
  lemma {:induction false} TornLog(cmds: seq<seq<string>>, n: nat)
    requires AllLoggable(cmds) && n <= |LogOf(cmds)|
    ensures ReadEntries(LogOf(cmds)[..n]) == Some(NonEmpty(cmds[..Whole(cmds, n)]))
  {
    hide EncodeCommand, ReadEntries, Loggable;
    if cmds == [] {
      EmptyLog();
    } else {
      var e, rest := EncodeCommand(cmds[0]), LogOf(cmds[1..]);
      if n < |e| {
        assert LogOf(cmds)[..n] == e[..n];
        ReadCutCommand(e[..n], cmds[0]);
      } else {
        assert LogOf(cmds)[..n] == e + rest[..n - |e|];
        ReadCommand(cmds[0], rest[..n - |e|]);
        TornLog(cmds[1..], n - |e|);
        var k := Whole(cmds, n);
        assert cmds[..k][0] == cmds[0] && cmds[..k][1..] == cmds[1..][..k - 1];
        assert NonEmpty([cmds[0]]) == (if cmds[0] == [] then [] else [cmds[0]]);
      }
    }
  }

  lemma EmptyLog()
    ensures ReadEntries("") == Some([])
  {
  }

  /** A whole log followed by the beginning of one more command reads as the log. */
  lemma {:induction false} ReadLog(cmds: seq<seq<string>>, next: seq<string>, tail: string)
    requires AllLoggable(cmds) && Loggable(next)
    requires tail == "" || StrictPrefix(tail, EncodeCommand(next))
    ensures ReadEntries(LogOf(cmds) + tail) == Some(NonEmpty(cmds))
  {
    hide EncodeCommand, ReadEntries, Loggable;
    if cmds == [] {
      assert LogOf(cmds) + tail == tail;
      EmptyLog();
      if tail != "" {
        ReadCutCommand(tail, next);
      }
    } else {
      var e, rest := EncodeCommand(cmds[0]), LogOf(cmds[1..]) + tail;
      assert LogOf(cmds) + tail == e + rest;
      ReadCommand(cmds[0], rest);
      ReadLog(cmds[1..], next, tail);
      assert NonEmpty([cmds[0]]) == (if cmds[0] == [] then [] else [cmds[0]]);
    }
  }

  lemma LogOfOne(cmd: seq<string>)
    ensures LogOf([cmd]) == EncodeCommand(cmd) && LogOf([]) == ""
  {
    hide EncodeCommand;
    assert [cmd][1..] == [];
    assert EncodeCommand(cmd) + "" == EncodeCommand(cmd);
  }

  lemma {:induction false} LogAppend(a: seq<seq<string>>, b: seq<seq<string>>)
    ensures LogOf(a + b) == LogOf(a) + LogOf(b)
  {
    if a == [] {
      assert a + b == b;
    } else {
      assert (a + b)[1..] == a[1..] + b;
      LogAppend(a[1..], b);
    }
  }

  // ----- the reading loop

  method ReadAll(data: string) returns (entries: Option<seq<seq<string>>>)
    ensures entries == ReadEntries(data)
  {
    hide ReadEntries, Resp.Parse;
    var reader := new Reader(data);
    var found: seq<seq<string>> := [];
    SomeAppend([], ReadEntries(data));
    while true
      invariant ReadEntries(data) == After(found, ReadEntries(reader.rest))
      decreases |reader.rest|
    {
      ReadStep(found, reader.rest);
      var v := reader.Parse();
      if v.Bad? {
        if v.fault == Eof {
          return Some(found);
        }
        if v.fault == Panic {
          return None;
        }
      } else {
        if v.value.Arr? && v.value.items != [] {
          found := found + [Parts(v.value.items)];
        } else {
          assert found + [] == found;
        }
      }
    }
  }

  function After(found: seq<seq<string>>, more: Option<seq<seq<string>>>): Option<seq<seq<string>>> {
    match more
    case None => None
    case Some(m) => Some(found + m)
  }

  lemma SomeAppend(found: seq<seq<string>>, more: Option<seq<seq<string>>>)
    ensures After([], more) == more
  {
    if more.Some? {
      assert [] + more.value == more.value;
    }
  }

  /** The entry a parsed value contributes: none unless it is a non-empty array. */
  function EntryOf(v: Value): seq<seq<string>> {
    if v.Arr? && v.items != [] then [Parts(v.items)] else []
  }

  lemma AfterMore(found: seq<seq<string>>, more: seq<seq<string>>, rest: Option<seq<seq<string>>>)
    ensures After(found, After(more, rest)) == After(found + more, rest)
  {
    if rest.Some? {
      assert found + (more + rest.value) == found + more + rest.value;
    }
  }

  lemma ReadStep(found: seq<seq<string>>, s: string)
    ensures match Resp.Parse(s) {
              case Fail(Eof, _) => After(found, ReadEntries(s)) == Some(found)
              case Fail(Panic, _) => After(found, ReadEntries(s)) == None
              case Fail(_, rest) => s != "" && After(found, ReadEntries(s)) == After(found, ReadEntries(rest))
              case Ok(v, rest) => s != "" && After(found, ReadEntries(s)) == After(found + EntryOf(v), ReadEntries(rest))
            }
  {
    hide Resp.Parse, Parts;
    match Resp.Parse(s) {
      case Fail(Eof, _) => assert found + [] == found;
      case Fail(_, _) =>
      case Ok(v, rest) =>
        assert ReadEntries(s) == After(EntryOf(v), ReadEntries(rest));
        AfterMore(found, EntryOf(v), ReadEntries(rest));
    }
  }

  /** A declared array length below -1 panics, whatever follows, so the whole file is unreadable. */
  lemma NegativeLengthPanics(cmds: seq<seq<string>>, n: int, rest: string)
    requires MIN_INT <= n < -1 && AllLoggable(cmds)
    ensures ReadEntries(LogOf(cmds) + ("*" + Itoa(n) + CRLF + rest)) == None
    decreases cmds
  {
    var bad := "*" + Itoa(n) + CRLF + rest;
    if cmds == [] {
      assert LogOf(cmds) + bad == bad;
      PanicHere(n, rest);
    } else {
      hide Itoa, Parse, Encode;
      assert LogOf(cmds) + bad == EncodeCommand(cmds[0]) + (LogOf(cmds[1..]) + bad);
      NegativeLengthPanics(cmds[1..], n, rest);
      ReadCommand(cmds[0], LogOf(cmds[1..]) + bad);
    }
  }

  lemma PanicHere(n: int, rest: string)
    requires MIN_INT <= n < -1
    ensures Parse("*" + Itoa(n) + CRLF + rest).Fail? && Parse("*" + Itoa(n) + CRLF + rest).fault == Panic
  {
    hide Parse, ReadNumber, Itoa;
    assert "*" + Itoa(n) + CRLF + rest == ['*'] + (Itoa(n) + CRLF + rest);
    ParseByKind('*', Itoa(n) + CRLF + rest);
    ReadNumberOfNumber(n, rest);
  }
}
