/** What every kind of torn tail does to the commands written behind it. */
module TornCases {
  import opened Sequences
  import opened Options
  import opened Decimal
  import opened Resp
  import opened AofLog
  import opened TornTail
  import W = RespReader

  /** Where an append was cut off: inside the array header, between two words, or inside a word. */
  datatype Tear = InHead | Between(i: nat) | InLength(i: nat) | InData(i: nat, j: nat) | InTrailer(i: nat)

  /** The header and the first i words. */
  function Head(next: seq<string>, i: nat): string
    requires i <= |next|
  {
    ['*'] + (Itoa(|next|) + CRLF) + EncodeAll(Words(next[..i]))
  }

  function Length(t: string): string {
    ['$'] + (Itoa(|t|) + CRLF)
  }

  predicate TornAs(tail: string, next: seq<string>, tear: Tear) {
    match tear
    case InHead => tail != "" && StrictPrefix(tail, ['*'] + (Itoa(|next|) + CRLF))
    case Between(i) => i < |next| && tail == Head(next, i)
    case InLength(i) =>
      && i < |next| && Head(next, i) <= tail
      && var p := tail[|Head(next, i)|..]; p != "" && StrictPrefix(p, Length(next[i]))
    case InData(i, j) => i < |next| && j < |next[i]| && tail == Head(next, i) + (Length(next[i]) + next[i][..j])
    case InTrailer(i) =>
      i < |next| && (tail == Head(next, i) + (Length(next[i]) + next[i]) || tail == Head(next, i) + (Length(next[i]) + (next[i] + "\r")))
  }

  // ----- every torn tail is one of these

  lemma {:induction false} TearInWords(p: string, args: seq<string>) returns (i: nat, part: string)
    requires StrictPrefix(p, EncodeAll(Words(args)))
    ensures i < |args| && p == EncodeAll(Words(args[..i])) + part && StrictPrefix(part, Encode(Bulk(args[i])))
  {
    hide Encode;
    var e, more := Encode(Bulk(args[0])), EncodeAll(Words(args[1..]));
    assert Words(args)[0] == Bulk(args[0]) && Words(args)[1..] == Words(args[1..]);
    PrefixSplit(p, e, more);
    if StrictPrefix(p, e) {
      i, part := 0, p;
      assert Words(args[..0]) == [];
    } else {
      i, part := TearInWords(p[|e|..], args[1..]);
      assert args[..i + 1][0] == args[0] && args[..i + 1][1..] == args[1..][..i];
      assert Words(args[..i + 1])[0] == Bulk(args[0]) && Words(args[..i + 1])[1..] == Words(args[1..][..i]);
      i := i + 1;
    }
  }

  lemma TearInWord(part: string, t: string)
    requires part != "" && StrictPrefix(part, Encode(Bulk(t)))
    ensures StrictPrefix(part, Length(t)) || (exists j :: 0 <= j < |t| && part == Length(t) + t[..j])
         || part == Length(t) + t || part == Length(t) + (t + "\r")
  {
    EncodeBulkIs(t);
    assert Encode(Bulk(t)) == Length(t) + (t + CRLF);
    hide Encode, Length;
    PrefixSplit(part, Length(t), t + CRLF);
    if !StrictPrefix(part, Length(t)) {
      var q := part[|Length(t)|..];
      assert part == Length(t) + q;
      if |q| < |t| {
        assert q == t[..|q|];
      } else {
        assert q == t + CRLF[..|q| - |t|];
        assert CRLF[..0] == "" && CRLF[..1] == "\r";
      }
    }
  }

  lemma EveryTear(tail: string, next: seq<string>) returns (tear: Tear)
    requires tail != "" && Torn(tail, next)
    ensures TornAs(tail, next, tear)
  {
    var head, body := ['*'] + (Itoa(|next|) + CRLF), EncodeAll(Words(next));
    assert EncodeCommand(next) == head + body;
    hide EncodeCommand, Encode, EncodeAll, Itoa, Length;
    PrefixSplit(tail, head, body);
    if StrictPrefix(tail, head) {
      tear := InHead;
    } else {
      var i, part := TearInWords(tail[|head|..], next);
      assert tail == Head(next, i) + part;
      var t := next[i];
      if part == "" {
        tear := Between(i);
      } else {
        TearInWord(part, t);
        if StrictPrefix(part, Length(t)) {
          tear := InLength(i);
        } else if part == Length(t) + t || part == Length(t) + (t + "\r") {
          tear := InTrailer(i);
        } else {
          var j :| 0 <= j < |t| && part == Length(t) + t[..j];
          tear := InData(i, j);
        }
      }
    }
  }

  // ----- reading past whole words

  lemma {:induction false} StrayWords(args: seq<string>, rest: string)
    requires forall i :: 0 <= i < |args| ==> |args[i]| <= MAX_INT
    ensures ReadEntries(EncodeAll(Words(args)) + rest) == ReadEntries(rest)
  {
    hide Parse;
    if args == [] {
      assert EncodeAll(Words(args)) + rest == rest;
    } else {
      var tail := EncodeAll(Words(args[1..])) + rest;
      assert Words(args)[0] == Bulk(args[0]) && Words(args)[1..] == Words(args[1..]);
      assert EncodeAll(Words(args)) + rest == Encode(Bulk(args[0])) + tail;
      ParseEncodeBulk(args[0], tail);
      StrayWords(args[1..], rest);
      match ReadEntries(tail) {
        case None =>
        case Some(more) => assert [] + more == more;
      }
    }
  }

  lemma ItemsStep(n: nat, z: string)
    requires n > 0
    ensures ParseItems(n, z)
         == match Parse(z) {
              case Fail(e, rest) => Fail(e, rest)
              case Ok(v, rest) => W.Prepend([v], ParseItems(n - 1, rest))
            }
  {
    hide Parse;
  }

  lemma {:induction false} ItemsAfter(n: nat, ws: seq<string>, z: string)
    requires |ws| <= n && forall i :: 0 <= i < |ws| ==> |ws[i]| <= MAX_INT
    ensures ParseItems(n, EncodeAll(Words(ws)) + z) == W.Prepend(ToValues(Words(ws)), ParseItems(n - |ws|, z))
    decreases n
  {
    hide Parse, Encode, ParseItems;
    if ws == [] {
      assert EncodeAll(Words(ws)) + z == z;
      var r := ParseItems(n, z);
      assert r.Ok? ==> [] + r.value == r.value;
    } else {
      var y := EncodeAll(Words(ws[1..])) + z;
      assert Words(ws)[0] == Bulk(ws[0]) && Words(ws)[1..] == Words(ws[1..]);
      assert EncodeAll(Words(ws)) + z == Encode(Bulk(ws[0])) + y;
      ParseEncodeBulk(ws[0], y);
      ItemsStep(n, Encode(Bulk(ws[0])) + y);
      ItemsAfter(n - 1, ws[1..], z);
      var r := ParseItems(n - |ws|, z);
      assert r.Ok? ==> [Str(ws[0])] + (ToValues(Words(ws[1..])) + r.value) == [Str(ws[0])] + ToValues(Words(ws[1..])) + r.value;
    }
  }

  lemma ParseAfterHead(next: seq<string>, i: nat, z: string)
    requires Loggable(next) && i <= |next|
    ensures Parse(Head(next, i) + z)
         == match ParseItems(|next| - i, z)
            case Ok(more, rest) => Ok(Arr(ToValues(Words(next[..i])) + more), rest)
            case Fail(e, rest) => Fail(e, rest)
  {
    hide Parse, ParseItems, Itoa, EncodeAll, ReadNumber, ToValues, Words;
    var words := EncodeAll(Words(next[..i])) + z;
    assert Head(next, i) + z == ['*'] + (Itoa(|next|) + CRLF + words);
    ParseByKind('*', Itoa(|next|) + CRLF + words);
    ReadNumberOfNumber(|next|, words);
    ItemsAfter(|next|, next[..i], z);
  }

  // ----- torn inside a header, a length or a trailer: exactly the next command is lost

  /** A number line cut short takes the next header line with it. */
  lemma NumberOverHeader(p: string, n: int, cmd: seq<string>, rest: string)
    requires StrictPrefix(p, Itoa(n) + CRLF)
    ensures ReadNumber(p + (EncodeCommand(cmd) + rest)) == Fail(Malformed, EncodeAll(Words(cmd)) + rest)
  {
    var line, after := p + (['*'] + Itoa(|cmd|)), EncodeAll(Words(cmd)) + rest;
    assert p + (EncodeCommand(cmd) + rest) == line + CRLF + after;
    ItoaHasNoNewline(n);
    ItoaHasNoNewline(|cmd|);
    assert forall j :: 0 <= j < |p| ==> p[j] == (Itoa(n) + CRLF)[j];
    assert '\n' !in line;
    hide EncodeCommand, EncodeAll, ReadLine;
    ReadLineOfLine(line, after);
    assert line[|p|] == '*';
    var body := if line != "" && (line[0] == '-' || line[0] == '+') then line[1..] else line;
    assert body[|body| - (|line| - |p|)] == '*' && !AllDigits(body);
  }

  /** What the reading loop does after a parse that failed. */
  lemma ReadPastFailure(s: string)
    requires Parse(s).Fail?
    ensures ReadEntries(s) == match Parse(s).fault
                              case Eof => Some([])
                              case Panic => None
                              case _ => ReadEntries(Parse(s).rest)
  {
    hide Parse;
  }

  /** Bytes that start no RESP value are skipped one by one. */
  lemma {:induction false} SkipJunk(junk: string, z: string)
    requires forall i :: 0 <= i < |junk| ==> junk[i] !in "+-:$*"
    ensures ReadEntries(junk + z) == ReadEntries(z)
  {
    if junk == "" {
      assert junk + z == z;
    } else {
      assert (junk + z)[1..] == junk[1..] + z;
      assert Parse(junk + z) == Fail(Malformed, junk[1..] + z);
      hide Parse;
      SkipJunk(junk[1..], z);
    }
  }

  /** A command without its star: only the words are seen, and no array. */
  lemma SkipStarless(cmd: seq<string>, rest: string)
    requires Loggable(cmd)
    ensures ReadEntries((EncodeCommand(cmd) + rest)[1..]) == ReadEntries(rest)
  {
    var junk, words := NatToString(|cmd|) + CRLF, EncodeAll(Words(cmd));
    assert EncodeCommand(cmd) + rest == ['*'] + (junk + (words + rest));
    assert (EncodeCommand(cmd) + rest)[1..] == junk + (words + rest);
    ItoaHasNoNewline(|cmd|);
    hide EncodeCommand, EncodeAll, ReadEntries;
    SkipJunk(junk, words + rest);
    StrayWords(cmd, rest);
  }

  lemma HeadTear(tail: string, next: seq<string>, cmd: seq<string>, rest: string)
    requires TornAs(tail, next, InHead) && Loggable(cmd)
    ensures ReadEntries(tail + (EncodeCommand(cmd) + rest)) == ReadEntries(rest)
  {
    var x := EncodeCommand(cmd) + rest;
    var q := tail[1..];
    PrefixSplit(tail, ['*'], Itoa(|next|) + CRLF);
    assert tail == ['*'] + q && tail + x == ['*'] + (q + x);
    hide Parse, ReadEntries, EncodeCommand, EncodeAll, Itoa, ReadNumber;
    ParseByKind('*', q + x);
    NumberOverHeader(q, |next|, cmd, rest);
    ReadPastFailure(tail + x);
    StrayWords(cmd, rest);
  }

  /** If the torn word fails to parse, so does the array, and reading goes on behind it. */
  lemma TornWordFails(next: seq<string>, i: nat, z: string, after: string)
    requires Loggable(next) && i < |next| && Parse(z) == Fail(Malformed, after)
    ensures ReadEntries(Head(next, i) + z) == ReadEntries(after)
  {
    hide Parse, Head, ReadEntries, ToValues, Words;
    ParseAfterHead(next, i, z);
    assert ParseItems(|next| - i, z) == Fail(Malformed, after);
    ReadPastFailure(Head(next, i) + z);
  }

  lemma LengthTear(tail: string, next: seq<string>, i: nat, cmd: seq<string>, rest: string)
    requires Loggable(next) && TornAs(tail, next, InLength(i)) && Loggable(cmd)
    ensures ReadEntries(tail + (EncodeCommand(cmd) + rest)) == ReadEntries(rest)
  {
    assert forall m :: 0 <= m < |cmd| ==> |cmd[m]| <= MAX_INT;
    hide *;
    var q := LengthOf(tail, next, i);
    var x := EncodeCommand(cmd) + rest;
    Associate(Head(next, i), ['$'] + q, x);
    Associate(['$'], q, x);
    ParseByKind('$', q + x);
    NumberOverHeader(q, |next[i]|, cmd, rest);
    NumberFails(q + x);
    TornWordFails(next, i, ['$'] + q + x, EncodeAll(Words(cmd)) + rest);
    StrayWords(cmd, rest);
  }

  lemma LengthOf(tail: string, next: seq<string>, i: nat) returns (q: string)
    requires Loggable(next) && TornAs(tail, next, InLength(i))
    ensures i < |next| && |next[i]| <= MAX_INT
    ensures tail == Head(next, i) + (['$'] + q) && StrictPrefix(q, Itoa(|next[i]|) + CRLF)
  {
    var p := tail[|Head(next, i)|..];
    assert tail == Head(next, i) + p;
    hide Head, Itoa;
    PrefixSplit(p, ['$'], Itoa(|next[i]|) + CRLF);
    q := p[1..];
    assert p == ['$'] + q;
  }

  lemma NumberFails(s: string)
    requires ReadNumber(s).Fail?
    ensures ParseBulk(s) == Fail(ReadNumber(s).fault, ReadNumber(s).rest)
  {
    hide ReadNumber;
  }

  /** The data and trailer of a bulk string of known length. */
  function Data(n: nat, s: string): Parsed<Value> {
    match ReadFull(s, n)
    case Fail(e, rest) => Fail(e, rest)
    case Ok(data, rest) =>
      match ReadTrailer(rest)
      case Fail(e, rest') => Fail(e, rest')
      case Ok(_, rest') => Ok(Str(data), rest')
  }

  lemma ParseLength(t: string, after: string)
    requires |t| <= MAX_INT
    ensures Parse(Length(t) + after) == Data(|t|, after)
  {
    hide Parse, Itoa, ReadNumber, ReadFull, ReadTrailer;
    assert Length(t) + after == ['$'] + (Itoa(|t|) + CRLF + after);
    ParseByKind('$', Itoa(|t|) + CRLF + after);
    ReadNumberOfNumber(|t|, after);
  }

  lemma TrailerFails(t: string, cr: string, x: string)
    requires |t| <= MAX_INT && (cr == "" || cr == "\r") && x != "" && x[0] == '*'
    ensures Parse(Length(t) + (t + cr) + x) == Fail(Malformed, x[1..])
  {
    hide Parse, Length, ReadFull;
    assert Length(t) + (t + cr) + x == Length(t) + (t + (cr + x));
    ParseLength(t, t + (cr + x));
    ReadFullOf(t, cr + x);
    if cr == "" {
      assert cr + x == x;
    } else {
      assert (cr + x)[1] == '*' && (cr + x)[2..] == x[1..];
    }
  }

  lemma TrailerTear(tail: string, next: seq<string>, i: nat, cmd: seq<string>, rest: string)
    requires Loggable(next) && TornAs(tail, next, InTrailer(i)) && Loggable(cmd)
    ensures ReadEntries(tail + (EncodeCommand(cmd) + rest)) == ReadEntries(rest)
  {
    hide *;
    var cr := TrailerOf(tail, next, i);
    var x, t := EncodeCommand(cmd) + rest, next[i];
    StartsWithStar(cmd, rest);
    var z := Length(t) + (t + cr) + x;
    Associate(Head(next, i), Length(t) + (t + cr), x);
    TrailerFails(t, cr, x);
    TornWordFails(next, i, z, x[1..]);
    SkipStarless(cmd, rest);
  }

  lemma TrailerOf(tail: string, next: seq<string>, i: nat) returns (cr: string)
    requires Loggable(next) && TornAs(tail, next, InTrailer(i))
    ensures i < |next| && |next[i]| <= MAX_INT && (cr == "" || cr == "\r")
    ensures tail == Head(next, i) + (Length(next[i]) + (next[i] + cr))
  {
    hide Head, Length;
    cr := if tail == Head(next, i) + (Length(next[i]) + next[i]) then "" else "\r";
    assert next[i] + "" == next[i];
  }

  // ----- torn between two words: as many commands as words are missing become the missing words

  lemma {:induction false} LogIsItems(cmds: seq<seq<string>>) returns (frames: seq<Frame>)
    requires AllLoggable(cmds)
    ensures |frames| == |cmds| && AllSendable(frames) && EncodeAll(frames) == LogOf(cmds)
    ensures |ToValues(frames)| == |cmds| && forall i :: 0 <= i < |cmds| ==> ToValues(frames)[i].Arr?
  {
    if cmds == [] {
      frames := [];
    } else {
      var more := LogIsItems(cmds[1..]);
      CommandSendable(cmds[0]);
      ParsedCommand(cmds[0]);
      hide Encode, Sendable, CommandFrame;
      frames := [CommandFrame(cmds[0])] + more;
      assert frames[1..] == more;
    }
  }

  lemma {:induction false} PartsStop(ws: seq<string>, more: seq<Value>)
    requires more != [] && !more[0].Str?
    ensures Parts(ToValues(Words(ws)) + more) == ws + seq(|more|, _ => "")
  {
    var vs := ToValues(Words(ws));
    if ws == [] {
      assert vs + more == more;
    } else {
      assert Words(ws)[0] == Bulk(ws[0]) && Words(ws)[1..] == Words(ws[1..]);
      assert (vs + more)[1..] == ToValues(Words(ws[1..])) + more;
      PartsStop(ws[1..], more);
      assert ws == [ws[0]] + ws[1..];
    }
  }

  /** The missing words are read from whole commands: those commands are lost, and a command is invented that
      has the words before the tear and is empty from there on. */
  lemma BetweenTear(next: seq<string>, i: nat, cmds: seq<seq<string>>, rest: string)
    requires Loggable(next) && i < |next| && AllLoggable(cmds) && |cmds| == |next| - i
    ensures ReadEntries(Head(next, i) + (LogOf(cmds) + rest))
         == After([next[..i] + seq(|cmds|, _ => "")], ReadEntries(rest))
  {
    hide *;
    var frames := LogIsItems(cmds);
    ParseEncodeAll(frames, rest);
    ParseAfterHead(next, i, LogOf(cmds) + rest);
    PartsStop(next[..i], ToValues(frames));
    ReadArray(Head(next, i) + (LogOf(cmds) + rest), ToValues(Words(next[..i])) + ToValues(frames), rest);
  }

  lemma ReadArray(s: string, items: seq<Value>, rest: string)
    requires Parse(s) == Ok(Arr(items), rest) && items != []
    ensures ReadEntries(s) == After([Parts(items)], ReadEntries(rest))
  {
    hide Parse, Parts;
  }

  lemma {:induction false} NotEnoughItems(n: nat, cmds: seq<seq<string>>)
    requires AllLoggable(cmds) && |cmds| < n
    ensures ParseItems(n, LogOf(cmds)) == Fail(Eof, "")
    decreases n
  {
    hide Parse, Encode, Sendable, ToValue, CommandFrame;
    if cmds != [] {
      CommandSendable(cmds[0]);
      ParseEncode(CommandFrame(cmds[0]), LogOf(cmds[1..]));
      NotEnoughItems(n - 1, cmds[1..]);
    }
  }

  /** With too few commands behind it, all of them are lost. */
  lemma BetweenTearShort(next: seq<string>, i: nat, cmds: seq<seq<string>>)
    requires Loggable(next) && i < |next| && AllLoggable(cmds) && |cmds| < |next| - i
    ensures ReadEntries(Head(next, i) + LogOf(cmds)) == Some([])
  {
    hide *;
    NotEnoughItems(|next| - i, cmds);
    ParseAfterHead(next, i, LogOf(cmds));
    ReadPastFailure(Head(next, i) + LogOf(cmds));
  }

  // ----- torn inside the data of a word: the missing bytes are taken from what follows

  /** What is read if the word next[i] is completed from x, however x is divided into commands. If x is too short
      everything is lost. If no line end follows the completed word, reading resumes right there, in the middle of a
      command; otherwise the array goes on with the completed word in it. */
  function FromData(next: seq<string>, i: nat, j: nat, x: string): Option<seq<seq<string>>>
    requires i < |next| && j < |next[i]|
  {
    var d := |next[i]| - j;
    if |x| < d then Some([])
    else
      match ReadTrailer(x[d..])
      case Fail(_, after) => ReadEntries(after)
      case Ok(_, after) => FromWord(next, i, Ok(Str(next[i][..j] + x[..d]), after))
  }

  /** The rest of a torn array, given what is read in place of the torn word. */
  function FromWord(next: seq<string>, i: nat, word: Parsed<Value>): Option<seq<seq<string>>>
    requires i < |next|
  {
    match word
    case Fail(e, after) => (match e case Eof => Some([]) case Panic => None case _ => ReadEntries(after))
    case Ok(v, after) =>
      match ParseItems(|next| - i - 1, after)
      case Fail(e, after') => (match e case Eof => Some([]) case Panic => None case _ => ReadEntries(after'))
      case Ok(more, after') => After([Parts(ToValues(Words(next[..i])) + ([v] + more))], ReadEntries(after'))
  }

  lemma DataTear(tail: string, next: seq<string>, i: nat, j: nat, x: string)
    requires Loggable(next) && TornAs(tail, next, InData(i, j))
    ensures ReadEntries(tail + x) == FromData(next, i, j, x)
  {
    var word := Length(next[i]) + next[i][..j];
    assert |next[i]| <= MAX_INT && tail == Head(next, i) + word;
    hide Head, FromWord, ReadEntries, TornAs, Loggable, Length;
    Associate(Head(next, i), word, x);
    TornWordReads(next, i, word + x);
    DataWord(next, i, j, x);
  }

  lemma DataWord(next: seq<string>, i: nat, j: nat, x: string)
    requires i < |next| && j < |next[i]| <= MAX_INT
    ensures FromWord(next, i, Parse(Length(next[i]) + next[i][..j] + x)) == FromData(next, i, j, x)
  {
    hide Parse, Length, ReadTrailer, ParseItems, Parts, ToValues, Words, ReadEntries, After;
    WordFromData(next[i], j, x);
    EmptyLog();
  }

  lemma TornWordReads(next: seq<string>, i: nat, z: string)
    requires Loggable(next) && i < |next|
    ensures ReadEntries(Head(next, i) + z) == FromWord(next, i, Parse(z))
  {
    hide Parse, ParseItems, Head, ReadEntries, Parts, ToValues, Words, After, Loggable;
    ParseAfterHead(next, i, z);
    ItemsStep(|next| - i, z);
    var s := Head(next, i) + z;
    if Parse(s).Fail? {
      ReadPastFailure(s);
    } else {
      var more := ParseItems(|next| - i - 1, Parse(z).rest);
      ReadArray(s, ToValues(Words(next[..i])) + ([Parse(z).value] + more.value), Parse(s).rest);
    }
  }

  lemma WordFromData(t: string, j: nat, x: string)
    requires |t| <= MAX_INT && j < |t|
    ensures var d := |t| - j;
            var r := Parse(Length(t) + t[..j] + x);
            if |x| < d then r.Fail? && r.rest == "" && (r.fault == Eof || r.fault == UnexpectedEof)
            else
              match ReadTrailer(x[d..])
              case Fail(_, after) => r == Fail(Malformed, after)
              case Ok(_, after) => r == Ok(Str(t[..j] + x[..d]), after)
  {
    hide Parse, Length, ReadTrailer;
    var after, d := t[..j] + x, |t| - j;
    assert Length(t) + t[..j] + x == Length(t) + after;
    ParseLength(t, after);
    if d <= |x| {
      assert after[..|t|] == t[..j] + x[..d] && after[|t|..] == x[d..];
      TrailerMalformed(x[d..]);
    }
  }

  lemma TrailerMalformed(s: string)
    ensures ReadTrailer(s).Fail? ==> ReadTrailer(s).fault == Malformed
  {
  }
}
