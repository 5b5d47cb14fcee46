/** The Python client's reply parser and buffered reader: pkg/client/python/gocache/client.py.
    A byte is a char and decoding to text is the identity. */
module PyClient {
  import opened Options
  import opened Decimal
  import opened Resp
  import L = AofLog
  import W = RespReader

  /** A parsed Python value; an error reply is an Exception object. */
  datatype Py = PyStr(s: string) | PyError(s: string) | PyInt(n: int) | PyNone | PyList(items: seq<Py>)

  /** Incomplete is _IncompleteData; Invalid is a ValueError; Backwards is a declared bulk length below -1,
      after which the original moves its position backwards. */
  datatype Parsed<+T> = Got(value: T, rest: string) | Incomplete | Invalid | Backwards

  /** encode_command writes the frame that the server's parser reads back. */
  method EncodeCommand(args: seq<string>) returns (bytes: string)
    ensures bytes == Encode(L.CommandFrame(args))
    ensures L.Loggable(args) ==> Parse(bytes) == Ok(ToValue(L.CommandFrame(args)), "")
  {
    hide *;
    ghost var frames := L.Words(args);
    WordAt(args);
    bytes := "*" + Itoa(|args|) + CRLF;
    ghost var head := bytes;
    W.EncodeNothing(head);
    for i := 0 to |args|
      invariant bytes == head + EncodeAll(frames[..i])
    {
      W.EncodeAllSnoc(frames, i);
      EncodeWord(args[i]);
      ghost var before := bytes;
      bytes := bytes + ("$" + Itoa(|args[i]|) + CRLF) + (args[i] + CRLF);
      assert bytes == before + (("$" + Itoa(|args[i]|) + CRLF) + (args[i] + CRLF));
      assert bytes == head + (EncodeAll(frames[..i]) + Encode(frames[i]));
    }
    assert frames[..|args|] == frames;
    ReadBack(args);
  }

  lemma WordAt(args: seq<string>)
    ensures |L.Words(args)| == |args| && forall i :: 0 <= i < |args| ==> L.Words(args)[i] == Bulk(args[i])
  {
  }

  lemma EncodeWord(t: string)
    ensures Encode(Bulk(t)) == ("$" + Itoa(|t|) + CRLF) + (t + CRLF)
  {
    hide Itoa;
  }

  lemma ReadBack(args: seq<string>)
    ensures Encode(L.CommandFrame(args)) == "*" + Itoa(|args|) + CRLF + EncodeAll(L.Words(args))
    ensures L.Loggable(args) ==> Parse(Encode(L.CommandFrame(args))) == Ok(ToValue(L.CommandFrame(args)), "")
  {
    hide Parse, ToValue, Itoa, EncodeAll;
    if L.Loggable(args) {
      L.CommandSendable(args);
      ParseEncode(L.CommandFrame(args), "");
      assert Encode(L.CommandFrame(args)) + "" == Encode(L.CommandFrame(args));
    }
  }

  // ----- Python's int()

  /** White space in ASCII: tab to carriage return, the four separators, and the blank. */
  predicate IsSpace(c: char) {
    9 <= c as int <= 13 || 28 <= c as int <= 32
  }

  function StripLeft(s: string): string {
    if s != "" && IsSpace(s[0]) then StripLeft(s[1..]) else s
  }

  function StripRight(s: string): string {
    if s != "" && IsSpace(s[|s| - 1]) then StripRight(s[..|s| - 1]) else s
  }

  /** Digits with single underscores between them. */
  predicate DigitGroups(s: string) {
    && s != "" && IsDigit(s[0]) && IsDigit(s[|s| - 1])
    && (forall i :: 0 <= i < |s| ==> IsDigit(s[i]) || s[i] == '_')
    && (forall i :: 0 < i < |s| ==> !(s[i] == '_' && s[i - 1] == '_'))
  }

  function OnlyDigits(s: string): (r: string)
    ensures AllDigits(r)
  {
    if s == "" then "" else (if IsDigit(s[0]) then [s[0]] else "") + OnlyDigits(s[1..])
  }

  function ToInt(s: string): Option<int> {
    var t := StripRight(StripLeft(s));
    var body := if t != "" && (t[0] == '-' || t[0] == '+') then t[1..] else t;
    if !DigitGroups(body) then None
    else Some((if t[0] == '-' then -1 else 1) * DigitsValue(OnlyDigits(body)))
  }

  lemma {:induction false} DigitsOnly(s: string)
    requires AllDigits(s)
    ensures OnlyDigits(s) == s
  {
    if s != "" {
      DigitsOnly(s[1..]);
    }
  }

  lemma StripPlain(s: string)
    requires s != "" && !IsSpace(s[0]) && !IsSpace(s[|s| - 1])
    ensures StripRight(StripLeft(s)) == s
  {
  }

  lemma PlainGroups(s: string)
    requires s != "" && AllDigits(s)
    ensures DigitGroups(s)
  {
  }

  lemma ToIntItoa(n: int)
    ensures ToInt(Itoa(n)) == Some(n)
  {
    hide NatToString, DigitsValue, OnlyDigits, DigitGroups, StripLeft, StripRight;
    var m := if n < 0 then -n else n;
    var digits := NatToString(m);
    var s := Itoa(n);
    assert s[|s| - 1] == digits[|digits| - 1] && (n >= 0 ==> s == digits) && (n < 0 ==> s[1..] == digits && s[0] == '-');
    StripPlain(s);
    PlainGroups(digits);
    DigitsOnly(digits);
    DigitsValueOfNat(m);
  }

  predicate AllSpaces(s: string) {
    forall i :: 0 <= i < |s| ==> s[i] in SPACES
  }

  lemma {:induction false} StripLeading(a: string, s: string)
    requires AllSpaces(a) && s != "" && !IsSpace(s[0])
    ensures StripLeft(a + s) == s
  {
    if a == "" {
      assert a + s == s;
    } else {
      assert (a + s)[1..] == a[1..] + s && (a + s)[0] == a[0] && a[0] in SPACES;
      StripLeading(a[1..], s);
    }
  }

  lemma {:induction false} StripTrailing(s: string, b: string)
    requires AllSpaces(b) && s != "" && !IsSpace(s[|s| - 1])
    ensures StripRight(s + b) == s
  {
    if b == "" {
      assert s + b == s;
    } else {
      var last := |b| - 1;
      assert (s + b)[..|s + b| - 1] == s + b[..last] && (s + b)[|s + b| - 1] == b[last] && b[last] in SPACES;
      StripTrailing(s, b[..last]);
    }
  }

  const SPACES := " \t\n\r\U{000B}\U{000C}\U{001C}\U{001D}\U{001E}\U{001F}"

  /** White space around a number is ignored. */
  lemma ToIntSpaced(a: string, n: int, b: string)
    requires AllSpaces(a) && AllSpaces(b)
    ensures ToInt(a + Itoa(n) + b) == Some(n)
  {
    hide NatToString, DigitsValue, OnlyDigits, DigitGroups, StripLeft, StripRight;
    var s := Itoa(n);
    var digits := NatToString(if n < 0 then -n else n);
    assert s[|s| - 1] == digits[|digits| - 1];
    assert a + s + b == a + (s + b) && (s + b)[0] == s[0];
    StripLeading(a, s + b);
    StripTrailing(s, b);
    StripPlain(s);
    ToIntItoa(n);
  }

  // ----- _read_line and _parse on the bytes from the current position on

  /** data.index(b"\r\n", pos), or the length. */
  function FindCrlf(s: string): (i: nat)
    ensures i <= |s|
    ensures i < |s| ==> i + 1 < |s| && s[i] == '\r' && s[i + 1] == '\n'
  {
    if |s| < 2 then |s|
    else if s[0] == '\r' && s[1] == '\n' then 0
    else 1 + FindCrlf(s[1..])
  }

  function ReadLine(s: string): (r: Parsed<string>)
    ensures r.Got? ==> |r.rest| < |s|
  {
    var i := FindCrlf(s);
    if i == |s| then Incomplete else Got(s[..i], s[i + 2..])
  }

  function ReadInt(s: string): (r: Parsed<int>)
    ensures r.Got? ==> |r.rest| < |s|
  {
    match ReadLine(s)
    case Got(line, rest) => (match ToInt(line) case Some(n) => Got(n, rest) case None => Invalid)
    case _ => Incomplete
  }

  /** The two bytes after bulk data are skipped, not checked. */
  function ReadBulk(s: string): (r: Parsed<Py>)
    ensures r.Got? ==> |r.rest| < |s|
  {
    match ReadInt(s)
    case Incomplete => Incomplete
    case Invalid => Invalid
    case Backwards => Backwards
    case Got(n, rest) =>
      if n == -1 then Got(PyNone, rest)
      else if n < -1 then Backwards
      else if n + 2 > |rest| then Incomplete
      else Got(PyStr(rest[..n]), rest[n + 2..])
  }

  function ParseReply(s: string): (r: Parsed<Py>)
    ensures r.Got? ==> |r.rest| < |s|
    decreases |s|, 0
  {
    if s == "" then Incomplete
    else if s[0] == '+' then
      (match ReadLine(s[1..]) case Got(line, rest) => Got(PyStr(line), rest) case _ => Incomplete)
    else if s[0] == '-' then
      (match ReadLine(s[1..]) case Got(line, rest) => Got(PyError(line), rest) case _ => Incomplete)
    else if s[0] == ':' then
      match ReadInt(s[1..]) {
        case Got(n, rest) => Got(PyInt(n), rest)
        case Incomplete => Incomplete
        case Invalid => Invalid
        case Backwards => Backwards
      }
    else if s[0] == '$' then ReadBulk(s[1..])
    else if s[0] == '*' then ReadList(s[1..])
    else Invalid
  }

  function ReadList(s: string): (r: Parsed<Py>)
    ensures r.Got? ==> |r.rest| < |s|
    decreases |s|, 2
  {
    match ReadInt(s)
    case Incomplete => Incomplete
    case Invalid => Invalid
    case Backwards => Backwards
    case Got(n, rest) =>
      if n == -1 then Got(PyNone, rest)
      else
        match ReadItems(if n < 0 then 0 else n, rest)
        case Got(items, rest') => Got(PyList(items), rest')
        case Incomplete => Incomplete
        case Invalid => Invalid
        case Backwards => Backwards
  }

  function ReadItems(n: nat, s: string): (r: Parsed<seq<Py>>)
    ensures r.Got? ==> |r.rest| <= |s|
    decreases |s|, 1
  {
    if n == 0 then Got([], s)
    else
      match ParseReply(s)
      case Incomplete => Incomplete
      case Invalid => Invalid
      case Backwards => Backwards
      case Got(v, rest) =>
        match ReadItems(n - 1, rest)
        case Got(vs, rest') => Got([v] + vs, rest')
        case Incomplete => Incomplete
        case Invalid => Invalid
        case Backwards => Backwards
  }

  // ----- more bytes never change a finished parse

  /** The result with x added to what is left. */
  function Extend<T>(r: Parsed<T>, x: string): Parsed<T> {
    if r.Got? then Got(r.value, r.rest + x) else r
  }

  lemma {:induction false} FindCrlfStable(s: string, x: string)
    requires FindCrlf(s) < |s|
    ensures FindCrlf(s + x) == FindCrlf(s)
  {
    if !(s[0] == '\r' && s[1] == '\n') {
      assert (s + x)[1..] == s[1..] + x;
      FindCrlfStable(s[1..], x);
    }
  }

  lemma ReadLineStable(s: string, x: string)
    requires !ReadLine(s).Incomplete?
    ensures ReadLine(s + x) == Extend(ReadLine(s), x)
  {
    FindCrlfStable(s, x);
    var i := FindCrlf(s);
    assert (s + x)[..i] == s[..i] && (s + x)[i + 2..] == s[i + 2..] + x;
  }

  lemma ReadIntStable(s: string, x: string)
    requires !ReadInt(s).Incomplete?
    ensures ReadInt(s + x) == Extend(ReadInt(s), x)
  {
    hide ReadLine, ToInt;
    ReadLineStable(s, x);
  }

  lemma ReadBulkStable(s: string, x: string)
    requires !ReadBulk(s).Incomplete?
    ensures ReadBulk(s + x) == Extend(ReadBulk(s), x)
  {
    hide ReadInt;
    ReadIntStable(s, x);
    if ReadInt(s).Got? {
      var n, rest := ReadInt(s).value, ReadInt(s).rest;
      if 0 <= n && n + 2 <= |rest| {
        assert (rest + x)[..n] == rest[..n] && (rest + x)[n + 2..] == rest[n + 2..] + x;
      }
    }
  }

  /** A parse that did not run out of bytes has the same outcome on every extension of its input. */
  lemma {:induction false} ParseStable(s: string, x: string)
    requires !ParseReply(s).Incomplete?
    ensures ParseReply(s + x) == Extend(ParseReply(s), x)
    decreases |s|, 0
  {
    hide ReadLine, ReadInt, ReadBulk, ReadList;
    assert (s + x)[0] == s[0] && (s + x)[1..] == s[1..] + x;
    if s[0] == '+' || s[0] == '-' {
      ReadLineStable(s[1..], x);
    } else if s[0] == ':' {
      ReadIntStable(s[1..], x);
    } else if s[0] == '$' {
      ReadBulkStable(s[1..], x);
    } else if s[0] == '*' {
      ReadListStable(s[1..], x);
    }
  }

  lemma {:induction false} ReadListStable(s: string, x: string)
    requires !ReadList(s).Incomplete?
    ensures ReadList(s + x) == Extend(ReadList(s), x)
    decreases |s|, 2
  {
    hide ReadInt, ReadItems;
    ReadIntStable(s, x);
    if ReadInt(s).Got? && ReadInt(s).value != -1 {
      var n, rest := ReadInt(s).value, ReadInt(s).rest;
      ReadItemsStable(if n < 0 then 0 else n, rest, x);
    }
  }

  lemma {:induction false} ReadItemsStable(n: nat, s: string, x: string)
    requires !ReadItems(n, s).Incomplete?
    ensures ReadItems(n, s + x) == Extend(ReadItems(n, s), x)
    decreases |s|, 1
  {
    hide ParseReply;
    if n > 0 {
      ParseStable(s, x);
      if ParseReply(s).Got? {
        ReadItemsStable(n - 1, ParseReply(s).rest, x);
      }
    }
  }

  // ----- reading back a reply

  function ToPy(f: Frame): Py
    decreases f
  {
    match f
    case Simple(t) => PyStr(t)
    case Error(t) => PyError(t)
    case Integer(n) => PyInt(n)
    case Bulk(t) => PyStr(t)
    case NullBulk => PyNone
    case Array(items) => PyList(ToPys(items))
    case NullArray => PyNone
  }

  function ToPys(fs: seq<Frame>): seq<Py>
    decreases fs
  {
    if fs == [] then [] else [ToPy(fs[0])] + ToPys(fs[1..])
  }

  /** No line break inside. */
  predicate OneLine(t: string) {
    forall i :: 0 < i < |t| ==> !(t[i - 1] == '\r' && t[i] == '\n')
  }

  lemma {:induction false} FindCrlfOf(t: string, rest: string)
    ensures FindCrlf(t + CRLF + rest) <= |t|
    ensures FindCrlf(t + CRLF + rest) == |t| <==> OneLine(t)
  {
    var s := t + CRLF + rest;
    if t != "" {
      assert s[1..] == t[1..] + CRLF + rest;
      FindCrlfOf(t[1..], rest);
      assert |t| > 1 ==> s[1] == t[1];
      assert OneLine(t) <==> OneLine(t[1..]) && (|t| > 1 ==> !(t[0] == '\r' && t[1] == '\n')) by {
        if OneLine(t[1..]) && (|t| > 1 ==> !(t[0] == '\r' && t[1] == '\n')) {
          forall i | 0 < i < |t| ensures !(t[i - 1] == '\r' && t[i] == '\n') {
            assert i > 1 ==> t[1..][i - 2] == t[i - 1] && t[1..][i - 1] == t[i];
          }
        }
      }
    }
  }

  /** A line is read back exactly if it holds no line break. */
  lemma ReadLineOf(t: string, rest: string)
    ensures ReadLine(t + CRLF + rest) == Got(t, rest) <==> OneLine(t)
  {
    FindCrlfOf(t, rest);
    var s := t + CRLF + rest;
    assert s[..|t|] == t && s[|t| + 2..] == rest;
  }

  lemma ReadIntOf(n: int, rest: string)
    ensures ReadInt(Itoa(n) + CRLF + rest) == Got(n, rest)
  {
    hide ReadLine, ToInt;
    ItoaHasNoNewline(n);
    ReadLineOf(Itoa(n), rest);
    ToIntItoa(n);
  }

  lemma ReplyKind(kind: char, s: string)
    ensures kind == '$' ==> ParseReply([kind] + s) == ReadBulk(s)
    ensures kind == '*' ==> ParseReply([kind] + s) == ReadList(s)
  {
    assert ([kind] + s)[1..] == s;
  }

  lemma ReplyLine(f: Frame, rest: string)
    requires Sendable(f) && (f.Simple? || f.Error? || f.Integer?)
    ensures ParseReply(Encode(f) + rest) == Got(ToPy(f), rest)
  {
    hide ReadLine, ReadInt, Itoa;
    var line := if f.Integer? then Itoa(f.n) else f.text;
    assert (Encode(f) + rest)[1..] == line + CRLF + rest;
    if f.Integer? {
      ReadIntOf(f.n, rest);
    } else {
      ReadLineOf(f.text, rest);
    }
  }

  lemma ReplyNull(f: Frame, rest: string)
    requires f.NullBulk? || f.NullArray?
    ensures ParseReply(Encode(f) + rest) == Got(PyNone, rest)
  {
    hide ReadInt;
    assert Itoa(-1) == "-1";
    assert (Encode(f) + rest)[1..] == Itoa(-1) + CRLF + rest;
    ReadIntOf(-1, rest);
  }

  lemma ReplyBulk(t: string, rest: string)
    ensures ParseReply(Encode(Bulk(t)) + rest) == Got(PyStr(t), rest)
  {
    hide ParseReply, ReadInt, Itoa;
    var tail := t + (CRLF + rest);
    assert Encode(Bulk(t)) + rest == ['$'] + (Itoa(|t|) + CRLF + tail);
    ReplyKind('$', Itoa(|t|) + CRLF + tail);
    ReadIntOf(|t|, tail);
    assert tail[..|t|] == t && tail[|t| + 2..] == rest;
  }

  lemma ReplyList(items: seq<Frame>, rest: string)
    requires ReadItems(|items|, EncodeAll(items) + rest) == Got(ToPys(items), rest)
    ensures ParseReply(Encode(Array(items)) + rest) == Got(PyList(ToPys(items)), rest)
  {
    hide ParseReply, ReadInt, ReadItems, Itoa, EncodeAll, ToPys;
    var body := EncodeAll(items);
    assert Encode(Array(items)) + rest == ['*'] + (Itoa(|items|) + CRLF + (body + rest));
    ReplyKind('*', Itoa(|items|) + CRLF + (body + rest));
    ReadIntOf(|items|, body + rest);
  }

  /** The client reads back every reply the server can send, and stops exactly at its end. */
  lemma {:induction false} ReplyRoundTrip(f: Frame, rest: string)
    requires Sendable(f)
    ensures ParseReply(Encode(f) + rest) == Got(ToPy(f), rest)
    decreases f, 1
  {
    hide ParseReply, ReadItems, Encode, EncodeAll;
    match f
    case Array(items) =>
      RepliesRoundTrip(items, rest);
      ReplyList(items, rest);
    case Bulk(t) => ReplyBulk(t, rest);
    case NullBulk => ReplyNull(f, rest);
    case NullArray => ReplyNull(f, rest);
    case _ => ReplyLine(f, rest);
  }

  lemma {:induction false} RepliesRoundTrip(fs: seq<Frame>, rest: string)
    requires AllSendable(fs)
    ensures ReadItems(|fs|, EncodeAll(fs) + rest) == Got(ToPys(fs), rest)
    decreases fs, 0
  {
    hide ParseReply, Encode, Sendable;
    if fs == [] {
      assert EncodeAll(fs) + rest == rest;
    } else {
      assert EncodeAll(fs) + rest == Encode(fs[0]) + (EncodeAll(fs[1..]) + rest);
      ReplyRoundTrip(fs[0], EncodeAll(fs[1..]) + rest);
      RepliesRoundTrip(fs[1..], rest);
    }
  }

  /** Every strict prefix of a reply raises _IncompleteData. */
  lemma ReplyPrefixIncomplete(f: Frame, p: string)
    requires Sendable(f) && StrictPrefix(p, Encode(f))
    ensures ParseReply(p) == Incomplete
  {
    hide ParseReply, Encode;
    var x := Encode(f)[|p|..];
    assert Encode(f) == p + x && x != "";
    assert Encode(f) + "" == Encode(f);
    ReplyRoundTrip(f, "");
    if !ParseReply(p).Incomplete? {
      ParseStable(p, x);
      assert false;
    }
  }

  // ----- the imperative parser: a position passed through recursion, and one item loop

  datatype At<+T> = Found(value: T, pos: nat) | Raised(incomplete: bool, backwards: bool)

  ghost predicate Agrees<T>(r: At<T>, p: Parsed<T>, data: string) {
    match p
    case Got(v, rest) => r.Found? && r.value == v && r.pos <= |data| && data[r.pos..] == rest
    case Incomplete => r == Raised(true, false)
    case Invalid => r == Raised(false, false)
    case Backwards => r == Raised(false, true)
  }

  method ReadLineAt(data: string, pos: nat) returns (r: At<string>)
    requires pos <= |data|
    ensures Agrees(r, ReadLine(data[pos..]), data)
  {
    var i := FindCrlf(data[pos..]);
    if i == |data[pos..]| {
      return Raised(true, false);
    }
    var end := pos + i;
    assert data[pos..][..i] == data[pos..end] && data[pos..][i + 2..] == data[end + 2..];
    return Found(data[pos..end], end + 2);
  }

  method ReadIntAt(data: string, pos: nat) returns (r: At<int>)
    requires pos <= |data|
    ensures Agrees(r, ReadInt(data[pos..]), data)
  {
    hide ReadLine, ToInt;
    var line := ReadLineAt(data, pos);
    if line.Raised? {
      return Raised(true, false);
    }
    var n := ToInt(line.value);
    r := if n.Some? then Found(n.value, line.pos) else Raised(false, false);
  }

  method ReadBulkAt(data: string, pos: nat) returns (r: At<Py>)
    requires pos <= |data|
    ensures Agrees(r, ReadBulk(data[pos..]), data)
  {
    hide ReadInt;
    var length := ReadIntAt(data, pos);
    if length.Raised? {
      return Raised(length.incomplete, length.backwards);
    }
    var p, n := length.pos, length.value;
    if n == -1 {
      return Found(PyNone, p);
    }
    if n < -1 {
      return Raised(false, true);
    }
    if p + n + 2 > |data| {
      return Raised(true, false);
    }
    assert data[p..][..n] == data[p..p + n] && data[p..][n + 2..] == data[p + n + 2..];
    return Found(PyStr(data[p..p + n]), p + n + 2);
  }

  method ParseAt(data: string, pos: nat) returns (r: At<Py>)
    requires pos <= |data|
    ensures Agrees(r, ParseReply(data[pos..]), data)
    decreases |data| - pos, 0
  {
    hide ReadLine, ReadInt, ReadBulk, ReadList;
    if pos == |data| {
      return Raised(true, false);
    }
    assert data[pos..][0] == data[pos] && data[pos..][1..] == data[pos + 1..];
    match data[pos] {
      case '+' =>
        var line := ReadLineAt(data, pos + 1);
        r := if line.Found? then Found(PyStr(line.value), line.pos) else Raised(true, false);
        ReadLineRaises(data[pos + 1..]);
      case '-' =>
        var line := ReadLineAt(data, pos + 1);
        r := if line.Found? then Found(PyError(line.value), line.pos) else Raised(true, false);
        ReadLineRaises(data[pos + 1..]);
      case ':' =>
        var n := ReadIntAt(data, pos + 1);
        r := if n.Found? then Found(PyInt(n.value), n.pos) else Raised(n.incomplete, n.backwards);
      case '$' => r := ReadBulkAt(data, pos + 1);
      case '*' => r := ReadListAt(data, pos + 1);
      case _ => r := Raised(false, false);
    }
  }

  lemma ReadLineRaises(s: string)
    ensures ReadLine(s).Got? || ReadLine(s).Incomplete?
  {
  }

  method ReadListAt(data: string, pos: nat) returns (r: At<Py>)
    requires pos <= |data|
    ensures Agrees(r, ReadList(data[pos..]), data)
    decreases |data| - pos, 2
  {
    hide ReadInt, ReadItems;
    var count := ReadIntAt(data, pos);
    if count.Raised? {
      return Raised(count.incomplete, count.backwards);
    }
    if count.value == -1 {
      return Found(PyNone, count.pos);
    }
    assert count.pos > pos;
    var items := ReadItemsAt(data, count.pos, if count.value < 0 then 0 else count.value);
    r := if items.Found? then Found(PyList(items.value), items.pos) else Raised(items.incomplete, items.backwards);
  }

  function Prepend(vs: seq<Py>, r: Parsed<seq<Py>>): Parsed<seq<Py>> {
    if r.Got? then Got(vs + r.value, r.rest) else r
  }

  lemma PrependNothing(r: Parsed<seq<Py>>)
    ensures Prepend([], r) == r
  {
    if r.Got? {
      assert [] + r.value == r.value;
    }
  }

  lemma PrependStep(vs: seq<Py>, k: nat, s: string)
    requires k > 0
    ensures match ParseReply(s) {
              case Got(v, rest) => Prepend(vs, ReadItems(k, s)) == Prepend(vs + [v], ReadItems(k - 1, rest))
              case Incomplete => ReadItems(k, s) == Incomplete
              case Invalid => ReadItems(k, s) == Invalid
              case Backwards => ReadItems(k, s) == Backwards
            }
  {
    hide ParseReply;
    if ParseReply(s).Got? && ReadItems(k, s).Got? {
      var v, more := ParseReply(s).value, ReadItems(k - 1, ParseReply(s).rest).value;
      assert vs + ([v] + more) == vs + [v] + more;
    }
  }

  method ReadItemsAt(data: string, pos: nat, count: nat) returns (r: At<seq<Py>>)
    requires pos <= |data|
    ensures Agrees(r, ReadItems(count, data[pos..]), data)
    decreases |data| - pos, 1
  {
    hide ParseReply, ReadItems;
    var items: seq<Py> := [];
    var p := pos;
    PrependNothing(ReadItems(count, data[pos..]));
    for i := 0 to count
      invariant pos <= p <= |data|
      invariant ReadItems(count, data[pos..]) == Prepend(items, ReadItems(count - i, data[p..]))
    {
      PrependStep(items, count - i, data[p..]);
      var item := ParseAt(data, p);
      if item.Raised? {
        return Raised(item.incomplete, item.backwards);
      }
      items := items + [item.value];
      p := item.pos;
    }
    NoItems(data[p..]);
    assert items + [] == items;
    return Found(items, p);
  }

  lemma NoItems(s: string)
    ensures ReadItems(0, s) == Got([], s)
  {
  }

  // ----- the client

  /** The bytes that arrive: an empty recv() is the end of the connection. */
  function Received(chunks: seq<string>): string {
    if chunks == [] || chunks[0] == "" then "" else chunks[0] + Received(chunks[1..])
  }

  /** What _read_response returns or raises. */
  datatype Response = Value(value: Py) | CommandError(message: string) | ConnectionLost | BadReply | Undefined

  /** The outcome of reading one reply from a byte stream, however it arrives. */
  function Respond(p: Parsed<Py>): Response {
    match p
    case Got(PyError(m), _) => CommandError(m)
    case Got(v, _) => Value(v)
    case Incomplete => ConnectionLost
    case Invalid => BadReply
    case Backwards => Undefined
  }

  lemma OnlyErrors(f: Frame)
    ensures ToPy(f).PyError? <==> f.Error?
    ensures f.Error? ==> ToPy(f) == PyError(f.text)
  {
  }

  /** A number, length or count that int() rejects, and a first byte that is no type, are bad replies. */
  lemma BadReplies(kind: char, t: string, rest: string)
    requires OneLine(t) && ToInt(t).None?
    ensures kind in ":$*" ==> Respond(ParseReply([kind] + (t + CRLF + rest))) == BadReply
    ensures kind !in "+-:$*" ==> Respond(ParseReply([kind] + rest)) == BadReply
  {
    hide ReadLine, ToInt, OneLine;
    assert ([kind] + (t + CRLF + rest))[1..] == t + CRLF + rest;
    ReadLineOf(t, rest);
  }

  /** After a length below -1 the original goes back in its buffer; a count below 0 is an empty list; -1 is null. */
  lemma NegativeLengths(n: int, rest: string)
    requires n < 0
    ensures Respond(ParseReply("$" + Itoa(n) + CRLF + rest)) == if n == -1 then Value(PyNone) else Undefined
    ensures Respond(ParseReply("*" + Itoa(n) + CRLF + rest)) == if n == -1 then Value(PyNone) else Value(PyList([]))
  {
    hide ParseReply, ReadInt, Itoa;
    assert "$" + Itoa(n) + CRLF + rest == ['$'] + (Itoa(n) + CRLF + rest);
    assert "*" + Itoa(n) + CRLF + rest == ['*'] + (Itoa(n) + CRLF + rest);
    ReplyKind('$', Itoa(n) + CRLF + rest);
    ReplyKind('*', Itoa(n) + CRLF + rest);
    ReadIntOf(n, rest);
    NoItems(rest);
  }

  /** A list fails as its first item does. */
  lemma BadItem(n: int, s: string)
    requires n > 0 && !ParseReply(s).Got?
    ensures ParseReply("*" + Itoa(n) + CRLF + s) == ParseReply(s)
  {
    hide ParseReply, ReadInt, Itoa;
    assert "*" + Itoa(n) + CRLF + s == ['*'] + (Itoa(n) + CRLF + s);
    ReplyKind('*', Itoa(n) + CRLF + s);
    ReadIntOf(n, s);
  }

  /** A stream that ends inside a reply is a lost connection. */
  lemma CutReply(f: Frame, p: string)
    requires Sendable(f) && StrictPrefix(p, Encode(f))
    ensures Respond(ParseReply(p)) == ConnectionLost
  {
    hide ParseReply, Encode;
    ReplyPrefixIncomplete(f, p);
  }

  /** chunks is what the coming recv() calls return; when it runs out the server has closed. */
  class GoCacheClient {
    var buffer: string
    var chunks: seq<string>

    constructor (chunks: seq<string>)
      ensures buffer == "" && this.chunks == chunks
    {
      buffer, this.chunks := "", chunks;
    }

    function Stream(): string
      reads this
    {
      buffer + Received(chunks)
    }

    /** Reads until the buffer holds a whole reply. */
    method FillBufferUntilComplete() returns (lost: bool)
      modifies this
      ensures Stream() == old(Stream())
      ensures lost ==> ParseReply(Stream()).Incomplete?
      ensures !lost ==> !ParseReply(buffer).Incomplete?
    {
      hide ParseReply;
      while true
        invariant Stream() == old(Stream())
        decreases |chunks|
      {
        var r := ParseAt(buffer, 0);
        assert buffer[0..] == buffer;
        if r.Found? || !r.incomplete {
          return false;
        }
        if |chunks| == 0 || chunks[0] == "" {
          assert buffer + "" == buffer;
          return true;
        }
        assert buffer + (chunks[0] + Received(chunks[1..])) == buffer + chunks[0] + Received(chunks[1..]);
        buffer := buffer + chunks[0];
        chunks := chunks[1..];
      }
    }

    /** The reply depends only on the bytes of the stream, never on how recv() cut them up; after a reply the
        client sits exactly at the next one. */
    method ReadResponse() returns (r: Response)
      modifies this
      ensures r == Respond(ParseReply(old(Stream())))
      ensures ParseReply(old(Stream())).Got? ==> Stream() == ParseReply(old(Stream())).rest
    {
      hide ParseReply;
      var lost := FillBufferUntilComplete();
      if lost {
        return ConnectionLost;
      }
      ghost var rest := Received(chunks);
      ParseStable(buffer, rest);
      var p := ParseAt(buffer, 0);
      assert buffer[0..] == buffer;
      if p.Raised? {
        return if p.backwards then Undefined else BadReply;
      }
      buffer := buffer[p.pos..];
      r := match p.value { case PyError(m) => CommandError(m) case v => Value(v) };
    }

    /** Successive replies: however the stream is cut into chunks, they are the replies that were encoded. */
    method ReadReplies(ghost replies: seq<Frame>, ghost rest: string, count: nat) returns (rs: seq<Response>)
      requires AllSendable(replies) && count == |replies| && Stream() == EncodeAll(replies) + rest
      modifies this
      ensures |rs| == count && Stream() == rest
      ensures forall i :: 0 <= i < count ==>
                rs[i] == if replies[i].Error? then CommandError(replies[i].text) else Value(ToPy(replies[i]))
    {
      hide ParseReply, Encode, Sendable, ToPy;
      rs := [];
      for i := 0 to count
        invariant |rs| == i && Stream() == EncodeAll(replies[i..]) + rest
        invariant forall j :: 0 <= j < i ==>
                    rs[j] == if replies[j].Error? then CommandError(replies[j].text) else Value(ToPy(replies[j]))
      {
        ghost var tail := EncodeAll(replies[i + 1..]) + rest;
        assert replies[i..][0] == replies[i] && replies[i..][1..] == replies[i + 1..];
        assert Stream() == Encode(replies[i]) + tail;
        ReplyRoundTrip(replies[i], tail);
        OnlyErrors(replies[i]);
        var r := ReadResponse();
        rs := rs + [r];
      }
      assert replies[count..] == [];
      assert "" + rest == rest;
    }
  }
}
