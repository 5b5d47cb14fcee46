/** The Redis serialization protocol (RESP2) as pkg/protocol writes and reads it. A byte is a char.
    The reader functions return what is left of the input on failure too, because the log reader
    keeps going after a bad entry. */
module Resp {
  import opened Decimal

  const CRLF := "\r\n"

  /** What a server or a log writer can put on the wire. */
  datatype Frame =
    | Simple(text: string)
    | Error(text: string)
    | Integer(n: int)
    | Bulk(text: string)
    | NullBulk
    | Array(items: seq<Frame>)
    | NullArray

  /** What Parse hands back: simple strings, errors and bulk strings are all Go strings. */
  datatype Value = Str(s: string) | Int(n: int) | Arr(items: seq<Value>) | NilArr

  /** Eof is io.EOF, which the log reader treats as the end; Panic is a negative make(). */
  datatype Fault = Eof | UnexpectedEof | Malformed | Panic

  datatype Parsed<+T> = Ok(value: T, rest: string) | Fail(fault: Fault, rest: string)

  // ----- writing

  function Encode(f: Frame): (s: string)
    ensures s != ""
    decreases f
  {
    match f
    case Simple(t) => "+" + t + CRLF
    case Error(t) => "-" + t + CRLF
    case Integer(n) => ":" + Itoa(n) + CRLF
    case Bulk(t) => "$" + Itoa(|t|) + CRLF + t + CRLF
    case NullBulk => "$-1" + CRLF
    case Array(items) => "*" + Itoa(|items|) + CRLF + EncodeAll(items)
    case NullArray => "*-1" + CRLF
  }

  function EncodeAll(fs: seq<Frame>): string
    decreases fs
  {
    if fs == [] then "" else Encode(fs[0]) + EncodeAll(fs[1..])
  }

  /** One-line texts without a newline, and numbers that fit Go's int. */
  predicate Sendable(f: Frame)
    decreases f
  {
    match f
    case Simple(t) => '\n' !in t
    case Error(t) => '\n' !in t
    case Integer(n) => MIN_INT <= n <= MAX_INT
    case Bulk(t) => |t| <= MAX_INT
    case Array(items) => |items| <= MAX_INT && forall i :: 0 <= i < |items| ==> Sendable(items[i])
    case NullBulk => true
    case NullArray => true
  }

  predicate AllSendable(fs: seq<Frame>) {
    forall i :: 0 <= i < |fs| ==> Sendable(fs[i])
  }

  /** How Go represents a received frame; a null bulk string is the empty string. */
  function ToValue(f: Frame): Value
    decreases f
  {
    match f
    case Simple(t) => Str(t)
    case Error(t) => Str(t)
    case Integer(n) => Int(n)
    case Bulk(t) => Str(t)
    case NullBulk => Str("")
    case Array(items) => Arr(ToValues(items))
    case NullArray => NilArr
  }

  function ToValues(fs: seq<Frame>): seq<Value>
    decreases fs
  {
    if fs == [] then [] else [ToValue(fs[0])] + ToValues(fs[1..])
  }

  // ----- reading

  /** The index of the first c in s, or |s|. */
  function Find(s: string, c: char): (i: nat)
    ensures i <= |s| && c !in s[..i] && (i < |s| ==> s[i] == c)
  {
    if s == "" || s[0] == c then 0
    else
      var i := 1 + Find(s[1..], c);
      assert s[..i] == [s[0]] + s[1..][..i - 1];
      i
  }

  /** readLine: up to the next newline, which a carriage return must precede. */
  function ReadLine(s: string): (r: Parsed<string>)
    ensures s != "" ==> |r.rest| < |s|
    ensures r.Ok? ==> |r.rest| < |s|
  {
    var i := Find(s, '\n');
    if i == |s| then Fail(Eof, "")
    else if i == 0 || s[i - 1] != '\r' then Fail(Malformed, s[i + 1..])
    else Ok(s[..i - 1], s[i + 1..])
  }

  /** A line holding a decimal integer: the payload of ':' and the length after '$' and '*'. */
  function ReadNumber(s: string): (r: Parsed<int>)
    ensures s != "" ==> |r.rest| < |s|
    ensures r.Ok? ==> |r.rest| < |s|
  {
    match ReadLine(s)
    case Fail(e, rest) => Fail(e, rest)
    case Ok(line, rest) =>
      match Atoi(line)
      case None => Fail(Malformed, rest)
      case Some(n) => Ok(n, rest)
  }

  /** io.ReadFull of n bytes. */
  function ReadFull(s: string, n: nat): (r: Parsed<string>)
    ensures |r.rest| <= |s|
  {
    if n <= |s| then Ok(s[..n], s[n..])
    else Fail(if s == "" then Eof else UnexpectedEof, "")
  }

  /** The two bytes that must follow bulk data; a missing byte is not reported as io.EOF. */
  function ReadTrailer(s: string): (r: Parsed<()>)
    ensures |r.rest| <= |s|
  {
    if s == "" then Fail(Malformed, "")
    else if s[0] != '\r' then Fail(Malformed, s[1..])
    else if |s| == 1 then Fail(Malformed, "")
    else if s[1] != '\n' then Fail(Malformed, s[2..])
    else Ok((), s[2..])
  }

  function ParseBulk(s: string): (r: Parsed<Value>)
    ensures s != "" ==> |r.rest| < |s|
    ensures r.Ok? ==> |r.rest| < |s|
  {
    match ReadNumber(s)
    case Fail(e, rest) => Fail(e, rest)
    case Ok(n, rest) =>
      if n == -1 then Ok(Str(""), rest)
      else if n < 0 then Fail(Panic, rest)
      else
        match ReadFull(rest, n)
        case Fail(e, rest') => Fail(e, rest')
        case Ok(data, rest') =>
          match ReadTrailer(rest')
          case Fail(e, rest'') => Fail(e, rest'')
          case Ok(_, rest'') => Ok(Str(data), rest'')
  }

  function Parse(s: string): (r: Parsed<Value>)
    ensures s == "" ==> r == Fail(Eof, "")
    ensures s != "" ==> |r.rest| < |s|
    decreases |s|, 0
  {
    if s == "" then Fail(Eof, "")
    else if s[0] == '+' || s[0] == '-' then
      match ReadLine(s[1..]) {
        case Ok(line, rest) => Ok(Str(line), rest)
        case Fail(e, rest) => Fail(e, rest)
      }
    else if s[0] == ':' then
      match ReadNumber(s[1..]) {
        case Ok(n, rest) => Ok(Int(n), rest)
        case Fail(e, rest) => Fail(e, rest)
      }
    else if s[0] == '$' then ParseBulk(s[1..])
    else if s[0] == '*' then ParseArray(s[1..])
    else Fail(Malformed, s[1..])
  }

  function ParseArray(s: string): (r: Parsed<Value>)
    ensures s != "" ==> |r.rest| < |s|
    ensures s == "" ==> r == Fail(Eof, "")
    decreases |s|, 0
  {
    match ReadNumber(s)
    case Fail(e, rest) => Fail(e, rest)
    case Ok(n, rest) =>
      if n == -1 then Ok(NilArr, rest)
      else if n < 0 then Fail(Panic, rest)
      else
        match ParseItems(n, rest)
        case Ok(items, rest') => Ok(Arr(items), rest')
        case Fail(e, rest') => Fail(e, rest')
  }

  function ParseItems(n: nat, s: string): (r: Parsed<seq<Value>>)
    ensures |r.rest| <= |s|
    decreases |s|, 1
  {
    if n == 0 then Ok([], s)
    else
      match Parse(s)
      case Fail(e, rest) => Fail(e, rest)
      case Ok(v, rest) =>
        match ParseItems(n - 1, rest)
        case Ok(vs, rest') => Ok([v] + vs, rest')
        case Fail(e, rest') => Fail(e, rest')
  }

  // ----- reading back what was written

  lemma FindIs(s: string, c: char, i: nat)
    requires i < |s| && s[i] == c && forall j :: 0 <= j < i ==> s[j] != c
    ensures Find(s, c) == i
  {
    if i > 0 {
      FindIs(s[1..], c, i - 1);
    }
  }

  lemma FindNone(s: string, c: char)
    requires forall j :: 0 <= j < |s| ==> s[j] != c
    ensures Find(s, c) == |s|
  {
  }

  lemma ReadLineOfLine(t: string, rest: string)
    requires '\n' !in t
    ensures ReadLine(t + CRLF + rest) == Ok(t, rest)
  {
    var s := t + CRLF + rest;
    assert forall j :: 0 <= j < |t| ==> s[j] == t[j];
    FindIs(s, '\n', |t| + 1);
    assert s[..|t|] == t && s[|t| + 2..] == rest;
  }

  lemma ReadNumberOfNumber(n: int, rest: string)
    requires MIN_INT <= n <= MAX_INT
    ensures ReadNumber(Itoa(n) + CRLF + rest) == Ok(n, rest)
  {
    ItoaHasNoNewline(n);
    ReadLineOfLine(Itoa(n), rest);
    AtoiItoa(n);
  }

  lemma ReadTrailerOf(rest: string)
    ensures ReadTrailer(CRLF + rest) == Ok((), rest)
  {
    assert (CRLF + rest)[2..] == rest;
  }

  lemma ReadFullOf(t: string, rest: string)
    ensures ReadFull(t + rest, |t|) == Ok(t, rest)
  {
    assert (t + rest)[..|t|] == t && (t + rest)[|t|..] == rest;
  }

  lemma ParseBulkOfBulk(t: string, rest: string)
    requires |t| <= MAX_INT
    ensures ParseBulk(Itoa(|t|) + CRLF + (t + (CRLF + rest))) == Ok(Str(t), rest)
  {
    hide ReadNumber, ReadFull, ReadTrailer, Itoa;
    ReadNumberOfNumber(|t|, t + (CRLF + rest));
    ReadFullOf(t, CRLF + rest);
    ReadTrailerOf(rest);
  }

  // The first byte chooses the reader.

  lemma ParseByKind(kind: char, s: string)
    ensures kind == '$' ==> Parse([kind] + s) == ParseBulk(s)
    ensures kind == '*' ==> Parse([kind] + s) == ParseArray(s)
  {
    assert ([kind] + s)[1..] == s;
  }

  lemma ParseEncodeLine(f: Frame, rest: string)
    requires Sendable(f) && (f.Simple? || f.Error? || f.Integer?)
    ensures Parse(Encode(f) + rest) == Ok(ToValue(f), rest)
  {
    hide ReadLine, ReadNumber, Itoa;
    var line := if f.Integer? then Itoa(f.n) else f.text;
    assert (Encode(f) + rest)[1..] == line + CRLF + rest;
    if f.Integer? {
      ReadNumberOfNumber(f.n, rest);
    } else {
      ReadLineOfLine(f.text, rest);
    }
  }

  lemma ParseEncodeNull(f: Frame, rest: string)
    requires f.NullBulk? || f.NullArray?
    ensures Parse(Encode(f) + rest) == Ok(ToValue(f), rest)
  {
    assert Itoa(-1) == "-1";
    assert (Encode(f) + rest)[1..] == Itoa(-1) + CRLF + rest;
    ReadNumberOfNumber(-1, rest);
  }

  lemma ParseEncodeBulk(t: string, rest: string)
    requires |t| <= MAX_INT
    ensures Parse(Encode(Bulk(t)) + rest) == Ok(Str(t), rest)
  {
    hide Parse, ParseBulk, Itoa;
    assert Encode(Bulk(t)) + rest == ['$'] + (Itoa(|t|) + CRLF + (t + (CRLF + rest)));
    ParseByKind('$', Itoa(|t|) + CRLF + (t + (CRLF + rest)));
    ParseBulkOfBulk(t, rest);
  }

  lemma ParseArrayOfItems(items: seq<Frame>, rest: string)
    requires |items| <= MAX_INT
    requires ParseItems(|items|, EncodeAll(items) + rest) == Ok(ToValues(items), rest)
    ensures ParseArray(Itoa(|items|) + CRLF + (EncodeAll(items) + rest)) == Ok(Arr(ToValues(items)), rest)
  {
    hide ReadNumber, ParseItems, Itoa, EncodeAll, ToValues;
    ReadNumberOfNumber(|items|, EncodeAll(items) + rest);
  }

  lemma ParseEncodeArray(items: seq<Frame>, rest: string)
    requires |items| <= MAX_INT
    requires ParseItems(|items|, EncodeAll(items) + rest) == Ok(ToValues(items), rest)
    ensures Parse(Encode(Array(items)) + rest) == Ok(Arr(ToValues(items)), rest)
  {
    hide Parse, ParseArray, ParseItems, Itoa, EncodeAll, ToValues;
    var body := EncodeAll(items);
    assert Encode(Array(items)) + rest == ['*'] + (Itoa(|items|) + CRLF + (body + rest));
    ParseByKind('*', Itoa(|items|) + CRLF + (body + rest));
    ParseArrayOfItems(items, rest);
  }

  /** Parsing an encoded frame gives its value and stops exactly at its end. */
  lemma {:induction false} ParseEncode(f: Frame, rest: string)
    requires Sendable(f)
    ensures Parse(Encode(f) + rest) == Ok(ToValue(f), rest)
    decreases f, 1
  {
    hide Parse, ParseItems, Encode, EncodeAll;
    match f
    case Array(items) =>
      ParseEncodeAll(items, rest);
      ParseEncodeArray(items, rest);
    case Bulk(t) => ParseEncodeBulk(t, rest);
    case NullBulk => ParseEncodeNull(f, rest);
    case NullArray => ParseEncodeNull(f, rest);
    case _ => ParseEncodeLine(f, rest);
  }

  lemma {:induction false} ParseEncodeAll(fs: seq<Frame>, rest: string)
    requires AllSendable(fs)
    ensures ParseItems(|fs|, EncodeAll(fs) + rest) == Ok(ToValues(fs), rest)
    decreases fs, 0
  {
    hide Parse, Encode, Sendable;
    if fs == [] {
      assert EncodeAll(fs) + rest == rest;
    } else {
      assert EncodeAll(fs) + rest == Encode(fs[0]) + (EncodeAll(fs[1..]) + rest);
      ParseEncode(fs[0], EncodeAll(fs[1..]) + rest);
      ParseEncodeAll(fs[1..], rest);
    }
  }

  // ----- reading a frame that was cut short

  predicate StrictPrefix(p: string, s: string) {
    p <= s && |p| < |s|
  }

  /** The reader failed and has nothing left. */
  predicate Exhausted<T>(r: Parsed<T>) {
    r.Fail? && r.fault != Panic && r.rest == ""
  }

  lemma PrefixSplit(p: string, a: string, b: string)
    requires StrictPrefix(p, a + b)
    ensures StrictPrefix(p, a) || (a <= p && StrictPrefix(p[|a|..], b))
  {
    if |p| < |a| {
      assert p == (a + b)[..|p|] == a[..|p|];
    } else {
      assert a == (a + b)[..|a|] == p[..|a|];
      assert p[|a|..] == (a + b)[..|p|][|a|..] == b[..|p| - |a|];
    }
  }

  lemma ReadLineCut(p: string, t: string)
    requires '\n' !in t && StrictPrefix(p, t + CRLF)
    ensures ReadLine(p) == Fail(Eof, "")
  {
    assert forall j :: 0 <= j < |p| ==> p[j] == if j < |t| then t[j] else '\r';
    FindNone(p, '\n');
  }

  /** A number line cut short exhausts the reader. */
  lemma ReadNumberCut(p: string, n: int)
    requires StrictPrefix(p, Itoa(n) + CRLF)
    ensures ReadNumber(p) == Fail(Eof, "")
  {
    ItoaHasNoNewline(n);
    ReadLineCut(p, Itoa(n));
  }

  lemma ParseBulkCut(p: string, t: string)
    requires |t| <= MAX_INT && StrictPrefix(p, Itoa(|t|) + CRLF + t + CRLF)
    ensures Exhausted(ParseBulk(p))
  {
    var head := Itoa(|t|) + CRLF;
    assert Itoa(|t|) + CRLF + t + CRLF == head + (t + CRLF);
    PrefixSplit(p, head, t + CRLF);
    if StrictPrefix(p, head) {
      ReadNumberCut(p, |t|);
    } else {
      var q := p[|head|..];
      assert p == Itoa(|t|) + CRLF + q;
      ReadNumberOfNumber(|t|, q);
      if |t| <= |q| {
        assert q[..|t|] == t;
        assert q[|t|..] == CRLF[..|q| - |t|];
      }
    }
  }

  lemma ParseCutLine(p: string, f: Frame)
    requires Sendable(f) && StrictPrefix(p, Encode(f)) && p != ""
    requires !f.Array? && !f.Bulk?
    ensures Exhausted(Parse(p))
  {
    assert Itoa(-1) == "-1";
    var line := match f
      case Simple(t) => t
      case Error(t) => t
      case Integer(n) => Itoa(n)
      case _ => Itoa(-1);
    assert Encode(f)[1..] == line + CRLF;
    assert p[1..] == (line + CRLF)[..|p| - 1];
    hide Itoa;
    if f.Simple? || f.Error? {
      ReadLineCut(p[1..], line);
    } else {
      ReadNumberCut(p[1..], if f.Integer? then f.n else -1);
    }
  }

  lemma ParseCutBulk(p: string, t: string)
    requires |t| <= MAX_INT && StrictPrefix(p, Encode(Bulk(t))) && p != ""
    ensures Exhausted(Parse(p))
  {
    assert Encode(Bulk(t))[1..] == Itoa(|t|) + CRLF + t + CRLF;
    ParseBulkCut(p[1..], t);
  }

  /** An array cut inside its length line is exhausted; one cut later fails as its items do. */
  lemma ParseCutHead(p: string, items: seq<Frame>)
    requires |items| <= MAX_INT && StrictPrefix(p, Encode(Array(items))) && p != ""
    ensures var n := 1 + |Itoa(|items|) + CRLF|;
            && (|p| < n ==> Exhausted(Parse(p)))
            && (n <= |p| ==> StrictPrefix(p[n..], EncodeAll(items)))
            && (n <= |p| && Exhausted(ParseItems(|items|, p[n..])) ==> Exhausted(Parse(p)))
  {
    hide Parse, ParseItems, Itoa, EncodeAll, ReadNumber;
    var head := Itoa(|items|) + CRLF;
    var q := p[1..];
    assert Encode(Array(items)) == ['*'] + (head + EncodeAll(items));
    assert p == ['*'] + q;
    ParseByKind('*', q);
    PrefixSplit(q, head, EncodeAll(items));
    if StrictPrefix(q, head) {
      ReadNumberCut(q, |items|);
    } else {
      assert q == Itoa(|items|) + CRLF + q[|head|..] && q[|head|..] == p[1 + |head|..];
      ReadNumberOfNumber(|items|, q[|head|..]);
    }
  }

  /** A frame cut anywhere before its end fails to parse, and the failed attempt eats all of it. */
  lemma {:induction false} ParseCut(p: string, f: Frame)
    requires Sendable(f) && StrictPrefix(p, Encode(f))
    ensures Exhausted(Parse(p))
    decreases f, 1
  {
    if p == "" {
    } else if f.Bulk? {
      ParseCutBulk(p, f.text);
    } else if f.Array? {
      ParseCutHead(p, f.items);
      var n := 1 + |Itoa(|f.items|) + CRLF|;
      if n <= |p| {
        ParseItemsCut(p[n..], f.items);
      }
    } else {
      ParseCutLine(p, f);
    }
  }

  lemma {:induction false} ParseItemsCut(p: string, fs: seq<Frame>)
    requires AllSendable(fs) && StrictPrefix(p, EncodeAll(fs))
    ensures Exhausted(ParseItems(|fs|, p))
    decreases fs, 0
  {
    PrefixSplit(p, Encode(fs[0]), EncodeAll(fs[1..]));
    if StrictPrefix(p, Encode(fs[0])) {
      ParseCut(p, fs[0]);
    } else {
      var q := p[|Encode(fs[0])|..];
      assert p == Encode(fs[0]) + q;
      ParseEncode(fs[0], q);
      ParseItemsCut(q, fs[1..]);
    }
  }

  /** One example of each frame. */
  lemma LineBytes()
    ensures Encode(Simple("OK")) == "+OK\r\n" && Encode(Error("ERR x")) == "-ERR x\r\n"
    ensures Encode(NullBulk) == "$-1\r\n" && Encode(NullArray) == "*-1\r\n"
  {
  }

  lemma NumberBytes()
    ensures Encode(Integer(-7)) == ":-7\r\n" && Encode(Integer(1)) == ":1\r\n"
  {
    assert Itoa(-7) == "-7" && Itoa(1) == "1";
  }

  lemma BulkBytes()
    ensures Encode(Bulk("hello")) == "$5\r\nhello\r\n" && Encode(Bulk("a")) == "$1\r\na\r\n"
  {
    assert Itoa(5) == "5" && Itoa(1) == "1";
  }

  lemma ArrayBytes()
    ensures Encode(Array([Bulk("a"), Integer(1)])) == "*2\r\n" + "$1\r\na\r\n" + ":1\r\n"
  {
    assert Itoa(2) == "2";
    BulkBytes();
    NumberBytes();
    var a, i: Frame := Bulk("a"), Integer(1);
    assert [a, i][1..] == [i] && [i][1..] == [];
    assert EncodeAll([i]) == Encode(i) + EncodeAll([]) && Encode(i) + "" == Encode(i);
    assert EncodeAll([a, i]) == Encode(a) + Encode(i);
    hide EncodeAll;
  }
}
