/** The imperative halves of pkg/protocol: the recursive reader that advances a buffered input, and
    the array writer that accumulates a string. Both are proved against the functions of Resp. */
module RespReader {
  import opened Decimal
  import opened Resp

  datatype Result<+T> = Good(value: T) | Bad(fault: Fault)

  function Outcome<T>(r: Result<T>, rest: string): Parsed<T> {
    match r
    case Good(v) => Ok(v, rest)
    case Bad(e) => Fail(e, rest)
  }

  /** The result of reading more items after vs were already collected. */
  function Prepend(vs: seq<Value>, r: Parsed<seq<Value>>): Parsed<seq<Value>> {
    match r
    case Ok(more, rest) => Ok(vs + more, rest)
    case Fail(e, rest) => Fail(e, rest)
  }

  lemma ParseNoItems(s: string)
    ensures ParseItems(0, s) == Ok([], s)
  {
  }

  lemma PrependNothing(r: Parsed<seq<Value>>)
    ensures Prepend([], r) == r
  {
    if r.Ok? {
      assert [] + r.value == r.value;
    }
  }

  lemma PrependStep(vs: seq<Value>, k: nat, s: string)
    requires k > 0
    ensures match Resp.Parse(s)
            case Ok(v, rest) => Prepend(vs, ParseItems(k, s)) == Prepend(vs + [v], ParseItems(k - 1, rest))
            case Fail(e, rest) => Prepend(vs, ParseItems(k, s)) == Fail(e, rest)
  {
    if Resp.Parse(s).Ok? && ParseItems(k, s).Ok? {
      var v, more := Resp.Parse(s).value, ParseItems(k - 1, Resp.Parse(s).rest).value;
      assert vs + ([v] + more) == vs + [v] + more;
    }
  }

  /** A bufio.Reader over the bytes not yet consumed. */
  class Reader {
    var rest: string

    constructor (data: string)
      ensures rest == data
    {
      rest := data;
    }

    method ReadLine() returns (r: Result<string>)
      modifies this
      ensures Outcome(r, rest) == Resp.ReadLine(old(rest))
    {
      var i := Find(rest, '\n');
      if i == |rest| {
        rest := "";
        return Bad(Eof);
      }
      var line := rest[..i + 1];
      rest := rest[i + 1..];
      if |line| < 2 || line[|line| - 2..] != CRLF {
        return Bad(Malformed);
      }
      assert line[..|line| - 2] == old(rest)[..i - 1];
      return Good(line[..|line| - 2]);
    }

    method ReadNumber() returns (r: Result<int>)
      modifies this
      ensures Outcome(r, rest) == Resp.ReadNumber(old(rest))
    {
      var line := ReadLine();
      if line.Bad? {
        return Bad(line.fault);
      }
      var n := Atoi(line.value);
      if n.None? {
        return Bad(Malformed);
      }
      return Good(n.value);
    }

    method ReadFull(n: nat) returns (r: Result<string>)
      modifies this
      ensures Outcome(r, rest) == Resp.ReadFull(old(rest), n)
    {
      if n <= |rest| {
        var data := rest[..n];
        rest := rest[n..];
        return Good(data);
      }
      r := Bad(if rest == "" then Eof else UnexpectedEof);
      rest := "";
    }

    method ReadByte() returns (r: Result<char>)
      modifies this
      ensures old(rest) == "" ==> r == Bad(Eof) && rest == ""
      ensures old(rest) != "" ==> r == Good(old(rest)[0]) && rest == old(rest)[1..]
    {
      if rest == "" {
        return Bad(Eof);
      }
      r := Good(rest[0]);
      rest := rest[1..];
    }

    method ParseBulkString() returns (r: Result<Value>)
      modifies this
      ensures Outcome(r, rest) == ParseBulk(old(rest))
    {
      var length := ReadNumber();
      if length.Bad? {
        return Bad(length.fault);
      }
      if length.value == -1 {
        return Good(Str(""));
      }
      if length.value < 0 {
        return Bad(Panic);
      }
      var data := ReadFull(length.value);
      if data.Bad? {
        return Bad(data.fault);
      }
      var cr := ReadByte();
      if cr.Bad? || cr.value != '\r' {
        return Bad(Malformed);
      }
      var lf := ReadByte();
      if lf.Bad? || lf.value != '\n' {
        return Bad(Malformed);
      }
      return Good(Str(data.value));
    }

    /** Parse consumes exactly what the function says, on success and on every failure. */
    method Parse() returns (r: Result<Value>)
      modifies this
      ensures Outcome(r, rest) == Resp.Parse(old(rest))
      decreases |rest|, 0
    {
      var first := ReadByte();
      if first.Bad? {
        return Bad(first.fault);
      }
      match first.value {
        case '+' =>
          var line := ReadLine();
          r := if line.Good? then Good(Str(line.value)) else Bad(line.fault);
        case '-' =>
          var line := ReadLine();
          r := if line.Good? then Good(Str(line.value)) else Bad(line.fault);
        case ':' =>
          var n := ReadNumber();
          r := if n.Good? then Good(Int(n.value)) else Bad(n.fault);
        case '$' =>
          r := ParseBulkString();
        case '*' =>
          r := ParseArray();
        case _ =>
          r := Bad(Malformed);
      }
    }

    method ParseArray() returns (r: Result<Value>)
      modifies this
      ensures Outcome(r, rest) == Resp.ParseArray(old(rest))
      decreases |rest|, 0
    {
      var length := ReadNumber();
      if length.Bad? {
        return Bad(length.fault);
      }
      if length.value == -1 {
        return Good(NilArr);
      }
      if length.value < 0 {
        return Bad(Panic);
      }
      var items := ParseElements(length.value);
      r := if items.Good? then Good(Arr(items.value)) else Bad(items.fault);
    }

    /** The element loop of parseArray. */
    method ParseElements(length: nat) returns (r: Result<seq<Value>>)
      modifies this
      ensures Outcome(r, rest) == ParseItems(length, old(rest))
      decreases |rest|, 1
    {
      hide Resp.Parse, ParseItems;
      var items: seq<Value> := [];
      PrependNothing(ParseItems(length, rest));
      for i := 0 to length
        invariant |rest| <= |old(rest)|
        invariant ParseItems(length, old(rest)) == Prepend(items, ParseItems(length - i, rest))
      {
        PrependStep(items, length - i, rest);
        var element := Parse();
        if element.Bad? {
          return Bad(element.fault);
        }
        items := items + [element.value];
      }
      ParseNoItems(rest);
      assert items + [] == items;
      return Good(items);
    }
  }

  /** The element types EncodeArray accepts; int and int64 print alike. */
  datatype Element = Text(s: string) | Number(n: int)

  function ElementFrame(e: Element): Frame {
    match e
    case Text(s) => Bulk(s)
    case Number(n) => Integer(n)
  }

  function Command(es: seq<Element>): Frame {
    Array(seq(|es|, i requires 0 <= i < |es| => ElementFrame(es[i])))
  }

  lemma {:induction false} EncodeAllAppend(fs: seq<Frame>, gs: seq<Frame>)
    ensures EncodeAll(fs + gs) == EncodeAll(fs) + EncodeAll(gs)
  {
    if fs == [] {
      assert fs + gs == gs;
    } else {
      assert (fs + gs)[1..] == fs[1..] + gs;
      EncodeAllAppend(fs[1..], gs);
    }
  }

  lemma EncodeAllSnoc(fs: seq<Frame>, i: nat)
    requires i < |fs|
    ensures EncodeAll(fs[..i + 1]) == EncodeAll(fs[..i]) + Encode(fs[i])
  {
    EncodeAllAppend(fs[..i], [fs[i]]);
    assert fs[..i + 1] == fs[..i] + [fs[i]];
    assert EncodeAll([fs[i]]) == Encode(fs[i]) + EncodeAll([]);
  }

  lemma EncodeNothing(s: string)
    ensures s + EncodeAll([]) == s
  {
  }

  lemma EncodeCommand(es: seq<Element>)
    ensures Encode(Command(es)) == "*" + Itoa(|es|) + CRLF + EncodeAll(Command(es).items)
  {
  }

  method EncodeElement(e: Element) returns (s: string)
    ensures s == Encode(ElementFrame(e))
  {
    match e {
      case Text(t) => s := "$" + Itoa(|t|) + CRLF + t + CRLF;
      case Number(n) => s := ":" + Itoa(n) + CRLF;
    }
  }

  method EncodeArray(elements: seq<Element>) returns (result: string)
    ensures result == Encode(Command(elements))
  {
    hide EncodeAll, Itoa, Encode;
    ghost var frames := Command(elements).items;
    result := "*" + Itoa(|elements|) + CRLF;
    ghost var head := result;
    EncodeNothing(head);
    for i := 0 to |elements|
      invariant result == head + EncodeAll(frames[..i])
    {
      var encoded := EncodeElement(elements[i]);
      EncodeAllSnoc(frames, i);
      assert head + EncodeAll(frames[..i]) + encoded == head + (EncodeAll(frames[..i]) + encoded);
      result := result + encoded;
    }
    assert frames[..|elements|] == frames;
    EncodeCommand(elements);
  }
}
