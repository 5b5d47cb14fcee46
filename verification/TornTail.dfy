/** A log that was cut off inside a command and then written to again. NewAOF opens the file for appending and
    nothing truncates the torn bytes, so the reader meets them in front of the next command. */
module TornTail {
  import opened Decimal
  import opened Resp
  import opened AofLog

  /** What an append of next left behind when it was cut off. */
  predicate Torn(tail: string, next: seq<string>) {
    Loggable(next) && StrictPrefix(tail, EncodeCommand(next))
  }

  /** The rest is what follows some bytes of s. */
  predicate Suffix(rest: string, s: string) {
    |rest| <= |s| && rest == s[|s| - |rest|..]
  }

  lemma SuffixTrans(a: string, b: string, c: string)
    requires Suffix(a, b) && Suffix(b, c)
    ensures Suffix(a, c)
  {
  }

  lemma SuffixOfAppend(rest: string, p: string, x: string)
    requires Suffix(rest, p + x) && |rest| <= |x|
    ensures Suffix(rest, x)
  {
  }

  // ----- the reader only ever drops bytes from the front

  lemma NumberSuffix(s: string)
    ensures Suffix(ReadNumber(s).rest, s)
  {
  }

  lemma FullSuffix(s: string, n: nat)
    ensures Suffix(ReadFull(s, n).rest, s)
  {
  }

  lemma TrailerSuffix(s: string)
    ensures Suffix(ReadTrailer(s).rest, s)
  {
  }

  lemma ParseBulkSuffix(s: string)
    ensures Suffix(ParseBulk(s).rest, s)
  {
    hide ReadNumber, ReadFull, ReadTrailer, Suffix;
    NumberSuffix(s);
    var r := ReadNumber(s);
    if r.Ok? && r.value >= 0 {
      FullSuffix(r.rest, r.value);
      var data := ReadFull(r.rest, r.value);
      SuffixTrans(data.rest, r.rest, s);
      if data.Ok? {
        TrailerSuffix(data.rest);
        SuffixTrans(ReadTrailer(data.rest).rest, data.rest, s);
      }
    }
  }

  lemma LineSuffix(s: string)
    ensures Suffix(ReadLine(s).rest, s)
  {
  }

  lemma ParseRest(s: string)
    requires s != ""
    ensures var t := s[1..];
            Parse(s).rest in {t, ReadLine(t).rest, ReadNumber(t).rest, ParseBulk(t).rest, ParseArray(t).rest}
  {
    hide ReadLine, ReadNumber, ParseBulk, ParseArray;
  }

  lemma {:induction false} ParseSuffix(s: string)
    ensures Suffix(Parse(s).rest, s)
    decreases |s|, 0
  {
    if s == "" {
    } else {
      ParseRest(s);
      assert Suffix(s[1..], s) && Suffix(s[1..], s[1..]);
      hide Parse, ReadLine, ReadNumber, ParseBulk, ParseArray, Suffix;
      LineSuffix(s[1..]);
      NumberSuffix(s[1..]);
      ParseBulkSuffix(s[1..]);
      ParseArraySuffix(s[1..]);
      SuffixTrans(Parse(s).rest, s[1..], s);
    }
  }

  lemma {:induction false} ParseArraySuffix(s: string)
    ensures Suffix(ParseArray(s).rest, s)
    decreases |s|, 0
  {
    hide ReadNumber, ParseItems, Suffix;
    NumberSuffix(s);
    var r := ReadNumber(s);
    if r.Ok? && r.value >= 0 {
      ParseItemsSuffix(r.value, r.rest);
      SuffixTrans(ParseItems(r.value, r.rest).rest, r.rest, s);
    }
  }

  lemma {:induction false} ParseItemsSuffix(n: nat, s: string)
    ensures Suffix(ParseItems(n, s).rest, s)
    decreases |s|, 1
  {
    hide Parse;
    if n > 0 {
      ParseSuffix(s);
      var r := Parse(s);
      if r.Ok? {
        ParseItemsSuffix(n - 1, r.rest);
        SuffixTrans(ParseItems(n - 1, r.rest).rest, r.rest, s);
      }
    }
  }

  // ----- the first parse over a torn tail, with x written behind it

  /** A number line cut short runs into what follows it. */
  lemma TornNumber(p: string, n: int, x: string)
    requires StrictPrefix(p, Itoa(n) + CRLF) && x != "" && x[0] == '*'
    ensures ReadNumber(p + x).Fail? && |ReadNumber(p + x).rest| < |x|
  {
    ItoaHasNoNewline(n);
    var s := p + x;
    assert forall j :: 0 <= j < |p| ==> s[j] == p[j] && p[j] == (Itoa(n) + CRLF)[j] && s[j] != '\n';
    assert s[|p|] == '*';
    var i := Find(s, '\n');
    assert i > |p|;
    if i < |s| && s[i - 1] == '\r' {
      var line := s[..i - 1];
      assert i - 1 > |p| && line[|p|] == '*';
      var body := if line != "" && (line[0] == '-' || line[0] == '+') then line[1..] else line;
      assert body[|body| - (|line| - |p|)] == '*' && !AllDigits(body);
    }
  }

  /** A word cut short: what is read in its place is not a string, or swallows the star of what follows. */
  predicate Foreign(v: Value) {
    v.Str? ==> '*' in v.s
  }

  lemma TornBulk(q: string, t: string, x: string)
    requires |t| <= MAX_INT && StrictPrefix(q, Itoa(|t|) + CRLF + (t + CRLF)) && x != "" && x[0] == '*'
    ensures var r := ParseBulk(q + x); |r.rest| < |x| && (r.Ok? ==> Foreign(r.value))
  {
    hide ReadNumber, Itoa;
    var head := Itoa(|t|) + CRLF;
    PrefixSplit(q, head, t + CRLF);
    if StrictPrefix(q, head) {
      TornNumber(q, |t|, x);
    } else {
      var q' := q[|head|..];
      assert q + x == head + (q' + x);
      ReadNumberOfNumber(|t|, q' + x);
      TornData(q', t, x);
    }
  }

  lemma TornData(q: string, t: string, x: string)
    requires StrictPrefix(q, t + CRLF) && x != "" && x[0] == '*'
    ensures var r := ReadFull(q + x, |t|);
            if r.Fail? then r.rest == ""
            else
              var r' := ReadTrailer(r.rest);
              |r'.rest| < |x| && (r'.Ok? ==> '*' in r.value)
  {
    var s := q + x;
    if |t| <= |s| {
      if |q| < |t| {
        assert s[..|t|][|q|] == '*';
      } else {
        assert s[|t|..] == q[|t|..] + x;
        assert |q| == |t| + 1 ==> q[|t|] == (t + CRLF)[|t|];
      }
    }
  }

  lemma StarIsNoString(x: string)
    requires x != "" && x[0] == '*'
    ensures Parse(x).Ok? ==> !Parse(x).value.Str?
  {
    hide ParseItems, ReadNumber;
  }

  lemma EncodeBulkIs(t: string)
    ensures Encode(Bulk(t)) == ['$'] + (Itoa(|t|) + CRLF + (t + CRLF))
  {
    hide Itoa;
  }

  lemma TornWord(p: string, t: string, x: string)
    requires |t| <= MAX_INT && StrictPrefix(p, Encode(Bulk(t))) && x != "" && x[0] == '*'
    ensures var r := Parse(p + x); |r.rest| < |x| && (r.Ok? ==> Foreign(r.value))
  {
    hide Parse, ParseBulk, Itoa, Encode;
    if p == "" {
      assert p + x == x;
      StarIsNoString(x);
    } else {
      var body := Itoa(|t|) + CRLF + (t + CRLF);
      EncodeBulkIs(t);
      PrefixSplit(p, ['$'], body);
      var q := p[1..];
      assert p == ['$'] + q && p + x == ['$'] + (q + x);
      ParseByKind('$', q + x);
      TornBulk(q, t, x);
    }
  }

  /** The words up to the tear, and a foreign value in place of the torn one. */
  predicate Diverges(items: seq<Value>, next: seq<string>, i: nat) {
    && i < |items| && i < |next|
    && (forall j :: 0 <= j < i ==> items[j] == Str(next[j]))
    && Foreign(items[i])
  }

  predicate Invented(items: seq<Value>, next: seq<string>) {
    |items| == |next| && exists i :: 0 <= i < |next| && Diverges(items, next, i)
  }

  lemma {:induction false} TornItems(p: string, args: seq<string>, x: string)
    requires Loggable(args) && StrictPrefix(p, EncodeAll(Words(args))) && x != "" && x[0] == '*'
    ensures var r := ParseItems(|args|, p + x); |r.rest| < |x| && (r.Ok? ==> Invented(r.value, args))
  {
    hide Parse, Encode;
    var e, more := Encode(Bulk(args[0])), EncodeAll(Words(args[1..]));
    assert Words(args)[0] == Bulk(args[0]) && Words(args)[1..] == Words(args[1..]);
    PrefixSplit(p, e, more);
    var n := |args| - 1;
    if StrictPrefix(p, e) {
      TornWord(p, args[0], x);
      var r := Parse(p + x);
      if r.Ok? && ParseItems(n, r.rest).Ok? {
        ItemsCount(n, r.rest);
        assert Diverges([r.value] + ParseItems(n, r.rest).value, args, 0);
      }
    } else {
      var p' := p[|e|..];
      assert p + x == e + (p' + x);
      ParseEncodeBulk(args[0], p' + x);
      TornItems(p', args[1..], x);
      var r := ParseItems(n, p' + x);
      if r.Ok? {
        var i :| 0 <= i < n && Diverges(r.value, args[1..], i);
        DivergesLater(r.value, args, i);
      }
    }
  }

  lemma DivergesLater(items: seq<Value>, args: seq<string>, i: nat)
    requires args != [] && |items| == |args| - 1 && Diverges(items, args[1..], i)
    ensures Invented([Str(args[0])] + items, args)
  {
    assert Diverges([Str(args[0])] + items, args, i + 1);
  }

  lemma {:induction false} ItemsCount(n: nat, s: string)
    ensures ParseItems(n, s).Ok? ==> |ParseItems(n, s).value| == n
    decreases n
  {
    hide Parse;
    if n > 0 && Parse(s).Ok? {
      ItemsCount(n - 1, Parse(s).rest);
    }
  }

  /** For every torn tail and whatever is written behind it, starting with a star as every command does: the
      first parse eats into what was written. It fails, or it invents a command that has the words of the torn one
      up to the tear and a foreign value there. */
  lemma TornParse(tail: string, next: seq<string>, x: string)
    requires tail != "" && Torn(tail, next) && x != "" && x[0] == '*'
    ensures var r := Parse(tail + x);
            && |r.rest| < |x|
            && (r.Ok? ==> r.value.Arr? && Invented(r.value.items, next))
  {
    hide Parse, ParseItems, Itoa, EncodeAll, ReadNumber, Invented;
    var n, body := |next|, EncodeAll(Words(next));
    var head := Itoa(n) + CRLF;
    assert EncodeCommand(next) == ['*'] + (head + body);
    var q := tail[1..];
    assert tail == ['*'] + q && tail + x == ['*'] + (q + x);
    ParseByKind('*', q + x);
    PrefixSplit(q, head, body);
    if StrictPrefix(q, head) {
      TornNumber(q, n, x);
    } else {
      var q' := q[|head|..];
      assert q + x == head + (q' + x);
      ReadNumberOfNumber(n, q' + x);
      TornItems(q', next, x);
    }
  }

  // ----- is the next command read at its own start?

  /** The reader, at work on s, comes to read at exactly t. */
  predicate ReadAt(s: string, t: string)
    decreases |s|
  {
    s == t ||
    match Parse(s)
    case Fail(e, rest) => e != Eof && e != Panic && ReadAt(rest, t)
    case Ok(_, rest) => s != "" && ReadAt(rest, t)
  }

  lemma {:induction false} ReadAtShorter(s: string, t: string)
    requires ReadAt(s, t)
    ensures |t| <= |s|
    decreases |s|
  {
    hide Parse;
    if s != t {
      ReadAtShorter(Parse(s).rest, t);
    }
  }

  /** For every torn or empty tail, every command appended behind it and everything after that: the command is
      read at its own start exactly when the tail is empty. */
  lemma ReadAtStartIffWhole(tail: string, next: seq<string>, cmd: seq<string>, rest: string)
    requires tail == "" || Torn(tail, next)
    ensures ReadAt(tail + (EncodeCommand(cmd) + rest), EncodeCommand(cmd) + rest) <==> tail == ""
  {
    var x := EncodeCommand(cmd) + rest;
    if tail == "" {
      assert tail + x == x;
    } else {
      StartsWithStar(cmd, rest);
      TornParse(tail, next, x);
      hide Parse, EncodeCommand;
      assert tail + x != x;
      if ReadAt(tail + x, x) {
        ReadAtShorter(Parse(tail + x).rest, x);
      }
    }
  }

  lemma StartsWithStar(cmd: seq<string>, rest: string)
    ensures EncodeCommand(cmd) != "" && (EncodeCommand(cmd) + rest)[0] == '*'
  {
  }
}
