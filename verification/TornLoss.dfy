/** A write appended behind torn bytes is not recovered: the exact condition for the next append to be safe. */
module TornLoss {
  import opened Sequences
  import opened Options
  import opened Decimal
  import opened Durations
  import opened Resp
  import opened AofLog
  import opened TornTail
  import opened Persistence
  import opened PersistenceRuns
  import M = CacheModel
  import W = RespReader
  import T = TornCases

  // ----- bytes without a star hold no command

  lemma StarlessIsNoArray(s: string)
    requires '*' !in s
    ensures Parse(s).Ok? ==> !Parse(s).value.Arr?
  {
    hide ReadLine, ReadNumber, ParseBulk, ParseArray;
    if s != "" && s[0] == '$' {
      BulkIsString(s[1..]);
    }
  }

  lemma BulkIsString(s: string)
    ensures ParseBulk(s).Ok? ==> ParseBulk(s).value.Str?
  {
    hide ReadNumber, ReadFull, ReadTrailer;
  }

  lemma {:induction false} StarlessReadsNothing(s: string)
    requires '*' !in s
    ensures ReadEntries(s) == None || ReadEntries(s) == Some([])
    decreases |s|
  {
    hide Parse;
    if s != "" {
      StarlessIsNoArray(s);
      ParseSuffix(s);
      StarlessReadsNothing(Parse(s).rest);
      if Parse(s).Ok? {
        assert EntryOf(Parse(s).value) == [];
        assert ReadEntries(s) == After([], ReadEntries(Parse(s).rest));
        SomeAppend([], ReadEntries(Parse(s).rest));
      }
    }
  }

  // ----- the one command that may be invented does not concern the key

  lemma {:induction false} PartsAt(items: seq<Value>, j: nat)
    requires j < |items|
    ensures (forall m :: 0 <= m <= j ==> items[m].Str?) ==> Parts(items)[j] == items[j].s
    ensures (exists m :: 0 <= m <= j && !items[m].Str?) ==> Parts(items)[j] == ""
  {
    if items[0].Str? && j > 0 {
      PartsAt(items[1..], j - 1);
      assert forall m :: 0 < m <= j ==> items[m] == items[1..][m - 1];
    }
  }

  lemma InventedMisses(items: seq<Value>, next: seq<string>, k: string)
    requires Invented(items, next) && k != "" && '*' !in k && k !in next
    ensures Parts(items) != [] && !Touches(ToOperation(Parts(items)), k)
  {
    var i :| 0 <= i < |next| && Diverges(items, next, i);
    var parts := Parts(items);
    PartsAt(items, 0);
    if |parts| >= 2 {
      PartsAt(items, 1);
      assert i > 1 ==> items[1] == Str(next[1]);
      assert i == 1 ==> items[0] == Str(next[0]);
    }
    assert i == 0 ==> parts[0] != "SET" && parts[0] != "DEL";
    assert |parts| >= 2 && i >= 1 ==> parts[1] != k;
  }

  predicate Starless(cmd: seq<string>) {
    forall i :: 0 <= i < |cmd| ==> '*' !in cmd[i]
  }

  lemma {:induction false} StarlessWords(cmd: seq<string>)
    requires Starless(cmd)
    ensures '*' !in EncodeAll(Words(cmd))
  {
    if cmd != [] {
      assert Words(cmd)[0] == Bulk(cmd[0]) && Words(cmd)[1..] == Words(cmd[1..]);
      ItoaHasNoNewline(|cmd[0]|);
      EncodeBulkIs(cmd[0]);
      hide Encode, Itoa;
      StarlessWords(cmd[1..]);
    }
  }

  lemma OneStar(cmd: seq<string>)
    requires Starless(cmd)
    ensures EncodeCommand(cmd) != "" && EncodeCommand(cmd)[0] == '*' && '*' !in EncodeCommand(cmd)[1..]
  {
    StarlessWords(cmd);
    ItoaHasNoNewline(|cmd|);
    assert EncodeCommand(cmd) == ['*'] + (Itoa(|cmd|) + CRLF + EncodeAll(Words(cmd)));
    assert EncodeCommand(cmd)[1..] == Itoa(|cmd|) + CRLF + EncodeAll(Words(cmd));
  }

  /** Whatever the tear: behind it, a starless command is read as nothing, or as one invented command. */
  lemma BehindTear(tail: string, next: seq<string>, cmd: seq<string>, k: string)
    requires tail != "" && Torn(tail, next) && Starless(cmd)
    requires k != "" && '*' !in k && k !in next
    ensures var e := ReadEntries(tail + EncodeCommand(cmd));
            e.Some? ==> forall i :: 0 <= i < |e.value| ==> e.value[i] != [] && !Touches(ToOperation(e.value[i]), k)
  {
    hide Parse, EncodeCommand, Invented, Parts, ToOperation, Touches;
    var x := EncodeCommand(cmd);
    OneStar(cmd);
    TornParse(tail, next, x);
    ParseSuffix(tail + x);
    var r := Parse(tail + x);
    SuffixOfAppend(r.rest, tail, x);
    assert '*' !in r.rest by {
      assert forall i :: 0 <= i < |r.rest| ==> r.rest[i] == x[1..][|x| - |r.rest| + i - 1];
    }
    StarlessReadsNothing(r.rest);
    if r.Ok? {
      InventedMisses(r.value.items, next, k);
    }
  }

  // ----- on top of a whole log

  lemma {:induction false} ReadLogThen(cmds: Commands, z: string)
    requires AllLoggable(cmds)
    ensures ReadEntries(LogOf(cmds) + z) == After(NonEmpty(cmds), ReadEntries(z))
  {
    hide ReadEntries, EncodeCommand, Loggable;
    if cmds == [] {
      assert LogOf(cmds) + z == z;
      SomeAppend([], ReadEntries(z));
    } else {
      var rest := LogOf(cmds[1..]) + z;
      assert LogOf(cmds) + z == EncodeCommand(cmds[0]) + rest;
      ReadCommand(cmds[0], rest);
      ReadLogThen(cmds[1..], z);
      assert NonEmpty([cmds[0]]) == (if cmds[0] == [] then [] else [cmds[0]]);
      AfterMore(NonEmpty([cmds[0]]), NonEmpty(cmds[1..]), ReadEntries(z));
    }
  }

  lemma {:induction false} OperationsAppend(a: Commands, b: Commands)
    ensures ToOperations(a + b) == ToOperations(a) + ToOperations(b)
  {
    if b == [] {
      assert a + b == a;
    } else {
      assert (a + b)[..|a + b| - 1] == a + b[..|b| - 1];
      OperationsAppend(a, b[..|b| - 1]);
    }
  }

  lemma {:induction false} Untouching(entries: Commands, k: string)
    requires forall i :: 0 <= i < |entries| ==> entries[i] != [] && !Touches(ToOperation(entries[i]), k)
    ensures forall i :: 0 <= i < |ToOperations(entries)| ==> !Touches(ToOperations(entries)[i], k)
  {
    if entries != [] {
      Untouching(entries[..|entries| - 1], k);
    }
  }

  /** Operations on other keys never bring a key in, even when they evict. */
  lemma {:induction false} ReplayUntouched(c: M.Cache, ops: seq<Operation>, more: seq<Operation>, clock: nat -> int, k: string)
    requires forall i :: 0 <= i < |more| ==> !Touches(more[i], k)
    ensures var before, after := Replay(c, ops, clock).items, Replay(c, ops + more, clock).items;
            k in after ==> k in before && after[k] == before[k]
    decreases |more|
  {
    if more == [] {
      assert ops + more == ops;
    } else {
      var last := |more| - 1;
      assert (ops + more)[..|ops + more| - 1] == ops + more[..last];
      ReplayUntouched(c, ops, more[..last], clock, k);
      OtherKey(Replay(c, ops + more[..last], clock), more[last], clock(|ops + more| - 1), k);
    }
  }

  lemma OtherKey(c: M.Cache, op: Operation, now: int, k: string)
    requires !Touches(op, k)
    ensures var after := ApplyOp(c, op, now).items; k in after ==> k in c.items && after[k] == c.items[k]
  {
    hide M.Minus, Duration;
  }

  /** Recovery from a log with an append behind its torn bytes: the whole commands, then what is read behind them. */
  lemma RecoveredBehind(s: System, keys: set<string>, next: seq<string>, cmd: seq<string>, clock: nat -> int, clock': nat -> int)
    returns (c: M.Cache, e: Commands)
    requires Inv(s, keys) && s.torn != "" && Torn(s.torn, next) && Recovered(Append(s, cmd), "", clock, clock').Some?
    ensures ReadEntries(s.torn + EncodeCommand(cmd)) == Some(e)
    ensures Recovered(Append(s, cmd), "", clock, clock').value == Replay(c, ToOperations(s.log) + ToOperations(e), clock')
    ensures Perm(Replay(c, ToOperations(s.log), clock')) == Logged(s)
  {
    var z := s.torn + EncodeCommand(cmd);
    AppendIsAppend(s, cmd);
    RecoveryIsLogged(s, keys, next, "", clock, clock');
    ReadFile(s, keys, next, "");
    assert File(Append(s, cmd)) + "" == LogOf(s.log) + z && File(s) + "" == File(s) by {
      hide EncodeCommand, LogOf;
    }
    assert AllLoggable(s.log) && forall i :: 0 <= i < |s.log| ==> s.log[i] != [];
    ReadLogThen(s.log, z);
    NoneEmpty(s.log);
    AppendFrame(s, cmd);
    hide ReadEntries, LogOf, Perm, Replay, PermReplay, ToOperations, SnapshotOperations, EncodeCommand, Loggable, File, Torn, Inv,
         Logged, ToOperation, Touches, NonEmpty, Append;
    e := ReadEntries(z).value;
    OperationsAppend(s.log, e);
    var loaded := if s.snapshot.None? then Some([]) else ReadEntries(Bytes(s.snapshot).value);
    c := Replay(M.Empty(s.cache.maxSize), SnapshotOperations(loaded.value), clock);
  }

  /** What an append behind torn bytes leaves of a key after recovery: what the files knew before. */
  lemma AppendBehindTearIsLost(s: System, keys: set<string>, next: seq<string>, cmd: seq<string>, k: string,
                               clock: nat -> int, clock': nat -> int)
    requires Inv(s, keys) && s.torn != "" && Torn(s.torn, next)
    requires Starless(cmd) && k != "" && '*' !in k && k !in next
    ensures var r := Recovered(Append(s, cmd), "", clock, clock');
            r.Some? && k in Perm(r.value) ==> k in Logged(s) && Logged(s)[k] == Perm(r.value)[k]
  {
    hide *;
    if Recovered(Append(s, cmd), "", clock, clock').Some? {
      var c, e := RecoveredBehind(s, keys, next, cmd, clock, clock');
      BehindTear(s.torn, next, cmd, k);
      Untouching(e, k);
      ReplayUntouched(c, ToOperations(s.log), ToOperations(e), clock', k);
      PermAt(Replay(c, ToOperations(s.log), clock'), Replay(c, ToOperations(s.log) + ToOperations(e), clock'), k);
    }
  }

  // ----- a value with stars: commands may be read from inside it, but never the write itself

  predicate Writes(op: Operation, k: string, v: string) {
    op.kind == "SET" && op.key == k && op.value == v
  }

  /** The bytes an item takes at least. */
  function Cost(v: Value): nat {
    if v.Str? then |v.s| + 3 else 0
  }

  function Costs(vs: seq<Value>): nat {
    if vs == [] then 0 else Cost(vs[0]) + Costs(vs[1..])
  }

  lemma BulkCost(s: string)
    ensures ParseBulk(s).Ok? ==> |ParseBulk(s).rest| + Cost(ParseBulk(s).value) <= |s| + 1
  {
    var r := ReadNumber(s);
    NumberCost(s);
    hide ReadNumber;
    if r.Ok? && r.value >= 0 {
      var data := ReadFull(r.rest, r.value);
      if data.Ok? {
        assert |data.value| == r.value && |data.rest| + r.value == |r.rest|;
        hide ReadFull;
      }
    }
  }

  lemma NumberCost(s: string)
    ensures ReadNumber(s).Ok? ==> |ReadNumber(s).rest| + 3 <= |s|
  {
  }

  lemma ParseCost(s: string)
    ensures Parse(s).Ok? ==> |Parse(s).rest| + Cost(Parse(s).value) <= |s|
  {
    hide ParseBulk, ParseArray, ReadNumber;
    if s != "" {
      BulkCost(s[1..]);
      ArrayIsNoString(s[1..]);
    }
  }

  lemma ArrayIsNoString(s: string)
    ensures ParseArray(s).Ok? ==> !ParseArray(s).value.Str?
  {
    hide ReadNumber, ParseItems;
  }

  lemma {:induction false} ItemsCost(n: nat, s: string)
    ensures var r := ParseItems(n, s); r.Ok? ==> |r.rest| + Costs(r.value) <= |s|
    decreases n
  {
    hide Parse;
    if n > 0 {
      ParseCost(s);
      var r := Parse(s);
      if r.Ok? && ParseItems(n - 1, r.rest).Ok? {
        ItemsCost(n - 1, r.rest);
        var more := ParseItems(n - 1, r.rest).value;
        assert ([r.value] + more)[1..] == more;
      }
    }
  }

  lemma ArrayStartsWithStar(s: string)
    ensures Parse(s).Ok? && Parse(s).value.Arr? ==> s != "" && s[0] == '*'
  {
    hide ParseBulk, ParseArray, ReadNumber, ReadLine;
    if s != "" {
      BulkIsString(s[1..]);
    }
  }

  lemma ArrayCost(s: string)
    ensures Parse(s).Ok? && Parse(s).value.Arr? ==> s[0] == '*' && 4 + Costs(Parse(s).value.items) <= |s|
  {
    hide Parse, ReadNumber, ParseItems, Costs;
    ArrayStartsWithStar(s);
    if s != "" && s[0] == '*' {
      assert s == ['*'] + s[1..];
      ParseByKind('*', s[1..]);
      NumberCost(s[1..]);
      var r := ReadNumber(s[1..]);
      if r.Ok? && r.value >= 0 {
        ItemsCost(r.value, r.rest);
      }
    }
  }

  lemma CostsOfThree(vs: seq<Value>)
    requires |vs| >= 3
    ensures Cost(vs[0]) + Cost(vs[1]) + Cost(vs[2]) <= Costs(vs)
  {
    assert vs[1..][0] == vs[1] && vs[1..][1..][0] == vs[2];
    assert Costs(vs[1..]) == Cost(vs[1]) + Costs(vs[1..][1..]);
  }

  /** A command that writes v to k takes this many bytes, however it is encoded. */
  lemma WriteCost(items: seq<Value>, k: string, v: string)
    requires items != [] && Writes(ToOperation(Parts(items)), k, v) && v != ""
    ensures 12 + |k| + |v| <= Costs(items)
  {
    PartsAt(items, 0);
    PartsAt(items, 1);
    PartsAt(items, 2);
    assert items[0].Str? && items[1].Str? && items[2].Str?;
    CostsOfThree(items);
  }

  /** A star is among the last n bytes. */
  predicate StarsWithin(z: string, n: nat) {
    forall p :: 0 <= p < |z| && z[p] == '*' ==> |z| - p <= n
  }

  lemma {:induction false} NoRoomForWrite(z: string, k: string, v: string)
    requires StarsWithin(z, |v| + 9) && v != ""
    ensures ReadEntries(z).Some? ==>
              forall i :: 0 <= i < |ReadEntries(z).value| ==>
                ReadEntries(z).value[i] != [] && !Writes(ToOperation(ReadEntries(z).value[i]), k, v)
    decreases |z|
  {
    hide Parse, ToOperation, Writes, Parts;
    if z != "" {
      ParseSuffix(z);
      ArrayCost(z);
      var r := Parse(z);
      NoRoomForWrite(r.rest, k, v);
      if r.Ok? && r.value.Arr? && r.value.items != [] {
        if Writes(ToOperation(Parts(r.value.items)), k, v) {
          WriteCost(r.value.items, k, v);
        }
      }
    }
  }

  /** The bytes of a logged write around its value. */
  function BeforeValue(k: string, v: string): string {
    Itoa(4) + CRLF + EncodeAll(Words(["SET", k])) + (['$'] + (Itoa(|v|) + CRLF))
  }

  function BehindValue(): string {
    CRLF + Encode(Bulk("0"))
  }

  lemma LoggedWrite(k: string, v: string)
    ensures EncodeCommand(["SET", k, v, "0"]) == ['*'] + (BeforeValue(k, v) + v + BehindValue())
  {
    var cmd, pre, post := ["SET", k, v, "0"], ["SET", k], [v, "0"];
    SplitWords(pre, post);
    assert pre + post == cmd;
    W.EncodeAllAppend(Words(pre), Words(post));
    TwoWords(v, "0");
    EncodeBulkIs(v);
    HeadOf(cmd);
    hide Encode, EncodeAll, EncodeCommand, Itoa, Words;
    var length := ['$'] + (Itoa(|v|) + CRLF);
    assert Encode(Bulk(v)) == length + (v + CRLF);
    Shuffle(Itoa(4) + CRLF, EncodeAll(Words(pre)), length, v, CRLF, Encode(Bulk("0")));
  }

  lemma SplitWords(a: seq<string>, b: seq<string>)
    ensures Words(a + b) == Words(a) + Words(b)
  {
  }

  lemma HeadOf(cmd: seq<string>)
    ensures EncodeCommand(cmd) == ['*'] + (Itoa(|cmd|) + CRLF + EncodeAll(Words(cmd)))
  {
    hide Itoa, EncodeAll;
  }

  lemma Shuffle(a: string, p: string, l: string, v: string, c: string, z: string)
    ensures a + (p + ((l + (v + c)) + z)) == (a + p + l) + v + (c + z)
  {
  }

  lemma TwoWords(v: string, w: string)
    ensures EncodeAll(Words([v, w])) == Encode(Bulk(v)) + Encode(Bulk(w))
  {
    hide Encode;
    assert Words([v, w])[0] == Bulk(v) && Words([v, w])[1..] == [Bulk(w)] && [Bulk(w)][1..] == [];
    assert EncodeAll([Bulk(w)]) == Encode(Bulk(w)) + EncodeAll([]);
    assert Encode(Bulk(w)) + "" == Encode(Bulk(w));
  }

  lemma StarlessAround(k: string, v: string)
    requires '*' !in k
    ensures '*' !in BeforeValue(k, v) && '*' !in BehindValue() && |BehindValue()| == 9
  {
    StarlessWords(["SET", k]);
    ItoaHasNoNewline(4);
    ItoaHasNoNewline(|v|);
    EncodeBulkIs("0");
    assert Itoa(1) == "1";
    hide Encode, EncodeAll, Itoa, Words;
  }

  lemma StarsInValue(k: string, v: string)
    requires '*' !in k
    ensures var x := EncodeCommand(["SET", k, v, "0"]); x != "" && x[0] == '*' && StarsWithin(x[1..], |v| + 9)
  {
    hide EncodeCommand, BeforeValue, BehindValue, StarsWithin;
    LoggedWrite(k, v);
    StarlessAround(k, v);
    var x, tail := EncodeCommand(["SET", k, v, "0"]), BeforeValue(k, v) + v + BehindValue();
    assert x[1..] == tail;
    StarsWithinValue(BeforeValue(k, v), v, BehindValue());
  }

  lemma StarsWithinValue(head: string, v: string, post: string)
    requires '*' !in head && '*' !in post
    ensures StarsWithin(head + v + post, |v| + |post|)
  {
  }

  lemma StarsOfSuffix(z: string, x: string, n: nat)
    requires Suffix(z, x) && StarsWithin(x, n)
    ensures StarsWithin(z, n)
  {
    forall p | 0 <= p < |z| && z[p] == '*' ensures |z| - p <= n {
      assert x[|x| - |z| + p] == '*';
    }
  }

  /** Behind a tear, no command that is read writes v to k, whatever stars v holds. */
  lemma BehindTearNoWrite(tail: string, next: seq<string>, k: string, v: string)
    requires tail != "" && Torn(tail, next) && v != "" && k != "" && '*' !in k && k !in next
    ensures var e := ReadEntries(tail + EncodeCommand(["SET", k, v, "0"]));
            e.Some? ==> forall i :: 0 <= i < |e.value| ==> e.value[i] != [] && !Writes(ToOperation(e.value[i]), k, v)
  {
    var x := EncodeCommand(["SET", k, v, "0"]);
    StarsInValue(k, v);
    TornParse(tail, next, x);
    ParseSuffix(tail + x);
    hide Parse, EncodeCommand, Invented, Parts, ToOperation, StarsWithin, Torn;
    var r := Parse(tail + x);
    SuffixOfAppend(r.rest, tail, x);
    assert Suffix(r.rest, x[1..]);
    StarsOfSuffix(r.rest, x[1..], |v| + 9);
    NoRoomForWrite(r.rest, k, v);
    if r.Ok? {
      InventedMisses(r.value.items, next, k);
    }
  }

  lemma {:induction false} NotWriting(entries: Commands, k: string, v: string)
    requires forall i :: 0 <= i < |entries| ==> entries[i] != [] && !Writes(ToOperation(entries[i]), k, v)
    ensures forall i :: 0 <= i < |ToOperations(entries)| ==> !Writes(ToOperations(entries)[i], k, v)
  {
    if entries != [] {
      NotWriting(entries[..|entries| - 1], k, v);
    }
  }

  /** Operations that do not write v to k bring it there no more than they found it. */
  lemma {:induction false} ReplayNotWriting(c: M.Cache, ops: seq<Operation>, more: seq<Operation>, clock: nat -> int,
                                            k: string, v: string)
    requires forall i :: 0 <= i < |more| ==> !Writes(more[i], k, v)
    ensures var before, after := Replay(c, ops, clock).items, Replay(c, ops + more, clock).items;
            k in after && after[k].value == v ==> k in before && after[k] == before[k]
    decreases |more|
  {
    if more == [] {
      assert ops + more == ops;
    } else {
      var last := |more| - 1;
      assert (ops + more)[..|ops + more| - 1] == ops + more[..last];
      ReplayNotWriting(c, ops, more[..last], clock, k, v);
      OtherValue(Replay(c, ops + more[..last], clock), more[last], clock(|ops + more| - 1), k, v);
    }
  }

  lemma OtherValue(c: M.Cache, op: Operation, now: int, k: string, v: string)
    requires !Writes(op, k, v)
    ensures var after := ApplyOp(c, op, now).items; k in after && after[k].value == v ==> k in c.items && after[k] == c.items[k]
  {
    hide M.Minus, Duration;
  }

  /** A write of a nonempty value behind torn bytes is not recovered, unless the files knew it before. */
  lemma WriteBehindTearIsLost(s: System, keys: set<string>, next: seq<string>, k: string, v: string,
                              clock: nat -> int, clock': nat -> int)
    requires Inv(s, keys) && s.torn != "" && Torn(s.torn, next)
    requires v != "" && k != "" && '*' !in k && k !in next
    ensures var r := Recovered(Append(s, ["SET", k, v, "0"]), "", clock, clock');
            r.Some? && k in Perm(r.value) && Perm(r.value)[k] == v ==> k in Logged(s) && Logged(s)[k] == v
  {
    hide *;
    var cmd := ["SET", k, v, "0"];
    if Recovered(Append(s, cmd), "", clock, clock').Some? {
      var c, e := RecoveredBehind(s, keys, next, cmd, clock, clock');
      BehindTearNoWrite(s.torn, next, k, v);
      NotWriting(e, k, v);
      ReplayNotWriting(c, ToOperations(s.log), ToOperations(e), clock', k, v);
      PermValueAt(Replay(c, ToOperations(s.log), clock'), Replay(c, ToOperations(s.log) + ToOperations(e), clock'), k, v);
    }
  }

  lemma PermValueAt(before: M.Cache, after: M.Cache, k: string, v: string)
    requires k in after.items && after.items[k].value == v ==> k in before.items && after.items[k] == before.items[k]
    ensures k in Perm(after) && Perm(after)[k] == v ==> k in Perm(before) && Perm(before)[k] == v
  {
  }

  lemma AppendFrame(s: System, cmd: seq<string>)
    ensures Append(s, cmd).snapshot == s.snapshot && Append(s, cmd).cache == s.cache
  {
  }

  lemma PermAt(before: M.Cache, after: M.Cache, k: string)
    requires k in after.items ==> k in before.items && after.items[k] == before.items[k]
    ensures k in Perm(after) ==> k in Perm(before) && Perm(after)[k] == Perm(before)[k]
  {
  }

  // ----- the exact condition

  /** A write of a new key is recovered exactly when the log has no torn bytes. */
  lemma RecoverableIffWhole(s: System, keys: set<string>, next: seq<string>, k: string, v: string, now: int,
                            clock: nat -> int, clock': nat -> int)
    requires Inv(s, keys) && (s.torn == "" || Torn(s.torn, next))
    requires k in keys && Short(k) && Short(v) && k !in Logged(s)
    requires k != "" && '*' !in k && k !in next
    ensures var s' := Do(s, Write(k, v, 0, now));
            var r := Recovered(s', "", clock, clock');
            (r.Some? && k in Perm(r.value) && Perm(r.value)[k] == v) <==> s.torn == ""
  {
    var step := Write(k, v, 0, now);
    var cmd := ["SET", k, v, "0"];
    if s.torn == "" {
      WrittenIsLogged(s, keys, k, v, now);
      hide Inv, Do, Perm, Logged, Recovered;
      RecoveryIsLogged(Do(s, step), keys, next, "", clock, clock');
    } else {
      var s1 := s.(cache := M.Set(s.cache, k, v, 0, now));
      CachedInv(s, keys, k, v, now);
      hide Inv, Do, Perm, Logged, Recovered, Append, M.Set;
      SameFiles(s, s1);
      if v == "" {
        assert Starless(cmd);
        AppendBehindTearIsLost(s1, keys, next, cmd, k, clock, clock');
      } else {
        WriteBehindTearIsLost(s1, keys, next, k, v, clock, clock');
      }
    }
  }

  lemma CachedInv(s: System, keys: set<string>, k: string, v: string, now: int)
    requires Inv(s, keys) && k in keys && Short(k) && Short(v)
    ensures var s1 := s.(cache := M.Set(s.cache, k, v, 0, now));
            Inv(s1, keys) && Do(s, Write(k, v, 0, now)) == Append(s1, ["SET", k, v, "0"])
  {
    DurationExact(0);
    assert Itoa(0) == "0";
    SetRoomy(s.cache, keys, k, v, 0, now);
    hide M.Set, WellLogged, M.Roomy, Cut, Append;
  }

  lemma WrittenIsLogged(s: System, keys: set<string>, k: string, v: string, now: int)
    requires Inv(s, keys) && s.torn == "" && k in keys && Short(k) && Short(v)
    ensures var s' := Do(s, Write(k, v, 0, now)); Inv(s', keys) && k in Logged(s') && Logged(s')[k] == v
  {
    var cmd := ["SET", k, v, "0"];
    assert Itoa(0) == "0";
    AtoiItoa(0);
    DurationExact(0);
    assert ToOperation(cmd) == Operation("SET", k, v, 0);
    hide WellLogged, Append, Logged, M.Roomy, M.Set, Do;
    var _, _ := ChangeKeeps(s, keys, Write(k, v, 0, now));
    CachedInv(s, keys, k, v, now);
    AppendKeeps(s.(cache := M.Set(s.cache, k, v, 0, now)), cmd, keys);
  }

  /** The failing run, for every torn append: the node crashes in it, restarts, and serves a write, which its cache
      holds and its files do not. */
  lemma WriteAfterCrashIsLost(maxSize: int, next: seq<string>, written: string, k: string, v: string, now: int,
                              clock: nat -> int, clock': nat -> int)
    requires maxSize >= 1 && written != "" && Torn(written, next)
    requires k != "" && '*' !in k && k !in next && Short(k) && Short(v)
    ensures var s := Run(maxSize, [Crash(next, written, clock, clock'), Write(k, v, 0, now)]);
            var r := Recover(maxSize, Bytes(s.snapshot), File(s), clock, clock');
            && k in Perm(s.cache) && Perm(s.cache)[k] == v
            && (r.Some? ==> !(k in Perm(r.value) && Perm(r.value)[k] == v))
  {
    var keys := {k};
    var crash, write := Crash(next, written, clock, clock'), Write(k, v, 0, now);
    var s0 := System(M.Empty(maxSize), None, [], "");
    assert [crash, write][..1] == [crash] && [crash][..0] == [];
    assert Run(maxSize, []) == s0;
    StartKeeps(maxSize, keys);
    assert Logged(s0) == map[] by {
      NothingToReplay(map[]);
    }
    CrashKeeps(s0, keys, crash);
    var s1 := Do(s0, crash);
    assert Run(maxSize, [crash]) == s1 && s1.torn == written by {
      hide Recovered;
      assert "" + written == written;
    }
    DurationExact(0);
    SetRoomy(s1.cache, keys, k, v, 0, now);
    hide Inv, Logged, Recovered, Torn, Perm;
    RecoverableIffWhole(s1, keys, next, k, v, now, clock, clock');
    var s2 := Do(s1, write);
    AppendFrame(s1.(cache := M.Set(s1.cache, k, v, 0, now)), ["SET", k, v, Itoa(0)]);
    RecoveredIs(s2, maxSize, clock, clock');
  }

  lemma RecoveredIs(s: System, maxSize: int, clock: nat -> int, clock': nat -> int)
    requires s.cache.maxSize == maxSize
    ensures Recovered(s, "", clock, clock') == Recover(maxSize, Bytes(s.snapshot), File(s), clock, clock')
  {
    assert File(s) + "" == File(s);
  }

  // ----- why the key must be new to the tear and hold no star: such a write can be read again by accident

  /** The same write, torn before its last word and repeated: the repetition completes the first. */
  lemma RepeatedWriteIsRead(k: string, v: string)
    requires Loggable(["SET", k, v, "0"])
    ensures var cmd := ["SET", k, v, "0"];
            var e := ReadEntries(T.Head(cmd, 3) + EncodeCommand(cmd));
            e == Some([["SET", k, v, ""]]) && Writes(ToOperation(["SET", k, v, ""]), k, v)
  {
    var cmd := ["SET", k, v, "0"];
    hide EncodeCommand, LogOf, T.Head;
    LogOfOne(cmd);
    assert EncodeCommand(cmd) + "" == EncodeCommand(cmd);
    T.BetweenTear(cmd, 3, [cmd], "");
    EmptyLog();
    var e := ["SET", k, v, ""];
    assert cmd[..3] + seq(1, _ => "") == e && [e] + [] == [e];
  }

  /** A key with a star: the torn key "axx" is completed to it from the header of its own write. */
  lemma StarKeyIsRead()
    ensures var next, cmd := ["SET", "axx", "v", "0"], ["SET", "a*4", "SET", "0"];
            var tail := T.Head(next, 1) + (T.Length("axx") + "a");
            && Torn(tail, next)
            && ReadEntries(tail + EncodeCommand(cmd)) == Some([["SET", "a*4", "SET", "a*4"]])
            && Writes(ToOperation(["SET", "a*4", "SET", "a*4"]), "a*4", "SET")
  {
    var next, cmd := ["SET", "axx", "v", "0"], ["SET", "a*4", "SET", "0"];
    var tail := T.Head(next, 1) + (T.Length("axx") + "a");
    assert next[1] == "axx" && next[1][..1] == "a";
    assert T.TornAs(tail, next, T.InData(1, 1));
    TornHere(next, tail);
    T.DataTear(tail, next, 1, 1, EncodeCommand(cmd));
    FromStarKey(next, cmd);
  }

  lemma TornHere(next: seq<string>, tail: string)
    requires next == ["SET", "axx", "v", "0"] && tail == T.Head(next, 1) + (T.Length("axx") + "a")
    ensures Torn(tail, next)
  {
    var pre, post := ["SET"], ["axx", "v", "0"];
    SplitWords(pre, post);
    assert pre + post == next && next[..1] == pre;
    W.EncodeAllAppend(Words(pre), Words(post));
    HeadOf(next);
    var rest := ["v", "0"];
    assert Words(post)[0] == Bulk("axx") && Words(post)[1..] == Words(rest);
    EncodeBulkIs("axx");
    assert "a" + "xx" == "axx" && EncodeCommand(next) != "";
    hide Encode, EncodeCommand, Itoa, Words, EncodeAll;
    Associate(['$'], Itoa(3) + CRLF, "axx" + CRLF);
    var more := ("xx" + CRLF) + EncodeAll(Words(rest));
    Shuffle'(['*'] + (Itoa(4) + CRLF), EncodeAll(Words(pre)), T.Length("axx"), "a", "xx", CRLF, EncodeAll(Words(rest)));
    Associate(['*'], Itoa(4) + CRLF, EncodeAll(Words(next)));
    assert |more| > 0 && EncodeCommand(next) == tail + more;
  }

  lemma Shuffle'(h: string, p: string, l: string, a: string, b: string, c: string, m: string)
    ensures h + (p + ((l + ((a + b) + c)) + m)) == ((h + p) + (l + a)) + ((b + c) + m)
  {
  }

  lemma FromStarKey(next: seq<string>, cmd: seq<string>)
    requires next == ["SET", "axx", "v", "0"] && cmd == ["SET", "a*4", "SET", "0"]
    ensures T.FromData(next, 1, 1, EncodeCommand(cmd)) == Some([["SET", "a*4", "SET", "a*4"]])
  {
    var x := EncodeCommand(cmd);
    var after, behind := StarKeyBytes(cmd);
    PartsHere(next, ["SET", "a*4"]);
    EmptyLog();
    hide EncodeCommand, EncodeAll, Words, ToValues, Parts, ReadEntries, ReadTrailer, ParseItems;
    assert |next[1]| - 1 == 2 && next[1][..1] == "a" && "a" + "*4" == "a*4";
    var e := ["SET", "a*4", "SET", "a*4"];
    assert [e] + [] == [e];
  }

  lemma StarKeyBytes(cmd: seq<string>) returns (after: string, behind: string)
    requires cmd == ["SET", "a*4", "SET", "0"]
    ensures var x := EncodeCommand(cmd); |x| >= 2 && x[..2] == "*4" && ReadTrailer(x[2..]) == Ok((), after)
    ensures ParseItems(2, after) == Ok(ToValues(Words(["SET", "a*4"])), behind) && ReadEntries(behind) == Some([])
  {
    var pre, post := ["SET", "a*4"], ["SET", "0"];
    assert Itoa(4) == "4" && pre + post == cmd;
    assert forall i :: 0 <= i < 2 ==> |pre[i]| <= MAX_INT && |post[i]| <= MAX_INT;
    hide EncodeCommand, EncodeAll, Words, ToValues, ReadEntries, ParseItems, ReadTrailer, Itoa;
    SplitWords(pre, post);
    W.EncodeAllAppend(Words(pre), Words(post));
    HeadOf(cmd);
    behind := EncodeAll(Words(post));
    after := EncodeAll(Words(pre)) + behind;
    FirstTwo(EncodeCommand(cmd), after);
    ReadTrailerOf(after);
    TwoItems(pre, behind);
    T.StrayWords(post, "");
    EmptyLog();
    assert behind + "" == behind;
  }

  lemma FirstTwo(x: string, after: string)
    requires x == ['*'] + ("4" + CRLF + after)
    ensures x[..2] == "*4" && x[2..] == CRLF + after
  {
  }

  lemma TwoItems(pre: seq<string>, behind: string)
    requires |pre| == 2 && |pre[0]| <= MAX_INT && |pre[1]| <= MAX_INT
    ensures ParseItems(2, EncodeAll(Words(pre)) + behind) == Ok(ToValues(Words(pre)), behind)
  {
    assert ParseItems(0, behind) == Ok([], behind);
    hide ParseItems, EncodeAll, Words, ToValues;
    T.ItemsAfter(2, pre, behind);
    assert ToValues(Words(pre)) + [] == ToValues(Words(pre));
  }

  lemma PartsHere(next: seq<string>, pre: seq<string>)
    requires |next| > 1 && next[0] == "SET" && pre == ["SET", "a*4"]
    ensures Parts(ToValues(Words(next[..1])) + ([Str("a*4")] + ToValues(Words(pre)))) == ["SET", "a*4", "SET", "a*4"]
  {
    var all := ["SET", "a*4", "SET", "a*4"];
    WordValues(all, ToValues(Words(all)));
    assert Words(next[..1]) == [Bulk("SET")] && Words(pre) == [Bulk("SET"), Bulk("a*4")];
    assert [Bulk("SET")][1..] == [] && [Bulk("SET"), Bulk("a*4")][1..] == [Bulk("a*4")] && [Bulk("a*4")][1..] == [];
    assert ToValues([Bulk("a*4")]) == [Str("a*4")];
    assert ToValues(Words(pre)) == [Str("SET"), Str("a*4")];
    assert ToValues(Words(next[..1])) == [Str("SET")];
    var fs := [Bulk("SET"), Bulk("a*4"), Bulk("SET"), Bulk("a*4")];
    assert Words(all) == fs && fs[1..] == [Bulk("a*4"), Bulk("SET"), Bulk("a*4")] && fs[1..][1..] == Words(pre);
    assert ToValues(fs[1..]) == [Str("a*4")] + ToValues(Words(pre));
  }
}
