/** Sending keys to another node: internal/cluster/transfer.go. What the network and the target do is a
    script the methods consume; the contracts hold for every script. */
module Transfer {
  import opened Options

  /** Whether a command reached the target, and whether an OK came back. */
  datatype Outcome = Outcome(delivered: bool, acknowledged: bool)

  predicate Good(o: Outcome) {
    o.delivered && o.acknowledged
  }

  /** The script begins with n outcomes, all delivered and acknowledged. */
  predicate AllGood(script: seq<Outcome>, n: nat) {
    n <= |script| && forall i :: 0 <= i < n ==> Good(script[i])
  }

  /** What is left of the script after n outcomes; beyond its end nothing is delivered. */
  function Unread(script: seq<Outcome>, n: nat): seq<Outcome> {
    if n <= |script| then script[n..] else []
  }

  lemma UnreadMore(script: seq<Outcome>, m: nat, n: nat)
    ensures Unread(Unread(script, m), n) == Unread(script, m + n)
    ensures AllGood(script, m + n) <==> AllGood(script, m) && AllGood(Unread(script, m), n)
  {
    if AllGood(script, m + n) {
      forall i | 0 <= i < n ensures Good(Unread(script, m)[i]) {
        assert Unread(script, m)[i] == script[m + i];
      }
    }
    if AllGood(script, m) && AllGood(Unread(script, m), n) {
      forall i | m <= i < m + n ensures Good(script[i]) {
        assert script[i] == Unread(script, m)[i - m];
      }
    }
  }

  /** It succeeded exactly if n outcomes were good, and then used just these. */
  ghost predicate Took(before: seq<Outcome>, after: seq<Outcome>, n: nat, ok: bool) {
    (ok <==> AllGood(before, n)) && (ok ==> after == Unread(before, n))
  }

  lemma TookNothing(script: seq<Outcome>)
    ensures Took(script, script, 0, true)
  {
  }

  /** Two calls in a row, the second only if the first succeeded. */
  lemma TookBoth(script: seq<Outcome>, script': seq<Outcome>, script'': seq<Outcome>, n: nat, first: bool, both: bool)
    requires Took(script, script', n, first)
    requires if first then Took(script', script'', n, both) else !both
    ensures Took(script, script'', 2 * n, both)
  {
    UnreadMore(script, n, n);
    hide AllGood, Unread;
  }

  type Stores = map<string, map<string, string>>

  function Held(stores: Stores, addr: string, key: string): Option<string> {
    if addr in stores && key in stores[addr] then Some(stores[addr][key]) else None
  }

  function Stored(stores: Stores, addr: string, key: string, value: string): Stores {
    stores[addr := (if addr in stores then stores[addr] else map[])[key := value]]
  }

  lemma HeldStored(stores: Stores, addr: string, key: string, value: string, a: string, k: string)
    ensures Held(Stored(stores, addr, key, value), a, k)
         == if a == addr && k == key then Some(value) else Held(stores, a, k)
  {
  }

  /** The other nodes of the cluster, as far as the migrator can see. */
  class Remote {
    var stores: Stores
    var script: seq<Outcome>

    constructor (stores: Stores, script: seq<Outcome>)
      ensures this.stores == stores && this.script == script
    {
      this.stores, this.script := stores, script;
    }

    method Next() returns (o: Outcome)
      modifies `script
      ensures Good(o) <==> AllGood(old(script), 1)
      ensures o.delivered <==> old(script) != [] && old(script)[0].delivered
      ensures script == Unread(old(script), 1)
    {
      if script == [] {
        return Outcome(false, false);
      }
      o := script[0];
      script := script[1..];
    }

    /** A connection attempt, or a GET whose reply is only checked for having arrived. */
    method Reach(addr: string) returns (ok: bool)
      modifies `script
      ensures ok <==> AllGood(old(script), 1)
      ensures script == Unread(old(script), 1)
    {
      var o := Next();
      return Good(o);
    }

    /** SET key value. The target may have stored the value even when no OK is seen. */
    method SendSet(addr: string, key: string, value: string) returns (ok: bool)
      modifies this
      ensures stores == (if old(script) != [] && old(script)[0].delivered then Stored(old(stores), addr, key, value) else old(stores))
      ensures ok <==> AllGood(old(script), 1)
      ensures script == Unread(old(script), 1)
    {
      var o := Next();
      if o.delivered {
        stores := Stored(stores, addr, key, value);
      }
      return Good(o);
    }
  }

  /** values[key] of a Go map: the empty string when the key is missing. */
  function ValueOf(values: map<string, string>, key: string): string {
    if key in values then values[key] else ""
  }

  /** Nothing changed except that some of the keys now hold their value at addr. */
  ghost predicate Wrote(before: Stores, after: Stores, addr: string, keys: seq<string>, values: map<string, string>) {
    && (forall a, k :: a != addr || k !in keys ==> Held(after, a, k) == Held(before, a, k))
    && (forall k :: k in keys ==>
          Held(after, addr, k) == Held(before, addr, k) || Held(after, addr, k) == Some(ValueOf(values, k)))
  }

  ghost predicate AllHeld(stores: Stores, addr: string, keys: seq<string>, values: map<string, string>) {
    forall k :: k in keys ==> Held(stores, addr, k) == Some(ValueOf(values, k))
  }

  lemma WroteOne(before: Stores, stores: Stores, after: Stores, addr: string, sent: seq<string>, key: string,
                 values: map<string, string>, failed: bool)
    requires Wrote(before, stores, addr, sent, values)
    requires after == stores || after == Stored(stores, addr, key, ValueOf(values, key))
    requires !failed ==> AllHeld(stores, addr, sent, values) && after == Stored(stores, addr, key, ValueOf(values, key))
    ensures Wrote(before, after, addr, sent + [key], values)
    ensures !failed ==> AllHeld(after, addr, sent + [key], values)
  {
    forall a, k
      ensures Held(after, a, k) == Held(stores, a, k)
        || (a == addr && k == key && Held(after, a, k) == Some(ValueOf(values, key)))
      ensures !failed && a == addr && k == key ==> Held(after, a, k) == Some(ValueOf(values, key))
    {
      HeldStored(stores, addr, key, ValueOf(values, key), a, k);
    }
    assert forall k :: k in sent + [key] <==> k in sent || k == key;
  }

  /** Sends every key even after a failure, and reports success exactly when every one was delivered and answered. */
  method TransferKeysOnConnection(remote: Remote, addr: string, keys: seq<string>, values: map<string, string>)
    returns (ok: bool)
    modifies remote
    ensures Wrote(old(remote.stores), remote.stores, addr, keys, values)
    ensures ok ==> AllHeld(remote.stores, addr, keys, values)
    ensures ok <==> AllGood(old(remote.script), |keys|)
    ensures remote.script == Unread(old(remote.script), |keys|)
  {
    var failCount := 0;
    for i := 0 to |keys|
      invariant failCount >= 0
      invariant failCount == 0 <==> AllGood(old(remote.script), i)
      invariant remote.script == Unread(old(remote.script), i)
      invariant Wrote(old(remote.stores), remote.stores, addr, keys[..i], values)
      invariant failCount == 0 ==> AllHeld(remote.stores, addr, keys[..i], values)
    {
      UnreadMore(old(remote.script), i, 1);
      hide Wrote, AllHeld, Stored, AllGood, Unread;
      ghost var stores := remote.stores;
      var sent := remote.SendSet(addr, keys[i], ValueOf(values, keys[i]));
      if !sent {
        failCount := failCount + 1;
      }
      WroteOne(old(remote.stores), stores, remote.stores, addr, keys[..i], keys[i], values, failCount > 0);
      assert keys[..i] + [keys[i]] == keys[..i + 1];
    }
    assert keys[..|keys|] == keys;
    return failCount == 0;
  }

  lemma WroteMore(before: Stores, stores: Stores, after: Stores, addr: string, sent: seq<string>, batch: seq<string>,
                  values: map<string, string>, batchValues: map<string, string>)
    requires Wrote(before, stores, addr, sent, values) && Wrote(stores, after, addr, batch, batchValues)
    requires forall k :: k in batch ==> ValueOf(batchValues, k) == ValueOf(values, k)
    ensures Wrote(before, after, addr, sent + batch, values)
    ensures AllHeld(stores, addr, sent, values) && AllHeld(after, addr, batch, batchValues) ==>
              AllHeld(after, addr, sent + batch, values)
  {
    assert forall k :: k in sent + batch <==> k in sent || k in batch;
  }

  lemma WroteNothing(stores: Stores, addr: string, values: map<string, string>)
    ensures Wrote(stores, stores, addr, [], values) && AllHeld(stores, addr, [], values)
  {
  }

  lemma WroteWiden(before: Stores, after: Stores, addr: string, sent: seq<string>, keys: seq<string>,
                   values: map<string, string>)
    requires Wrote(before, after, addr, sent, values) && sent <= keys
    ensures Wrote(before, after, addr, keys, values)
  {
    assert forall k :: k in sent ==> k in keys;
  }

  /** The batch arithmetic: start and end of batch i cover the keys without gap or overlap. */
  lemma BatchBounds(total: nat, size: nat, i: nat)
    requires size > 0 && i < (total + size - 1) / size
    ensures i * size < total
    ensures (i + 1) * size == i * size + size
    ensures i + 1 == (total + size - 1) / size ==> total <= (i + 1) * size
    ensures i + 1 < (total + size - 1) / size ==> (i + 1) * size < total
  {
    var batches := (total + size - 1) / size;
    assert batches * size <= total + size - 1 < batches * size + size;
    if i + 1 < batches {
      assert (i + 2) * size <= batches * size;
    }
    assert (i + 1) * size <= batches * size;
  }

  method BatchValues(keys: seq<string>, values: map<string, string>) returns (batch: map<string, string>)
    ensures forall k :: k in keys ==> ValueOf(batch, k) == ValueOf(values, k)
  {
    batch := map[];
    for i := 0 to |keys|
      invariant forall k :: k in keys[..i] ==> k in batch
      invariant forall k :: k in batch ==> batch[k] == ValueOf(values, k)
    {
      batch := batch[keys[i] := ValueOf(values, keys[i])];
      assert forall k :: k in keys[..i + 1] ==> k in keys[..i] || k == keys[i];
    }
    assert keys[..|keys|] == keys;
  }

  /** Batch i is the first with a failure, and nothing was sent after it. */
  predicate StoppedIn(before: seq<Outcome>, after: seq<Outcome>, total: nat, size: nat, i: nat) {
    && i * size < total
    && var end := if i * size + size < total then i * size + size else total;
       AllGood(before, 1 + i * size) && !AllGood(before, 1 + end) && after == Unread(before, 1 + end)
  }

  /** Success means every key is held at the target; failure may leave any of them there. It takes one connection and
      one answer per key. */
  method TransferKeysBatch(remote: Remote, addr: string, keys: seq<string>, values: map<string, string>, batchSize: nat)
    returns (ok: bool)
    requires batchSize > 0
    modifies remote
    ensures Wrote(old(remote.stores), remote.stores, addr, keys, values)
    ensures ok ==> AllHeld(remote.stores, addr, keys, values)
    ensures Took(old(remote.script), remote.script, 1 + |keys|, ok)
    ensures !AllGood(old(remote.script), 1) ==> remote.script == Unread(old(remote.script), 1)
    ensures !ok && AllGood(old(remote.script), 1) ==>
              exists i :: StoppedIn(old(remote.script), remote.script, |keys|, batchSize, i)
  {
    hide Wrote, AllHeld, AllGood, Unread;
    var numBatches := (|keys| + batchSize - 1) / batchSize;
    WroteNothing(remote.stores, addr, values);
    var connected := remote.Reach(addr);
    if !connected {
      UnreadMore(old(remote.script), 1, |keys|);
      WroteWiden(old(remote.stores), remote.stores, addr, [], keys, values);
      return false;
    }
    ghost var done := 0;
    assert keys[..0] == [];
    for i := 0 to numBatches
      invariant done == (if i == numBatches then |keys| else i * batchSize) <= |keys|
      invariant Wrote(old(remote.stores), remote.stores, addr, keys[..done], values)
      invariant AllHeld(remote.stores, addr, keys[..done], values)
      invariant AllGood(old(remote.script), 1 + done) && remote.script == Unread(old(remote.script), 1 + done)
    {
      BatchBounds(|keys|, batchSize, i);
      var start := i * batchSize;
      var end := start + batchSize;
      if end > |keys| {
        end := |keys|;
      }
      var batchKeys := keys[start..end];
      var batchValues := BatchValues(batchKeys, values);
      ghost var stores := remote.stores;
      var sent := TransferKeysOnConnection(remote, addr, batchKeys, batchValues);
      WroteMore(old(remote.stores), stores, remote.stores, addr, keys[..start], batchKeys, values, batchValues);
      assert keys[..start] + batchKeys == keys[..end];
      UnreadMore(old(remote.script), 1 + start, |batchKeys|);
      if !sent {
        UnreadMore(old(remote.script), 1 + end, |keys| - end);
        assert StoppedIn(old(remote.script), remote.script, |keys|, batchSize, i);
        WroteWiden(old(remote.stores), remote.stores, addr, keys[..end], keys, values);
        return false;
      }
      done := end;
    }
    assert keys[..|keys|] == keys;
    return true;
  }

  /** VerifyTransfer asks for each key but only notices lost connections: the parser turns a null bulk
      string into "", so no reply is nil. */
  method VerifyTransfer(remote: Remote, addr: string, keys: seq<string>) returns (ok: bool)
    modifies remote`script
    ensures Took(old(remote.script), remote.script, 1 + |keys|, ok)
  {
    hide AllGood, Unread;
    var connected := remote.Reach(addr);
    if !connected {
      UnreadMore(old(remote.script), 1, |keys|);
      return false;
    }
    for i := 0 to |keys|
      invariant AllGood(old(remote.script), 1 + i) && remote.script == Unread(old(remote.script), 1 + i)
    {
      UnreadMore(old(remote.script), 1 + i, 1);
      var answered := remote.Reach(addr);
      if !answered {
        UnreadMore(old(remote.script), 2 + i, |keys| - i - 1);
        return false;
      }
    }
    return true;
  }
}
