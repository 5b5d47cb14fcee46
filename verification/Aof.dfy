/** The AOF object of internal/persistence: appending, snapshotting, rewriting and recovering as loops over
    files (byte strings with atomic rename and truncate) and the cache. */
module Aof {
  import opened Sequences
  import opened Options
  import opened Decimal
  import opened Durations
  import opened AofLog
  import opened Persistence
  import M = CacheModel
  import C = CacheHeap
  import W = RespReader

  /** Where the process dies while a snapshot is created. */
  datatype CrashPoint = BeforeRename | BeforeTruncate | NoCrash

  method EncodeEntry(parts: seq<string>) returns (s: string)
    ensures s == EncodeCommand(parts)
  {
    var elements := seq(|parts|, i requires 0 <= i < |parts| => W.Text(parts[i]));
    s := W.EncodeArray(elements);
    assert W.Command(elements).items == Words(parts);
  }

  lemma LogRendered(items: map<string, M.Entry>, order: seq<string>, k: string, now: string -> int)
    requires k in items && forall x :: x in order ==> x in items
    ensures LogOf(Render(items, order + [k], now))
      == LogOf(Render(items, order, now)) + LogOf(RenderEntry(k, items[k], now(k)))
  {
    assert (order + [k])[..|order|] == order;
    LogAppend(Render(items, order, now), RenderEntry(k, items[k], now(k)));
  }

  class AOF {
    var file: string
    var snapshotFile: Option<string>
    const cache: C.Cache

    constructor (cache: C.Cache)
      ensures this.cache == cache && file == "" && snapshotFile == None
    {
      this.cache, file, snapshotFile := cache, "", None;
    }

    method Append(data: string)
      modifies `file
      ensures file == old(file) + data
    {
      file := file + data;
    }

    /** The writing loop of CreateSnapshot and rewriteAOF, for a map ranged over in any order. */
    method WriteTemp(now: string -> int) returns (temp: string, ghost order: seq<string>)
      requires cache.Valid()
      ensures Enumerates(order, cache.model.items)
      ensures temp == LogOf(Render(cache.model.items, order, now))
    {
      hide C.Cache.Valid, LogOf, Render, EncodeCommand, Itoa, Distinct;
      var snapshot := cache.Snapshot();
      temp, order := "", [];
      StartEmpty(snapshot, now);
      var pending := snapshot.Keys;
      while pending != {}
        invariant pending <= snapshot.Keys
        invariant Distinct(order) && forall k :: k in order <==> k in snapshot.Keys - pending
        invariant temp == LogOf(Render(snapshot, order, now))
        decreases pending
      {
        var key :| key in pending;
        pending := pending - {key};
        var entry := snapshot[key];
        var line := "";
        LogOfOne(["SET", key, entry.value, "0"]);
        if entry.expiry.Never? {
          line := EncodeEntry(["SET", key, entry.value, "0"]);
        } else {
          var ttl := Until(entry.expiry.time, now(key));
          if ttl >= 0 {
            LogOfOne(["SET", key, entry.value, Itoa(Seconds(ttl))]);
            line := EncodeEntry(["SET", key, entry.value, Itoa(Seconds(ttl))]);
          }
        }
        LogRendered(snapshot, order, key, now);
        temp := temp + line;
        DistinctSnoc(order, key);
        order := order + [key];
      }
    }

    /** CreateSnapshot: write a temporary file, rename it over the snapshot, empty the log. */
    method CreateSnapshot(now: string -> int, crash: CrashPoint) returns (ghost order: seq<string>)
      requires cache.Valid()
      modifies `file, `snapshotFile
      ensures Enumerates(order, cache.model.items)
      ensures snapshotFile == if crash.BeforeRename? then old(snapshotFile) else Some(LogOf(Render(cache.model.items, order, now)))
      ensures file == if crash.NoCrash? then "" else old(file)
    {
      var temp;
      temp, order := WriteTemp(now);
      if crash.BeforeRename? {
        return;
      }
      snapshotFile := Some(temp);
      if crash.BeforeTruncate? {
        return;
      }
      file := "";
    }

    /** rewriteAOF: the snapshot file is not touched. */
    method RewriteAOF(now: string -> int) returns (ghost order: seq<string>)
      requires cache.Valid()
      modifies `file
      ensures Enumerates(order, cache.model.items)
      ensures file == LogOf(Render(cache.model.items, order, now))
    {
      var temp;
      temp, order := WriteTemp(now);
      file := temp;
    }

    method Apply(ops: seq<Operation>, clock: nat -> int)
      requires cache.Valid() && this !in cache.repr
      modifies cache.repr
      ensures cache.Valid() && fresh(cache.repr - old(cache.repr))
      ensures cache.model == Replay(old(cache.model), ops, clock)
    {
      hide C.Cache.Valid, M.Set, M.Delete;
      for i := 0 to |ops|
        invariant cache.Valid() && fresh(cache.repr - old(cache.repr))
        invariant cache.model == Replay(old(cache.model), ops[..i], clock)
      {
        var op := ops[i];
        assert ops[..i + 1][..i] == ops[..i];
        if op.kind == "SET" {
          cache.Set(op.key, op.value, Duration(op.ttl), clock(i));
        } else if op.kind == "DEL" {
          cache.Delete(op.key);
        }
      }
      assert ops[..|ops|] == ops;
    }

    method ToOps(entries: seq<seq<string>>, snapshot: bool) returns (ops: seq<Operation>)
      ensures ops == if snapshot then SnapshotOperations(entries) else ToOperations(entries)
    {
      ops := [];
      for i := 0 to |entries|
        invariant ops == if snapshot then SnapshotOperations(entries[..i]) else ToOperations(entries[..i])
      {
        var parts := entries[i];
        assert entries[..i + 1][..i] == entries[..i];
        if snapshot {
          if |parts| >= 3 && parts[0] == "SET" {
            ops := ops + [ToOperation(parts)];
          }
        } else if parts != [] {
          ops := ops + [ToOperation(parts)];
        }
      }
      assert entries[..|entries|] == entries;
    }

    /** RecoverAOF into an empty cache; false if reading a file panics. */
    method RecoverAOF(clock: nat -> int, clock': nat -> int) returns (ok: bool)
      requires cache.Valid() && this !in cache.repr && cache.model == M.Empty(cache.maxSize)
      modifies cache.repr
      ensures cache.Valid() && fresh(cache.repr - old(cache.repr))
      ensures ok <==> Recover(cache.maxSize, snapshotFile, file, clock, clock').Some?
      ensures ok ==> Recover(cache.maxSize, snapshotFile, file, clock, clock') == Some(cache.model)
    {
      hide C.Cache.Valid, ReadEntries, Replay, ToOperations, SnapshotOperations;
      var loaded := Some([]);
      if snapshotFile.Some? {
        loaded := ReadAll(snapshotFile.value);
      }
      if loaded.None? {
        return false;
      }
      var ops := ToOps(loaded.value, true);
      Apply(ops, clock);
      var logged := ReadAll(file);
      if logged.None? {
        return false;
      }
      ops := ToOps(logged.value, false);
      Apply(ops, clock');
      return true;
    }
  }

  lemma StartEmpty(items: map<string, M.Entry>, now: string -> int)
    ensures LogOf(Render(items, [], now)) == "" && Distinct<string>([])
  {
  }
}
