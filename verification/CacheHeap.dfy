/** The cache as the source builds it: a map from keys to items, each item pointing at its node in
    the recency list, plus a byte counter. Every method is proved against CacheModel. */
module CacheHeap {
  import opened Sequences
  import opened Options
  import opened LruList
  import M = CacheModel
  import opened HashRange

  class CacheItem {
    var value: string
    var expiresAt: M.Expiry
    const node: Node

    constructor (value: string, expiresAt: M.Expiry, node: Node)
      ensures this.value == value && this.expiresAt == expiresAt && this.node == node
    {
      this.value, this.expiresAt, this.node := value, expiresAt, node;
    }
  }

  // ----- the byte counter

  lemma {:induction false} BytesFrame(items: map<string, M.Entry>, items': map<string, M.Entry>, order: seq<string>)
    requires forall k :: k in order ==> k in items && k in items' && items[k].value == items'[k].value
    ensures M.Bytes(items, order) == M.Bytes(items', order)
  {
    if order != [] {
      BytesFrame(items, items', order[1..]);
    }
  }

  /** Forgetting one stored key gives back exactly its size. */
  lemma {:induction false} BytesMinus(items: map<string, M.Entry>, order: seq<string>, k: string)
    requires Distinct(order) && k in order && forall x :: x in order ==> x in items
    ensures M.Bytes(items, M.Minus(order, {k})) == M.Bytes(items, order) - M.ItemSize(k, items[k].value)
  {
    if order[0] == k {
      M.MinusAbsent(order[1..], {k});
    } else {
      BytesMinus(items, order[1..], k);
      var rest := M.Minus(order[1..], {k});
      assert ([order[0]] + rest)[1..] == rest;
    }
  }

  lemma BytesForget(c: M.Cache, k: string)
    requires M.Valid(c) && k in c.items
    ensures M.Valid(M.Delete(c, k))
    ensures M.Memory(M.Delete(c, k)) == M.Memory(c) - M.ItemSize(k, c.items[k].value)
  {
    M.MinusDistinct(c.order, {k});
    BytesMinus(c.items, c.order, k);
    BytesFrame(c.items, c.items - {k}, M.Minus(c.order, {k}));
  }

  lemma BytesAdd(items: map<string, M.Entry>, order: seq<string>, k: string, e: M.Entry)
    requires k !in order && forall x :: x in order ==> x in items
    ensures M.Bytes(items[k := e], [k] + order) == M.Bytes(items, order) + M.ItemSize(k, e.value)
  {
    assert ([k] + order)[1..] == order;
    BytesFrame(items, items[k := e], order);
  }

  /** Moving a key to the front changes no byte. */
  lemma BytesTouch(c: M.Cache, k: string)
    requires M.Valid(c) && k in c.items
    ensures var c' := c.(order := M.Touch(c.order, k)); M.Valid(c') && M.Memory(c') == M.Memory(c)
  {
    M.MinusDistinct(c.order, {k});
    BytesMinus(c.items, c.order, k);
    assert M.Touch(c.order, k)[1..] == M.Minus(c.order, {k});
  }

  lemma OverwriteIsPut(c: M.Cache, k: string, e: M.Entry)
    ensures c.(items := c.items[k := e]).(order := M.Touch(c.order, k)) == M.Put(c, k, e)
  {
  }

  lemma BytesOverwrite(c: M.Cache, k: string, e: M.Entry)
    requires M.Valid(c) && k in c.items
    ensures M.Valid(c.(items := c.items[k := e]))
    ensures M.Memory(c.(items := c.items[k := e]))
            == M.Memory(c) - M.ItemSize(k, c.items[k].value) + M.ItemSize(k, e.value)
  {
    var items' := c.items[k := e];
    BytesMinus(c.items, c.order, k);
    BytesMinus(items', c.order, k);
    BytesFrame(c.items, items', M.Minus(c.order, {k}));
  }

  /** The map of items holds what the model holds. */
  ghost predicate Stored(items: map<string, M.Entry>, data: map<string, CacheItem>)
    reads data.Values
  {
    && data.Keys == items.Keys
    && forall k :: k in data ==> items[k] == M.Entry(data[k].value, data[k].expiresAt)
  }

  lemma StoredAdd(items: map<string, M.Entry>, data: map<string, CacheItem>, key: string, item: CacheItem)
    requires Stored(items, data)
    ensures Stored(items[key := M.Entry(item.value, item.expiresAt)], data[key := item])
  {
  }

  /** Writing the fields of one item, which no other key shares. */
  method Assign(ghost items: map<string, M.Entry>, data: map<string, CacheItem>, key: string, value: string, expiresAt: M.Expiry)
    requires Stored(items, data) && key in data && forall k :: k in data && k != key ==> data[k] != data[key]
    modifies data[key]
    ensures Stored(items[key := M.Entry(value, expiresAt)], data)
  {
    data[key].value := value;
    data[key].expiresAt := expiresAt;
  }

  lemma StoredDrop(items: map<string, M.Entry>, data: map<string, CacheItem>, key: string)
    requires Stored(items, data)
    ensures Stored(items - {key}, data - {key})
  {
  }

  lemma PutNew(c: M.Cache, k: string, e: M.Entry)
    requires M.Valid(c) && k !in c.items
    ensures M.Put(c, k, e) == M.Cache(c.items[k := e], [k] + c.order, c.maxSize) && k !in c.order
    ensures M.Valid(M.Put(c, k, e)) && M.Memory(M.Put(c, k, e)) == M.Memory(c) + M.ItemSize(k, e.value)
  {
    M.MinusAbsent(c.order, {k});
    ConsDistinct(k, c.order);
    BytesAdd(c.items, c.order, k, e);
  }

  /** Evicting is deleting the last key of the order. */
  lemma EvictIsDelete(c: M.Cache)
    requires M.Valid(c) && c.order != []
    ensures M.Evict(c) == M.Delete(c, c.order[|c.order| - 1])
  {
    var last := |c.order| - 1;
    DistinctPairs(c.order);
    assert c.order == c.order[..last] + [c.order[last]];
    M.MinusAppend(c.order[..last], [c.order[last]], {c.order[last]});
    M.MinusAbsent(c.order[..last], {c.order[last]});
  }

  // ----- lists of nodes and their keys

  lemma {:induction false} MinusAt(order: seq<string>, k: nat)
    requires Distinct(order) && k < |order|
    ensures M.Minus(order, {order[k]}) == order[..k] + order[k + 1..]
  {
    if k == 0 {
      M.MinusAbsent(order[1..], {order[0]});
    } else {
      MinusAt(order[1..], k - 1);
      assert order[..k] + order[k + 1..] == [order[0]] + (order[1..][..k - 1] + order[1..][k..]);
    }
  }

  /** The list spells the order, and each listed key's item points at its own list node. */
  ghost predicate Linked(nodes: seq<Node>, order: seq<string>, data: map<string, CacheItem>) {
    if nodes == [] || order == [] then nodes == [] && order == []
    else
      && nodes[0].key == order[0] && order[0] in data && data[order[0]].node == nodes[0]
      && Linked(nodes[1..], order[1..], data)
  }

  lemma {:induction false} LinkedAt(nodes: seq<Node>, order: seq<string>, data: map<string, CacheItem>, k: string)
    returns (i: nat)
    requires Linked(nodes, order, data) && k in order
    ensures i < |nodes| && i < |order| && order[i] == k && k in data
    ensures data[k].node == nodes[i] && nodes[i].key == k
  {
    if order[0] == k {
      i := 0;
    } else {
      i := LinkedAt(nodes[1..], order[1..], data, k);
      i := i + 1;
    }
  }

  /** Only the listed keys matter. */
  lemma {:induction false} LinkedFrame(nodes: seq<Node>, order: seq<string>, data: map<string, CacheItem>,
                                       data': map<string, CacheItem>)
    requires Linked(nodes, order, data)
    requires forall k :: k in order && k in data ==> k in data' && data'[k].node == data[k].node
    ensures Linked(nodes, order, data')
  {
    if nodes != [] {
      LinkedFrame(nodes[1..], order[1..], data, data');
    }
  }

  lemma {:induction false} LinkedRemove(nodes: seq<Node>, order: seq<string>, data: map<string, CacheItem>, i: nat)
    requires Linked(nodes, order, data) && Distinct(order) && i < |order|
    ensures i < |nodes| && Linked(nodes[..i] + nodes[i + 1..], M.Minus(order, {order[i]}), data)
  {
    if i == 0 {
      M.MinusAbsent(order[1..], {order[0]});
      assert nodes[..0] + nodes[1..] == nodes[1..];
    } else {
      LinkedRemove(nodes[1..], order[1..], data, i - 1);
      var rest := nodes[1..][..i - 1] + nodes[1..][i..];
      assert nodes[..i] + nodes[i + 1..] == [nodes[0]] + rest;
    }
  }

  lemma LinkedCons(nodes: seq<Node>, order: seq<string>, data: map<string, CacheItem>, k: string, node: Node)
    requires Linked(nodes, order, data) && k in data && data[k].node == node && node.key == k
    ensures Linked([node] + nodes, [k] + order, data)
  {
    assert ([node] + nodes)[1..] == nodes && ([k] + order)[1..] == order;
  }

  lemma {:induction false} LinkedLength(nodes: seq<Node>, order: seq<string>, data: map<string, CacheItem>)
    requires Linked(nodes, order, data)
    ensures |nodes| == |order|
  {
    if nodes != [] {
      LinkedLength(nodes[1..], order[1..], data);
    }
  }

  lemma {:induction false} LinkedKey(nodes: seq<Node>, order: seq<string>, data: map<string, CacheItem>, i: nat)
    requires Linked(nodes, order, data) && i < |nodes| && i < |order|
    ensures nodes[i].key == order[i]
  {
    if i > 0 {
      LinkedKey(nodes[1..], order[1..], data, i - 1);
    }
  }

  /** An item's node carries the item's own key. */
  lemma {:induction false} LinkedInjective(nodes: seq<Node>, order: seq<string>, data: map<string, CacheItem>)
    requires Linked(nodes, order, data)
    ensures forall k :: k in order ==> k in data && data[k].node.key == k
  {
    if nodes != [] {
      LinkedInjective(nodes[1..], order[1..], data);
      assert forall k :: k in order ==> k == order[0] || k in order[1..];
    }
  }

  lemma CleanupStart(c: M.Cache, now: int)
    ensures M.Without(c, {}) == c && M.ExpiredKeys(c, now) - c.items.Keys == {}
    ensures M.Cleanup(c, now) == M.Without(c, M.ExpiredKeys(c, now))
  {
    M.MinusAbsent(c.order, {});
    assert c.items - {} == c.items;
  }

  /** One iteration of the cleanup loop: key leaves the pending keys, and the cache if it expired. */
  lemma CleanupStep(c: M.Cache, gone: set<string>, pending: set<string>, key: string, now: int)
    requires key in pending && gone == M.ExpiredKeys(c, now) - pending
    ensures key in M.ExpiredKeys(c, now) <==> key in M.ExpiredKeys(M.Without(c, gone), now)
    ensures if key in M.ExpiredKeys(c, now)
            then gone + {key} == M.ExpiredKeys(c, now) - (pending - {key}) && |gone + {key}| == |gone| + 1
            else gone == M.ExpiredKeys(c, now) - (pending - {key})
    ensures M.Delete(M.Without(c, gone), key) == M.Without(c, gone + {key})
  {
    M.WithoutMore(c, gone, key);
  }

  class Cache {
    var data: map<string, CacheItem>
    const lru: LRU
    const maxSize: int
    var currentMemoryBytes: int
    ghost var model: M.Cache
    ghost var repr: set<object>

    /** The map, the list and the counter agree with the model, and node pointers are a bijection
        between stored keys and list nodes. */
    ghost predicate Valid()
      reads this, repr
      ensures Valid() ==> this in repr
    {
      && this in repr && lru in repr
      && lru.members <= repr
      && (forall k :: k in data ==> data[k] in repr)
      && lru.Valid()
      && M.Valid(model) && model.maxSize == maxSize
      && Linked(lru.nodes, model.order, data)
      && Stored(model.items, data)
      && currentMemoryBytes == M.Memory(model)
    }

    constructor (maxSize: int)
      ensures Valid() && fresh(repr) && model == M.Empty(maxSize)
    {
      data := map[];
      lru := new LRU();
      this.maxSize := maxSize;
      currentMemoryBytes := 0;
      model := M.Empty(maxSize);
      new;
      repr := {this, lru};
    }

    /** Removes a stored key from the counter, the list and the map, as Delete, eviction and
        CleanupExpired each do. */
    method Forget(key: string)
      requires Valid() && key in data
      modifies repr
      ensures Valid() && repr == old(repr) && model == M.Delete(old(model), key)
      ensures data == old(data) - {key}
    {
      StoredDrop(model.items, data, key);
      hide LRU.Valid, Linked, M.Minus, Distinct, M.Bytes, M.ItemSize;
      ghost var i := LinkedAt(lru.nodes, model.order, data, key);
      ghost var before, after := lru.nodes, M.Delete(model, key);
      assert M.Valid(after) && M.Memory(after) == M.Memory(model) - M.ItemSize(key, data[key].value) by {
        BytesForget(model, key);
      }
      hide Stored, M.Valid, M.Memory;
      lru.RemoveNode(data[key].node, i);
      assert Linked(lru.nodes, after.order, data - {key}) by {
        LinkedRemove(before, model.order, data, i);
        LinkedFrame(lru.nodes, after.order, data, data - {key});
      }
      Drop(key, after);
    }

    /** The assignments of a removal, once the list has lost the node. */
    method Drop(key: string, ghost after: M.Cache)
      requires this in repr && lru in repr && lru.members <= repr && lru.Valid()
      requires key in data && forall k :: k in data ==> data[k] in repr
      requires M.Valid(after) && after.maxSize == maxSize && Linked(lru.nodes, after.order, data - {key})
      requires Stored(after.items, data - {key})
      requires M.Memory(after) == currentMemoryBytes - M.ItemSize(key, data[key].value)
      modifies `currentMemoryBytes, `data, `model
      ensures Valid() && model == after && data == old(data) - {key}
    {
      hide LRU.Valid, Linked, M.Valid, M.Memory, M.ItemSize, Stored;
      currentMemoryBytes := currentMemoryBytes - M.ItemSize(key, data[key].value);
      data := data - {key};
      model := after;
    }

    method Delete(key: string)
      requires Valid()
      modifies repr
      ensures Valid() && repr == old(repr) && model == M.Delete(old(model), key)
    {
      if key !in data {
        M.MinusAbsent(model.order, {key});
        assert model.items - {key} == model.items;
        return;
      }
      Forget(key);
    }

    method Get(key: string, now: int) returns (r: Option<string>)
      requires Valid()
      modifies repr
      ensures Valid() && repr == old(repr) && (model, r) == M.Get(old(model), key, now)
    {
      if key !in data {
        return None;
      }
      var item := data[key];
      if item.expiresAt.At? && now > item.expiresAt.time {
        return None;
      }
      r := Some(item.value);
      MoveToFront(key);
    }

    method MoveToFront(key: string)
      requires Valid() && key in data
      modifies repr
      ensures Valid() && repr == old(repr)
      ensures model == old(model).(order := M.Touch(old(model).order, key))
    {
      hide LRU.Valid, Linked, M.Minus, Distinct, M.Bytes;
      ghost var i := LinkedAt(lru.nodes, model.order, data, key);
      ghost var before, after := lru.nodes, model.(order := M.Touch(model.order, key));
      assert M.Valid(after) && M.Memory(after) == M.Memory(model) by {
        BytesTouch(model, key);
      }
      lru.MoveToFront(data[key].node, i);
      assert Linked(lru.nodes, after.order, data) by {
        LinkedRemove(before, model.order, data, i);
        LinkedCons(before[..i] + before[i + 1..], M.Minus(model.order, {key}), data, key, data[key].node);
      }
      model := after;
    }

    /** RemoveLRU, then forget the returned key; with an empty list it returns "" and nothing happens. */
    method EvictOldest()
      requires Valid()
      modifies repr
      ensures Valid() && repr == old(repr) && model == M.Evict(old(model)) && data.Keys <= old(data.Keys)
    {
      hide LRU.Valid, Linked, M.Minus, Distinct, M.Bytes, M.ItemSize;
      LinkedLength(lru.nodes, model.order, data);
      ghost var before, last := lru.nodes, |lru.nodes| - 1;
      if last >= 0 {
        EvictIsDelete(model);
        assert model.order[last] in model.order;
        BytesForget(model, model.order[last]);
        LinkedKey(lru.nodes, model.order, data, last);
        StoredDrop(model.items, data, model.order[last]);
        assert M.Evict(model).items == model.items - {model.order[last]} && before[last].key in data;
      } else {
        assert data.Keys == {};
      }
      hide M.Evict, M.Valid, M.Memory, Stored;
      var evicted := lru.RemoveLRU();
      if evicted in data {
        ghost var after := M.Evict(model);
        assert Linked(lru.nodes, after.order, data - {evicted}) by {
          LinkedRemove(before, model.order, data, last);
          assert before[..last] + before[last + 1..] == before[..last];
          LinkedFrame(lru.nodes, after.order, data, data - {evicted});
        }
        Drop(evicted, after);
      } else {
        data := data - {evicted};
      }
    }

    /** The branch of Set for a key that is already stored: overwrite the item in place. */
    method Overwrite(key: string, value: string, expiresAt: M.Expiry)
      requires Valid() && key in data
      modifies repr
      ensures Valid() && repr == old(repr)
      ensures model == M.Put(old(model), key, M.Entry(value, expiresAt))
    {
      hide LRU.Valid, Linked, M.Put, M.Memory, M.ItemSize, Distinct;
      assert forall k :: k in data && k != key ==> data[k] != data[key] by {
        LinkedInjective(lru.nodes, model.order, data);
      }
      hide M.Valid;
      BytesOverwrite(model, key, M.Entry(value, expiresAt));
      OverwriteItem(key, value, expiresAt);
      hide Valid;
      MoveToFront(key);
      OverwriteIsPut(old(model), key, M.Entry(value, expiresAt));
    }

    /** The assignments to the item. */
    method OverwriteItem(key: string, value: string, expiresAt: M.Expiry)
      requires Valid() && key in data && forall k :: k in data && k != key ==> data[k] != data[key]
      requires var after := model.(items := model.items[key := M.Entry(value, expiresAt)]);
               M.Valid(after) && M.Memory(after)
               == M.Memory(model) - M.ItemSize(key, model.items[key].value) + M.ItemSize(key, value)
      modifies `currentMemoryBytes, `model, data[key]
      ensures Valid() && model == old(model).(items := old(model).items[key := M.Entry(value, expiresAt)])
    {
      hide LRU.Valid, Linked, M.Memory, M.ItemSize, M.Valid;
      currentMemoryBytes := currentMemoryBytes - M.ItemSize(key, data[key].value) + M.ItemSize(key, value);
      Assign(model.items, data, key, value, expiresAt);
      hide Stored;
      model := model.(items := model.items[key := M.Entry(value, expiresAt)]);
    }

    /** A new node at the front of the list and a new item pointing at it, not yet in the map. */
    method NewItem(key: string, value: string, expiresAt: M.Expiry) returns (item: CacheItem)
      requires Valid()
      modifies lru, lru.members, `repr
      ensures fresh(item) && fresh(item.node) && item.node.key == key
      ensures repr == old(repr) + {item.node, item} && fresh(repr - old(repr))
      ensures item.value == value && item.expiresAt == expiresAt
      ensures lru.Valid() && lru.nodes == [item.node] + old(lru.nodes) && lru.members == old(lru.members) + {item.node}
      ensures Stored(model.items, data)
    {
      hide LRU.Valid, Linked, M.Valid;
      var node := lru.Add(key);
      item := new CacheItem(value, expiresAt, node);
      repr := repr + {node, item};
    }

    /** The branch of Set for a key that is not stored. */
    method Insert(key: string, value: string, expiresAt: M.Expiry)
      requires Valid() && key !in data
      modifies repr
      ensures Valid() && fresh(repr - old(repr))
      ensures model == M.Put(old(model), key, M.Entry(value, expiresAt))
    {
      PutNew(model, key, M.Entry(value, expiresAt));
      hide LRU.Valid, Linked, M.Valid, M.Put, M.Memory, M.ItemSize, Stored;
      ghost var before, after := lru.nodes, M.Put(model, key, M.Entry(value, expiresAt));
      var item := NewItem(key, value, expiresAt);
      assert Linked(lru.nodes, after.order, data[key := item]) by {
        LinkedFrame(before, model.order, data, data[key := item]);
        LinkedCons(before, model.order, data[key := item], key, item.node);
      }
      hide Valid;
      StoredAdd(model.items, data, key, item);
      Store(key, item, after);
    }

    /** The assignments at the end of an insertion, once the list holds the new node. */
    method Store(key: string, item: CacheItem, ghost after: M.Cache)
      requires this in repr && lru in repr && lru.members <= repr && lru.Valid()
      requires item in repr && forall k :: k in data ==> data[k] in repr
      requires M.Valid(after) && after.maxSize == maxSize && Linked(lru.nodes, after.order, data[key := item])
      requires Stored(after.items, data[key := item])
      requires M.Memory(after) == currentMemoryBytes + M.ItemSize(key, item.value)
      modifies `data, `currentMemoryBytes, `model
      ensures Valid() && model == after
    {
      hide LRU.Valid, Linked, M.Valid, M.Memory, M.ItemSize, Stored;
      data := data[key := item];
      currentMemoryBytes := currentMemoryBytes + M.ItemSize(key, item.value);
      model := after;
    }

    method Set(key: string, value: string, ttl: int, now: int)
      requires Valid()
      modifies repr
      ensures Valid() && fresh(repr - old(repr))
      ensures model == M.Set(old(model), key, value, ttl, now)
    {
      hide LRU.Valid, Linked, M.Minus, Distinct, M.Bytes;
      assert |data| == |model.items| by {
        assert |data.Keys| == |model.items.Keys|;
      }
      var exists_ := key in data;
      if !exists_ && |data| >= maxSize {
        EvictOldest();
      }
      var expiresAt := if ttl > 0 then M.At(now + ttl) else M.Never;
      if exists_ {
        Overwrite(key, value, expiresAt);
      } else {
        Insert(key, value, expiresAt);
      }
    }

    lemma StoredKeys()
      requires Valid()
      ensures data.Keys == model.items.Keys
    {
    }

    method ItemExpired(key: string, now: int) returns (expired: bool)
      requires Valid() && key in data
      ensures expired == (key in M.ExpiredKeys(model, now))
    {
      var item := data[key];
      expired := item.expiresAt.At? && now > item.expiresAt.time;
    }

    /** The range loop deletes while it iterates; each key is visited once, in any order. */
    method CleanupExpired(now: int) returns (expiredCount: nat)
      requires Valid()
      modifies repr
      ensures Valid() && repr == old(repr) && model == M.Cleanup(old(model), now)
      ensures expiredCount == |M.ExpiredKeys(old(model), now)|
    {
      hide *;
      expiredCount := 0;
      StoredKeys();
      var pending := data.Keys;
      ghost var gone: set<string> := {};
      ghost var start, dead := model, M.ExpiredKeys(model, now);
      CleanupStart(start, now);
      while pending != {}
        invariant Valid() && repr == old(repr)
        invariant pending <= data.Keys
        invariant model == M.Without(start, gone) && expiredCount == |gone|
        invariant gone == dead - pending
        decreases pending
      {
        var key :| key in pending;
        CleanupStep(start, gone, pending, key, now);
        pending := pending - {key};
        var expired := ItemExpired(key, now);
        if expired {
          Forget(key);
          gone := gone + {key};
          expiredCount := expiredCount + 1;
        }
      }
    }

    method Snapshot() returns (snapshot: map<string, M.Entry>)
      requires Valid()
      ensures snapshot == model.items
    {
      snapshot := map[];
      var pending := data.Keys;
      while pending != {}
        invariant pending <= data.Keys && snapshot.Keys == data.Keys - pending
        invariant forall k :: k in snapshot ==> snapshot[k] == model.items[k]
        decreases pending
      {
        var key :| key in pending;
        pending := pending - {key};
        snapshot := snapshot[key := M.Entry(data[key].value, data[key].expiresAt)];
      }
    }

    /** The stored keys, each once, whose hash lies in the cyclic range. */
    method GetKeysInHashRange(start: uint32, end: uint32, hash: string -> uint32) returns (matching: seq<string>)
      requires Valid()
      ensures forall k :: k in matching <==> k in model.items && HashInRange(hash(k), start, end)
      ensures Distinct(matching)
    {
      matching := [];
      var pending := data.Keys;
      while pending != {}
        invariant pending <= data.Keys && Distinct(matching)
        invariant forall k :: k in matching <==> k in data.Keys - pending && HashInRange(hash(k), start, end)
        decreases pending
      {
        var key :| key in pending;
        pending := pending - {key};
        if HashInRange(hash(key), start, end) {
          ConsDistinct(key, matching);
          matching := [key] + matching;
        }
      }
    }
  }

  /** The counter is 96 bytes per stored entry and the lengths of its key and value. */
  lemma CounterIsTotal(c: Cache)
    requires c.Valid()
    ensures c.currentMemoryBytes == M.Total(c.model.items)
  {
    M.BytesAreTotal(c.model.items, c.model.order);
  }
}
