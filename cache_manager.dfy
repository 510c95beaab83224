/**
 * The bounded balance cache of the data package: a map from id to entry
 * plus a priority queue of entries ordered by timestamp. When the map is
 * full, add first polls the queue's smallest-timestamp entry and removes its
 * id from the map; get only reads. The clock is a parameter.
 */
module Cache {
  import opened Wrappers
  import opened BankOperations

  /** A cached object with the timestamp it was wrapped with (CacheObject). */
  datatype CacheEntry = CacheEntry(content: Account, timestamp: int)

  /** The cache's fields as a value: capacity, the id map and the queue in insertion order. */
  datatype CacheState = CacheState(maxSize: nat, entries: map<int, CacheEntry>, queue: seq<CacheEntry>)

  /**
   * Every mapped entry is filed under its own id and is still in the queue,
   * and the capacity is at least 1. The queue may also hold stale entries.
   */
  ghost predicate WellFormed(c: CacheState)
  {
    && c.maxSize >= 1
    && forall k :: k in c.entries ==> c.entries[k].content.id == k && c.entries[k] in c.queue
  }

  /** Timestamp of an entry wrapped at time now (milliseconds). */
  function Stamp(now: nat): int
  {
    now
  }

  /** The stamp CacheObject actually takes: System.currentTimeMillis() % 1000. */
  function MillisStamp(now: nat): int
  {
    now % 1000
  }

  /** The queue position PriorityQueue.poll takes: a smallest timestamp, the earliest among equals. */
  function MinIndex(q: seq<CacheEntry>): (i: nat)
    requires |q| > 0
    ensures i < |q|
  {
    if |q| == 1 then 0
    else
      var k := MinIndex(q[1..]) + 1;
      if q[0].timestamp <= q[k].timestamp then 0 else k
  }

  /** MinIndex picks a smallest timestamp, and no earlier entry has that timestamp. */
  lemma {:induction false} MinIndexIsMin(q: seq<CacheEntry>)
    requires |q| > 0
    ensures forall j :: 0 <= j < |q| ==> q[MinIndex(q)].timestamp <= q[j].timestamp
    ensures forall j :: 0 <= j < MinIndex(q) ==> q[MinIndex(q)].timestamp < q[j].timestamp
    decreases |q|
  {
    if |q| > 1 {
      var t := q[1..];
      MinIndexIsMin(t);
      var k := MinIndex(t) + 1;
      assert q[k] == t[k - 1];
      forall j | 1 <= j < |q| ensures q[k].timestamp <= q[j].timestamp {
        assert q[j] == t[j - 1];
      }
      forall j | 1 <= j < k ensures q[k].timestamp < q[j].timestamp {
        assert q[j] == t[j - 1];
      }
    }
  }

  /** A map is empty or has a key. */
  lemma KeyOrEmpty(m: map<int, CacheEntry>)
    ensures m == map[] || exists k :: k in m
  {
    if forall k :: k !in m {
      assert m == map[];
    }
  }

  /** A full well-formed cache has something to poll: its queue is not empty. */
  lemma FullHasQueue(c: CacheState)
    requires WellFormed(c) && |c.entries| == c.maxSize
    ensures c.queue != []
  {
    KeyOrEmpty(c.entries);
  }

  /** The poll at capacity: drop a smallest-timestamp queue entry and its id from the map. */
  function Evicted(c: CacheState): CacheState
    requires c.queue != []
  {
    var i := MinIndex(c.queue);
    CacheState(c.maxSize, c.entries - {c.queue[i].content.id}, c.queue[..i] + c.queue[i + 1..])
  }

  /**
   * The state after add(o) stamped with `stamp`: evict at capacity, then put
   * and enqueue. A full cache with an empty queue (where poll would return
   * null) does not arise from a well-formed state; see FullHasQueue.
   */
  function AddedAt(c: CacheState, o: Account, stamp: int): CacheState
  {
    var d := if c.maxSize == |c.entries| && c.queue != [] then Evicted(c) else c;
    var e := CacheEntry(o, stamp);
    CacheState(c.maxSize, d.entries[o.id := e], d.queue + [e])
  }

  /** add keeps the cache well formed: every mapped entry stays filed under its id and queued. */
  lemma AddedWellFormed(c: CacheState, o: Account, stamp: int)
    requires WellFormed(c)
    ensures WellFormed(AddedAt(c, o, stamp)) && AddedAt(c, o, stamp).maxSize == c.maxSize
  {
    if c.maxSize == |c.entries| {
      FullHasQueue(c);
      var i := MinIndex(c.queue);
      var d := Evicted(c);
      forall k | k in d.entries ensures d.entries[k] in d.queue {
        var j :| 0 <= j < |c.queue| && c.queue[j] == c.entries[k];
        assert j != i;
        if j < i {
          assert d.queue[j] == c.queue[j];
        } else {
          assert d.queue[j - 1] == c.queue[j];
        }
      }
    }
  }

  /** What get(id) returns: the mapped object, or None for Java's null. */
  function Lookup(c: CacheState, id: int): Option<Account>
  {
    if id in c.entries then Some(c.entries[id].content) else None
  }

  /** After add(o), get(o.id) returns o. */
  lemma GetAfterAdd(c: CacheState, o: Account, stamp: int)
    ensures Lookup(AddedAt(c, o, stamp), o.id) == Some(o)
  {
  }

  /** add never introduces an id other than o.id, nor changes another id's entry. */
  lemma AddKeepsOthers(c: CacheState, o: Account, stamp: int, k: int)
    requires k != o.id
    ensures k in AddedAt(c, o, stamp).entries ==> k in c.entries && AddedAt(c, o, stamp).entries[k] == c.entries[k]
  {
  }

  /** A queue whose head is strictly older than the rest is polled at its head. */
  lemma MinIndexHead(q: seq<CacheEntry>)
    requires |q| > 0
    requires forall j :: 0 < j < |q| ==> q[0].timestamp < q[j].timestamp
    ensures MinIndex(q) == 0
  {
    MinIndexIsMin(q);
  }

  /** At capacity, with the queue's head polled first, add drops the head and its id. */
  lemma AddPollsHead(c: CacheState, o: Account, stamp: int)
    requires |c.entries| == c.maxSize && c.queue != [] && MinIndex(c.queue) == 0
    ensures AddedAt(c, o, stamp)
            == CacheState(c.maxSize, (c.entries - {c.queue[0].content.id})[o.id := CacheEntry(o, stamp)],
                          c.queue[1..] + [CacheEntry(o, stamp)])
  {
  }

  /** Below capacity add removes nothing: every other id keeps its entry. */
  lemma AddBelowCapacity(c: CacheState, o: Account, stamp: int)
    requires |c.entries| < c.maxSize
    ensures AddedAt(c, o, stamp).entries == c.entries[o.id := CacheEntry(o, stamp)]
    ensures AddedAt(c, o, stamp).queue == c.queue + [CacheEntry(o, stamp)]
  {
  }

  /** At capacity add first removes a smallest-timestamp queue entry and its id. */
  lemma AddAtCapacity(c: CacheState, o: Account, stamp: int)
    requires WellFormed(c) && |c.entries| == c.maxSize
    ensures c.queue != []
    ensures var i := MinIndex(c.queue);
            && (forall e :: e in c.queue ==> c.queue[i].timestamp <= e.timestamp)
            && AddedAt(c, o, stamp).entries == (c.entries - {c.queue[i].content.id})[o.id := CacheEntry(o, stamp)]
            && AddedAt(c, o, stamp).queue == c.queue[..i] + c.queue[i + 1..] + [CacheEntry(o, stamp)]
  {
    FullHasQueue(c);
    MinIndexIsMin(c.queue);
  }

  /** The entries added, in order, as (object, stamp) pairs: the state after adding all of them. */
  function AddAll(c: CacheState, items: seq<(Account, int)>): (c': CacheState)
    ensures c'.maxSize == c.maxSize
    decreases |items|
  {
    if items == [] then c
    else
      var last := items[|items| - 1];
      AddedAt(AddAll(c, items[..|items| - 1]), last.0, last.1)
  }

  /** Any run of adds keeps a well-formed cache well formed, at the same capacity. */
  lemma {:induction false} AddAllWellFormed(c: CacheState, items: seq<(Account, int)>)
    requires WellFormed(c)
    ensures WellFormed(AddAll(c, items)) && AddAll(c, items).maxSize == c.maxSize
    decreases |items|
  {
    if items != [] {
      var n := |items| - 1;
      AddAllWellFormed(c, items[..n]);
      AddedWellFormed(AddAll(c, items[..n]), items[n].0, items[n].1);
    }
  }

  lemma AddAllSnoc(c: CacheState, items: seq<(Account, int)>, x: (Account, int))
    ensures AddAll(c, items + [x]) == AddedAt(AddAll(c, items), x.0, x.1)
  {
    assert (items + [x])[..|items|] == items;
  }

  predicate DistinctIds(items: seq<(Account, int)>)
  {
    forall i, j :: 0 <= i < j < |items| ==> items[i].0.id != items[j].0.id
  }

  /** Queue entries carry distinct ids, each of them mapped in m. */
  ghost predicate QueueMatches(q: seq<CacheEntry>, m: map<int, CacheEntry>)
  {
    && (forall i, j :: 0 <= i < j < |q| ==> q[i].content.id != q[j].content.id)
    && (forall i :: 0 <= i < |q| ==> q[i].content.id in m)
  }

  /**
   * The queue holds exactly one entry per mapped id and nothing else: the
   * shape the cache keeps while no id is added twice.
   */
  ghost predicate Tight(c: CacheState)
  {
    && WellFormed(c)
    && |c.entries| <= c.maxSize
    && QueueMatches(c.queue, c.entries)
  }

  /** Dropping one position of a matching queue, and its id from the map, keeps them matching. */
  lemma {:induction false} DropKeepsMatch(q: seq<CacheEntry>, m: map<int, CacheEntry>, i: nat)
    requires QueueMatches(q, m) && i < |q|
    ensures QueueMatches(q[..i] + q[i + 1..], m - {q[i].content.id})
  {
    var rest := q[..i] + q[i + 1..];
    forall j | 0 <= j < |rest| ensures rest[j] == q[if j < i then j else j + 1] {
    }
  }

  /** Enqueueing an entry whose id is not yet mapped, and mapping it, keeps them matching. */
  lemma AppendFreshKeepsMatch(q: seq<CacheEntry>, m: map<int, CacheEntry>, e: CacheEntry)
    requires QueueMatches(q, m) && e.content.id !in m
    ensures QueueMatches(q + [e], m[e.content.id := e])
  {
  }

  lemma {:induction false} AddFreshKeepsTight(c: CacheState, o: Account, stamp: int)
    requires Tight(c) && o.id !in c.entries
    ensures Tight(AddedAt(c, o, stamp))
  {
    var e := CacheEntry(o, stamp);
    AddedWellFormed(c, o, stamp);
    if |c.entries| == c.maxSize {
      FullHasQueue(c);
      var i := MinIndex(c.queue);
      var v := c.queue[i].content.id;
      var m := c.entries - {v};
      var rest := c.queue[..i] + c.queue[i + 1..];
      assert AddedAt(c, o, stamp) == CacheState(c.maxSize, m[o.id := e], rest + [e]);
      DropKeepsMatch(c.queue, c.entries, i);
      AppendFreshKeepsMatch(rest, m, e);
      assert |m| == |c.entries| - 1;
    } else {
      AppendFreshKeepsMatch(c.queue, c.entries, e);
    }
  }

  /**
   * If every added id is distinct (and not already cached), the map never
   * holds more than maxSize entries.
   */
  lemma {:induction false} SizeBound(c: CacheState, items: seq<(Account, int)>)
    requires Tight(c)
    requires DistinctIds(items)
    requires forall i :: 0 <= i < |items| ==> items[i].0.id !in c.entries
    ensures Tight(AddAll(c, items))
    ensures |AddAll(c, items).entries| <= c.maxSize
    decreases |items|
  {
    if items != [] {
      var n := |items| - 1;
      var init := items[..n];
      assert DistinctIds(init);
      SizeBound(c, init);
      var prev := AddAll(c, init);
      AddAllKeys(c, init, items[n].0.id);
      AddFreshKeepsTight(prev, items[n].0, items[n].1);
      AddAllWellFormed(c, init);
    }
  }

  /** An id that is neither cached nor among the added items is not cached afterwards. */
  lemma {:induction false} AddAllKeys(c: CacheState, items: seq<(Account, int)>, k: int)
    requires k !in c.entries
    requires forall i :: 0 <= i < |items| ==> items[i].0.id != k
    ensures k !in AddAll(c, items).entries
    decreases |items|
  {
    if items != [] {
      var n := |items| - 1;
      AddAllKeys(c, items[..n], k);
    }
  }

  /**
   * Re-adding an id leaves its old queue entry behind; polling that stale
   * entry later frees no room, so the map outgrows its capacity: with
   * capacity 2, adding a, a, b, d, e (distinct ids) at increasing times
   * leaves three entries.
   */
  lemma StaleEntryBreaksBound(a: Account, b: Account, d: Account, e: Account, t1: int, t2: int, t3: int, t4: int, t5: int)
    requires a.id != b.id && a.id != d.id && a.id != e.id && b.id != d.id && b.id != e.id && d.id != e.id
    requires t1 < t2 < t3 < t4 < t5
    ensures var c := AddAll(CacheState(2, map[], []), [(a, t1), (a, t2), (b, t3), (d, t4), (e, t5)]);
            |c.entries| == 3 > c.maxSize
  {
    var x1, x2, x3, x4, x5 := (a, t1), (a, t2), (b, t3), (d, t4), (e, t5);
    var c0 := CacheState(2, map[], []);
    var e2, e3, e4, e5 := CacheEntry(a, t2), CacheEntry(b, t3), CacheEntry(d, t4), CacheEntry(e, t5);
    var c4 := CacheState(2, map[b.id := e3, d.id := e4], [e2, e3, e4]);
    assert AddAll(c0, [x1, x2, x3, x4, x5]) == AddedAt(c4, e, t5) by {
      StaleFourth(a, b, d, t1, t2, t3, t4);
      AddAllSnoc(c0, [x1, x2, x3, x4], x5);
      assert [x1, x2, x3, x4] + [x5] == [x1, x2, x3, x4, x5];
    }
    assert |AddedAt(c4, e, t5).entries| == 3 by {
      MinIndexHead(c4.queue);
      TwoKeys(b.id, e3, d.id, e4);
      AddPollsHead(c4, e, t5);
      ThirdKey(b.id, e3, d.id, e4, a.id, e.id, e5);
    }
  }

  lemma TwoKeys(k1: int, v1: CacheEntry, k2: int, v2: CacheEntry)
    requires k1 != k2
    ensures |map[k1 := v1, k2 := v2]| == 2
  {
    assert map[k1 := v1, k2 := v2].Keys == {k1, k2};
  }

  /** Dropping k1 from {k1, k2} and putting k3 leaves {k2, k3}. */
  lemma SwapKey(k1: int, v1: CacheEntry, k2: int, v2: CacheEntry, k3: int, v3: CacheEntry)
    requires k1 != k2 && k1 != k3 && k2 != k3
    ensures (map[k1 := v1, k2 := v2] - {k1})[k3 := v3] == map[k2 := v2, k3 := v3]
  {
  }

  /** Dropping an absent key k0 from {k1, k2} and putting a new k3 leaves three keys. */
  lemma ThirdKey(k1: int, v1: CacheEntry, k2: int, v2: CacheEntry, k0: int, k3: int, v3: CacheEntry)
    requires k1 != k2 && k1 != k3 && k2 != k3 && k0 != k1 && k0 != k2
    ensures |(map[k1 := v1, k2 := v2] - {k0})[k3 := v3]| == 3
  {
    var m := (map[k1 := v1, k2 := v2] - {k0})[k3 := v3];
    assert m.Keys == {k1, k2, k3};
  }

  /** The first three adds: id a twice, then b; the stale entry for a heads the queue. */
  lemma StaleThird(a: Account, b: Account, t1: int, t2: int, t3: int)
    requires a.id != b.id
    ensures AddAll(CacheState(2, map[], []), [(a, t1), (a, t2), (b, t3)])
            == CacheState(2, map[a.id := CacheEntry(a, t2), b.id := CacheEntry(b, t3)],
                          [CacheEntry(a, t1), CacheEntry(a, t2), CacheEntry(b, t3)])
  {
    var c0 := CacheState(2, map[], []);
    var x1, x2, x3 := (a, t1), (a, t2), (b, t3);
    AddAllSnoc(c0, [], x1);
    AddAllSnoc(c0, [x1], x2);
    AddAllSnoc(c0, [x1, x2], x3);
    assert [x1] + [x2] == [x1, x2];
    assert [x1, x2] + [x3] == [x1, x2, x3];
  }

  /** The fourth add polls the stale entry for a, yet drops a's live entry. */
  lemma StaleFourth(a: Account, b: Account, d: Account, t1: int, t2: int, t3: int, t4: int)
    requires a.id != b.id && a.id != d.id && b.id != d.id
    requires t1 < t2 < t3
    ensures AddAll(CacheState(2, map[], []), [(a, t1), (a, t2), (b, t3), (d, t4)])
            == CacheState(2, map[b.id := CacheEntry(b, t3), d.id := CacheEntry(d, t4)],
                          [CacheEntry(a, t2), CacheEntry(b, t3), CacheEntry(d, t4)])
  {
    var c0 := CacheState(2, map[], []);
    var x1, x2, x3, x4 := (a, t1), (a, t2), (b, t3), (d, t4);
    var c3 := CacheState(2, map[a.id := CacheEntry(a, t2), b.id := CacheEntry(b, t3)],
                         [CacheEntry(a, t1), CacheEntry(a, t2), CacheEntry(b, t3)]);
    assert AddAll(c0, [x1, x2, x3, x4]) == AddedAt(c3, d, t4) by {
      StaleThird(a, b, t1, t2, t3);
      AddAllSnoc(c0, [x1, x2, x3], x4);
      assert [x1, x2, x3] + [x4] == [x1, x2, x3, x4];
    }
    FourthAddPollsStale(a, b, d, t1, t2, t3, t4);
  }

  /** The add that StaleFourth describes, on the cache the first three adds leave. */
  lemma FourthAddPollsStale(a: Account, b: Account, d: Account, t1: int, t2: int, t3: int, t4: int)
    requires a.id != b.id && a.id != d.id && b.id != d.id
    requires t1 < t2 < t3
    ensures var c3 := CacheState(2, map[a.id := CacheEntry(a, t2), b.id := CacheEntry(b, t3)],
                                 [CacheEntry(a, t1), CacheEntry(a, t2), CacheEntry(b, t3)]);
            AddedAt(c3, d, t4)
            == CacheState(2, map[b.id := CacheEntry(b, t3), d.id := CacheEntry(d, t4)],
                          [CacheEntry(a, t2), CacheEntry(b, t3), CacheEntry(d, t4)])
  {
    var c3 := CacheState(2, map[a.id := CacheEntry(a, t2), b.id := CacheEntry(b, t3)],
                         [CacheEntry(a, t1), CacheEntry(a, t2), CacheEntry(b, t3)]);
    assert c3.queue[1..] + [CacheEntry(d, t4)] == [CacheEntry(a, t2), CacheEntry(b, t3), CacheEntry(d, t4)];
    MinIndexHead(c3.queue);
    TwoKeys(a.id, CacheEntry(a, t2), b.id, CacheEntry(b, t3));
    AddPollsHead(c3, d, t4);
    SwapKey(a.id, CacheEntry(a, t2), b.id, CacheEntry(b, t3), d.id, CacheEntry(d, t4));
  }

  /** Items whose stamps increase strictly in the order they are added. */
  predicate IncreasingStamps(items: seq<(Account, int)>)
  {
    forall i, j :: 0 <= i < j < |items| ==> items[i].1 < items[j].1
  }

  function EntriesOf(items: seq<(Account, int)>): (q: seq<CacheEntry>)
    ensures |q| == |items|
    ensures forall i :: 0 <= i < |items| ==> q[i] == CacheEntry(items[i].0, items[i].1)
  {
    seq(|items|, i requires 0 <= i < |items| => CacheEntry(items[i].0, items[i].1))
  }

  /** Filling an empty cache up to its capacity evicts nothing. */
  lemma {:induction false} FillEmpty(maxSize: nat, items: seq<(Account, int)>)
    requires maxSize >= 1 && |items| <= maxSize && DistinctIds(items)
    ensures var c := AddAll(CacheState(maxSize, map[], []), items);
            && c.queue == EntriesOf(items)
            && |c.entries| == |items|
            && forall i :: 0 <= i < |items| ==> items[i].0.id in c.entries
    decreases |items|
  {
    if items != [] {
      var n := |items| - 1;
      var front := items[..n];
      assert front + [items[n]] == items;
      assert forall i :: 0 <= i < n ==> front[i] == items[i];
      FillEmpty(maxSize, front);
      AddAllKeys(CacheState(maxSize, map[], []), front, items[n].0.id);
      FillOne(maxSize, front, items[n].0, items[n].1);
    }
  }

  /** One more add below capacity appends the entry and maps its new id. */
  lemma FillOne(maxSize: nat, front: seq<(Account, int)>, o: Account, t: int)
    requires |front| < maxSize
    requires var p := AddAll(CacheState(maxSize, map[], []), front);
             && p.queue == EntriesOf(front) && |p.entries| == |front| && o.id !in p.entries
             && forall i :: 0 <= i < |front| ==> front[i].0.id in p.entries
    ensures var c := AddAll(CacheState(maxSize, map[], []), front + [(o, t)]);
            && c.queue == EntriesOf(front + [(o, t)]) && |c.entries| == |front| + 1
            && forall i :: 0 <= i < |front| + 1 ==> (front + [(o, t)])[i].0.id in c.entries
  {
    var c0 := CacheState(maxSize, map[], []);
    var prev := AddAll(c0, front);
    AddBelowCapacity(prev, o, t);
    AddAllSnoc(c0, front, (o, t));
    assert EntriesOf(front + [(o, t)]) == EntriesOf(front) + [CacheEntry(o, t)];
  }

  /**
   * With stamps that grow with time, the cache evicts its oldest entry:
   * adding maxSize + 1 distinct ids to an empty cache drops the first one
   * and keeps all the others.
   */
  lemma {:induction false} OldestEvicted(maxSize: nat, items: seq<(Account, int)>)
    requires maxSize >= 1 && |items| == maxSize + 1
    requires DistinctIds(items) && IncreasingStamps(items)
    ensures items[0].0.id !in AddAll(CacheState(maxSize, map[], []), items).entries
    ensures forall i :: 1 <= i < |items| ==> items[i].0.id in AddAll(CacheState(maxSize, map[], []), items).entries
  {
    var n := |items| - 1;
    var last := items[n];
    var c0 := CacheState(maxSize, map[], []);
    var prev := AddAll(c0, items[..n]);
    var first := items[0].0.id;
    OldestPolled(maxSize, items);
    var kept := (prev.entries - {first})[last.0.id := CacheEntry(last.0, last.1)];
    assert AddAll(c0, items).entries == kept by {
      assert items[..n] + [last] == items;
      AddAllSnoc(c0, items[..n], last);
      AddPollsHead(prev, last.0, last.1);
    }
    forall i | 1 <= i < |items| ensures items[i].0.id in kept {
      if i < n {
        KeptUnlessDropped(prev.entries, first, last.0.id, CacheEntry(last.0, last.1), items[i].0.id);
      }
    }
  }

  /** Before the last add the cache is full, holds every earlier id, and polls the first one. */
  lemma OldestPolled(maxSize: nat, items: seq<(Account, int)>)
    requires maxSize >= 1 && |items| == maxSize + 1
    requires DistinctIds(items) && IncreasingStamps(items)
    ensures var prev := AddAll(CacheState(maxSize, map[], []), items[..|items| - 1]);
            && |prev.entries| == maxSize
            && (forall i :: 0 <= i < |items| - 1 ==> items[i].0.id in prev.entries)
            && prev.queue != [] && MinIndex(prev.queue) == 0 && prev.queue[0].content.id == items[0].0.id
  {
    var n := |items| - 1;
    var init := items[..n];
    var prev := AddAll(CacheState(maxSize, map[], []), init);
    FillEmpty(maxSize, init);
    assert forall j :: 0 <= j < n ==> prev.queue[j] == CacheEntry(items[j].0, items[j].1);
    MinIndexHead(prev.queue);
  }

  lemma KeptUnlessDropped(m: map<int, CacheEntry>, drop: int, k: int, v: CacheEntry, j: int)
    requires j in m && j != drop
    ensures j in (m - {drop})[k := v]
  {
  }

  /** The unit test's scenario: capacity 20, ids 1..21 added at increasing times; id 1 is gone. */
  lemma TwentyOneAddsEvictFirst()
    ensures var items := seq(21, i => (Account(i + 1, 0), i + 1));
            Lookup(AddAll(CacheState(20, map[], []), items), 1) == None
  {
    var items := seq(21, i => (Account(i + 1, 0), i + 1));
    OldestEvicted(20, items);
  }

  /**
   * The stamps the source takes wrap every second, so a newer entry can be
   * evicted before an older one: capacity 2, id 1 added at 999 ms, id 2 at
   * 1000 ms (stamp 0), id 3 at 1001 ms evicts id 2 and keeps id 1.
   */
  lemma WrappedStampEvictsNewer(a: Account, b: Account, d: Account, now: nat)
    requires a.id != b.id && a.id != d.id && b.id != d.id
    requires now % 1000 == 999
    ensures var c := AddAll(CacheState(2, map[], []),
                            [(a, MillisStamp(now)), (b, MillisStamp(now + 1)), (d, MillisStamp(now + 2))]);
            Lookup(c, a.id) == Some(a) && Lookup(c, b.id) == None
  {
    MillisWrap(now);
    var x1, x2, x3 := (a, 999), (b, 0), (d, 1);
    var c0 := CacheState(2, map[], []);
    var e1, e2, e3 := CacheEntry(a, 999), CacheEntry(b, 0), CacheEntry(d, 1);
    var c2 := CacheState(2, map[a.id := e1, b.id := e2], [e1, e2]);
    assert AddAll(c0, [x1, x2, x3]) == AddedAt(c2, d, 1) by {
      AddTwoToEmpty(2, a, 999, b, 0);
      assert [x1, x2] + [x3] == [x1, x2, x3];
      AddAllSnoc(c0, [x1, x2], x3);
    }
    assert AddedAt(c2, d, 1).entries == (c2.entries - {b.id})[d.id := e3] by {
      TwoKeys(a.id, e1, b.id, e2);
      assert MinIndex(c2.queue) == 1;
    }
  }

  /** One millisecond after a stamp of 999 the stamp starts again at 0. */
  lemma MillisWrap(now: nat)
    requires now % 1000 == 999
    ensures MillisStamp(now) == 999 && MillisStamp(now + 1) == 0 && MillisStamp(now + 2) == 1
  {
    var q := now / 1000;
    assert now == 1000 * q + 999;
    assert now + 1 == 1000 * (q + 1);
    assert now + 2 == 1000 * (q + 1) + 1;
  }

  /** Two distinct ids added to an empty cache of capacity at least 2 are both kept, in order. */
  lemma AddTwoToEmpty(maxSize: nat, a: Account, t1: int, b: Account, t2: int)
    requires maxSize >= 2 && a.id != b.id
    ensures AddAll(CacheState(maxSize, map[], []), [(a, t1), (b, t2)])
            == CacheState(maxSize, map[a.id := CacheEntry(a, t1), b.id := CacheEntry(b, t2)],
                          [CacheEntry(a, t1), CacheEntry(b, t2)])
  {
    var c0 := CacheState(maxSize, map[], []);
    AddAllSnoc(c0, [], (a, t1));
    AddAllSnoc(c0, [(a, t1)], (b, t2));
    assert [(a, t1)] + [(b, t2)] == [(a, t1), (b, t2)];
  }

  /**
   * The cache object. maxSize is fixed at construction; entries and queue
   * are the HashMap and PriorityQueue fields.
   */
  class CacheManager {
    const maxSize: nat
    var entries: map<int, CacheEntry>
    var queue: seq<CacheEntry>

    function State(): CacheState
      reads this
    {
      CacheState(maxSize, entries, queue)
    }

    ghost predicate Valid()
      reads this
    {
      WellFormed(State())
    }

    /** A capacity of 0 is excluded: the source's add would poll an empty queue and dereference null. */
    constructor (size: nat)
      requires size >= 1
      ensures Valid()
      ensures State() == CacheState(size, map[], [])
    {
      maxSize := size;
      entries := map[];
      queue := [];
    }

    /** get: the object cached under id, or None; nothing changes (no recency refresh). */
    method Get(id: int) returns (r: Option<Account>)
      ensures r == Lookup(State(), id)
      ensures r.Some? <==> id in entries
      ensures Valid() && r.Some? ==> r.value.id == id
    {
      if id in entries {
        r := Some(entries[id].content);
      } else {
        r := None;
      }
    }

    /** add: at capacity poll the queue and drop that id, then put and enqueue o stamped at now. */
    method Add(o: Account, now: nat)
      requires Valid()
      modifies this
      ensures Valid()
      ensures State() == AddedAt(old(State()), o, Stamp(now))
    {
      AddedWellFormed(State(), o, Stamp(now));
      if maxSize == |entries| {
        FullHasQueue(State());
        var i := MinIndex(queue);
        var target := queue[i].content.id;
        queue := queue[..i] + queue[i + 1..];
        entries := entries - {target};
      }
      var co := CacheEntry(o, Stamp(now));
      entries := entries[o.id := co];
      queue := queue + [co];
    }
  }
}
