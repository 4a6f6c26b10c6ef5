/** The recall cache of the active-memory plugin: a bounded map whose entries expire. */
module RecallCache {
  import opened Basics
  import opened OrderedMap

  const DEFAULT_MAX_CACHE_ENTRIES: nat := 1000

  datatype RecallResult = Ok(rawReply: string, summary: string) | Empty

  datatype Cached = Cached(expiresAt: int, result: RecallResult)

  type Cache = OMap<string, Cached>

  // ----- the history of the cache

  /** One write: the entry that was stored for a key, and when. */
  datatype Write = Write(key: string, entry: Cached, at: int)

  /** The keys ever written, each at the place of its last write. */
  function Order(h: seq<Write>): seq<string> {
    if h == [] then []
    else
      var key := h[|h| - 1].key;
      Drop(Order(h[..|h| - 1]), key) + [key]
  }

  /** The last entry written for each key. */
  function Latest(h: seq<Write>): map<string, Cached> {
    if h == [] then map[] else Latest(h[..|h| - 1])[h[|h| - 1].key := h[|h| - 1].entry]
  }

  /** The n-th write is the last one for the key. */
  ghost predicate LastWrite(h: seq<Write>, key: string, n: int) {
    0 <= n < |h| && h[n].key == key && forall m :: n < m < |h| ==> h[m].key != key
  }

  /** What the order and the latest entries are: a key is there exactly when it was written, with the entry of its
      last write, and keys stand in the order of their last writes. */
  lemma {:induction false} LatestIsLastWrite(h: seq<Write>, key: string, n: int)
    requires LastWrite(h, key, n)
    ensures key in Order(h) && key in Latest(h) && Latest(h)[key] == h[n].entry
    decreases |h|
  {
    var front := h[..|h| - 1];
    OrderDistinct(front);
    DropDistinct(Order(front), h[|h| - 1].key);
    if n < |h| - 1 {
      assert LastWrite(front, key, n);
      LatestIsLastWrite(front, key, n);
    }
  }

  lemma {:induction false} OrderWasWritten(h: seq<Write>, key: string) returns (n: int)
    requires key in Order(h) || key in Latest(h)
    ensures LastWrite(h, key, n)
    decreases |h|
  {
    var front := h[..|h| - 1];
    OrderDistinct(front);
    DropDistinct(Order(front), h[|h| - 1].key);
    hide Drop;
    n := |h| - 1;
    if h[n].key != key {
      n := OrderWasWritten(front, key);
      LastStays(h, key, n);
    }
  }

  lemma LastStays(h: seq<Write>, key: string, n: int)
    requires h != [] && h[|h| - 1].key != key
    ensures LastWrite(h[..|h| - 1], key, n) <==> LastWrite(h, key, n)
  {
    var front := h[..|h| - 1];
    if LastWrite(front, key, n) {
      forall m | n < m < |h| ensures h[m].key != key {
        if m < |h| - 1 { assert front[m] == h[m]; }
      }
    }
  }

  lemma {:induction false} OrderByLastWrite(h: seq<Write>, x: string, m: int, y: string, n: int)
    requires LastWrite(h, x, m) && LastWrite(h, y, n) && m < n
    ensures x in Order(h) && y in Order(h) && Find(Order(h), x) < Find(Order(h), y)
    decreases |h|
  {
    hide Order, Latest, Find;
    LatestIsLastWrite(h, x, m);
    LatestIsLastWrite(h, y, n);
    var front, last := h[..|h| - 1], h[|h| - 1];
    assert h == front + [last];
    LastStays(h, x, m);
    LatestIsLastWrite(front, x, m);
    if n < |h| - 1 {
      LastStays(h, y, n);
      LatestIsLastWrite(front, y, n);
      OrderByLastWrite(front, x, m, y, n);
      MovesBefore(front, last, x, y);
    } else {
      MovesToEnd(front, last, x);
    }
  }

  lemma MovesBefore(h: seq<Write>, w: Write, x: string, y: string)
    requires x in Order(h) && y in Order(h) && x != w.key && y != w.key && Find(Order(h), x) < Find(Order(h), y)
    ensures Find(Order(h + [w]), x) < Find(Order(h + [w]), y)
  {
    OrderSnoc(h, w);
    OrderDistinct(h);
    hide Order, Find, Drop;
    MovedLater(Order(h), w.key, x, y);
  }

  lemma MovesToEnd(h: seq<Write>, w: Write, x: string)
    requires x in Order(h) && x != w.key
    ensures Find(Order(h + [w]), x) < Find(Order(h + [w]), w.key)
  {
    OrderSnoc(h, w);
    OrderDistinct(h);
    hide Order, Find, Drop;
    MovedBeforeLast(Order(h), w.key, x);
  }

  lemma {:induction false} OrderDistinct(h: seq<Write>)
    ensures Distinct(Order(h)) && (forall k :: k in Order(h) <==> k in Latest(h))
    decreases |h|
  {
    if h != [] {
      OrderDistinct(h[..|h| - 1]);
      DropDistinct(Order(h[..|h| - 1]), h[|h| - 1].key);
    }
  }

  lemma OrderSnoc(h: seq<Write>, w: Write)
    ensures Order(h + [w]) == Drop(Order(h), w.key) + [w.key] && Latest(h + [w]) == Latest(h)[w.key := w.entry]
  {
    assert (h + [w])[..|h|] == h;
  }

  // ----- what the cache keeps

  /** Every entry is the latest one for its key. */
  ghost predicate Current(c: Cache, h: seq<Write>) {
    forall k :: k in c.vals ==> k in Latest(h) && c.vals[k] == Latest(h)[k]
  }

  /** The entries stand in the order of their last writes. */
  ghost predicate InOrder(c: Cache, h: seq<Write>) {
    forall a, b :: 0 <= a < b < |c.keys| ==> Find(Order(h), c.keys[a]) < Find(Order(h), c.keys[b])
  }

  /** A key is missing only if its last entry has expired, or 1000 other keys were written after it. */
  ghost predicate MissingFor(c: Cache, h: seq<Write>, clock: int, i: int)
    requires 0 <= i < |Order(h)| && Order(h)[i] in Latest(h)
  {
    Order(h)[i] !in c.vals ==>
      Latest(h)[Order(h)[i]].expiresAt <= clock || |Order(h)| - i > DEFAULT_MAX_CACHE_ENTRIES
  }

  ghost predicate Kept(c: Cache, h: seq<Write>, clock: int) {
    forall i :: 0 <= i < |Order(h)| ==> Order(h)[i] in Latest(h) && MissingFor(c, h, clock, i)
  }

  ghost predicate Inv(c: Cache, h: seq<Write>, clock: int) {
    Wf(c) && Current(c, h) && InOrder(c, h) && Kept(c, h, clock) && "" !in c.vals
  }

  /** With one time to live for all writes, entries expire in the order they were written. */
  ghost predicate ExpireInOrder(h: seq<Write>) {
    forall i, j :: 0 <= i < j < |h| ==> h[i].entry.expiresAt <= h[j].entry.expiresAt
  }

  lemma {:induction false} LatestIsBounded(h: seq<Write>, bound: int)
    requires forall i :: 0 <= i < |h| ==> h[i].entry.expiresAt <= bound
    ensures forall k :: k in Latest(h) ==> Latest(h)[k].expiresAt <= bound
    decreases |h|
  {
    if h != [] {
      LatestIsBounded(h[..|h| - 1], bound);
    }
  }

  lemma OrderLast(h: seq<Write>, i: int)
    requires ExpireInOrder(h) && 0 <= i < |Order(h)| - 1
    ensures Order(h)[i] in Latest(h) && Order(h)[|Order(h)| - 1] in Latest(h)
    ensures Latest(h)[Order(h)[i]].expiresAt <= Latest(h)[Order(h)[|Order(h)| - 1]].expiresAt
  {
    OrderDistinct(h);
    LatestIsBounded(h, h[|h| - 1].entry.expiresAt);
    hide Drop, Latest;
    assert Order(h)[i] in Order(h);
  }

  lemma OrderFront(h: seq<Write>, i: int)
    requires h != [] && 0 <= i < |Order(h)| - 1
    ensures var front, key := h[..|h| - 1], h[|h| - 1].key;
      var i' := Before(Find(Order(front), key), i);
      0 <= i' < |Order(front)| && Order(front)[i'] == Order(h)[i] && Order(h)[i] != key
  {
    var front, key := h[..|h| - 1], h[|h| - 1].key;
    OrderDistinct(front);
    DropDistinct(Order(front), key);
    DropAt(Order(front), key, i);
    assert Drop(Order(front), key)[i] in Drop(Order(front), key);
  }

  lemma {:induction false} OrderExpires(h: seq<Write>, i: int, j: int)
    requires ExpireInOrder(h) && 0 <= i < j < |Order(h)|
    ensures Order(h)[i] in Latest(h) && Order(h)[j] in Latest(h)
    ensures Latest(h)[Order(h)[i]].expiresAt <= Latest(h)[Order(h)[j]].expiresAt
    decreases |h|
  {
    hide Drop, Find;
    if j == |Order(h)| - 1 {
      OrderLast(h, i);
    } else {
      OrderFront(h, i);
      OrderFront(h, j);
      var front, key := h[..|h| - 1], h[|h| - 1].key;
      var p := Find(Order(front), key);
      OrderExpires(front, Before(p, i), Before(p, j));
    }
  }

  // ----- the steps

  /** Deleting an expired entry loses nothing. */
  lemma DeleteExpired(c: Cache, h: seq<Write>, clock: int, k: string)
    requires Inv(c, h, clock) && k in c.vals && c.vals[k].expiresAt <= clock
    ensures Inv(Delete(c, k), h, clock)
  {
    DeleteKeepsOrder(c, h, k);
    forall i | 0 <= i < |Order(h)| ensures MissingFor(Delete(c, k), h, clock, i) {
      assert MissingFor(c, h, clock, i);
    }
  }

  lemma DeleteKeepsOrder(c: Cache, h: seq<Write>, k: string)
    requires Wf(c) && Current(c, h) && InOrder(c, h)
    ensures Wf(Delete(c, k)) && Current(Delete(c, k), h) && InOrder(Delete(c, k), h)
  {
    DeleteWf(c, k);
    hide Drop;
    forall a, b | 0 <= a < b < |Delete(c, k).keys|
      ensures Find(Order(h), Delete(c, k).keys[a]) < Find(Order(h), Delete(c, k).keys[b])
    {
      DropAt(c.keys, k, a);
      DropAt(c.keys, k, b);
    }
  }

  lemma OrderStep(o: seq<string>, key: string, i: int)
    requires Distinct(o) && 0 <= i < |Drop(o, key)|
    ensures exists i' :: 0 <= i' < |o| && o[i'] == Drop(o, key)[i] && |o| - i' <= |Drop(o, key)| + 1 - i
  {
    DropAt(o, key, i);
    assert o[Before(Find(o, key), i)] == Drop(o, key)[i];
  }

  /** Moving a key to the end keeps the order of the others. */
  lemma MovedOrder(o: seq<string>, key: string, n: int)
    requires Distinct(o) && 0 <= n < |Drop(o, key)|
    ensures Find(Drop(o, key) + [key], Drop(o, key)[n]) == n
    ensures Find(o, Drop(o, key)[n]) == Before(Find(o, key), n)
  {
    DropDistinct(o, key);
    DropAt(o, key, n);
    FindAt(o, Before(Find(o, key), n));
    var o' := Drop(o, key) + [key];
    assert o'[n] == Drop(o, key)[n];
    assert Distinct(o');
    FindAt(o', n);
  }

  /** Where a key other than the moved one goes. */
  lemma PlaceAfterMove(o: seq<string>, key: string, x: string) returns (n: nat)
    requires Distinct(o) && x in o && x != key
    ensures n < |Drop(o, key)| && Find(Drop(o, key) + [key], x) == n && Find(o, x) == Before(Find(o, key), n)
  {
    hide Drop, Find;
    DropDistinct(o, key);
    n :| 0 <= n < |Drop(o, key)| && Drop(o, key)[n] == x;
    MovedOrder(o, key, n);
  }

  lemma MovedLater(o: seq<string>, key: string, x: string, y: string)
    requires Distinct(o) && x in o && y in o && x != key && y != key && Find(o, x) < Find(o, y)
    ensures var o' := Drop(o, key) + [key]; Find(o', x) < Find(o', y) < |o'| - 1
  {
    hide Drop, Find, Distinct;
    var m := PlaceAfterMove(o, key, x);
    var n := PlaceAfterMove(o, key, y);
  }

  lemma MovedBeforeLast(o: seq<string>, key: string, x: string)
    requires Distinct(o) && x in o && x != key
    ensures var o' := Drop(o, key) + [key]; Find(o', x) < |o'| - 1 == Find(o', key)
  {
    DropDistinct(o, key);
    var o' := Drop(o, key) + [key];
    FindAt(o', |o'| - 1);
    hide Drop, Find, Distinct;
    var n := PlaceAfterMove(o, key, x);
  }

  /** A write: the key moves to the end. */
  lemma WriteInOrder(d: Cache, h: seq<Write>, w: Write)
    requires Wf(d) && Current(d, h) && InOrder(d, h) && w.key !in d.vals && Distinct(Order(h))
    requires forall k :: k in Latest(h) ==> k in Order(h)
    requires Order(h + [w]) == Drop(Order(h), w.key) + [w.key]
    ensures InOrder(Put(d, w.key, w.entry), h + [w])
  {
    hide Drop, Find, Order, Latest;
    var c' := Put(d, w.key, w.entry);
    forall a, b | 0 <= a < b < |c'.keys| ensures Find(Order(h + [w]), c'.keys[a]) < Find(Order(h + [w]), c'.keys[b]) {
      assert c'.keys[a] == d.keys[a] && d.keys[a] in d.vals;
      if b < |d.keys| {
        assert d.keys[b] in d.vals;
        MovedLater(Order(h), w.key, d.keys[a], d.keys[b]);
      } else {
        MovedBeforeLast(Order(h), w.key, d.keys[a]);
      }
    }
  }

  lemma WriteKeepsOrder(c: Cache, h: seq<Write>, w: Write)
    requires Wf(c) && Current(c, h) && InOrder(c, h)
    ensures var c' := Put(Delete(c, w.key), w.key, w.entry);
      Wf(c') && Current(c', h + [w]) && InOrder(c', h + [w])
  {
    var d := Delete(c, w.key);
    OrderSnoc(h, w);
    OrderDistinct(h);
    DeleteKeepsOrder(c, h, w.key);
    PutWf(d, w.key, w.entry);
    hide Order, Latest, InOrder, Wf, Drop;
    WriteInOrder(d, h, w);
  }

  lemma WriteKeepsKept(c: Cache, h: seq<Write>, clock: int, w: Write, clock': int)
    requires Wf(c) && Kept(c, h, clock) && clock <= clock'
    ensures Kept(Put(Delete(c, w.key), w.key, w.entry), h + [w], clock')
  {
    var c' := Put(Delete(c, w.key), w.key, w.entry);
    OrderSnoc(h, w);
    OrderDistinct(h);
    OrderDistinct(h + [w]);
    DropDistinct(Order(h), w.key);
    var o' := Order(h + [w]);
    forall i | 0 <= i < |o'| ensures o'[i] in Latest(h + [w]) && MissingFor(c', h + [w], clock', i) {
      if i < |o'| - 1 {
        OrderStep(Order(h), w.key, i);
        var i' :| 0 <= i' < |Order(h)| && Order(h)[i'] == o'[i] && |Order(h)| - i' <= |o'| - i;
        assert MissingFor(c, h, clock, i');
      }
    }
  }

  lemma WriteKeeps(c: Cache, h: seq<Write>, clock: int, w: Write, clock': int)
    requires Inv(c, h, clock) && clock <= clock' && w.key != ""
    ensures Inv(Put(Delete(c, w.key), w.key, w.entry), h + [w], clock')
  {
    WriteKeepsOrder(c, h, w);
    WriteKeepsKept(c, h, clock, w, clock');
  }

  lemma {:induction false} Spread(c: Cache, h: seq<Write>, n: nat)
    requires InOrder(c, h) && n < |c.keys|
    ensures Find(Order(h), c.keys[0]) + n <= Find(Order(h), c.keys[n])
  {
    if n > 0 {
      Spread(c, h, n - 1);
    }
  }

  /** Evicting the oldest entry of an overfull cache: 1000 keys were written after it. */
  lemma EvictOldest(c: Cache, h: seq<Write>, clock: int)
    requires Inv(c, h, clock) && |c.keys| > DEFAULT_MAX_CACHE_ENTRIES
    ensures Inv(Delete(c, c.keys[0]), h, clock)
  {
    var k := c.keys[0];
    DeleteKeepsOrder(c, h, k);
    Spread(c, h, DEFAULT_MAX_CACHE_ENTRIES);
    OrderDistinct(h);
    forall i | 0 <= i < |Order(h)| ensures MissingFor(Delete(c, k), h, clock, i) {
      assert MissingFor(c, h, clock, i);
      if Order(h)[i] == k {
        FindAt(Order(h), i);
      }
    }
  }

  // ----- what the cache is

  /** Among the 1000 keys written last. */
  ghost predicate MostRecent(h: seq<Write>, key: string) {
    key in Order(h) && |Order(h)| - Find(Order(h), key) <= 1000
  }

  ghost predicate Live(h: seq<Write>, key: string, now: int) {
    key in Latest(h) && Latest(h)[key].expiresAt > now
  }

  lemma LastThousandPresent(c: Cache, h: seq<Write>, clock: int, now: int, i: int)
    requires Inv(c, h, clock) && ExpireInOrder(h) && clock <= now && 0 <= i < |Order(h)|
    requires Live(h, Order(h)[i], now)
    ensures forall j :: i <= j < |Order(h)| && |Order(h)| - j <= DEFAULT_MAX_CACHE_ENTRIES ==> Order(h)[j] in c.vals
  {
    hide Order, Latest, ExpireInOrder, InOrder, Wf, Current;
    forall j | i <= j < |Order(h)| && |Order(h)| - j <= DEFAULT_MAX_CACHE_ENTRIES ensures Order(h)[j] in c.vals {
      if i < j {
        OrderExpires(h, i, j);
      }
      assert MissingFor(c, h, clock, j);
    }
  }

  /** With one time to live for all writes, the unexpired part of the cache is exactly the 1000 most
      recently written keys of the whole history that have not expired, with their latest values. */
  lemma CacheIsMostRecent(c: Cache, h: seq<Write>, clock: int, now: int, key: string)
    requires Inv(c, h, clock) && |c.keys| <= DEFAULT_MAX_CACHE_ENTRIES && ExpireInOrder(h) && clock <= now
    ensures key in c.vals && c.vals[key].expiresAt > now <==> MostRecent(h, key) && Live(h, key, now)
    ensures key in c.vals ==> c.vals[key] == Latest(h)[key]
  {
    OrderDistinct(h);
    if Live(h, key, now) {
      var i := Find(Order(h), key);
      LastThousandPresent(c, h, clock, now, i);
      if key in c.vals && |Order(h)| - i > DEFAULT_MAX_CACHE_ENTRIES {
        TooMany(c, h, i);
      }
    }
  }

  lemma TooMany(c: Cache, h: seq<Write>, i: int)
    requires Wf(c) && Distinct(Order(h)) && 0 <= i < |Order(h)| && |Order(h)| - i > DEFAULT_MAX_CACHE_ENTRIES
    requires Order(h)[i] in c.vals
    requires forall j :: i <= j < |Order(h)| && |Order(h)| - j <= DEFAULT_MAX_CACHE_ENTRIES ==> Order(h)[j] in c.vals
    ensures |c.keys| > DEFAULT_MAX_CACHE_ENTRIES
  {
    hide Order;
    var o := Order(h);
    var tail := [o[i]] + o[|o| - DEFAULT_MAX_CACHE_ENTRIES..];
    forall k | k in tail ensures k in (set x | x in c.keys) {
      var n :| 0 <= n < |tail| && tail[n] == k;
      assert n > 0 ==> k == o[|o| - DEFAULT_MAX_CACHE_ENTRIES + n - 1];
    }
    assert Distinct(tail) by {
      forall a, b | 0 <= a < b < |tail| ensures tail[a] != tail[b] {
        assert tail[b] == o[|o| - DEFAULT_MAX_CACHE_ENTRIES + b - 1];
        assert a > 0 ==> tail[a] == o[|o| - DEFAULT_MAX_CACHE_ENTRIES + a - 1];
      }
    }
    DistinctCount(tail, set x | x in c.keys);
    SetOfSeq(c.keys);
  }

  lemma {:induction false} SetOfSeq(s: seq<string>)
    ensures |(set x | x in s)| <= |s|
  {
    if s != [] {
      SetOfSeq(s[1..]);
      assert (set x | x in s) == {s[0]} + (set x | x in s[1..]);
    }
  }

  ghost predicate FixedTtl(h: seq<Write>, ttlMs: int) {
    forall i :: 0 <= i < |h| ==> h[i].entry.expiresAt == h[i].at + ttlMs
  }

  /** Clock readings never go back. */
  ghost predicate InTime(h: seq<Write>, clock: int) {
    (forall i, j :: 0 <= i < j < |h| ==> h[i].at <= h[j].at) && forall i :: 0 <= i < |h| ==> h[i].at <= clock
  }

  lemma FixedTtlInOrder(h: seq<Write>, ttlMs: int, clock: int)
    requires FixedTtl(h, ttlMs) && InTime(h, clock)
    ensures ExpireInOrder(h)
  {
  }

  lemma InTimeSnoc(h: seq<Write>, clock: int, w: Write)
    requires InTime(h, clock) && clock <= w.at
    ensures InTime(h + [w], w.at)
  {
  }

  class RecallStore {
    var cache: Cache
    ghost var history: seq<Write>
    ghost var clock: int

    ghost predicate Valid()
      reads this
    {
      Inv(cache, history, clock) && |cache.keys| <= DEFAULT_MAX_CACHE_ENTRIES && InTime(history, clock)
    }

    constructor (ghost now: int)
      ensures Valid() && history == [] && clock == now
    {
      cache := OMap([], map[]);
      history := [];
      clock := now;
    }

    /** A hit is the latest value written for the key, not yet expired. When all writes have one time to
        live, a key hits exactly when it is unexpired and among the 1000 written last. */
    method GetCachedResult(cacheKey: string, now: int) returns (r: Option<RecallResult>)
      requires Valid() && clock <= now
      modifies this
      ensures Valid() && history == old(history) && clock == now
      ensures r.Some? ==> Live(history, cacheKey, now) && r.value == Latest(history)[cacheKey].result
      ensures r.None? ==> !(Live(history, cacheKey, now) && MostRecent(history, cacheKey))
      ensures forall ttlMs :: FixedTtl(history, ttlMs) ==>
        (r.Some? <==> Live(history, cacheKey, now) && MostRecent(history, cacheKey))
      ensures forall k :: k in cache.vals <==> k in old(cache).vals && (k != cacheKey || r.Some?)
      ensures forall k :: k in cache.vals ==> cache.vals[k] == old(cache).vals[k]
    {
      hide Order, Latest;
      Later(cache, history, clock, now);
      forall ttlMs | FixedTtl(history, ttlMs)
        ensures cacheKey in cache.vals && cache.vals[cacheKey].expiresAt > now <==>
          Live(history, cacheKey, now) && MostRecent(history, cacheKey)
      {
        FixedTtlInOrder(history, ttlMs, clock);
        CacheIsMostRecent(cache, history, clock, now, cacheKey);
      }
      MissIsOld(cache, history, clock, now, cacheKey);
      clock := now;
      if cacheKey !in cache.vals {
        return None;
      }
      var cached := cache.vals[cacheKey];
      if cached.expiresAt <= now {
        DeleteExpired(cache, history, now, cacheKey);
        DropDistinct(cache.keys, cacheKey);
        cache := Delete(cache, cacheKey);
        return None;
      }
      return Some(cached.result);
    }

    /** The clock is read once by the sweep and once for the new entry. */
    method SetCachedResult(cacheKey: string, result: RecallResult, ttlMs: int, sweepNow: int, now: int)
      requires Valid() && clock <= sweepNow <= now && cacheKey != ""
      modifies this
      ensures Valid() && clock == now
      ensures history == old(history) + [Write(cacheKey, Cached(now + ttlMs, result), now)]
      ensures cacheKey in cache.vals && cache.vals[cacheKey] == Cached(now + ttlMs, result)
      ensures forall k :: k in cache.vals && k != cacheKey ==>
        k in old(cache).vals && cache.vals[k] == old(cache).vals[k] && cache.vals[k].expiresAt > sweepNow
      ensures |cache.keys| < 1000 ==>
        forall k :: k in old(cache).vals && old(cache).vals[k].expiresAt > sweepNow && k != cacheKey ==> k in cache.vals
    {
      hide InTime, Inv, Drop;
      SweepExpiredCacheEntries(sweepNow);
      ghost var w := Write(cacheKey, Cached(now + ttlMs, result), now);
      CacheWf(cache, history, clock);
      WriteKeeps(cache, history, clock, w, now);
      InTimeSnoc(history, clock, w);
      DropDistinct(cache.keys, cacheKey);
      if cacheKey in cache.vals {
        cache := Delete(cache, cacheKey);
      } else {
        DeleteNothing(cache, cacheKey);
      }
      cache := Put(cache, cacheKey, Cached(now + ttlMs, result));
      history, clock := history + [w], now;
      EvictOverflow(cacheKey);
    }

    method EvictOverflow(ghost newest: string)
      requires Inv(cache, history, clock) && 0 < |cache.keys| <= DEFAULT_MAX_CACHE_ENTRIES + 1
      requires cache.keys[|cache.keys| - 1] == newest && newest in cache.vals
      modifies this`cache
      ensures Inv(cache, history, clock) && |cache.keys| <= DEFAULT_MAX_CACHE_ENTRIES
      ensures newest in cache.vals && cache.vals[newest] == old(cache.vals[newest])
      ensures cache == if |old(cache).keys| > 1000 then Delete(old(cache), old(cache).keys[0]) else old(cache)
      ensures |old(cache).keys| > 1000 ==> |cache.keys| == |old(cache).keys| - 1
    {
      hide Inv, Drop;
      while |cache.keys| > DEFAULT_MAX_CACHE_ENTRIES
        invariant Inv(cache, history, clock) && 0 < |cache.keys| <= DEFAULT_MAX_CACHE_ENTRIES + 1
        invariant cache.keys[|cache.keys| - 1] == newest
        invariant cache == old(cache) ||
          (|old(cache).keys| > 1000 && cache == Delete(old(cache), old(cache).keys[0]) && |cache.keys| == |old(cache).keys| - 1)
        invariant newest in cache.vals && cache.vals[newest] == old(cache.vals[newest])
      {
        var oldestKey := cache.keys[0];
        OldestIsThere(cache, history, clock);
        if oldestKey == "" {
          break;
        }
        EvictOldest(cache, history, clock);
        OldestGone(cache, history, clock);
        cache := Delete(cache, oldestKey);
      }
    }

    method SweepExpiredCacheEntries(now: int)
      requires Valid() && clock <= now
      modifies this
      ensures Valid() && history == old(history) && clock == now
      ensures forall k :: k in cache.vals <==> k in old(cache).vals && old(cache).vals[k].expiresAt > now
      ensures forall k :: k in cache.vals ==> cache.vals[k] == old(cache).vals[k]
    {
      hide Inv, Drop;
      Later(cache, history, clock, now);
      assert InTime(history, now);
      clock := now;
      hide InTime;
      var keys := cache.keys;
      CacheWf(cache, history, clock);
      for i := 0 to |keys|
        invariant Valid() && history == old(history) && clock == now
        invariant forall k :: k in cache.vals ==> k in keys && k in old(cache).vals && cache.vals[k] == old(cache).vals[k]
        invariant forall k :: k in old(cache).vals && old(cache).vals[k].expiresAt > now ==> k in cache.vals
        invariant forall j :: 0 <= j < i && keys[j] in cache.vals ==> cache.vals[keys[j]].expiresAt > now
      {
        if keys[i] in cache.vals && cache.vals[keys[i]].expiresAt <= now {
          DeleteExpired(cache, history, now, keys[i]);
          CacheWf(cache, history, clock);
          DropDistinct(cache.keys, keys[i]);
          cache := Delete(cache, keys[i]);
        }
      }
    }
  }

  lemma OldestIsThere(c: Cache, h: seq<Write>, clock: int)
    requires Inv(c, h, clock) && c.keys != []
    ensures c.keys[0] in c.vals && c.keys[0] != ""
  {
  }

  /** Without its first key the cache still ends with its last one. */
  lemma OldestGone(c: Cache, h: seq<Write>, clock: int)
    requires Inv(c, h, clock) && |c.keys| > 1
    ensures var d := Delete(c, c.keys[0]);
      && |d.keys| == |c.keys| - 1 && d.keys[|d.keys| - 1] == c.keys[|c.keys| - 1]
      && d.vals == c.vals - {c.keys[0]} && c.keys[|c.keys| - 1] != c.keys[0]
  {
  }

  lemma DeleteNothing(c: Cache, k: string)
    requires Wf(c) && k !in c.vals
    ensures Delete(c, k) == c
  {
  }

  lemma CacheWf(c: Cache, h: seq<Write>, clock: int)
    requires Inv(c, h, clock)
    ensures Wf(c)
  {
  }

  /** What holds now holds later: only more entries may have expired. */
  lemma Later(c: Cache, h: seq<Write>, clock: int, now: int)
    requires Inv(c, h, clock) && clock <= now
    ensures Inv(c, h, now)
  {
    forall i | 0 <= i < |Order(h)| ensures MissingFor(c, h, now, i) {
      assert MissingFor(c, h, clock, i);
    }
  }

  /** Whatever the times to live: a missing key has expired or is not among the 1000 written last. */
  lemma MissIsOld(c: Cache, h: seq<Write>, clock: int, now: int, key: string)
    requires Inv(c, h, clock) && clock <= now
    ensures key !in c.vals ==> !(Live(h, key, now) && MostRecent(h, key))
    ensures key in c.vals ==> key in Latest(h) && c.vals[key] == Latest(h)[key]
  {
    OrderDistinct(h);
    if key in Order(h) {
      assert MissingFor(c, h, clock, Find(Order(h), key));
    }
  }
}
