// The bookkeeping of the epoch-bounded managed LRU cache of the streaming
// engine: the running estimate of the heap size of its keys and values, kept
// with saturating `usize` arithmetic, the "report only after a 4 MiB change"
// rule for the memory gauge, and eviction of entries touched before an epoch.
// The inner LRU cache is a sequence of entries, least recently used first.

module ManagedLru {
  import opened Bytes

  const REPORT_SIZE_EVERY_N_KB_CHANGE: nat := 4096
  /** `REPORT_SIZE_EVERY_N_KB_CHANGE << 10` bytes. */
  const REPORT_THRESHOLD: nat := REPORT_SIZE_EVERY_N_KB_CHANGE * 1024

  /** `usize` on a 64-bit target. */
  type usize = u64

  function SatAdd(a: usize, b: nat): (r: usize)
    ensures a <= r
    ensures r == a + b || r == U64_MAX
  {
    if a + b <= U64_MAX then a + b else U64_MAX
  }

  function SatSub(a: usize, b: nat): (r: usize)
    ensures r <= a
    ensures r == a - b || r == 0
  {
    if a >= b then a - b else 0
  }

  /** Two saturating subtractions in a row are one subtraction of the sum. */
  lemma SatSubTwice(a: usize, b: nat, c: nat)
    ensures SatSub(SatSub(a, b), c) == SatSub(a, b + c)
  {
  }

  function AbsDiff(a: nat, b: nat): nat {
    if a >= b then a - b else b - a
  }

  /** `last_reported_size_bytes` after `report_memory_usage` with heap size `kv`. */
  function Reported(kv: usize, last: usize): (r: usize)
    ensures AbsDiff(kv, r) <= REPORT_THRESHOLD
    ensures r == kv || r == last
    ensures AbsDiff(kv, last) <= REPORT_THRESHOLD ==> r == last
  {
    if AbsDiff(kv, last) > REPORT_THRESHOLD then kv else last
  }

  // ---------------------------------------------------------------------
  // The inner cache

  /** A cached pair and the epoch in which it was last put. */
  datatype Entry<K, V> = Entry(key: K, value: V, epoch: u64)

  predicate DistinctKeys<K(==), V>(s: seq<Entry<K, V>>) {
    forall i, j :: 0 <= i < j < |s| ==> s[i].key != s[j].key
  }

  /** The value cached under `k`, if any. */
  function Find<K(==), V>(s: seq<Entry<K, V>>, k: K): (r: Option<V>)
    ensures r.None? <==> forall i :: 0 <= i < |s| ==> s[i].key != k
    ensures r.Some? ==> exists i :: 0 <= i < |s| && s[i].key == k && s[i].value == r.value
  {
    if |s| == 0 then None
    else if s[0].key == k then Some(s[0].value)
    else
      var r := Find(s[1..], k);
      assert forall i :: 0 < i < |s| ==> s[1..][i - 1] == s[i];
      r
  }

  /** The entries other than the one under `k`, in the same order. */
  function Remove<K(==,!new), V(!new)>(s: seq<Entry<K, V>>, k: K): (r: seq<Entry<K, V>>)
    ensures forall e :: e in r <==> e in s && e.key != k
    ensures |r| <= |s|
    ensures DistinctKeys(s) ==> DistinctKeys(r)
  {
    if |s| == 0 then []
    else if s[0].key == k then Remove(s[1..], k)
    else
      var t := Remove(s[1..], k);
      assert DistinctKeys(s) ==> DistinctKeys(s[1..]) && forall e :: e in t ==> e.key != s[0].key;
      [s[0]] + t
  }

  /** The number of least recently used entries `pop_lru_by_epoch(epoch)` pops in a row. */
  function EvictCount<K, V>(s: seq<Entry<K, V>>, epoch: u64): (n: nat)
    ensures n <= |s|
    ensures forall i :: 0 <= i < n ==> s[i].epoch < epoch
    ensures n < |s| ==> s[n].epoch >= epoch
  {
    if |s| == 0 || s[0].epoch >= epoch then 0
    else 1 + EvictCount(s[1..], epoch)
  }

  /** A lower bound evicts no more: whatever `evict` keeps, `evict_except_cur_epoch` keeps. */
  lemma {:induction false} EvictCountMonotonic<K, V>(s: seq<Entry<K, V>>, lower: u64, upper: u64)
    requires lower <= upper
    ensures EvictCount(s, lower) <= EvictCount(s, upper)
  {
    if |s| > 0 && s[0].epoch < lower {
      EvictCountMonotonic(s[1..], lower, upper);
    }
  }

  /** When the entries are in epoch order, eviction keeps exactly those at or above the bound. */
  lemma EvictSortedKeepsAtOrAbove<K, V>(s: seq<Entry<K, V>>, epoch: u64, i: nat)
    requires forall a, b :: 0 <= a < b < |s| ==> s[a].epoch <= s[b].epoch
    requires i < |s|
    ensures i < EvictCount(s, epoch) <==> s[i].epoch < epoch
  {
    var n := EvictCount(s, epoch);
    if n < |s| && i >= n {
      assert s[n].epoch <= s[i].epoch;
    }
  }

  function Sum(sizes: seq<nat>): nat {
    if |sizes| == 0 then 0 else Sum(sizes[..|sizes| - 1]) + sizes[|sizes| - 1]
  }

  /** Heap size and last reported size after a series of `kv_heap_size_dec`. */
  function DecAll(kv: usize, last: usize, sizes: seq<nat>): (r: (usize, usize))
    ensures r.0 <= kv
    ensures |sizes| > 0 ==> AbsDiff(r.0, r.1) <= REPORT_THRESHOLD
    ensures |sizes| == 0 ==> r == (kv, last)
  {
    if |sizes| == 0 then (kv, last)
    else
      var p := DecAll(kv, last, sizes[..|sizes| - 1]);
      var k := SatSub(p.0, sizes[|sizes| - 1]);
      (k, Reported(k, p.1))
  }

  /** The heap size after a series of decrements is one saturating subtraction of their sum. */
  lemma {:induction false} DecAllSize(kv: usize, last: usize, sizes: seq<nat>)
    ensures DecAll(kv, last, sizes).0 == SatSub(kv, Sum(sizes))
  {
    if |sizes| > 0 {
      var n := |sizes| - 1;
      DecAllSize(kv, last, sizes[..n]);
      SatSubTwice(kv, Sum(sizes[..n]), sizes[n]);
    }
  }

  lemma DecAllSnoc(kv: usize, last: usize, sizes: seq<nat>, x: nat)
    ensures DecAll(kv, last, sizes + [x])
            == (SatSub(DecAll(kv, last, sizes).0, x),
                Reported(SatSub(DecAll(kv, last, sizes).0, x), DecAll(kv, last, sizes).1))
  {
    assert (sizes + [x])[..|sizes|] == sizes;
  }

  function Sizes<K, V>(s: seq<Entry<K, V>>, keySize: K -> nat, valueSize: V -> nat): (r: seq<nat>)
    ensures |r| == |s|
    ensures forall i :: 0 <= i < |s| ==> r[i] == keySize(s[i].key) + valueSize(s[i].value)
  {
    if |s| == 0 then []
    else Sizes(s[..|s| - 1], keySize, valueSize)
         + [keySize(s[|s| - 1].key) + valueSize(s[|s| - 1].value)]
  }

  /** Replaces the value under `k`, keeping its place and epoch. */
  function SetValue<K(==), V>(s: seq<Entry<K, V>>, k: K, v: V): (r: seq<Entry<K, V>>)
    ensures |r| == |s|
    ensures forall i :: 0 <= i < |s| ==>
      r[i] == if s[i].key == k then s[i].(value := v) else s[i]
  {
    if |s| == 0 then []
    else [if s[0].key == k then s[0].(value := v) else s[0]] + SetValue(s[1..], k, v)
  }

  class ManagedLruCache<K(==,!new), V(!new)> {
    /** The inner `LruCache`, least recently used first. */
    var lru: seq<Entry<K, V>>
    /** The epoch the inner cache stamps on entries it puts. */
    var currentEpoch: u64
    var kvHeapSize: usize
    var lastReportedSizeBytes: usize
    /** The value the memory-usage gauge was last set to. */
    var memoryUsage: usize
    /** `EstimateSize::estimated_size` of keys and values. */
    const keySize: K -> nat
    const valueSize: V -> nat

    ghost predicate Valid()
      reads this
    {
      DistinctKeys(lru)
      && AbsDiff(kvHeapSize, lastReportedSizeBytes) <= REPORT_THRESHOLD
      && memoryUsage == lastReportedSizeBytes
    }

    /** `new_inner` over a fresh unbounded `LruCache`. */
    constructor (keySize: K -> nat, valueSize: V -> nat)
      ensures Valid()
      ensures lru == [] && currentEpoch == 0
      ensures kvHeapSize == 0 && lastReportedSizeBytes == 0 && memoryUsage == 0
      ensures this.keySize == keySize && this.valueSize == valueSize
    {
      lru := [];
      currentEpoch := 0;
      kvHeapSize := 0;
      lastReportedSizeBytes := 0;
      memoryUsage := 0;
      this.keySize := keySize;
      this.valueSize := valueSize;
    }

    /** Sets the gauge and remembers the size iff it moved by more than the threshold. */
    method ReportMemoryUsage() returns (reported: bool)
      modifies this
      ensures reported <==> AbsDiff(kvHeapSize, old(lastReportedSizeBytes)) > REPORT_THRESHOLD
      ensures lastReportedSizeBytes == Reported(kvHeapSize, old(lastReportedSizeBytes))
      ensures memoryUsage == if reported then kvHeapSize else old(memoryUsage)
      ensures lru == old(lru) && currentEpoch == old(currentEpoch) && kvHeapSize == old(kvHeapSize)
    {
      if AbsDiff(kvHeapSize, lastReportedSizeBytes) > REPORT_THRESHOLD {
        memoryUsage := kvHeapSize;
        lastReportedSizeBytes := kvHeapSize;
        reported := true;
      } else {
        reported := false;
      }
    }

    method KvHeapSizeInc(size: nat)
      requires Valid()
      modifies this
      ensures Valid()
      ensures kvHeapSize == SatAdd(old(kvHeapSize), size)
      ensures lastReportedSizeBytes == Reported(kvHeapSize, old(lastReportedSizeBytes))
      ensures lru == old(lru) && currentEpoch == old(currentEpoch)
    {
      kvHeapSize := SatAdd(kvHeapSize, size);
      var _ := ReportMemoryUsage();
    }

    method KvHeapSizeDec(size: nat)
      requires Valid()
      modifies this
      ensures Valid()
      ensures kvHeapSize == SatSub(old(kvHeapSize), size)
      ensures lastReportedSizeBytes == Reported(kvHeapSize, old(lastReportedSizeBytes))
      ensures lru == old(lru) && currentEpoch == old(currentEpoch)
    {
      kvHeapSize := SatSub(kvHeapSize, size);
      var _ := ReportMemoryUsage();
    }

    /** Caches `v` under `k` as the most recently used entry; returns the value it replaced. */
    method Put(k: K, v: V) returns (oldVal: Option<V>)
      requires Valid()
      modifies this
      ensures Valid()
      ensures oldVal == Find(old(lru), k)
      ensures lru == Remove(old(lru), k) + [Entry(k, v, currentEpoch)]
      ensures currentEpoch == old(currentEpoch)
      ensures var grown := SatAdd(old(kvHeapSize), keySize(k) + valueSize(v));
              var shrunk := if oldVal.Some? then SatSub(grown, keySize(k) + valueSize(oldVal.value))
                            else grown;
              kvHeapSize == shrunk
              && lastReportedSizeBytes
                 == if oldVal.Some? then Reported(shrunk, Reported(grown, old(lastReportedSizeBytes)))
                    else Reported(grown, old(lastReportedSizeBytes))
    {
      var keySz := keySize(k);
      KvHeapSizeInc(keySz + valueSize(v));
      oldVal := Find(lru, k);
      lru := Remove(lru, k) + [Entry(k, v, currentEpoch)];
      if oldVal.Some? {
        KvHeapSizeDec(keySz + valueSize(oldVal.value));
      }
    }

    /** Like `Put`, but returns the displaced pair (the unbounded cache never evicts on push). */
    method Push(k: K, v: V) returns (oldKv: Option<(K, V)>)
      requires Valid()
      modifies this
      ensures Valid()
      ensures oldKv == (match Find(old(lru), k) case Some(w) => Some((k, w)) case None => None)
      ensures lru == Remove(old(lru), k) + [Entry(k, v, currentEpoch)]
      ensures currentEpoch == old(currentEpoch)
      ensures var grown := SatAdd(old(kvHeapSize), keySize(k) + valueSize(v));
              var shrunk := if oldKv.Some? then SatSub(grown, keySize(oldKv.value.0) + valueSize(oldKv.value.1))
                            else grown;
              kvHeapSize == shrunk
              && lastReportedSizeBytes
                 == if oldKv.Some? then Reported(shrunk, Reported(grown, old(lastReportedSizeBytes)))
                    else Reported(grown, old(lastReportedSizeBytes))
    {
      KvHeapSizeInc(keySize(k) + valueSize(v));
      var found := Find(lru, k);
      oldKv := if found.Some? then Some((k, found.value)) else None;
      lru := Remove(lru, k) + [Entry(k, v, currentEpoch)];
      if oldKv.Some? {
        KvHeapSizeDec(keySize(oldKv.value.0) + valueSize(oldKv.value.1));
      }
    }

    /** The inner cache hands out its least recently used entry. */
    method PopLru() returns (e: Entry<K, V>)
      requires Valid() && |lru| > 0
      modifies this
      ensures Valid()
      ensures e == old(lru)[0] && lru == old(lru)[1..]
      ensures kvHeapSize == old(kvHeapSize) && lastReportedSizeBytes == old(lastReportedSizeBytes)
      ensures currentEpoch == old(currentEpoch)
    {
      e := lru[0];
      lru := lru[1..];
    }

    /** Pops least recently used entries while they were touched before `epoch`. */
    method EvictByEpoch(epoch: u64)
      requires Valid()
      modifies this
      ensures Valid()
      ensures lru == old(lru)[EvictCount(old(lru), epoch)..]
      ensures (kvHeapSize, lastReportedSizeBytes)
              == DecAll(old(kvHeapSize), old(lastReportedSizeBytes),
                        Sizes(old(lru)[..EvictCount(old(lru), epoch)], keySize, valueSize))
      ensures memoryUsage == lastReportedSizeBytes
      ensures currentEpoch == old(currentEpoch)
    {
      ghost var s0 := lru;
      ghost var kv0 := kvHeapSize;
      ghost var last0 := lastReportedSizeBytes;
      ghost var n := EvictCount(s0, epoch);
      var i := 0;
      while |lru| > 0 && lru[0].epoch < epoch
        invariant Valid()
        invariant 0 <= i <= |s0| && lru == s0[i..]
        invariant EvictCount(lru, epoch) + i == n
        invariant (kvHeapSize, lastReportedSizeBytes) == DecAll(kv0, last0, Sizes(s0[..i], keySize, valueSize))
        invariant currentEpoch == old(currentEpoch)
        decreases |lru|
      {
        EvictStep(s0, i, kv0, last0);
        var e := PopLru();
        KvHeapSizeDec(keySize(e.key) + valueSize(e.value));
        i := i + 1;
      }
      assert EvictCount(lru, epoch) == 0;
      assert i == n;
    }

    lemma EvictStep(s: seq<Entry<K, V>>, i: nat, kv: usize, last: usize)
      requires i < |s|
      ensures var sizes := Sizes(s[..i], keySize, valueSize);
              var x := keySize(s[i].key) + valueSize(s[i].value);
              DecAll(kv, last, Sizes(s[..i + 1], keySize, valueSize))
              == (SatSub(DecAll(kv, last, sizes).0, x),
                  Reported(SatSub(DecAll(kv, last, sizes).0, x), DecAll(kv, last, sizes).1))
    {
      assert s[..i + 1][..i] == s[..i];
      DecAllSnoc(kv, last, Sizes(s[..i], keySize, valueSize), keySize(s[i].key) + valueSize(s[i].value));
    }

    /** Evicts what was touched before the watermark epoch. */
    method Evict(watermark: u64)
      requires Valid()
      modifies this
      ensures Valid()
      ensures lru == old(lru)[EvictCount(old(lru), watermark)..]
      ensures (kvHeapSize, lastReportedSizeBytes)
              == DecAll(old(kvHeapSize), old(lastReportedSizeBytes),
                        Sizes(old(lru)[..EvictCount(old(lru), watermark)], keySize, valueSize))
      ensures kvHeapSize == SatSub(old(kvHeapSize), Sum(Sizes(old(lru)[..EvictCount(old(lru), watermark)], keySize, valueSize)))
      ensures memoryUsage == lastReportedSizeBytes
      ensures currentEpoch == old(currentEpoch)
    {
      EvictByEpoch(watermark);
      DecAllSize(old(kvHeapSize), old(lastReportedSizeBytes),
                 Sizes(old(lru)[..EvictCount(old(lru), watermark)], keySize, valueSize));
    }

    /** Evicts below the watermark, but never what was touched in the current epoch. */
    method EvictExceptCurEpoch(watermark: u64)
      requires Valid()
      modifies this
      ensures Valid()
      ensures var bound := if watermark <= currentEpoch then watermark else currentEpoch;
              bound <= watermark && bound <= currentEpoch
              && lru == old(lru)[EvictCount(old(lru), bound)..]
      ensures |lru| >= |old(lru)| - EvictCount(old(lru), watermark)
      ensures var bound := if watermark <= currentEpoch then watermark else currentEpoch;
              (kvHeapSize, lastReportedSizeBytes)
              == DecAll(old(kvHeapSize), old(lastReportedSizeBytes),
                        Sizes(old(lru)[..EvictCount(old(lru), bound)], keySize, valueSize))
      ensures memoryUsage == lastReportedSizeBytes
      ensures currentEpoch == old(currentEpoch)
    {
      var bound := if watermark <= currentEpoch then watermark else currentEpoch;
      EvictCountMonotonic(lru, bound, watermark);
      EvictByEpoch(bound);
    }

    method UpdateEpoch(epoch: u64)
      modifies this
      ensures currentEpoch == epoch
      ensures lru == old(lru) && kvHeapSize == old(kvHeapSize)
      ensures lastReportedSizeBytes == old(lastReportedSizeBytes) && memoryUsage == old(memoryUsage)
    {
      currentEpoch := epoch;
    }

    /** Drops every entry but leaves the heap-size estimate as it is. */
    method Clear()
      requires Valid()
      modifies this
      ensures Valid()
      ensures lru == [] && kvHeapSize == old(kvHeapSize) && currentEpoch == old(currentEpoch)
      ensures lastReportedSizeBytes == old(lastReportedSizeBytes) && memoryUsage == old(memoryUsage)
    {
      lru := [];
    }
  }

  /** A mutable borrow of one cached value that settles the heap size when dropped. */
  class MutGuard<K(==,!new), V(!new)> {
    const cache: ManagedLruCache<K, V>
    const key: K
    /** The estimated size of the value when the guard was made. */
    const originalValSize: nat

    /** `MutGuard::new` over the value cached under `key` (as `peek_mut` hands it out). */
    constructor (cache: ManagedLruCache<K, V>, key: K)
      requires Find(cache.lru, key).Some?
      ensures this.cache == cache && this.key == key
      ensures originalValSize == cache.valueSize(Find(cache.lru, key).value)
    {
      this.cache := cache;
      this.key := key;
      this.originalValSize := cache.valueSize(Find(cache.lru, key).value);
    }

    /** A write through the guard: the cached value changes, nothing else. */
    method Set(v: V)
      requires cache.Valid()
      modifies cache
      ensures cache.Valid()
      ensures cache.lru == SetValue(old(cache.lru), key, v)
      ensures cache.kvHeapSize == old(cache.kvHeapSize) && cache.currentEpoch == old(cache.currentEpoch)
      ensures cache.lastReportedSizeBytes == old(cache.lastReportedSizeBytes)
    {
      cache.lru := SetValue(cache.lru, key, v);
    }

    /** `Drop`: replaces the original value's size by the current one, saturating, then reports. */
    method Drop()
      requires cache.Valid() && Find(cache.lru, key).Some?
      modifies cache
      ensures cache.Valid()
      ensures cache.kvHeapSize
              == SatAdd(SatSub(old(cache.kvHeapSize), originalValSize),
                        cache.valueSize(Find(old(cache.lru), key).value))
      ensures cache.lastReportedSizeBytes == Reported(cache.kvHeapSize, old(cache.lastReportedSizeBytes))
      ensures cache.lru == old(cache.lru) && cache.currentEpoch == old(cache.currentEpoch)
    {
      var current := Find(cache.lru, key).value;
      cache.kvHeapSize := SatAdd(SatSub(cache.kvHeapSize, originalValSize), cache.valueSize(current));
      var _ := cache.ReportMemoryUsage();
    }
  }
}
