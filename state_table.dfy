// The part of the streaming state table that decides when and what to clean
// below a watermark: the vnode bitmap it owns, the pending and last cleaned
// watermarks, the byte ranges deleted per owned vnode when an epoch is sealed,
// and the translation of primary-key prefix bounds into byte-string bounds.
// Keys are `vnode (2 bytes, big-endian) ‖ memcomparable primary key`; the
// memcomparable serialisation of a watermark is a function parameter.

module StateTable {
  import opened Bytes
  import StorageTable

  /** Width of the vnode prefix of every table key. */
  const VNODE_SIZE: nat := 2

  type Vnode = StorageTable.Vnode
  type Bitmap = StorageTable.Bitmap

  // ---------------------------------------------------------------------
  // `value_indices` normalisation

  function Iota(n: nat): (r: seq<nat>)
    ensures |r| == n && forall i :: 0 <= i < n ==> r[i] == i
  {
    seq(n, i => i)
  }

  /** `None` when the value columns are exactly all columns in order, else the indices. */
  function NormalizeValueIndices(input: seq<nat>, columnCount: nat): (r: Option<seq<nat>>)
    ensures r.None? <==> input == Iota(columnCount)
  {
    if input == Iota(columnCount) then None else Some(input)
  }

  /** The value columns a normalised setting stands for (`unwrap_or_else(0..len)`). */
  function ValueIndices(v: Option<seq<nat>>, columnCount: nat): seq<nat> {
    if v.Some? then v.value else Iota(columnCount)
  }

  /** Normalising never changes which columns are stored as the value. */
  lemma NormalizeKeepsValueIndices(input: seq<nat>, columnCount: nat)
    ensures ValueIndices(NormalizeValueIndices(input, columnCount), columnCount) == input
  {
  }

  // ---------------------------------------------------------------------
  // Owned vnodes and delete ranges

  /** The set bits of `bitmap` below `n`, in increasing order (`iter_vnodes`). */
  function OwnedBelow(bitmap: Bitmap, n: nat): (r: seq<Vnode>)
    requires n <= |bitmap| <= StorageTable.VNODE_COUNT
    ensures forall v: Vnode :: v in r <==> v < n && bitmap[v]
    ensures forall i :: 0 <= i < |r| ==> r[i] < n
    ensures forall i, j :: 0 <= i < j < |r| ==> r[i] < r[j]
  {
    if n == 0 then []
    else
      var prev := OwnedBelow(bitmap, n - 1);
      if bitmap[n - 1] then prev + [n - 1] else prev
  }

  function OwnedVnodes(bitmap: Bitmap): seq<Vnode>
    requires |bitmap| <= StorageTable.VNODE_COUNT
  {
    OwnedBelow(bitmap, |bitmap|)
  }

  function VnodePrefix(v: Vnode): (r: bytes)
    ensures |r| == VNODE_SIZE
  {
    BE(v, VNODE_SIZE)
  }

  /** A delete range `[start, end)` of table keys. */
  datatype Range = Range(start: bytes, end: bytes)

  /** The range of one vnode: for an ascending first key column the keys from `[firstByte]` up to
      the serialized watermark; for a descending one the keys from `[firstByte] ‖ following` up to
      `[firstByte + 1]`. */
  function VnodeRange(v: Vnode, ascending: bool, suffix: bytes, following: bytes): (r: Range)
    requires |suffix| > 0 && (!ascending ==> suffix[0] < 255)
  {
    if ascending then Range(VnodePrefix(v) + [suffix[0]], VnodePrefix(v) + suffix)
    else Range(VnodePrefix(v) + [suffix[0]] + following, VnodePrefix(v) + [suffix[0] + 1])
  }

  function RangesFor(owned: seq<Vnode>, ascending: bool, suffix: bytes, following: bytes): (r: seq<Range>)
    requires |suffix| > 0 && (!ascending ==> suffix[0] < 255)
    ensures |r| == |owned|
    ensures forall i :: 0 <= i < |owned| ==> r[i] == VnodeRange(owned[i], ascending, suffix, following)
  {
    seq(|owned|, i requires 0 <= i < |owned| => VnodeRange(owned[i], ascending, suffix, following))
  }

  /** Ascending: the start is a prefix of the end, so no range is inverted. */
  lemma AscendingRangeOrdered(v: Vnode, suffix: bytes)
    requires |suffix| > 0
    ensures var r := VnodeRange(v, true, suffix, []);
            IsPrefix(r.start, r.end) && !LexLess(r.end, r.start)
  {
    var r := VnodeRange(v, true, suffix, []);
    assert r.end[..|r.start|] == r.start;
    if |r.start| < |r.end| {
      PrefixLess(r.start, r.end);
      LexLessIrreflexive(r.start);
      if LexLess(r.end, r.start) {
        LexLessTransitive(r.start, r.end, r.start);
      }
    } else {
      assert r.end == r.end[..|r.start|] == r.start;
      LexLessIrreflexive(r.start);
    }
  }

  /** Descending: the start sorts strictly before the end. */
  lemma DescendingRangeNonEmpty(v: Vnode, suffix: bytes, following: bytes)
    requires |suffix| > 0 && suffix[0] < 255
    ensures var r := VnodeRange(v, false, suffix, following);
            LexLess(r.start, r.end)
  {
    var p := VnodePrefix(v);
    var fb := suffix[0];
    assert p + [fb] + following == p + ([fb] + following);
    LexLessAppend(p, [fb] + following, [fb + 1]);
  }

  /** Ascending: a key of vnode `v` falls in its range exactly when its primary-key part is at least
      `[firstByte]` and below the serialized watermark. */
  lemma AscendingRangeCovers(v: Vnode, suffix: bytes, pk: bytes)
    requires |suffix| > 0
    ensures var r := VnodeRange(v, true, suffix, []);
            var key := VnodePrefix(v) + pk;
            (!LexLess(key, r.start) && LexLess(key, r.end))
            <==> (!LexLess(pk, [suffix[0]]) && LexLess(pk, suffix))
  {
    LexLessAppend(VnodePrefix(v), pk, [suffix[0]]);
    LexLessAppend(VnodePrefix(v), pk, suffix);
  }

  /** Whether the pending watermark leads to cleaning: with a synced watermark cache only when the
      watermark reaches the lowest cached key (and never for an empty cache); otherwise always. */
  function ShouldClean(watermark: Option<int>, useCache: bool, cacheSynced: bool,
                       cacheLowest: Option<int>): (r: bool)
    ensures watermark.None? ==> !r
    ensures watermark.Some? && !(useCache && cacheSynced) ==> r
    ensures watermark.Some? && useCache && cacheSynced ==>
      (r <==> cacheLowest.Some? && watermark.value >= cacheLowest.value)
  {
    match watermark
    case None => false
    case Some(w) =>
      if useCache && cacheSynced then
        (match cacheLowest case Some(key) => w >= key case None => false)
      else true
  }

  /** The delete ranges of a seal, or `None` for the `assert_ne!(first_byte, u8::MAX)` panic. */
  function DeleteRanges(vnodes: Bitmap, shouldClean: bool, ascending: bool, suffix: bytes): (r: Option<seq<Range>>)
    requires |vnodes| <= StorageTable.VNODE_COUNT
    ensures r.None? <==> shouldClean && |suffix| > 0 && !ascending && suffix[0] == 255
    ensures r.Some? && |r.value| > 0 ==> shouldClean && |suffix| > 0
    ensures r.Some? && shouldClean && |suffix| > 0 && ascending ==>
      r.value == RangesFor(OwnedVnodes(vnodes), true, suffix, [])
    ensures r.Some? && shouldClean && |suffix| > 0 && !ascending ==>
      var following := NextKey(suffix[1..]);
      r.value == if following == [] then [] else RangesFor(OwnedVnodes(vnodes), false, suffix, following)
  {
    if !shouldClean || |suffix| == 0 then Some([])
    else if ascending then Some(RangesFor(OwnedVnodes(vnodes), true, suffix, []))
    else if suffix[0] == 255 then None
    else
      var following := NextKey(suffix[1..]);
      if following == [] then Some([]) else Some(RangesFor(OwnedVnodes(vnodes), false, suffix, following))
  }

  /** Builds one range per owned vnode, in vnode order. */
  method BuildDeleteRanges(vnodes: Bitmap, ascending: bool, suffix: bytes, following: bytes)
    returns (ranges: seq<Range>)
    requires |vnodes| <= StorageTable.VNODE_COUNT
    requires |suffix| > 0 && (!ascending ==> suffix[0] < 255)
    ensures ranges == RangesFor(OwnedVnodes(vnodes), ascending, suffix, following)
  {
    ranges := [];
    for i := 0 to |vnodes|
      invariant ranges == RangesFor(OwnedBelow(vnodes, i), ascending, suffix, following)
    {
      if vnodes[i] {
        var prefix := BE(i, VNODE_SIZE);
        var range := if ascending then Range(prefix + [suffix[0]], prefix + suffix)
                     else Range(prefix + [suffix[0]] + following, prefix + [suffix[0] + 1]);
        ranges := ranges + [range];
      }
    }
  }

  /** `cache_may_stale`: the new bitmap owns some vnode the old one did not. */
  function CacheMayStale(previous: Bitmap, next: Bitmap): (r: bool)
    requires |previous| == |next|
    ensures r <==> exists i :: 0 <= i < |next| && next[i] && !previous[i]
  {
    exists i :: 0 <= i < |next| && next[i] && !previous[i]
  }

  /** How sealing ends: sealed, the flush of the delete ranges returned an error (the epoch is
      not sealed), or a panic. */
  datatype SealOutcome = Sealed(deleteRanges: seq<Range>) | FlushFailed(deleteRanges: seq<Range>) | Panicked

  class StateTable {
    var vnodes: Bitmap
    const distKeyInPkIndices: seq<nat>
    const vnodeColIdxInPk: Option<nat>
    const pkIndices: seq<nat>
    /** The order of the first primary-key column. */
    const firstPkAscending: bool
    /** `USE_WATERMARK_CACHE`. */
    const useWatermarkCache: bool
    var stateCleanWatermark: Option<int>
    var prevCleanedWatermark: Option<int>
    /** The watermark cache: whether it is synced with the table, and its lowest key. */
    var cacheSynced: bool
    var cacheLowest: Option<int>
    /** The local state store: its epoch and whether it holds unflushed writes. */
    var epoch: u64
    var dirty: bool

    ghost predicate Valid()
      reads this
    {
      |vnodes| == StorageTable.VNODE_COUNT
    }

    constructor (vnodes: Option<Bitmap>, distKeyInPkIndices: seq<nat>, vnodeColIdxInPk: Option<nat>,
                 pkIndices: seq<nat>, firstPkAscending: bool, useWatermarkCache: bool, epoch: u64)
      requires vnodes.Some? ==> |vnodes.value| == StorageTable.VNODE_COUNT
      ensures Valid()
      ensures this.vnodes == if vnodes.Some? then vnodes.value else StorageTable.FallbackVnodes()
      ensures this.distKeyInPkIndices == distKeyInPkIndices && this.vnodeColIdxInPk == vnodeColIdxInPk
      ensures this.pkIndices == pkIndices && this.firstPkAscending == firstPkAscending
      ensures this.useWatermarkCache == useWatermarkCache && this.epoch == epoch
      ensures stateCleanWatermark == None && prevCleanedWatermark == None
      ensures !dirty && !cacheSynced && cacheLowest == None
    {
      this.vnodes := if vnodes.Some? then vnodes.value else StorageTable.FallbackVnodes();
      this.distKeyInPkIndices := distKeyInPkIndices;
      this.vnodeColIdxInPk := vnodeColIdxInPk;
      this.pkIndices := pkIndices;
      this.firstPkAscending := firstPkAscending;
      this.useWatermarkCache := useWatermarkCache;
      this.epoch := epoch;
      stateCleanWatermark := None;
      prevCleanedWatermark := None;
      dirty := false;
      cacheSynced := false;
      cacheLowest := None;
    }

    /** A table with a vnode column in its key acts like a singleton but is hash-distributed. */
    predicate IsSingleton()
      reads this
    {
      vnodeColIdxInPk.None? && distKeyInPkIndices == []
    }

    /** Installs a new vnode bitmap on a clean table and returns the previous one; forgets the
        pending watermark when the table now owns vnodes it did not before. */
    method UpdateVnodeBitmap(newVnodes: Bitmap) returns (previous: Bitmap, cacheMayStale: bool)
      requires Valid() && !dirty
      requires IsSingleton() ==> newVnodes == vnodes
      requires |newVnodes| == |vnodes|
      modifies this
      ensures Valid()
      ensures previous == old(vnodes) && vnodes == newVnodes
      ensures cacheMayStale == CacheMayStale(old(vnodes), newVnodes)
      ensures stateCleanWatermark == if cacheMayStale then None else old(stateCleanWatermark)
      ensures cacheMayStale && useWatermarkCache ==> cacheLowest == None && !cacheSynced
      ensures !(cacheMayStale && useWatermarkCache) ==>
        cacheLowest == old(cacheLowest) && cacheSynced == old(cacheSynced)
      ensures prevCleanedWatermark == old(prevCleanedWatermark) && epoch == old(epoch) && dirty == old(dirty)
    {
      cacheMayStale := CacheMayStale(vnodes, newVnodes);
      if cacheMayStale {
        stateCleanWatermark := None;
        if useWatermarkCache {
          ClearCache();
        }
      }
      previous := vnodes;
      vnodes := newVnodes;
    }

    /** Empties the watermark cache and marks it for a resync. */
    method ClearCache()
      modifies this
      ensures cacheLowest == None && !cacheSynced
      ensures vnodes == old(vnodes) && stateCleanWatermark == old(stateCleanWatermark)
      ensures prevCleanedWatermark == old(prevCleanedWatermark) && epoch == old(epoch) && dirty == old(dirty)
    {
      cacheLowest := None;
      cacheSynced := false;
    }

    /** Keeps the watermark for the next seal only when the buffer strategy lets it through or the
        caller asks for eager cleaning. */
    method UpdateWatermark(watermark: int, eagerCleaning: bool, strategyApplies: bool)
      modifies this
      ensures stateCleanWatermark
              == if strategyApplies || eagerCleaning then Some(watermark) else old(stateCleanWatermark)
      ensures vnodes == old(vnodes) && prevCleanedWatermark == old(prevCleanedWatermark)
      ensures cacheLowest == old(cacheLowest) && cacheSynced == old(cacheSynced)
      ensures epoch == old(epoch) && dirty == old(dirty)
    {
      if strategyApplies || eagerCleaning {
        stateCleanWatermark := Some(watermark);
      }
    }

    /** Takes the pending watermark, computes the delete ranges below it for every owned vnode,
        flushes them and seals the epoch. Whether the local store's flush succeeds is the
        parameter `flushOk`. */
    method SealCurrentEpoch(nextEpoch: u64, serialize: int -> bytes, flushOk: bool) returns (outcome: SealOutcome)
      requires Valid()
      modifies this
      ensures Valid()
      ensures stateCleanWatermark == None
      ensures vnodes == old(vnodes)
      ensures outcome.Panicked? <==>
        old(stateCleanWatermark).Some?
        && (pkIndices == []
            || DeleteRanges(old(vnodes),
                            ShouldClean(old(stateCleanWatermark), useWatermarkCache, old(cacheSynced), old(cacheLowest)),
                            firstPkAscending, serialize(old(stateCleanWatermark).value)).None?)
      ensures !outcome.Panicked? ==>
        var w := old(stateCleanWatermark);
        var clean := ShouldClean(w, useWatermarkCache, old(cacheSynced), old(cacheLowest));
        outcome.deleteRanges
          == (if w.None? then [] else DeleteRanges(old(vnodes), clean, firstPkAscending, serialize(w.value)).value)
        && prevCleanedWatermark == w
        && (outcome.Sealed? <==> flushOk)
        && (if flushOk then epoch == nextEpoch && !dirty else epoch == old(epoch) && dirty == old(dirty))
        && (if useWatermarkCache && outcome.deleteRanges != [] then cacheLowest == None && !cacheSynced
            else cacheLowest == old(cacheLowest) && cacheSynced == old(cacheSynced))
    {
      var watermark := stateCleanWatermark;
      stateCleanWatermark := None;
      var clean := ShouldClean(watermark, useWatermarkCache, cacheSynced, cacheLowest);
      var ranges: seq<Range> := [];
      if watermark.Some? {
        if pkIndices == [] {
          return Panicked;
        }
        var suffix := serialize(watermark.value);
        if clean && |suffix| > 0 {
          var firstByte := suffix[0];
          if firstPkAscending {
            ranges := BuildDeleteRanges(vnodes, true, suffix, []);
          } else {
            if firstByte == 255 {
              return Panicked;
            }
            var following := NextKey(suffix[1..]);
            if following != [] {
              ranges := BuildDeleteRanges(vnodes, false, suffix, following);
            }
          }
        }
      }
      prevCleanedWatermark := watermark;
      if useWatermarkCache && ranges != [] {
        ClearCache();
      }
      if !flushOk {
        return FlushFailed(ranges);
      }
      dirty := false;
      epoch := nextEpoch;
      outcome := Sealed(ranges);
    }

    /** `commit` of the epoch pair `(prev, curr)`: only from the table's current epoch; it seals
        into `curr`, with the outcome and the new state of `SealCurrentEpoch`. */
    method Commit(prevEpoch: u64, currEpoch: u64, serialize: int -> bytes, flushOk: bool) returns (outcome: SealOutcome)
      requires Valid() && epoch == prevEpoch
      modifies this
      ensures Valid()
      ensures stateCleanWatermark == None
      ensures vnodes == old(vnodes)
      ensures outcome.Panicked? <==>
        old(stateCleanWatermark).Some?
        && (pkIndices == []
            || DeleteRanges(old(vnodes),
                            ShouldClean(old(stateCleanWatermark), useWatermarkCache, old(cacheSynced), old(cacheLowest)),
                            firstPkAscending, serialize(old(stateCleanWatermark).value)).None?)
      ensures !outcome.Panicked? ==>
        var w := old(stateCleanWatermark);
        var clean := ShouldClean(w, useWatermarkCache, old(cacheSynced), old(cacheLowest));
        outcome.deleteRanges
          == (if w.None? then [] else DeleteRanges(old(vnodes), clean, firstPkAscending, serialize(w.value)).value)
        && prevCleanedWatermark == w
        && (outcome.Sealed? <==> flushOk)
        && (if flushOk then epoch == currEpoch && !dirty else epoch == prevEpoch && dirty == old(dirty))
        && (if useWatermarkCache && outcome.deleteRanges != [] then cacheLowest == None && !cacheSynced
            else cacheLowest == old(cacheLowest) && cacheSynced == old(cacheSynced))
    {
      outcome := SealCurrentEpoch(currEpoch, serialize, flushOk);
    }
  }

  /** A singleton table keys every row under the default vnode. */
  lemma SingletonUsesDefaultVnode<R>(t: StateTable, row: R, computeRow: (R, seq<nat>) -> Vnode)
    requires t.IsSingleton()
    ensures StorageTable.ComputeVnode(row, t.distKeyInPkIndices, t.vnodes, computeRow)
            == Some(StorageTable.DEFAULT_VNODE)
  {
  }

  // ---------------------------------------------------------------------
  // Bounds of primary-key prefix ranges as byte-string bounds

  datatype Bound<T> = Unbounded | Included(key: T) | Excluded(key: T)

  /** `end_bound_of_prefix`: the first key after every key with the prefix, if there is one. */
  function EndBoundOfPrefix(p: bytes): (r: Bound<bytes>)
    ensures r.Unbounded? <==> AllMax(p)
    ensures r.Excluded? ==> r.key == NextKey(p)
  {
    NextKeyEmptyIff(p);
    var next := NextKey(p);
    if next == [] then Unbounded else Excluded(next)
  }

  /** `start_bound_of_excluded_prefix`: the first key after every key with the prefix; `None`
      stands for its panic on a prefix of only `0xff` bytes. */
  function StartBoundOfExcludedPrefix(p: bytes): (r: Option<Bound<bytes>>)
    ensures r.None? <==> AllMax(p)
    ensures r.Some? ==> r.value == Included(NextKey(p))
  {
    NextKeyEmptyIff(p);
    var next := NextKey(p);
    if next == [] then None else Some(Included(next))
  }

  /** `to_memcomparable` of one bound of a primary-key prefix range. */
  function ToMemcomparable<R>(bound: Bound<R>, isUpper: bool, serializePrefix: R -> bytes): (r: Option<Bound<bytes>>)
    ensures bound.Unbounded? ==> r == Some(Unbounded)
    ensures bound.Included? && !isUpper ==> r == Some(Included(serializePrefix(bound.key)))
    ensures bound.Excluded? && isUpper ==> r == Some(Excluded(serializePrefix(bound.key)))
    ensures bound.Included? && isUpper ==> r == Some(EndBoundOfPrefix(serializePrefix(bound.key)))
    ensures bound.Excluded? && !isUpper ==> r == StartBoundOfExcludedPrefix(serializePrefix(bound.key))
  {
    match bound
    case Unbounded => Some(Unbounded)
    case Included(k) =>
      var s := serializePrefix(k);
      if isUpper then Some(EndBoundOfPrefix(s)) else Some(Included(s))
    case Excluded(k) =>
      var s := serializePrefix(k);
      if !isUpper then StartBoundOfExcludedPrefix(s) else Some(Excluded(s))
  }

  function PrefixRangeToMemcomparable<R>(range: (Bound<R>, Bound<R>), serializePrefix: R -> bytes)
    : (Option<Bound<bytes>>, Option<Bound<bytes>>)
  {
    (ToMemcomparable(range.0, false, serializePrefix), ToMemcomparable(range.1, true, serializePrefix))
  }

  predicate BelowUpper(k: bytes, b: Bound<bytes>) {
    match b
    case Unbounded => true
    case Included(x) => !LexLess(x, k)
    case Excluded(x) => LexLess(k, x)
  }

  predicate AboveLower(k: bytes, b: Bound<bytes>) {
    match b
    case Unbounded => true
    case Included(x) => !LexLess(k, x)
    case Excluded(x) => LexLess(x, k)
  }

  /** An included upper prefix bound keeps every key that extends the prefix. */
  lemma IncludedUpperKeepsPrefix<R>(r: R, serializePrefix: R -> bytes, k: bytes)
    requires IsPrefix(serializePrefix(r), k)
    ensures BelowUpper(k, ToMemcomparable(Included(r), true, serializePrefix).value)
  {
    var p := serializePrefix(r);
    if NextKey(p) != [] {
      NextKeyBoundsPrefix(p, k);
    }
  }

  /** An excluded lower prefix bound drops every key that extends the prefix, and keeps the
      first key after them. */
  lemma ExcludedLowerDropsPrefix<R>(r: R, serializePrefix: R -> bytes, k: bytes)
    requires IsPrefix(serializePrefix(r), k)
    requires ToMemcomparable(Excluded(r), false, serializePrefix).Some?
    ensures var b := ToMemcomparable(Excluded(r), false, serializePrefix).value;
            !AboveLower(k, b) && AboveLower(b.key, b)
  {
    var p := serializePrefix(r);
    NextKeyBoundsPrefix(p, k);
    LexLessIrreflexive(NextKey(p));
  }
}
