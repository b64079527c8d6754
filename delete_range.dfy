// Delete-range tombstones of an SSTable: their order, and the monotonic
// delete events a compaction writes into the footer.

module DeleteRange {
  import opened Bytes
  import opened SstableFormat
  import Sorting

  datatype Ordering = Less | Equal | Greater

  function Flip(o: Ordering): Ordering {
    match o
    case Less => Greater
    case Equal => Equal
    case Greater => Less
  }

  /** `Ordering::then`: the second comparison decides only a tie. */
  function Then(first: Ordering, second: Ordering): Ordering {
    if first == Equal then second else first
  }

  function CmpInt(a: int, b: int): Ordering {
    if a < b then Less else if a == b then Equal else Greater
  }

  /** `false` sorts before `true`. */
  function CmpBool(a: bool, b: bool): Ordering {
    if a == b then Equal else if !a then Less else Greater
  }

  /** Byte-slice order: byte by byte, a proper prefix first. */
  function CmpBytes(a: bytes, b: bytes): Ordering
    decreases |a|
  {
    if |a| == 0 then (if |b| == 0 then Equal else Less)
    else if |b| == 0 then Greater
    else Then(CmpInt(a[0], b[0]), CmpBytes(a[1..], b[1..]))
  }

  /** The derived order of `UserKey`: table id, then table key. */
  function CmpUserKey(a: UserKey, b: UserKey): Ordering {
    Then(CmpInt(a.tableId, b.tableId), CmpBytes(a.tableKey, b.tableKey))
  }

  /** The derived order of `PointRange`: user key, then the exclusion flag. */
  function CmpPointRange(a: PointRange, b: PointRange): Ordering {
    Then(CmpUserKey(a.leftUserKey, b.leftUserKey), CmpBool(a.isExcludeLeftKey, b.isExcludeLeftKey))
  }

  datatype DeleteRangeTombstone = DeleteRangeTombstone(
    startUserKey: PointRange, endUserKey: PointRange, sequence: u64)

  /**
   * `DeleteRangeTombstone::cmp`: by start key, then end key, then by
   * sequence DESCENDING, so that of two equal ranges the newer sorts first.
   */
  function CmpTombstone(a: DeleteRangeTombstone, b: DeleteRangeTombstone): (r: Ordering)
    ensures a.startUserKey == b.startUserKey && a.endUserKey == b.endUserKey
            ==> (r == Less <==> a.sequence > b.sequence)
  {
    CmpPointRangeRefl(a.startUserKey);
    CmpPointRangeRefl(a.endUserKey);
    Then(CmpPointRange(a.startUserKey, b.startUserKey),
         Then(CmpPointRange(a.endUserKey, b.endUserKey), CmpInt(b.sequence, a.sequence)))
  }

  // ---------------------------------------------------------------------
  // The comparisons are total orders

  lemma {:induction false} CmpBytesFlip(a: bytes, b: bytes)
    ensures CmpBytes(b, a) == Flip(CmpBytes(a, b))
    decreases |a|
  {
    if |a| > 0 && |b| > 0 { CmpBytesFlip(a[1..], b[1..]); }
  }

  lemma {:induction false} CmpBytesEqual(a: bytes, b: bytes)
    ensures CmpBytes(a, b) == Equal <==> a == b
    decreases |a|
  {
    if |a| > 0 && |b| > 0 {
      CmpBytesEqual(a[1..], b[1..]);
      assert a == [a[0]] + a[1..] && b == [b[0]] + b[1..];
    }
  }

  lemma {:induction false} CmpBytesTrans(a: bytes, b: bytes, c: bytes)
    requires CmpBytes(a, b) == Less && CmpBytes(b, c) == Less
    ensures CmpBytes(a, c) == Less
    decreases |a|
  {
    if |a| > 0 && a[0] == b[0] && b[0] == c[0] {
      CmpBytesTrans(a[1..], b[1..], c[1..]);
    }
  }

  lemma CmpPointRangeRefl(a: PointRange)
    ensures CmpPointRange(a, a) == Equal
  {
    CmpBytesEqual(a.leftUserKey.tableKey, a.leftUserKey.tableKey);
  }

  lemma CmpUserKeyFacts(a: UserKey, b: UserKey)
    ensures CmpUserKey(b, a) == Flip(CmpUserKey(a, b))
    ensures CmpUserKey(a, b) == Equal <==> a == b
  {
    CmpBytesFlip(a.tableKey, b.tableKey);
    CmpBytesEqual(a.tableKey, b.tableKey);
  }

  lemma CmpUserKeyTrans(a: UserKey, b: UserKey, c: UserKey)
    requires CmpUserKey(a, b) == Less && CmpUserKey(b, c) == Less
    ensures CmpUserKey(a, c) == Less
  {
    CmpBytesEqual(a.tableKey, b.tableKey);
    CmpBytesEqual(b.tableKey, c.tableKey);
    if a.tableId == b.tableId == c.tableId {
      CmpBytesTrans(a.tableKey, b.tableKey, c.tableKey);
    }
  }

  lemma CmpPointRangeFacts(a: PointRange, b: PointRange)
    ensures CmpPointRange(b, a) == Flip(CmpPointRange(a, b))
    ensures CmpPointRange(a, b) == Equal <==> a == b
  {
    CmpUserKeyFacts(a.leftUserKey, b.leftUserKey);
  }

  lemma CmpPointRangeTrans(a: PointRange, b: PointRange, c: PointRange)
    requires CmpPointRange(a, b) == Less && CmpPointRange(b, c) == Less
    ensures CmpPointRange(a, c) == Less
  {
    CmpUserKeyFacts(a.leftUserKey, b.leftUserKey);
    CmpUserKeyFacts(b.leftUserKey, c.leftUserKey);
    CmpUserKeyFacts(a.leftUserKey, c.leftUserKey);
    if CmpUserKey(a.leftUserKey, b.leftUserKey) == Less && CmpUserKey(b.leftUserKey, c.leftUserKey) == Less {
      CmpUserKeyTrans(a.leftUserKey, b.leftUserKey, c.leftUserKey);
    }
  }

  lemma CmpTombstoneFacts(a: DeleteRangeTombstone, b: DeleteRangeTombstone)
    ensures CmpTombstone(b, a) == Flip(CmpTombstone(a, b))
    ensures CmpTombstone(a, b) == Equal <==> a == b
  {
    CmpPointRangeFacts(a.startUserKey, b.startUserKey);
    CmpPointRangeFacts(a.endUserKey, b.endUserKey);
  }

  lemma CmpTombstoneTrans(a: DeleteRangeTombstone, b: DeleteRangeTombstone, c: DeleteRangeTombstone)
    requires CmpTombstone(a, b) == Less && CmpTombstone(b, c) == Less
    ensures CmpTombstone(a, c) == Less
  {
    CmpPointRangeFacts(a.startUserKey, b.startUserKey);
    CmpPointRangeFacts(b.startUserKey, c.startUserKey);
    CmpPointRangeFacts(a.startUserKey, c.startUserKey);
    CmpPointRangeFacts(a.endUserKey, b.endUserKey);
    CmpPointRangeFacts(b.endUserKey, c.endUserKey);
    CmpPointRangeFacts(a.endUserKey, c.endUserKey);
    if CmpPointRange(a.startUserKey, b.startUserKey) == Less && CmpPointRange(b.startUserKey, c.startUserKey) == Less {
      CmpPointRangeTrans(a.startUserKey, b.startUserKey, c.startUserKey);
    }
    if CmpPointRange(a.endUserKey, b.endUserKey) == Less && CmpPointRange(b.endUserKey, c.endUserKey) == Less {
      CmpPointRangeTrans(a.endUserKey, b.endUserKey, c.endUserKey);
    }
  }

  /** "Sorts no later than", the relation `sort()` arranges tombstones by. */
  function TombstoneLe(a: DeleteRangeTombstone, b: DeleteRangeTombstone): bool {
    CmpTombstone(a, b) != Greater
  }

  /** The tombstone order is a total order: total, transitive and antisymmetric. */
  lemma TombstoneOrderIsTotal()
    ensures Sorting.Total(TombstoneLe) && Sorting.Transitive(TombstoneLe)
    ensures Sorting.Antisymmetric(TombstoneLe)
  {
    forall a: DeleteRangeTombstone, b: DeleteRangeTombstone
      ensures TombstoneLe(a, b) || TombstoneLe(b, a)
      ensures TombstoneLe(a, b) && TombstoneLe(b, a) ==> a == b
    {
      CmpTombstoneFacts(a, b);
    }
    forall a: DeleteRangeTombstone, b: DeleteRangeTombstone, c: DeleteRangeTombstone
      | TombstoneLe(a, b) && TombstoneLe(b, c)
      ensures TombstoneLe(a, c)
    {
      CmpTombstoneFacts(a, b);
      CmpTombstoneFacts(b, c);
      if CmpTombstone(a, b) == Less && CmpTombstone(b, c) == Less {
        CmpTombstoneTrans(a, b, c);
      }
    }
  }

  // ---------------------------------------------------------------------
  // Monotonic delete events

  /** A boundary key with the epochs of the tombstones that end and start there. */
  datatype CompactionDeleteRangeEvent = CompactionDeleteRangeEvent(
    key: PointRange, exitEpochs: seq<u64>, enterEpochs: seq<u64>)

  /** `apply_event`: drop the epochs of the ranges that end, add those that start. */
  function ApplyEvent(epochs: set<u64>, e: CompactionDeleteRangeEvent): (r: set<u64>)
    ensures forall x :: x in e.enterEpochs ==> x in r
    ensures forall x :: x in r ==> x in epochs || x in e.enterEpochs
  {
    (epochs - set x | x in e.exitEpochs) + set x | x in e.enterEpochs
  }

  lemma {:induction false} LeastOf(s: set<u64>) returns (least: u64)
    requires s != {}
    ensures least in s && forall x :: x in s ==> least <= x
    decreases |s|
  {
    var y :| y in s;
    var rest := s - {y};
    if rest == {} {
      least := y;
    } else {
      var m := LeastOf(rest);
      least := if y < m then y else m;
    }
    forall x | x in s ensures least <= x {
      if x != y { assert x in rest; }
    }
  }

  lemma SetHasLeast(s: set<u64>)
    requires s != {}
    ensures exists m :: m in s && forall x :: x in s ==> m <= x
  {
    var m := LeastOf(s);
  }

  /** `epochs.first()` of the ordered set, or `HummockEpoch::MAX` when it is empty. */
  function FirstOrMax(epochs: set<u64>): (r: u64)
    ensures epochs == {} ==> r == U64_MAX
    ensures epochs != {} ==> r in epochs && forall x :: x in epochs ==> r <= x
  {
    if epochs == {} then U64_MAX
    else
      SetHasLeast(epochs);
      var m :| m in epochs && forall x :: x in epochs ==> m <= x;
      m
  }

  /** The epochs of the ranges that cover the keys right after the events seen. */
  function ActiveAfter(events: seq<CompactionDeleteRangeEvent>): set<u64> {
    if |events| == 0 then {}
    else ApplyEvent(ActiveAfter(events[..|events| - 1]), events[|events| - 1])
  }

  /** One monotonic event per compaction event: its key and the least epoch still covering it. */
  function RawMonotonicEvents(events: seq<CompactionDeleteRangeEvent>): (r: seq<MonotonicDeleteEvent>)
    ensures |r| == |events|
  {
    if |events| == 0 then []
    else RawMonotonicEvents(events[..|events| - 1])
         + [MonotonicDeleteEvent(events[|events| - 1].key, FirstOrMax(ActiveAfter(events)))]
  }

  /** The `dedup_by` test: same table and same new epoch. */
  predicate SameRun(a: MonotonicDeleteEvent, b: MonotonicDeleteEvent) {
    a.eventKey.leftUserKey.tableId == b.eventKey.leftUserKey.tableId && a.newEpoch == b.newEpoch
  }

  /** `Vec::dedup_by`: an element is dropped when it is in the same run as the last one kept. */
  function Dedup(s: seq<MonotonicDeleteEvent>): (r: seq<MonotonicDeleteEvent>)
    ensures |r| <= |s|
    ensures |s| > 0 ==> |r| > 0 && r[0] == s[0] && SameRun(s[|s| - 1], r[|r| - 1])
    ensures forall x :: x in r ==> x in s
  {
    if |s| == 0 then []
    else
      var kept := Dedup(s[..|s| - 1]);
      if |kept| > 0 && SameRun(s[|s| - 1], kept[|kept| - 1]) then kept
      else kept + [s[|s| - 1]]
  }

  /** The positions in `s` of the events `Dedup` keeps: the first of each run. */
  function KeptPositions(s: seq<MonotonicDeleteEvent>): seq<nat> {
    if |s| == 0 then []
    else
      var kept := Dedup(s[..|s| - 1]);
      var positions := KeptPositions(s[..|s| - 1]);
      if |kept| > 0 && SameRun(s[|s| - 1], kept[|kept| - 1]) then positions
      else positions + [|s| - 1]
  }

  /** `r` sits in `s` at the strictly increasing positions `p`. */
  ghost predicate Embeds<T>(r: seq<T>, s: seq<T>, p: seq<nat>) {
    |p| == |r|
    && (forall i :: 0 <= i < |p| ==> p[i] < |s| && s[p[i]] == r[i])
    && (forall i, j :: 0 <= i < j < |p| ==> p[i] < p[j])
  }

  lemma EmbedsExtend<T>(r: seq<T>, s: seq<T>, p: seq<nat>, x: T)
    requires Embeds(r, s, p)
    ensures Embeds(r, s + [x], p)
  {
    assert forall i :: 0 <= i < |p| ==> (s + [x])[p[i]] == s[p[i]];
  }

  lemma EmbedsSnoc<T>(r: seq<T>, s: seq<T>, p: seq<nat>, x: T)
    requires Embeds(r, s, p)
    ensures Embeds(r + [x], s + [x], p + [|s|])
  {
    assert forall i :: 0 <= i < |p| ==> (s + [x])[p[i]] == s[p[i]];
  }

  /** What `dedup_by` keeps sits at strictly increasing positions of `s`, so the result is a
      subsequence of `s` in the original order. */
  lemma {:induction false} DedupSubsequence(s: seq<MonotonicDeleteEvent>)
    ensures Embeds(Dedup(s), s, KeptPositions(s))
  {
    if |s| > 0 {
      var n := |s| - 1;
      DedupSubsequence(s[..n]);
      assert s == s[..n] + [s[n]];
      var kept := Dedup(s[..n]);
      if |kept| > 0 && SameRun(s[n], kept[|kept| - 1]) {
        EmbedsExtend(kept, s[..n], KeptPositions(s[..n]), s[n]);
      } else {
        EmbedsSnoc(kept, s[..n], KeptPositions(s[..n]), s[n]);
      }
    }
  }

  /** One more event either joins the run of the last kept one or is kept. */
  lemma DedupStep(s: seq<MonotonicDeleteEvent>, r: nat)
    requires 0 < r < |s|
    ensures var kept := Dedup(s[..r]);
      Dedup(s[..r + 1]) == if SameRun(s[r], kept[|kept| - 1]) then kept else kept + [s[r]]
  {
    assert s[..r + 1][..r] == s[..r];
  }

  /** The result of `create_monotonic_events_from_compaction_delete_events`. */
  function MonotonicEvents(events: seq<CompactionDeleteRangeEvent>): seq<MonotonicDeleteEvent> {
    Dedup(RawMonotonicEvents(events))
  }

  /** One step of the in-place `dedup_by`: slot `r` is compared with the last kept slot
      `w - 1` and copied to slot `w` unless it is in the same run. */
  method DedupStepInPlace(a: array<MonotonicDeleteEvent>, ghost s: seq<MonotonicDeleteEvent>, w: nat, r: nat)
    returns (w': nat)
    requires |s| == a.Length && 1 <= w <= r < a.Length
    requires a[..w] == Dedup(s[..r])
    requires forall k :: r <= k < a.Length ==> a[k] == s[k]
    modifies a
    ensures w' == w || w' == w + 1
    ensures a[..w'] == Dedup(s[..r + 1])
    ensures forall k :: r < k < a.Length ==> a[k] == s[k]
  {
    ghost var kept := a[..w];
    assert a[r] == s[r] && a[w - 1] == kept[|kept| - 1];
    DedupStep(s, r);
    w' := w;
    if !SameRun(a[r], a[w - 1]) {
      a[w] := a[r];
      assert a[..w + 1] == kept + [s[r]];
      w' := w + 1;
    }
  }

  /** `dedup_by` on the events' vector, in place: `a[..len]` is what is kept. */
  method DedupByInPlace(a: array<MonotonicDeleteEvent>) returns (len: nat)
    modifies a
    ensures len <= a.Length
    ensures a[..len] == Dedup(old(a[..]))
  {
    if a.Length == 0 {
      return 0;
    }
    ghost var s := a[..];
    var w := 1;
    var r := 1;
    assert s[..1] == [s[0]];
    while r < a.Length
      invariant 1 <= w <= r <= a.Length
      invariant a[..w] == Dedup(s[..r])
      invariant forall k :: r <= k < a.Length ==> a[k] == s[k]
    {
      w := DedupStepInPlace(a, s, w, r);
      r := r + 1;
    }
    assert s[..a.Length] == s;
    return w;
  }

  /** Sweeps the events in key order, keeping the set of active epochs, then dedups. */
  method CreateMonotonicEventsFromCompactionDeleteEvents(events: seq<CompactionDeleteRangeEvent>)
    returns (out: seq<MonotonicDeleteEvent>)
    ensures out == MonotonicEvents(events)
  {
    var epochs: set<u64> := {};
    var raw: seq<MonotonicDeleteEvent> := [];
    for i := 0 to |events|
      invariant epochs == ActiveAfter(events[..i])
      invariant raw == RawMonotonicEvents(events[..i])
    {
      assert events[..i + 1][..i] == events[..i];
      epochs := ApplyEvent(epochs, events[i]);
      raw := raw + [MonotonicDeleteEvent(events[i].key, FirstOrMax(epochs))];
    }
    assert events[..|events|] == events;
    var a := new MonotonicDeleteEvent[|raw|](i requires 0 <= i < |raw| => raw[i]);
    assert a[..] == raw;
    var len := DedupByInPlace(a);
    out := a[..len];
  }

  /** Before dedup: event `i` carries event `i`'s key and the least epoch active after it. */
  lemma {:induction false} RawMonotonicEventAt(events: seq<CompactionDeleteRangeEvent>, i: nat)
    requires i < |events|
    ensures RawMonotonicEvents(events)[i].eventKey == events[i].key
    ensures RawMonotonicEvents(events)[i].newEpoch == FirstOrMax(ActiveAfter(events[..i + 1]))
  {
    var n := |events|;
    if i == n - 1 {
      assert events[..i + 1] == events;
    } else {
      RawMonotonicEventAt(events[..n - 1], i);
      assert events[..n - 1][..i + 1] == events[..i + 1];
    }
  }

  /** No two neighbours of the result are in the same run. */
  lemma {:induction false} DedupNoAdjacentSame(s: seq<MonotonicDeleteEvent>)
    ensures forall i :: 0 < i < |Dedup(s)| ==> !SameRun(Dedup(s)[i], Dedup(s)[i - 1])
  {
    if |s| > 0 {
      DedupNoAdjacentSame(s[..|s| - 1]);
    }
  }

  predicate NoAdjacentSame(s: seq<MonotonicDeleteEvent>) {
    forall i :: 0 < i < |s| ==> !SameRun(s[i], s[i - 1])
  }

  /** A sequence without neighbours in the same run is left as it is ... */
  lemma {:induction false} DedupKeepsNoAdjacentSame(s: seq<MonotonicDeleteEvent>)
    requires NoAdjacentSame(s)
    ensures Dedup(s) == s
  {
    if |s| > 0 {
      var t := s[..|s| - 1];
      assert NoAdjacentSame(t) by {
        forall i | 0 < i < |t| ensures !SameRun(t[i], t[i - 1]) {
          assert t[i] == s[i] && t[i - 1] == s[i - 1];
        }
      }
      DedupKeepsNoAdjacentSame(t);
      if |t| > 0 {
        assert !SameRun(s[|s| - 1], s[|s| - 2]);
      }
      assert t + [s[|s| - 1]] == s;
    }
  }

  /** ... so deduplicating twice is the same as once. */
  lemma DedupIdempotent(s: seq<MonotonicDeleteEvent>)
    ensures Dedup(Dedup(s)) == Dedup(s)
  {
    DedupNoAdjacentSame(s);
    DedupKeepsNoAdjacentSame(Dedup(s));
  }

  /** The builder's output has no neighbours in the same run and is no longer than its input. */
  lemma MonotonicEventsShape(events: seq<CompactionDeleteRangeEvent>)
    ensures |MonotonicEvents(events)| <= |events|
    ensures NoAdjacentSame(MonotonicEvents(events))
    ensures |events| > 0 ==> MonotonicEvents(events)[0] == RawMonotonicEvents(events)[0]
  {
    DedupNoAdjacentSame(RawMonotonicEvents(events));
  }

  predicate KeysIncreasing(s: seq<MonotonicDeleteEvent>) {
    forall i, j :: 0 <= i < j < |s| ==> CmpPointRange(s[i].eventKey, s[j].eventKey) == Less
  }

  /** Dedup drops events but never reorders them: increasing keys stay increasing. */
  lemma {:induction false} DedupKeepsKeysIncreasing(s: seq<MonotonicDeleteEvent>)
    requires KeysIncreasing(s)
    ensures KeysIncreasing(Dedup(s))
  {
    if |s| > 0 {
      var n := |s| - 1;
      var t := s[..n];
      assert KeysIncreasing(t) by {
        forall i, j | 0 <= i < j < |t|
          ensures CmpPointRange(t[i].eventKey, t[j].eventKey) == Less
        {
          assert t[i] == s[i] && t[j] == s[j];
        }
      }
      DedupKeepsKeysIncreasing(t);
      var kept := Dedup(t);
      if !(|kept| > 0 && SameRun(s[n], kept[|kept| - 1])) {
        var r := kept + [s[n]];
        forall i, j | 0 <= i < j < |r|
          ensures CmpPointRange(r[i].eventKey, r[j].eventKey) == Less
        {
          if j == |kept| {
            assert r[i] in kept;
            assert r[i] in t;
            var k :| 0 <= k < |t| && t[k] == r[i];
            assert t[k] == s[k];
          } else {
            assert r[i] == kept[i] && r[j] == kept[j];
          }
        }
      }
    }
  }

  /** The documented example: `[0, 5)` at e1, `[5, 7)` at e2 and `[7, 11)` at e3 in one table
      give `<0, e1> <5, e2> <7, e3> <11, MAX>`. */
  lemma DocumentedExample(table: u32, k0: bytes, k5: bytes, k7: bytes, k11: bytes,
                          e1: u64, e2: u64, e3: u64)
    requires e1 != e2 && e2 != e3 && e3 != U64_MAX
    ensures
      var key := (k: bytes) => PointRange(UserKey(table, k), false);
      MonotonicEvents([
        CompactionDeleteRangeEvent(key(k0), [], [e1]),
        CompactionDeleteRangeEvent(key(k5), [e1], [e2]),
        CompactionDeleteRangeEvent(key(k7), [e2], [e3]),
        CompactionDeleteRangeEvent(key(k11), [e3], [])])
      == [MonotonicDeleteEvent(key(k0), e1), MonotonicDeleteEvent(key(k5), e2),
          MonotonicDeleteEvent(key(k7), e3), MonotonicDeleteEvent(key(k11), U64_MAX)]
  {
    var key := (k: bytes) => PointRange(UserKey(table, k), false);
    var ev := [
      CompactionDeleteRangeEvent(key(k0), [], [e1]),
      CompactionDeleteRangeEvent(key(k5), [e1], [e2]),
      CompactionDeleteRangeEvent(key(k7), [e2], [e3]),
      CompactionDeleteRangeEvent(key(k11), [e3], [])];
    assert ActiveAfter(ev[..1]) == {e1} by {
      assert ev[..1][..0] == [];
    }
    assert ActiveAfter(ev[..2]) == {e2} by {
      assert ev[..2][..1] == ev[..1];
    }
    assert ActiveAfter(ev[..3]) == {e3} by {
      assert ev[..3][..2] == ev[..2];
    }
    assert ActiveAfter(ev) == {} by {
      assert ev[..3] == ev[..|ev| - 1];
    }
    var raw := [MonotonicDeleteEvent(key(k0), e1), MonotonicDeleteEvent(key(k5), e2),
                MonotonicDeleteEvent(key(k7), e3), MonotonicDeleteEvent(key(k11), U64_MAX)];
    forall i | 0 <= i < 4 ensures RawMonotonicEvents(ev)[i] == raw[i] {
      RawMonotonicEventAt(ev, i);
      assert ev[..4] == ev;
    }
    assert RawMonotonicEvents(ev) == raw;
    assert NoAdjacentSame(raw);
    DedupKeepsNoAdjacentSame(raw);
  }

  // ---------------------------------------------------------------------
  // `create_monotonic_events`: sort the tombstones, build the events, sweep.

  /** `delete_range_tombstones.sort()` under `DeleteRangeTombstone::cmp`. */
  function SortTombstones(ts: seq<DeleteRangeTombstone>): (r: seq<DeleteRangeTombstone>)
    ensures multiset(r) == multiset(ts)
    ensures Sorting.Sorted(r, TombstoneLe)
  {
    TombstoneOrderIsTotal();
    Sorting.InsertionSortSorted(ts, TombstoneLe);
    Sorting.InsertionSort(ts, TombstoneLe)
  }

  /** Any permutation of the tombstones sorts to the same sequence, so the result does not
      depend on the order the tombstones arrive in. */
  lemma SortTombstonesOrderIndependent(ts: seq<DeleteRangeTombstone>, us: seq<DeleteRangeTombstone>)
    requires multiset(ts) == multiset(us)
    ensures SortTombstones(ts) == SortTombstones(us)
  {
    TombstoneOrderIsTotal();
    Sorting.SortPermutationInvariant(ts, us, TombstoneLe);
  }

  /** `create_monotonic_events`; the event builder of the delete-range aggregator is a parameter. */
  method CreateMonotonicEvents(ts: seq<DeleteRangeTombstone>,
                               buildEvents: seq<DeleteRangeTombstone> -> seq<CompactionDeleteRangeEvent>)
    returns (out: seq<MonotonicDeleteEvent>)
    ensures out == MonotonicEvents(buildEvents(SortTombstones(ts)))
  {
    var sorted := SortTombstones(ts);
    var events := buildEvents(sorted);
    out := CreateMonotonicEventsFromCompactionDeleteEvents(events);
  }
}
