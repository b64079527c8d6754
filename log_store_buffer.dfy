// The in-memory buffer between the writer and the reader of the key-value log
// store: a queue of items not yet read (`unconsumed`) and a queue of items read
// but not yet truncated (`consumed`), both with the newest item at index 0,
// plus the count of buffered stream chunks that bounds admission.
// The sender and the receiver share one buffer behind a mutex; here it is one
// object and each method is one critical section.

module LogStoreBuffer {
  import opened Bytes

  /** The log store's sequence ids (`i32`). */
  type SeqId = int

  datatype Item<C> =
    | StreamChunk(chunk: C, startSeqId: SeqId, endSeqId: SeqId, flushed: bool)
    | Flushed(vnodeBitmap: seq<bool>, startSeqId: SeqId, endSeqId: SeqId)
    | Barrier(isCheckpoint: bool, nextEpoch: u64)
    | UpdateVnodes(bitmap: seq<bool>)

  /** An item and the epoch it belongs to. */
  datatype Entry<C> = Entry(epoch: u64, item: Item<C>)

  /** The number of stream chunks in a queue. */
  function ChunkCount<C>(q: seq<Entry<C>>): (n: nat)
    ensures n <= |q|
  {
    if |q| == 0 then 0
    else (if q[0].item.StreamChunk? then 1 else 0) + ChunkCount(q[1..])
  }

  lemma {:induction false} ChunkCountAppend<C>(a: seq<Entry<C>>, b: seq<Entry<C>>)
    ensures ChunkCount(a + b) == ChunkCount(a) + ChunkCount(b)
  {
    if |a| == 0 {
      assert a + b == b;
    } else {
      assert (a + b)[1..] == a[1..] + b;
      ChunkCountAppend(a[1..], b);
    }
  }

  /** Bitwise or of two vnode bitmaps of the same length (`Bitmap |= Bitmap`). */
  function BitOr(a: seq<bool>, b: seq<bool>): (r: seq<bool>)
    requires |a| == |b|
    ensures |r| == |a|
    ensures forall i :: 0 <= i < |a| ==> (r[i] <==> a[i] || b[i])
  {
    seq(|a|, i requires 0 <= i < |a| => a[i] || b[i])
  }

  // ---------------------------------------------------------------------
  // `flush_all_unflushed`, as a function: walk from the newest item, flush each
  // stream chunk not yet flushed, and stop at the first one already flushed or
  // at the first failing flush.

  datatype FlushStatus = Continue | Stopped | Failed

  datatype FlushResult<C> = FlushResult(
    queue: seq<Entry<C>>, calls: seq<Entry<C>>, status: FlushStatus)

  function Flush<C>(q: seq<Entry<C>>, flushFn: Entry<C> -> bool): (r: FlushResult<C>)
    ensures |r.queue| == |q|
  {
    if |q| == 0 then FlushResult(q, [], Continue)
    else
      var head := q[0];
      if head.item.StreamChunk? && head.item.flushed then FlushResult(q, [], Stopped)
      else if head.item.StreamChunk? && !flushFn(head) then FlushResult(q, [head], Failed)
      else
        var rest := Flush(q[1..], flushFn);
        var marked := if head.item.StreamChunk? then head.(item := head.item.(flushed := true)) else head;
        FlushResult([marked] + rest.queue, (if head.item.StreamChunk? then [head] else []) + rest.calls,
                    rest.status)
  }

  predicate Unflushed<C>(e: Entry<C>) {
    e.item.StreamChunk? && !e.item.flushed
  }

  /** The flush only ever calls the flush function on unflushed chunks, in order, and changes no
      item other than setting the `flushed` flag of chunks it flushed successfully. */
  lemma {:induction false} FlushFacts<C>(q: seq<Entry<C>>, flushFn: Entry<C> -> bool)
    ensures forall e :: e in Flush(q, flushFn).calls ==> e in q && Unflushed(e)
    ensures forall i :: 0 <= i < |q| ==>
      var e := Flush(q, flushFn).queue[i];
      e == q[i] || (Unflushed(q[i]) && e == q[i].(item := q[i].item.(flushed := true)))
    ensures ChunkCount(Flush(q, flushFn).queue) == ChunkCount(q)
    ensures Flush(q, flushFn).status == Continue ==>
      forall i :: 0 <= i < |q| ==> !Flush(q, flushFn).queue[i].item.StreamChunk?
                                   || Flush(q, flushFn).queue[i].item.flushed
  {
    if |q| > 0 {
      var head := q[0];
      if !(head.item.StreamChunk? && head.item.flushed) && !(head.item.StreamChunk? && !flushFn(head)) {
        FlushFacts(q[1..], flushFn);
        var r := Flush(q, flushFn);
        var rest := Flush(q[1..], flushFn);
        assert r.queue[1..] == rest.queue;
        forall i | 0 < i < |q|
          ensures r.queue[i] == q[i] || (Unflushed(q[i]) && r.queue[i] == q[i].(item := q[i].item.(flushed := true)))
        {
          assert r.queue[i] == rest.queue[i - 1] && q[i] == q[1..][i - 1];
        }
        if r.status == Continue {
          forall i | 0 < i < |q| ensures !r.queue[i].item.StreamChunk? || r.queue[i].item.flushed {
            assert r.queue[i] == rest.queue[i - 1];
          }
        }
      }
    }
  }

  class Buffer<C> {
    /** Items not read by the log reader, newest first. */
    var unconsumed: seq<Entry<C>>
    /** Items read by the log reader but not truncated, newest first. */
    var consumed: seq<Entry<C>>
    var streamChunkCount: nat
    var consumedStreamChunkCount: nat
    const maxStreamChunkCount: nat
    var updatedTruncation: Option<u64>

    ghost predicate Valid()
      reads this
    {
      consumedStreamChunkCount == ChunkCount(consumed)
      && streamChunkCount == ChunkCount(unconsumed) + ChunkCount(consumed)
      && consumedStreamChunkCount <= streamChunkCount <= maxStreamChunkCount
    }

    /** `new_log_store_buffer`. */
    constructor (maxStreamChunkCount: nat)
      ensures Valid()
      ensures unconsumed == [] && consumed == []
      ensures streamChunkCount == 0 && consumedStreamChunkCount == 0
      ensures this.maxStreamChunkCount == maxStreamChunkCount && updatedTruncation == None
    {
      unconsumed := [];
      consumed := [];
      streamChunkCount := 0;
      consumedStreamChunkCount := 0;
      this.maxStreamChunkCount := maxStreamChunkCount;
      updatedTruncation := None;
    }

    predicate CanAddStreamChunk()
      reads this
    {
      streamChunkCount < maxStreamChunkCount
    }

    /** Buffers the item unless it is a stream chunk and the buffer is full, in which case the
        chunk is handed back and nothing changes. */
    method TryAddItem(epoch: u64, item: Item<C>) returns (rejected: Option<C>)
      requires Valid()
      modifies this
      ensures Valid()
      ensures rejected.Some? <==> item.StreamChunk? && old(streamChunkCount) >= maxStreamChunkCount
      ensures rejected.Some? ==> rejected.value == item.chunk
      ensures rejected.Some? ==> unconsumed == old(unconsumed) && streamChunkCount == old(streamChunkCount)
      ensures rejected.None? ==> unconsumed == [Entry(epoch, item)] + old(unconsumed)
      ensures rejected.None? ==>
        streamChunkCount == old(streamChunkCount) + (if item.StreamChunk? then 1 else 0)
      ensures consumed == old(consumed) && consumedStreamChunkCount == old(consumedStreamChunkCount)
      ensures updatedTruncation == old(updatedTruncation)
    {
      if item.StreamChunk? {
        if !CanAddStreamChunk() {
          return Some(item.chunk);
        }
        streamChunkCount := streamChunkCount + 1;
      }
      assert ([Entry(epoch, item)] + unconsumed)[1..] == unconsumed;
      unconsumed := [Entry(epoch, item)] + unconsumed;
      rejected := None;
    }

    /** Buffers an item that is not a stream chunk; that always succeeds. */
    method AddItem(epoch: u64, item: Item<C>)
      requires Valid() && !item.StreamChunk?
      modifies this
      ensures Valid()
      ensures unconsumed == [Entry(epoch, item)] + old(unconsumed)
      ensures consumed == old(consumed) && streamChunkCount == old(streamChunkCount)
      ensures consumedStreamChunkCount == old(consumedStreamChunkCount)
      ensures updatedTruncation == old(updatedTruncation)
    {
      var rejected := TryAddItem(epoch, item);
    }

    /** Hands the oldest unread item to the reader and keeps it until truncation. */
    method PopItem() returns (popped: Option<Entry<C>>)
      requires Valid()
      modifies this
      ensures Valid()
      ensures popped.None? <==> old(unconsumed) == []
      ensures popped.None? ==> unconsumed == old(unconsumed) && consumed == old(consumed)
      ensures popped.Some? ==>
        popped.value == old(unconsumed)[|old(unconsumed)| - 1]
        && unconsumed == old(unconsumed)[..|old(unconsumed)| - 1]
        && consumed == [popped.value] + old(consumed)
      ensures unconsumed + consumed == old(unconsumed) + old(consumed)
      ensures consumedStreamChunkCount
              == old(consumedStreamChunkCount) + (if popped.Some? && popped.value.item.StreamChunk? then 1 else 0)
      ensures streamChunkCount == old(streamChunkCount) && updatedTruncation == old(updatedTruncation)
    {
      if |unconsumed| == 0 {
        return None;
      }
      var n := |unconsumed| - 1;
      var e := unconsumed[n];
      assert unconsumed == unconsumed[..n] + [e];
      ChunkCountAppend(unconsumed[..n], [e]);
      assert ([e] + consumed)[1..] == consumed;
      if e.item.StreamChunk? {
        consumedStreamChunkCount := consumedStreamChunkCount + 1;
      }
      assert unconsumed[..n] + ([e] + consumed) == unconsumed + consumed;
      unconsumed := unconsumed[..n];
      consumed := [e] + consumed;
      popped := Some(e);
    }

    /** Records that sequence ids `start..=end` of `epoch` were flushed: extends the newest item
        when it is already a `Flushed` item, otherwise buffers a new one. */
    method AddFlushed(epoch: u64, start: SeqId, end: SeqId, newVnodeBitmap: seq<bool>)
      requires Valid()
      requires |unconsumed| > 0 && unconsumed[0].item.Flushed? ==>
        unconsumed[0].item.endSeqId < start && unconsumed[0].epoch == epoch
        && |unconsumed[0].item.vnodeBitmap| == |newVnodeBitmap|
      modifies this
      ensures Valid()
      ensures |old(unconsumed)| > 0 && old(unconsumed)[0].item.Flushed? ==>
        var prev := old(unconsumed)[0];
        unconsumed == [Entry(prev.epoch, Flushed(BitOr(prev.item.vnodeBitmap, newVnodeBitmap),
                                                 prev.item.startSeqId, end))]
                      + old(unconsumed)[1..]
      ensures !(|old(unconsumed)| > 0 && old(unconsumed)[0].item.Flushed?) ==>
        unconsumed == [Entry(epoch, Flushed(newVnodeBitmap, start, end))] + old(unconsumed)
      ensures consumed == old(consumed) && streamChunkCount == old(streamChunkCount)
      ensures consumedStreamChunkCount == old(consumedStreamChunkCount)
      ensures updatedTruncation == old(updatedTruncation)
    {
      if |unconsumed| > 0 && unconsumed[0].item.Flushed? {
        var prev := unconsumed[0];
        var merged := Entry(prev.epoch, Flushed(BitOr(prev.item.vnodeBitmap, newVnodeBitmap),
                                                prev.item.startSeqId, end));
        assert ([merged] + unconsumed[1..])[1..] == unconsumed[1..];
        unconsumed := [merged] + unconsumed[1..];
      } else {
        AddItem(epoch, Flushed(newVnodeBitmap, start, end));
      }
    }

    /** `pop_truncation`: takes the pending truncation offset. */
    method PopTruncation() returns (offset: Option<u64>)
      modifies this
      ensures offset == old(updatedTruncation) && updatedTruncation == None
      ensures unconsumed == old(unconsumed) && consumed == old(consumed)
      ensures streamChunkCount == old(streamChunkCount)
      ensures consumedStreamChunkCount == old(consumedStreamChunkCount)
    {
      offset := updatedTruncation;
      updatedTruncation := None;
    }

    /** `truncate`, right after the reader got a barrier: drops everything read so far and sets
        the truncation offset to the barrier's epoch; a no-op when nothing was read. */
    method Truncate()
      requires Valid()
      requires |consumed| > 0 ==> consumed[0].item.Barrier?
      modifies this
      ensures Valid()
      ensures old(consumed) == [] ==>
        consumed == [] && updatedTruncation == old(updatedTruncation)
        && streamChunkCount == old(streamChunkCount)
      ensures old(consumed) != [] ==>
        consumed == [] && updatedTruncation == Some(old(consumed)[0].epoch)
        && streamChunkCount == old(streamChunkCount) - old(consumedStreamChunkCount)
        && streamChunkCount == ChunkCount(unconsumed)
      ensures unconsumed == old(unconsumed)
    {
      if |consumed| > 0 {
        updatedTruncation := Some(consumed[0].epoch);
        consumed := [];
        streamChunkCount := streamChunkCount - consumedStreamChunkCount;
        consumedStreamChunkCount := 0;
      }
    }

    /** Flushes the newest run of unflushed chunks, newest first, marking each one flushed; stops
        at the first chunk already flushed, and returns false at the first flush that fails. */
    method FlushAllUnflushed(flushFn: Entry<C> -> bool) returns (ok: bool, calls: seq<Entry<C>>)
      requires Valid()
      modifies this
      ensures Valid()
      ensures var u := Flush(old(unconsumed), flushFn);
              var c := Flush(old(consumed), flushFn);
              if u.status != Continue then
                unconsumed == u.queue && consumed == old(consumed) && calls == u.calls
                && ok == (u.status == Stopped)
              else
                unconsumed == u.queue && consumed == c.queue && calls == u.calls + c.calls
                && ok == (c.status != Failed)
      ensures streamChunkCount == old(streamChunkCount)
      ensures consumedStreamChunkCount == old(consumedStreamChunkCount)
      ensures updatedTruncation == old(updatedTruncation)
    {
      FlushFacts(unconsumed, flushFn);
      FlushFacts(consumed, flushFn);
      var u, callsU, stU := FlushQueue(unconsumed, flushFn);
      unconsumed := u;
      if stU != Continue {
        return stU == Stopped, callsU;
      }
      var c, callsC, stC := FlushQueue(consumed, flushFn);
      consumed := c;
      ok := stC != Failed;
      calls := callsU + callsC;
    }
  }

  /** The outcome of the whole sweep when `done` is what the part already swept became. */
  function Glue<C>(done: seq<Entry<C>>, calls: seq<Entry<C>>, r: FlushResult<C>): FlushResult<C> {
    FlushResult(done + r.queue, calls + r.calls, r.status)
  }

  lemma GlueAssoc<C>(done: seq<Entry<C>>, calls: seq<Entry<C>>, marked: Entry<C>, c: seq<Entry<C>>,
                     rest: FlushResult<C>)
    ensures Glue(done, calls, FlushResult([marked] + rest.queue, c + rest.calls, rest.status))
            == Glue(done + [marked], calls + c, rest)
  {
    assert done + ([marked] + rest.queue) == (done + [marked]) + rest.queue;
    assert calls + (c + rest.calls) == (calls + c) + rest.calls;
  }

  lemma GlueStep<C>(q: seq<Entry<C>>, flushFn: Entry<C> -> bool, done: seq<Entry<C>>, calls: seq<Entry<C>>)
    requires |q| > 0
    requires !(q[0].item.StreamChunk? && q[0].item.flushed)
    requires !(q[0].item.StreamChunk? && !flushFn(q[0]))
    ensures var head := q[0];
            var marked := if head.item.StreamChunk? then head.(item := head.item.(flushed := true)) else head;
            var c := if head.item.StreamChunk? then [head] else [];
            Glue(done, calls, Flush(q, flushFn)) == Glue(done + [marked], calls + c, Flush(q[1..], flushFn))
  {
    var head := q[0];
    var marked := if head.item.StreamChunk? then head.(item := head.item.(flushed := true)) else head;
    var c := if head.item.StreamChunk? then [head] else [];
    var rest := Flush(q[1..], flushFn);
    assert Flush(q, flushFn) == FlushResult([marked] + rest.queue, c + rest.calls, rest.status);
    GlueAssoc(done, calls, marked, c, rest);
  }

  /** One queue of the flush sweep, front (newest) to back. */
  method FlushQueue<C>(q: seq<Entry<C>>, flushFn: Entry<C> -> bool)
    returns (out: seq<Entry<C>>, calls: seq<Entry<C>>, status: FlushStatus)
    ensures FlushResult(out, calls, status) == Flush(q, flushFn)
  {
    var done: seq<Entry<C>> := [];
    calls := [];
    var i := 0;
    assert q[0..] == q;
    while i < |q|
      invariant 0 <= i <= |q| && |done| == i
      invariant Flush(q, flushFn) == Glue(done, calls, Flush(q[i..], flushFn))
    {
      var e := q[i];
      assert q[i..][0] == e && q[i..][1..] == q[i + 1..];
      if e.item.StreamChunk? && e.item.flushed {
        return done + q[i..], calls, Stopped;
      }
      if e.item.StreamChunk? && !flushFn(e) {
        return done + q[i..], calls + [e], Failed;
      }
      GlueStep(q[i..], flushFn, done, calls);
      if e.item.StreamChunk? {
        done := done + [e.(item := e.item.(flushed := true))];
        calls := calls + [e];
      } else {
        done := done + [e];
      }
      i := i + 1;
    }
    assert done + [] == done && calls + [] == calls;
    return done, calls, Continue;
  }
}
