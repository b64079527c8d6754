// Distribution helpers of the storage table: which virtual node (vnode) a row
// belongs to, the check that the vnode is owned by this table instance, the
// fallback distribution of singleton tables, and the collection of a stream of
// rows into one data chunk of bounded size.
// `VirtualNode::compute_row` and `VirtualNode::compute_chunk` (hashes of the
// distribution key) are two function parameters.

module StorageTable {
  import opened Bytes

  /** `VirtualNode::COUNT`. */
  const VNODE_COUNT: nat := 256
  /** For tables without distribution (singletons) every row is in vnode 0. */
  const DEFAULT_VNODE: nat := 0

  type Vnode = x: nat | x < VNODE_COUNT
  type Bitmap = seq<bool>

  /** `Bitmap::is_set`; an index outside the bitmap counts as not set. */
  predicate IsSet(vnodes: Bitmap, vnode: Vnode) {
    vnode < |vnodes| && vnodes[vnode]
  }

  datatype Distribution = Distribution(distKeyInPkIndices: seq<nat>, vnodes: Bitmap)

  /** A bitmap over all vnodes in which only the default vnode is set. */
  function FallbackVnodes(): (r: Bitmap)
    ensures |r| == VNODE_COUNT
    ensures forall v: Vnode :: IsSet(r, v) <==> v == DEFAULT_VNODE
  {
    seq(VNODE_COUNT, i => i == DEFAULT_VNODE)
  }

  /** The distribution of singleton tables: no distribution key, only the default vnode. */
  function Fallback(): (d: Distribution)
    ensures d.distKeyInPkIndices == []
    ensures |d.vnodes| == VNODE_COUNT
    ensures forall v: Vnode :: IsSet(d.vnodes, v) <==> v == DEFAULT_VNODE
  {
    Distribution([], FallbackVnodes())
  }

  /** The distribution that owns every vnode. */
  function AllVnodes(distKeyInPkIndices: seq<nat>): (d: Distribution)
    ensures d.distKeyInPkIndices == distKeyInPkIndices
    ensures forall v: Vnode :: IsSet(d.vnodes, v)
  {
    Distribution(distKeyInPkIndices, seq(VNODE_COUNT, i => true))
  }

  /** `compute_vnode`: `None` stands for the panic of `check_vnode_is_set`. */
  function ComputeVnode<R>(row: R, indices: seq<nat>, vnodes: Bitmap,
                           computeRow: (R, seq<nat>) -> Vnode): (r: Option<Vnode>)
    ensures indices == [] ==> r == Some(DEFAULT_VNODE)
    ensures indices != [] ==>
      (r.Some? <==> IsSet(vnodes, computeRow(row, indices)))
      && (r.Some? ==> r.value == computeRow(row, indices))
  {
    if indices == [] then Some(DEFAULT_VNODE)
    else
      var vnode := computeRow(row, indices);
      if IsSet(vnodes, vnode) then Some(vnode) else None
  }

  /** Every vnode `compute_vnode` hands out is owned by the table, or is the default vnode of a
      table without a distribution key. */
  lemma ComputeVnodeOwned<R>(row: R, indices: seq<nat>, vnodes: Bitmap,
                             computeRow: (R, seq<nat>) -> Vnode)
    requires ComputeVnode(row, indices, vnodes, computeRow).Some?
    ensures var v := ComputeVnode(row, indices, vnodes, computeRow).value;
            IsSet(vnodes, v) || (indices == [] && v == DEFAULT_VNODE)
  {
  }

  /** The distribution key's positions in the row: `pk_indices[i]` for each `i`. */
  function MapThrough(distKeyInPkIndices: seq<nat>, pkIndices: seq<nat>): (r: seq<nat>)
    requires forall i :: 0 <= i < |distKeyInPkIndices| ==> distKeyInPkIndices[i] < |pkIndices|
    ensures |r| == |distKeyInPkIndices|
    ensures forall i :: 0 <= i < |r| ==> r[i] == pkIndices[distKeyInPkIndices[i]]
  {
    seq(|distKeyInPkIndices|, i requires 0 <= i < |distKeyInPkIndices| => pkIndices[distKeyInPkIndices[i]])
  }

  /** Whether every visible slot's vnode is owned. */
  predicate VisibleOwned(vs: seq<Vnode>, vis: seq<bool>, vnodes: Bitmap)
    requires |vis| == |vs|
  {
    forall i :: 0 <= i < |vs| && vis[i] ==> IsSet(vnodes, vs[i])
  }

  /** `compute_chunk_vnode` over a chunk's rows (all its slots) and visibility, with
      `VirtualNode::compute_chunk` as the parameter `computeChunk`; `None` stands for the panic
      of `zip_eq_fast` on a length mismatch and for that of `check_vnode_is_set` on a visible
      slot whose vnode is not owned. */
  function ComputeChunkVnode<R>(rows: seq<R>, vis: seq<bool>, distKeyInPkIndices: seq<nat>,
                                pkIndices: seq<nat>, vnodes: Bitmap,
                                computeChunk: (seq<R>, seq<nat>) -> seq<Vnode>): (r: Option<seq<Vnode>>)
    requires |vis| == |rows|
    requires forall i :: 0 <= i < |distKeyInPkIndices| ==> distKeyInPkIndices[i] < |pkIndices|
    ensures r.Some? ==> |r.value| == |rows|
    ensures distKeyInPkIndices == [] ==> r.Some? && forall i :: 0 <= i < |rows| ==> r.value[i] == DEFAULT_VNODE
    ensures distKeyInPkIndices != [] ==>
      var vs := computeChunk(rows, MapThrough(distKeyInPkIndices, pkIndices));
      (r.Some? <==> |vs| == |rows| && VisibleOwned(vs, vis, vnodes))
      && (r.Some? ==> r.value == vs)
  {
    if distKeyInPkIndices == [] then Some(seq(|rows|, i => DEFAULT_VNODE))
    else
      var vs := computeChunk(rows, MapThrough(distKeyInPkIndices, pkIndices));
      if |vs| != |vis| then None
      else if VisibleOwned(vs, vis, vnodes) then Some(vs)
      else None
  }

  /** `compute_chunk` hashes each row of the chunk as `compute_row` does. */
  predicate ChunkHashesRows<R>(rows: seq<R>, indices: seq<nat>,
                               computeChunk: (seq<R>, seq<nat>) -> seq<Vnode>,
                               computeRow: (R, seq<nat>) -> Vnode)
  {
    |computeChunk(rows, indices)| == |rows|
    && forall j :: 0 <= j < |rows| ==> computeChunk(rows, indices)[j] == computeRow(rows[j], indices)
  }

  /** When `compute_chunk` agrees with `compute_row`, the chunk's vnodes agree with
      `compute_vnode` on every visible row. */
  lemma ChunkVnodeAgreesWithRow<R>(rows: seq<R>, vis: seq<bool>, distKeyInPkIndices: seq<nat>,
                                   pkIndices: seq<nat>, vnodes: Bitmap,
                                   computeChunk: (seq<R>, seq<nat>) -> seq<Vnode>,
                                   computeRow: (R, seq<nat>) -> Vnode, i: nat)
    requires |vis| == |rows| && i < |rows| && vis[i]
    requires forall j :: 0 <= j < |distKeyInPkIndices| ==> distKeyInPkIndices[j] < |pkIndices|
    requires ChunkHashesRows(rows, MapThrough(distKeyInPkIndices, pkIndices), computeChunk, computeRow)
    requires ComputeChunkVnode(rows, vis, distKeyInPkIndices, pkIndices, vnodes, computeChunk).Some?
    ensures ComputeVnode(rows[i], MapThrough(distKeyInPkIndices, pkIndices), vnodes, computeRow)
            == Some(ComputeChunkVnode(rows, vis, distKeyInPkIndices, pkIndices, vnodes, computeChunk).value[i])
  {
  }

  /** When `compute_chunk` agrees with `compute_row`, the chunk panics exactly when
      `compute_vnode` would panic on one of its visible rows. */
  lemma ChunkPanicsExactlyWhenRowDoes<R>(rows: seq<R>, vis: seq<bool>, distKeyInPkIndices: seq<nat>,
                                         pkIndices: seq<nat>, vnodes: Bitmap,
                                         computeChunk: (seq<R>, seq<nat>) -> seq<Vnode>,
                                         computeRow: (R, seq<nat>) -> Vnode)
    requires |vis| == |rows|
    requires forall j :: 0 <= j < |distKeyInPkIndices| ==> distKeyInPkIndices[j] < |pkIndices|
    requires ChunkHashesRows(rows, MapThrough(distKeyInPkIndices, pkIndices), computeChunk, computeRow)
    ensures ComputeChunkVnode(rows, vis, distKeyInPkIndices, pkIndices, vnodes, computeChunk).None?
            <==> exists i :: 0 <= i < |rows| && vis[i]
                   && ComputeVnode(rows[i], MapThrough(distKeyInPkIndices, pkIndices), vnodes, computeRow).None?
  {
    var indices := MapThrough(distKeyInPkIndices, pkIndices);
    if ComputeChunkVnode(rows, vis, distKeyInPkIndices, pkIndices, vnodes, computeChunk).None? {
      var vs := computeChunk(rows, indices);
      var i :| 0 <= i < |vs| && vis[i] && !IsSet(vnodes, vs[i]);
      assert ComputeVnode(rows[i], indices, vnodes, computeRow).None?;
    }
  }

  // ---------------------------------------------------------------------
  // `collect_data_chunk`

  /** What the row stream yields next: a row or an error; its end is the end of the sequence. */
  datatype StreamItem<R, E> = Row(row: R) | Error(error: E)

  datatype CollectResult<R, E> = Collected(chunk: Option<seq<R>>) | Failed(error: E)

  /** The number of rows at the head of the stream, up to `limit`. */
  function LeadingRows<R, E>(stream: seq<StreamItem<R, E>>, limit: nat): (k: nat)
    ensures k <= limit && k <= |stream|
    ensures forall i :: 0 <= i < k ==> stream[i].Row?
    ensures k < limit && k < |stream| ==> stream[k].Error?
  {
    if limit == 0 || |stream| == 0 || stream[0].Error? then 0
    else 1 + LeadingRows(stream[1..], limit - 1)
  }

  function Rows<R, E>(items: seq<StreamItem<R, E>>): (r: seq<R>)
    requires forall i :: 0 <= i < |items| ==> items[i].Row?
    ensures |r| == |items|
    ensures forall i :: 0 <= i < |items| ==> r[i] == items[i].row
  {
    seq(|items|, i requires 0 <= i < |items| => items[i].row)
  }

  /** The limit of a read: `chunk_size`, or `usize::MAX` when there is none. */
  function Limit(chunkSize: Option<nat>): nat {
    if chunkSize.Some? then chunkSize.value else U64_MAX
  }

  /** The outcome of `collect_data_chunk` and what is left of the stream afterwards. */
  function Collect<R, E>(stream: seq<StreamItem<R, E>>, chunkSize: Option<nat>): (r: (CollectResult<R, E>, seq<StreamItem<R, E>>))
  {
    var k := LeadingRows(stream, Limit(chunkSize));
    if k < Limit(chunkSize) && k < |stream| then (Failed(stream[k].error), stream[k + 1..])
    else if k == 0 then (Collected(None), stream[k..])
    else (Collected(Some(Rows(stream[..k]))), stream[k..])
  }

  /** At most `chunk_size` rows are read; the chunk holds exactly the rows read, in order; no chunk
      comes back when no row was read; an error in the stream is passed on. */
  lemma CollectFacts<R, E>(stream: seq<StreamItem<R, E>>, chunkSize: Option<nat>)
    ensures var (res, rest) := Collect(stream, chunkSize);
            (res.Collected? && res.chunk.Some? ==>
               0 < |res.chunk.value| <= Limit(chunkSize)
               && stream == (seq(|res.chunk.value|, i requires 0 <= i < |res.chunk.value| => Row(res.chunk.value[i]))) + rest)
            && (res.Collected? && res.chunk.None? ==> rest == stream && (stream == [] || Limit(chunkSize) == 0))
            && (res.Failed? ==> exists k :: 0 <= k < |stream| && stream[k] == Error(res.error) && rest == stream[k + 1..])
  {
    var k := LeadingRows(stream, Limit(chunkSize));
    var (res, rest) := Collect(stream, chunkSize);
    if res.Collected? && res.chunk.Some? {
      var c := res.chunk.value;
      assert stream[..k] + stream[k..] == stream;
      assert seq(|c|, i requires 0 <= i < |c| => Row(c[i])) == stream[..k];
    }
  }

  /** Pulls rows from the stream until `chunk_size` rows were read, the stream ends, or it yields
      an error. */
  method CollectDataChunk<R, E>(stream: seq<StreamItem<R, E>>, chunkSize: Option<nat>)
    returns (res: CollectResult<R, E>, rest: seq<StreamItem<R, E>>)
    ensures (res, rest) == Collect(stream, chunkSize)
  {
    var limit := Limit(chunkSize);
    ghost var k := LeadingRows(stream, limit);
    var rows: seq<R> := [];
    var rowCount := 0;
    rest := stream;
    while rowCount < limit
      invariant 0 <= rowCount <= k
      invariant rest == stream[rowCount..]
      invariant rowCount == |rows|
      invariant forall i :: 0 <= i < rowCount ==> stream[i].Row? && rows[i] == stream[i].row
      invariant LeadingRows(rest, limit - rowCount) == k - rowCount
    {
      if |rest| == 0 {
        break;
      }
      var item := rest[0];
      rest := rest[1..];
      if item.Error? {
        assert rowCount == k;
        return Failed(item.error), rest;
      }
      rows := rows + [item.row];
      rowCount := rowCount + 1;
    }
    assert rowCount == k;
    if rowCount == 0 {
      res := Collected(None);
    } else {
      assert rows == Rows(stream[..k]);
      res := Collected(Some(rows));
    }
  }
}
