// The op column of a `StreamChunk`: the four change kinds, their protobuf
// numbers, visibility-based compaction, the copy-on-write op buffer, the text
// form used by tests (op tokens), concatenation and row sorting.
// Columns are modelled as sequences of datums of an abstract type `D`; what an
// array does internally (`Array::compact`, `DataChunk::rechunk`, rendering a
// table) is either modelled on those sequences or a function parameter.

module StreamChunks {
  import opened Bytes
  import Sorting

  /** The change a row carries. Declaration order is the order `#[derive(Ord)]` gives. */
  datatype Op = Insert | Delete | UpdateDelete | UpdateInsert

  function OpRank(op: Op): nat {
    match op
    case Insert => 0
    case Delete => 1
    case UpdateDelete => 2
    case UpdateInsert => 3
  }

  // ---------------------------------------------------------------------
  // Protobuf numbers (`PbOp`)

  const PB_OP_UNSPECIFIED: int := 0
  const PB_OP_INSERT: int := 1
  const PB_OP_DELETE: int := 2
  const PB_OP_UPDATE_INSERT: int := 3
  const PB_OP_UPDATE_DELETE: int := 4

  /** `NoSuchOpType` is the error for an unknown number; `UnspecifiedOp` stands for the
      `unreachable!()` panic on `PbOp::Unspecified`. */
  datatype OpError = NoSuchOpType | UnspecifiedOp

  datatype Result<T> = Ok(value: T) | Err(error: OpError)

  function ToProtobuf(op: Op): (r: int)
    ensures PB_OP_INSERT <= r <= PB_OP_UPDATE_DELETE
  {
    match op
    case Insert => PB_OP_INSERT
    case Delete => PB_OP_DELETE
    case UpdateInsert => PB_OP_UPDATE_INSERT
    case UpdateDelete => PB_OP_UPDATE_DELETE
  }

  function FromProtobuf(prost: int): (r: Result<Op>)
    ensures r.Ok? <==> PB_OP_INSERT <= prost <= PB_OP_UPDATE_DELETE
    ensures r == Err(UnspecifiedOp) <==> prost == PB_OP_UNSPECIFIED
  {
    if prost == PB_OP_INSERT then Ok(Insert)
    else if prost == PB_OP_DELETE then Ok(Delete)
    else if prost == PB_OP_UPDATE_INSERT then Ok(UpdateInsert)
    else if prost == PB_OP_UPDATE_DELETE then Ok(UpdateDelete)
    else if prost == PB_OP_UNSPECIFIED then Err(UnspecifiedOp)
    else Err(NoSuchOpType)
  }

  /** Every op survives the trip through its protobuf number. */
  lemma OpProtobufRoundTrip(op: Op)
    ensures FromProtobuf(ToProtobuf(op)) == Ok(op)
  {
  }

  /** And every number that decodes is the number of the op it decodes to. */
  lemma ProtobufOpRoundTrip(prost: int)
    requires FromProtobuf(prost).Ok?
    ensures ToProtobuf(FromProtobuf(prost).value) == prost
  {
  }

  /** The op column of `StreamChunk::from_protobuf`: the first number that does not decode
      aborts the conversion with its error. */
  method OpsFromProtobuf(prost: seq<int>) returns (r: Result<seq<Op>>)
    ensures r.Ok? <==> forall i :: 0 <= i < |prost| ==> FromProtobuf(prost[i]).Ok?
    ensures r.Ok? ==> |r.value| == |prost| && forall i :: 0 <= i < |prost| ==> FromProtobuf(prost[i]) == Ok(r.value[i])
    ensures r.Err? ==> exists i :: 0 <= i < |prost| && FromProtobuf(prost[i]) == Err(r.error)
                         && forall k :: 0 <= k < i ==> FromProtobuf(prost[k]).Ok?
  {
    var ops: seq<Op> := [];
    for i := 0 to |prost|
      invariant |ops| == i
      invariant forall k :: 0 <= k < i ==> FromProtobuf(prost[k]) == Ok(ops[k])
    {
      var op := FromProtobuf(prost[i]);
      if op.Err? {
        return Err(op.error);
      }
      ops := ops + [op.value];
    }
    r := Ok(ops);
  }

  // ---------------------------------------------------------------------
  // Chunks

  /** The visibility of a data chunk: a bitmap, or "all of the first `len` rows". */
  datatype Vis = Bitmap(bits: seq<bool>) | Compact(len: nat)

  datatype DataChunk<D> = DataChunk(columns: seq<seq<D>>, vis: Vis)

  datatype StreamChunk<D> = StreamChunk(ops: seq<Op>, data: DataChunk<D>)

  /** The number of set bits, counted front to back as the source's fold does. */
  function Popcount(bits: seq<bool>): (r: nat)
    ensures r <= |bits|
  {
    if |bits| == 0 then 0
    else Popcount(bits[..|bits| - 1]) + (if bits[|bits| - 1] then 1 else 0)
  }

  /** The number of row slots. */
  function Capacity(vis: Vis): nat {
    match vis
    case Bitmap(bits) => |bits|
    case Compact(len) => len
  }

  /** The number of visible rows. */
  function Cardinality(vis: Vis): (r: nat)
    ensures r <= Capacity(vis)
  {
    match vis
    case Bitmap(bits) => Popcount(bits)
    case Compact(len) => len
  }

  /** `Vis::into_visibility`: only a bitmap is a visibility. */
  function IntoVisibility(vis: Vis): Option<seq<bool>> {
    match vis
    case Bitmap(bits) => Some(bits)
    case Compact(_) => None
  }

  predicate ColumnsOfLength<D>(columns: seq<seq<D>>, n: nat) {
    forall j :: 0 <= j < |columns| ==> |columns[j]| == n
  }

  /** `valid`: the visibility and every column have exactly one slot per op. */
  predicate Valid<D>(c: StreamChunk<D>) {
    Capacity(c.data.vis) == |c.ops| && ColumnsOfLength(c.data.columns, |c.ops|)
  }

  /** `StreamChunk::new`: every column must have one entry per op; without a bitmap all rows
      are visible. */
  function New<D>(ops: seq<Op>, columns: seq<seq<D>>, visibility: Option<seq<bool>>): (c: StreamChunk<D>)
    requires ColumnsOfLength(columns, |ops|)
    ensures c.ops == ops && c.data.columns == columns
    ensures visibility.None? ==> Cardinality(c.data.vis) == |ops|
  {
    var vis := match visibility
      case Some(b) => Bitmap(b)
      case None => Compact(|ops|);
    StreamChunk(ops, DataChunk(columns, vis))
  }

  /** A new chunk is valid exactly when it has no bitmap or a bitmap of one bit per op. */
  lemma NewValid<D>(ops: seq<Op>, columns: seq<seq<D>>, visibility: Option<seq<bool>>)
    requires ColumnsOfLength(columns, |ops|)
    ensures Valid(New(ops, columns, visibility)) <==> visibility.None? || |visibility.value| == |ops|
  {
  }

  /** `StreamChunk::from_parts`. */
  function FromParts<D>(ops: seq<Op>, data: DataChunk<D>): (c: StreamChunk<D>)
    requires ColumnsOfLength(data.columns, |ops|)
    ensures c.ops == ops && c.data.columns == data.columns
  {
    New(ops, data.columns, IntoVisibility(data.vis))
  }

  /** Taking a valid chunk apart and putting it back together gives the same chunk. */
  lemma FromPartsIntoParts<D>(c: StreamChunk<D>)
    requires Valid(c)
    ensures FromParts(c.ops, c.data) == c
  {
  }

  /** `From<DataChunk>`: one `Insert` per row slot, the data unchanged. */
  function FromDataChunk<D>(data: DataChunk<D>): (c: StreamChunk<D>)
    requires ColumnsOfLength(data.columns, Capacity(data.vis))
    ensures Valid(c) && c.data == data
    ensures |c.ops| == Capacity(data.vis)
    ensures forall i :: 0 <= i < |c.ops| ==> c.ops[i] == Insert
  {
    FromParts(seq(Capacity(data.vis), i => Insert), data)
  }

  // ---------------------------------------------------------------------
  // Rows

  function RowAt<D>(columns: seq<seq<D>>, i: nat): (r: seq<D>)
    requires forall j :: 0 <= j < |columns| ==> i < |columns[j]|
    ensures |r| == |columns|
  {
    seq(|columns|, j requires 0 <= j < |columns| => columns[j][i])
  }

  /** Every row slot as an (op, values) pair. */
  function OpRows<D>(ops: seq<Op>, columns: seq<seq<D>>): (r: seq<(Op, seq<D>)>)
    requires ColumnsOfLength(columns, |ops|)
    ensures |r| == |ops|
  {
    seq(|ops|, i requires 0 <= i < |ops| => (ops[i], RowAt(columns, i)))
  }

  predicate RowsOfWidth<D>(rows: seq<(Op, seq<D>)>, width: nat) {
    forall i :: 0 <= i < |rows| ==> |rows[i].1| == width
  }

  /** The chunk `from_rows` builds: one op and one entry per column for every row. */
  function Assemble<D>(rows: seq<(Op, seq<D>)>, width: nat): (c: StreamChunk<D>)
    requires RowsOfWidth(rows, width)
    ensures Valid(c) && |c.data.columns| == width && |c.ops| == |rows|
  {
    New(seq(|rows|, i requires 0 <= i < |rows| => rows[i].0),
        seq(width, j requires 0 <= j < width => seq(|rows|, i requires 0 <= i < |rows| => rows[i].1[j])),
        None)
  }

  /** Reading back the rows of an assembled chunk gives the rows it was built from. */
  lemma AssembleRoundTrip<D>(rows: seq<(Op, seq<D>)>, width: nat)
    requires RowsOfWidth(rows, width)
    ensures var c := Assemble(rows, width); OpRows(c.ops, c.data.columns) == rows
  {
    var c := Assemble(rows, width);
    var back := OpRows(c.ops, c.data.columns);
    forall i | 0 <= i < |rows|
      ensures back[i] == rows[i]
    {
      assert RowAt(c.data.columns, i) == rows[i].1;
    }
  }

  /** `from_rows`: pushes each row's op and appends each datum to its column's builder. */
  method FromRows<D>(rows: seq<(Op, seq<D>)>, width: nat) returns (c: StreamChunk<D>)
    requires RowsOfWidth(rows, width)
    ensures c == Assemble(rows, width)
  {
    var builders: seq<seq<D>> := seq(width, j => []);
    var ops: seq<Op> := [];
    for i := 0 to |rows|
      invariant |ops| == i && |builders| == width
      invariant forall k :: 0 <= k < i ==> ops[k] == rows[k].0
      invariant forall j :: 0 <= j < width ==> builders[j] == seq(i, k requires 0 <= k < i => rows[k].1[j])
    {
      ops := ops + [rows[i].0];
      var row := rows[i].1;
      for j := 0 to width
        invariant |builders| == width
        invariant forall m :: 0 <= m < j ==> builders[m] == seq(i + 1, k requires 0 <= k < i + 1 => rows[k].1[m])
        invariant forall m :: j <= m < width ==> builders[m] == seq(i, k requires 0 <= k < i => rows[k].1[m])
      {
        builders := builders[j := builders[j] + [row[j]]];
      }
    }
    c := New(ops, builders, None);
  }

  // ---------------------------------------------------------------------
  // `compact`

  /** The elements at the set positions of `bits`, in order. */
  function Filter<T>(s: seq<T>, bits: seq<bool>): (r: seq<T>)
    requires |bits| == |s|
    ensures |r| == Popcount(bits)
  {
    if |s| == 0 then []
    else
      Filter(s[..|s| - 1], bits[..|bits| - 1]) + (if bits[|bits| - 1] then [s[|s| - 1]] else [])
  }

  function FilterColumns<D>(columns: seq<seq<D>>, bits: seq<bool>): (r: seq<seq<D>>)
    requires ColumnsOfLength(columns, |bits|)
    ensures |r| == |columns| && ColumnsOfLength(r, Popcount(bits))
  {
    seq(|columns|, j requires 0 <= j < |columns| => Filter(columns[j], bits))
  }

  /** What `compact` returns: a chunk without a bitmap is returned as is; otherwise only the
      visible rows are kept and all of them are visible. */
  function CompactSpec<D>(c: StreamChunk<D>): (r: StreamChunk<D>)
    requires Valid(c)
  {
    match c.data.vis
    case Compact(_) => c
    case Bitmap(bits) => New(Filter(c.ops, bits), FilterColumns(c.data.columns, bits), None)
  }

  /** The `fold` counting the visible slots. */
  method CountVisible(bits: seq<bool>) returns (cardinality: nat)
    ensures cardinality == Popcount(bits)
  {
    cardinality := 0;
    for i := 0 to |bits|
      invariant cardinality == Popcount(bits[..i])
    {
      assert bits[..i + 1][..i] == bits[..i];
      if bits[i] {
        cardinality := cardinality + 1;
      }
    }
    assert bits[..|bits|] == bits;
  }

  /** The `iter_ones` loop pushing the op of every visible slot. */
  method GatherVisibleOps(ops: seq<Op>, bits: seq<bool>) returns (newOps: seq<Op>)
    requires |ops| == |bits|
    ensures newOps == Filter(ops, bits)
  {
    newOps := [];
    for idx := 0 to |bits|
      invariant newOps == Filter(ops[..idx], bits[..idx])
    {
      assert ops[..idx + 1][..idx] == ops[..idx];
      assert bits[..idx + 1][..idx] == bits[..idx];
      if bits[idx] {
        newOps := newOps + [ops[idx]];
      }
    }
    assert ops[..|bits|] == ops && bits[..|bits|] == bits;
  }

  method CompactChunk<D>(c: StreamChunk<D>) returns (r: StreamChunk<D>)
    requires Valid(c)
    ensures r == CompactSpec(c)
  {
    if c.data.vis.Compact? {
      return c;
    }
    var bits := c.data.vis.bits;
    var cardinality := CountVisible(bits);
    var columns := FilterColumns(c.data.columns, bits);
    var newOps := GatherVisibleOps(c.ops, bits);
    assert |newOps| == cardinality;
    r := New(newOps, columns, None);
  }

  /** The compacted chunk is valid, fully visible, and has as many slots as the input had
      visible rows. */
  lemma CompactValid<D>(c: StreamChunk<D>)
    requires Valid(c)
    ensures var r := CompactSpec(c);
            Valid(r) && r.data.vis.Compact? && Capacity(r.data.vis) == Cardinality(c.data.vis)
            && Cardinality(r.data.vis) == Cardinality(c.data.vis)
  {
  }

  lemma CompactIdempotent<D>(c: StreamChunk<D>)
    requires Valid(c)
    ensures CompactSpec(CompactSpec(c)) == CompactSpec(c)
  {
    CompactValid(c);
  }

  /** With every bit set nothing is dropped. */
  lemma {:induction false} FilterAllVisible<T>(s: seq<T>, bits: seq<bool>)
    requires |bits| == |s|
    requires forall i :: 0 <= i < |bits| ==> bits[i]
    ensures Filter(s, bits) == s
  {
    if |s| > 0 {
      FilterAllVisible(s[..|s| - 1], bits[..|bits| - 1]);
    }
  }

  /** Filtering splits over concatenation. */
  lemma {:induction false} FilterAppend<T>(s: seq<T>, bits: seq<bool>, t: seq<T>, more: seq<bool>)
    requires |bits| == |s| && |more| == |t|
    ensures Filter(s + t, bits + more) == Filter(s, bits) + Filter(t, more)
    decreases |t|
  {
    if |t| > 0 {
      var m := |t| - 1;
      assert (s + t)[..|s + t| - 1] == s + t[..m];
      assert (bits + more)[..|bits + more| - 1] == bits + more[..m];
      assert (s + t)[|s + t| - 1] == t[m] && (bits + more)[|bits + more| - 1] == more[m];
      FilterAppend(s, bits, t[..m], more[..m]);
    } else {
      assert s + t == s && bits + more == bits;
    }
  }

  function TruncateColumns<D>(columns: seq<seq<D>>, n: nat): (r: seq<seq<D>>)
    requires forall j :: 0 <= j < |columns| ==> n <= |columns[j]|
    ensures |r| == |columns| && ColumnsOfLength(r, n)
  {
    seq(|columns|, j requires 0 <= j < |columns| => columns[j][..n])
  }

  lemma OpRowsPrefix<D>(ops: seq<Op>, columns: seq<seq<D>>, m: nat)
    requires ColumnsOfLength(columns, |ops|) && m <= |ops|
    ensures OpRows(ops, columns)[..m] == OpRows(ops[..m], TruncateColumns(columns, m))
  {
    var t := TruncateColumns(columns, m);
    forall i | 0 <= i < m
      ensures OpRows(ops, columns)[i] == OpRows(ops[..m], t)[i]
    {
      assert RowAt(columns, i) == RowAt(t, i);
    }
  }

  /** Filtering every column of a row-aligned table keeps the ops and the values aligned. */
  lemma {:induction false} FilterOpRows<D>(ops: seq<Op>, columns: seq<seq<D>>, bits: seq<bool>)
    requires |bits| == |ops| && ColumnsOfLength(columns, |ops|)
    ensures Filter(OpRows(ops, columns), bits) == OpRows(Filter(ops, bits), FilterColumns(columns, bits))
    decreases |ops|
  {
    var rows := OpRows(ops, columns);
    var filtered := FilterColumns(columns, bits);
    if |ops| > 0 {
      var m := |ops| - 1;
      var t := TruncateColumns(columns, m);
      OpRowsPrefix(ops, columns, m);
      FilterOpRows(ops[..m], t, bits[..m]);
      var shorter := FilterColumns(t, bits[..m]);
      forall j | 0 <= j < |columns|
        ensures filtered[j] == shorter[j] + (if bits[m] then [columns[j][m]] else [])
      {
        assert columns[j][..m] == t[j];
      }
      var lhs := Filter(rows, bits);
      var rhs := OpRows(Filter(ops, bits), filtered);
      var base := OpRows(Filter(ops[..m], bits[..m]), shorter);
      assert lhs == base + (if bits[m] then [rows[m]] else []) by {
        assert rows[..m] == OpRows(ops[..m], t);
      }
      assert |lhs| == |rhs|;
      forall i | 0 <= i < |rhs|
        ensures lhs[i] == rhs[i]
      {
        if i < |base| {
          assert lhs[i] == base[i];
          assert RowAt(filtered, i) == RowAt(shorter, i);
        } else {
          assert bits[m] && i == |base|;
          assert lhs[i] == rows[m];
          assert RowAt(filtered, i) == RowAt(columns, m);
        }
      }
    }
  }

  /** The rows of the compacted chunk are exactly the visible rows of the input, each with its
      own op, in their original order. */
  lemma CompactKeepsVisibleRows<D>(c: StreamChunk<D>)
    requires Valid(c) && c.data.vis.Bitmap?
    ensures var r := CompactSpec(c);
            OpRows(r.ops, r.data.columns) == Filter(OpRows(c.ops, c.data.columns), c.data.vis.bits)
  {
    FilterOpRows(c.ops, c.data.columns, c.data.vis.bits);
  }

  // ---------------------------------------------------------------------
  // `OpsMut`: the ops of a chunk being edited in place

  /** `ArcRef` shares the chunk's op slice; `Mut` owns a private copy. */
  datatype OpsMutState = ArcRef(shared: array<Op>) | Mut(owned: seq<Op>)

  class OpsMut {
    var state: OpsMutState

    /** The ops as they currently read. */
    function Ops(): seq<Op>
      reads this, if state.ArcRef? then {state.shared} else {}
    {
      match state
      case ArcRef(a) => a[..]
      case Mut(v) => v
    }

    constructor (ops: array<Op>)
      ensures state == ArcRef(ops)
      ensures Ops() == ops[..]
    {
      state := ArcRef(ops);
    }

    /** `set`: only slot `n` changes. The first call copies the shared slice; the shared slice
        itself is never written (only `this` is modified). */
    method Set(n: nat, val: Op)
      requires n < |Ops()|
      modifies this
      ensures state.Mut?
      ensures Ops() == old(Ops())[n := val]
    {
      if state.Mut? {
        state := Mut(state.owned[n := val]);
      } else {
        var v := state.shared[..];
        v := v[n := val];
        state := Mut(v);
      }
    }

    /** `From<OpsMut> for Arc<[Op]>`: without any `set` the shared slice comes back as is. */
    method IntoOps() returns (ops: seq<Op>)
      ensures ops == Ops()
      ensures state.ArcRef? ==> ops == state.shared[..]
    {
      match state
      case ArcRef(a) => ops := a[..];
      case Mut(v) => ops := v;
    }
  }

  // ---------------------------------------------------------------------
  // `concat`

  function ConcatOps<D>(chunks: seq<StreamChunk<D>>): seq<Op> {
    if |chunks| == 0 then []
    else ConcatOps(chunks[..|chunks| - 1]) + chunks[|chunks| - 1].ops
  }

  function TotalCapacity<D>(chunks: seq<StreamChunk<D>>): nat {
    if |chunks| == 0 then 0
    else TotalCapacity(chunks[..|chunks| - 1]) + Capacity(chunks[|chunks| - 1].data.vis)
  }

  function DataChunks<D>(chunks: seq<StreamChunk<D>>): (r: seq<DataChunk<D>>)
    ensures |r| == |chunks|
  {
    seq(|chunks|, i requires 0 <= i < |chunks| => chunks[i].data)
  }

  /** `concat` over non-empty input: the ops in input order; the data is the first chunk of
      `DataChunk::rechunk`, which is a parameter. */
  method Concat<D>(chunks: seq<StreamChunk<D>>, rechunk: (seq<DataChunk<D>>, nat) -> DataChunk<D>)
    returns (r: StreamChunk<D>)
    requires |chunks| > 0
    ensures r.ops == ConcatOps(chunks)
    ensures r.data == rechunk(DataChunks(chunks), TotalCapacity(chunks))
  {
    var ops: seq<Op> := [];
    var dataChunks: seq<DataChunk<D>> := [];
    var capacity := 0;
    for i := 0 to |chunks|
      invariant ops == ConcatOps(chunks[..i])
      invariant capacity == TotalCapacity(chunks[..i])
      invariant dataChunks == DataChunks(chunks[..i])
    {
      assert chunks[..i + 1][..i] == chunks[..i];
      capacity := capacity + Capacity(chunks[i].data.vis);
      ops := ops + chunks[i].ops;
      dataChunks := dataChunks + [chunks[i].data];
    }
    assert chunks[..|chunks|] == chunks;
    r := StreamChunk(ops, rechunk(dataChunks, capacity));
  }

  /** Concatenation is associative over splits of the input. */
  lemma {:induction false} ConcatOpsAppend<D>(a: seq<StreamChunk<D>>, b: seq<StreamChunk<D>>)
    ensures ConcatOps(a + b) == ConcatOps(a) + ConcatOps(b)
    decreases |b|
  {
    if |b| > 0 {
      var m := |b| - 1;
      assert (a + b)[..|a + b| - 1] == a + b[..m];
      assert (a + b)[|a + b| - 1] == b[m];
      ConcatOpsAppend(a, b[..m]);
    } else {
      assert a + b == a;
    }
  }

  /** For valid inputs the concatenated ops have one op per slot of the capacity handed to
      `rechunk`. */
  lemma {:induction false} ConcatOpsLength<D>(chunks: seq<StreamChunk<D>>)
    requires forall i :: 0 <= i < |chunks| ==> Valid(chunks[i])
    ensures |ConcatOps(chunks)| == TotalCapacity(chunks)
  {
    if |chunks| > 0 {
      ConcatOpsLength(chunks[..|chunks| - 1]);
    }
  }

  // ---------------------------------------------------------------------
  // `sort_rows`

  /** The sort key `(op, row)`: ops in declaration order, then the row order `rowLe`. */
  predicate KeyLe<D>(rowLe: (seq<D>, seq<D>) -> bool, a: (Op, seq<D>), b: (Op, seq<D>)) {
    OpRank(a.0) < OpRank(b.0) || (a.0 == b.0 && rowLe(a.1, b.1))
  }

  /** `sort_rows`: `None` stands for the out-of-bounds panic when some slot is not visible (the
      source indexes the visible rows by slot number). A stable sort of fewer than two slot
      numbers never computes a key, so a one-slot chunk is never indexed. */
  function SortRows<D>(c: StreamChunk<D>, rowLe: (seq<D>, seq<D>) -> bool): (r: Option<StreamChunk<D>>)
    requires Valid(c)
    ensures r.None? <==> Capacity(c.data.vis) >= 2 && Cardinality(c.data.vis) < Capacity(c.data.vis)
  {
    if Capacity(c.data.vis) == 0 then Some(c)
    else if Capacity(c.data.vis) >= 2 && Cardinality(c.data.vis) < Capacity(c.data.vis) then None
    else
      var rows := OpRows(c.ops, c.data.columns);
      var sorted := Sorting.InsertionSort(rows, (a, b) => KeyLe(rowLe, a, b));
      PermutationKeepsWidth(rows, sorted, |c.data.columns|);
      Some(Assemble(sorted, |c.data.columns|))
  }

  /** A one-slot chunk sorts to its single op-row, visible or not. */
  lemma SortOneSlot<D>(c: StreamChunk<D>, rowLe: (seq<D>, seq<D>) -> bool)
    requires Valid(c) && Capacity(c.data.vis) == 1
    ensures SortRows(c, rowLe).Some?
    ensures var r := SortRows(c, rowLe).value;
            OpRows(r.ops, r.data.columns) == OpRows(c.ops, c.data.columns) && Cardinality(r.data.vis) == 1
  {
    var rows := OpRows(c.ops, c.data.columns);
    var le := (a, b) => KeyLe(rowLe, a, b);
    var sorted := Sorting.InsertionSort(rows, le);
    assert |sorted| == 1 && sorted[0] in multiset(rows);
    assert sorted == rows;
    PermutationKeepsWidth(rows, sorted, |c.data.columns|);
    AssembleRoundTrip(sorted, |c.data.columns|);
  }

  lemma PermutationKeepsWidth<D>(rows: seq<(Op, seq<D>)>, perm: seq<(Op, seq<D>)>, width: nat)
    requires RowsOfWidth(rows, width) && multiset(perm) == multiset(rows)
    ensures RowsOfWidth(perm, width)
  {
    forall i | 0 <= i < |perm|
      ensures |perm[i].1| == width
    {
      assert perm[i] in multiset(rows);
    }
  }

  /** The sorted chunk holds the same rows (each with its op), in key order; its ops are in
      declaration order of `Op`. */
  lemma SortRowsFacts<D(!new)>(c: StreamChunk<D>, rowLe: (seq<D>, seq<D>) -> bool)
    requires Valid(c) && Capacity(c.data.vis) > 0
    requires Sorting.Total(rowLe)
    requires SortRows(c, rowLe).Some?
    ensures var r := SortRows(c, rowLe).value;
            var rows := OpRows(r.ops, r.data.columns);
            Valid(r)
            && multiset(rows) == multiset(OpRows(c.ops, c.data.columns))
            && Sorting.Sorted(rows, (a, b) => KeyLe(rowLe, a, b))
            && forall i :: 0 < i < |r.ops| ==> OpRank(r.ops[i - 1]) <= OpRank(r.ops[i])
  {
    var le := (a, b) => KeyLe(rowLe, a, b);
    var before := OpRows(c.ops, c.data.columns);
    var sorted := Sorting.InsertionSort(before, le);
    var r := SortRows(c, rowLe).value;
    assert Sorting.Total(le) by {
      forall a: (Op, seq<D>), b: (Op, seq<D>)
        ensures le(a, b) || le(b, a)
      {
        assert rowLe(a.1, b.1) || rowLe(b.1, a.1);
      }
    }
    Sorting.InsertionSortSorted(before, le);
    PermutationKeepsWidth(before, sorted, |c.data.columns|);
    assert r == Assemble(sorted, |c.data.columns|);
    AssembleRoundTrip(sorted, |c.data.columns|);
    forall i | 0 < i < |r.ops|
      ensures OpRank(r.ops[i - 1]) <= OpRank(r.ops[i])
    {
      assert le(sorted[i - 1], sorted[i]);
    }
  }

  // ---------------------------------------------------------------------
  // Text form: op tokens of `to_pretty_string` and `from_pretty`

  function OpToken(op: Op): string {
    match op
    case Insert => "+"
    case Delete => "-"
    case UpdateDelete => "U-"
    case UpdateInsert => "U+"
  }

  /** `None` stands for the "invalid op" panic. */
  function ParseOpToken(t: string): Option<Op> {
    if t == "+" then Some(Insert)
    else if t == "-" then Some(Delete)
    else if t == "U+" then Some(UpdateInsert)
    else if t == "U-" then Some(UpdateDelete)
    else None
  }

  /** The parser reads back what the printer writes, and accepts nothing else. */
  lemma OpTokenRoundTrip(op: Op, t: string)
    ensures ParseOpToken(OpToken(op)) == Some(op)
    ensures ParseOpToken(t) == Some(op) <==> t == OpToken(op)
  {
  }

  /** The visible rows, each with its op. */
  function VisibleOpRows<D>(c: StreamChunk<D>): (r: seq<(Op, seq<D>)>)
    requires Valid(c)
    ensures |r| == Cardinality(c.data.vis)
  {
    match c.data.vis
    case Compact(_) => OpRows(c.ops, c.data.columns)
    case Bitmap(bits) => Filter(OpRows(c.ops, c.data.columns), bits)
  }

  /** The cells of the printed table: the op token, then the row's values. */
  function PrettyRows<D>(c: StreamChunk<D>): (r: seq<(string, seq<D>)>)
    requires Valid(c)
    ensures |r| == Cardinality(c.data.vis)
  {
    var rows := VisibleOpRows(c);
    seq(|rows|, k requires 0 <= k < |rows| => (OpToken(rows[k].0), rows[k].1))
  }

  /** `to_pretty_string`; the table layout (`comfy_table`) is the parameter `render`. */
  function ToPrettyString<D>(c: StreamChunk<D>, render: seq<(string, seq<D>)> -> string): (s: string)
    requires Valid(c)
    ensures Cardinality(c.data.vis) == 0 ==> s == "(empty)"
    ensures Cardinality(c.data.vis) > 0 ==> s == render(PrettyRows(c))
  {
    if Cardinality(c.data.vis) == 0 then "(empty)" else render(PrettyRows(c))
  }

  /** Every op cell of the printed table parses back to the op of its row, and the values are
      the row's. */
  lemma PrettyRowsParse<D>(c: StreamChunk<D>, k: nat)
    requires Valid(c) && k < Cardinality(c.data.vis)
    ensures ParseOpToken(PrettyRows(c)[k].0) == Some(VisibleOpRows(c)[k].0)
    ensures PrettyRows(c)[k].1 == VisibleOpRows(c)[k].1
  {
    OpTokenRoundTrip(VisibleOpRows(c)[k].0, PrettyRows(c)[k].0);
  }

  /** Unicode `White_Space`, what `str::trim_start` strips. */
  predicate IsWhitespace(ch: char) {
    ch == ' ' || ('\t' <= ch <= '\r') || ch == '\U{85}' || ch == '\U{A0}' || ch == '\U{1680}'
    || ('\U{2000}' <= ch <= '\U{200A}') || ch == '\U{2028}' || ch == '\U{2029}' || ch == '\U{202F}'
    || ch == '\U{205F}' || ch == '\U{3000}'
  }

  /** `char::is_ascii_whitespace`: space, tab, line feed, form feed and carriage return. */
  predicate IsAsciiWhitespace(ch: char) {
    ch == ' ' || ch == '\t' || ch == '\n' || ch == '\U{C}' || ch == '\r'
  }

  function TrimStart(s: string): (r: string)
    ensures |r| <= |s| && r == s[|s| - |r|..]
    ensures forall i :: 0 <= i < |s| - |r| ==> IsWhitespace(s[i])
    ensures r == [] || !IsWhitespace(r[0])
  {
    if |s| > 0 && IsWhitespace(s[0]) then TrimStart(s[1..]) else s
  }

  /** The position of the first ASCII whitespace character. */
  function FirstAsciiWhitespace(s: string): (r: Option<nat>)
    ensures r.Some? ==> r.value < |s| && IsAsciiWhitespace(s[r.value])
    ensures r.Some? ==> forall i :: 0 <= i < r.value ==> !IsAsciiWhitespace(s[i])
    ensures r.None? ==> forall i :: 0 <= i < |s| ==> !IsAsciiWhitespace(s[i])
  {
    if |s| == 0 then None
    else if IsAsciiWhitespace(s[0]) then Some(0)
    else match FirstAsciiWhitespace(s[1..])
      case None => None
      case Some(i) => Some(i + 1)
  }

  /** What one body line of `from_pretty` contributes; `MissingOp` and `InvalidOp` stand for
      the two panics. */
  datatype Line = Blank | OpLine(op: Op, row: string) | MissingOp | InvalidOp(token: string)

  function ParseLine(line: string): Line {
    var t := TrimStart(line);
    if t == [] then Blank
    else match FirstAsciiWhitespace(t)
      case None => MissingOp
      case Some(i) =>
        match ParseOpToken(t[..i])
        case None => InvalidOp(t[..i])
        case Some(op) => OpLine(op, t[i + 1..])
  }

  /** A printed line: the op token, a space, the row text. */
  function PrettyLine(op: Op, row: string): string {
    OpToken(op) + " " + row
  }

  /** Op tokens are non-empty and hold no whitespace. */
  lemma TokenChars(op: Op)
    ensures |OpToken(op)| > 0
    ensures forall i :: 0 <= i < |OpToken(op)| ==> !IsWhitespace(OpToken(op)[i]) && !IsAsciiWhitespace(OpToken(op)[i])
  {
  }

  lemma TrimStartNoWhitespace(s: string)
    requires |s| > 0 && !IsWhitespace(s[0])
    ensures TrimStart(s) == s
  {
  }

  /** The first ASCII whitespace is at `i` when `s[i]` is one and none comes before it. */
  lemma FirstAsciiWhitespaceAt(s: string, i: nat)
    requires i < |s| && IsAsciiWhitespace(s[i])
    requires forall j :: 0 <= j < i ==> !IsAsciiWhitespace(s[j])
    ensures FirstAsciiWhitespace(s) == Some(i)
  {
    assert FirstAsciiWhitespace(s).Some?;
  }

  lemma ParsePrettyLine(op: Op, row: string)
    ensures ParseLine(PrettyLine(op, row)) == OpLine(op, row)
  {
    var tok := OpToken(op);
    var line := tok + " " + row;
    TokenChars(op);
    assert forall i :: 0 <= i < |tok| ==> line[i] == tok[i];
    TrimStartNoWhitespace(line);
    assert line[|tok|] == ' ';
    FirstAsciiWhitespaceAt(line, |tok|);
    assert line[..|tok|] == tok;
    assert line[|tok| + 1..] == row;
    OpTokenRoundTrip(op, tok);
  }

  /** The outcome of reading the body of a pretty chunk: the ops and the row text handed on to
      the data chunk parser, or the line that panics. */
  datatype Pretty = Parsed(ops: seq<Op>, rowText: string) | Panic(line: Line)

  /** One more parsed body line: a panic sticks, a blank line is skipped, an op line is taken. */
  function Step(p: Pretty, l: Line): Pretty {
    match p
    case Panic(_) => p
    case Parsed(ops, text) =>
      match l
      case Blank => p
      case OpLine(op, row) => Parsed(ops + [op], text + row)
      case _ => Panic(l)
  }

  /** The parsed body lines taken in order. */
  function Absorb(ls: seq<Line>): (r: Pretty)
    ensures r.Panic? ==> r.line in ls && (r.line.MissingOp? || r.line.InvalidOp?)
  {
    if |ls| == 0 then Parsed([], "")
    else Step(Absorb(ls[..|ls| - 1]), ls[|ls| - 1])
  }

  function Map<A, B>(f: A -> B, xs: seq<A>): (r: seq<B>)
    ensures |r| == |xs| && forall i :: 0 <= i < |xs| ==> r[i] == f(xs[i])
  {
    seq(|xs|, i requires 0 <= i < |xs| => f(xs[i]))
  }

  lemma MapAppend<A, B>(f: A -> B, xs: seq<A>, ys: seq<A>)
    ensures Map(f, xs + ys) == Map(f, xs) + Map(f, ys)
  {
  }

  lemma MapPrefix<A, B>(f: A -> B, xs: seq<A>, k: nat)
    requires k <= |xs|
    ensures Map(f, xs)[..k] == Map(f, xs[..k])
  {
  }

  function ParseBody(lines: seq<string>): (r: Pretty)
    ensures r.Panic? ==> r.line.MissingOp? || r.line.InvalidOp?
  {
    Absorb(Map(ParseLine, lines))
  }

  lemma AbsorbSnoc(ls: seq<Line>, l: Line)
    ensures Absorb(ls + [l]) == Step(Absorb(ls), l)
  {
    assert (ls + [l])[..|ls|] == ls;
  }

  lemma ParseBodySnoc(lines: seq<string>, line: string)
    ensures ParseBody(lines + [line]) == Step(ParseBody(lines), ParseLine(line))
  {
    MapAppend(ParseLine, lines, [line]);
    assert Map(ParseLine, [line]) == [ParseLine(line)];
    AbsorbSnoc(Map(ParseLine, lines), ParseLine(line));
  }

  /** One more line of the body, as the loop over the lines reads it. */
  lemma ParseBodyStep(lines: seq<string>, k: nat)
    requires k < |lines|
    ensures ParseBody(lines[..k + 1]) == Step(ParseBody(lines[..k]), ParseLine(lines[k]))
  {
    assert lines[..k + 1] == lines[..k] + [lines[k]];
    ParseBodySnoc(lines[..k], lines[k]);
  }

  lemma {:induction false} AbsorbPanicSticks(ls: seq<Line>, k: nat)
    requires k <= |ls| && Absorb(ls[..k]).Panic?
    ensures Absorb(ls) == Absorb(ls[..k])
    decreases |ls|
  {
    if k == |ls| {
      assert ls[..k] == ls;
    } else {
      var m := |ls| - 1;
      assert ls[..m][..k] == ls[..k];
      AbsorbPanicSticks(ls[..m], k);
    }
  }

  /** The first line that panics decides the outcome, whatever follows it. */
  lemma PanicSticks(lines: seq<string>, k: nat)
    requires k <= |lines| && ParseBody(lines[..k]).Panic?
    ensures ParseBody(lines) == ParseBody(lines[..k])
  {
    MapPrefix(ParseLine, lines, k);
    AbsorbPanicSticks(Map(ParseLine, lines), k);
  }

  lemma {:induction false} AbsorbBlank(a: seq<Line>, b: seq<Line>)
    ensures Absorb(a + [Blank] + b) == Absorb(a + b)
    decreases |b|
  {
    if |b| == 0 {
      assert a + [Blank] + b == a + [Blank];
      assert a + b == a;
      AbsorbSnoc(a, Blank);
    } else {
      var m := |b| - 1;
      assert a + [Blank] + b == (a + [Blank] + b[..m]) + [b[m]];
      assert a + b == (a + b[..m]) + [b[m]];
      AbsorbSnoc(a + [Blank] + b[..m], b[m]);
      AbsorbSnoc(a + b[..m], b[m]);
      AbsorbBlank(a, b[..m]);
    }
  }

  /** A blank line anywhere in the body changes nothing. */
  lemma BlankLineIgnored(a: seq<string>, blank: string, b: seq<string>)
    requires TrimStart(blank) == []
    ensures ParseBody(a + [blank] + b) == ParseBody(a + b)
  {
    MapAppend(ParseLine, a + [blank], b);
    MapAppend(ParseLine, a, [blank]);
    assert Map(ParseLine, [blank]) == [Blank];
    MapAppend(ParseLine, a, b);
    AbsorbBlank(Map(ParseLine, a), Map(ParseLine, b));
  }

  function Flatten(ss: seq<string>): string {
    if |ss| == 0 then [] else Flatten(ss[..|ss| - 1]) + ss[|ss| - 1]
  }

  /** The lines printed for `ops` with row texts `rows`. */
  function PrettyLines(ops: seq<Op>, rows: seq<string>): (r: seq<string>)
    requires |ops| == |rows|
    ensures |r| == |ops|
    ensures forall i :: 0 <= i < |ops| ==> r[i] == PrettyLine(ops[i], rows[i])
  {
    if |ops| == 0 then []
    else PrettyLines(ops[..|ops| - 1], rows[..|rows| - 1]) + [PrettyLine(ops[|ops| - 1], rows[|rows| - 1])]
  }

  /** Op lines yield their ops, and their row texts in order. */
  lemma {:induction false} AbsorbOpLines(ls: seq<Line>, ops: seq<Op>, rows: seq<string>)
    requires |ls| == |ops| == |rows|
    requires forall i :: 0 <= i < |ls| ==> ls[i] == OpLine(ops[i], rows[i])
    ensures Absorb(ls) == Parsed(ops, Flatten(rows))
    decreases |ls|
  {
    if |ls| > 0 {
      var m := |ls| - 1;
      AbsorbOpLines(ls[..m], ops[..m], rows[..m]);
      assert ops[..m] + [ops[m]] == ops;
    }
  }

  /** Printed lines parse back to their ops, and their row texts are handed on in order. */
  lemma ParsePrettyLines(ops: seq<Op>, rows: seq<string>)
    requires |ops| == |rows|
    ensures ParseBody(PrettyLines(ops, rows)) == Parsed(ops, Flatten(rows))
  {
    var lines := PrettyLines(ops, rows);
    var ls := Map(ParseLine, lines);
    forall i | 0 <= i < |ls|
      ensures ls[i] == OpLine(ops[i], rows[i])
    {
      ParsePrettyLine(ops[i], rows[i]);
    }
    AbsorbOpLines(ls, ops, rows);
  }

  /** `str::split_inclusive('\n')`: pieces ending in a line feed, the last one possibly
      without. */
  function SplitLines(s: string): (r: seq<string>)
    ensures Flatten(r) == s
    decreases |s|
  {
    if |s| == 0 then []
    else
      match FirstLineFeed(s)
      case None => [s]
      case Some(i) =>
        var rest := SplitLines(s[i + 1..]);
        FlattenCons(s[..i + 1], rest);
        assert s[..i + 1] + s[i + 1..] == s;
        [s[..i + 1]] + rest
  }

  function FirstLineFeed(s: string): (r: Option<nat>)
    ensures r.Some? ==> r.value < |s| && s[r.value] == '\n'
    ensures r.Some? ==> forall i :: 0 <= i < r.value ==> s[i] != '\n'
    ensures r.None? ==> forall i :: 0 <= i < |s| ==> s[i] != '\n'
  {
    if |s| == 0 then None
    else if s[0] == '\n' then Some(0)
    else match FirstLineFeed(s[1..])
      case None => None
      case Some(i) => Some(i + 1)
  }

  lemma {:induction false} FlattenCons(x: string, ss: seq<string>)
    ensures Flatten([x] + ss) == x + Flatten(ss)
    decreases |ss|
  {
    if |ss| == 0 {
      assert [x] + ss == [x];
      assert Flatten([x][..0]) == [];
    } else {
      var m := |ss| - 1;
      assert ([x] + ss)[..|ss|] == [x] + ss[..m];
      FlattenCons(x, ss[..m]);
    }
  }

  /** `from_pretty`: the first line is the column-type header; every later non-blank line
      starts with an op token. Without a line feed the whole text is the header of an empty
      chunk. */
  function FromPrettySpec(s: string): Pretty {
    match FirstLineFeed(s)
    case None => Parsed([], s)
    case Some(i) => WithHeader(s[..i], ParseBody(SplitLines(s[i + 1..])))
  }

  /** The header line goes in front of the row text handed on; a panic stays as it is. */
  function WithHeader(header: string, p: Pretty): Pretty {
    match p
    case Panic(_) => p
    case Parsed(ops, text) => Parsed(ops, header + "\n" + text)
  }

  lemma FromPrettyAt(s: string, i: nat, p: Pretty)
    requires FirstLineFeed(s) == Some(i) && p == ParseBody(SplitLines(s[i + 1..]))
    ensures FromPrettySpec(s) == WithHeader(s[..i], p)
  {
  }

  method FromPretty(s: string) returns (r: Pretty)
    ensures r == FromPrettySpec(s)
  {
    var split := FirstLineFeed(s);
    if split.None? {
      return Parsed([], s);
    }
    var i := split.value;
    var header, body := s[..i], s[i + 1..];
    var lines := SplitLines(body);
    var parsed := ParseLines(lines);
    FromPrettyAt(s, i, parsed);
    if parsed.Panic? {
      r := Panic(parsed.line);
    } else {
      r := Parsed(parsed.ops, header + "\n" + parsed.rowText);
    }
  }

  /** The loop of `from_pretty` over the body lines: blank lines are skipped, each other line
      pushes its op and hands its row text on. */
  method ParseLines(lines: seq<string>) returns (r: Pretty)
    ensures r == ParseBody(lines)
  {
    var ops: seq<Op> := [];
    var rowText := "";
    for k := 0 to |lines|
      invariant ParseBody(lines[..k]) == Parsed(ops, rowText)
    {
      ParseBodyStep(lines, k);
      var line := ParseLine(lines[k]);
      if line.MissingOp? || line.InvalidOp? {
        PanicSticks(lines, k + 1);
        return Panic(line);
      }
      if line.OpLine? {
        ops := ops + [line.op];
        rowText := rowText + line.row;
      }
    }
    assert lines[..|lines|] == lines;
    r := Parsed(ops, rowText);
  }

  /** Row texts each ended by a line feed. */
  function Terminated(rows: seq<string>): (r: seq<string>)
    ensures |r| == |rows|
    ensures forall i :: 0 <= i < |rows| ==> r[i] == rows[i] + "\n"
  {
    seq(|rows|, i requires 0 <= i < |rows| => rows[i] + "\n")
  }

  predicate NoLineFeed(s: string) {
    forall k :: 0 <= k < |s| ==> s[k] != '\n'
  }

  /** Lines that each end in their only line feed. */
  predicate TerminatedLine(line: string) {
    |line| > 0 && line[|line| - 1] == '\n' && NoLineFeed(line[..|line| - 1])
  }

  predicate TerminatedLines(lines: seq<string>) {
    forall i :: 0 <= i < |lines| ==> TerminatedLine(lines[i])
  }

  lemma HeaderSplit(header: string, body: string)
    requires NoLineFeed(header)
    ensures var s := header + "\n" + body;
            FirstLineFeed(s) == Some(|header|) && s[..|header|] == header && s[|header| + 1..] == body
  {
    var s := header + "\n" + body;
    assert s[|header|] == '\n';
    assert forall i :: 0 <= i < |header| ==> s[i] == header[i];
  }

  lemma PrettyLineTerminated(op: Op, row: string)
    requires NoLineFeed(row)
    ensures TerminatedLine(PrettyLine(op, row + "\n"))
  {
    var line := PrettyLine(op, row + "\n");
    var tok := OpToken(op);
    assert line[..|line| - 1] == tok + " " + row;
  }

  /** A header followed by printed lines, each ended by a line feed, reads back to the ops it
      was printed from. */
  lemma PrettyRoundTrip(header: string, ops: seq<Op>, rows: seq<string>)
    requires NoLineFeed(header)
    requires |ops| == |rows|
    requires forall i :: 0 <= i < |rows| ==> NoLineFeed(rows[i])
    ensures var text := header + "\n" + Flatten(PrettyLines(ops, Terminated(rows)));
            FromPrettySpec(text).Parsed? && FromPrettySpec(text).ops == ops
  {
    var body := Flatten(PrettyLines(ops, Terminated(rows)));
    var text := header + "\n" + body;
    BodyRoundTrip(ops, rows);
    ParseWithHeader(text, header, body, Parsed(ops, Flatten(Terminated(rows))));
  }

  lemma ParseWithHeader(text: string, header: string, body: string, p: Pretty)
    requires NoLineFeed(header) && text == header + "\n" + body && p == ParseBody(SplitLines(body))
    ensures FromPrettySpec(text) == WithHeader(header, p)
  {
    HeaderSplit(header, body);
    FromPrettyAt(text, |header|, p);
  }

  /** The body printed from `ops` and `rows`, each row ended by a line feed, parses back. */
  lemma BodyRoundTrip(ops: seq<Op>, rows: seq<string>)
    requires |ops| == |rows|
    requires forall i :: 0 <= i < |rows| ==> NoLineFeed(rows[i])
    ensures ParseBody(SplitLines(Flatten(PrettyLines(ops, Terminated(rows))))) == Parsed(ops, Flatten(Terminated(rows)))
  {
    var lines := PrettyLines(ops, Terminated(rows));
    PrettyLinesTerminated(ops, rows);
    SplitTerminatedLines(lines);
    ParsePrettyLines(ops, Terminated(rows));
  }

  lemma PrettyLinesTerminated(ops: seq<Op>, rows: seq<string>)
    requires |ops| == |rows|
    requires forall i :: 0 <= i < |rows| ==> NoLineFeed(rows[i])
    ensures TerminatedLines(PrettyLines(ops, Terminated(rows)))
  {
    var lines := PrettyLines(ops, Terminated(rows));
    forall i | 0 <= i < |lines|
      ensures TerminatedLine(lines[i])
    {
      assert lines[i] == PrettyLine(ops[i], rows[i] + "\n");
      PrettyLineTerminated(ops[i], rows[i]);
    }
  }

  /** Splitting lines that each end in their only line feed gives those lines back. */
  lemma {:induction false} SplitTerminatedLines(lines: seq<string>)
    requires TerminatedLines(lines)
    ensures SplitLines(Flatten(lines)) == lines
    decreases |lines|
  {
    if |lines| > 0 {
      var x := lines[0];
      var rest := lines[1..];
      assert lines == [x] + rest;
      FlattenCons(x, rest);
      var s := Flatten(lines);
      assert s == x + Flatten(rest);
      assert FirstLineFeed(s) == Some(|x| - 1) by {
        assert s[|x| - 1] == '\n';
        assert forall k :: 0 <= k < |x| - 1 ==> s[k] == x[..|x| - 1][k];
      }
      assert s[..|x|] == x;
      assert s[|x|..] == Flatten(rest);
      SplitTerminatedLines(rest);
    }
  }
}
