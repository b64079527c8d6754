// The protobuf source parser's schema and value mapping: how a message
// descriptor becomes relational columns (the kind -> type table, rejection of
// circular references through a trace of visited fields, post-order column
// ids), how a decoded protobuf value becomes a datum, and how the Confluent
// wire header is stripped from a payload.
// A descriptor pool is a map from message names to their fields; a decoded
// message carries, for every field of its descriptor, whether it was present
// and the value `get_field` returns for it (the stored value or the default).

module ProtobufParser {
  import opened Bytes

  datatype Cardinality = Optional | Required | Repeated

  datatype EnumValue = EnumValue(name: string, number: int)

  datatype Kind =
    | KDouble | KFloat | KInt32 | KInt64 | KUint32 | KUint64 | KSint32 | KSint64
    | KFixed32 | KFixed64 | KSfixed32 | KSfixed64 | KBool | KString | KBytes
    | KMessage(message: string)
    | KEnum(values: seq<EnumValue>)

  datatype FieldDesc = FieldDesc(name: string, fullName: string, kind: Kind, cardinality: Cardinality)

  /** A descriptor pool: each message's full name and its fields in declaration order. */
  type Pool = map<string, seq<FieldDesc>>

  predicate FieldOf(pool: Pool, fd: FieldDesc) {
    exists m :: m in pool && fd in pool[m]
  }

  /** Every message a field refers to is in the pool (descriptors always resolve). */
  predicate Closed(pool: Pool) {
    forall m, fd :: m in pool && fd in pool[m] && fd.kind.KMessage? ==> fd.kind.message in pool
  }

  datatype DataType =
    | Boolean | Float32 | Float64 | Int32 | Int64 | Decimal | Varchar | Bytea
    | Struct(fields: seq<DataType>, names: seq<string>)
    | List(elem: DataType)

  datatype Error =
    | CircularReference(trace: seq<string>, identifier: string)
    | NotAnEnum | UnknownEnumIndex(index: int) | MissingRequiredField(field: string) | UnsupportedType
    | PayloadTooShort | BadMagicByte(magic: byte) | MessageIndexNotFirst(messageIndex: byte) | EmptyPayload

  datatype Result<T> = Ok(value: T) | Err(error: Error)

  // ---------------------------------------------------------------------
  // Kind -> type table

  /** The table of `protobuf_type_mapping` for kinds other than messages, as written. */
  function BaseTypeAsWritten(k: Kind): (t: DataType)
    requires !k.KMessage?
    ensures !t.Struct? && !t.List?
    ensures k == KFixed32 ==> t == Int32
    ensures k == KFixed64 ==> t == Int64
  {
    match k
    case KBool => Boolean
    case KDouble => Float64
    case KFloat => Float32
    case KInt32 | KSint32 | KSfixed32 | KFixed32 => Int32
    case KInt64 | KSint64 | KSfixed64 | KFixed64 | KUint32 => Int64
    case KUint64 => Decimal
    case KString => Varchar
    case KEnum(_) => Varchar
    case KBytes => Bytea
  }

  /** The table with the unsigned fixed-width kinds typed like their varint counterparts:
      `fixed32` like `uint32` (Int64), `fixed64` like `uint64` (Decimal). */
  function BaseType(k: Kind): (t: DataType)
    requires !k.KMessage?
    ensures k != KFixed32 && k != KFixed64 ==> t == BaseTypeAsWritten(k)
    ensures !t.Struct? && !t.List?
  {
    if k == KFixed32 then Int64
    else if k == KFixed64 then Decimal
    else BaseTypeAsWritten(k)
  }

  /** Which kind table the type mapping uses: the source's, or the corrected one. */
  datatype Table = AsWritten | Corrected

  function KindType(table: Table, k: Kind): (t: DataType)
    requires !k.KMessage?
    ensures !t.Struct? && !t.List?
  {
    match table
    case AsWritten => BaseTypeAsWritten(k)
    case Corrected => BaseType(k)
  }

  // ---------------------------------------------------------------------
  // Type mapping with loop detection

  /** The entry `detect_loop_and_push` keeps on the trace for a field. */
  function Identifier(fd: FieldDesc): string {
    fd.name + "(" + fd.fullName + ")"
  }

  function AllIds(pool: Pool): set<string> {
    set m, fd | m in pool && fd in pool[m] :: Identifier(fd)
  }

  function TraceSet(trace: seq<string>): set<string> {
    set x | x in trace
  }

  /** How many field identifiers can still be pushed. */
  function Unvisited(pool: Pool, trace: seq<string>): nat {
    |AllIds(pool) - TraceSet(trace)|
  }

  lemma UnvisitedShrinks(pool: Pool, trace: seq<string>, fd: FieldDesc)
    requires FieldOf(pool, fd) && Identifier(fd) !in trace
    ensures Unvisited(pool, trace + [Identifier(fd)]) < Unvisited(pool, trace)
  {
    var id := Identifier(fd);
    var m :| m in pool && fd in pool[m];
    assert id in AllIds(pool);
    var before := AllIds(pool) - TraceSet(trace);
    var after := AllIds(pool) - TraceSet(trace + [id]);
    assert TraceSet(trace + [id]) == TraceSet(trace) + {id};
    assert after == before - {id};
    assert before == after + {id};
  }

  function Names(fields: seq<FieldDesc>): (r: seq<string>)
    ensures |r| == |fields| && forall i :: 0 <= i < |fields| ==> r[i] == fields[i].name
  {
    seq(|fields|, i requires 0 <= i < |fields| => fields[i].name)
  }

  /** `protobuf_type_mapping`: an error if the field is already on the trace, otherwise the
      kind's type (a struct of the fields' types for a message, each mapped with the field
      pushed), wrapped in a list for a repeated field. */
  function TypeMapping(table: Table, pool: Pool, fd: FieldDesc, trace: seq<string>): Result<DataType>
    requires Closed(pool) && FieldOf(pool, fd)
    decreases Unvisited(pool, trace), 0, 0
  {
    var id := Identifier(fd);
    if id in trace then Err(CircularReference(trace, id))
    else
      var base: Result<DataType> :=
        if fd.kind.KMessage? then
          var fields := pool[fd.kind.message];
          UnvisitedShrinks(pool, trace, fd);
          match FieldsMapping(table, pool, fields, trace + [id])
          case Err(e) => Err(e)
          case Ok(ts) => Ok(Struct(ts, Names(fields)))
        else Ok(KindType(table, fd.kind));
      match base
      case Err(e) => Err(e)
      case Ok(t) => Ok(if fd.cardinality == Repeated then List(t) else t)
  }

  /** The fields' types in order, or the first field's error. */
  function FieldsMapping(table: Table, pool: Pool, fields: seq<FieldDesc>, trace: seq<string>): (r: Result<seq<DataType>>)
    requires Closed(pool) && forall f :: f in fields ==> FieldOf(pool, f)
    ensures r.Ok? ==> |r.value| == |fields|
    ensures r.Ok? <==> forall i :: 0 <= i < |fields| ==> TypeMapping(table, pool, fields[i], trace).Ok?
    ensures r.Ok? ==> forall i :: 0 <= i < |fields| ==> TypeMapping(table, pool, fields[i], trace) == Ok(r.value[i])
    decreases Unvisited(pool, trace), 1, |fields|
  {
    if |fields| == 0 then Ok([])
    else
      var n := |fields| - 1;
      match FieldsMapping(table, pool, fields[..n], trace)
      case Err(e) => Err(e)
      case Ok(ts) =>
        match TypeMapping(table, pool, fields[n], trace)
        case Err(e) => Err(e)
        case Ok(t) => Ok(ts + [t])
  }

  lemma {:induction false} FieldsPrefixErr(table: Table, pool: Pool, fields: seq<FieldDesc>, trace: seq<string>, i: nat)
    requires Closed(pool) && forall f :: f in fields ==> FieldOf(pool, f)
    requires i <= |fields| && FieldsMapping(table, pool, fields[..i], trace).Err?
    ensures FieldsMapping(table, pool, fields, trace) == FieldsMapping(table, pool, fields[..i], trace)
    decreases |fields|
  {
    if i < |fields| {
      var n := |fields| - 1;
      assert fields[..n][..i] == fields[..i];
      FieldsPrefixErr(table, pool, fields[..n], trace, i);
    } else {
      assert fields[..i] == fields;
    }
  }

  /** A field already on the trace is a circular reference. */
  lemma RevisitRejected(table: Table, pool: Pool, fd: FieldDesc, trace: seq<string>)
    requires Closed(pool) && FieldOf(pool, fd) && Identifier(fd) in trace
    ensures TypeMapping(table, pool, fd, trace) == Err(CircularReference(trace, Identifier(fd)))
  {
  }

  /** Mapping does not depend on the trace, except for failing: whatever succeeds with a
      trace succeeds, with the same type, with any trace holding fewer identifiers. */
  lemma {:induction false} TraceWeakening(table: Table, pool: Pool, fd: FieldDesc, small: seq<string>, big: seq<string>)
    requires Closed(pool) && FieldOf(pool, fd)
    requires forall x :: x in small ==> x in big
    requires TypeMapping(table, pool, fd, big).Ok?
    ensures TypeMapping(table, pool, fd, small) == TypeMapping(table, pool, fd, big)
    decreases Unvisited(pool, big), 0, 0
  {
    var id := Identifier(fd);
    if fd.kind.KMessage? {
      var fields := pool[fd.kind.message];
      UnvisitedShrinks(pool, big, fd);
      FieldsWeakening(table, pool, fields, small + [id], big + [id]);
    }
  }

  lemma {:induction false} FieldsWeakening(table: Table, pool: Pool, fields: seq<FieldDesc>, small: seq<string>, big: seq<string>)
    requires Closed(pool) && forall f :: f in fields ==> FieldOf(pool, f)
    requires forall x :: x in small ==> x in big
    requires FieldsMapping(table, pool, fields, big).Ok?
    ensures FieldsMapping(table, pool, fields, small) == FieldsMapping(table, pool, fields, big)
    decreases Unvisited(pool, big), 1, |fields|
  {
    if |fields| > 0 {
      var n := |fields| - 1;
      FieldsWeakening(table, pool, fields[..n], small, big);
      TraceWeakening(table, pool, fields[n], small, big);
    }
  }

  /** A message with a field of its own type is refused. */
  lemma SelfReferenceRejected(table: Table, pool: Pool, root: string, k: nat)
    requires Closed(pool) && root in pool && k < |pool[root]|
    requires pool[root][k].kind == KMessage(root)
    ensures FieldsMapping(table, pool, pool[root], []).Err?
  {
    var fd := pool[root][k];
    var id := Identifier(fd);
    assert FieldOf(pool, fd);
    RevisitRejected(table, pool, fd, [id]);
    assert FieldsMapping(table, pool, pool[root], [id]).Err?;
    assert TypeMapping(table, pool, fd, []).Err?;
  }

  /** Two messages that refer to each other are refused. */
  lemma MutualReferenceRejected(table: Table, pool: Pool, a: string, b: string, i: nat, j: nat)
    requires Closed(pool) && a in pool && b in pool && i < |pool[a]| && j < |pool[b]|
    requires pool[a][i].kind == KMessage(b) && pool[b][j].kind == KMessage(a)
    ensures FieldsMapping(table, pool, pool[a], []).Err?
  {
    var f, g := pool[a][i], pool[b][j];
    assert FieldOf(pool, f) && FieldOf(pool, g);
    var idf, idg := Identifier(f), Identifier(g);
    RevisitRejected(table, pool, f, [idf, idg]);
    assert [idf] + [idg] == [idf, idg];
    assert FieldsMapping(table, pool, pool[a], [idf, idg]).Err?;
    assert TypeMapping(table, pool, g, [idf]).Err?;
    assert FieldsMapping(table, pool, pool[b], [idf]).Err?;
    assert TypeMapping(table, pool, f, []).Err?;
  }

  // ---------------------------------------------------------------------
  // The trace stack and the type-mapping recursion

  /** `detect_loop_and_push`. */
  method DetectLoopAndPush(trace: seq<string>, fd: FieldDesc) returns (res: Result<()>, trace': seq<string>)
    ensures res.Err? <==> Identifier(fd) in trace
    ensures res.Err? ==> trace' == trace && res.error == CircularReference(trace, Identifier(fd))
    ensures res.Ok? ==> trace' == trace + [Identifier(fd)]
  {
    var identifier := Identifier(fd);
    var i := 0;
    while i < |trace|
      invariant 0 <= i <= |trace|
      invariant identifier !in trace[..i]
    {
      if trace[i] == identifier {
        return Err(CircularReference(trace, identifier)), trace;
      }
      assert trace[..i + 1] == trace[..i] + [trace[i]];
      i := i + 1;
    }
    assert trace[..i] == trace;
    return Ok(()), trace + [identifier];
  }

  /** `protobuf_type_mapping`: pushes the field, maps the kind (recursing into a message's
      fields), wraps a repeated field's type in a list and pops the field again. */
  method ProtobufTypeMapping(table: Table, pool: Pool, fd: FieldDesc, trace: seq<string>)
    returns (res: Result<DataType>, trace': seq<string>)
    requires Closed(pool) && FieldOf(pool, fd)
    ensures res == TypeMapping(table, pool, fd, trace)
    ensures res.Ok? ==> trace' == trace
    decreases Unvisited(pool, trace), 0
  {
    var pushed;
    pushed, trace' := DetectLoopAndPush(trace, fd);
    if pushed.Err? {
      return Err(pushed.error), trace';
    }
    var t: DataType;
    if fd.kind.KMessage? {
      var fields := pool[fd.kind.message];
      UnvisitedShrinks(pool, trace, fd);
      var ts;
      ts, trace' := MapFields(table, pool, fields, trace');
      if ts.Err? {
        return Err(ts.error), trace';
      }
      t := Struct(ts.value, Names(fields));
    } else {
      t := KindType(table, fd.kind);
    }
    if fd.cardinality == Repeated {
      t := List(t);
    }
    trace' := trace'[..|trace'| - 1];
    res := Ok(t);
  }

  /** The `map`/`collect` over a message's fields inside `protobuf_type_mapping`. */
  method MapFields(table: Table, pool: Pool, fields: seq<FieldDesc>, trace: seq<string>)
    returns (res: Result<seq<DataType>>, trace': seq<string>)
    requires Closed(pool) && forall f :: f in fields ==> FieldOf(pool, f)
    ensures res == FieldsMapping(table, pool, fields, trace)
    ensures res.Ok? ==> trace' == trace
    decreases Unvisited(pool, trace), 1
  {
    var ts: seq<DataType> := [];
    trace' := trace;
    for i := 0 to |fields|
      invariant trace' == trace
      invariant FieldsMapping(table, pool, fields[..i], trace) == Ok(ts)
    {
      var r;
      r, trace' := ProtobufTypeMapping(table, pool, fields[i], trace');
      if r.Err? {
        FirstFieldErr(table, pool, fields, trace, i, ts);
        return Err(r.error), trace';
      }
      FieldsMappingSnoc(table, pool, fields, trace, i, ts, r.value);
      ts := ts + [r.value];
    }
    assert fields[..|fields|] == fields;
    res := Ok(ts);
  }

  // ---------------------------------------------------------------------
  // Column descriptors

  datatype ColumnDesc = ColumnDesc(columnId: int, name: string, columnType: DataType,
                                   fieldDescs: seq<ColumnDesc>, typeName: string)

  function FlattenIds(parts: seq<seq<int>>): seq<int> {
    if |parts| == 0 then [] else FlattenIds(parts[..|parts| - 1]) + parts[|parts| - 1]
  }

  /** Column ids in post-order: the nested columns' ids, then the column's own. */
  function PostOrder(c: ColumnDesc): seq<int> {
    FlattenIds(seq(|c.fieldDescs|, k requires 0 <= k < |c.fieldDescs| => PostOrder(c.fieldDescs[k])))
    + [c.columnId]
  }

  function PostOrderAll(cols: seq<ColumnDesc>): seq<int> {
    FlattenIds(seq(|cols|, k requires 0 <= k < |cols| => PostOrder(cols[k])))
  }

  lemma PostOrderAllAppend(cols: seq<ColumnDesc>, c: ColumnDesc)
    ensures PostOrderAll(cols + [c]) == PostOrderAll(cols) + PostOrder(c)
  {
    var all := cols + [c];
    var parts := seq(|all|, k requires 0 <= k < |all| => PostOrder(all[k]));
    assert parts[..|cols|] == seq(|cols|, k requires 0 <= k < |cols| => PostOrder(cols[k]));
  }

  /** The ids `lo, lo + 1, ..., hi - 1`. */
  function Range(lo: int, hi: int): (r: seq<int>)
    requires lo <= hi
    ensures |r| == hi - lo && forall i :: 0 <= i < |r| ==> r[i] == lo + i
  {
    seq(hi - lo, i => lo + i)
  }

  lemma PostOrderUnfold(c: ColumnDesc)
    ensures PostOrder(c) == PostOrderAll(c.fieldDescs) + [c.columnId]
  {
    var cols := c.fieldDescs;
    assert seq(|c.fieldDescs|, k requires 0 <= k < |c.fieldDescs| => PostOrder(c.fieldDescs[k]))
        == seq(|cols|, k requires 0 <= k < |cols| => PostOrder(cols[k]));
  }

  /** A column numbered after its nested columns continues their range of ids. */
  lemma NumberedLast(descs: seq<ColumnDesc>, index: int, last: int, name: string, t: DataType, m: string)
    requires index <= last && PostOrderAll(descs) == Range(index + 1, last + 1)
    ensures PostOrder(ColumnDesc(last + 1, name, t, descs, m)) == Range(index + 1, last + 2)
  {
    PostOrderUnfold(ColumnDesc(last + 1, name, t, descs, m));
    RangeAppend(index + 1, last + 1, last + 2);
  }

  lemma RangeAppend(a: int, b: int, c: int)
    requires a <= b <= c
    ensures Range(a, b) + Range(b, c) == Range(a, c)
  {
  }

  /** `pb_field_to_col_desc`: the field's type, then for a message that is not a list the
      nested columns, and the next id from the shared counter once they are numbered. */
  method PbFieldToColDesc(table: Table, pool: Pool, fd: FieldDesc, index: int, trace: seq<string>)
    returns (res: Result<ColumnDesc>, index': int, trace': seq<string>)
    requires Closed(pool) && FieldOf(pool, fd)
    ensures res.Ok? <==> TypeMapping(table, pool, fd, trace).Ok?
    ensures res.Err? ==> res.error == TypeMapping(table, pool, fd, trace).error
    ensures res.Ok? ==>
      var c := res.value;
      trace' == trace && index' > index
      && c.columnType == TypeMapping(table, pool, fd, trace).value && c.name == fd.name && c.columnId == index'
      && PostOrder(c) == Range(index + 1, index' + 1)
      && (fd.kind.KMessage? && fd.cardinality != Repeated ==>
            |c.fieldDescs| == |pool[fd.kind.message]|
            && forall k :: 0 <= k < |c.fieldDescs| ==> c.fieldDescs[k].name == pool[fd.kind.message][k].name)
      && (!fd.kind.KMessage? || fd.cardinality == Repeated ==> c.fieldDescs == [])
      && c.typeName == (if fd.kind.KMessage? then fd.kind.message else "")
    decreases if TypeMapping(table, pool, fd, trace).Ok? then TypeMapping(table, pool, fd, trace).value else Boolean, 1
  {
    var t;
    t, trace' := ProtobufTypeMapping(table, pool, fd, trace);
    index' := index;
    if t.Err? {
      return Err(t.error), index', trace';
    }
    if fd.kind.KMessage? {
      var m := fd.kind.message;
      var fields := pool[m];
      var descs: seq<ColumnDesc> := [];
      if fd.cardinality != Repeated {
        var id := Identifier(fd);
        UnvisitedShrinks(pool, trace, fd);
        FieldsWeakening(table, pool, fields, trace, trace + [id]);
        descs, index', trace' := NestedColumns(table, pool, fields, index, trace);
      } else {
        assert PostOrderAll(descs) == [];
      }
      NumberedLast(descs, index, index', fd.name, t.value, m);
      var c := ColumnDesc(index' + 1, fd.name, t.value, descs, m);
      index' := index' + 1;
      res := Ok(c);
    } else {
      assert PostOrderAll([]) == [];
      NumberedLast([], index, index', fd.name, t.value, "");
      var c := ColumnDesc(index' + 1, fd.name, t.value, [], "");
      index' := index' + 1;
      res := Ok(c);
    }
  }

  /** The columns made so far carry the names of the fields and the mapped types, in order. */
  predicate Describe(descs: seq<ColumnDesc>, fields: seq<FieldDesc>, ts: seq<DataType>) {
    |descs| <= |fields| && |descs| <= |ts|
    && forall k :: 0 <= k < |descs| ==> descs[k].name == fields[k].name && descs[k].columnType == ts[k]
  }

  lemma DescribeSnoc(descs: seq<ColumnDesc>, fields: seq<FieldDesc>, ts: seq<DataType>, col: ColumnDesc)
    requires Describe(descs, fields, ts) && |descs| < |fields| && |descs| < |ts|
    requires col.name == fields[|descs|].name && col.columnType == ts[|descs|]
    ensures Describe(descs + [col], fields, ts)
  {
  }

  /** A field of a message that maps has the type the message's mapping lists for it. */
  lemma MappedField(table: Table, pool: Pool, fields: seq<FieldDesc>, trace: seq<string>, i: nat)
    requires Closed(pool) && forall f :: f in fields ==> FieldOf(pool, f)
    requires FieldsMapping(table, pool, fields, trace).Ok? && i < |fields|
    ensures FieldOf(pool, fields[i])
    ensures TypeMapping(table, pool, fields[i], trace) == Ok(FieldsMapping(table, pool, fields, trace).value[i])
    ensures FieldsMapping(table, pool, fields, trace).value[i]
            < Struct(FieldsMapping(table, pool, fields, trace).value, Names(fields))
  {
    var ts := FieldsMapping(table, pool, fields, trace).value;
    assert ts[i] in ts;
  }

  lemma DescribeGrow(descs: seq<ColumnDesc>, fields: seq<FieldDesc>, ts: seq<DataType>, col: ColumnDesc)
    requires Describe(descs, fields, ts) && |descs| == |ts| < |fields|
    requires col.name == fields[|descs|].name
    ensures Describe(descs + [col], fields, ts + [col.columnType])
  {
  }

  /** One more field of the message maps: the mapping of the longer prefix lists its type last. */
  lemma FieldsMappingSnoc(table: Table, pool: Pool, fields: seq<FieldDesc>, trace: seq<string>, i: nat, ts: seq<DataType>, t: DataType)
    requires Closed(pool) && forall f :: f in fields ==> FieldOf(pool, f)
    requires i < |fields| && FieldsMapping(table, pool, fields[..i], trace) == Ok(ts)
    requires TypeMapping(table, pool, fields[i], trace) == Ok(t)
    ensures FieldsMapping(table, pool, fields[..i + 1], trace) == Ok(ts + [t])
  {
    assert fields[..i + 1][..i] == fields[..i];
  }

  /** The first field that does not map decides the error of the whole message. */
  lemma FirstFieldErr(table: Table, pool: Pool, fields: seq<FieldDesc>, trace: seq<string>, i: nat, ts: seq<DataType>)
    requires Closed(pool) && forall f :: f in fields ==> FieldOf(pool, f)
    requires i < |fields| && FieldsMapping(table, pool, fields[..i], trace) == Ok(ts)
    requires TypeMapping(table, pool, fields[i], trace).Err?
    ensures FieldsMapping(table, pool, fields, trace) == Err(TypeMapping(table, pool, fields[i], trace).error)
  {
    assert fields[..i + 1][..i] == fields[..i];
    assert FieldsMapping(table, pool, fields[..i + 1], trace).Err?;
    FieldsPrefixErr(table, pool, fields, trace, i + 1);
  }

  /** One more top-level column: the mapping, the described prefix and the ids all grow by it. */
  lemma ColumnStep(table: Table, pool: Pool, fields: seq<FieldDesc>, i: nat, ts: seq<DataType>,
                   columns: seq<ColumnDesc>, col: ColumnDesc, before: int, index: int)
    requires Closed(pool) && forall f :: f in fields ==> FieldOf(pool, f)
    requires i < |fields| && FieldsMapping(table, pool, fields[..i], []) == Ok(ts)
    requires |columns| == i == |ts| && Describe(columns, fields, ts)
    requires 0 <= before < index && PostOrderAll(columns) == Range(1, before + 1)
    requires TypeMapping(table, pool, fields[i], []) == Ok(col.columnType) && col.name == fields[i].name
    requires PostOrder(col) == Range(before + 1, index + 1)
    ensures FieldsMapping(table, pool, fields[..i + 1], []) == Ok(ts + [col.columnType])
    ensures Describe(columns + [col], fields, ts + [col.columnType])
    ensures PostOrderAll(columns + [col]) == Range(1, index + 1)
  {
    FieldsMappingSnoc(table, pool, fields, [], i, ts, col.columnType);
    DescribeGrow(columns, fields, ts, col);
    PostOrderAllAppend(columns, col);
    RangeAppend(1, before + 1, index + 1);
  }

  /** The nested columns of a message field, numbered one after the other; the mapping of
      the message already succeeded, so none of them fails. */
  method NestedColumns(table: Table, pool: Pool, fields: seq<FieldDesc>, index: int, trace: seq<string>)
    returns (descs: seq<ColumnDesc>, index': int, trace': seq<string>)
    requires Closed(pool) && forall f :: f in fields ==> FieldOf(pool, f)
    requires FieldsMapping(table, pool, fields, trace).Ok?
    ensures trace' == trace && index' >= index
    ensures |descs| == |fields|
    ensures forall k :: 0 <= k < |fields| ==>
              descs[k].name == fields[k].name && descs[k].columnType == FieldsMapping(table, pool, fields, trace).value[k]
    ensures PostOrderAll(descs) == Range(index + 1, index' + 1)
    decreases Struct(FieldsMapping(table, pool, fields, trace).value, Names(fields)), 0
  {
    ghost var ts := FieldsMapping(table, pool, fields, trace).value;
    descs, index', trace' := [], index, trace;
    for i := 0 to |fields|
      invariant trace' == trace && index' >= index
      invariant |descs| == i && Describe(descs, fields, ts)
      invariant PostOrderAll(descs) == Range(index + 1, index' + 1)
    {
      MappedField(table, pool, fields, trace, i);
      var c;
      ghost var before := index';
      c, index', trace' := PbFieldToColDesc(table, pool, fields[i], index', trace');
      var col := c.value;
      DescribeSnoc(descs, fields, ts, col);
      PostOrderAllAppend(descs, col);
      RangeAppend(index + 1, before + 1, index' + 1);
      descs := descs + [col];
    }
  }

  /** `map_to_columns`: one column per field of the message, numbered from 1 in post-order. */
  method MapToColumns(table: Table, pool: Pool, root: string) returns (res: Result<seq<ColumnDesc>>)
    requires Closed(pool) && root in pool
    ensures res.Ok? <==> FieldsMapping(table, pool, pool[root], []).Ok?
    ensures res.Err? ==> res.error == FieldsMapping(table, pool, pool[root], []).error
    ensures res.Ok? ==>
      |res.value| == |pool[root]|
      && (forall k :: 0 <= k < |res.value| ==>
            res.value[k].name == pool[root][k].name
            && res.value[k].columnType == FieldsMapping(table, pool, pool[root], []).value[k])
      && PostOrderAll(res.value) == Range(1, |PostOrderAll(res.value)| + 1)
  {
    var fields := pool[root];
    var columns: seq<ColumnDesc> := [];
    var index := 0;
    var trace: seq<string> := [];
    ghost var ts: seq<DataType> := [];
    for i := 0 to |fields|
      invariant trace == [] && index >= 0
      invariant FieldsMapping(table, pool, fields[..i], []) == Ok(ts)
      invariant |columns| == i && |ts| == i && Describe(columns, fields, ts)
      invariant PostOrderAll(columns) == Range(1, index + 1)
    {
      assert FieldOf(pool, fields[i]);
      var c;
      ghost var before := index;
      c, index, trace := PbFieldToColDesc(table, pool, fields[i], index, trace);
      if c.Err? {
        FirstFieldErr(table, pool, fields, [], i, ts);
        return Err(c.error);
      }
      var col := c.value;
      ColumnStep(table, pool, fields, i, ts, columns, col, before, index);
      columns := columns + [col];
      ts := ts + [col.columnType];
    }
    assert fields[..|fields|] == fields;
    res := Ok(columns);
  }

  // ---------------------------------------------------------------------
  // Values

  /** A decoded protobuf value (`prost_reflect::Value`); floats are kept as their bits. */
  datatype Value =
    | VBool(b: bool) | VI32(i: int) | VU32(u: int) | VI64(i: int) | VU64(u: int)
    | VF32(fbits: bv32) | VF64(dbits: bv64) | VString(s: string) | VBytes(data: bytes)
    | VEnumNumber(number: int)
    | VMessage(fields: seq<MessageField>)
    | VList(values: seq<Value>)
    | VMap

  /** A field of a decoded message: whether it was set, and what `get_field` returns. */
  datatype MessageField = MessageField(desc: FieldDesc, present: bool, value: Value)

  datatype Scalar =
    | SBool(b: bool) | SInt32(i: int) | SInt64(i: int) | SDecimal(d: int)
    | SFloat32(fbits: bv32) | SFloat64(dbits: bv64) | SUtf8(s: string) | SBytea(data: bytes)
    | SStruct(values: seq<Datum>) | SList(values: seq<Datum>)

  type Datum = Option<Scalar>

  /** `EnumDescriptor::get_value`: the symbol with the given number. */
  function EnumSymbol(values: seq<EnumValue>, number: int): (r: Option<string>)
    ensures r.Some? <==> exists i :: 0 <= i < |values| && values[i].number == number
    ensures r.Some? ==> exists i :: 0 <= i < |values| && values[i].number == number && values[i].name == r.value
  {
    if |values| == 0 then None
    else if values[0].number == number then Some(values[0].name)
    else
      var r := EnumSymbol(values[1..], number);
      assert forall i :: 0 < i < |values| ==> values[i] == values[1..][i - 1];
      r
  }

  /** `from_protobuf_value`: the datum for a value of the given field. */
  function FromProtobufValue(fd: FieldDesc, v: Value): (r: Result<Datum>)
    ensures r.Ok? ==> r.value.Some?
    decreases v, 1
  {
    match v
    case VBool(b) => Ok(Some(SBool(b)))
    case VI32(i) => Ok(Some(SInt32(i)))
    case VU32(u) => Ok(Some(SInt64(u)))
    case VI64(i) => Ok(Some(SInt64(i)))
    case VU64(u) => Ok(Some(SDecimal(u)))
    case VF32(f) => Ok(Some(SFloat32(f)))
    case VF64(f) => Ok(Some(SFloat64(f)))
    case VString(s) => Ok(Some(SUtf8(s)))
    case VEnumNumber(idx) =>
      if !fd.kind.KEnum? then Err(NotAnEnum)
      else
        (match EnumSymbol(fd.kind.values, idx)
         case None => Err(UnknownEnumIndex(idx))
         case Some(name) => Ok(Some(SUtf8(name))))
    case VMessage(fields) =>
      (match MessageValues(v, fields)
       case Err(e) => Err(e)
       case Ok(ds) => Ok(Some(SStruct(ds))))
    case VList(values) =>
      (match ListValues(fd, v, values)
       case Err(e) => Err(e)
       case Ok(ds) => Ok(Some(SList(ds))))
    case VBytes(b) => Ok(Some(SBytea(b)))
    case VMap => Err(UnsupportedType)
  }

  predicate MissingRequired(f: MessageField) {
    !f.present && f.desc.cardinality == Required
  }

  /** A message's fields in descriptor order; the first missing required field or failing
      value is the error. */
  function MessageValues(parent: Value, fields: seq<MessageField>): (r: Result<seq<Datum>>)
    requires forall k :: 0 <= k < |fields| ==> fields[k].value < parent
    ensures r.Ok? ==> |r.value| == |fields|
    ensures r.Ok? ==> forall k :: 0 <= k < |fields| ==>
              !MissingRequired(fields[k]) && FromProtobufValue(fields[k].desc, fields[k].value) == Ok(r.value[k])
    ensures r.Err? ==>
              exists k :: 0 <= k < |fields| && (MissingRequired(fields[k]) || FromProtobufValue(fields[k].desc, fields[k].value).Err?)
    decreases parent, 0, |fields|
  {
    if |fields| == 0 then Ok([])
    else
      var n := |fields| - 1;
      match MessageValues(parent, fields[..n])
      case Err(e) => Err(e)
      case Ok(ds) =>
        var f := fields[n];
        if MissingRequired(f) then Err(MissingRequiredField(f.desc.name))
        else
          match FromProtobufValue(f.desc, f.value)
          case Err(e) => Err(e)
          case Ok(d) => Ok(ds + [d])
  }

  /** A list's elements, each converted with the list's own field. */
  function ListValues(fd: FieldDesc, parent: Value, values: seq<Value>): (r: Result<seq<Datum>>)
    requires forall k :: 0 <= k < |values| ==> values[k] < parent
    ensures r.Ok? ==> |r.value| == |values|
    ensures r.Ok? ==> forall k :: 0 <= k < |values| ==> FromProtobufValue(fd, values[k]) == Ok(r.value[k])
    ensures r.Err? ==> exists k :: 0 <= k < |values| && FromProtobufValue(fd, values[k]).Err?
    decreases parent, 0, |values|
  {
    if |values| == 0 then Ok([])
    else
      var n := |values| - 1;
      match ListValues(fd, parent, values[..n])
      case Err(e) => Err(e)
      case Ok(ds) =>
        match FromProtobufValue(fd, values[n])
        case Err(e) => Err(e)
        case Ok(d) => Ok(ds + [d])
  }

  /** An enum number becomes its symbol's name; an unknown number is an error, and so is an
      enum number for a field that is not an enum. */
  lemma EnumConversion(fd: FieldDesc, idx: int)
    ensures !fd.kind.KEnum? ==> FromProtobufValue(fd, VEnumNumber(idx)) == Err(NotAnEnum)
    ensures fd.kind.KEnum? && (forall i :: 0 <= i < |fd.kind.values| ==> fd.kind.values[i].number != idx) ==>
              FromProtobufValue(fd, VEnumNumber(idx)) == Err(UnknownEnumIndex(idx))
    ensures fd.kind.KEnum? && 0 < |fd.kind.values| && fd.kind.values[0].number == idx ==>
              FromProtobufValue(fd, VEnumNumber(idx)) == Ok(Some(SUtf8(fd.kind.values[0].name)))
    ensures FromProtobufValue(fd, VEnumNumber(idx)).Ok? ==>
              exists i :: 0 <= i < |fd.kind.values| && fd.kind.values[i].number == idx
                          && FromProtobufValue(fd, VEnumNumber(idx)) == Ok(Some(SUtf8(fd.kind.values[i].name)))
  {
  }

  /** A message with a required field that was not set is refused. */
  lemma {:induction false} MissingRequiredRejected(parent: Value, fields: seq<MessageField>, k: nat)
    requires forall j :: 0 <= j < |fields| ==> fields[j].value < parent
    requires k < |fields| && MissingRequired(fields[k])
    ensures MessageValues(parent, fields).Err?
  {
  }

  // ---------------------------------------------------------------------
  // Values against column types

  const I32_MIN: int := -0x8000_0000
  const I32_MAX: int := 0x7FFF_FFFF
  const I64_MIN: int := -0x8000_0000_0000_0000
  const I64_MAX: int := 0x7FFF_FFFF_FFFF_FFFF

  /** What the decoder yields for a kind: signed kinds as signed values, `uint32`/`fixed32`
      as unsigned 32-bit values and `uint64`/`fixed64` as unsigned 64-bit values. */
  predicate FitsKind(v: Value, k: Kind) {
    match k
    case KInt32 | KSint32 | KSfixed32 => v.VI32? && I32_MIN <= v.i <= I32_MAX
    case KUint32 | KFixed32 => v.VU32? && 0 <= v.u < 0x1_0000_0000
    case KInt64 | KSint64 | KSfixed64 => v.VI64? && I64_MIN <= v.i <= I64_MAX
    case KUint64 | KFixed64 => v.VU64? && 0 <= v.u < 0x1_0000_0000_0000_0000
    case KBool => v.VBool?
    case KFloat => v.VF32?
    case KDouble => v.VF64?
    case KString => v.VString?
    case KBytes => v.VBytes?
    case KEnum(_) => v.VEnumNumber?
    case KMessage(_) => v.VMessage?
  }

  /** A repeated field's value is a list of values of its kind. */
  predicate FitsField(v: Value, fd: FieldDesc) {
    if fd.cardinality == Repeated then v.VList? && forall k :: 0 <= k < |v.values| ==> FitsKind(v.values[k], fd.kind)
    else FitsKind(v, fd.kind)
  }

  predicate ScalarHasType(s: Scalar, t: DataType) {
    match s
    case SBool(_) => t == Boolean
    case SInt32(i) => t == Int32 && I32_MIN <= i <= I32_MAX
    case SInt64(i) => t == Int64 && I64_MIN <= i <= I64_MAX
    case SDecimal(_) => t == Decimal
    case SFloat32(_) => t == Float32
    case SFloat64(_) => t == Float64
    case SUtf8(_) => t == Varchar
    case SBytea(_) => t == Bytea
    case SStruct(_) => t.Struct?
    case SList(vs) => t.List? && forall k :: 0 <= k < |vs| ==> vs[k].Some? && ScalarHasType(vs[k].value, t.elem)
  }

  /** The column type the mapping gives a field of a non-message kind. */
  function FieldType(table: Table, fd: FieldDesc): DataType
    requires !fd.kind.KMessage?
  {
    if fd.cardinality == Repeated then List(KindType(table, fd.kind)) else KindType(table, fd.kind)
  }

  lemma FieldTypeIsMapping(table: Table, pool: Pool, fd: FieldDesc, trace: seq<string>)
    requires Closed(pool) && FieldOf(pool, fd) && !fd.kind.KMessage? && Identifier(fd) !in trace
    ensures TypeMapping(table, pool, fd, trace) == Ok(FieldType(table, fd))
  {
  }

  lemma ScalarKindValueHasType(fd: FieldDesc, v: Value)
    requires !fd.kind.KMessage? && FitsKind(v, fd.kind)
    requires FromProtobufValue(fd, v).Ok?
    ensures ScalarHasType(FromProtobufValue(fd, v).value.value, BaseType(fd.kind))
  {
  }

  /** Every value of a non-message field that converts has the column type the schema mapping
      gives that field. */
  lemma {:induction false} ConvertedValueHasColumnType(fd: FieldDesc, v: Value)
    requires !fd.kind.KMessage? && FitsField(v, fd)
    requires FromProtobufValue(fd, v).Ok?
    ensures ScalarHasType(FromProtobufValue(fd, v).value.value, FieldType(Corrected, fd))
  {
    if fd.cardinality == Repeated {
      var ds := ListValues(fd, v, v.values).value;
      forall k | 0 <= k < |ds|
        ensures ds[k].Some? && ScalarHasType(ds[k].value, BaseType(fd.kind))
      {
        ScalarKindValueHasType(fd, v.values[k]);
      }
    } else {
      ScalarKindValueHasType(fd, v);
    }
  }

  /** As written, a `fixed32` field is typed Int32 but its values become Int64 datums, and the
      largest of them does not fit an Int32 either. */
  lemma Fixed32MismatchAsWritten()
    ensures var fd := FieldDesc("f", "m.f", KFixed32, Optional);
            var v := VU32(0xFFFF_FFFF);
            FitsField(v, fd)
            && FromProtobufValue(fd, v) == Ok(Some(SInt64(0xFFFF_FFFF)))
            && !ScalarHasType(SInt64(0xFFFF_FFFF), BaseTypeAsWritten(KFixed32))
            && !ScalarHasType(SInt32(0xFFFF_FFFF), BaseTypeAsWritten(KFixed32))
  {
  }

  /** As written, a `fixed64` field is typed Int64 but its values become decimals. */
  lemma Fixed64MismatchAsWritten()
    ensures var fd := FieldDesc("f", "m.f", KFixed64, Optional);
            var v := VU64(0xFFFF_FFFF_FFFF_FFFF);
            FitsField(v, fd)
            && FromProtobufValue(fd, v) == Ok(Some(SDecimal(0xFFFF_FFFF_FFFF_FFFF)))
            && !ScalarHasType(SDecimal(0xFFFF_FFFF_FFFF_FFFF), BaseTypeAsWritten(KFixed64))
  {
  }

  /** A message of two scalar fields maps to the pair of their field types. */
  lemma TwoFieldsMapping(table: Table, pool: Pool, m: string, a: FieldDesc, b: FieldDesc)
    requires Closed(pool) && m in pool && pool[m] == [a, b]
    requires !a.kind.KMessage? && !b.kind.KMessage?
    ensures FieldsMapping(table, pool, pool[m], []) == Ok([FieldType(table, a), FieldType(table, b)])
  {
    assert a in pool[m] && b in pool[m];
    FieldTypeIsMapping(table, pool, a, []);
    FieldTypeIsMapping(table, pool, b, []);
    var r := FieldsMapping(table, pool, pool[m], []);
    assert r.Ok? && r.value[0] == FieldType(table, a) && r.value[1] == FieldType(table, b);
    assert r.value == [FieldType(table, a), FieldType(table, b)];
  }

  /** The schema as written: a message whose fields are a `fixed32` and a `fixed64` maps to the
      columns INT and BIGINT, while the largest values of those fields convert to a BIGINT and a
      DECIMAL datum, which fit neither column. */
  lemma SchemaMismatchAsWritten(pool: Pool, m: string, a: FieldDesc, b: FieldDesc)
    requires Closed(pool) && m in pool && pool[m] == [a, b]
    requires a.kind == KFixed32 && b.kind == KFixed64
    requires a.cardinality != Repeated && b.cardinality != Repeated
    ensures FieldsMapping(AsWritten, pool, pool[m], []) == Ok([Int32, Int64])
    ensures FromProtobufValue(a, VU32(0xFFFF_FFFF)) == Ok(Some(SInt64(0xFFFF_FFFF)))
            && !ScalarHasType(SInt64(0xFFFF_FFFF), Int32)
    ensures FromProtobufValue(b, VU64(0xFFFF_FFFF_FFFF_FFFF)) == Ok(Some(SDecimal(0xFFFF_FFFF_FFFF_FFFF)))
            && !ScalarHasType(SDecimal(0xFFFF_FFFF_FFFF_FFFF), Int64)
  {
    TwoFieldsMapping(AsWritten, pool, m, a, b);
  }

  /** The same message with the corrected table maps to BIGINT and DECIMAL, which hold them. */
  lemma SchemaMappingCorrected(pool: Pool, m: string, a: FieldDesc, b: FieldDesc)
    requires Closed(pool) && m in pool && pool[m] == [a, b]
    requires a.kind == KFixed32 && b.kind == KFixed64
    requires a.cardinality != Repeated && b.cardinality != Repeated
    ensures FieldsMapping(Corrected, pool, pool[m], []) == Ok([Int64, Decimal])
  {
    TwoFieldsMapping(Corrected, pool, m, a, b);
  }

  // ---------------------------------------------------------------------
  // Confluent wire header

  const MAGIC_BYTE: byte := 0

  /** `extract_schema_id`: a magic byte 0 and a four-byte big-endian schema id precede the
      message. */
  function ExtractSchemaId(payload: bytes): (r: Result<(nat, bytes)>)
    ensures r.Ok? <==> |payload| >= 5 && payload[0] == MAGIC_BYTE
    ensures r.Ok? ==> r.value.1 == payload[5..]
  {
    if |payload| < 5 then Err(PayloadTooShort)
    else if payload[0] != MAGIC_BYTE then Err(BadMagicByte(payload[0]))
    else Ok((FromBE(payload[1..5]), payload[5..]))
  }

  /** `resolve_pb_header`: after the schema id, a message index array that is the single
      byte 0 (the first message of the schema) is skipped. */
  function ResolvePbHeader(payload: bytes): (r: Result<bytes>)
    ensures r.Ok? <==> |payload| >= 6 && payload[0] == MAGIC_BYTE && payload[5] == 0
    ensures r.Ok? ==> r.value == payload[6..]
    ensures |payload| == 5 && payload[0] == MAGIC_BYTE ==> r == Err(EmptyPayload)
    ensures |payload| >= 6 && payload[0] == MAGIC_BYTE && payload[5] != 0 ==> r == Err(MessageIndexNotFirst(payload[5]))
  {
    match ExtractSchemaId(payload)
    case Err(e) => Err(e)
    case Ok((_, remained)) =>
      if |remained| == 0 then Err(EmptyPayload)
      else if remained[0] == 0 then Ok(remained[1..])
      else Err(MessageIndexNotFirst(remained[0]))
  }

  /** The frame a Confluent producer writes for the first message of a schema. */
  function Frame(schemaId: nat, message: bytes): bytes {
    [MAGIC_BYTE] + BE(schemaId, 4) + [0] + message
  }

  /** Stripping the header of a framed message gives the message back, and the schema id is
      read back too. */
  lemma FrameRoundTrip(schemaId: nat, message: bytes)
    requires schemaId < 0x1_0000_0000
    ensures ResolvePbHeader(Frame(schemaId, message)) == Ok(message)
    ensures ExtractSchemaId(Frame(schemaId, message)) == Ok((schemaId, [0] + message))
  {
    var f := Frame(schemaId, message);
    assert Pow256(4) == 0x1_0000_0000;
    assert f[1..5] == BE(schemaId, 4);
    BERoundTrip(schemaId, 4);
    assert f[5..] == [0] + message;
    assert f[6..] == message;
  }
}
