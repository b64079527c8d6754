// The validation rules a MySQL CDC source applies before it starts: binlog settings, the user's
// privileges, and the compatibility of the declared columns with the upstream table.
// The JDBC queries are not modelled: each query's result set is an input sequence of rows, and
// only the columns the validator reads are kept. Java's `toUpperCase`/`toLowerCase` and
// `equalsIgnoreCase` are modelled on ASCII letters.

module MySqlValidator {

  // ---------------------------------------------------------------------
  // Outcomes

  /** Why validation fails. The binlog errors are `internalError`s, the others
      `invalidArgument`s. */
  datatype Error =
    | BinlogDisabled
    | BinlogFormatNotRow
    | BinlogRowImageNotFull
    | TableNotFound
    | ColumnNotFound(column: string)
    | IncompatibleType(column: string)
    | NotEnoughPrivileges(missing: set<string>)

  datatype Outcome = Valid | Invalid(error: Error)

  predicate IsInternalError(e: Error) {
    e.BinlogDisabled? || e.BinlogFormatNotRow? || e.BinlogRowImageNotFull?
  }

  // ---------------------------------------------------------------------
  // Strings

  function UpperChar(c: char): char {
    if 'a' <= c <= 'z' then (c as int - 32) as char else c
  }

  function LowerChar(c: char): char {
    if 'A' <= c <= 'Z' then (c as int + 32) as char else c
  }

  /** `String.toUpperCase`. */
  function ToUpper(s: string): (r: string)
    ensures |r| == |s| && forall i :: 0 <= i < |s| ==> r[i] == UpperChar(s[i])
  {
    seq(|s|, i requires 0 <= i < |s| => UpperChar(s[i]))
  }

  /** `String.toLowerCase`. */
  function ToLower(s: string): (r: string)
    ensures |r| == |s| && forall i :: 0 <= i < |s| ==> r[i] == LowerChar(s[i])
  {
    seq(|s|, i requires 0 <= i < |s| => LowerChar(s[i]))
  }

  /** `String.equalsIgnoreCase`: same length, and the characters agree up to case. */
  predicate EqualsIgnoreCase(s: string, t: string) {
    |s| == |t| && forall i :: 0 <= i < |s| ==> s[i] == t[i] || UpperChar(s[i]) == UpperChar(t[i])
  }

  /** Ignoring case is comparing the upper-cased strings, and it is symmetric. */
  lemma EqualsIgnoreCaseIsUpperEquality(s: string, t: string)
    ensures EqualsIgnoreCase(s, t) <==> ToUpper(s) == ToUpper(t)
    ensures EqualsIgnoreCase(s, t) <==> EqualsIgnoreCase(t, s)
  {
    if ToUpper(s) == ToUpper(t) {
      forall i | 0 <= i < |s|
        ensures s[i] == t[i] || UpperChar(s[i]) == UpperChar(t[i])
      {
        assert ToUpper(s)[i] == ToUpper(t)[i];
      }
    }
  }

  /** `sub` occurs in `s` at position `i`. */
  predicate OccursAt(s: string, sub: string, i: int) {
    0 <= i && i + |sub| <= |s| && s[i..i + |sub|] == sub
  }

  /** `String.contains`. */
  predicate Contains(s: string, sub: string) {
    exists i | 0 <= i <= |s| - |sub| :: OccursAt(s, sub, i)
  }

  /** `String.startsWith`. */
  predicate StartsWith(s: string, prefix: string) {
    |prefix| <= |s| && s[..|prefix|] == prefix
  }

  // ---------------------------------------------------------------------
  // `isDataTypeCompatible`

  // `Data.DataType.TypeName` numbers.
  const INT16: int := 1
  const INT32: int := 2
  const INT64: int := 3
  const FLOAT: int := 4
  const DOUBLE: int := 5
  const BOOLEAN: int := 6
  const VARCHAR: int := 7
  const DECIMAL: int := 8

  /** The column types each covered MySQL type may be read into, listed one by one; `None` for a
      MySQL type the table does not cover. */
  function AcceptedTypes(mysqlDataType: string): Option<set<int>> {
    if mysqlDataType == "tinyint" then Some({BOOLEAN, INT16, INT32, INT64})
    else if mysqlDataType == "smallint" then Some({INT16, INT32, INT64})
    else if mysqlDataType == "mediumint" || mysqlDataType == "int" then Some({INT32, INT64})
    else if mysqlDataType == "bigint" then Some({INT64})
    else if mysqlDataType == "float" || mysqlDataType == "real" then Some({FLOAT, DOUBLE})
    else if mysqlDataType == "double" then Some({DOUBLE})
    else if mysqlDataType == "decimal" then Some({DECIMAL})
    else if mysqlDataType == "varchar" then Some({VARCHAR})
    else None
  }

  datatype Option<T> = None | Some(value: T)

  /** `isDataTypeCompatible`: whether a MySQL column type (matched case-sensitively) may be read
      into a column of the given type number; the integer types accept a range of numbers. */
  function IsDataTypeCompatible(mysqlDataType: string, val: int): (r: bool)
    ensures AcceptedTypes(mysqlDataType).Some? ==> (r <==> val in AcceptedTypes(mysqlDataType).value)
    ensures AcceptedTypes(mysqlDataType).None? ==> r
  {
    match mysqlDataType
    case "tinyint" => val == BOOLEAN || (INT16 <= val && val <= INT64)
    case "smallint" => INT16 <= val && val <= INT64
    case "mediumint" => INT32 <= val && val <= INT64
    case "int" => INT32 <= val && val <= INT64
    case "bigint" => val == INT64
    case "float" => val == FLOAT || val == DOUBLE
    case "real" => val == FLOAT || val == DOUBLE
    case "double" => val == DOUBLE
    case "decimal" => val == DECIMAL
    case "varchar" => val == VARCHAR
    case _ => true
  }

  /** A wider MySQL integer or floating type accepts fewer column types: bigint within int within
      smallint within tinyint, double within float; tinyint alone also accepts BOOLEAN. */
  lemma CompatibilityNarrows(val: int)
    ensures IsDataTypeCompatible("bigint", val) ==> IsDataTypeCompatible("int", val)
    ensures IsDataTypeCompatible("int", val) <==> IsDataTypeCompatible("mediumint", val)
    ensures IsDataTypeCompatible("int", val) ==> IsDataTypeCompatible("smallint", val)
    ensures IsDataTypeCompatible("smallint", val) ==> IsDataTypeCompatible("tinyint", val)
    ensures IsDataTypeCompatible("double", val) ==> IsDataTypeCompatible("float", val)
    ensures IsDataTypeCompatible("float", val) <==> IsDataTypeCompatible("real", val)
    ensures IsDataTypeCompatible("tinyint", BOOLEAN) && !IsDataTypeCompatible("smallint", BOOLEAN)
  {
  }

  // ---------------------------------------------------------------------
  // `validateBinlogConfig`

  /** Every returned row's value column equals `expected`, ignoring case. */
  predicate AllEqualIgnoreCase(values: seq<string>, expected: string) {
    forall i :: 0 <= i < |values| ==> EqualsIgnoreCase(values[i], expected)
  }

  /** One binlog query: the rows are scanned until one has a different value. */
  method ScanSetting(values: seq<string>, expected: string) returns (ok: bool)
    ensures ok <==> AllEqualIgnoreCase(values, expected)
  {
    var i := 0;
    while i < |values|
      invariant 0 <= i <= |values|
      invariant forall k :: 0 <= k < i ==> EqualsIgnoreCase(values[k], expected)
    {
      if !EqualsIgnoreCase(values[i], expected) {
        return false;
      }
      i := i + 1;
    }
    return true;
  }

  /** `validateBinlogConfig`: `log_bin` must be ON, `binlog_format` ROW and `binlog_row_image`
      FULL; the checks run in that order and the first failing one is reported. The arguments
      are the value columns of the three queries' rows. */
  method ValidateBinlogConfig(logBin: seq<string>, binlogFormat: seq<string>, rowImage: seq<string>)
    returns (res: Outcome)
    ensures res.Valid? <==>
      AllEqualIgnoreCase(logBin, "ON") && AllEqualIgnoreCase(binlogFormat, "ROW")
      && AllEqualIgnoreCase(rowImage, "FULL")
    ensures !AllEqualIgnoreCase(logBin, "ON") ==> res == Invalid(BinlogDisabled)
    ensures AllEqualIgnoreCase(logBin, "ON") && !AllEqualIgnoreCase(binlogFormat, "ROW") ==>
      res == Invalid(BinlogFormatNotRow)
    ensures (AllEqualIgnoreCase(logBin, "ON") && AllEqualIgnoreCase(binlogFormat, "ROW")
             && !AllEqualIgnoreCase(rowImage, "FULL")) ==> res == Invalid(BinlogRowImageNotFull)
    ensures res.Invalid? ==> IsInternalError(res.error)
  {
    var ok := ScanSetting(logBin, "ON");
    if !ok {
      return Invalid(BinlogDisabled);
    }
    ok := ScanSetting(binlogFormat, "ROW");
    if !ok {
      return Invalid(BinlogFormatNotRow);
    }
    ok := ScanSetting(rowImage, "FULL");
    if !ok {
      return Invalid(BinlogRowImageNotFull);
    }
    return Valid;
  }

  /** The check ignores case, and a query that returns no rows passes. */
  lemma BinlogExamples()
    ensures AllEqualIgnoreCase(["on"], "ON") && AllEqualIgnoreCase(["Row"], "ROW")
    ensures !AllEqualIgnoreCase(["MIXED"], "ROW") && !AllEqualIgnoreCase(["ON", "OFF"], "ON")
    ensures AllEqualIgnoreCase([], "FULL")
  {
    assert !EqualsIgnoreCase(["ON", "OFF"][1], "ON");
    assert !EqualsIgnoreCase(["MIXED"][0], "ROW");
  }

  // ---------------------------------------------------------------------
  // `validatePrivileges`

  /** The privileges a CDC user needs. */
  const REQUIRED: set<string> :=
    {"SELECT", "RELOAD", "SHOW DATABASES", "REPLICATION SLAVE", "REPLICATION CLIENT"}

  /** `removeIf(granted::contains)`: drops every privilege the grant line mentions. */
  function Revoke(required: set<string>, granted: string): (r: set<string>)
    ensures forall p :: p in r <==> p in required && !Contains(granted, p)
  {
    set p | p in required && !Contains(granted, p)
  }

  predicate GrantsAll(grant: string) {
    Contains(ToUpper(grant), "ALL")
  }

  /** The privileges still missing after the scan of the grant lines, as the code is written: a
      line mentioning ALL ends the scan and leaves the set as it is. */
  function RemainingAsWritten(required: set<string>, grants: seq<string>): (r: set<string>)
    ensures r <= required
    decreases |grants|
  {
    if grants == [] then required
    else if GrantsAll(grants[0]) then required
    else
      var left := Revoke(required, ToUpper(grants[0]));
      if left == {} then left else RemainingAsWritten(left, grants[1..])
  }

  /** The privileges still missing, as the comment on the ALL branch intends: a line mentioning
      ALL grants everything. */
  function Remaining(required: set<string>, grants: seq<string>): (r: set<string>)
    ensures r <= required
    decreases |grants|
  {
    if grants == [] then required
    else if GrantsAll(grants[0]) then {}
    else
      var left := Revoke(required, ToUpper(grants[0]));
      if left == {} then left else Remaining(left, grants[1..])
  }

  /** The position of the first grant line that mentions ALL, or the number of lines. */
  function FirstGrantAll(grants: seq<string>): (k: nat)
    ensures k <= |grants|
    ensures forall i :: 0 <= i < k ==> !GrantsAll(grants[i])
    ensures k < |grants| ==> GrantsAll(grants[k])
  {
    if grants == [] || GrantsAll(grants[0]) then 0 else 1 + FirstGrantAll(grants[1..])
  }

  /** `validatePrivileges`: the grant lines are scanned until one mentions ALL or every required
      privilege has been seen; whatever is left is reported. */
  method ValidatePrivileges(grants: seq<string>) returns (res: Outcome)
    ensures var left := RemainingAsWritten(REQUIRED, grants);
            res == if left == {} then Valid else Invalid(NotEnoughPrivileges(left))
  {
    var required := REQUIRED;
    var i := 0;
    while i < |grants|
      invariant 0 <= i <= |grants|
      invariant RemainingAsWritten(required, grants[i..]) == RemainingAsWritten(REQUIRED, grants)
    {
      var granted := ToUpper(grants[i]);
      if Contains(granted, "ALL") {
        break;
      }
      assert grants[i..][1..] == grants[i + 1..];
      required := Revoke(required, granted);
      if required == {} {
        break;
      }
      i := i + 1;
    }
    if required != {} {
      return Invalid(NotEnoughPrivileges(required));
    }
    return Valid;
  }

  /** As written: a privilege is reported missing exactly when it is required and no grant line
      before the first one that mentions ALL names it. */
  lemma {:induction false} RemainingAsWrittenExactly(required: set<string>, grants: seq<string>, p: string)
    ensures p in RemainingAsWritten(required, grants) <==>
      p in required && forall i :: 0 <= i < FirstGrantAll(grants) ==> !Contains(ToUpper(grants[i]), p)
    decreases |grants|
  {
    if grants != [] && !GrantsAll(grants[0]) {
      var left := Revoke(required, ToUpper(grants[0]));
      if left != {} {
        RemainingAsWrittenExactly(left, grants[1..], p);
        assert FirstGrantAll(grants) == 1 + FirstGrantAll(grants[1..]);
        assert forall i :: 0 <= i < FirstGrantAll(grants[1..]) ==> grants[1..][i] == grants[i + 1];
      }
    }
  }

  /** As intended: a privilege is missing exactly when it is required, no grant line mentions
      ALL and none names it. */
  lemma {:induction false} RemainingExactly(required: set<string>, grants: seq<string>, p: string)
    ensures p in Remaining(required, grants) <==>
      p in required && forall i :: 0 <= i < |grants| ==> !GrantsAll(grants[i]) && !Contains(ToUpper(grants[i]), p)
    decreases |grants|
  {
    if grants != [] && !GrantsAll(grants[0]) {
      var left := Revoke(required, ToUpper(grants[0]));
      if left != {} {
        RemainingExactly(left, grants[1..], p);
        assert forall i :: 0 <= i < |grants[1..]| ==> grants[1..][i] == grants[i + 1];
      }
    }
  }

  /** The two readings differ only on grant lines that mention ALL. */
  lemma {:induction false} AsWrittenAgreesWithoutAll(required: set<string>, grants: seq<string>)
    requires forall i :: 0 <= i < |grants| ==> !GrantsAll(grants[i])
    ensures RemainingAsWritten(required, grants) == Remaining(required, grants)
    decreases |grants|
  {
    if grants != [] {
      var left := Revoke(required, ToUpper(grants[0]));
      if left != {} {
        assert forall i :: 0 <= i < |grants[1..]| ==> grants[1..][i] == grants[i + 1];
        AsWrittenAgreesWithoutAll(left, grants[1..]);
      }
    }
  }

  /** A user whose only grant is ALL PRIVILEGES is rejected by the code as written, with every
      required privilege reported missing, although the intended check passes. */
  lemma AllPrivilegesRejectedAsWritten()
    ensures RemainingAsWritten(REQUIRED, ["GRANT ALL PRIVILEGES ON *.* TO rw"]) == REQUIRED
    ensures Remaining(REQUIRED, ["GRANT ALL PRIVILEGES ON *.* TO rw"]) == {}
  {
    var g := "GRANT ALL PRIVILEGES ON *.* TO rw";
    var u := ToUpper(g);
    assert u[6] == 'A' && u[7] == 'L' && u[8] == 'L';
    assert u[6..9] == "ALL";
    assert OccursAt(u, "ALL", 6);
  }

  // ---------------------------------------------------------------------
  // `validateTableSchema`

  /** A row of the upstream table-schema query: the column's name, its MySQL type, its key. */
  datatype SchemaRow = SchemaRow(field: string, dataType: string, key: string)

  /** A column declared on the source, with its type number. */
  datatype Column = Column(name: string, typeName: int)

  /** The upstream columns by lower-cased name; a later row replaces an earlier one. */
  function SchemaOf(rows: seq<SchemaRow>): map<string, string> {
    if rows == [] then map[]
    else
      var n := |rows| - 1;
      SchemaOf(rows[..n])[ToLower(rows[n].field) := rows[n].dataType]
  }

  /** The lower-cased names of the upstream primary-key columns. */
  function PkFieldsOf(rows: seq<SchemaRow>): set<string> {
    if rows == [] then {}
    else
      var n := |rows| - 1;
      PkFieldsOf(rows[..n]) + if EqualsIgnoreCase(rows[n].key, "PRI") then {ToLower(rows[n].field)} else {}
  }

  /** The loop over the schema query's rows that fills the name-to-type map and the key set. */
  method BuildSchema(rows: seq<SchemaRow>) returns (schema: map<string, string>, pkFields: set<string>)
    ensures schema == SchemaOf(rows) && pkFields == PkFieldsOf(rows)
  {
    schema, pkFields := map[], {};
    for i := 0 to |rows|
      invariant schema == SchemaOf(rows[..i]) && pkFields == PkFieldsOf(rows[..i])
    {
      assert rows[..i + 1][..i] == rows[..i];
      var row := rows[i];
      schema := schema[ToLower(row.field) := row.dataType];
      if EqualsIgnoreCase(row.key, "PRI") {
        pkFields := pkFields + {ToLower(row.field)};
      }
    }
    assert rows[..|rows|] == rows;
  }

  /** A name is in the schema exactly when some row has it (lower-cased), and its type is the one
      of the last such row. */
  lemma {:induction false} SchemaOfLookup(rows: seq<SchemaRow>, name: string)
    ensures name in SchemaOf(rows) <==> exists i :: 0 <= i < |rows| && ToLower(rows[i].field) == name
    ensures name in SchemaOf(rows) ==>
      exists i :: 0 <= i < |rows| && ToLower(rows[i].field) == name && SchemaOf(rows)[name] == rows[i].dataType
                  && forall j :: i < j < |rows| ==> ToLower(rows[j].field) != name
  {
    if rows != [] {
      var n := |rows| - 1;
      SchemaOfLookup(rows[..n], name);
      assert forall i :: 0 <= i < n ==> rows[..n][i] == rows[i];
      if ToLower(rows[n].field) != name && name in SchemaOf(rows) {
        var i :| 0 <= i < n && ToLower(rows[..n][i].field) == name && SchemaOf(rows[..n])[name] == rows[..n][i].dataType
                 && forall j :: i < j < n ==> ToLower(rows[..n][j].field) != name;
        assert SchemaOf(rows)[name] == rows[i].dataType;
      }
    }
  }

  /** The key set holds exactly the lower-cased names of the rows whose key is PRI. */
  lemma {:induction false} PkFieldsExactly(rows: seq<SchemaRow>, name: string)
    ensures name in PkFieldsOf(rows) <==>
      exists i :: 0 <= i < |rows| && ToLower(rows[i].field) == name && EqualsIgnoreCase(rows[i].key, "PRI")
  {
    if rows != [] {
      var n := |rows| - 1;
      PkFieldsExactly(rows[..n], name);
      assert forall i :: 0 <= i < n ==> rows[..n][i] == rows[i];
    }
  }

  /** A declared column passes when it is internal, or exists upstream and is compatible. */
  predicate ColumnOk(c: Column, schema: map<string, string>, internalPrefix: string) {
    StartsWith(c.name, internalPrefix)
    || (ToLower(c.name) in schema && IsDataTypeCompatible(schema[ToLower(c.name)], c.typeName))
  }

  /** The error for a declared column that does not pass. */
  function ColumnError(c: Column, schema: map<string, string>): Error {
    if ToLower(c.name) !in schema then ColumnNotFound(c.name) else IncompatibleType(c.name)
  }

  /** The loop over the declared columns: the first one that is missing upstream or has an
      incompatible type is reported; internal columns are skipped. */
  method CheckColumns(columns: seq<Column>, schema: map<string, string>, internalPrefix: string)
    returns (res: Outcome)
    ensures res.Valid? <==> forall i :: 0 <= i < |columns| ==> ColumnOk(columns[i], schema, internalPrefix)
    ensures res.Invalid? ==>
      exists k :: 0 <= k < |columns| && !ColumnOk(columns[k], schema, internalPrefix)
                  && (forall j :: 0 <= j < k ==> ColumnOk(columns[j], schema, internalPrefix))
                  && res.error == ColumnError(columns[k], schema)
  {
    for i := 0 to |columns|
      invariant forall j :: 0 <= j < i ==> ColumnOk(columns[j], schema, internalPrefix)
    {
      var c := columns[i];
      if StartsWith(c.name, internalPrefix) {
        continue;
      }
      var name := ToLower(c.name);
      if name !in schema {
        return Invalid(ColumnNotFound(c.name));
      }
      if !IsDataTypeCompatible(schema[name], c.typeName) {
        return Invalid(IncompatibleType(c.name));
      }
    }
    return Valid;
  }

  /** `validateTableSchema` up to the primary-key comparison: the table must exist (no row of the
      existence query counts zero), then every declared column is checked against the upstream
      schema. The upstream key set is returned for the primary-key comparison. */
  method ValidateTableSchema(tableCounts: seq<int>, rows: seq<SchemaRow>, columns: seq<Column>,
                             internalPrefix: string)
    returns (res: Outcome, pkFields: set<string>)
    ensures (exists i :: 0 <= i < |tableCounts| && tableCounts[i] == 0) ==> res == Invalid(TableNotFound)
    ensures (forall i :: 0 <= i < |tableCounts| ==> tableCounts[i] != 0) ==>
      pkFields == PkFieldsOf(rows)
      && (res.Valid? <==> forall i :: 0 <= i < |columns| ==> ColumnOk(columns[i], SchemaOf(rows), internalPrefix))
      && (res.Invalid? ==>
            exists k :: 0 <= k < |columns| && !ColumnOk(columns[k], SchemaOf(rows), internalPrefix)
                        && (forall j :: 0 <= j < k ==> ColumnOk(columns[j], SchemaOf(rows), internalPrefix))
                        && res.error == ColumnError(columns[k], SchemaOf(rows)))
  {
    pkFields := {};
    for i := 0 to |tableCounts|
      invariant forall j :: 0 <= j < i ==> tableCounts[j] != 0
    {
      if tableCounts[i] == 0 {
        return Invalid(TableNotFound), pkFields;
      }
    }
    var schema;
    schema, pkFields := BuildSchema(rows);
    res := CheckColumns(columns, schema, internalPrefix);
  }

  /** Column names are matched ignoring case, and internal columns need not exist upstream. */
  lemma ColumnMatchingExamples(prefix: string)
    ensures ColumnOk(Column("ID", INT32), SchemaOf([SchemaRow("id", "int", "PRI")]), prefix)
    ensures !ColumnOk(Column("v", INT32), SchemaOf([SchemaRow("v", "bigint", "")]), "_rw_")
    ensures ColumnOk(Column("_rw_offset", VARCHAR), map[], "_rw_")
  {
    assert ToLower("ID") == "id" && ToLower("id") == "id";
    assert ToLower("v") == "v";
    var one := [SchemaRow("id", "int", "PRI")];
    assert one[..0] == [];
    assert SchemaOf(one) == map["id" := "int"];
    var two := [SchemaRow("v", "bigint", "")];
    assert two[..0] == [];
    assert SchemaOf(two) == map["v" := "bigint"];
    assert !StartsWith("v", "_rw_");
    assert StartsWith("_rw_offset", "_rw_");
  }
}
