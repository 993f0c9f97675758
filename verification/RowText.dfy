/** Rows of the text protocol: building them from values and parsing them back (mysql/resultset.go,
    proxy/conn_resultset.go, decodeRow of vt/tabletserver/rowcache.go). */
module RowText {
  import opened Wrappers
  import opened Bytes
  import opened LengthEncoding
  import opened StringRuns
  import opened FieldCodec
  import D = Decimal

  /** mysql.Value: nil, int64, uint64, float64 (by its bits), a byte slice or a string. */
  datatype Value = Nil | Int(n: int) | Uint(u: nat) | Float(x: nat) | Bin(b: bytes) | Str(b: bytes)

  /** How strconv reads a float64 and writes one with sixteen decimals. */
  datatype FloatText = FloatText(parse: bytes -> Option<nat>, format: nat -> bytes)

  ghost predicate FloatsOk(fl: FloatText) {
    && fl.parse([]).None? && fl.parse(ONE).Some?
    && forall x :: 0 < |fl.format(x)| <= 400
  }

  /** Any such pair of which this is known: the empty text is no number, 1 is one, and a written number
      is neither empty nor long. Nothing is said of which texts stand for which numbers. */
  type Floats = fl: FloatText | FloatsOk(fl) witness FloatText(b => if b == [] then None else Some(0), x => ONE)

  predicate ValidValue(v: Value) {
    match v
    case Nil => true
    case Int(n) => MIN_INT64 <= n <= MAX_INT64
    case Uint(u) => u <= MAX_UINT64
    case Float(_) => true
    case Bin(b) => Fits(b)
    case Str(b) => Fits(b)
  }

  const INTEGER_TYPES: set<byte> := {1, 2, 3, 8, 9, 13}

  const FLOAT_TYPES: set<byte> := {4, 5}

  const TYPE_VARCHAR: byte := 15

  predicate FlagUnsigned(f: Field) { f.flag / 32 % 2 == 1 }

  // ---------------------------------------------------------------- text of numbers

  function ToBytes(s: string): (r: bytes)
    ensures |r| == |s|
  {
    seq(|s|, (i: nat) requires i < |s| => s[i] as int % 256)
  }

  function ToChars(b: bytes): (r: string)
    ensures |r| == |b|
  {
    seq(|b|, (i: nat) requires i < |b| => b[i] as char)
  }

  lemma CharsBack(s: string)
    requires forall i :: 0 <= i < |s| ==> s[i] as int < 256
    ensures ToChars(ToBytes(s)) == s
  {
  }

  lemma {:induction false} DigitCount(n: nat)
    ensures |D.FormatUint(n)| <= n / 5 + 1
  {
    if n >= 10 { DigitCount(n / 10); }
  }

  /** A 64-bit number as text is short and comes back from its bytes. */
  lemma NumberText(n: int)
    requires MIN_INT64 <= n <= MAX_UINT64
    ensures var s := D.FormatInt(n);
            s != "" && Fits(ToBytes(s)) && ToChars(ToBytes(s)) == s
  {
    var m := if n < 0 then -n else n;
    var t, s := D.FormatUint(m), D.FormatInt(n);
    DigitCount(m);
    assert forall i :: 0 <= i < |t| ==> D.IsDigit(t[i]);
    assert n < 0 ==> forall i :: 0 < i < |s| ==> s[i] == t[i - 1];
    CharsBack(s);
  }

  // ---------------------------------------------------------------- values to text

  /** mysql.Raw; `None` is a failed type assertion. */
  function Raw(fl: Floats, t: byte, v: Value, unsigned: bool): Option<bytes> {
    if v.Nil? then Some([])
    else if t in INTEGER_TYPES then
      if unsigned && v.Uint? then Some(ToBytes(D.FormatUint(v.u)))
      else if !unsigned && v.Int? then Some(ToBytes(D.FormatInt(v.n)))
      else None
    else if t in FLOAT_TYPES then if v.Float? then Some(fl.format(v.x)) else None
    else if v.Bin? || (v.Str? && t == TYPE_VARCHAR) then Some(v.b)
    else Some([])
  }

  /** What a value is as the content of a cell: NULL, or its text. */
  function Written(fl: Floats, f: Field, v: Value): Option<Option<bytes>> {
    if v.Nil? then Some(None)
    else
      match Raw(fl, f.typ, v, f.isUnsigned)
      case None => None
      case Some(b) => Some(Some(b))
  }

  lemma WrittenFits(fl: Floats, f: Field, v: Value)
    requires ValidValue(v)
    ensures Written(fl, f, v).Some? && Written(fl, f, v).value.Some? ==> Fits(Written(fl, f, v).value.value)
  {
    if v.Int? { NumberText(v.n); }
    if v.Uint? { NumberText(v.u); }
  }

  // ---------------------------------------------------------------- text to values

  /** One column of ParseText; `None` is an error. */
  function Convert(fl: Floats, f: Field, s: Option<bytes>): Option<Value> {
    if s.None? then Some(Nil)
    else if f.typ in INTEGER_TYPES then
      if FlagUnsigned(f) || f.isUnsigned then
        match D.ParseUint(ToChars(s.value), 10)
        case None => None
        case Some(u) => Some(Uint(u))
      else
        match D.ParseInt(ToChars(s.value), 10)
        case None => None
        case Some(n) => Some(Int(n))
    else if f.typ in FLOAT_TYPES then
      match fl.parse(s.value)
      case None => None
      case Some(x) => Some(Float(x))
    else Some(Bin(s.value))
  }

  function Converter(fl: Floats, fields: seq<Field>): (nat, Option<bytes>) -> Option<Value> {
    (i: nat, s: Option<bytes>) => if i < |fields| then Convert(fl, fields[i], s) else None
  }

  /** The values of a row. */
  function ParsedRow(fl: Floats, p: bytes, fields: seq<Field>): Run<Value> {
    ReadRun(READER, Converter(fl, fields), p, |fields|)
  }

  method ParseText(fl: Floats, p: bytes, fields: seq<Field>) returns (r: Run<Value>)
    ensures r == ParsedRow(fl, p, fields)
  {
    var pos;
    r, pos := ReadLoop(READER, Converter(fl, fields), p, |fields|);
  }

  /** A number whose sixteen decimals read back as itself. */
  predicate Survives(fl: Floats, v: Value) { v.Float? ==> fl.parse(fl.format(v.x)) == Some(v.x) }

  /** A value of the kind its column holds. */
  predicate OfKind(f: Field, v: Value) {
    || v.Nil?
    || (if f.typ in INTEGER_TYPES then if f.isUnsigned then v.Uint? else v.Int? && !FlagUnsigned(f)
        else if f.typ in FLOAT_TYPES then v.Float?
        else v.Bin?)
  }

  predicate Matches(fl: Floats, f: Field, v: Value) { OfKind(f, v) && Survives(fl, v) }

  /** A value that was written converts back exactly when it is of the column's kind and, if it is a
      floating-point number, survives. */
  lemma SurvivesIff(fl: Floats, f: Field, v: Value)
    requires ValidValue(v) && Written(fl, f, v).Some?
    ensures Convert(fl, f, Written(fl, f, v).value) == Some(v) <==> Matches(fl, f, v)
  {
    if v.Int? {
      NumberText(v.n);
      D.IntRoundTrip(v.n);
    } else if v.Uint? {
      NumberText(v.u);
      D.UintRoundTrip(v.u);
    }
  }

  // ---------------------------------------------------------------- rows

  predicate ValidRow(values: seq<Value>) { forall i :: 0 <= i < |values| ==> ValidValue(values[i]) }

  /** The bytes of one cell; `None` when Raw fails. */
  function Cell(fl: Floats, f: Field, v: Value): Option<bytes>
    requires ValidValue(v)
  {
    WrittenFits(fl, f, v);
    match Written(fl, f, v)
    case None => None
    case Some(s) => Some(Put(s))
  }

  function Cells(fl: Floats, fields: seq<Field>, values: seq<Value>): (r: seq<Option<bytes>>)
    requires |fields| == |values| && ValidRow(values)
    ensures |r| == |values| && forall i :: 0 <= i < |r| ==> r[i] == Cell(fl, fields[i], values[i])
  {
    seq(|values|, (i: nat) requires i < |values| => Cell(fl, fields[i], values[i]))
  }

  predicate AllSome(cells: seq<Option<bytes>>) { forall i :: 0 <= i < |cells| ==> cells[i].Some? }

  function Unwrap(cells: seq<Option<bytes>>): (r: seq<bytes>)
    requires AllSome(cells)
    ensures |r| == |cells| && forall i :: 0 <= i < |r| ==> r[i] == cells[i].value
  {
    seq(|cells|, (i: nat) requires i < |cells| => cells[i].value)
  }

  /** A row of values as it is sent; `None` when some value is not of its column's kind for Raw. */
  function RowBytes(fl: Floats, fields: seq<Field>, values: seq<Value>): Option<bytes>
    requires |fields| == |values| && ValidRow(values)
  {
    var cells := Cells(fl, fields, values);
    if AllSome(cells) then Some(Joined(Unwrap(cells))) else None
  }

  /** The contents of the cells of a row that was built. */
  function Contents(fl: Floats, fields: seq<Field>, values: seq<Value>): (r: seq<Option<bytes>>)
    requires |fields| == |values| && ValidRow(values)
    requires forall i :: 0 <= i < |values| ==> Written(fl, fields[i], values[i]).Some?
    ensures |r| == |values| && forall i :: 0 <= i < |r| ==> r[i] == Written(fl, fields[i], values[i]).value
  {
    seq(|values|, (i: nat) requires i < |values| => Written(fl, fields[i], values[i]).value)
  }

  lemma CellsDecode(fl: Floats, fields: seq<Field>, values: seq<Value>)
    requires |fields| == |values| && ValidRow(values) && RowBytes(fl, fields, values).Some?
    ensures forall i :: 0 <= i < |values| ==> Written(fl, fields[i], values[i]).Some?
    ensures var parts := Unwrap(Cells(fl, fields, values));
            forall i :: 0 <= i < |parts| ==> Decodes(READER, parts[i], Contents(fl, fields, values)[i])
  {
    var cells := Cells(fl, fields, values);
    forall i | 0 <= i < |values|
      ensures Written(fl, fields[i], values[i]).Some? &&
              Decodes(READER, Unwrap(cells)[i], Written(fl, fields[i], values[i]).value)
    {
      assert cells[i].Some?;
      WrittenFits(fl, fields[i], values[i]);
      PutDecodes(Written(fl, fields[i], values[i]).value);
    }
  }

  /** Parsing a built row gives back its values exactly when each value matches its column. */
  lemma RowRoundTripIff(fl: Floats, fields: seq<Field>, values: seq<Value>)
    requires |fields| == |values| && ValidRow(values) && RowBytes(fl, fields, values).Some?
    ensures ParsedRow(fl, RowBytes(fl, fields, values).value, fields) == Run(values, []) <==>
            forall i :: 0 <= i < |values| ==> Matches(fl, fields[i], values[i])
  {
    CellsDecode(fl, fields, values);
    var parts, strings := Unwrap(Cells(fl, fields, values)), Contents(fl, fields, values);
    var conv, p := Converter(fl, fields), RowBytes(fl, fields, values).value;
    assert p + [] == p;
    forall i | 0 <= i < |values|
      ensures conv(i, strings[i]) == Some(values[i]) <==> Matches(fl, fields[i], values[i])
    {
      SurvivesIff(fl, fields[i], values[i]);
    }
    if forall i :: 0 <= i < |values| ==> Matches(fl, fields[i], values[i]) {
      RunRoundTrip(READER, conv, parts, strings, values, []);
    } else if ParsedRow(fl, p, fields) == Run(values, []) {
      RunInverse(READER, conv, parts, strings, values, []);
    }
  }

  // ---------------------------------------------------------------- result sets

  /** A column of the cached table's schema. `charset` is the collation's number. */
  datatype ColumnType = ColumnType(name: bytes, sqlType: byte, charset: uint16, isUnsigned: bool)

  /** The flags formatField sets from a value. */
  function ValueFlag(v: Value): uint16 {
    match v
    case Int(_) => 129
    case Uint(_) => 161
    case _ => 0
  }

  /** The column definition made from a column and the first row's value in it. */
  function FieldFor(c: ColumnType, v: Value): Field {
    BLANK.(name := c.name, flag := ValueFlag(v), typ := c.sqlType, charset := c.charset, isUnsigned := c.isUnsigned)
  }

  function FieldsFor(columns: seq<ColumnType>, values: seq<Value>): (r: seq<Field>)
    requires |columns| == |values|
    ensures |r| == |columns| && forall j :: 0 <= j < |r| ==> r[j] == FieldFor(columns[j], values[j])
  {
    seq(|columns|, (j: nat) requires j < |columns| => FieldFor(columns[j], values[j]))
  }

  function Blanks(n: nat): (r: seq<Field>)
    ensures |r| == n && forall j :: 0 <= j < n ==> r[j] == BLANK
  {
    seq(n, (j: nat) => BLANK)
  }

  /** A result set; one without rows has a nil reference for each of its fields. */
  datatype Built = Built(fields: seq<Field>, rows: seq<bytes>) | NilFields(count: nat) | WrongLength(row: nat) | RawFails

  predicate ValidRows(rows: seq<seq<Value>>) { forall i :: 0 <= i < |rows| ==> ValidRow(rows[i]) }

  /** The fields row `i` is written with: the first row's own, blank ones afterwards. */
  function RowFields(columns: seq<ColumnType>, i: nat, values: seq<Value>): (r: seq<Field>)
    requires |columns| == |values|
    ensures |r| == |columns|
    ensures forall j :: 0 <= j < |r| ==> r[j] == if i == 0 then FieldFor(columns[j], values[j]) else BLANK
  {
    if i == 0 then FieldsFor(columns, values) else Blanks(|columns|)
  }

  /** The result set after row `i`. */
  function AddRow(fl: Floats, columns: seq<ColumnType>, b: Built, i: nat, values: seq<Value>): Built
    requires ValidRow(values)
  {
    if !b.Built? then b
    else if |values| != |columns| then WrongLength(i)
    else
      match RowBytes(fl, RowFields(columns, i, values), values)
      case None => RawFails
      case Some(row) => Built(if i == 0 then FieldsFor(columns, values) else b.fields, b.rows + [row])
  }

  type Adder = (Built, nat, seq<Value>) -> Built

  /** Rows added one after the other. */
  function Folded(add: Adder, rows: seq<seq<Value>>): Built {
    if rows == [] then Built([], [])
    else add(Folded(add, rows[..|rows| - 1]), |rows| - 1, rows[|rows| - 1])
  }

  function AdderFor(fl: Floats, columns: seq<ColumnType>): Adder {
    (b: Built, i: nat, values: seq<Value>) =>
      if ValidRow(values) then AddRow(fl, columns, b, i, values) else b
  }

  /** buildResultset. Fields are made from the first row. */
  function BuiltRows(fl: Floats, columns: seq<ColumnType>, rows: seq<seq<Value>>): Built {
    if rows == [] then NilFields(|columns|) else Folded(AdderFor(fl, columns), rows)
  }

  lemma {:induction false} FoldStops(add: Adder, rows: seq<seq<Value>>, i: nat)
    requires forall b: Built, k: nat, v :: !b.Built? ==> add(b, k, v) == b
    requires i <= |rows| && !Folded(add, rows[..i]).Built?
    ensures Folded(add, rows) == Folded(add, rows[..i])
    decreases |rows| - i
  {
    if i == |rows| {
      assert rows[..i] == rows;
    } else {
      assert rows[..i + 1][..i] == rows[..i];
      FoldStops(add, rows, i + 1);
    }
  }

  /** What an adder does that writes row `i` as `out[i]` and takes its fields from the first row. */
  ghost predicate Appends(add: Adder, rows: seq<seq<Value>>, fields: seq<Field>, out: seq<bytes>) {
    && |out| == |rows|
    && forall b: Built, i: nat {:trigger AppendsOne(add, rows[i], fields, out[i], b, i)} ::
         i < |rows| && b.Built? ==> AppendsOne(add, rows[i], fields, out[i], b, i)
  }

  ghost predicate AppendsOne(add: Adder, values: seq<Value>, fields: seq<Field>, row: bytes, b: Built, i: nat)
    requires b.Built?
  {
    add(b, i, values) == Built(if i == 0 then fields else b.fields, b.rows + [row])
  }

  lemma {:induction false} FoldTo(add: Adder, rows: seq<seq<Value>>, fields: seq<Field>, out: seq<bytes>, n: nat)
    requires Appends(add, rows, fields, out) && n <= |rows|
    ensures Folded(add, rows[..n]) == Built(if n == 0 then [] else fields, out[..n])
  {
    if n > 0 {
      FoldTo(add, rows, fields, out, n - 1);
      var before := Folded(add, rows[..n - 1]);
      assert rows[..n][..n - 1] == rows[..n - 1];
      assert AppendsOne(add, rows[n - 1], fields, out[n - 1], before, n - 1);
      assert out[..n - 1] + [out[n - 1]] == out[..n];
    }
  }

  lemma FoldAll(add: Adder, rows: seq<seq<Value>>, fields: seq<Field>, out: seq<bytes>)
    requires Appends(add, rows, fields, out)
    ensures Folded(add, rows) == Built(if rows == [] then [] else fields, out)
  {
    FoldTo(add, rows, fields, out, |rows|);
    assert rows[..|rows|] == rows && out[..|rows|] == out;
  }

  /** The inner loop of buildResultset: the cells of one row, written with the fields made for it. */
  method BuildRow(fl: Floats, columns: seq<ColumnType>, i: nat, values: seq<Value>)
    returns (fields: seq<Field>, row: Option<bytes>)
    requires |columns| == |values| && ValidRow(values)
    ensures fields == RowFields(columns, i, values)
    ensures row == RowBytes(fl, fields, values)
  {
    fields := RowFields(columns, i, values);
    row := WriteCells(fl, fields, values);
  }

  method WriteCells(fl: Floats, fields: seq<Field>, values: seq<Value>) returns (row: Option<bytes>)
    requires |fields| == |values| && ValidRow(values)
    ensures row == RowBytes(fl, fields, values)
  {
    var data: bytes := [];
    ghost var cells := Cells(fl, fields, values);
    for j := 0 to |values|
      invariant AllSome(cells[..j]) && data == Joined(Unwrap(cells[..j]))
    {
      var cell := WriteCell(fl, fields[j], values[j]);
      if cell.None? {
        assert cells[j].None?;
        return None;
      }
      NextCell(cells, j, cell.value);
      data := data + cell.value;
    }
    assert cells[..|values|] == cells;
    row := Some(data);
  }

  method WriteCell(fl: Floats, field: Field, value: Value) returns (cell: Option<bytes>)
    requires ValidValue(value)
    ensures cell == Cell(fl, field, value)
  {
    if value.Nil? {
      return Some(NULL_MARK);
    }
    var b := Raw(fl, field.typ, value, field.isUnsigned);
    if b.None? {
      return None;
    }
    WrittenFits(fl, field, value);
    cell := Some(PutLengthEncodedString(b.value));
  }

  lemma NextCell(cells: seq<Option<bytes>>, j: nat, cell: bytes)
    requires j < |cells| && AllSome(cells[..j]) && cells[j] == Some(cell)
    ensures AllSome(cells[..j + 1]) && Joined(Unwrap(cells[..j + 1])) == Joined(Unwrap(cells[..j])) + cell
  {
    assert Unwrap(cells[..j + 1])[..j] == Unwrap(cells[..j]);
  }

  method AppendRow(fl: Floats, columns: seq<ColumnType>, fields: seq<Field>, done: seq<bytes>, i: nat,
                   values: seq<Value>) returns (b: Built)
    requires ValidRow(values)
    ensures b == AddRow(fl, columns, Built(fields, done), i, values)
  {
    if |values| != |columns| {
      return WrongLength(i);
    }
    var fs, row := BuildRow(fl, columns, i, values);
    if row.None? {
      return RawFails;
    }
    b := Built(if i == 0 then fs else fields, done + [row.value]);
  }

  method BuildResultset(fl: Floats, columns: seq<ColumnType>, rows: seq<seq<Value>>) returns (r: Built)
    requires ValidRows(rows)
    ensures r == BuiltRows(fl, columns, rows)
  {
    if rows == [] {
      return NilFields(|columns|);
    }
    r := Built([], []);
    for i := 0 to |rows|
      invariant r.Built? && Folded(AdderFor(fl, columns), rows[..i]) == r
    {
      assert rows[..i + 1][..i] == rows[..i];
      r := AppendRow(fl, columns, r.fields, r.rows, i, rows[i]);
      if !r.Built? {
        FoldStops(AdderFor(fl, columns), rows, i + 1);
        return;
      }
    }
    assert rows[..|rows|] == rows;
  }

  // ---------------------------------------------------------------- what the client gets

  predicate ColumnMatches(c: ColumnType, v: Value) {
    || v.Nil?
    || (if c.sqlType in INTEGER_TYPES then if c.isUnsigned then v.Uint? else v.Int?
        else if c.sqlType in FLOAT_TYPES then v.Float?
        else v.Bin?)
  }

  predicate HasFlag(f: Field, bit: nat)
    requires bit > 0
  {
    f.flag / bit % 2 == 1
  }

  /** A definition that tells a client what it has to know of a column whose first value is `v`: its name,
      type and character set, and of a number that it is binary, not NULL, and whether it is unsigned.
      Nothing else is told. */
  predicate Describes(c: ColumnType, v: Value, f: Field) {
    && f.name == c.name && f.typ == c.sqlType && f.charset == c.charset
    && (HasFlag(f, 1) <==> v.Int? || v.Uint?) && (HasFlag(f, 128) <==> v.Int? || v.Uint?) && (HasFlag(f, 32) <==> v.Uint?)
    && f.schema == [] && f.table == [] && f.orgTable == [] && f.orgName == [] && f.columnLength == 0 && f.decimal == 0
    && f.defaultValue.None?
  }

  /** A column definition once it has been sent: whether it is unsigned is left to the flag. */
  function OnWire(fields: seq<Field>): (r: seq<Field>)
    ensures |r| == |fields| && forall i :: 0 <= i < |r| ==> r[i] == fields[i].(isUnsigned := false)
  {
    seq(|fields|, (i: nat) requires i < |fields| => fields[i].(isUnsigned := false))
  }

  lemma ValueOnWire(fl: Floats, c: ColumnType, v: Value)
    requires ValidValue(v) && ColumnMatches(c, v)
    ensures var f := FieldFor(c, v);
            && Written(fl, f, v).Some?
            && (Convert(fl, f.(isUnsigned := false), Written(fl, f, v).value) == Some(v) <==> Survives(fl, v))
  {
    var f := FieldFor(c, v);
    SurvivesIff(fl, f, v);
    assert FlagUnsigned(f) <==> v.Uint?;
  }

  /** A single row of values of the columns' kinds reaches the client whole exactly when its floating-point
      numbers survive being written with sixteen decimals: the built bytes, parsed with the column
      definitions sent along, then give the same values. */
  lemma ClientSeesRow(fl: Floats, columns: seq<ColumnType>, values: seq<Value>)
    requires |columns| == |values| && ValidRow(values)
    requires forall j :: 0 <= j < |values| ==> ColumnMatches(columns[j], values[j])
    ensures var r := BuiltRows(fl, columns, [values]);
            && r.Built? && |r.rows| == 1
            && (ParsedRow(fl, r.rows[0], OnWire(r.fields)) == Run(values, []) <==>
                forall j :: 0 <= j < |values| ==> Survives(fl, values[j]))
  {
    var fields := FieldsFor(columns, values);
    var cells := Cells(fl, fields, values);
    forall j | 0 <= j < |values|
      ensures cells[j].Some?
      ensures Convert(fl, OnWire(fields)[j], Written(fl, fields[j], values[j]).value) == Some(values[j]) <==>
              Survives(fl, values[j])
    {
      ValueOnWire(fl, columns[j], values[j]);
    }
    assert RowBytes(fl, fields, values) == Some(Joined(Unwrap(cells)));
    OneRowBuilt(fl, columns, values);
    CellsDecode(fl, fields, values);
    var parts, strings, conv := Unwrap(cells), Contents(fl, fields, values), Converter(fl, OnWire(fields));
    assert Joined(parts) + [] == Joined(parts);
    if forall j :: 0 <= j < |values| ==> Survives(fl, values[j]) {
      RunRoundTrip(READER, conv, parts, strings, values, []);
    } else if ReadRun(READER, conv, Joined(parts), |parts|) == Run(values, []) {
      RunInverse(READER, conv, parts, strings, values, []);
    }
  }

  /** However its cells are converted, a built row is read to its end. */
  lemma RowRest(fl: Floats, fields: seq<Field>, values: seq<Value>, read: seq<Field>)
    requires |fields| == |values| == |read| && ValidRow(values) && RowBytes(fl, fields, values).Some?
    ensures var r := ParsedRow(fl, RowBytes(fl, fields, values).value, read); r.Run? ==> r.rest == []
  {
    CellsDecode(fl, fields, values);
    var parts := Unwrap(Cells(fl, fields, values));
    assert Joined(parts) + [] == Joined(parts);
    RunRest(READER, Converter(fl, read), parts, Contents(fl, fields, values), []);
  }

  lemma OneRowBuilt(fl: Floats, columns: seq<ColumnType>, values: seq<Value>)
    requires |columns| == |values| && ValidRow(values)
    requires RowBytes(fl, FieldsFor(columns, values), values).Some?
    ensures BuiltRows(fl, columns, [values]) ==
            Built(FieldsFor(columns, values), [RowBytes(fl, FieldsFor(columns, values), values).value])
  {
    assert [values][..0] == [];
    assert Folded(AdderFor(fl, columns), []) == Built([], []);
  }

  /** After the first row fields are blank: a value of its column's kind is then still written as it
      should be exactly when it is NULL or a byte string. Numbers become empty strings. */
  lemma BlankFieldIff(fl: Floats, f: Field, v: Value)
    requires ValidValue(v) && OfKind(f, v)
    ensures Written(fl, BLANK, v) == Written(fl, f, v) <==> v.Nil? || v.Bin?
  {
    if v.Int? { NumberText(v.n); }
    if v.Uint? { NumberText(v.u); }
  }

  /** Columns of numbers are NULL in the row. */
  predicate NoNumbers(columns: seq<ColumnType>, values: seq<Value>)
    requires |columns| == |values|
  {
    forall j :: 0 <= j < |values| && IsNumber(columns[j]) ==> values[j].Nil?
  }

  predicate IsNumber(c: ColumnType) { c.sqlType in INTEGER_TYPES || c.sqlType in FLOAT_TYPES }

  lemma BlankCell(fl: Floats, c: ColumnType, first: Value, v: Value)
    requires ValidValue(v) && ColumnMatches(c, v)
    ensures var f := FieldFor(c, first).(isUnsigned := false);
            && Written(fl, BLANK, v).Some?
            && (IsNumber(c) && !v.Nil? ==> Convert(fl, f, Written(fl, BLANK, v).value) == None)
            && (!IsNumber(c) || v.Nil? ==> Convert(fl, f, Written(fl, BLANK, v).value) == Some(v))
  {
    if v.Int? || v.Uint? || v.Float? {
      assert Written(fl, BLANK, v) == Some(Some([]));
      assert ToChars([]) == "" && D.ParseNat("", 10).None?;
    }
  }

  /** A row after the first reaches the client, as itself, exactly when it holds no number; otherwise
      the client cannot parse it. */
  lemma LaterRowIff(fl: Floats, columns: seq<ColumnType>, first: seq<Value>, values: seq<Value>)
    requires |columns| == |first| == |values| && ValidRow(values)
    requires forall j :: 0 <= j < |values| ==> ColumnMatches(columns[j], values[j])
    ensures RowBytes(fl, Blanks(|columns|), values).Some?
    ensures var r := ParsedRow(fl, RowBytes(fl, Blanks(|columns|), values).value, OnWire(FieldsFor(columns, first)));
            if NoNumbers(columns, values) then r == Run(values, []) else !r.Run?
  {
    var fields, sent := Blanks(|columns|), OnWire(FieldsFor(columns, first));
    var cells := Cells(fl, fields, values);
    forall j | 0 <= j < |values|
      ensures cells[j].Some?
      ensures IsNumber(columns[j]) && !values[j].Nil? ==> Convert(fl, sent[j], Written(fl, BLANK, values[j]).value) == None
      ensures !IsNumber(columns[j]) || values[j].Nil? ==>
              Convert(fl, sent[j], Written(fl, BLANK, values[j]).value) == Some(values[j])
    {
      BlankCell(fl, columns[j], first[j], values[j]);
    }
    CellsDecode(fl, fields, values);
    var parts, strings, conv := Unwrap(cells), Contents(fl, fields, values), Converter(fl, sent);
    assert Joined(parts) + [] == Joined(parts);
    if NoNumbers(columns, values) {
      RunRoundTrip(READER, conv, parts, strings, values, []);
    } else {
      var r := ReadRun(READER, conv, Joined(parts), |parts|);
      RunRest(READER, conv, parts, strings, []);
      var j :| 0 <= j < |values| && IsNumber(columns[j]) && !values[j].Nil?;
      assert conv(j, strings[j]) == None;
      if r.Run? {
        RunInverse(READER, conv, parts, strings, r.values, []);
        assert false;
      }
    }
  }

  /** The second row of a result with an integer column is an empty string, whatever its number, and the
      client cannot parse it. */
  lemma SecondRowLost(fl: Floats, c: ColumnType, first: int, second: int)
    requires c.sqlType in INTEGER_TYPES && !c.isUnsigned && ValidValue(Int(first)) && ValidValue(Int(second))
    ensures var r := BuiltRows(fl, [c], [[Int(first)], [Int(second)]]);
            r.Built? && |r.rows| == 2 && r.rows[1] == [0] && !ParsedRow(fl, r.rows[1], OnWire(r.fields)).Run?
  {
    BlankNumber(fl, second);
    var values := [Int(second)];
    assert IsNumber([c][0]) && !values[0].Nil?;
    SecondRow(fl, [c], [Int(first)], values);
  }

  lemma BlankNumber(fl: Floats, n: int)
    requires ValidValue(Int(n))
    ensures RowBytes(fl, Blanks(1), [Int(n)]) == Some([0])
  {
    assert Blanks(1) == [BLANK];
    OneCell(fl, BLANK, Int(n));
    assert Written(fl, BLANK, Int(n)) == Some(Some([]));
    assert PutLengthEncodedString([]) == [0];
  }

  lemma SecondRow(fl: Floats, columns: seq<ColumnType>, first: seq<Value>, second: seq<Value>)
    requires |columns| == |first| == |second| && ValidRow(first) && ValidRow(second)
    requires forall j :: 0 <= j < |columns| ==> ColumnMatches(columns[j], first[j]) && ColumnMatches(columns[j], second[j])
    ensures var r := BuiltRows(fl, columns, [first, second]);
            && r.Built? && |r.rows| == 2 && Some(r.rows[1]) == RowBytes(fl, Blanks(|columns|), second)
            && (ParsedRow(fl, r.rows[1], OnWire(r.fields)).Run? <==> NoNumbers(columns, second))
  {
    ClientSeesRow(fl, columns, first);
    LaterRowIff(fl, columns, first, second);
    SecondBuilt(fl, columns, first, second);
  }

  lemma SecondBuilt(fl: Floats, columns: seq<ColumnType>, first: seq<Value>, second: seq<Value>)
    requires |columns| == |first| == |second| && ValidRow(first) && ValidRow(second)
    requires BuiltRows(fl, columns, [first]).Built? && RowBytes(fl, Blanks(|columns|), second).Some?
    ensures BuiltRows(fl, columns, [first]).fields == FieldsFor(columns, first)
    ensures var b := BuiltRows(fl, columns, [first]);
            BuiltRows(fl, columns, [first, second]) == b.(rows := b.rows + [RowBytes(fl, Blanks(|columns|), second).value])
  {
    assert [first][..0] == [];
    assert Folded(AdderFor(fl, columns), []) == Built([], []);
    assert [first, second][..1] == [first];
  }

  lemma JoinedOne(part: bytes)
    ensures Joined([part]) == part
  {
    assert [part][..0] == [];
  }

  lemma OneCell(fl: Floats, f: Field, v: Value)
    requires ValidValue(v)
    ensures RowBytes(fl, [f], [v]) == Cell(fl, f, v)
  {
    var cells := Cells(fl, [f], [v]);
    if cells[0].Some? {
      assert Unwrap(cells) == [cells[0].value];
      JoinedOne(cells[0].value);
    }
  }

  lemma OneBuilt(fl: Floats, c: ColumnType, v: Value)
    requires ValidValue(v)
    ensures var f := FieldFor(c, v);
            BuiltRows(fl, [c], [[v]]) == if Cell(fl, f, v).None? then RawFails else Built([f], [Cell(fl, f, v).value])
  {
    OneCell(fl, FieldFor(c, v), v);
    assert FieldsFor([c], [v]) == [FieldFor(c, v)];
    assert [[v]][..0] == [];
    assert Folded(AdderFor(fl, [c]), []) == Built([], []);
    assert ValidRow([v]);
  }

  // ---------------------------------------------------------------- cache hits and fills

  /** decodeRow's fields: type and signedness of the schema's columns. */
  function SchemaFields(columns: seq<ColumnType>): (r: seq<Field>)
    ensures |r| == |columns|
    ensures forall i :: 0 <= i < |r| ==> r[i] == BLANK.(typ := columns[i].sqlType, isUnsigned := columns[i].isUnsigned)
  {
    seq(|columns|, (i: nat) requires i < |columns| =>
      BLANK.(typ := columns[i].sqlType, isUnsigned := columns[i].isUnsigned))
  }

  /** How ParseText treats a column. */
  datatype Class = Signed | Unsigned | Floating | Other

  function ClassOf(f: Field): Class {
    if f.typ in INTEGER_TYPES then if FlagUnsigned(f) || f.isUnsigned then Unsigned else Signed
    else if f.typ in FLOAT_TYPES then Floating
    else Other
  }

  predicate ClassesAgree(a: seq<Field>, b: seq<Field>) {
    |a| == |b| && forall i :: 0 <= i < |a| ==> ClassOf(a[i]) == ClassOf(b[i])
  }

  lemma ConvertByClass(fl: Floats, a: Field, b: Field)
    ensures ClassOf(a) == ClassOf(b) ==> forall s :: Convert(fl, a, s) == Convert(fl, b, s)
    ensures Convert(fl, a, Some(ONE)).Some? &&
            (Convert(fl, a, Some(ONE)) == Convert(fl, b, Some(ONE)) <==> ClassOf(a) == ClassOf(b))
  {
    assert ToChars(ONE) == "1";
    assert D.ParseNat("1", 10) == Some(1);
  }

  /** Parsing looks at nothing of a field but its class. */
  lemma ParsedByClass(fl: Floats, a: seq<Field>, b: seq<Field>, row: bytes)
    requires ClassesAgree(a, b)
    ensures ParsedRow(fl, row, a) == ParsedRow(fl, row, b)
  {
    forall i: nat, s | i < |a|
      ensures Converter(fl, a)(i, s) == Converter(fl, b)(i, s)
    {
      ConvertByClass(fl, a[i], b[i]);
    }
    SameRun(READER, Converter(fl, a), Converter(fl, b), row, |a|);
  }

  const ONE: bytes := [49]

  /** A row with a 1 in each column. */
  function Ones(n: nat): bytes { Joined(seq(n, (i: nat) => Put(Some(ONE)))) }

  lemma OnesParsed(fl: Floats, fields: seq<Field>)
    ensures var r := ParsedRow(fl, Ones(|fields|), fields);
            r.Run? && forall i :: 0 <= i < |fields| ==> Some(r.values[i]) == Convert(fl, fields[i], Some(ONE))
  {
    var parts: seq<bytes> := seq(|fields|, (i: nat) => Put(Some(ONE)));
    var strings: seq<Option<bytes>> := seq(|fields|, (i: nat) => Some(ONE));
    PutDecodes(Some(ONE));
    forall i | 0 <= i < |fields|
      ensures Convert(fl, fields[i], Some(ONE)).Some?
    {
      ConvertByClass(fl, fields[i], fields[i]);
    }
    var values := seq(|fields|, (i: nat) requires i < |fields| => Convert(fl, fields[i], Some(ONE)).value);
    RunRoundTrip(READER, Converter(fl, fields), parts, strings, values, []);
    assert Joined(parts) + [] == Joined(parts);
  }

  /** A 1 read by the column's own class is written; read by another it is not, or as nothing. */
  lemma OneWritten(fl: Floats, c: ColumnType, server: Field, hit: Value, fill: Value)
    requires var f := BLANK.(typ := c.sqlType, isUnsigned := c.isUnsigned);
             Some(hit) == Convert(fl, f, Some(ONE)) && Some(fill) == Convert(fl, server, Some(ONE)) &&
               ClassOf(f) != ClassOf(server)
    ensures ValidValue(hit) && ValidValue(fill)
    ensures Written(fl, FieldFor(c, hit), hit).Some?
    ensures if IsNumber(c) then Written(fl, FieldFor(c, fill), fill) == None
            else && Written(fl, FieldFor(c, hit), hit) == Some(Some(ONE))
                 && Written(fl, FieldFor(c, fill), fill) == Some(Some([]))
  {
    assert ToChars(ONE) == "1";
    assert D.ParseNat("1", 10) == Some(1);
  }

  /** Where the classes differ in a column, a stored 1 is not sent alike; in a column of numbers the fill
      cannot send it. */
  lemma AnswersDiffer(fl: Floats, server: seq<Field>, columns: seq<ColumnType>, i: nat)
    requires |server| == |columns| && i < |columns| && ClassOf(SchemaFields(columns)[i]) != ClassOf(server[i])
    ensures HitAnswer(fl, columns, [i], Ones(|columns|)) != FillAnswer(fl, columns, server, [i], Ones(|columns|))
    ensures IsNumber(columns[i]) ==> FillAnswer(fl, columns, server, [i], Ones(|columns|)) == Some(RawFails)
  {
    var hit, fill := ParsedRow(fl, Ones(|columns|), SchemaFields(columns)), ParsedRow(fl, Ones(|columns|), server);
    OnesParsed(fl, SchemaFields(columns));
    OnesParsed(fl, server);
    OneWritten(fl, columns[i], server[i], hit.values[i], fill.values[i]);
    OneBuilt(fl, columns[i], hit.values[i]);
    OneBuilt(fl, columns[i], fill.values[i]);
    assert Picked(columns, [i]) == [columns[i]];
    assert Picked(hit.values, [i]) == [hit.values[i]] && Picked(fill.values, [i]) == [fill.values[i]];
  }

  /** The columns a query asks for, by number. */
  predicate Numbers(cols: seq<nat>, n: nat) { forall k :: 0 <= k < |cols| ==> cols[k] < n }

  function Picked<A>(items: seq<A>, cols: seq<nat>): (r: seq<A>)
    requires Numbers(cols, |items|)
    ensures |r| == |cols| && forall k :: 0 <= k < |r| ==> r[k] == items[cols[k]]
  {
    seq(|cols|, (k: nat) requires k < |cols| => items[cols[k]])
  }

  /** What the client is sent for a row that was parsed: the asked columns of its values, built with the
      schema's columns. A row that does not parse is not answered. */
  function Answer(fl: Floats, columns: seq<ColumnType>, cols: seq<nat>, parsed: Run<Value>): Option<Built>
    requires Numbers(cols, |columns|) && (parsed.Run? ==> |parsed.values| == |columns|)
  {
    if parsed.Run? then Some(BuiltRows(fl, Picked(columns, cols), [Picked(parsed.values, cols)])) else None
  }

  /** The answer to a query that finds `row` in the cache. */
  function HitAnswer(fl: Floats, columns: seq<ColumnType>, cols: seq<nat>, row: bytes): Option<Built>
    requires Numbers(cols, |columns|)
  {
    Answer(fl, columns, cols, ParsedRow(fl, row, SchemaFields(columns)))
  }

  /** The answer to the query that fetched `row` from a server with those column definitions. */
  function FillAnswer(fl: Floats, columns: seq<ColumnType>, server: seq<Field>, cols: seq<nat>, row: bytes): Option<Built>
    requires |server| == |columns| && Numbers(cols, |columns|)
  {
    Answer(fl, columns, cols, ParsedRow(fl, row, server))
  }

  /** A hit on a stored row, whatever its bytes and whichever columns are asked for, sends the bytes the
      fill sent exactly when the server's column classes are the schema's; and so for the values. */
  lemma HitEqualsFillIff(fl: Floats, server: seq<Field>, columns: seq<ColumnType>)
    requires |server| == |columns|
    ensures (forall row, cols | Numbers(cols, |columns|) ::
               HitAnswer(fl, columns, cols, row) == FillAnswer(fl, columns, server, cols, row)) <==>
            ClassesAgree(SchemaFields(columns), server)
    ensures (forall row :: ParsedRow(fl, row, SchemaFields(columns)) == ParsedRow(fl, row, server)) <==>
            ClassesAgree(SchemaFields(columns), server)
  {
    var schema := SchemaFields(columns);
    if ClassesAgree(schema, server) {
      forall row
        ensures ParsedRow(fl, row, schema) == ParsedRow(fl, row, server)
      {
        ParsedByClass(fl, schema, server, row);
      }
    } else {
      var i :| 0 <= i < |columns| && ClassOf(schema[i]) != ClassOf(server[i]);
      AnswersDiffer(fl, server, columns, i);
      assert ParsedRow(fl, Ones(|columns|), schema) != ParsedRow(fl, Ones(|columns|), server);
    }
  }

  /** An INT column the schema takes as signed and the server now declares unsigned. */
  lemma SignsDiffer(fl: Floats)
    ensures var columns := [ColumnType(ToBytes("id"), 3, 63, false)]; var server := [BLANK.(typ := 3, flag := 32)];
            && HitAnswer(fl, columns, [0], [1, 49]).Some? && HitAnswer(fl, columns, [0], [1, 49]).value.Built?
            && FillAnswer(fl, columns, server, [0], [1, 49]) == Some(RawFails)
  {
    var columns, server := [ColumnType(ToBytes("id"), 3, 63, false)], [BLANK.(typ := 3, flag := 32)];
    JoinedOne(Put(Some(ONE)));
    assert seq(1, (i: nat) => Put(Some(ONE))) == [Put(Some(ONE))];
    assert Ones(1) == [1, 49];
    AnswersDiffer(fl, server, columns, 0);
  }
}
