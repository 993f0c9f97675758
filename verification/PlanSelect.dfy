/** Planning a SELECT as a lookup by primary key (planbuilder/select.go, proxy/conn_query.go). */
module PlanSelect {
  import opened Wrappers
  import opened Ast
  import opened Sequences
  import opened Schema
  import opened SqlMeaning
  import opened PlanWhere
  import Bytes
  import B = TrackedBuffer
  import D = Decimal
  import Tk = Tokenizer

  // ---------------------------------------------------------------- the planner

  function GetTableName(n: Node): string {
    if !n.TableName? then ""
    else if n.qualifier.Some? && n.qualifier.value != "" then n.qualifier.value + "." + n.name
    else n.name
  }

  function GetColName(n: Node): string { if n.ColName? then Lower(n.name) else "" }

  /** Column numbers of a select list, no simple list, an unknown column, or an impossible item. */
  datatype Selects = Numbers(cols: seq<nat>) | NotSimple | Unknown | Unreachable

  function AllColumns(t: Table): (r: seq<nat>)
    ensures |r| == |t.columns| && forall i :: 0 <= i < |r| ==> r[i] == i
  {
    seq(|t.columns|, (i: nat) => i)
  }

  /** What one item of the select list adds. */
  function SelectItem(expr: Node, t: Table): Selects {
    match expr
    case StarExpr(_) => Numbers(AllColumns(t))
    case NonStarExpr(e, _) =>
      var name := GetColName(e);
      var at := IndexOf(Names(t.columns), name);
      if name == "" then NotSimple else if at == -1 then Unknown else Numbers([at])
    case _ => Unreachable
  }

  function SelectItems(exprs: seq<Node>, t: Table): Selects {
    if exprs == [] then Numbers([])
    else
      var rest, item := SelectItems(exprs[..|exprs| - 1], t), SelectItem(exprs[|exprs| - 1], t);
      if rest.Numbers? && item.Numbers? then Numbers(rest.cols + item.cols)
      else if rest.Numbers? then item
      else rest
  }

  lemma {:induction false} SelectStops(exprs: seq<Node>, t: Table, i: nat)
    requires i <= |exprs| && !SelectItems(exprs[..i], t).Numbers?
    ensures SelectItems(exprs, t) == SelectItems(exprs[..i], t)
    decreases |exprs| - i
  {
    if i == |exprs| {
      assert exprs[..i] == exprs;
    } else {
      assert exprs[..i + 1][..i] == exprs[..i];
      SelectStops(exprs, t, i + 1);
    }
  }

  method AnalyzeSelectExprs(exprs: seq<Node>, t: Table) returns (r: Selects)
    ensures r == SelectItems(exprs, t)
  {
    var selects: seq<nat> := [];
    for i := 0 to |exprs|
      invariant SelectItems(exprs[..i], t) == Numbers(selects)
    {
      assert exprs[..i + 1][..i] == exprs[..i];
      var item := AnalyzeSelectExpr(exprs[i], t);
      if !item.Numbers? {
        SelectStops(exprs, t, i + 1);
        return item;
      }
      selects := selects + item.cols;
    }
    assert exprs[..|exprs|] == exprs;
    r := Numbers(selects);
  }

  /** One item of the list; a star stands for all columns. */
  method AnalyzeSelectExpr(expr: Node, t: Table) returns (r: Selects)
    ensures r == SelectItem(expr, t)
  {
    if expr.StarExpr? {
      var selects: seq<nat> := [];
      for c := 0 to |t.columns|
        invariant selects == AllColumns(t)[..c]
      {
        selects := selects + [c];
      }
      assert AllColumns(t)[..|t.columns|] == AllColumns(t);
      return Numbers(selects);
    }
    if !expr.NonStarExpr? {
      return Unreachable;
    }
    var name := GetColName(expr.expr);
    if name == "" {
      return NotSimple;
    }
    var at := IndexOf(Names(t.columns), name);
    r := if at == -1 then Unknown else Numbers([at]);
  }

  /** strconv.ParseInt with base 0. */
  function ParseInt0(s: string): Option<int> {
    if s == "" then None
    else
      match BaseZero(if s[0] == '-' || s[0] == '+' then s[1..] else s)
      case None => None
      case Some(v) => D.Signed(s[0] == '-', v)
  }

  predicate LimitOk(n: Node) {
    n.ValArg? || (n.NumVal? && ParseInt0(n.text).Some? && ParseInt0(n.text).value >= 0)
  }

  datatype SelectPlan = PassSelect | PkIn(columnNumbers: seq<nat>, values: seq<PkValue>) | PlanError | Crash

  function ItemsOf(n: Node): seq<Node> {
    if n.SelectExprs? || n.TableExprs? || n.GroupBy? || n.OrderBy? then n.items else []
  }

  /** GenerateFieldQuery gives nothing: formatted with an impossible WHERE, the select has bind variables. */
  predicate NoFieldQuery(keywords: set<string>, sel: Node) {
    B.Locations(B.NodePieces(B.Style(keywords, true), sel), 0) != []
  }

  /** The clauses that keep a SELECT from being a keyed lookup. */
  predicate Aggregates(sel: Node)
    requires sel.Select?
  {
    sel.distinct != "" || ItemsOf(sel.groupBy) != [] || (sel.having.Where? && sel.having.cond.Some?)
  }

  /** The tail of analyzeSelect, from the primary-key values on. A plan without them never reads the
      cache, so the choice among such plans does not matter here. */
  function PlanByKey(sel: Node, t: Table, cols: seq<nat>, conds: seq<Node>): SelectPlan
    requires sel.Select?
  {
    if t.indexes == [] || t.indexes[0].name != "PRIMARY" then Crash
    else
      match PkValuesOf(conds, t.indexes[0].columns)
      case Failed => PlanError
      case NoValues => PassSelect
      case Found(values) =>
        if !sel.limit.Limit? then PkIn(cols, values)
        else if sel.limit.offset.Some? && !LimitOk(sel.limit.offset.value) then PlanError
        else if !LimitOk(sel.limit.rowcount) then PlanError
        else if sel.limit.offset.Some? then PassSelect
        else PkIn(cols, values)
  }

  function PlanOnTable(sel: Node, t: Table): SelectPlan
    requires sel.Select?
  {
    match SelectItems(ItemsOf(sel.selectExprs), t)
    case Unknown => PlanError
    case Unreachable => Crash
    case NotSimple => PassSelect
    case Numbers(cols) =>
      match AnalyzeWhere(sel.where)
      case None => PassSelect
      case Some(conds) => if ItemsOf(sel.orderBy) != [] then PassSelect else PlanByKey(sel, t, cols, conds)
  }

  function FromName(sel: Node): string
    requires sel.Select?
  {
    var from := ItemsOf(sel.from);
    if |from| == 1 && from[0].AliasedTableExpr? then GetTableName(from[0].expr) else ""
  }

  function AnalyzeSelect(sel: Node, tables: map<string, Table>, keywords: set<string>): SelectPlan
    requires sel.Select?
  {
    var name := FromName(sel);
    if ItemsOf(sel.from) == [] then Crash
    else if name == "" then PassSelect
    else if name !in tables then PlanError
    else if NoFieldQuery(keywords, sel) || Aggregates(sel) || sel.lock != "" then PassSelect
    else if tables[name].cacheType != CACHE_RW then PassSelect
    else PlanOnTable(sel, tables[name])
  }

  // ---------------------------------------------------------------- what a SELECT means

  /** What an item of the select list shows of a row. */
  function ShownItem(t: Table, expr: Node, row: Row, o: Oracle): Row {
    if expr.StarExpr? then row
    else if expr.NonStarExpr? then [ValueOf(t, expr.expr, row, o)]
    else [o.value(expr, row)]
  }

  /** The values a select list shows of a row. */
  function Shown(t: Table, exprs: seq<Node>, row: Row, o: Oracle): Row {
    if exprs == [] then [] else Shown(t, exprs[..|exprs| - 1], row, o) + ShownItem(t, exprs[|exprs| - 1], row, o)
  }

  function Filter(rows: seq<Row>, keep: Row -> bool): seq<Row> {
    if rows == [] then []
    else (if keep(rows[0]) then [rows[0]] else []) + Filter(rows[1..], keep)
  }

  function ShownRows(t: Table, exprs: seq<Node>, rows: seq<Row>, o: Oracle): (r: seq<Row>)
    ensures |r| == |rows| && forall i :: 0 <= i < |r| ==> r[i] == Shown(t, exprs, rows[i], o)
  {
    seq(|rows|, (i: nat) requires i < |rows| => Shown(t, exprs, rows[i], o))
  }

  /** The rows a LIMIT without offset lets through; `None` when the database refuses it. */
  function Limited(limit: Node, rows: seq<Row>, t: Table, o: Oracle): Option<seq<Row>> {
    if !limit.Limit? then Some(rows)
    else
      var n := ValueOf(t, limit.rowcount, [], o);
      if !n.Int? || n.n < 0 then None
      else if n.n < |rows| then Some(rows[..n.n])
      else Some(rows)
  }

  predicate LimitAdmits(limit: Node, t: Table, o: Oracle) {
    limit.Limit? ==> var n := ValueOf(t, limit.rowcount, [], o); n.Int? && n.n > 0
  }

  /** A SELECT without aggregation, order or offset, on a table with the given rows. */
  function Original(t: Table, sel: Node, rows: seq<Row>, o: Oracle): Option<seq<Row>>
    requires sel.Select?
  {
    var passed := Filter(rows, row => WhereHolds(t, sel.where, row, o).T?);
    Limited(sel.limit, ShownRows(t, ItemsOf(sel.selectExprs), passed, o), t, o)
  }

  /** Rows of the right width with no two primary keys alike. */
  ghost predicate ValidRows(t: Table, rows: seq<Row>)
    requires WellFormed(t)
  {
    && (forall i :: 0 <= i < |rows| ==> |rows[i]| == |t.columns|)
    && (forall i, j :: 0 <= i < j < |rows| ==> PkOf(t, rows[i]) != PkOf(t, rows[j]))
  }

  // ---------------------------------------------------------------- what the proxy answers

  /** applyFilter. */
  function Projected(cols: seq<nat>, row: Row): (r: Row)
    requires forall i :: 0 <= i < |cols| ==> cols[i] < |row|
    ensures |r| == |cols| && forall i :: 0 <= i < |cols| ==> r[i] == row[cols[i]]
  {
    seq(|cols|, (i: nat) requires i < |cols| => row[cols[i]])
  }

  method ApplyFilter(cols: seq<nat>, input: Row) returns (output: Row)
    requires forall i :: 0 <= i < |cols| ==> cols[i] < |input|
    ensures output == Projected(cols, input)
  {
    output := seq(|cols|, (i: nat) => Null);
    for i := 0 to |cols|
      invariant |output| == |cols| && output[..i] == Projected(cols, input)[..i]
    {
      output := output[i := input[cols[i]]];
    }
  }

  lemma ItemProjection(t: Table, expr: Node, row: Row, o: Oracle)
    requires LowerNames(t.columns) && |row| == |t.columns| && SelectItem(expr, t).Numbers?
    ensures var cols := SelectItem(expr, t).cols;
            (forall i :: 0 <= i < |cols| ==> cols[i] < |t.columns|) && Projected(cols, row) == ShownItem(t, expr, row, o)
  {
    if expr.StarExpr? {
      assert Projected(AllColumns(t), row) == row;
    } else {
      ColumnValue(t, expr.expr.name, expr.expr.qualifier, row, o);
    }
  }

  lemma ProjectedAppend(a: seq<nat>, b: seq<nat>, row: Row)
    requires forall i :: 0 <= i < |a| ==> a[i] < |row|
    requires forall i :: 0 <= i < |b| ==> b[i] < |row|
    ensures forall i :: 0 <= i < |a + b| ==> (a + b)[i] < |row|
    ensures Projected(a + b, row) == Projected(a, row) + Projected(b, row)
  {
    assert forall i :: 0 <= i < |a + b| ==> (a + b)[i] == if i < |a| then a[i] else b[i - |a|];
  }

  /** The column numbers of a select list show exactly what the list asks for, of any row. */
  lemma {:induction false} ProjectionIsSelectList(t: Table, exprs: seq<Node>, row: Row, o: Oracle)
    requires LowerNames(t.columns) && |row| == |t.columns| && SelectItems(exprs, t).Numbers?
    ensures var cols := SelectItems(exprs, t).cols;
            (forall i :: 0 <= i < |cols| ==> cols[i] < |t.columns|) && Projected(cols, row) == Shown(t, exprs, row, o)
  {
    if exprs != [] {
      ProjectionIsSelectList(t, exprs[..|exprs| - 1], row, o);
      ItemProjection(t, exprs[|exprs| - 1], row, o);
      ProjectedAppend(SelectItems(exprs[..|exprs| - 1], t).cols, SelectItem(exprs[|exprs| - 1], t).cols, row);
    }
  }

  /** The conditions of the generated statement: each primary-key column equals its literal. */
  function KeyTest(t: Table, k: nat, v: PkValue): Node
    requires WellFormedKey(t) && k < |t.pkColumns| && v.Scalar?
  {
    ComparisonExpr("=", ColName(t.columns[t.pkColumns[k]].name, None), LiteralNode(v.v))
  }

  function KeyTests(t: Table, values: seq<PkValue>): (r: seq<Node>)
    requires WellFormedKey(t) && AllScalar(values) && |values| == |t.pkColumns|
    ensures |r| == |values| && forall k :: 0 <= k < |r| ==> r[k] == KeyTest(t, k, values[k])
  {
    seq(|values|, (k: nat) requires k < |values| => KeyTest(t, k, values[k]))
  }

  predicate WellFormedKey(t: Table) { forall k :: 0 <= k < |t.pkColumns| ==> t.pkColumns[k] < |t.columns| }

  function LiteralNode(l: Literal): Node {
    match l
    case NumLit(n) => NumVal(D.FormatInt(n))
    case StrLit(text) => StrVal(text)
    case NullLit => NullVal
  }

  function LiteralText(l: Literal): string {
    match l
    case NumLit(n) => D.FormatInt(n)
    case StrLit(text) => Tk.Quoted(text)
    case NullLit => "null"
  }

  /** A normalised number written out reads back as itself. */
  lemma NumberReadsBack(n: int)
    ensures MySqlInteger(D.FormatInt(n)) == Some(n)
  {
    var m: nat := if n < 0 then -n else n;
    var s := D.FormatUint(m);
    D.FormatNatRoundTrip(m);
    NotHex(s);
    assert D.IsDigit(s[0]);
    SignedReads(s, m);
  }

  lemma ColumnValue(t: Table, name: string, q: Option<string>, row: Row, o: Oracle)
    requires 0 <= IndexOf(Names(t.columns), Lower(name)) < |row|
    ensures ValueOf(t, ColName(name, q), row, o) == row[IndexOf(Names(t.columns), Lower(name))]
  {
  }

  lemma NumberValue(t: Table, text: string, n: int, row: Row, o: Oracle)
    requires MySqlInteger(text) == Some(n)
    ensures ValueOf(t, NumVal(text), row, o) == Int(n)
  {
  }

  lemma LiteralValue(t: Table, l: Literal, row: Row, o: Oracle)
    ensures ValueOf(t, LiteralNode(l), row, o) == LiteralVal(l)
  {
    if l.NumLit? {
      NumberReadsBack(l.n);
      NumberValue(t, D.FormatInt(l.n), l.n, row, o);
    }
  }

  lemma KeyColumn(t: Table, k: nat, row: Row, o: Oracle)
    requires WellFormed(t) && WellFormedKey(t) && k < |t.pkColumns| && |row| == |t.columns|
    ensures ValueOf(t, ColName(t.columns[t.pkColumns[k]].name, None), row, o) == row[t.pkColumns[k]]
  {
    var name := t.columns[t.pkColumns[k]].name;
    assert t.pkColumns[k] == IndexOf(Names(t.columns), t.indexes[0].columns[k]);
    assert name == t.indexes[0].columns[k] && Lower(name) == name;
    ColumnValue(t, name, None, row, o);
  }

  lemma EqualityHolds(t: Table, left: Node, right: Node, row: Row, o: Oracle)
    ensures Holds(t, ComparisonExpr("=", left, right), row, o) == Eq3(ValueOf(t, left, row, o), ValueOf(t, right, row, o))
  {
  }

  lemma KeyTestHolds(t: Table, k: nat, v: PkValue, row: Row, o: Oracle)
    requires WellFormed(t) && WellFormedKey(t) && k < |t.pkColumns| && v.Scalar? && !v.v.NullLit? && |row| == |t.columns|
    ensures Holds(t, KeyTest(t, k, v), row, o).T? <==> row[t.pkColumns[k]] == LiteralVal(v.v)
  {
    KeyColumn(t, k, row, o);
    LiteralValue(t, v.v, row, o);
    EqualityHolds(t, ColName(t.columns[t.pkColumns[k]].name, None), LiteralNode(v.v), row, o);
  }

  /** The generated statement selects exactly the rows whose primary key is the planned one. */
  lemma KeyTestsSelect(t: Table, values: seq<PkValue>, row: Row, o: Oracle)
    requires WellFormed(t) && WellFormedKey(t) && |values| == |t.pkColumns| && |row| == |t.columns|
    requires AllScalar(values) && forall k :: 0 <= k < |values| ==> !values[k].v.NullLit?
    ensures AllHold(t, KeyTests(t, values), row, o).T? <==> PkMatches(t, values, row)
  {
    var tests := KeyTests(t, values);
    AllHoldIff(t, tests, row, o);
    forall k | 0 <= k < |values|
      ensures Holds(t, tests[k], row, o).T? <==> row[t.pkColumns[k]] == LiteralVal(values[k].v)
    {
      KeyTestHolds(t, k, values[k], row, o);
    }
  }

  /** The generated text: conditions joined by " and ", from column `k` on. */
  function KeyedText(t: Table, values: seq<PkValue>, k: nat): string
    requires WellFormedKey(t) && AllScalar(values) && |values| == |t.pkColumns| && k <= |values|
    decreases |values| - k
  {
    if k == |values| then ";" else KeyedPart(t, values, k) + KeyedText(t, values, k + 1)
  }

  function KeyedPart(t: Table, values: seq<PkValue>, k: nat): string
    requires WellFormedKey(t) && |values| == |t.pkColumns| && k < |values| && values[k].Scalar?
  {
    t.columns[t.pkColumns[k]].name + "=" + LiteralText(values[k].v) + (if k < |values| - 1 then " and " else "")
  }

  datatype Generated = Sql(text: string) | Mismatch | TypePanic

  /** generateSelectSql: the text needs a literal for every primary-key column. */
  method GenerateSelectSql(t: Table, values: seq<PkValue>) returns (r: Generated)
    requires WellFormedKey(t)
    ensures r.Mismatch? <==> |values| != |t.pkColumns|
    ensures r.Sql? <==> |values| == |t.pkColumns| && AllScalar(values)
    ensures r.Sql? ==> r.text == "select * from " + t.name + " where " + KeyedText(t, values, 0)
  {
    if |values| != |t.pkColumns| {
      return Mismatch;
    }
    var head := "select * from " + t.name + " where ";
    var buf := head;
    for i := 0 to |values|
      invariant forall k :: 0 <= k < i ==> values[k].Scalar?
      invariant AllScalar(values) ==> buf + KeyedText(t, values, i) == head + KeyedText(t, values, 0)
    {
      if !values[i].Scalar? {
        return TypePanic;
      }
      var part := KeyedPart(t, values, i);
      if AllScalar(values) {
        Assoc(buf, part, KeyedText(t, values, i + 1));
      }
      buf := buf + part;
    }
    r := Sql(buf + ";");
  }

  /** The answer on the cached path: the first row the keyed statement finds, projected. There is none
      when a value is no literal: the statement cannot be written then. */
  function Cached(t: Table, cols: seq<nat>, values: seq<PkValue>, rows: seq<Row>, o: Oracle): Option<seq<Row>>
    requires WellFormedKey(t) && |values| == |t.pkColumns|
    requires forall i :: 0 <= i < |rows| ==> |rows[i]| == |t.columns|
    requires forall i :: 0 <= i < |cols| ==> cols[i] < |t.columns|
  {
    if !AllScalar(values) then None
    else
      var tests := KeyTests(t, values);
      var found := Filter(rows, row => AllHold(t, tests, row, o).T?);
      FilterKeeps(rows, row => AllHold(t, tests, row, o).T?, |t.columns|);
      if found == [] then Some([]) else Some([Projected(cols, found[0])])
  }

  // ---------------------------------------------------------------- the two agree

  lemma {:induction false} FilterKeeps(rows: seq<Row>, keep: Row -> bool, width: nat)
    requires forall i :: 0 <= i < |rows| ==> |rows[i]| == width
    ensures forall i :: 0 <= i < |Filter(rows, keep)| ==> |Filter(rows, keep)[i]| == width
  {
    if rows != [] { FilterKeeps(rows[1..], keep, width); }
  }

  lemma {:induction false} FilterIn(rows: seq<Row>, keep: Row -> bool, row: Row)
    ensures row in Filter(rows, keep) <==> row in rows && keep(row)
  {
    if rows != [] { FilterIn(rows[1..], keep, row); }
  }

  lemma {:induction false} FilterSame(rows: seq<Row>, p: Row -> bool, q: Row -> bool)
    requires forall i :: 0 <= i < |rows| ==> p(rows[i]) == q(rows[i])
    ensures Filter(rows, p) == Filter(rows, q)
  {
    if rows != [] { FilterSame(rows[1..], p, q); }
  }

  lemma SameKey(t: Table, values: seq<PkValue>, a: Row, b: Row)
    requires WellFormed(t) && |values| == |t.pkColumns| && AllScalar(values) && |a| == |b| == |t.columns|
    requires PkMatches(t, values, a) && PkMatches(t, values, b)
    ensures PkOf(t, a) == PkOf(t, b)
  {
  }

  /** With distinct keys, at most one row has the planned one. */
  lemma {:induction false} FilterOne(t: Table, values: seq<PkValue>, rows: seq<Row>, keep: Row -> bool)
    requires WellFormed(t) && |values| == |t.pkColumns| && AllScalar(values) && ValidRows(t, rows)
    requires forall i :: 0 <= i < |rows| && keep(rows[i]) ==> PkMatches(t, values, rows[i])
    ensures |Filter(rows, keep)| <= 1
  {
    if rows != [] {
      FilterOne(t, values, rows[1..], keep);
      if keep(rows[0]) && Filter(rows[1..], keep) != [] {
        var other := Filter(rows[1..], keep)[0];
        FilterIn(rows[1..], keep, other);
        var j :| 0 <= j < |rows| - 1 && rows[1..][j] == other;
        SameKey(t, values, rows[0], rows[j + 1]);
        assert false;
      }
    }
  }

  /** What a keyed plan tells about its SELECT. */
  lemma KeyedShape(sel: Node, t: Table, cols: seq<nat>, values: seq<PkValue>)
    requires sel.Select? && WellFormed(t) && PlanOnTable(sel, t) == PkIn(cols, values)
    ensures AnalyzeWhere(sel.where).Some? && KeyPlan(t, AnalyzeWhere(sel.where).value, values)
    ensures SelectItems(ItemsOf(sel.selectExprs), t) == Numbers(cols)
    ensures WellFormedKey(t) && |values| == |t.pkColumns|
  {
    var conds := AnalyzeWhere(sel.where).value;
    FlattenShape(sel.where.cond.value);
    assert PkValuesOf(conds, t.indexes[0].columns) == Found(values);
  }

  lemma KeptNotNull(t: Table, conds: seq<Node>, values: seq<PkValue>)
    requires ScalarPlan(t, conds, values)
    ensures forall k :: 0 <= k < |values| ==> !values[k].v.NullLit?
  {
    forall k | 0 <= k < |values|
      ensures !values[k].v.NullLit?
    {
      LastTestIsLiteral(t, conds, values, k);
    }
  }

  lemma ColumnsInRange(t: Table, exprs: seq<Node>)
    requires WellFormed(t) && SelectItems(exprs, t).Numbers?
    ensures forall i :: 0 <= i < |SelectItems(exprs, t).cols| ==> SelectItems(exprs, t).cols[i] < |t.columns|
  {
    var o := Oracle(_ => Null, _ => [], (_, _) => U, (_, _) => Null, (_, _) => Null);
    ProjectionIsSelectList(t, exprs, seq(|t.columns|, (i: nat) => Null), o);
  }

  /** On every table content, the cached path has an answer, and it is the database's. */
  ghost predicate SameAnswers(sel: Node, t: Table, cols: seq<nat>, values: seq<PkValue>, o: Oracle)
    requires sel.Select? && WellFormed(t) && WellFormedKey(t) && |values| == |t.pkColumns|
    requires forall i :: 0 <= i < |cols| ==> cols[i] < |t.columns|
  {
    forall rows :: ValidRows(t, rows) ==>
      Cached(t, cols, values, rows, o).Some? && Cached(t, cols, values, rows, o) == Original(t, sel, rows, o)
  }

  /** Both filters keep the same rows, at most one, when the conditions accept the planned key. */
  lemma SameRows(sel: Node, t: Table, cols: seq<nat>, values: seq<PkValue>, rows: seq<Row>, o: Oracle)
    requires sel.Select? && AnalyzeWhere(sel.where).Some? && ScalarPlan(t, AnalyzeWhere(sel.where).value, values)
    requires WellFormedKey(t) && PkTests(AnalyzeWhere(sel.where).value, t.indexes[0].columns)
    requires AllAccept(t, AnalyzeWhere(sel.where).value, KeptVals(values), o) && ValidRows(t, rows)
    ensures var found := Filter(rows, row => AllHold(t, KeyTests(t, values), row, o).T?);
            |found| <= 1 && found == Filter(rows, row => WhereHolds(t, sel.where, row, o).T?)
  {
    var p := row => AllHold(t, KeyTests(t, values), row, o).T?;
    var q := row => WhereHolds(t, sel.where, row, o).T?;
    var conds := AnalyzeWhere(sel.where).value;
    KeptNotNull(t, conds, values);
    forall i | 0 <= i < |rows|
      ensures (p(rows[i]) <==> PkMatches(t, values, rows[i])) && (q(rows[i]) <==> PkMatches(t, values, rows[i]))
    {
      KeyTestsSelect(t, values, rows[i], o);
      FlattenKeepsMeaning(t, sel.where.cond.value, rows[i], o);
      PassingRows(t, conds, values, rows[i], o);
    }
    FilterSame(rows, p, q);
    FilterOne(t, values, rows, p);
  }

  lemma AgreesWhenAccepted(sel: Node, t: Table, cols: seq<nat>, values: seq<PkValue>, rows: seq<Row>, o: Oracle)
    requires sel.Select? && AnalyzeWhere(sel.where).Some? && ScalarPlan(t, AnalyzeWhere(sel.where).value, values)
    requires SelectItems(ItemsOf(sel.selectExprs), t) == Numbers(cols)
    requires WellFormedKey(t) && PkTests(AnalyzeWhere(sel.where).value, t.indexes[0].columns)
    requires AllAccept(t, AnalyzeWhere(sel.where).value, KeptVals(values), o) && ValidRows(t, rows)
    requires LimitAdmits(sel.limit, t, o)
    ensures forall i :: 0 <= i < |cols| ==> cols[i] < |t.columns|
    ensures Cached(t, cols, values, rows, o) == Original(t, sel, rows, o)
  {
    ColumnsInRange(t, ItemsOf(sel.selectExprs));
    SameRows(sel, t, cols, values, rows, o);
    var tests := KeyTests(t, values);
    var found := Filter(rows, row => AllHold(t, tests, row, o).T?);
    FilterKeeps(rows, row => AllHold(t, tests, row, o).T?, |t.columns|);
    OneShown(t, sel, cols, found, o);
  }

  /** At most one row, shown and limited, is that row projected. */
  lemma OneShown(t: Table, sel: Node, cols: seq<nat>, found: seq<Row>, o: Oracle)
    requires sel.Select? && WellFormed(t) && SelectItems(ItemsOf(sel.selectExprs), t) == Numbers(cols)
    requires |found| <= 1 && (found != [] ==> |found[0]| == |t.columns|) && LimitAdmits(sel.limit, t, o)
    requires forall i :: 0 <= i < |cols| ==> cols[i] < |t.columns|
    ensures Limited(sel.limit, ShownRows(t, ItemsOf(sel.selectExprs), found, o), t, o) ==
            if found == [] then Some([]) else Some([Projected(cols, found[0])])
  {
    var shown := ShownRows(t, ItemsOf(sel.selectExprs), found, o);
    assert Limited(sel.limit, shown, t, o) == Some(shown);
    if found != [] {
      ProjectionIsSelectList(t, ItemsOf(sel.selectExprs), found[0], o);
      assert shown == [Projected(cols, found[0])];
    }
  }

  /** The planned row is found by key, and passes the WHERE when that accepts the key. */
  lemma KeyRowFate(where: Node, t: Table, values: seq<PkValue>, o: Oracle)
    requires AnalyzeWhere(where).Some? && ScalarPlan(t, AnalyzeWhere(where).value, values)
    requires WellFormedKey(t) && AllScalar(values)
    ensures PkTests(AnalyzeWhere(where).value, t.indexes[0].columns)
    ensures var row := RowWith(t, KeptVals(values));
            && AllHold(t, KeyTests(t, values), row, o).T?
            && (WhereHolds(t, where, row, o).T? <==> AllAccept(t, AnalyzeWhere(where).value, KeptVals(values), o))
  {
    var row, conds := RowWith(t, KeptVals(values)), AnalyzeWhere(where).value;
    KeyRow(t, conds, values, o);
    KeptNotNull(t, conds, values);
    KeyTestsSelect(t, values, row, o);
    FlattenKeepsMeaning(t, where.cond.value, row, o);
  }

  /** A table holding only the planned row tells the two apart when they may differ. */
  lemma DiffersOtherwise(sel: Node, t: Table, cols: seq<nat>, values: seq<PkValue>, o: Oracle)
    requires sel.Select? && AnalyzeWhere(sel.where).Some? && ScalarPlan(t, AnalyzeWhere(sel.where).value, values)
    requires WellFormedKey(t) && AllScalar(values) && PkTests(AnalyzeWhere(sel.where).value, t.indexes[0].columns)
    requires forall i :: 0 <= i < |cols| ==> cols[i] < |t.columns|
    requires !AllAccept(t, AnalyzeWhere(sel.where).value, KeptVals(values), o) || !LimitAdmits(sel.limit, t, o)
    ensures var rows := [RowWith(t, KeptVals(values))];
            ValidRows(t, rows) && Cached(t, cols, values, rows, o) != Original(t, sel, rows, o)
  {
    KeyRowFate(sel.where, t, values, o);
    OneValid(t, RowWith(t, KeptVals(values)));
    DiffersOn(sel, t, cols, values, RowWith(t, KeptVals(values)), o);
  }

  lemma OneValid(t: Table, row: Row)
    requires WellFormed(t) && |row| == |t.columns|
    ensures ValidRows(t, [row])
  {
  }

  lemma DiffersOn(sel: Node, t: Table, cols: seq<nat>, values: seq<PkValue>, row: Row, o: Oracle)
    requires sel.Select? && WellFormedKey(t) && AllScalar(values) && |values| == |t.pkColumns| && |row| == |t.columns|
    requires forall i :: 0 <= i < |cols| ==> cols[i] < |t.columns|
    requires AllHold(t, KeyTests(t, values), row, o).T?
    requires !WhereHolds(t, sel.where, row, o).T? || !LimitAdmits(sel.limit, t, o)
    ensures Cached(t, cols, values, [row], o) != Original(t, sel, [row], o)
  {
    CachedOne(t, cols, values, row, o);
    OriginalNone(t, sel, row, o);
  }

  lemma CachedOne(t: Table, cols: seq<nat>, values: seq<PkValue>, row: Row, o: Oracle)
    requires WellFormedKey(t) && AllScalar(values) && |values| == |t.pkColumns| && |row| == |t.columns|
    requires forall i :: 0 <= i < |cols| ==> cols[i] < |t.columns|
    requires AllHold(t, KeyTests(t, values), row, o).T?
    ensures Cached(t, cols, values, [row], o) == Some([Projected(cols, row)])
  {
    var tests := KeyTests(t, values);
    FilterSingle(row, r => AllHold(t, tests, r, o).T?);
  }

  lemma OriginalNone(t: Table, sel: Node, row: Row, o: Oracle)
    requires sel.Select? && (!WhereHolds(t, sel.where, row, o).T? || !LimitAdmits(sel.limit, t, o))
    ensures Original(t, sel, [row], o) in {None, Some([])}
  {
    FilterSingle(row, r => WhereHolds(t, sel.where, r, o).T?);
    var passed := Filter([row], r => WhereHolds(t, sel.where, r, o).T?);
    assert |ShownRows(t, ItemsOf(sel.selectExprs), passed, o)| == |passed|;
  }

  lemma FilterSingle(row: Row, keep: Row -> bool)
    ensures Filter([row], keep) == if keep(row) then [row] else []
  {
    assert Filter([row][1..], keep) == [];
  }

  /** The cached path answers every table content as the database would exactly when it has a literal
      for every primary-key column, the WHERE accepts the key they make, and the LIMIT lets a row
      through. */
  lemma CachedIff(sel: Node, t: Table, cols: seq<nat>, values: seq<PkValue>, o: Oracle)
    requires sel.Select? && WellFormed(t) && PlanOnTable(sel, t) == PkIn(cols, values)
    ensures AnalyzeWhere(sel.where).Some? && PkTests(AnalyzeWhere(sel.where).value, t.indexes[0].columns)
    ensures WellFormedKey(t) && |values| == |t.pkColumns| && forall i :: 0 <= i < |cols| ==> cols[i] < |t.columns|
    ensures SameAnswers(sel, t, cols, values, o) <==>
            && AllScalar(values) && AllAccept(t, AnalyzeWhere(sel.where).value, KeptVals(values), o)
            && LimitAdmits(sel.limit, t, o)
  {
    KeyedShape(sel, t, cols, values);
    ColumnsInRange(t, ItemsOf(sel.selectExprs));
    PkValuesMeaning(AnalyzeWhere(sel.where).value, t.indexes[0].columns);
    if AllScalar(values) {
      ScalarIff(sel, t, cols, values, o);
    } else {
      NoAnswer(sel, t, cols, values, o);
    }
  }

  lemma ScalarIff(sel: Node, t: Table, cols: seq<nat>, values: seq<PkValue>, o: Oracle)
    requires sel.Select? && AnalyzeWhere(sel.where).Some? && ScalarPlan(t, AnalyzeWhere(sel.where).value, values)
    requires SelectItems(ItemsOf(sel.selectExprs), t) == Numbers(cols) && WellFormedKey(t)
    requires PkTests(AnalyzeWhere(sel.where).value, t.indexes[0].columns)
    requires forall i :: 0 <= i < |cols| ==> cols[i] < |t.columns|
    ensures SameAnswers(sel, t, cols, values, o) <==>
            AllAccept(t, AnalyzeWhere(sel.where).value, KeptVals(values), o) && LimitAdmits(sel.limit, t, o)
  {
    if AllAccept(t, AnalyzeWhere(sel.where).value, KeptVals(values), o) && LimitAdmits(sel.limit, t, o) {
      forall rows | ValidRows(t, rows)
        ensures Cached(t, cols, values, rows, o) == Original(t, sel, rows, o)
      {
        AgreesWhenAccepted(sel, t, cols, values, rows, o);
      }
    } else {
      DiffersOtherwise(sel, t, cols, values, o);
    }
  }

  lemma NoAnswer(sel: Node, t: Table, cols: seq<nat>, values: seq<PkValue>, o: Oracle)
    requires sel.Select? && WellFormed(t) && WellFormedKey(t) && |values| == |t.pkColumns| && !AllScalar(values)
    requires forall i :: 0 <= i < |cols| ==> cols[i] < |t.columns|
    ensures !SameAnswers(sel, t, cols, values, o)
  {
    assert ValidRows(t, []) && Cached(t, cols, values, [], o).None?;
  }

  /** The select list has stars and known columns only. */
  predicate PlainItems(exprs: seq<Node>, t: Table) {
    forall i :: 0 <= i < |exprs| ==>
      exprs[i].StarExpr? ||
      (exprs[i].NonStarExpr? && exprs[i].expr.ColName? && exprs[i].expr.name != "" &&
       Lower(exprs[i].expr.name) in Names(t.columns))
  }

  lemma {:induction false} NumbersIff(exprs: seq<Node>, t: Table)
    ensures SelectItems(exprs, t).Numbers? <==> PlainItems(exprs, t)
  {
    if exprs != [] {
      var last := |exprs| - 1;
      NumbersIff(exprs[..last], t);
      assert forall i :: 0 <= i < last ==> exprs[..last][i] == exprs[i];
    }
  }

  /** A SELECT that can be looked up: from one table cached for reading and writing, without DISTINCT, GROUP
      BY, HAVING, ORDER BY, offset or lock, with known columns and stars only in its list and no bind variable
      there, and with a WHERE that tests the primary key's columns, all of them and nothing else. */
  ghost predicate IsLookup(sel: Node, tables: map<string, Table>, keywords: set<string>)
    requires sel.Select?
  {
    && FromName(sel) != "" && FromName(sel) in tables && tables[FromName(sel)].cacheType.CACHE_RW?
    && !Aggregates(sel) && sel.lock == "" && ItemsOf(sel.orderBy) == [] && !NoFieldQuery(keywords, sel)
    && (sel.limit.Limit? ==> sel.limit.offset.None? && LimitOk(sel.limit.rowcount))
    && var t := tables[FromName(sel)];
    && PlainItems(ItemsOf(sel.selectExprs), t) && t.indexes != [] && t.indexes[0].name == "PRIMARY"
    && AnalyzeWhere(sel.where).Some? && Covers(AnalyzeWhere(sel.where).value, t.indexes[0].columns)
  }

  /** Exactly these are planned as a lookup. */
  lemma LookupIff(sel: Node, tables: map<string, Table>, keywords: set<string>)
    requires sel.Select?
    ensures AnalyzeSelect(sel, tables, keywords).PkIn? <==> IsLookup(sel, tables, keywords)
  {
    if FromName(sel) in tables {
      var t := tables[FromName(sel)];
      NumbersIff(ItemsOf(sel.selectExprs), t);
      if AnalyzeWhere(sel.where).Some? && t.indexes != [] {
        PkValuesMeaning(AnalyzeWhere(sel.where).value, t.indexes[0].columns);
      }
    }
  }

  predicate HasVariable(pieces: seq<B.Piece>) { exists i :: 0 <= i < |pieces| && pieces[i].Bind? }

  lemma {:induction false} LocatedIff(pieces: seq<B.Piece>, base: nat)
    ensures B.Locations(pieces, base) != [] <==> HasVariable(pieces)
  {
    if pieces != [] {
      LocatedIff(pieces[1..], base + |B.PieceText(pieces[0])|);
      assert forall i :: 0 < i < |pieces| ==> pieces[i] == pieces[1..][i - 1];
    }
  }

  /** There is no field query exactly when a variable is printed in the select list or the FROM clause. */
  lemma NoFieldQueryIff(keywords: set<string>, sel: Node)
    requires sel.Select?
    ensures var st := B.Style(keywords, true);
            NoFieldQuery(keywords, sel) <==>
            HasVariable(B.NodePieces(st, sel.selectExprs)) || HasVariable(B.NodePieces(st, sel.from))
  {
    var st := B.Style(keywords, true);
    LocatedIff(B.NodePieces(st, sel), 0);
    ImpossiblePieces(st, sel, sel.selectExprs, sel.from);
  }

  lemma VariableEither(a: seq<B.Piece>, b: seq<B.Piece>)
    ensures HasVariable(a + b) <==> HasVariable(a) || HasVariable(b)
  {
    if HasVariable(a) {
      var i :| 0 <= i < |a| && a[i].Bind?;
      assert (a + b)[i] == a[i];
    } else if HasVariable(b) {
      var i :| 0 <= i < |b| && b[i].Bind?;
      assert (a + b)[|a| + i] == b[i];
    }
  }

  lemma {:induction false} SegsVariable(st: B.Style, segs: seq<B.Seg>, n: Node)
    requires B.Below(segs, n)
    ensures HasVariable(B.SegPieces(st, segs, n)) <==>
            exists i :: 0 <= i < |segs| && HasVariable(SegOf(st, segs[i]))
    decreases |segs|
  {
    if segs != [] {
      assert segs[0] in segs;
      VariableEither(B.SegPiece(st, segs[0], n), B.SegPieces(st, segs[1..], n));
      SegsVariable(st, segs[1..], n);
      assert forall i :: 0 < i < |segs| ==> segs[i] == segs[1..][i - 1];
    }
  }

  /** What a segment prints. */
  function SegOf(st: B.Style, s: B.Seg): seq<B.Piece> {
    match s
    case Lit(text) => B.Chars(text)
    case Str(text) => B.Chars(text)
    case Chr(c) => [B.Ch(c)]
    case Sub(node) => B.NodePieces(st, node)
    case Arg(name) => [B.Bind(name)]
  }

  lemma ImpossiblePieces(st: B.Style, sel: Node, exprs: Node, from: Node)
    requires st.impossible && sel.Select? && sel.selectExprs == exprs && sel.from == from
    ensures HasVariable(B.NodePieces(st, sel)) <==>
            HasVariable(B.NodePieces(st, exprs)) || HasVariable(B.NodePieces(st, from))
  {
    var segs := [B.Lit("select "), B.Sub(exprs), B.Lit(" from "), B.Sub(from), B.Lit(" where 1 != 1")];
    assert B.Layout(st, sel) == segs;
    SegsVariable(st, segs, sel);
    assert segs[1] == B.Sub(exprs) && segs[3] == B.Sub(from);
  }

  lemma {:induction false} LeadsNonZero(n: nat)
    requires n > 0
    ensures D.FormatUint(n)[0] != '0'
  {
    if n >= 10 { LeadsNonZero(n / 10); }
  }

  /** A number is accepted as a row count exactly when it is a 64-bit one and not negative. */
  lemma LimitOkIff(n: int)
    ensures LimitOk(NumVal(D.FormatInt(n))) <==> 0 <= n <= Bytes.MAX_INT64
  {
    var m: nat := if n < 0 then -n else n;
    D.FormatNatRoundTrip(m);
    if m > 0 { LeadsNonZero(m); }
    var s := D.FormatUint(m);
    assert n < 0 ==> D.FormatInt(n)[1..] == s;
    assert D.IsDigit(s[0]);
  }

  /** Only a plain SELECT is planned as a lookup: on one table cached for reading and writing, without
      DISTINCT, GROUP BY, HAVING, ORDER BY, offset or lock, without bind variables in its select list,
      and with a WHERE that gives a value for every primary-key column. */
  lemma KeyedIsPlain(sel: Node, tables: map<string, Table>, keywords: set<string>, cols: seq<nat>, values: seq<PkValue>)
    requires sel.Select? && AnalyzeSelect(sel, tables, keywords) == PkIn(cols, values)
    ensures FromName(sel) != "" && FromName(sel) in tables && tables[FromName(sel)].cacheType.CACHE_RW?
    ensures sel.distinct == "" && ItemsOf(sel.groupBy) == [] && !(sel.having.Where? && sel.having.cond.Some?)
    ensures sel.lock == "" && ItemsOf(sel.orderBy) == [] &&
            (sel.limit.Limit? ==> sel.limit.offset.None? && LimitOk(sel.limit.rowcount))
    ensures !NoFieldQuery(keywords, sel)
    ensures var t := tables[FromName(sel)];
            && AnalyzeWhere(sel.where).Some? && t.indexes != [] && t.indexes[0].name == "PRIMARY"
            && Covers(AnalyzeWhere(sel.where).value, t.indexes[0].columns)
            && SelectItems(ItemsOf(sel.selectExprs), t) == Numbers(cols)
  {
    var t := tables[FromName(sel)];
    assert PlanOnTable(sel, t) == PkIn(cols, values);
    PkValuesMeaning(AnalyzeWhere(sel.where).value, t.indexes[0].columns);
  }

  /** A SELECT planned as a lookup, with one `=` per primary-key column, literals that read alike on
      both sides and no LIMIT below one, is answered as the database would on every table content. */
  lemma PlannedSelectIsKept(sel: Node, tables: map<string, Table>, keywords: set<string>,
                            cols: seq<nat>, values: seq<PkValue>, o: Oracle)
    requires sel.Select? && AnalyzeSelect(sel, tables, keywords) == PkIn(cols, values) && AllScalar(values)
    requires FromName(sel) in tables && WellFormed(tables[FromName(sel)]) && AnalyzeWhere(sel.where).Some?
    requires var pk, conds := tables[FromName(sel)].indexes[0].columns, AnalyzeWhere(sel.where).value;
             && (forall i, j :: 0 <= i < j < |conds| ==> PkTest(conds[i], pk) != PkTest(conds[j], pk))
             && (forall i :: 0 <= i < |conds| && conds[i].ComparisonExpr? ==> ReadsAlike(conds[i].right))
    requires LimitAdmits(sel.limit, tables[FromName(sel)], o)
    ensures var t := tables[FromName(sel)];
            && t.cacheType.CACHE_RW? && WellFormedKey(t) && |values| == |t.pkColumns| && AllScalar(values)
            && (forall i :: 0 <= i < |cols| ==> cols[i] < |t.columns|)
            && SameAnswers(sel, t, cols, values, o)
  {
    var t := tables[FromName(sel)];
    KeyedShape(sel, t, cols, values);
    CachedIff(sel, t, cols, values, o);
    OneTestPerColumn(t, AnalyzeWhere(sel.where).value, values, o);
  }

  // ---------------------------------------------------------------- where they differ

  const ID_TABLE := Table("t", [Column("id", None)], [Index("PRIMARY", ["id"], [1], ["id"])], [0], CACHE_RW)

  function IdIs(number: string): Node { ComparisonExpr("=", ColName("id", None), NumVal(number)) }

  function StarFromT(cond: Node, limit: Node): Node {
    Select(Comments([]), "", SelectExprs([StarExpr(None)]),
           TableExprs([AliasedTableExpr(TableName("t", None), None, None)]),
           Where("where", Some(cond)), GroupBy([]), Where("having", None), OrderBy([]), limit, "")
  }

  lemma IdTable()
    ensures WellFormed(ID_TABLE) && IndexOf(["id"], "id") == 0
    ensures SelectItems([StarExpr(None)], ID_TABLE) == Numbers([0])
  {
    assert Names(ID_TABLE.columns) == ["id"];
    assert Lower("id") == "id";
    assert AllColumns(ID_TABLE) == [0];
    assert [StarExpr(None)][..0] == [];
  }

  /** Planning `select * from t where id = a [and id = b]`. */
  lemma IdPlan(cond: Node, limit: Node, conds: seq<Node>, v: PkValue)
    requires limit == NoLimit || (limit.Limit? && limit.offset.None? && LimitOk(limit.rowcount))
    requires AnalyzeBoolean(cond) == Some(conds) && PkValuesOf(conds, ["id"]) == Found([v])
    ensures PlanOnTable(StarFromT(cond, limit), ID_TABLE) == PkIn([0], [v])
  {
    IdTable();
  }

  lemma OneIdTest(number: string, n: int)
    requires BuildNumeric(number) == Some(n)
    ensures PkValuesOf([IdIs(number)], ["id"]) == Found([Scalar(NumLit(n))])
  {
    IdTable();
    var conds := [IdIs(number)];
    assert conds[..0] == [];
    assert PkSlots(conds, ["id"]) == Slots([Some(Scalar(NumLit(n)))]);
  }

  predicate Planned(sel: Node, n: int) { sel.Select? && PlanOnTable(sel, ID_TABLE) == PkIn([0], [Scalar(NumLit(n))]) }

  /** Looked up by key `n`, and answered otherwise than by the database. */
  ghost predicate Differs(sel: Node, n: int, o: Oracle) {
    && Planned(sel, n) && WellFormed(ID_TABLE) && WellFormedKey(ID_TABLE)
    && !SameAnswers(sel, ID_TABLE, [0], [Scalar(NumLit(n))], o)
  }

  /** One refusing condition, or a LIMIT of nothing, makes the answers differ. */
  lemma IdDiffers(sel: Node, n: int, i: nat, o: Oracle)
    requires Planned(sel, n)
    requires AnalyzeWhere(sel.where).Some? && i < |AnalyzeWhere(sel.where).value|
    requires var cond := AnalyzeWhere(sel.where).value[i];
             (cond.ComparisonExpr? && !Accepts(ID_TABLE, cond, Int(n), o).T?) || !LimitAdmits(sel.limit, ID_TABLE, o)
    ensures Differs(sel, n, o)
  {
    IdTable();
    var values := [Scalar(NumLit(n))];
    CachedIff(sel, ID_TABLE, [0], values, o);
    if LimitAdmits(sel.limit, ID_TABLE, o) {
      var conds := AnalyzeWhere(sel.where).value;
      assert PkTest(conds[i], ID_TABLE.indexes[0].columns) == 0;
      assert KeptVals(values)[0] == Int(n);
    }
  }

  lemma SmallNumbers()
    ensures BuildNumeric("0") == Some(0) == MySqlInteger("0")
    ensures BuildNumeric("1") == Some(1) == MySqlInteger("1")
    ensures BuildNumeric("2") == Some(2) == MySqlInteger("2")
    ensures ParseInt0("0") == Some(0)
  {
  }

  lemma IdRefuses(number: string, n: int, o: Oracle)
    requires MySqlInteger(number).Some? && MySqlInteger(number) != Some(n)
    ensures !Accepts(ID_TABLE, IdIs(number), Int(n), o).T?
  {
  }

  lemma OnePlanned(number: string, limit: Node, n: int)
    requires limit == NoLimit || (limit.Limit? && limit.offset.None? && LimitOk(limit.rowcount))
    requires BuildNumeric(number) == Some(n)
    ensures Planned(StarFromT(IdIs(number), limit), n)
    ensures AnalyzeWhere(StarFromT(IdIs(number), limit).where) == Some([IdIs(number)])
  {
    OneIdTest(number, n);
    IdPlan(IdIs(number), limit, [IdIs(number)], Scalar(NumLit(n)));
  }

  /** 010 is looked up as eight, where the database reads ten. */
  lemma OctalDiffers(o: Oracle)
    ensures Differs(StarFromT(IdIs("010"), NoLimit), 8, o)
  {
    OctalExample();
    OnePlanned("010", NoLimit, 8);
    IdRefuses("010", 8, o);
    IdDiffers(StarFromT(IdIs("010"), NoLimit), 8, 0, o);
  }

  lemma ZeroLimit(o: Oracle)
    ensures var limit := Limit(None, NumVal("0")); LimitOk(limit.rowcount) && !LimitAdmits(limit, ID_TABLE, o)
  {
    SmallNumbers();
  }

  /** LIMIT 0 is planned and answered with a row all the same. */
  lemma LimitZeroDiffers(o: Oracle)
    ensures Differs(StarFromT(IdIs("1"), Limit(None, NumVal("0"))), 1, o)
  {
    ZeroLimit(o);
    assert BuildNumeric("1") == Some(1) by { SmallNumbers(); }
    OnePlanned("1", Limit(None, NumVal("0")), 1);
    IdDiffers(StarFromT(IdIs("1"), Limit(None, NumVal("0"))), 1, 0, o);
  }

  lemma TwoIdTests(a: string, b: string, m: int, n: int)
    requires BuildNumeric(a) == Some(m) && BuildNumeric(b) == Some(n)
    ensures PkValuesOf([IdIs(a), IdIs(b)], ["id"]) == Found([Scalar(NumLit(n))])
  {
    OneIdTest(a, m);
    IdTable();
    var conds := [IdIs(a), IdIs(b)];
    assert conds[..1] == [IdIs(a)];
    assert PkSlots([IdIs(a)], ["id"]).Slots?;
    assert PkSlots(conds, ["id"]).slots[0] == Some(Scalar(NumLit(n)));
  }

  lemma TwoFlattened(a: Node, b: Node)
    requires SimpleTest(a) && SimpleTest(b) && !IsIn(a) && a.ComparisonExpr? && b.ComparisonExpr?
    ensures AnalyzeBoolean(AndExpr(a, b)) == Some([a, b])
  {
    assert AnalyzeBoolean(a) == Some([a]) && AnalyzeBoolean(b) == Some([b]);
    assert [a] + [b] == [a, b];
  }

  lemma TwoPlanned(a: string, b: string, m: int, n: int)
    requires BuildNumeric(a) == Some(m) && BuildNumeric(b) == Some(n)
    ensures var sel := StarFromT(AndExpr(IdIs(a), IdIs(b)), NoLimit);
            Planned(sel, n) && AnalyzeWhere(sel.where) == Some([IdIs(a), IdIs(b)])
  {
    TwoIdTests(a, b, m, n);
    TwoFlattened(IdIs(a), IdIs(b));
    IdPlan(AndExpr(IdIs(a), IdIs(b)), NoLimit, [IdIs(a), IdIs(b)], Scalar(NumLit(n)));
  }

  lemma TwoDiffer(a: string, b: string, m: int, n: int, o: Oracle)
    requires BuildNumeric(a) == Some(m) == MySqlInteger(a) && BuildNumeric(b) == Some(n) && m != n
    ensures Differs(StarFromT(AndExpr(IdIs(a), IdIs(b)), NoLimit), n, o)
  {
    TwoPlanned(a, b, m, n);
    IdRefuses(a, n, o);
    IdDiffers(StarFromT(AndExpr(IdIs(a), IdIs(b)), NoLimit), n, 0, o);
  }

  /** Of two conditions on a column only the second is looked up: `id = 1 and id = 2` finds row two. */
  lemma OverwriteDiffers(o: Oracle)
    ensures Differs(StarFromT(AndExpr(IdIs("1"), IdIs("2")), NoLimit), 2, o)
  {
    SmallNumbers();
    TwoDiffer("1", "2", 1, 2, o);
  }

  function IdIn(a: string, b: string): Node { ComparisonExpr("in", ColName("id", None), ValTuple([NumVal(a), NumVal(b)])) }

  function TwoNumbers(m: int, n: int): PkValue { Many([Scalar(NumLit(m)), Scalar(NumLit(n))]) }

  lemma TwoItems(a: Node, b: Node, x: PkValue, y: PkValue)
    requires AsInterface(a) == Some(x) && AsInterface(b) == Some(y)
    ensures AsInterfaces([a, b]) == Some([x, y])
  {
    ItemsCons(b, [], y, []);
    assert [b] + [] == [b] && [y] + [] == [y];
    ItemsCons(a, [b], x, [y]);
    assert [a] + [b] == [a, b] && [x] + [y] == [x, y];
  }

  lemma ItemsCons(n: Node, rest: seq<Node>, v: PkValue, vs: seq<PkValue>)
    requires AsInterface(n) == Some(v) && AsInterfaces(rest) == Some(vs)
    ensures AsInterfaces([n] + rest) == Some([v] + vs)
  {
    assert ([n] + rest)[1..] == rest;
  }

  lemma OneSlot(cond: Node, v: PkValue)
    requires PkTest(cond, ["id"]) == 0 && AsInterface(cond.right) == Some(v)
    ensures PkValuesOf([cond], ["id"]) == Found([v])
  {
    assert [cond][..0] == [];
    assert PkSlots([cond], ["id"]) == Slots([Some(v)]);
  }

  lemma TwoNumbersPlan(a: string, b: string, m: int, n: int)
    requires BuildNumeric(a) == Some(m) && BuildNumeric(b) == Some(n)
    ensures AnalyzeBoolean(IdIn(a, b)) == Some([IdIn(a, b)])
    ensures PkValuesOf([IdIn(a, b)], ["id"]) == Found([TwoNumbers(m, n)])
  {
    InFlattens(IdIn(a, b));
    TwoItems(NumVal(a), NumVal(b), Scalar(NumLit(m)), Scalar(NumLit(n)));
    InTests(IdIn(a, b));
    TupleKept([NumVal(a), NumVal(b)], [Scalar(NumLit(m)), Scalar(NumLit(n))]);
    OneSlot(IdIn(a, b), TwoNumbers(m, n));
  }

  lemma TupleKept(items: seq<Node>, vs: seq<PkValue>)
    requires AsInterfaces(items) == Some(vs)
    ensures AsInterface(ValTuple(items)) == Some(Many(vs))
  {
  }

  lemma InFlattens(n: Node)
    requires IsIn(n) && n.left.ColName? && IsSimpleTuple(n.right)
    ensures AnalyzeBoolean(n) == Some([n])
  {
    assert "in" !in COMPARISONS by { assert |"in"| == 2 && "in"[0] == 'i'; }
  }

  lemma InTests(n: Node)
    requires IsIn(n) && n.left.ColName? && n.left.name == "id"
    ensures PkTest(n, ["id"]) == 0
  {
  }

  /** `select * from t where id in (1, 2)` is looked up by key and then has no answer. */
  lemma ListFails(o: Oracle)
    ensures var sel, values := StarFromT(IdIn("1", "2"), NoLimit), [TwoNumbers(1, 2)];
            && PlanOnTable(sel, ID_TABLE) == PkIn([0], values) && WellFormed(ID_TABLE) && WellFormedKey(ID_TABLE)
            && !SameAnswers(sel, ID_TABLE, [0], values, o)
  {
    assert BuildNumeric("1") == Some(1) && BuildNumeric("2") == Some(2) by { SmallNumbers(); }
    TwoNumbersPlan("1", "2", 1, 2);
    NoLiteralFails(IdIn("1", "2"), TwoNumbers(1, 2), o);
  }

  lemma NoLiteralFails(cond: Node, v: PkValue, o: Oracle)
    requires AnalyzeBoolean(cond) == Some([cond]) && PkValuesOf([cond], ["id"]) == Found([v]) && !v.Scalar?
    ensures PlanOnTable(StarFromT(cond, NoLimit), ID_TABLE) == PkIn([0], [v]) && WellFormed(ID_TABLE) &&
            WellFormedKey(ID_TABLE)
    ensures !SameAnswers(StarFromT(cond, NoLimit), ID_TABLE, [0], [v], o)
  {
    IdTable();
    IdPlan(cond, NoLimit, [cond], v);
    IdNoAnswer(StarFromT(cond, NoLimit), v, o);
  }

  lemma IdNoAnswer(sel: Node, v: PkValue, o: Oracle)
    requires sel.Select? && !v.Scalar? && WellFormed(ID_TABLE)
    ensures WellFormedKey(ID_TABLE) && !SameAnswers(sel, ID_TABLE, [0], [v], o)
  {
    assert ![v][0].Scalar?;
    NoAnswer(sel, ID_TABLE, [0], [v], o);
  }
}
