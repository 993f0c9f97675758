/** Planning UPDATE, DELETE and REPLACE, and which of them run on a cached table (planbuilder/dml.go,
    planbuilder/insert.go, handleExec of proxy/conn_query.go). */
module PlanDml {
  import opened Wrappers
  import opened Ast
  import opened Schema
  import opened SqlMeaning
  import opened PlanWhere
  import opened PlanSelect
  import K = CacheKey

  /** ExecPlan as handleExec uses it: the primary-key values, none when the plan has no use for them. */
  datatype DmlPlan = Plan(values: seq<PkValue>) | Error | Panic

  predicate HasPrimary(t: Table) { t.indexes != [] && t.indexes[0].name == "PRIMARY" }

  // ---------------------------------------------------------------- assignments to the primary key

  /** SecondaryPKValues: nil, the values assigned to primary-key columns, or why there are none. */
  datatype Assigned = Unassigned | To(slots: seq<Option<PkValue>>) | TooComplex | BadValue

  function AssignStep(s: Assigned, expr: Node, cols: seq<string>): (r: Assigned)
    requires expr.UpdateExpr? && (s.To? ==> |s.slots| == |cols|)
    ensures r.To? ==> |r.slots| == |cols|
  {
    var k := IndexOf(cols, GetColName(expr.column));
    if s.TooComplex? || s.BadValue? || k == -1 then s
    else if !IsValue(expr.expr) then TooComplex
    else
      match AsInterface(expr.expr)
      case None => BadValue
      case Some(v) => To((if s.To? then s.slots else seq(|cols|, (i: nat) => None))[k := Some(v)])
  }

  predicate Assignments(exprs: seq<Node>) { forall i :: 0 <= i < |exprs| ==> exprs[i].UpdateExpr? }

  function AssignedTo(exprs: seq<Node>, cols: seq<string>): (r: Assigned)
    requires Assignments(exprs)
    ensures r.To? ==> |r.slots| == |cols|
  {
    if exprs == [] then Unassigned
    else AssignStep(AssignedTo(exprs[..|exprs| - 1], cols), exprs[|exprs| - 1], cols)
  }

  lemma {:induction false} AssignStops(exprs: seq<Node>, cols: seq<string>, i: nat)
    requires Assignments(exprs) && i <= |exprs|
    requires AssignedTo(exprs[..i], cols).TooComplex? || AssignedTo(exprs[..i], cols).BadValue?
    ensures AssignedTo(exprs, cols) == AssignedTo(exprs[..i], cols)
    decreases |exprs| - i
  {
    if i == |exprs| {
      assert exprs[..i] == exprs;
    } else {
      assert exprs[..i + 1][..i] == exprs[..i];
      AssignStops(exprs, cols, i + 1);
    }
  }

  method AnalyzeUpdateExpressions(exprs: seq<Node>, cols: seq<string>) returns (r: Assigned)
    requires Assignments(exprs)
    ensures r == AssignedTo(exprs, cols)
  {
    r := Unassigned;
    for i := 0 to |exprs|
      invariant r == AssignedTo(exprs[..i], cols) && !r.TooComplex? && !r.BadValue?
    {
      assert exprs[..i + 1][..i] == exprs[..i];
      var k := IndexOf(cols, GetColName(exprs[i].column));
      if k != -1 {
        if !IsValue(exprs[i].expr) {
          AssignStops(exprs, cols, i + 1);
          return TooComplex;
        }
        var slots := if r.To? then r.slots else seq(|cols|, (i: nat) => None);
        match AsInterface(exprs[i].expr)
        case None =>
          AssignStops(exprs, cols, i + 1);
          return BadValue;
        case Some(v) =>
          r := To(slots[k := Some(v)]);
      }
    }
    assert exprs[..|exprs|] == exprs;
  }

  /** An UPDATE keeps its plan only when it assigns nothing but convertible values to the primary key. */
  lemma {:induction false} AssignedMeaning(exprs: seq<Node>, cols: seq<string>)
    requires Assignments(exprs)
    ensures var r := AssignedTo(exprs, cols);
            && (r.Unassigned? || r.To? <==> forall i :: 0 <= i < |exprs| && GetColName(exprs[i].column) in cols ==>
                                              IsValue(exprs[i].expr) && AsInterface(exprs[i].expr).Some?)
            && (r.Unassigned? <==> forall i :: 0 <= i < |exprs| ==> GetColName(exprs[i].column) !in cols)
  {
    if exprs != [] {
      var init := exprs[..|exprs| - 1];
      AssignedMeaning(init, cols);
      assert forall i :: 0 <= i < |init| ==> init[i] == exprs[i];
    }
  }

  // ---------------------------------------------------------------- UPDATE and DELETE

  function WhereValues(where: Node, t: Table): DmlPlan
    requires HasPrimary(t)
  {
    match AnalyzeWhere(where)
    case None => Plan([])
    case Some(conds) =>
      match PkValuesOf(conds, t.indexes[0].columns)
      case Failed => Error
      case NoValues => Plan([])
      case Found(values) => Plan(values)
  }

  function AnalyzeUpdate(upd: Node, t: Table): DmlPlan
    requires upd.Update?
  {
    if !HasPrimary(t) then Plan([])
    else if !upd.exprs.UpdateExprs? || !Assignments(upd.exprs.items) then Panic
    else
      match AssignedTo(upd.exprs.items, t.indexes[0].columns)
      case TooComplex => Plan([])
      case BadValue => Error
      case _ => WhereValues(upd.where, t)
  }

  function AnalyzeDelete(del: Node, t: Table): DmlPlan
    requires del.Delete?
  {
    if !HasPrimary(t) then Plan([]) else WhereValues(del.where, t)
  }

  // ---------------------------------------------------------------- REPLACE

  predicate NamedColumns(items: seq<Node>) { forall i :: 0 <= i < |items| ==> items[i].NonStarExpr? }

  /** Where a column list names each primary-key column, -1 for a column it leaves out. */
  function Positions(items: seq<Node>, cols: seq<string>): (r: seq<int>)
    requires NamedColumns(items)
    ensures |r| == |cols|
    ensures forall k :: 0 <= k < |r| ==> -1 <= r[k] < |items|
    ensures forall k :: 0 <= k < |r| && r[k] >= 0 ==> GetColName(items[r[k]].expr) == cols[k]
  {
    if items == [] then seq(|cols|, (k: nat) => -1)
    else
      var r := Positions(items[..|items| - 1], cols);
      var k := IndexOf(cols, GetColName(items[|items| - 1].expr));
      if k == -1 then r else r[k := |items| - 1]
  }

  method GetInsertPKColumns(items: seq<Node>, t: Table) returns (r: seq<int>)
    requires HasPrimary(t) && NamedColumns(items)
    ensures r == InsertPositions(items, t)
  {
    if |items| == 0 {
      return t.pkColumns;
    }
    var cols := t.indexes[0].columns;
    r := seq(|cols|, (k: nat) => -1);
    for i := 0 to |items|
      invariant r == Positions(items[..i], cols)
    {
      assert items[..i + 1][..i] == items[..i];
      var k := IndexOf(cols, GetColName(items[i].expr));
      if k != -1 {
        r := r[k := i];
      }
    }
    assert items[..|items|] == items;
  }

  function InsertPositions(items: seq<Node>, t: Table): (r: seq<int>)
    requires HasPrimary(t) && NamedColumns(items)
  {
    if items == [] then t.pkColumns else Positions(items, t.indexes[0].columns)
  }

  /** Values gathered so far, or why REPLACE has none: too complex, an error, a crash. */
  datatype Cells = Cells(values: seq<PkValue>) | Complex | BadRow | NoTuple

  /** The value a row gives in column `c`. */
  function CellAt(row: Node, c: nat): Cells {
    if row.Subquery? then BadRow
    else if !row.ValTuple? then NoTuple
    else if c >= |row.items| then BadRow
    else if !IsValue(row.items[c]) then Complex
    else
      match AsInterface(row.items[c])
      case None => BadRow
      case Some(v) => Cells([v])
  }

  function Both(a: Cells, b: Cells): Cells {
    if a.Cells? && b.Cells? then Cells(a.values + b.values) else if a.Cells? then b else a
  }

  function ColumnCells(rows: seq<Node>, c: nat): (r: Cells)
    ensures r.Cells? ==> |r.values| == |rows|
  {
    if rows == [] then Cells([]) else Both(ColumnCells(rows[..|rows| - 1], c), CellAt(rows[|rows| - 1], c))
  }

  /** The plan value of primary-key column `k`: its default, the only row's value, or the list of all
      rows' values. */
  function PkCell(t: Table, k: nat, position: int, rows: seq<Node>): (r: Cells)
    requires k < |t.pkColumns| && t.pkColumns[k] < |t.columns| && position >= -1
    ensures r.Cells? ==> |r.values| == 1
  {
    if position == -1 then
      var d := t.columns[t.pkColumns[k]].dflt;
      Cells([if d.Some? then Scalar(d.value) else Nil])
    else
      var c := ColumnCells(rows, position);
      if c.Cells? && |rows| != 1 then Cells([Many(c.values)]) else c
  }

  function PkCells(t: Table, positions: seq<int>, rows: seq<Node>): (r: Cells)
    requires |positions| <= |t.pkColumns| && WellFormedKey(t)
    requires forall k :: 0 <= k < |positions| ==> positions[k] >= -1
    ensures r.Cells? ==> |r.values| == |positions|
  {
    if positions == [] then Cells([])
    else
      var k := |positions| - 1;
      Both(PkCells(t, positions[..k], rows), PkCell(t, k, positions[k], rows))
  }

  lemma {:induction false} CellsStop(rows: seq<Node>, c: nat, j: nat)
    requires j <= |rows| && !ColumnCells(rows[..j], c).Cells?
    ensures ColumnCells(rows, c) == ColumnCells(rows[..j], c)
    decreases |rows| - j
  {
    if j == |rows| {
      assert rows[..j] == rows;
    } else {
      assert rows[..j + 1][..j] == rows[..j];
      CellsStop(rows, c, j + 1);
    }
  }

  lemma {:induction false} PkCellsStop(t: Table, positions: seq<int>, rows: seq<Node>, j: nat)
    requires |positions| <= |t.pkColumns| && WellFormedKey(t) && j <= |positions|
    requires forall k :: 0 <= k < |positions| ==> positions[k] >= -1
    requires !PkCells(t, positions[..j], rows).Cells?
    ensures PkCells(t, positions, rows) == PkCells(t, positions[..j], rows)
    decreases |positions| - j
  {
    if j == |positions| {
      assert positions[..j] == positions;
    } else {
      assert positions[..j + 1][..j] == positions[..j];
      PkCellsStop(t, positions, rows, j + 1);
    }
  }

  /** The inner loop of getInsertPKValues. */
  method RowValues(rows: seq<Node>, c: nat) returns (r: Cells)
    ensures r == ColumnCells(rows, c)
  {
    var values: seq<PkValue> := [];
    for j := 0 to |rows|
      invariant ColumnCells(rows[..j], c) == Cells(values)
    {
      assert rows[..j + 1][..j] == rows[..j];
      var cell := CellAt(rows[j], c);
      if !cell.Cells? {
        CellsStop(rows, c, j + 1);
        return cell;
      }
      values := values + cell.values;
    }
    assert rows[..|rows|] == rows;
    r := Cells(values);
  }

  method GetInsertPKValues(positions: seq<int>, rows: seq<Node>, t: Table) returns (r: Cells)
    requires |positions| <= |t.pkColumns| && WellFormedKey(t)
    requires forall k :: 0 <= k < |positions| ==> positions[k] >= -1
    ensures r == PkCells(t, positions, rows)
  {
    var values: seq<PkValue> := [];
    for k := 0 to |positions|
      invariant PkCells(t, positions[..k], rows) == Cells(values)
    {
      assert positions[..k + 1][..k] == positions[..k];
      if positions[k] == -1 {
        var d := t.columns[t.pkColumns[k]].dflt;
        values := values + [if d.Some? then Scalar(d.value) else Nil];
      } else {
        var cells := RowValues(rows, positions[k]);
        if !cells.Cells? {
          PkCellsStop(t, positions, rows, k + 1);
          return cells;
        }
        values := values + (if |rows| == 1 then cells.values else [Many(cells.values)]);
      }
    }
    assert positions[..|positions|] == positions;
    r := Cells(values);
  }

  predicate IsSelectStatement(n: Node) { n.Select? || n.Union? || n.SimpleSelect? }

  function SubqueryPlan(items: seq<Node>, t: Table): DmlPlan {
    match SelectItems(if items == [] then [StarExpr(None)] else items, t)
    case Unknown => Error
    case Unreachable => Panic
    case _ => Plan([])
  }

  function AnalyzeReplace(rep: Node, t: Table): DmlPlan
    requires rep.Replace? && (HasPrimary(t) ==> WellFormed(t))
  {
    if !HasPrimary(t) then Plan([])
    else if !rep.columns.Columns? || !NamedColumns(rep.columns.items) then Panic
    else
      var items := rep.columns.items;
      if rep.onDup.OnDup? && rep.onDup.items != [] then Plan([])
      else if IsSelectStatement(rep.rows) then SubqueryPlan(items, t)
      else if !rep.rows.Values? then Panic
      else
        match PkCells(t, InsertPositions(items, t), rep.rows.items)
        case Cells(values) => Plan(values)
        case Complex => Plan([])
        case BadRow => Error
        case NoTuple => Panic
  }

  // ---------------------------------------------------------------- handleExec

  /** What handleExec does with a statement before it reaches the database. */
  datatype Decision = Refused | PassThrough | Guarded(key: string) | Crashes

  predicate IsWrite(n: Node) { n.Update? || n.Delete? || n.Replace? }

  function Target(stmt: Node): string
    requires IsWrite(stmt)
  {
    GetTableName(stmt.table)
  }

  function PlanOf(stmt: Node, t: Table): DmlPlan
    requires IsWrite(stmt) && (HasPrimary(t) ==> WellFormed(t))
  {
    if stmt.Update? then AnalyzeUpdate(stmt, t)
    else if stmt.Delete? then AnalyzeDelete(stmt, t)
    else AnalyzeReplace(stmt, t)
  }

  function KeyParts(values: seq<PkValue>): (r: seq<K.PkValue>)
    ensures |r| == |values| && forall k :: 0 <= k < |r| ==> r[k] == KeyPart(values[k])
  {
    seq(|values|, (k: nat) requires k < |values| => KeyPart(values[k]))
  }

  ghost predicate WellFormedTables(tables: map<string, Table>) {
    forall name :: name in tables && HasPrimary(tables[name]) ==> WellFormed(tables[name])
  }

  /** What a plan leads to on its table. */
  function DecidePlan(p: DmlPlan, t: Table): Decision {
    match p
    case Error => Refused
    case Panic => Crashes
    case Plan(values) =>
      if t.cacheType.CACHE_NONE? then PassThrough
      else if |t.pkColumns| != |values| || values == [] then Refused
      else if !K.AllUsable(KeyParts(values)) then Crashes
      else
        var keys := K.Compose(|values|, KeyParts(values)).0;
        if keys == [] then Crashes else Guarded(keys[0])
  }

  /** handleExec of a statement on a table: refused, sent on as it is, or sent on while the lock of a
      tombstoned key is held. */
  function Decide(stmt: Node, tables: map<string, Table>): Decision
    requires IsWrite(stmt) && WellFormedTables(tables)
  {
    if Target(stmt) == "" || Target(stmt) !in tables then Refused
    else DecidePlan(PlanOf(stmt, tables[Target(stmt)]), tables[Target(stmt)])
  }

  // ---------------------------------------------------------------- only determined keys run

  predicate IsFiltered(n: Node) { n.Update? || n.Delete? }

  /** The WHERE tests every primary-key column, and nothing else, by `=` or IN against values. */
  ghost predicate Determined(where: Node, t: Table)
    requires t.indexes != []
  {
    AnalyzeWhere(where).Some? && Covers(AnalyzeWhere(where).value, t.indexes[0].columns)
  }

  lemma FoundIff(conds: seq<Node>, cols: seq<string>)
    requires conds != []
    ensures var r := PkValuesOf(conds, cols);
            (r.Found? <==> Covers(conds, cols)) && (r.Found? ==> r.values != [])
  {
    PkValuesMeaning(conds, cols);
    assert PkTests(conds, cols) ==> PkTest(conds[0], cols) >= 0;
  }

  lemma WhereValuesIff(where: Node, t: Table)
    requires WellFormed(t)
    ensures var p := WhereValues(where, t);
            && !p.Panic? && (p.Plan? && p.values != [] <==> Determined(where, t))
            && (Determined(where, t) ==> |p.values| == |t.pkColumns|)
  {
    if AnalyzeWhere(where).Some? {
      FlattenShape(where.cond.value);
      FoundIff(AnalyzeWhere(where).value, t.indexes[0].columns);
    }
  }

  lemma CachedDecision(p: DmlPlan, t: Table)
    requires !t.cacheType.CACHE_NONE?
    ensures var d := DecidePlan(p, t);
            && !d.PassThrough? && (d.Guarded? ==> p.Plan? && p.values != [])
            && (d.Refused? <==> p.Error? || (p.Plan? && (p.values == [] || |p.values| != |t.pkColumns|)))
  {
  }

  lemma UpdatePlan(upd: Node, t: Table)
    requires upd.Update? && HasPrimary(t)
    ensures AnalyzeUpdate(upd, t) in {Plan([]), Error, Panic, WhereValues(upd.where, t)}
  {
  }

  /** The UPDATE assigns nothing but convertible values to primary-key columns. */
  predicate AssignsValues(upd: Node, cols: seq<string>)
    requires upd.Update? && upd.exprs.UpdateExprs? && Assignments(upd.exprs.items)
  {
    forall i :: 0 <= i < |upd.exprs.items| && GetColName(upd.exprs.items[i].column) in cols ==>
      IsValue(upd.exprs.items[i].expr) && AsInterface(upd.exprs.items[i].expr).Some?
  }

  /** On a cached table no UPDATE, DELETE or REPLACE bypasses the cache. An UPDATE or DELETE runs under a
      tombstone only when its WHERE determines the whole primary key; a DELETE is refused exactly when it
      does not, an UPDATE exactly when it does not or something else than a value is assigned to the key. */
  lemma OnlyDeterminedRuns(stmt: Node, tables: map<string, Table>)
    requires IsWrite(stmt) && WellFormedTables(tables) && Target(stmt) != "" && Target(stmt) in tables
    requires HasPrimary(tables[Target(stmt)]) && !tables[Target(stmt)].cacheType.CACHE_NONE?
    ensures var t := tables[Target(stmt)];
            && !Decide(stmt, tables).PassThrough?
            && (IsFiltered(stmt) && Decide(stmt, tables).Guarded? ==> Determined(stmt.where, t))
            && (stmt.Delete? ==> (Decide(stmt, tables).Refused? <==> !Determined(stmt.where, t)))
            && (stmt.Update? && stmt.exprs.UpdateExprs? && Assignments(stmt.exprs.items) ==>
                  (Decide(stmt, tables).Refused? <==>
                   !Determined(stmt.where, t) || !AssignsValues(stmt, t.indexes[0].columns)))
  {
    var t := tables[Target(stmt)];
    CachedDecision(PlanOf(stmt, t), t);
    if IsFiltered(stmt) { WhereValuesIff(stmt.where, t); }
    if stmt.Update? {
      UpdatePlan(stmt, t);
      if stmt.exprs.UpdateExprs? && Assignments(stmt.exprs.items) {
        AssignedMeaning(stmt.exprs.items, t.indexes[0].columns);
      }
    }
  }

  /** The WHERE tests a primary-key column against a value that does not convert. */
  ghost predicate Unconvertible(where: Node, t: Table) {
    && HasPrimary(t) && AnalyzeWhere(where).Some?
    && exists i :: BadTest(AnalyzeWhere(where).value, t.indexes[0].columns, i)
  }

  lemma WhereFails(where: Node, t: Table)
    requires HasPrimary(t)
    ensures var p := WhereValues(where, t); !p.Panic? && (p.Error? <==> Unconvertible(where, t))
  {
    if AnalyzeWhere(where).Some? { FailedIff(AnalyzeWhere(where).value, t.indexes[0].columns); }
  }

  /** On a table that is not cached nothing is locked or invalidated. A DELETE is sent on as it is, whatever
      its WHERE, unless that tests the key against a value that does not convert: this is refused. So is an
      UPDATE that assigns nothing but convertible values to the key. */
  lemma UncachedPasses(stmt: Node, tables: map<string, Table>)
    requires IsWrite(stmt) && WellFormedTables(tables) && Target(stmt) != "" && Target(stmt) in tables
    requires tables[Target(stmt)].cacheType.CACHE_NONE?
    ensures !Decide(stmt, tables).Guarded?
    ensures var t := tables[Target(stmt)];
            && (!HasPrimary(t) ==> Decide(stmt, tables) == PassThrough)
            && (stmt.Delete? || (stmt.Update? && HasPrimary(t) && stmt.exprs.UpdateExprs? &&
                  Assignments(stmt.exprs.items) && AssignsValues(stmt, t.indexes[0].columns)) ==>
                  Decide(stmt, tables) == if Unconvertible(stmt.where, t) then Refused else PassThrough)
  {
    var t := tables[Target(stmt)];
    if IsFiltered(stmt) && HasPrimary(t) {
      WhereFails(stmt.where, t);
      if stmt.Update? && stmt.exprs.UpdateExprs? && Assignments(stmt.exprs.items) {
        AssignedMeaning(stmt.exprs.items, t.indexes[0].columns);
      }
    }
  }

  /** An UPDATE on a cached table goes to the database only when it assigns nothing but convertible
      values to primary-key columns. */
  lemma UpdateMovesByValue(upd: Node, tables: map<string, Table>)
    requires upd.Update? && WellFormedTables(tables) && Target(upd) in tables && HasPrimary(tables[Target(upd)])
    requires !tables[Target(upd)].cacheType.CACHE_NONE? && Decide(upd, tables).Guarded?
    ensures upd.exprs.UpdateExprs? && Assignments(upd.exprs.items)
    ensures var cols := tables[Target(upd)].indexes[0].columns;
            forall i :: 0 <= i < |upd.exprs.items| && GetColName(upd.exprs.items[i].column) in cols ==>
              IsValue(upd.exprs.items[i].expr) && AsInterface(upd.exprs.items[i].expr).Some?
  {
    var t := tables[Target(upd)];
    CachedDecision(AnalyzeUpdate(upd, t), t);
    AssignedMeaning(upd.exprs.items, t.indexes[0].columns);
  }

  /** A REPLACE on a cached table goes to the database only when it lists rows of values, is no upsert,
      and gives every primary-key column values that can be keyed; it is guarded by the one key that
      spells all of them in column order. */
  lemma ReplaceListsValues(rep: Node, tables: map<string, Table>)
    requires rep.Replace? && WellFormedTables(tables) && Target(rep) in tables && HasPrimary(tables[Target(rep)])
    requires !tables[Target(rep)].cacheType.CACHE_NONE? && Decide(rep, tables).Guarded?
    ensures rep.rows.Values? && !(rep.onDup.OnDup? && rep.onDup.items != [])
    ensures rep.columns.Columns? && NamedColumns(rep.columns.items)
    ensures var t := tables[Target(rep)];
            && WellFormedKey(t) && |InsertPositions(rep.columns.items, t)| == |t.pkColumns|
            && var cells := PkCells(t, InsertPositions(rep.columns.items, t), rep.rows.items);
            && cells.Cells? && K.AllUsable(KeyParts(cells.values))
            && Decide(rep, tables) == Guarded(K.KeyOf(K.Flat(KeyParts(cells.values))))
  {
    var t := tables[Target(rep)];
    CachedDecision(AnalyzeReplace(rep, t), t);
    K.ListKey(KeyParts(AnalyzeReplace(rep, t).values));
  }

  /** Values that can be keyed make the one key that spells them all in column order. */
  lemma GuardedKey(stmt: Node, tables: map<string, Table>, values: seq<PkValue>)
    requires IsWrite(stmt) && WellFormedTables(tables) && Target(stmt) != "" && Target(stmt) in tables
    requires !tables[Target(stmt)].cacheType.CACHE_NONE?
    requires PlanOf(stmt, tables[Target(stmt)]) == Plan(values) && values != []
    requires |values| == |tables[Target(stmt)].pkColumns|
    ensures Decide(stmt, tables) == if K.AllUsable(KeyParts(values)) then Guarded(K.KeyOf(KeyTexts(values))) else Crashes
  {
    if K.AllUsable(KeyParts(values)) { K.ListKey(KeyParts(values)); }
  }

  /** The texts a guarded key spells. */
  function KeyTexts(values: seq<PkValue>): seq<string>
    requires K.AllUsable(KeyParts(values))
  {
    K.Flat(KeyParts(values))
  }
}
