/** SQL statements as writes of the cache protocol: what a guarded UPDATE, DELETE or REPLACE does to a
    table is one of the writes of RowCacheProtocol on the primary key whose cache key guards it (handleExec
    of proxy/conn_query.go). */
module CachedSql {
  import opened Wrappers
  import opened Ast
  import opened Schema
  import opened SqlMeaning
  import opened PlanWhere
  import opened PlanSelect
  import opened PlanDml
  import opened TouchedRows
  import K = CacheKey
  import P = RowCacheProtocol

  // ---------------------------------------------------------------- table contents

  function PkTexts(t: Table, row: Row): (r: seq<string>)
    requires WellFormed(t) && |row| == |t.columns|
  {
    ValTexts(PkOf(t, row))
  }

  predicate NoNulls(vals: seq<Val>) { forall k :: 0 <= k < |vals| ==> !vals[k].Null? }

  /** The rows of a table: their primary keys are distinct as texts, and never NULL. */
  ghost predicate KeyedRows(t: Table, rows: set<Row>)
    requires WellFormed(t)
  {
    && (forall row :: row in rows ==> |row| == |t.columns| && NoNulls(PkOf(t, row)))
    && (forall a, b :: a in rows && b in rows && PkTexts(t, a) == PkTexts(t, b) ==> a == b)
  }

  /** The rows by primary key, as the protocol has them; `show` is any way to write a row down. */
  ghost function Content(t: Table, rows: set<Row>, show: Row -> P.Row): map<P.Pk, P.Row>
    requires WellFormed(t) && KeyedRows(t, rows)
  {
    map row | row in rows :: PkTexts(t, row) := show(row)
  }

  lemma ContentAt(t: Table, rows: set<Row>, show: Row -> P.Row, row: Row)
    requires WellFormed(t) && KeyedRows(t, rows) && row in rows
    ensures PkTexts(t, row) in Content(t, rows, show) && Content(t, rows, show)[PkTexts(t, row)] == show(row)
  {
  }

  lemma ContentFrom(t: Table, rows: set<Row>, show: Row -> P.Row, pk: P.Pk) returns (row: Row)
    requires WellFormed(t) && KeyedRows(t, rows) && pk in Content(t, rows, show)
    ensures row in rows && PkTexts(t, row) == pk && Content(t, rows, show)[pk] == show(row)
  {
    row :| row in rows && PkTexts(t, row) == pk;
  }

  /** Contents agree when they have the same rows. */
  lemma SameContent(t: Table, rows: set<Row>, show: Row -> P.Row, db: map<P.Pk, P.Row>)
    requires WellFormed(t) && KeyedRows(t, rows)
    requires forall row :: row in rows ==> PkTexts(t, row) in db && db[PkTexts(t, row)] == show(row)
    requires forall pk :: pk in db ==> exists row :: row in rows && PkTexts(t, row) == pk
    ensures Content(t, rows, show) == db
  {
    var c := Content(t, rows, show);
    forall pk | pk in c
      ensures pk in db && c[pk] == db[pk]
    {
      var row := ContentFrom(t, rows, show, pk);
    }
    forall pk | pk in db
      ensures pk in c
    {
      var row :| row in rows && PkTexts(t, row) == pk;
      ContentAt(t, rows, show, row);
    }
  }

  // ---------------------------------------------------------------- DELETE

  /** The rows a WHERE lets through. */
  ghost function Touched(t: Table, where: Node, rows: set<Row>, o: Oracle): set<Row> {
    set row | row in rows && WhereHolds(t, where, row, o).T?
  }

  /** A table without the rows of one key. */
  lemma WithoutKey(t: Table, rows: set<Row>, gone: set<Row>, pk: P.Pk, show: Row -> P.Row)
    requires WellFormed(t) && KeyedRows(t, rows) && gone <= rows
    requires forall row :: row in gone ==> PkTexts(t, row) == pk
    ensures KeyedRows(t, rows - gone)
    ensures Content(t, rows - gone, show) == if gone == {} then Content(t, rows, show) else Content(t, rows, show) - {pk}
  {
    if gone == {} {
      assert rows - gone == rows;
    } else {
      var a :| a in gone;
      var db := Content(t, rows, show) - {pk};
      forall row | row in rows - gone
        ensures PkTexts(t, row) in db && db[PkTexts(t, row)] == show(row)
      {
        ContentAt(t, rows, show, row);
        assert PkTexts(t, row) == pk ==> row == a;
      }
      forall q | q in db
        ensures exists row :: row in rows - gone && PkTexts(t, row) == q
      {
        var row := ContentFrom(t, rows, show, q);
        assert row in rows - gone;
      }
      SameContent(t, rows - gone, show, db);
    }
  }

  // ---------------------------------------------------------------- UPDATE

  function Assign(t: Table, row: Row, expr: Node, o: Oracle): (r: Row)
    requires expr.UpdateExpr?
    ensures |r| == |row|
  {
    var at := IndexOf(Names(t.columns), GetColName(expr.column));
    if 0 <= at < |row| then row[at := ValueOf(t, expr.expr, row, o)] else row
  }

  /** A row after the assignments, made from left to right. */
  function Updated(t: Table, exprs: seq<Node>, row: Row, o: Oracle): (r: Row)
    requires Assignments(exprs)
    ensures |r| == |row|
  {
    if exprs == [] then row else Updated(t, exprs[1..], Assign(t, row, exprs[0], o), o)
  }

  /** The new row could stand in the place of the old one: its key is not NULL, and no other row's. */
  ghost predicate Replaceable(t: Table, rows: set<Row>, old': Row, row: Row)
    requires WellFormed(t) && KeyedRows(t, rows) && |row| == |t.columns|
  {
    NoNulls(PkOf(t, row)) && forall c :: c in rows && c != old' ==> PkTexts(t, c) != PkTexts(t, row)
  }

  /** The table after an UPDATE. The database refuses it when a row cannot take its new key. */
  ghost function UpdatedRows(t: Table, upd: Node, rows: set<Row>, o: Oracle): set<Row>
    requires upd.Update? && upd.exprs.UpdateExprs? && Assignments(upd.exprs.items) && WellFormed(t) && KeyedRows(t, rows)
  {
    var touched := Touched(t, upd.where, rows, o);
    if forall row :: row in touched ==> Replaceable(t, rows, row, Updated(t, upd.exprs.items, row, o)) then
      rows - touched + (set row | row in touched :: Updated(t, upd.exprs.items, row, o))
    else rows
  }

  /** A table with one more row, under a key that no row has. */
  lemma WithRow(t: Table, rows: set<Row>, row: Row, show: Row -> P.Row)
    requires WellFormed(t) && KeyedRows(t, rows) && |row| == |t.columns| && NoNulls(PkOf(t, row))
    requires PkTexts(t, row) !in Content(t, rows, show)
    ensures KeyedRows(t, rows + {row})
    ensures Content(t, rows + {row}, show) == Content(t, rows, show)[PkTexts(t, row) := show(row)]
  {
    forall a | a in rows
      ensures PkTexts(t, a) != PkTexts(t, row)
    {
      ContentAt(t, rows, show, a);
    }
    var db := Content(t, rows, show)[PkTexts(t, row) := show(row)];
    forall a | a in rows + {row}
      ensures PkTexts(t, a) in db && db[PkTexts(t, a)] == show(a)
    {
      if a != row { ContentAt(t, rows, show, a); }
    }
    forall q | q in db
      ensures exists a :: a in rows + {row} && PkTexts(t, a) == q
    {
      if q == PkTexts(t, row) {
        assert row in rows + {row};
      } else {
        var a := ContentFrom(t, rows, show, q);
        assert a in rows + {row};
      }
    }
    SameContent(t, rows + {row}, show, db);
  }

  /** The write an UPDATE of one row is: of the same key, or to another. */
  function UpdateWrite(pk: P.Pk, to: P.Pk, row: P.Row): P.Write {
    if to == pk then P.Update(pk, row) else P.Move(pk, to, row)
  }

  /** Changing the row of a key is one write. */
  lemma OneChanged(t: Table, rows: set<Row>, a: Row, b: Row, show: Row -> P.Row)
    requires WellFormed(t) && KeyedRows(t, rows) && a in rows && |b| == |t.columns| && Replaceable(t, rows, a, b)
    ensures KeyedRows(t, rows - {a} + {b})
    ensures Content(t, rows - {a} + {b}, show) ==
            P.Effect(Content(t, rows, show), UpdateWrite(PkTexts(t, a), PkTexts(t, b), show(b)))
  {
    var left := rows - {a};
    WithoutKey(t, rows, {a}, PkTexts(t, a), show);
    ContentAt(t, rows, show, a);
    if PkTexts(t, b) in Content(t, left, show) {
      var c := ContentFrom(t, left, show, PkTexts(t, b));
      assert false;
    }
    WithRow(t, left, b, show);
    PutBack(Content(t, rows, show), PkTexts(t, a), PkTexts(t, b), show(b));
  }

  lemma PutBack(db: map<P.Pk, P.Row>, pk: P.Pk, to: P.Pk, row: P.Row)
    requires pk in db && to !in db - {pk}
    ensures (db - {pk})[to := row] == P.Effect(db, UpdateWrite(pk, to, row))
  {
  }

  // ---------------------------------------------------------------- REPLACE

  /** The rows of other keys. */
  ghost function Others(t: Table, rows: set<Row>, pk: P.Pk): set<Row>
    requires WellFormed(t) && KeyedRows(t, rows)
  {
    set a | a in rows && PkTexts(t, a) != pk
  }

  lemma OthersContent(t: Table, rows: set<Row>, pk: P.Pk, show: Row -> P.Row)
    requires WellFormed(t) && KeyedRows(t, rows)
    ensures KeyedRows(t, Others(t, rows, pk)) && pk !in Content(t, Others(t, rows, pk), show)
    ensures Content(t, Others(t, rows, pk), show) in {Content(t, rows, show), Content(t, rows, show) - {pk}}
  {
    var gone := set a | a in rows && PkTexts(t, a) == pk;
    assert rows - gone == Others(t, rows, pk);
    WithoutKey(t, rows, gone, pk, show);
    if pk in Content(t, Others(t, rows, pk), show) {
      var c := ContentFrom(t, Others(t, rows, pk), show, pk);
      assert false;
    }
  }

  ghost predicate TableRow(t: Table, row: Row)
    requires WellFormed(t)
  {
    |row| == |t.columns| && NoNulls(PkOf(t, row))
  }

  /** A table after a row was put into it, in the place of the one with its key. */
  ghost function Put(t: Table, rows: set<Row>, row: Row): (r: set<Row>)
    requires WellFormed(t) && KeyedRows(t, rows) && TableRow(t, row)
    ensures KeyedRows(t, r)
  {
    Others(t, rows, PkTexts(t, row)) + {row}
  }

  lemma PutIsReplace(t: Table, rows: set<Row>, row: Row, show: Row -> P.Row)
    requires WellFormed(t) && KeyedRows(t, rows) && TableRow(t, row)
    ensures Content(t, Put(t, rows, row), show) == P.Effect(Content(t, rows, show), P.Replace(PkTexts(t, row), show(row)))
  {
    var pk := PkTexts(t, row);
    OthersContent(t, rows, pk, show);
    WithRow(t, Others(t, rows, pk), row, show);
    PutOver(Content(t, rows, show), Content(t, Others(t, rows, pk), show), pk, show(row));
  }

  lemma PutOver(db: map<P.Pk, P.Row>, left: map<P.Pk, P.Row>, pk: P.Pk, row: P.Row)
    requires left == db || left == db - {pk}
    ensures left[pk := row] == P.Effect(db, P.Replace(pk, row))
  {
  }

  /** Rows that a REPLACE may write: in the primary-key columns what it gives or the database fills in. */
  ghost predicate Writable(rep: Node, t: Table, rows: seq<Row>, o: Oracle)
    requires ListsRows(rep, t)
  {
    && |rows| == |rep.rows.items|
    && forall r :: 0 <= r < |rows| ==> WritableRow(rep, t, r, rows[r], o)
  }

  ghost predicate WritableRow(rep: Node, t: Table, r: nat, row: Row, o: Oracle)
    requires ListsRows(rep, t) && r < |rep.rows.items|
  {
    && TableRow(t, row)
    && forall k :: 0 <= k < |t.pkColumns| && SourceOf(t, rep.columns.items, k) < |rep.rows.items[r].items| ==>
         row[t.pkColumns[k]] == WrittenVal(t, rep.columns.items, rep.rows.items[r].items, r, k, o)
  }

  ghost predicate TableRows(t: Table, rows: seq<Row>)
    requires WellFormed(t)
  {
    forall i :: 0 <= i < |rows| ==> TableRow(t, rows[i])
  }

  /** The table after rows were put into it one by one. */
  ghost function PutAll(t: Table, rows: set<Row>, put: seq<Row>): (r: set<Row>)
    requires WellFormed(t) && KeyedRows(t, rows) && TableRows(t, put)
    ensures KeyedRows(t, r)
  {
    if put == [] then rows else Put(t, PutAll(t, rows, put[..|put| - 1]), put[|put| - 1])
  }

  ghost predicate OneKey(t: Table, rows: seq<Row>, pk: P.Pk)
    requires WellFormed(t) && TableRows(t, rows)
  {
    forall i :: 0 <= i < |rows| ==> PkTexts(t, rows[i]) == pk
  }

  /** Rows of one key, put one by one: the last one stays. */
  lemma {:induction false} PutAllIsReplace(t: Table, rows: set<Row>, put: seq<Row>, pk: P.Pk, show: Row -> P.Row)
    requires WellFormed(t) && KeyedRows(t, rows) && TableRows(t, put) && OneKey(t, put, pk) && put != []
    ensures Content(t, PutAll(t, rows, put), show) == P.Effect(Content(t, rows, show), P.Replace(pk, show(put[|put| - 1])))
  {
    var init, last := put[..|put| - 1], put[|put| - 1];
    if init == [] {
      PutOnly(t, rows, last, show);
      assert put == [last];
    } else {
      PutAllIsReplace(t, rows, init, pk, show);
      PutAgain(t, rows, PutAll(t, rows, init), last, show(init[|init| - 1]), show);
    }
  }

  lemma PutOnly(t: Table, rows: set<Row>, row: Row, show: Row -> P.Row)
    requires WellFormed(t) && KeyedRows(t, rows) && TableRow(t, row)
    ensures TableRows(t, [row])
    ensures Content(t, PutAll(t, rows, [row]), show) ==
            P.Effect(Content(t, rows, show), P.Replace(PkTexts(t, row), show(row)))
  {
    assert [row][..0] == [];
    PutIsReplace(t, rows, row, show);
  }

  lemma PutAgain(t: Table, rows: set<Row>, before: set<Row>, row: Row, first: P.Row, show: Row -> P.Row)
    requires WellFormed(t) && KeyedRows(t, rows) && KeyedRows(t, before) && TableRow(t, row)
    requires Content(t, before, show) == P.Effect(Content(t, rows, show), P.Replace(PkTexts(t, row), first))
    ensures Content(t, Put(t, before, row), show) == P.Effect(Content(t, rows, show), P.Replace(PkTexts(t, row), show(row)))
  {
    PutIsReplace(t, before, row, show);
    PutTwice(Content(t, rows, show), PkTexts(t, row), first, show(row));
  }

  lemma PutTwice(db: map<P.Pk, P.Row>, pk: P.Pk, a: P.Row, b: P.Row)
    ensures P.Effect(P.Effect(db, P.Replace(pk, a)), P.Replace(pk, b)) == P.Effect(db, P.Replace(pk, b))
  {
  }

  // ---------------------------------------------------------------- statements are writes

  /** What a statement may make of a table: everything it says, or nothing when the database refuses. */
  ghost predicate Runs(stmt: Node, t: Table, before: set<Row>, after: set<Row>, o: Oracle)
    requires IsWrite(stmt) && WellFormed(t) && KeyedRows(t, before)
  {
    || after == before
    || (stmt.Delete? && after == before - Touched(t, stmt.where, before, o))
    || (stmt.Update? && stmt.exprs.UpdateExprs? && Assignments(stmt.exprs.items) &&
         after == UpdatedRows(t, stmt, before, o))
    || (stmt.Replace? && ListsRows(stmt, t) && exists put :: Writable(stmt, t, put, o) && after == PutAll(t, before, put))
  }

  /** A statement touches and writes only rows with the key the texts spell. */
  ghost predicate Exact(stmt: Node, t: Table, texts: seq<string>, o: Oracle)
    requires IsWrite(stmt) && WellFormed(t)
  {
    if stmt.Replace? then
      ListsRows(stmt, t) && forall r :: 0 <= r < |stmt.rows.items| ==> WritesKey(stmt, t, r, texts, o)
    else TouchesOnly(t, stmt.where, texts, o)
  }

  /** What can be seen of that in the statement: by TouchedIff and ReplaceIff it is just as much. */
  ghost predicate Alike(stmt: Node, t: Table, values: seq<PkValue>, o: Oracle)
    requires IsWrite(stmt) && WellFormed(t)
  {
    if stmt.Replace? then
      && ListsRows(stmt, t) && |values| == |t.pkColumns|
      && (stmt.rows.items == [] || (AllScalar(values) && forall r :: 0 <= r < |stmt.rows.items| ==>
           RowDenotes(stmt, t, values, r, o)))
    else
      && AnalyzeWhere(stmt.where).Some? && PkTests(AnalyzeWhere(stmt.where).value, t.indexes[0].columns)
      && var conds := AnalyzeWhere(stmt.where).value;
      AcceptsNoKey(t, conds, o) || forall k :: 0 <= k < |values| ==> OneAlike(conds, t.indexes[0].columns, k)
  }

  lemma ExactIff(stmt: Node, t: Table, values: seq<PkValue>, o: Oracle)
    requires IsWrite(stmt) && WellFormed(t) && PlanOf(stmt, t) == Plan(values) && values != [] &&
             K.AllUsable(KeyParts(values))
    requires stmt.Replace? ==> ListsRows(stmt, t)
    ensures Exact(stmt, t, KeyTexts(values), o) <==> Alike(stmt, t, values, o)
  {
    if stmt.Replace? {
      ReplaceIff(stmt, t, values, o);
    } else {
      FilteredPlan(stmt, t, values);
      TouchedIff(t, stmt.where, values, o);
    }
  }

  lemma FilteredPlan(stmt: Node, t: Table, values: seq<PkValue>)
    requires IsFiltered(stmt) && WellFormed(t) && PlanOf(stmt, t) == Plan(values) && values != []
    ensures AnalyzeWhere(stmt.where).Some? &&
            PkValuesOf(AnalyzeWhere(stmt.where).value, t.indexes[0].columns) == Found(values)
  {
    if stmt.Update? { UpdatePlan(stmt, t); }
  }

  /** One write on the key, or nothing. */
  ghost predicate OneWrite(before: map<P.Pk, P.Row>, after: map<P.Pk, P.Row>, pk: P.Pk) {
    after == before || exists w: P.Write :: w.pk == pk && after == P.Effect(before, w)
  }

  lemma TouchedTexts(t: Table, where: Node, rows: set<Row>, texts: seq<string>, o: Oracle)
    requires WellFormed(t) && KeyedRows(t, rows) && TouchesOnly(t, where, texts, o)
    ensures forall row :: row in Touched(t, where, rows, o) ==> PkTexts(t, row) == texts
  {
    forall row | row in Touched(t, where, rows, o)
      ensures PkTexts(t, row) == texts
    {
      assert AllSpell(PkOf(t, row), texts);
      assert ValTexts(PkOf(t, row)) == texts;
    }
  }

  lemma DeleteIsWrite(t: Table, where: Node, rows: set<Row>, texts: seq<string>, o: Oracle, show: Row -> P.Row)
    requires WellFormed(t) && KeyedRows(t, rows) && TouchesOnly(t, where, texts, o)
    ensures KeyedRows(t, rows - Touched(t, where, rows, o))
    ensures OneWrite(Content(t, rows, show), Content(t, rows - Touched(t, where, rows, o), show), texts)
  {
    TouchedTexts(t, where, rows, texts, o);
    WithoutKey(t, rows, Touched(t, where, rows, o), texts, show);
    assert P.Delete(texts).pk == texts && P.Effect(Content(t, rows, show), P.Delete(texts)) ==
           Content(t, rows, show) - {texts};
  }

  lemma UpdateIsWrite(t: Table, upd: Node, rows: set<Row>, texts: seq<string>, o: Oracle, show: Row -> P.Row)
    requires upd.Update? && upd.exprs.UpdateExprs? && Assignments(upd.exprs.items)
    requires WellFormed(t) && KeyedRows(t, rows) && TouchesOnly(t, upd.where, texts, o)
    ensures KeyedRows(t, UpdatedRows(t, upd, rows, o))
    ensures OneWrite(Content(t, rows, show), Content(t, UpdatedRows(t, upd, rows, o), show), texts)
  {
    var touched, after := Touched(t, upd.where, rows, o), UpdatedRows(t, upd, rows, o);
    TouchedTexts(t, upd.where, rows, texts, o);
    if touched == {} {
      assert after == rows;
    } else if after != rows {
      var a :| a in touched;
      assert touched == {a};
      var b := Updated(t, upd.exprs.items, a, o);
      assert after == rows - {a} + {b};
      OneChanged(t, rows, a, b, show);
      assert UpdateWrite(texts, PkTexts(t, b), show(b)).pk == texts;
    }
  }

  lemma ReplaceIsWrite(t: Table, rep: Node, rows: set<Row>, put: seq<Row>, texts: seq<string>, o: Oracle,
                       show: Row -> P.Row)
    requires ListsRows(rep, t) && KeyedRows(t, rows) && Writable(rep, t, put, o) && Exact(rep, t, texts, o)
    ensures OneWrite(Content(t, rows, show), Content(t, PutAll(t, rows, put), show), texts)
  {
    forall r | 0 <= r < |put|
      ensures PkTexts(t, put[r]) == texts
    {
      assert WritesKey(rep, t, r, texts, o) && WritableRow(rep, t, r, put[r], o);
      assert ValTexts(PkOf(t, put[r])) == texts;
    }
    if put != [] {
      assert OneKey(t, put, texts);
      PutAllIsReplace(t, rows, put, texts, show);
      assert P.Replace(texts, show(put[|put| - 1])).pk == texts;
    }
  }

  lemma ExactIsWrite(stmt: Node, t: Table, texts: seq<string>, before: set<Row>, after: set<Row>, o: Oracle,
                     show: Row -> P.Row)
    requires IsWrite(stmt) && WellFormed(t) && Exact(stmt, t, texts, o)
    requires KeyedRows(t, before) && Runs(stmt, t, before, after, o)
    ensures KeyedRows(t, after) && OneWrite(Content(t, before, show), Content(t, after, show), texts)
  {
    if after != before {
      if stmt.Delete? {
        DeleteIsWrite(t, stmt.where, before, texts, o, show);
      } else if stmt.Update? {
        UpdateIsWrite(t, stmt, before, texts, o, show);
      } else {
        var put :| Writable(stmt, t, put, o) && after == PutAll(t, before, put);
        ReplaceIsWrite(t, stmt, before, put, texts, o, show);
      }
    }
  }

  /** On a cached table, a guarded statement whose values read alike on both sides does to every content
      of the table what one write of the cache protocol does on the primary key whose cache key guards
      it, or nothing. */
  lemma GuardedIsWrite(stmt: Node, tables: map<string, Table>, values: seq<PkValue>, before: set<Row>, after: set<Row>,
                       o: Oracle, show: Row -> P.Row)
    requires IsWrite(stmt) && WellFormedTables(tables) && Decide(stmt, tables).Guarded?
    requires var t := tables[Target(stmt)];
             && WellFormed(t) && !t.cacheType.CACHE_NONE? && PlanOf(stmt, t) == Plan(values)
             && Alike(stmt, t, values, o) && KeyedRows(t, before) && Runs(stmt, t, before, after, o)
    ensures K.AllUsable(KeyParts(values)) && Decide(stmt, tables) == Guarded(K.KeyOf(KeyTexts(values)))
    ensures var t := tables[Target(stmt)];
            KeyedRows(t, after) && OneWrite(Content(t, before, show), Content(t, after, show), KeyTexts(values))
  {
    var t := tables[Target(stmt)];
    GuardedKey(stmt, tables, values);
    ExactIff(stmt, t, values, o);
    ExactIsWrite(stmt, t, KeyTexts(values), before, after, o, show);
  }

  /** One write on a key is a step of the protocol: the statement of a client that holds the key's lock
      and has written its tombstone. */
  lemma WriteIsStep(cfg: P.Config, s: P.State, c: P.Client, after: map<P.Pk, P.Row>, pk: P.Pk)
    returns (w: P.Write, ok: bool)
    requires OneWrite(s.db, after, pk)
    ensures w.pk == pk
    ensures P.ProcOf(s, c) == P.Wr(w, P.Marked) ==>
            P.Enabled(cfg, s, P.Exec(c, ok)) && P.Apply(cfg, s, P.Exec(c, ok)).db == after
  {
    if after == s.db {
      w, ok := P.Delete(pk), false;
    } else {
      w :| w.pk == pk && after == P.Effect(s.db, w);
      ok := true;
    }
  }
}
