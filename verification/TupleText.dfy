/** A list of tuples is written as a condition: the columns equal one of the rows (EncodeValue of
    sqlparser/parsed_query.go). */
module TupleText {
  import opened Wrappers
  import opened Ast
  import opened ReadBack
  import opened BoundText
  import B = TrackedBuffer
  import C = ConditionReadBack

  /** Conditions connected from the left, by AND or by OR. */
  function Connected(either: bool, n: Node, rest: seq<Node>): Node
    decreases |rest|
  {
    if rest == [] then n
    else Connected(either, if either then OrExpr(n, rest[0]) else AndExpr(n, rest[0]), rest[1..])
  }

  function Connective(either: bool): string { if either then " or " else " and " }

  /** The text after the first condition. */
  function RestText(st: B.Style, either: bool, rest: seq<Node>): string {
    if rest == [] then "" else Connective(either) + (Text(st, rest[0]) + RestText(st, either, rest[1..]))
  }

  lemma PairText(st: B.Style, either: bool, l: Node, r: Node, tail: string)
    ensures Text(st, if either then OrExpr(l, r) else AndExpr(l, r)) + tail ==
            Text(st, l) + (Connective(either) + (Text(st, r) + tail))
  {
    if either { C.OrText(st, l, r, tail); } else { C.AndText(st, l, r, tail); }
  }

  lemma {:induction false} ConnectedText(st: B.Style, either: bool, n: Node, rest: seq<Node>)
    ensures Text(st, Connected(either, n, rest)) == Text(st, n) + RestText(st, either, rest)
    decreases |rest|
  {
    if rest == [] {
      assert Text(st, n) + "" == Text(st, n);
    } else {
      var m := if either then OrExpr(n, rest[0]) else AndExpr(n, rest[0]);
      ConnectedText(st, either, m, rest[1..]);
      PairText(st, either, n, rest[0], RestText(st, either, rest[1..]));
    }
  }

  ghost predicate Prints(st: B.Style, parts: seq<B.Out>, ns: seq<Node>) {
    |parts| == |ns| && forall i :: 0 <= i < |ns| ==> parts[i] == B.Text(Text(st, ns[i]))
  }

  lemma {:induction false} SeparatedRest(st: B.Style, either: bool, parts: seq<B.Out>, ns: seq<Node>)
    requires Prints(st, parts, ns) && ns != []
    ensures B.SepBy(Connective(either), parts) == B.Text(Text(st, ns[0]) + RestText(st, either, ns[1..]))
    decreases |ns|
  {
    if |ns| == 1 {
      assert ns[1..] == [] && Text(st, ns[0]) + "" == Text(st, ns[0]);
    } else {
      SeparatedRest(st, either, parts[1..], ns[1..]);
    }
  }

  /** Conditions printed one after the other with the connective between them are the connected condition. */
  lemma ConnectedIsText(st: B.Style, either: bool, parts: seq<B.Out>, ns: seq<Node>)
    requires Prints(st, parts, ns) && ns != []
    ensures B.SepBy(Connective(either), parts) == B.Text(Text(st, Connected(either, ns[0], ns[1..])))
  {
    SeparatedRest(st, either, parts, ns);
    ConnectedText(st, either, ns[0], ns[1..]);
  }

  function EqualNode(column: string, v: B.Scalar): Node { ComparisonExpr("=", ColName(column, None), ScalarNode(v)) }

  function EqualNodes(columns: seq<string>, row: seq<B.Scalar>): (r: seq<Node>)
    requires |columns| <= |row|
    ensures |r| == |columns| && forall j :: 0 <= j < |r| ==> r[j] == EqualNode(columns[j], row[j])
  {
    seq(|columns|, (j: nat) requires j < |columns| => EqualNode(columns[j], row[j]))
  }

  /** Each column equals its value in the row. */
  function RowNode(columns: seq<string>, row: seq<B.Scalar>): Node
    requires 0 < |columns| <= |row|
  {
    var tests := EqualNodes(columns, row);
    ParenBoolExpr(Connected(false, tests[0], tests[1..]))
  }

  function RowNodes(columns: seq<string>, rows: seq<seq<B.Scalar>>): (r: seq<Node>)
    requires 0 < |columns| && forall i :: 0 <= i < |rows| ==> |columns| <= |rows[i]|
    ensures |r| == |rows| && forall i :: 0 <= i < |r| ==> r[i] == RowNode(columns, rows[i])
  {
    seq(|rows|, (i: nat) requires i < |rows| => RowNode(columns, rows[i]))
  }

  lemma EqualText(st: B.Style, column: string, v: B.Scalar)
    requires column !in st.keywords
    ensures Text(st, EqualNode(column, v)) == column + " = " + B.ScalarText(v)
  {
    var n := EqualNode(column, v);
    ScalarIsText(st, v);
    C.ComparisonText(st, "=", ColName(column, None), ScalarNode(v), "");
    ColumnText(st, column, " " + ("=" + (" " + B.ScalarText(v))));
    assert Text(st, n) + "" == Text(st, n) && B.ScalarText(v) + "" == B.ScalarText(v);
    EqualSpelled(column, B.ScalarText(v));
  }

  lemma EqualSpelled(column: string, x: string)
    ensures column + (" " + ("=" + (" " + x))) == column + " = " + x
  {
  }

  lemma ColumnText(st: B.Style, column: string, x: string)
    requires column !in st.keywords
    ensures Text(st, ColName(column, None)) + x == column + x
  {
    TextIs(st, ColName(column, None), x);
    QualifiedText(st, column, None, x);
  }

  lemma RowIsText(st: B.Style, columns: seq<string>, row: seq<B.Scalar>)
    requires 0 < |columns| <= |row| && forall j :: 0 <= j < |columns| ==> columns[j] !in st.keywords
    ensures B.Wrapped("(", B.SepBy(" and ", B.Tests(columns, row)), ")") == B.Text(Text(st, RowNode(columns, row)))
  {
    var tests := EqualNodes(columns, row);
    forall j | 0 <= j < |columns|
      ensures B.Tests(columns, row)[j] == B.Text(Text(st, tests[j]))
    {
      EqualText(st, columns[j], row[j]);
    }
    ConnectedIsText(st, false, B.Tests(columns, row), tests);
    ParenIsText(st, Connected(false, tests[0], tests[1..]));
  }

  lemma ParenIsText(st: B.Style, n: Node)
    ensures B.Wrapped("(", B.Text(Text(st, n)), ")") == B.Text(Text(st, ParenBoolExpr(n)))
  {
    C.ParenText(st, n, "");
    assert Text(st, ParenBoolExpr(n)) + "" == Text(st, ParenBoolExpr(n)) && ")" + "" == ")";
  }

  /** Several columns: some row equals the columns. */
  lemma RowsAreText(st: B.Style, columns: seq<string>, rows: seq<seq<B.Scalar>>)
    requires |columns| > 1 && rows != [] && (forall i :: 0 <= i < |rows| ==> |columns| <= |rows[i]|)
    requires forall j :: 0 <= j < |columns| ==> columns[j] !in st.keywords
    ensures var ns := RowNodes(columns, rows);
            B.EncodeValue(B.Tuples(columns, rows)) == B.Text(Text(st, Connected(true, ns[0], ns[1..])))
  {
    SeveralColumns(columns, rows);
    RowsPrint(st, columns, rows);
    ConnectedIsText(st, true, B.Equalities(columns, rows), RowNodes(columns, rows));
  }

  lemma SeveralColumns(columns: seq<string>, rows: seq<seq<B.Scalar>>)
    requires |columns| > 1 && rows != []
    ensures B.EncodeValue(B.Tuples(columns, rows)) == B.SepBy(" or ", B.Equalities(columns, rows))
  {
  }

  lemma RowsPrint(st: B.Style, columns: seq<string>, rows: seq<seq<B.Scalar>>)
    requires 0 < |columns| && forall i :: 0 <= i < |rows| ==> |columns| <= |rows[i]|
    requires forall j :: 0 <= j < |columns| ==> columns[j] !in st.keywords
    ensures Prints(st, B.Equalities(columns, rows), RowNodes(columns, rows))
  {
    forall i | 0 <= i < |rows|
      ensures B.Equalities(columns, rows)[i] == B.Text(Text(st, RowNodes(columns, rows)[i]))
    {
      RowIsText(st, columns, rows[i]);
    }
  }

  function FirstNodes(rows: seq<seq<B.Scalar>>): (r: seq<Node>)
    requires forall i :: 0 <= i < |rows| ==> |rows[i]| == 1
    ensures |r| == |rows| && forall i :: 0 <= i < |r| ==> r[i] == ScalarNode(rows[i][0])
  {
    seq(|rows|, (i: nat) requires i < |rows| => ScalarNode(rows[i][0]))
  }

  lemma SingleIsText(st: B.Style, row: seq<B.Scalar>)
    requires |row| == 1
    ensures B.EncodeRow(row) == B.Text(Text(st, ScalarNode(row[0])))
  {
    ScalarIsText(st, row[0]);
  }

  /** One column: it is among the rows' values. */
  lemma InIsText(st: B.Style, column: string, rows: seq<seq<B.Scalar>>)
    requires rows != [] && (forall i :: 0 <= i < |rows| ==> |rows[i]| == 1) && column !in st.keywords
    ensures B.EncodeValue(B.Tuples([column], rows)) ==
            B.Text(Text(st, ComparisonExpr("in", ColName(column, None), ValTuple(FirstNodes(rows)))))
  {
    OneColumn(column, rows);
    SinglesPrint(st, rows);
    TupleIsText(st, B.Singles(rows), FirstNodes(rows));
    InText(st, column, FirstNodes(rows), B.SepBy(", ", B.Singles(rows)));
  }

  lemma OneColumn(column: string, rows: seq<seq<B.Scalar>>)
    requires rows != []
    ensures B.EncodeValue(B.Tuples([column], rows)) ==
            B.Wrapped(column + " in (", B.SepBy(", ", B.Singles(rows)), ")")
  {
  }

  lemma SinglesPrint(st: B.Style, rows: seq<seq<B.Scalar>>)
    requires forall i :: 0 <= i < |rows| ==> |rows[i]| == 1
    ensures Prints(st, B.Singles(rows), FirstNodes(rows))
  {
    forall i | 0 <= i < |rows|
      ensures B.Singles(rows)[i] == B.Text(Text(st, FirstNodes(rows)[i]))
    {
      SingleIsText(st, rows[i]);
    }
  }

  lemma InText(st: B.Style, column: string, ns: seq<Node>, list: B.Out)
    requires column !in st.keywords && B.Wrapped("(", list, ")") == B.Text(Text(st, ValTuple(ns)))
    ensures B.Wrapped(column + " in (", list, ")") ==
            B.Text(Text(st, ComparisonExpr("in", ColName(column, None), ValTuple(ns))))
  {
    var n, tuple := ComparisonExpr("in", ColName(column, None), ValTuple(ns)), Text(st, ValTuple(ns));
    C.ComparisonText(st, "in", ColName(column, None), ValTuple(ns), "");
    ColumnText(st, column, " " + ("in" + (" " + tuple)));
    assert Text(st, n) + "" == Text(st, n) && tuple + "" == tuple;
    InSpelled(column, list.text + ")");
  }

  lemma InSpelled(column: string, x: string)
    ensures column + (" " + ("in" + (" " + ("(" + x)))) == (column + " in (") + x
  {
  }

  // ---------------------------------------------------------------- rows of values

  function CellNodes(values: seq<B.Scalar>): (r: seq<Node>)
    ensures |r| == |values| && forall i :: 0 <= i < |r| ==> r[i] == ScalarNode(values[i])
  {
    seq(|values|, (i: nat) requires i < |values| => ScalarNode(values[i]))
  }

  /** A row in parentheses is the printed tuple of its values. */
  lemma RowIsTuple(st: B.Style, values: seq<B.Scalar>)
    requires values != []
    ensures B.Wrapped("(", B.EncodeValue(B.Row(values)), ")") == B.Text(Text(st, ValTuple(CellNodes(values))))
  {
    var parts := seq(|values|, (i: nat) requires i < |values| => B.Text(B.ScalarText(values[i])));
    forall i | 0 <= i < |values|
      ensures parts[i] == B.Text(Text(st, CellNodes(values)[i]))
    {
      ScalarIsText(st, values[i]);
    }
    RowEncoded(values);
    TupleIsText(st, parts, CellNodes(values));
  }

  lemma RowEncoded(values: seq<B.Scalar>)
    ensures B.EncodeValue(B.Row(values)) ==
            B.SepBy(", ", seq(|values|, (i: nat) requires i < |values| => B.Text(B.ScalarText(values[i]))))
  {
  }

  function TupleNodes(rows: seq<seq<B.Scalar>>): (r: seq<Node>)
    ensures |r| == |rows| && forall i :: 0 <= i < |r| ==> r[i] == ValTuple(CellNodes(rows[i]))
  {
    seq(|rows|, (i: nat) requires i < |rows| => ValTuple(CellNodes(rows[i])))
  }

  /** Several rows are the printed list of their tuples, as VALUES has it. */
  lemma RowsAreTuples(st: B.Style, rows: seq<seq<B.Scalar>>)
    requires rows != [] && forall i :: 0 <= i < |rows| ==> rows[i] != []
    ensures B.Concat(B.Text("values "), B.EncodeValue(B.Rows(rows))) == B.Text(Text(st, Node.Values(TupleNodes(rows))))
  {
    var parts := seq(|rows|, (i: nat) requires i < |rows| => B.Wrapped("(", B.EncodeRow(rows[i]), ")"));
    forall i | 0 <= i < |rows|
      ensures parts[i] == B.Text(Text(st, TupleNodes(rows)[i]))
    {
      RowIsTuple(st, rows[i]);
    }
    SeparatedText(st, parts, TupleNodes(rows));
    ValuesText(st, TupleNodes(rows));
  }

  lemma ValuesText(st: B.Style, ns: seq<Node>)
    requires ns != []
    ensures Text(st, Node.Values(ns)) == "values " + (Text(st, ns[0]) + More(st, ns[1..], ""))
  {
    TextNest(st, Node.Values(ns));
    ListedText(st, ns, "values ", "");
  }
}
