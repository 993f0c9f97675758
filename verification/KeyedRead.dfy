/** What the text written for a lookup by primary key asks the database (generateSelectSql of
    proxy/conn_query.go), read from that text. */
module KeyedRead {
  import opened Wrappers
  import opened Ast
  import opened Sequences
  import opened Schema
  import opened SqlMeaning
  import opened PlanWhere
  import opened PlanSelect
  import opened SqlReader
  import opened ReadBack
  import D = Decimal
  import C = ConditionReadBack
  import S = StatementReadBack
  import Tk = Tokenizer

  // ---------------------------------------------------------------- names and literals

  function KeyName(t: Table, k: nat): string
    requires WellFormedKey(t) && k < |t.pkColumns|
  {
    t.columns[t.pkColumns[k]].name
  }

  /** The statement is written with words. */
  predicate WordNames(t: Table)
    requires WellFormedKey(t)
  {
    IsName(t.name) && forall k :: 0 <= k < |t.pkColumns| ==> IsName(KeyName(t, k))
  }

  predicate Named(t: Table, name: string)
    requires WellFormedKey(t)
  {
    exists k :: 0 <= k < |t.pkColumns| && KeyName(t, k) == name
  }

  /** What a bare name is read as. */
  function BareNode(name: string): Node { if name == "null" then NullVal else ColName(name, None) }

  lemma BareColumn(name: string, x: string)
    requires IsName(name) && Ends(x)
    ensures ReadColumn(name + x) == Read(BareNode(name), x)
  {
    var c := name + x;
    Tk.RunLenIs(Tk.Word, name, x);
    assert c[..|name|] == name && c[|name|..] == x;
  }

  lemma BareReads(name: string, lead: string, x: string)
    requires IsName(name) && Ends(x) && (lead == "" || lead == " ")
    ensures var s := lead + (name + x);
            && ReadOperand(s) == Read(BareNode(name), x)
            && !At(Skip(s), '(') && WordAt(s) == name && AfterWord(s) == x
  {
    var c := name + x;
    WordFound(lead, name, x);
    SkipTo(lead, c);
    SkipTo("", c);
    assert "" + c == c;
    ColumnFound(c);
    BareColumn(name, x);
    SameFromSkip(lead + c, c);
  }

  lemma IntegerText(n: int)
    ensures IsNumber(D.FormatInt(n))
  {
    var s := D.FormatInt(n);
    if n < 0 {
      var d := D.FormatUint(-n);
      assert s == "-" + d;
      assert forall i :: 1 <= i < |s| ==> s[i] == d[i - 1];
    }
  }

  lemma LiteralReads(l: Literal, x: string)
    requires Ends(x)
    ensures ReadValue(LiteralText(l) + x) == Read(LiteralNode(l), x)
    ensures LiteralText(l) != "" && !InSymbol(LiteralText(l)[0])
  {
    match l
    case NumLit(n) =>
      IntegerText(n);
      NumberFound(D.FormatInt(n), x);
      ValueIsOperand(D.FormatInt(n), x);
    case StrLit(text) =>
      StringFound(text, x);
      ValueIsOperand(Tk.Quoted(text), x);
    case NullLit =>
      NullReads(x);
      ColumnFound("null" + x);
      ValueIsOperand("null", x);
  }

  lemma ValueIsOperand(text: string, x: string)
    requires text != "" && text[0] != '(' && !Tk.IsBlank(text[0])
    ensures ReadValue(text + x) == ReadOperand(text + x)
  {
    SkipTo("", text + x);
    assert "" + (text + x) == text + x;
  }

  // ---------------------------------------------------------------- one test

  lemma EqualsFound(left: Node, v: string)
    requires v != "" && !InSymbol(v[0])
    ensures ReadTest(left, "=" + v) == Compared("=", left, ReadValue(v)) && Ends("=" + v)
  {
    var s := "=" + v;
    assert s[1..] == v && s[..1] == "=";
    assert SymbolRun(v) == 0 && SymbolRun(s) == 1;
    assert Skip(s) == s;
  }

  lemma TestReads(name: string, l: Literal, lead: string, x: string)
    requires IsName(name) && name != "not" && Ends(x) && (lead == "" || lead == " ")
    ensures ReadFactor(lead + (name + ("=" + (LiteralText(l) + x)))) ==
            Read(ComparisonExpr("=", BareNode(name), LiteralNode(l)), x)
  {
    var v := LiteralText(l) + x;
    LiteralReads(l, x);
    assert v[0] == LiteralText(l)[0];
    EqualsFound(BareNode(name), v);
    BareReads(name, lead, "=" + v);
    var n := ComparisonExpr("=", BareNode(name), LiteralNode(l));
    TestRead(lead + (name + ("=" + v)), BareNode(name), "=" + v, n, x);
  }

  /** A column called `not` is taken for the word. */
  lemma NotUnread(l: Literal, x: string)
    requires Ends(x)
    ensures ReadFactor(" " + ("not" + ("=" + (LiteralText(l) + x)))).Unread?
  {
    var s := "=" + (LiteralText(l) + x);
    assert IsName("not");
    BareReads("not", " ", s);
    NoOperand(s);
  }

  lemma NoOperand(s: string)
    requires At(s, '=')
    ensures ReadFactor(s).Unread?
  {
    assert Skip(s) == s && Tk.RunLen(Tk.Word, s) == 0;
    assert ReadName(s) == NoName;
    assert ReadOperand(s) == ReadColumn(s);
  }

  lemma TestRead(s: string, left: Node, rest: string, n: Node, x: string)
    requires ReadOperand(s) == Read(left, rest) && !At(Skip(s), '(') && WordAt(s) != "not"
    requires ReadTest(left, rest) == Read(n, x)
    ensures ReadFactor(s) == Read(n, x)
  {
  }

  // ---------------------------------------------------------------- all tests

  ghost predicate Written(t: Table, values: seq<PkValue>) {
    WellFormedKey(t) && AllScalar(values) && |values| == |t.pkColumns| && WordNames(t)
  }

  /** The tests as they are written. */
  function TextTest(t: Table, k: nat, v: PkValue): Node
    requires WellFormedKey(t) && k < |t.pkColumns| && v.Scalar?
  {
    ComparisonExpr("=", BareNode(KeyName(t, k)), LiteralNode(v.v))
  }

  function TextTests(t: Table, values: seq<PkValue>): (r: seq<Node>)
    requires WellFormedKey(t) && AllScalar(values) && |values| == |t.pkColumns|
    ensures |r| == |values| && forall k :: 0 <= k < |r| ==> r[k] == TextTest(t, k, values[k])
  {
    seq(|values|, (k: nat) requires k < |values| => TextTest(t, k, values[k]))
  }

  /** The text from test `k` on, when there were others before. */
  function After(t: Table, values: seq<PkValue>, k: nat): string
    requires WellFormedKey(t) && AllScalar(values) && |values| == |t.pkColumns| && k <= |values|
  {
    if k == |values| then ";" else " and " + KeyedText(t, values, k)
  }

  lemma KeyedStep(t: Table, values: seq<PkValue>, k: nat)
    requires WellFormedKey(t) && AllScalar(values) && |values| == |t.pkColumns| && k < |values|
    ensures KeyedText(t, values, k) ==
            KeyName(t, k) + ("=" + (LiteralText(values[k].v) + After(t, values, k + 1)))
  {
    var name, lit, rest := KeyName(t, k), LiteralText(values[k].v), KeyedText(t, values, k + 1);
    var sep := if k < |values| - 1 then " and " else "";
    assert After(t, values, k + 1) == sep + rest;
    assert name + "=" + lit + sep + rest == name + ("=" + (lit + (sep + rest)));
  }

  lemma AfterEnds(t: Table, values: seq<PkValue>, k: nat)
    requires WellFormedKey(t) && AllScalar(values) && |values| == |t.pkColumns| && k <= |values|
    ensures Ends(After(t, values, k))
  {
  }

  lemma KeyedFactor(t: Table, values: seq<PkValue>, k: nat)
    requires Written(t, values) && k < |values|
    ensures ReadFactor(" " + KeyedText(t, values, k)) ==
            if KeyName(t, k) == "not" then Unread else Read(TextTest(t, k, values[k]), After(t, values, k + 1))
  {
    KeyedStep(t, values, k);
    AfterEnds(t, values, k + 1);
    if KeyName(t, k) == "not" {
      NotUnread(values[k].v, After(t, values, k + 1));
    } else {
      TestReads(KeyName(t, k), values[k].v, " ", After(t, values, k + 1));
    }
  }

  /** Conditions joined by AND from the left. */
  function Joined(n: Node, conds: seq<Node>): Node
    decreases |conds|
  {
    if conds == [] then n else Joined(AndExpr(n, conds[0]), conds[1..])
  }

  lemma {:induction false} JoinedHolds(t: Table, n: Node, conds: seq<Node>, row: Row, o: Oracle)
    ensures Holds(t, Joined(n, conds), row, o) == And3(Holds(t, n, row, o), AllHold(t, conds, row, o))
    decreases |conds|
  {
    if conds != [] { JoinedHolds(t, AndExpr(n, conds[0]), conds[1..], row, o); }
  }

  lemma AndStep(n: Node, x: string)
    ensures AndTail(n, " and " + x) ==
            var r := ReadFactor(" " + x); if r.Unread? then Unread else AndTail(AndExpr(n, r.node), r.rest)
  {
    C.AndFound(x);
  }

  /** Reading the tests from `k` on after the condition `n`: a column called `not` makes the text unreadable. */
  function Chain(t: Table, values: seq<PkValue>, k: nat, n: Node): Read
    requires WellFormedKey(t) && AllScalar(values) && |values| == |t.pkColumns| && k <= |values|
    decreases |values| - k
  {
    if k == |values| then Read(n, ";")
    else if KeyName(t, k) == "not" then Unread
    else Chain(t, values, k + 1, AndExpr(n, TextTest(t, k, values[k])))
  }

  /** One step of `Chain`, for any reader `f`. */
  ghost predicate Step(t: Table, values: seq<PkValue>, f: (Node, nat) -> Read, n: Node, k: nat)
    requires WellFormedKey(t) && AllScalar(values) && |values| == |t.pkColumns| && k <= |values|
  {
    f(n, k) ==
    if k == |values| then Read(n, ";")
    else if KeyName(t, k) == "not" then Unread
    else f(AndExpr(n, TextTest(t, k, values[k])), k + 1)
  }

  lemma {:induction false} StepsChain(t: Table, values: seq<PkValue>, k: nat, n: Node, f: (Node, nat) -> Read)
    requires WellFormedKey(t) && AllScalar(values) && |values| == |t.pkColumns| && k <= |values|
    requires forall m, j: nat :: j <= |values| ==> Step(t, values, f, m, j)
    ensures f(n, k) == Chain(t, values, k, n)
    decreases |values| - k
  {
    assert Step(t, values, f, n, k);
    if k < |values| { StepsChain(t, values, k + 1, AndExpr(n, TextTest(t, k, values[k])), f); }
  }

  lemma RestStep(t: Table, values: seq<PkValue>, k: nat, n: Node)
    requires Written(t, values) && k < |values|
    ensures AndTail(n, After(t, values, k)) ==
            if KeyName(t, k) == "not" then Unread
            else AndTail(AndExpr(n, TextTest(t, k, values[k])), After(t, values, k + 1))
  {
    KeyedFactor(t, values, k);
    AndStep(n, KeyedText(t, values, k));
  }

  lemma ReaderSteps(t: Table, values: seq<PkValue>, n: Node, k: nat, f: (Node, nat) -> Read)
    requires Written(t, values) && k <= |values| && f(n, k) == AndTail(n, After(t, values, k))
    requires k < |values| ==>
               var m := AndExpr(n, TextTest(t, k, values[k])); f(m, k + 1) == AndTail(m, After(t, values, k + 1))
    ensures Step(t, values, f, n, k)
  {
    if k == |values| { NoWordAtEnd(); } else { RestStep(t, values, k, n); }
  }

  lemma ReaderChain(t: Table, values: seq<PkValue>, k: nat, n: Node, f: (Node, nat) -> Read)
    requires Written(t, values) && k <= |values|
    requires forall m, j: nat :: j <= |values| ==> f(m, j) == AndTail(m, After(t, values, j))
    ensures f(n, k) == Chain(t, values, k, n)
  {
    forall m, j: nat | j <= |values|
      ensures Step(t, values, f, m, j)
    {
      ReaderSteps(t, values, m, j, f);
    }
    StepsChain(t, values, k, n, f);
  }

  lemma RestReads(t: Table, values: seq<PkValue>, k: nat, n: Node)
    requires Written(t, values) && k <= |values|
    ensures AndTail(n, After(t, values, k)) == Chain(t, values, k, n)
  {
    ReaderChain(t, values, k, n, (m: Node, j: nat) => if j <= |values| then AndTail(m, After(t, values, j)) else Unread);
  }

  lemma {:induction false} ChainJoins(t: Table, values: seq<PkValue>, k: nat, n: Node)
    requires WellFormedKey(t) && AllScalar(values) && |values| == |t.pkColumns| && k <= |values|
    requires forall i :: k <= i < |values| ==> KeyName(t, i) != "not"
    ensures Chain(t, values, k, n) == Read(Joined(n, TextTests(t, values)[k..]), ";")
    decreases |values| - k
  {
    var tests := TextTests(t, values);
    if k == |values| {
      assert tests[k..] == [];
    } else {
      ChainJoins(t, values, k + 1, AndExpr(n, tests[k]));
      assert tests[k..][0] == tests[k] && tests[k..][1..] == tests[k + 1..];
    }
  }

  lemma {:induction false} ChainStops(t: Table, values: seq<PkValue>, k: nat, n: Node, i: nat)
    requires WellFormedKey(t) && AllScalar(values) && |values| == |t.pkColumns|
    requires k <= i < |values| && KeyName(t, i) == "not"
    ensures Chain(t, values, k, n) == Unread
    decreases |values| - k
  {
    if KeyName(t, k) != "not" { ChainStops(t, values, k + 1, AndExpr(n, TextTest(t, k, values[k])), i); }
  }

  /** The tests of the key, as one condition. */
  function KeyCondition(t: Table, values: seq<PkValue>): Node
    requires WellFormedKey(t) && AllScalar(values) && |values| == |t.pkColumns| && values != []
  {
    Joined(TextTests(t, values)[0], TextTests(t, values)[1..])
  }

  lemma ConditionReads(t: Table, values: seq<PkValue>)
    requires Written(t, values) && values != []
    ensures ReadOr(" " + KeyedText(t, values, 0)) ==
            if Named(t, "not") then Unread else Read(KeyCondition(t, values), ";")
  {
    var s := " " + KeyedText(t, values, 0);
    KeyedFactor(t, values, 0);
    NoWordAtEnd();
    if KeyName(t, 0) == "not" {
      OrUnread(s);
    } else {
      var n := TextTest(t, 0, values[0]);
      NamedRest(t, values, n);
      OrRead(s, n, After(t, values, 1));
    }
  }

  lemma NamedRest(t: Table, values: seq<PkValue>, n: Node)
    requires Written(t, values) && values != [] && KeyName(t, 0) != "not"
    ensures AndTail(n, After(t, values, 1)) ==
            if Named(t, "not") then Unread else Read(Joined(n, TextTests(t, values)[1..]), ";")
  {
    RestReads(t, values, 1, n);
    if Named(t, "not") {
      var i :| 0 <= i < |t.pkColumns| && KeyName(t, i) == "not";
      ChainStops(t, values, 1, n, i);
    } else {
      ChainJoins(t, values, 1, n);
    }
  }

  lemma OrUnread(s: string)
    requires ReadFactor(s).Unread?
    ensures ReadOr(s).Unread?
  {
  }

  lemma OrRead(s: string, n: Node, x: string)
    requires ReadFactor(s) == Read(n, x)
    requires var r := AndTail(n, x); r.Read? ==> WordAt(r.rest) != "or"
    ensures ReadOr(s) == AndTail(n, x)
  {
  }

  lemma NoWordAtEnd()
    ensures WordAt(";") == "" && Skip(";") == ";"
  {
  }

  lemma KeyConditionHolds(t: Table, values: seq<PkValue>, row: Row, o: Oracle)
    requires WellFormedKey(t) && AllScalar(values) && |values| == |t.pkColumns| && values != []
    ensures Holds(t, KeyCondition(t, values), row, o) == AllHold(t, TextTests(t, values), row, o)
  {
    var tests := TextTests(t, values);
    JoinedHolds(t, tests[0], tests[1..], row, o);
  }

  // ---------------------------------------------------------------- the statement

  function OneTable(name: string): Node { TableExprs([AliasedTableExpr(TableName(name, None), None, None)]) }

  /** All columns of one table, under a condition. */
  function StarSelect(name: string, cond: Node): Node {
    Node.Select(Comments([]), "", SelectExprs([StarExpr(None)]), OneTable(name), Where("where", Some(cond)), GroupBy([]),
                Where("having", None), OrderBy([]), NoLimit, "")
  }

  /** The statement's text. */
  function SelectSql(t: Table, values: seq<PkValue>): string
    requires WellFormedKey(t) && AllScalar(values) && |values| == |t.pkColumns|
  {
    "select * from " + t.name + " where " + KeyedText(t, values, 0)
  }

  lemma SqlParts(name: string, k: string)
    ensures "select * from " + name + " where " + k == "select " + ("*" + (" from " + (name + (" where " + k))))
  {
  }

  lemma StarReads(x: string)
    ensures ReadStatement("select " + ("*" + (" from " + x))) == ReadFrom("", SelectExprs([StarExpr(None)]), " " + x)
  {
    var rest := " from " + x;
    S.SelectFound("*" + rest);
    PlainStar(" ", rest);
    S.FromOpens(x);
    OneItem(" " + ("*" + rest), StarExpr(None), rest);
    S.SelectRead(" " + ("*" + rest), "", " " + ("*" + rest), [StarExpr(None)], rest);
  }

  lemma OneItem(s: string, n: Node, rest: string)
    requires ReadExpr(s) == Read(n, rest) && !At(Skip(rest), ',')
    ensures ReadItems(Exprs, s) == Items([n], rest)
  {
  }

  lemma FromReads(name: string, exprs: Node, k: string)
    requires IsName(name)
    ensures ReadFrom("", exprs, " " + (name + (" where " + k))) == ReadFilter("", exprs, OneTable(name), " where " + k)
  {
    var st := S.B.Style({}, false);
    WhereFound(k);
    S.PlainTable(st, name, " where " + k);
    S.FromRead("", exprs, " " + (name + (" where " + k)), TableName(name, None), " where " + k, None, " where " + k);
  }

  lemma WhereFound(k: string)
    ensures var s := " where " + k;
            Ends(s) && WordAt(s) == "where" && AfterWord(s) == " " + k && ReadAlias(s) == (None, s)
  {
    assert IsWords("where");
    Spaced(" where ", "where", k);
  }

  lemma WhereReads(s: string)
    requires WordAt(s) == "where"
    ensures ReadWhere("where", s) ==
            var r := ReadOr(AfterWord(s)); if r.Unread? then Unread else Read(Where("where", Some(r.node)), r.rest)
  {
  }

  lemma FilterUnread(exprs: Node, from: Node, s: string)
    requires ReadWhere("where", s).Unread?
    ensures ReadFilter("", exprs, from, s).Unread?
  {
  }

  /** Nothing but the end follows the condition. */
  lemma FilterReads(name: string, exprs: Node, s: string, cond: Node)
    requires ReadWhere("where", s) == Read(Where("where", Some(cond)), ";") && exprs == SelectExprs([StarExpr(None)])
    ensures ReadFilter("", exprs, OneTable(name), s) == Read(StarSelect(name, cond), ";")
  {
    NoWordAtEnd();
    var where, having := Where("where", Some(cond)), Where("having", None);
    EndReads(having);
    S.FilterRead("", exprs, OneTable(name), s, where, ";", [], ";");
    S.GroupedRead("", exprs, OneTable(name), where, GroupBy([]), ";", having, ";", OrderBy([]), NoLimit, ";", "", ";");
  }

  lemma EndReads(having: Node)
    ensures ReadBy("group", Operands, ";") == Items([], ";") && ReadWhere("having", ";") == Read(Where("having", None), ";")
    ensures ReadLimits(having, ";") == Closing(having, OrderBy([]), NoLimit, ";") && ReadLock(";") == ("", ";")
  {
    NoWordAtEnd();
  }

  /** The text of a lookup reads as: all columns of the table, where each column of the key equals its value;
      unless a column is called `not`. */
  lemma LookupReads(t: Table, values: seq<PkValue>)
    requires Written(t, values) && values != []
    ensures ReadStatement(SelectSql(t, values)) ==
            if Named(t, "not") then Unread else Read(StarSelect(t.name, KeyCondition(t, values)), ";")
  {
    var k, exprs := KeyedText(t, values, 0), SelectExprs([StarExpr(None)]);
    SqlParts(t.name, k);
    StarReads(t.name + (" where " + k));
    FromReads(t.name, exprs, k);
    ConditionReads(t, values);
    WhereFound(k);
    WhereReads(" where " + k);
    if Named(t, "not") {
      FilterUnread(exprs, OneTable(t.name), " where " + k);
    } else {
      FilterReads(t.name, exprs, " where " + k, KeyCondition(t, values));
    }
  }

  // ---------------------------------------------------------------- what the proxy answers

  /** What the database answers to a text: nothing unless it is one SELECT from the table. */
  function Answered(t: Table, text: string, rows: seq<Row>, o: Oracle): Option<seq<Row>> {
    match ReadStatement(text)
    case Unread => None
    case Read(n, rest) => if n.Select? && n.from == OneTable(t.name) && rest == ";" then Original(t, n, rows, o) else None
  }

  /** The first row of an answer, projected; a row of another width is an index out of range. */
  function FirstOf(t: Table, cols: seq<nat>, answer: Option<seq<Row>>): Option<seq<Row>>
    requires forall i :: 0 <= i < |cols| ==> cols[i] < |t.columns|
  {
    if answer.None? || answer.value == [] then answer
    else if |answer.value[0]| != |t.columns| then None
    else Some([Projected(cols, answer.value[0])])
  }

  /** The answer on the cached path, by the text that is sent. */
  function CachedByText(t: Table, cols: seq<nat>, values: seq<PkValue>, rows: seq<Row>, o: Oracle): Option<seq<Row>>
    requires WellFormedKey(t) && |values| == |t.pkColumns|
    requires forall i :: 0 <= i < |cols| ==> cols[i] < |t.columns|
  {
    if AllScalar(values) then FirstOf(t, cols, Answered(t, SelectSql(t, values), rows, o)) else None
  }

  lemma StarShown(t: Table, rows: seq<Row>, o: Oracle)
    ensures ShownRows(t, [StarExpr(None)], rows, o) == rows
  {
    assert [StarExpr(None)][..0] == [];
    forall i | 0 <= i < |rows|
      ensures Shown(t, [StarExpr(None)], rows[i], o) == rows[i]
    {
      assert [] + rows[i] == rows[i];
    }
  }

  lemma StarAnswer(t: Table, cond: Node, rows: seq<Row>, o: Oracle)
    ensures Original(t, StarSelect(t.name, cond), rows, o) == Some(Filter(rows, row => Holds(t, cond, row, o).T?))
  {
    var sel := StarSelect(t.name, cond);
    var p, q := row => WhereHolds(t, sel.where, row, o).T?, row => Holds(t, cond, row, o).T?;
    FilterSame(rows, p, q);
    StarShown(t, Filter(rows, p), o);
  }

  lemma UnreadAnswer(t: Table, text: string, rows: seq<Row>, o: Oracle)
    requires ReadStatement(text) == Unread
    ensures Answered(t, text, rows, o) == None
  {
  }

  lemma TextAnswer(t: Table, text: string, cond: Node, rows: seq<Row>, o: Oracle)
    requires ReadStatement(text) == Read(StarSelect(t.name, cond), ";")
    ensures Answered(t, text, rows, o) == Some(Filter(rows, row => Holds(t, cond, row, o).T?))
  {
    StarAnswer(t, cond, rows, o);
  }

  lemma SameFound(t: Table, values: seq<PkValue>, rows: seq<Row>, o: Oracle)
    requires WellFormedKey(t) && AllScalar(values) && |values| == |t.pkColumns| && values != []
    ensures Filter(rows, row => Holds(t, KeyCondition(t, values), row, o).T?) ==
            Filter(rows, row => AllHold(t, TextTests(t, values), row, o).T?)
  {
    forall i | 0 <= i < |rows|
      ensures Holds(t, KeyCondition(t, values), rows[i], o).T? == AllHold(t, TextTests(t, values), rows[i], o).T?
    {
      KeyConditionHolds(t, values, rows[i], o);
    }
    FilterSame(rows, row => Holds(t, KeyCondition(t, values), row, o).T?,
               row => AllHold(t, TextTests(t, values), row, o).T?);
  }

  lemma LookupFinds(t: Table, values: seq<PkValue>, rows: seq<Row>, o: Oracle)
    requires Written(t, values) && values != []
    ensures Answered(t, SelectSql(t, values), rows, o) ==
            if Named(t, "not") then None else Some(Filter(rows, row => AllHold(t, TextTests(t, values), row, o).T?))
  {
    LookupReads(t, values);
    if Named(t, "not") {
      UnreadAnswer(t, SelectSql(t, values), rows, o);
    } else {
      TextAnswer(t, SelectSql(t, values), KeyCondition(t, values), rows, o);
      SameFound(t, values, rows, o);
    }
  }

  /** Names that are not taken for something else. */
  predicate PlainNames(t: Table)
    requires WellFormedKey(t)
  {
    WordNames(t) && !Named(t, "not") && !Named(t, "null")
  }

  lemma PlainTests(t: Table, values: seq<PkValue>)
    requires WellFormedKey(t) && AllScalar(values) && |values| == |t.pkColumns| && PlainNames(t)
    ensures TextTests(t, values) == KeyTests(t, values)
  {
    forall k | 0 <= k < |values|
      ensures TextTest(t, k, values[k]) == KeyTest(t, k, values[k])
    {
      assert KeyName(t, k) != "null";
    }
  }

  /** The text asks for what the plan means. */
  lemma TextIsCached(t: Table, cols: seq<nat>, values: seq<PkValue>, rows: seq<Row>, o: Oracle)
    requires WellFormedKey(t) && |values| == |t.pkColumns| && PlainNames(t) && values != []
    requires forall i :: 0 <= i < |rows| ==> |rows[i]| == |t.columns|
    requires forall i :: 0 <= i < |cols| ==> cols[i] < |t.columns|
    ensures CachedByText(t, cols, values, rows, o) == Cached(t, cols, values, rows, o)
  {
    if AllScalar(values) {
      LookupFinds(t, values, rows, o);
      PlainTests(t, values);
      var tests := KeyTests(t, values);
      FilterKeeps(rows, row => AllHold(t, tests, row, o).T?, |t.columns|);
    }
  }

  /** On every table content, the text that is sent gets the answer that the client's SELECT would get. */
  ghost predicate SameByText(sel: Node, t: Table, cols: seq<nat>, values: seq<PkValue>, o: Oracle)
    requires sel.Select? && WellFormed(t) && WellFormedKey(t) && |values| == |t.pkColumns|
    requires forall i :: 0 <= i < |cols| ==> cols[i] < |t.columns|
  {
    forall rows :: ValidRows(t, rows) ==>
      CachedByText(t, cols, values, rows, o).Some? && CachedByText(t, cols, values, rows, o) == Original(t, sel, rows, o)
  }

  lemma PlainSame(sel: Node, t: Table, cols: seq<nat>, values: seq<PkValue>, o: Oracle)
    requires sel.Select? && WellFormed(t) && WellFormedKey(t) && |values| == |t.pkColumns| && PlainNames(t) && values != []
    requires forall i :: 0 <= i < |cols| ==> cols[i] < |t.columns|
    ensures SameByText(sel, t, cols, values, o) <==> SameAnswers(sel, t, cols, values, o)
  {
    forall rows | ValidRows(t, rows)
      ensures CachedByText(t, cols, values, rows, o) == Cached(t, cols, values, rows, o)
    {
      TextIsCached(t, cols, values, rows, o);
    }
  }

  lemma NullEquals(t: Table, right: Node, row: Row, o: Oracle)
    ensures !Holds(t, ComparisonExpr("=", NullVal, right), row, o).T?
  {
    EqualityHolds(t, NullVal, right, row, o);
  }

  lemma OneFails(t: Table, tests: seq<Node>, k: nat, row: Row, o: Oracle)
    requires k < |tests| && !Holds(t, tests[k], row, o).T?
    ensures !AllHold(t, tests, row, o).T?
  {
    AllHoldIff(t, tests, row, o);
  }

  /** A bare `null` equals nothing, so nothing is found. */
  lemma NullFindsNothing(t: Table, values: seq<PkValue>, row: Row, o: Oracle)
    requires Written(t, values) && Named(t, "null")
    ensures !AllHold(t, TextTests(t, values), row, o).T?
  {
    var k :| 0 <= k < |t.pkColumns| && KeyName(t, k) == "null";
    NullEquals(t, LiteralNode(values[k].v), row, o);
    OneFails(t, TextTests(t, values), k, row, o);
  }

  /** Then a row that the plan finds is not found. */
  lemma TextLoses(t: Table, cols: seq<nat>, values: seq<PkValue>, row: Row, o: Oracle)
    requires Written(t, values) && values != [] && !PlainNames(t) && |row| == |t.columns|
    requires forall i :: 0 <= i < |cols| ==> cols[i] < |t.columns|
    ensures CachedByText(t, cols, values, [row], o) in {None, Some([])}
  {
    LookupFinds(t, values, [row], o);
    if !Named(t, "not") {
      NullFindsNothing(t, values, row, o);
      FilterSingle(row, r => AllHold(t, TextTests(t, values), r, o).T?);
    }
  }

  lemma OtherNamesLose(sel: Node, t: Table, cols: seq<nat>, values: seq<PkValue>, row: Row, o: Oracle)
    requires sel.Select? && WellFormed(t) && Written(t, values) && values != [] && !PlainNames(t)
    requires forall i :: 0 <= i < |cols| ==> cols[i] < |t.columns|
    requires |row| == |t.columns| && AllHold(t, KeyTests(t, values), row, o).T?
    ensures SameAnswers(sel, t, cols, values, o) ==> !SameByText(sel, t, cols, values, o)
  {
    OneValid(t, row);
    TextLoses(t, cols, values, row, o);
    CachedOne(t, cols, values, row, o);
  }

  /** Where the plan means what the client asked, the text that is sent means it too exactly when no column of
      the key is called `not` or `null`; and for such names, the text is right exactly when the plan is. */
  lemma SentTextIff(sel: Node, t: Table, cols: seq<nat>, values: seq<PkValue>, o: Oracle)
    requires sel.Select? && WellFormed(t) && PlanOnTable(sel, t) == PkIn(cols, values)
    ensures AnalyzeWhere(sel.where).Some? && PkTests(AnalyzeWhere(sel.where).value, t.indexes[0].columns)
    ensures WellFormedKey(t) && |values| == |t.pkColumns| && forall i :: 0 <= i < |cols| ==> cols[i] < |t.columns|
    ensures PlainNames(t) ==>
              (SameByText(sel, t, cols, values, o) <==>
               && AllScalar(values) && AllAccept(t, AnalyzeWhere(sel.where).value, KeptVals(values), o)
               && LimitAdmits(sel.limit, t, o))
    ensures WordNames(t) && SameAnswers(sel, t, cols, values, o) ==>
              (SameByText(sel, t, cols, values, o) <==> PlainNames(t))
  {
    CachedIff(sel, t, cols, values, o);
    KeyedShape(sel, t, cols, values);
    FlattenShape(sel.where.cond.value);
    var conds := AnalyzeWhere(sel.where).value;
    assert PkTest(conds[0], t.indexes[0].columns) >= 0;
    assert values != [];
    if PlainNames(t) {
      PlainSame(sel, t, cols, values, o);
    } else if WordNames(t) && AllScalar(values) {
      PkValuesMeaning(conds, t.indexes[0].columns);
      KeyRowFate(sel.where, t, values, o);
      assert |RowWith(t, KeptVals(values))| == |t.columns|;
      OtherNamesLose(sel, t, cols, values, RowWith(t, KeptVals(values)), o);
    }
  }

  // ---------------------------------------------------------------- where the text loses a row

  const NULL_TABLE := Table("t", [Column("null", None)], [Index("PRIMARY", ["null"], [1], ["null"])], [0], CACHE_RW)

  function NullIsOne(): Node { ComparisonExpr("=", ColName("null", None), NumVal("1")) }

  lemma NullTable()
    ensures WellFormed(NULL_TABLE) && WellFormedKey(NULL_TABLE) && WordNames(NULL_TABLE) && Named(NULL_TABLE, "null")
  {
    assert Names(NULL_TABLE.columns) == ["null"];
    assert Lower("null") == "null";
    assert KeyName(NULL_TABLE, 0) == "null";
  }

  lemma NullColumns()
    ensures IndexOf(["null"], "null") == 0 && SelectItems([StarExpr(None)], NULL_TABLE) == Numbers([0])
  {
    assert Names(NULL_TABLE.columns) == ["null"];
    assert AllColumns(NULL_TABLE) == [0];
    assert [StarExpr(None)][..0] == [];
  }

  lemma NullValues(cond: Node)
    requires cond == NullIsOne()
    ensures PkValuesOf([cond], ["null"]) == Found([Scalar(NumLit(1))])
  {
    NullColumns();
    SmallNumbers();
    assert [cond][..0] == [];
    assert PkSlots([cond], ["null"]) == Slots([Some(Scalar(NumLit(1)))]);
  }

  lemma NullPlan()
    ensures PlanOnTable(StarFromT(NullIsOne(), NoLimit), NULL_TABLE) == PkIn([0], [Scalar(NumLit(1))])
  {
    NullColumns();
    NullValues(NullIsOne());
    assert AnalyzeBoolean(NullIsOne()) == Some([NullIsOne()]);
  }

  /** On a table whose key is called `null`, the row with key 1 is planned for and never found. */
  lemma NullKeyIsLost(o: Oracle)
    ensures var sel, values := StarFromT(NullIsOne(), NoLimit), [Scalar(NumLit(1))];
            && PlanOnTable(sel, NULL_TABLE) == PkIn([0], values)
            && WellFormed(NULL_TABLE) && WellFormedKey(NULL_TABLE)
            && SameAnswers(sel, NULL_TABLE, [0], values, o) && !SameByText(sel, NULL_TABLE, [0], values, o)
  {
    var sel, values := StarFromT(NullIsOne(), NoLimit), [Scalar(NumLit(1))];
    NullTable();
    NullPlan();
    SmallNumbers();
    CachedIff(sel, NULL_TABLE, [0], values, o);
    SentTextIff(sel, NULL_TABLE, [0], values, o);
    NullAccepted(sel, values, o);
  }

  lemma AlikeOne()
    ensures ReadsAlike(NumVal("1"))
  {
    SmallNumbers();
  }

  lemma NullAccepted(sel: Node, values: seq<PkValue>, o: Oracle)
    requires sel == StarFromT(NullIsOne(), NoLimit) && values == [Scalar(NumLit(1))]
    requires WellFormed(NULL_TABLE) && PlanOnTable(sel, NULL_TABLE) == PkIn([0], values)
    ensures AnalyzeWhere(sel.where).Some? && PkTests(AnalyzeWhere(sel.where).value, NULL_TABLE.indexes[0].columns)
    ensures |KeptVals(values)| == |NULL_TABLE.pkColumns|
    ensures AllAccept(NULL_TABLE, AnalyzeWhere(sel.where).value, KeptVals(values), o)
  {
    var conds := [NullIsOne()];
    assert AnalyzeWhere(sel.where) == Some(conds);
    KeyedShape(sel, NULL_TABLE, [0], values);
    PkValuesMeaning(conds, NULL_TABLE.indexes[0].columns);
    AlikeOne();
    OneTestPerColumn(NULL_TABLE, conds, values, o);
  }
}
