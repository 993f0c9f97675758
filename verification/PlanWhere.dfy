/** Flattening WHERE clauses and extracting primary-key values (sqlparser/analyzer.go,
    planbuilder/select.go, planbuilder/index_analysis.go). */
module PlanWhere {
  import opened Wrappers
  import opened Bytes
  import opened Ast
  import opened Schema
  import opened SqlMeaning
  import K = CacheKey
  import D = Decimal

  // ---------------------------------------------------------------- conditions

  predicate IsValue(n: Node) { n.StrVal? || n.NumVal? || n.ValArg? }

  predicate IsSimpleTuple(n: Node) {
    n.ListArg? || (n.ValTuple? && forall i :: 0 <= i < |n.items| ==> IsValue(n.items[i]))
  }

  predicate IsIn(n: Node) { n.ComparisonExpr? && n.op == "in" }

  predicate HasINClause(conds: seq<Node>) { exists i :: 0 <= i < |conds| && IsIn(conds[i]) }

  const COMPARISONS: set<string> := {"=", "<", ">", "<=", ">=", "<=>", "like"}

  /** analyzeBoolean: the conjuncts of a condition, or `None` when it is anything but a conjunction of
      simple tests of a column against values. */
  function AnalyzeBoolean(n: Node): (r: Option<seq<Node>>) {
    match n
    case AndExpr(left, right) =>
      var l, r := AnalyzeBoolean(left), AnalyzeBoolean(right);
      if l.None? || r.None? || (HasINClause(l.value) && HasINClause(r.value)) then None
      else Some(l.value + r.value)
    case ParenBoolExpr(expr) => AnalyzeBoolean(expr)
    case ComparisonExpr(op, left, right) =>
      if op in COMPARISONS then if left.ColName? && IsValue(right) then Some([n]) else None
      else if op == "in" && left.ColName? && IsSimpleTuple(right) then Some([n])
      else None
    case RangeCond(op, left, lo, hi) =>
      if op == "between" && left.ColName? && IsValue(lo) && IsValue(hi) then Some([n]) else None
    case _ => None
  }

  function AnalyzeWhere(where: Node): Option<seq<Node>> {
    if where.Where? && where.cond.Some? then AnalyzeBoolean(where.cond.value) else None
  }

  /** The truth of a WHERE clause; an absent one always holds. */
  function WhereHolds(t: Table, where: Node, row: Row, o: Oracle): TV {
    if where.Where? && where.cond.Some? then Holds(t, where.cond.value, row, o) else T
  }

  function AllHold(t: Table, conds: seq<Node>, row: Row, o: Oracle): TV {
    if conds == [] then T else And3(Holds(t, conds[0], row, o), AllHold(t, conds[1..], row, o))
  }

  lemma {:induction false} AllHoldAppend(t: Table, a: seq<Node>, b: seq<Node>, row: Row, o: Oracle)
    ensures AllHold(t, a + b, row, o) == And3(AllHold(t, a, row, o), AllHold(t, b, row, o))
  {
    if a == [] {
      assert a + b == b;
    } else {
      assert (a + b)[1..] == a[1..] + b;
      AllHoldAppend(t, a[1..], b, row, o);
    }
  }

  lemma {:induction false} AllHoldIff(t: Table, conds: seq<Node>, row: Row, o: Oracle)
    ensures AllHold(t, conds, row, o).T? <==> forall i :: 0 <= i < |conds| ==> Holds(t, conds[i], row, o).T?
  {
    if conds != [] {
      AllHoldIff(t, conds[1..], row, o);
      assert forall i :: 1 <= i < |conds| ==> conds[i] == conds[1..][i - 1];
    }
  }

  /** The list of conjuncts means what the tree means, in three-valued logic, on every row. */
  lemma {:induction false} FlattenKeepsMeaning(t: Table, n: Node, row: Row, o: Oracle)
    requires AnalyzeBoolean(n).Some?
    ensures AllHold(t, AnalyzeBoolean(n).value, row, o) == Holds(t, n, row, o)
  {
    if n.AndExpr? {
      FlattenKeepsMeaning(t, n.left, row, o);
      FlattenKeepsMeaning(t, n.right, row, o);
      AllHoldAppend(t, AnalyzeBoolean(n.left).value, AnalyzeBoolean(n.right).value, row, o);
    } else if n.ParenBoolExpr? {
      FlattenKeepsMeaning(t, n.expr, row, o);
    } else {
      assert AllHold(t, [n][1..], row, o).T?;
    }
  }

  /** What every conjunct looks like. */
  predicate SimpleTest(n: Node) {
    || (n.ComparisonExpr? && n.left.ColName? &&
        if n.op == "in" then IsSimpleTuple(n.right) else n.op in COMPARISONS && IsValue(n.right))
    || (n.RangeCond? && n.op == "between" && n.left.ColName? && IsValue(n.lo) && IsValue(n.hi))
  }

  /** A flattened WHERE is not empty, has simple tests only, and has at most one IN. */
  lemma {:induction false} FlattenShape(n: Node)
    requires AnalyzeBoolean(n).Some?
    ensures var cs := AnalyzeBoolean(n).value;
            && cs != [] && (forall i :: 0 <= i < |cs| ==> SimpleTest(cs[i]))
            && (forall i, j :: 0 <= i < j < |cs| ==> !IsIn(cs[i]) || !IsIn(cs[j]))
  {
    match n
    case AndExpr(left, right) =>
      FlattenShape(left);
      FlattenShape(right);
    case ParenBoolExpr(expr) => FlattenShape(expr);
    case _ =>
  }

  /** A conjunction of simple tests, in whatever parentheses, and how many of them are IN. */
  predicate Conjunction(n: Node) {
    match n
    case AndExpr(left, right) => Conjunction(left) && Conjunction(right)
    case ParenBoolExpr(expr) => Conjunction(expr)
    case _ => SimpleTest(n)
  }

  function InTests(n: Node): nat {
    match n
    case AndExpr(left, right) => InTests(left) + InTests(right)
    case ParenBoolExpr(expr) => InTests(expr)
    case _ => if IsIn(n) then 1 else 0
  }

  /** Exactly the conjunctions of simple tests with at most one IN are flattened. */
  lemma {:induction false} FlattenIff(n: Node)
    ensures AnalyzeBoolean(n).Some? <==> Conjunction(n) && InTests(n) <= 1
    ensures AnalyzeBoolean(n).Some? ==> (HasINClause(AnalyzeBoolean(n).value) <==> InTests(n) == 1)
  {
    if n.AndExpr? {
      FlattenIff(n.left);
      FlattenIff(n.right);
      if AnalyzeBoolean(n).Some? { HasInEither(AnalyzeBoolean(n.left).value, AnalyzeBoolean(n.right).value); }
    } else if n.ParenBoolExpr? {
      FlattenIff(n.expr);
    } else {
      OneTest(n);
    }
  }

  lemma OneTest(n: Node)
    ensures HasINClause([n]) <==> IsIn(n)
  {
    assert [n][0] == n;
  }

  lemma HasInEither(a: seq<Node>, b: seq<Node>)
    ensures HasINClause(a + b) <==> HasINClause(a) || HasINClause(b)
  {
    if HasINClause(a) {
      var i :| 0 <= i < |a| && IsIn(a[i]);
      assert (a + b)[i] == a[i];
    } else if HasINClause(b) {
      var i :| 0 <= i < |b| && IsIn(b[i]);
      assert (a + b)[|a| + i] == b[i];
    }
  }

  // ---------------------------------------------------------------- primary-key values

  /** An element of ExecPlan.PKValues: a literal, a list, a bind variable's name, or nil. */
  datatype PkValue = Scalar(v: Literal) | Many(values: seq<PkValue>) | Name(arg: string) | Nil

  /** AsInterface; `None` is an error. */
  function AsInterface(n: Node): Option<PkValue> {
    match n
    case ValTuple(items) =>
      (match AsInterfaces(items)
       case Some(vs) => Some(Many(vs))
       case None => None)
    case ValArg(arg) => Some(Name(arg))
    case ListArg(arg) => Some(Name(arg))
    case StrVal(text) => Some(Scalar(StrLit(text)))
    case NumVal(text) =>
      (match BuildNumeric(text)
       case Some(v) => Some(Scalar(NumLit(v)))
       case None => None)
    case NullVal => Some(Nil)
    case _ => None
  }

  function AsInterfaces(items: seq<Node>): Option<seq<PkValue>> {
    if items == [] then Some([])
    else
      match (AsInterface(items[0]), AsInterfaces(items[1..]))
      case (Some(v), Some(vs)) => Some([v] + vs)
      case _ => None
  }

  /** The texts the cache-key builder sees. */
  function KeyText(l: Literal): string {
    match l
    case NumLit(n) => D.FormatInt(n)
    case StrLit(text) => text
    case NullLit => ""
  }

  function KeyPart(v: PkValue): K.PkValue {
    match v
    case Scalar(l) => K.Scalar(KeyText(l))
    case Many(values) => K.Many(seq(|values|, (i: nat) requires i < |values| => KeyPart(values[i])))
    case Name(_) => K.Unusable
    case Nil => K.Unusable
  }

  /** The primary-key column a condition tests by `=` or IN, or -1. */
  function PkTest(cond: Node, cols: seq<string>): (r: int)
    ensures -1 <= r < |cols|
  {
    if cond.ComparisonExpr? && (cond.op == "=" || cond.op == "in") && cond.left.ColName?
    then IndexOf(cols, cond.left.name) else -1
  }

  /** Progress of getPKValues: the slots filled so far, no plan, or an error. */
  datatype PkState = Slots(slots: seq<Option<PkValue>>) | NoPlan | PkError

  function PkStep(s: PkState, cond: Node, cols: seq<string>): (r: PkState)
    requires s.Slots? ==> |s.slots| == |cols|
    ensures r.Slots? ==> |r.slots| == |cols|
  {
    if !s.Slots? then s
    else
      var k := PkTest(cond, cols);
      if k < 0 then NoPlan
      else
        match AsInterface(cond.right)
        case None => PkError
        case Some(v) => Slots(s.slots[k := Some(v)])
  }

  function PkSlots(conds: seq<Node>, cols: seq<string>): (r: PkState)
    ensures r.Slots? ==> |r.slots| == |cols|
  {
    if conds == [] then Slots(seq(|cols|, (i: nat) => None))
    else PkStep(PkSlots(conds[..|conds| - 1], cols), conds[|conds| - 1], cols)
  }

  datatype PkResult = Found(values: seq<PkValue>) | NoValues | Failed

  predicate AllFilled(slots: seq<Option<PkValue>>) { forall k :: 0 <= k < |slots| ==> slots[k].Some? }

  function Unwrapped(slots: seq<Option<PkValue>>): (r: seq<PkValue>)
    requires AllFilled(slots)
    ensures |r| == |slots| && forall k :: 0 <= k < |slots| ==> r[k] == slots[k].value
  {
    seq(|slots|, (k: nat) requires k < |slots| => slots[k].value)
  }

  /** getPKValues: values for every primary-key column, when the conditions are `=` and IN tests that
      cover them all. */
  function PkValuesOf(conds: seq<Node>, cols: seq<string>): (r: PkResult)
    ensures r.Found? ==> |r.values| == |cols|
  {
    match PkSlots(conds, cols)
    case Slots(slots) => if AllFilled(slots) then Found(Unwrapped(slots)) else NoValues
    case NoPlan => NoValues
    case PkError => Failed
  }

  /** IndexScore: which columns of an index the conditions have matched. */
  class IndexScore {
    const index: Index
    const columnMatch: array<bool>
    var matchFailed: bool

    constructor (index: Index)
      ensures this.index == index && fresh(columnMatch) && columnMatch.Length == |index.columns| && !matchFailed
      ensures forall k :: 0 <= k < columnMatch.Length ==> !columnMatch[k]
    {
      this.index := index;
      columnMatch := new bool[|index.columns|](_ => false);
      matchFailed := false;
    }

    method FindMatch(columnName: string) returns (k: int)
      requires columnMatch.Length == |index.columns|
      modifies this`matchFailed, columnMatch
      ensures k == if old(matchFailed) then -1 else IndexOf(index.columns, columnName)
      ensures matchFailed == (old(matchFailed) || (k == -1 && columnName !in index.dataColumns))
      ensures forall j :: 0 <= j < columnMatch.Length ==> columnMatch[j] == (old(columnMatch[j]) || j == k)
    {
      if matchFailed {
        return -1;
      }
      k := IndexOf(index.columns, columnName);
      if k != -1 {
        columnMatch[k] := true;
        return k;
      }
      if IndexOf(index.dataColumns, columnName) == -1 {
        matchFailed := true;
      }
    }

    method GetScore() returns (score: int)
      requires columnMatch.Length == |index.columns| && ValidIndex(index)
      ensures score == ScoreOf(matchFailed, columnMatch[..], index.cardinality)
    {
      if matchFailed {
        return NO_MATCH;
      }
      score := NO_MATCH;
      for i := 0 to columnMatch.Length
        invariant forall k :: 0 <= k < i ==> columnMatch[k]
        invariant score == if i == 0 then NO_MATCH else Int64Of(index.cardinality[i - 1])
      {
        if !columnMatch[i] {
          return;
        }
        score := Int64Of(index.cardinality[i]);
      }
      score := PERFECT_SCORE;
    }
  }

  const NO_MATCH := -1
  const PERFECT_SCORE := 0

  /** A uint64 converted to int64. */
  function Int64Of(c: nat): int { if c > MAX_INT64 then c - MAX_UINT64 - 1 else c }

  /** How many leading columns are matched. */
  function Leading(matched: seq<bool>): (n: nat)
    ensures n <= |matched| && (forall k :: 0 <= k < n ==> matched[k]) && (n < |matched| ==> !matched[n])
  {
    if matched == [] || !matched[0] then 0 else 1 + Leading(matched[1..])
  }

  /** No match, a perfect one, or the cardinality of the last of the leading matched columns. */
  function ScoreOf(failed: bool, matched: seq<bool>, cardinality: seq<nat>): int
    requires |matched| == |cardinality|
  {
    var n := Leading(matched);
    if failed then NO_MATCH
    else if n == |matched| then PERFECT_SCORE
    else if n == 0 then NO_MATCH
    else Int64Of(cardinality[n - 1])
  }

  /** A score is perfect exactly when every column is matched: no cardinality reads as zero. */
  lemma PerfectIff(failed: bool, matched: seq<bool>, index: Index)
    requires ValidIndex(index) && |matched| == |index.columns|
    ensures ScoreOf(failed, matched, index.cardinality) == PERFECT_SCORE <==>
            !failed && forall k :: 0 <= k < |matched| ==> matched[k]
  {
    var n := Leading(matched);
    assert n == |matched| <==> forall k :: 0 <= k < |matched| ==> matched[k];
  }

  method GetPKValues(conds: seq<Node>, pkIndex: Index) returns (r: PkResult)
    requires ValidIndex(pkIndex)
    ensures r == PkValuesOf(conds, pkIndex.columns)
  {
    var score := new IndexScore(pkIndex);
    var slots: seq<Option<PkValue>> := seq(|pkIndex.columns|, (i: nat) => None);
    for i := 0 to |conds|
      invariant fresh(score) && fresh(score.columnMatch) && score.index == pkIndex
      invariant score.columnMatch.Length == |pkIndex.columns| && !score.matchFailed
      invariant PkSlots(conds[..i], pkIndex.columns) == Slots(slots)
      invariant forall k :: 0 <= k < |slots| ==> score.columnMatch[k] == slots[k].Some?
    {
      var cond := conds[i];
      assert conds[..i + 1][..i] == conds[..i];
      if !cond.ComparisonExpr? || (cond.op != "=" && cond.op != "in") || !cond.left.ColName? {
        StopsHere(conds, pkIndex.columns, i + 1);
        return NoValues;
      }
      var k := score.FindMatch(cond.left.name);
      if k == -1 {
        StopsHere(conds, pkIndex.columns, i + 1);
        return NoValues;
      }
      match AsInterface(cond.right)
      case None =>
        StopsHere(conds, pkIndex.columns, i + 1);
        return Failed;
      case Some(v) =>
        slots := slots[k := Some(v)];
    }
    assert conds[..|conds|] == conds;
    var s := score.GetScore();
    PerfectIff(score.matchFailed, score.columnMatch[..], pkIndex);
    r := if s == PERFECT_SCORE then Found(Unwrapped(slots)) else NoValues;
  }

  /** Once the extraction has stopped, further conditions do not matter. */
  lemma {:induction false} StopsHere(conds: seq<Node>, cols: seq<string>, i: nat)
    requires i <= |conds| && !PkSlots(conds[..i], cols).Slots?
    ensures PkSlots(conds, cols) == PkSlots(conds[..i], cols)
    decreases |conds| - i
  {
    if i == |conds| {
      assert conds[..i] == conds;
    } else {
      assert conds[..i + 1][..i] == conds[..i];
      StopsHere(conds, cols, i + 1);
    }
  }

  // ---------------------------------------------------------------- what the values mean

  /** The last condition that tests column `k`, or -1. */
  function LastTest(conds: seq<Node>, cols: seq<string>, k: nat): (r: int)
    ensures -1 <= r < |conds|
    ensures r >= 0 ==> PkTest(conds[r], cols) == k
    ensures forall i :: r < i < |conds| ==> PkTest(conds[i], cols) != k
  {
    if conds == [] then -1
    else if PkTest(conds[|conds| - 1], cols) == k then |conds| - 1
    else LastTest(conds[..|conds| - 1], cols, k)
  }

  /** Every condition is a convertible test of a primary-key column. */
  ghost predicate PkTests(conds: seq<Node>, cols: seq<string>) {
    forall i :: 0 <= i < |conds| ==> PkTest(conds[i], cols) >= 0 && AsInterface(conds[i].right).Some?
  }

  /** The value of the last test of column `k`. */
  function LastValue(conds: seq<Node>, cols: seq<string>, k: nat): Option<PkValue> {
    var i := LastTest(conds, cols, k);
    if i < 0 then None else AsInterface(conds[i].right)
  }

  lemma {:induction false} PkSlotsMeaning(conds: seq<Node>, cols: seq<string>)
    ensures PkSlots(conds, cols).Slots? <==> PkTests(conds, cols)
    ensures PkTests(conds, cols) ==> forall k :: 0 <= k < |cols| ==>
            PkSlots(conds, cols).slots[k] == LastValue(conds, cols, k)
  {
    if conds != [] {
      var init, last := conds[..|conds| - 1], conds[|conds| - 1];
      PkSlotsMeaning(init, cols);
      assert forall i :: 0 <= i < |init| ==> init[i] == conds[i];
    }
  }

  /** Condition `i` tests a primary-key column against a value that does not convert, and the conditions before
      it are convertible tests of such columns. */
  ghost predicate BadTest(conds: seq<Node>, cols: seq<string>, i: nat) {
    && i < |conds| && PkTests(conds[..i], cols)
    && PkTest(conds[i], cols) >= 0 && AsInterface(conds[i].right).None?
  }

  /** getPKValues fails exactly at a bad test. */
  lemma {:induction false} FailedIff(conds: seq<Node>, cols: seq<string>)
    ensures PkValuesOf(conds, cols).Failed? <==> exists i :: BadTest(conds, cols, i)
  {
    if conds != [] {
      var last := |conds| - 1;
      FailedIff(conds[..last], cols);
      PkSlotsMeaning(conds[..last], cols);
      BadBefore(conds, cols);
      if PkSlots(conds[..last], cols).PkError? {
        var i :| BadTest(conds[..last], cols, i);
        assert BadTest(conds, cols, i);
      } else if PkSlots(conds, cols).PkError? {
        assert BadTest(conds, cols, last);
      } else {
        assert !BadTest(conds, cols, last);
      }
    }
  }

  /** The bad tests before the last condition. */
  lemma BadBefore(conds: seq<Node>, cols: seq<string>)
    requires conds != []
    ensures forall i: nat :: i < |conds| - 1 ==> (BadTest(conds, cols, i) <==> BadTest(conds[..|conds| - 1], cols, i))
  {
    var last := |conds| - 1;
    forall i: nat | i < last
      ensures BadTest(conds, cols, i) <==> BadTest(conds[..last], cols, i)
    {
      assert conds[..last][i] == conds[i] && conds[..last][..i] == conds[..i];
    }
  }

  /** Every column is tested, and nothing else is. */
  ghost predicate Covers(conds: seq<Node>, cols: seq<string>) {
    PkTests(conds, cols) && forall k :: 0 <= k < |cols| ==> LastTest(conds, cols, k) >= 0
  }

  /** Values are found exactly when the conditions are all `=` or IN tests of primary-key columns, they
      convert, and every column is tested; each value is then that of the column's last test. */
  lemma PkValuesMeaning(conds: seq<Node>, cols: seq<string>)
    ensures var r := PkValuesOf(conds, cols);
            && (r.Found? <==> Covers(conds, cols))
            && (r.Found? ==> forall k :: 0 <= k < |cols| ==> Some(r.values[k]) == LastValue(conds, cols, k))
  {
    PkSlotsMeaning(conds, cols);
    if PkTests(conds, cols) {
      var slots := PkSlots(conds, cols).slots;
      if !AllFilled(slots) {
        var k :| 0 <= k < |cols| && slots[k].None?;
        assert LastTest(conds, cols, k) < 0;
      } else {
        forall k | 0 <= k < |cols|
          ensures LastTest(conds, cols, k) >= 0
        {
          assert slots[k] == LastValue(conds, cols, k);
        }
      }
    }
  }

  predicate AllScalar(values: seq<PkValue>) { forall k :: 0 <= k < |values| ==> values[k].Scalar? }

  /** The row's primary key is the planned one. */
  ghost predicate PkMatches(t: Table, values: seq<PkValue>, row: Row)
    requires AllScalar(values) && |values| == |t.pkColumns|
    requires |row| == |t.columns| && WellFormed(t)
  {
    forall k :: 0 <= k < |values| ==> row[t.pkColumns[k]] == LiteralVal(values[k].v)
  }

  /** Whether a condition on a primary-key column accepts a value there. */
  function Accepts(t: Table, cond: Node, v: Val, o: Oracle): TV
    requires cond.ComparisonExpr?
  {
    if cond.op == "=" then Eq3(v, ValueOf(t, cond.right, [], o))
    else if cond.right.ValTuple? then InList(t, v, cond.right.items, [], o)
    else if cond.right.ListArg? then InValues(v, o.list(cond.right.arg))
    else F
  }

  lemma PkColumnValue(t: Table, name: string, q: Option<string>, row: Row, o: Oracle)
    requires WellFormed(t) && |row| == |t.columns| && name in t.indexes[0].columns
    ensures ValueOf(t, ColName(name, q), row, o) == row[t.pkColumns[IndexOf(t.indexes[0].columns, name)]]
  {
    PkColumnNamed(t.columns, t.indexes, t.pkColumns, IndexOf(t.indexes[0].columns, name));
    ColumnAt(t, name, q, row, o, IndexOf(Names(t.columns), Lower(name)));
  }

  lemma ColumnAt(t: Table, name: string, q: Option<string>, row: Row, o: Oracle, i: int)
    requires i == IndexOf(Names(t.columns), Lower(name)) && 0 <= i < |row|
    ensures ValueOf(t, ColName(name, q), row, o) == row[i]
  {
  }

  lemma PkColumnNamed(columns: seq<Column>, indexes: seq<Index>, pkColumns: seq<nat>, k: nat)
    requires PkConsistent(columns, indexes, pkColumns) && k < |pkColumns|
    ensures pkColumns[k] < |columns|
    ensures var name := indexes[0].columns[k]; Lower(name) == name && IndexOf(Names(columns), name) == pkColumns[k]
  {
    assert Names(columns)[pkColumns[k]] == columns[pkColumns[k]].name;
  }

  /** A test of a primary-key column looks at that column of the row and at nothing else in it. */
  lemma PkTestHolds(t: Table, cond: Node, row: Row, o: Oracle)
    requires WellFormed(t) && |row| == |t.columns| && SimpleTest(cond) && PkTest(cond, t.indexes[0].columns) >= 0
    ensures Holds(t, cond, row, o) == Accepts(t, cond, row[t.pkColumns[PkTest(cond, t.indexes[0].columns)]], o)
  {
    PkColumnValue(t, cond.left.name, cond.left.qualifier, row, o);
    var v := ValueOf(t, cond.left, row, o);
    if cond.op == "=" {
      assert IsValue(cond.right);
      assert Holds(t, cond, row, o) == Eq3(v, ValueOf(t, cond.right, row, o));
    } else {
      assert cond.op == "in";
      if cond.right.ValTuple? { InListConst(t, v, cond.right.items, row, o); }
    }
  }

  lemma {:induction false} InListConst(t: Table, v: Val, items: seq<Node>, row: Row, o: Oracle)
    requires forall i :: 0 <= i < |items| ==> IsValue(items[i])
    ensures InList(t, v, items, row, o) == InList(t, v, items, [], o)
  {
    if items != [] {
      InListConst(t, v, items[1..], row, o);
    }
  }

  // ---------------------------------------------------------------- when a keyed lookup is the query

  /** A plan that has a value for every primary-key column. */
  ghost predicate KeyPlan(t: Table, conds: seq<Node>, values: seq<PkValue>) {
    && WellFormed(t)
    && (forall i :: 0 <= i < |conds| ==> SimpleTest(conds[i]))
    && PkValuesOf(conds, t.indexes[0].columns) == Found(values)
  }

  /** A plan that has a literal for every primary-key column. */
  ghost predicate ScalarPlan(t: Table, conds: seq<Node>, values: seq<PkValue>) {
    KeyPlan(t, conds, values) && AllScalar(values)
  }

  /** In a literal plan the last test of each column is an equality with a string or a number. */
  lemma LastTestIsLiteral(t: Table, conds: seq<Node>, values: seq<PkValue>, k: nat)
    requires ScalarPlan(t, conds, values) && k < |values|
    ensures var i := LastTest(conds, t.indexes[0].columns, k);
            && i >= 0 && conds[i].op == "=" && (conds[i].right.StrVal? || conds[i].right.NumVal?)
            && AsInterface(conds[i].right) == Some(values[k])
  {
    var cols := t.indexes[0].columns;
    PkValuesMeaning(conds, cols);
    assert Some(values[k]) == LastValue(conds, cols, k);
    assert values[k].Scalar?;
    ScalarTest(conds[LastTest(conds, cols, k)], cols, values[k]);
  }

  lemma ScalarTest(cond: Node, cols: seq<string>, v: PkValue)
    requires SimpleTest(cond) && PkTest(cond, cols) >= 0 && AsInterface(cond.right) == Some(v) && v.Scalar?
    ensures cond.op == "=" && (cond.right.StrVal? || cond.right.NumVal?)
  {
  }

  /** A row with given primary-key values and NULL elsewhere. */
  function RowWith(t: Table, vals: seq<Val>): (row: Row)
    requires |vals| == |t.pkColumns|
    ensures |row| == |t.columns|
  {
    seq(|t.columns|, (j: nat) requires j < |t.columns| => var k := PosOf(t.pkColumns, j); if k < 0 then Null else vals[k])
  }

  function PosOf(s: seq<nat>, x: nat): (r: int)
    ensures -1 <= r < |s| && (r >= 0 ==> s[r] == x) && (r < 0 ==> x !in s)
  {
    if s == [] then -1
    else if s[|s| - 1] == x then |s| - 1
    else PosOf(s[..|s| - 1], x)
  }

  lemma RowWithAt(t: Table, conds: seq<Node>, values: seq<PkValue>, vals: seq<Val>, k: nat)
    requires KeyPlan(t, conds, values) && |vals| == |values| && k < |vals|
    ensures RowWith(t, vals)[t.pkColumns[k]] == vals[k]
  {
    var cols := t.indexes[0].columns;
    var j := PosOf(t.pkColumns, t.pkColumns[k]);
    PkValuesMeaning(conds, cols);
    assert LastTest(conds, cols, k) >= 0 && LastTest(conds, cols, j) >= 0;
    assert cols[j] == t.columns[t.pkColumns[j]].name == cols[k];
    assert IndexOf(cols, cols[k]) == k && IndexOf(cols, cols[j]) == j;
  }

  /** A row passes all the conditions exactly when each accepts the row's value in its column. */
  lemma AllHoldColumns(t: Table, conds: seq<Node>, values: seq<PkValue>, row: Row, o: Oracle)
    requires KeyPlan(t, conds, values) && |row| == |t.columns|
    ensures PkTests(conds, t.indexes[0].columns)
    ensures AllHold(t, conds, row, o).T? <==> forall i :: 0 <= i < |conds| ==>
              Accepts(t, conds[i], row[t.pkColumns[PkTest(conds[i], t.indexes[0].columns)]], o).T?
  {
    PkValuesMeaning(conds, t.indexes[0].columns);
    AllHoldIff(t, conds, row, o);
    forall i | 0 <= i < |conds|
      ensures Holds(t, conds[i], row, o) ==
              Accepts(t, conds[i], row[t.pkColumns[PkTest(conds[i], t.indexes[0].columns)]], o)
    {
      PkTestHolds(t, conds[i], row, o);
    }
  }

  /** Every condition accepts, in its column, the given values. */
  ghost predicate AllAccept(t: Table, conds: seq<Node>, vals: seq<Val>, o: Oracle)
    requires WellFormed(t) && |vals| == |t.indexes[0].columns| && PkTests(conds, t.indexes[0].columns)
  {
    forall i :: 0 <= i < |conds| ==> Accepts(t, conds[i], vals[PkTest(conds[i], t.indexes[0].columns)], o).T?
  }

  function KeptVals(values: seq<PkValue>): (r: seq<Val>)
    requires AllScalar(values)
    ensures |r| == |values| && forall k :: 0 <= k < |values| ==> r[k] == LiteralVal(values[k].v)
  {
    seq(|values|, (k: nat) requires k < |values| => LiteralVal(values[k].v))
  }

  /** A row's values in the primary-key columns. */
  function PkOf(t: Table, row: Row): (r: seq<Val>)
    requires forall k :: 0 <= k < |t.pkColumns| ==> t.pkColumns[k] < |row|
    ensures |r| == |t.pkColumns| && forall k :: 0 <= k < |r| ==> r[k] == row[t.pkColumns[k]]
  {
    seq(|t.pkColumns|, (k: nat) requires k < |t.pkColumns| => row[t.pkColumns[k]])
  }

  /** At most one tuple of values passes every test. */
  lemma OneTuplePasses(t: Table, conds: seq<Node>, values: seq<PkValue>, a: seq<Val>, b: seq<Val>, o: Oracle)
    requires ScalarPlan(t, conds, values) && |a| == |b| == |values| && PkTests(conds, t.indexes[0].columns)
    requires AllAccept(t, conds, a, o) && AllAccept(t, conds, b, o)
    ensures a == b
  {
    forall k | 0 <= k < |a|
      ensures a[k] == b[k]
    {
      LastTestIsLiteral(t, conds, values, k);
      var i := LastTest(conds, t.indexes[0].columns, k);
      assert Accepts(t, conds[i], a[k], o).T? && Accepts(t, conds[i], b[k], o).T?;
    }
  }

  /** The rows that pass the conditions are exactly the rows with the planned key, when the conditions
      accept that key. */
  lemma PassingRows(t: Table, conds: seq<Node>, values: seq<PkValue>, row: Row, o: Oracle)
    requires ScalarPlan(t, conds, values) && |row| == |t.columns| && PkTests(conds, t.indexes[0].columns)
    requires AllAccept(t, conds, KeptVals(values), o)
    ensures AllHold(t, conds, row, o).T? <==> PkMatches(t, values, row)
  {
    AllHoldColumns(t, conds, values, row, o);
    var vals := PkOf(t, row);
    assert AllAccept(t, conds, vals, o) <==> AllHold(t, conds, row, o).T?;
    assert PkMatches(t, values, row) ==> vals == KeptVals(values);
    if AllAccept(t, conds, vals, o) {
      OneTuplePasses(t, conds, values, vals, KeptVals(values), o);
    }
  }

  /** The row made of the planned key passes the conditions exactly when they accept that key. */
  lemma KeyRow(t: Table, conds: seq<Node>, values: seq<PkValue>, o: Oracle)
    requires ScalarPlan(t, conds, values)
    ensures PkTests(conds, t.indexes[0].columns)
    ensures var row := RowWith(t, KeptVals(values));
            && PkMatches(t, values, row)
            && (AllHold(t, conds, row, o).T? <==> AllAccept(t, conds, KeptVals(values), o))
  {
    var row := RowWith(t, KeptVals(values));
    forall k | 0 <= k < |values|
      ensures row[t.pkColumns[k]] == KeptVals(values)[k]
    {
      RowWithAt(t, conds, values, KeptVals(values), k);
    }
    AllHoldColumns(t, conds, values, row, o);
  }

  /** The text of a literal condition means the same to the planner and to the database. */
  predicate ReadsAlike(n: Node) {
    n.StrVal? || (n.NumVal? && BuildNumeric(n.text).Some? && BuildNumeric(n.text) == MySqlInteger(n.text))
  }

  lemma AlikeValue(t: Table, n: Node, v: PkValue, o: Oracle)
    requires IsValue(n) && AsInterface(n) == Some(v) && v.Scalar?
    ensures ReadsAlike(n) <==> ValueOf(t, n, [], o) == LiteralVal(v.v)
  {
  }

  /** With one test per column, the conditions accept the planned key exactly when every literal reads
      alike on both sides. */
  lemma OneTestPerColumn(t: Table, conds: seq<Node>, values: seq<PkValue>, o: Oracle)
    requires ScalarPlan(t, conds, values) && PkTests(conds, t.indexes[0].columns)
    requires forall i, j :: 0 <= i < j < |conds| ==>
             PkTest(conds[i], t.indexes[0].columns) != PkTest(conds[j], t.indexes[0].columns)
    ensures AllAccept(t, conds, KeptVals(values), o) <==> forall i :: 0 <= i < |conds| ==> ReadsAlike(conds[i].right)
  {
    forall i | 0 <= i < |conds|
      ensures Accepts(t, conds[i], KeptVals(values)[PkTest(conds[i], t.indexes[0].columns)], o).T? <==>
              ReadsAlike(conds[i].right)
    {
      var k := PkTest(conds[i], t.indexes[0].columns);
      LastTestIsLiteral(t, conds, values, k);
      assert LastTest(conds, t.indexes[0].columns, k) == i;
      AlikeValue(t, conds[i].right, values[k], o);
    }
  }
}
