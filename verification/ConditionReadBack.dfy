/** The text printed for a condition is read back as that condition, with the precedence of NOT, AND and OR
    (the boolean Format methods of sqlparser/ast.go, the expression rules of sqlparser/sql.y). */
module ConditionReadBack {
  import opened Wrappers
  import opened Ast
  import opened Sequences
  import opened SqlReader
  import opened ReadBack
  import B = TrackedBuffer
  import T = Tokenizer

  // ---------------------------------------------------------------- values

  /** What stands on the right of a comparison. */
  predicate IsValue(st: B.Style, n: Node) {
    IsOperand(n) || (n.ValTuple? && n.items != [] && AreItems(st, Operands, n.items))
  }

  lemma TupleText(st: B.Style, ns: seq<Node>, tail: string)
    requires ns != []
    ensures Text(st, ValTuple(ns)) + tail == "(" + (Text(st, ns[0]) + More(st, ns[1..], ")" + tail))
  {
    var items := B.Listed(ns, "", ", ");
    TextIs(st, ValTuple(ns), tail);
    Between(st, B.Lit("("), items, B.Lit(")"), tail);
    FirstListed(st, ns, ")" + tail);
  }

  lemma Between(st: B.Style, a: B.Seg, segs: seq<B.Seg>, b: B.Seg, tail: string)
    ensures Nest(st, [a] + segs + [b], tail) == SegText(st, a) + Nest(st, segs, SegText(st, b) + tail)
  {
    NestAppend(st, [a] + segs, [b], tail);
    Nest1(st, b, tail);
    NestAppend(st, [a], segs, SegText(st, b) + tail);
    Nest1(st, a, Nest(st, segs, SegText(st, b) + tail));
  }

  /** A closing parenthesis. */
  lemma CloseFound(tail: string)
    ensures var s := ")" + tail; Skip(s) == s && At(s, ')') && s[1..] == tail && EndsList(s) && WordAt(s) == ""
  {
    var s := ")" + tail;
    assert Skip(s) == s;
    assert WordAt(s) == "";
  }

  lemma OpenFound(lead: string, x: string)
    requires lead == "" || lead == " "
    ensures At(Skip(lead + ("(" + x)), '(') && Skip(lead + ("(" + x))[1..] == x
  {
    SkipTo(lead, "(" + x);
    assert ("(" + x)[1..] == x;
  }

  lemma TupleRead(s: string, ns: seq<Node>, rest: string)
    requires At(Skip(s), '(') && ReadItems(Operands, Skip(s)[1..]) == Items(ns, rest) && At(Skip(rest), ')')
    ensures ReadValue(s) == Read(ValTuple(ns), Skip(rest)[1..])
  {
  }

  lemma ValueReads(st: B.Style, n: Node, lead: string, tail: string)
    requires Reserves(st) && IsValue(st, n) && Ends(tail) && (lead == "" || lead == " ")
    ensures ReadValue(lead + (Text(st, n) + tail)) == Read(n, tail)
  {
    if n.ValTuple? {
      var x := Text(st, n.items[0]) + More(st, n.items[1..], ")" + tail);
      TupleText(st, n.items, tail);
      CloseFound(tail);
      OpenFound(lead, x);
      ItemsRead(st, Operands, n.items, "", ")" + tail);
      assert "" + x == x;
      TupleRead(lead + ("(" + x), n.items, ")" + tail);
    } else {
      OperandReads(st, n, lead, tail);
    }
  }

  // ---------------------------------------------------------------- operators

  lemma {:induction false} SymbolRunIs(op: string, x: string)
    requires op in SYMBOLS
    ensures SymbolRun(op + (" " + x)) == |op|
  {
    var s := op + (" " + x);
    assert forall i :: 0 <= i < |op| ==> InSymbol(op[i]) && s[i] == op[i];
    assert s[|op|] == ' ';
  }

  /** A comparison sign. */
  lemma SymbolTest(op: string, left: Node, x: string)
    requires op in SYMBOLS
    ensures ReadTest(left, " " + (op + (" " + x))) == Compared(op, left, ReadValue(" " + x))
  {
    var c := op + (" " + x);
    SymbolRunIs(op, x);
    assert InSymbol(c[0]);
    SkipTo(" ", c);
    assert c[..|op|] == op && c[|op|..] == " " + x;
  }

  /** A text that begins with a word has no sign there. */
  lemma NoSymbol(w: string, x: string)
    requires IsWords(w) && NoWord(x)
    ensures SymbolRun(Skip(" " + (w + x))) == 0 && WordAt(" " + (w + x)) == w && AfterWord(" " + (w + x)) == x
  {
    WordFound(" ", w, x);
    SkipTo(" ", w + x);
  }

  /** Where `not` stands before the operator, there is a word after it. */
  lemma NotFound(op: string, w: string, x: string)
    requires op == "not " + w && IsWords(w) && NoWord(x)
    ensures var s := " " + (op + x);
            && SymbolRun(Skip(s)) == 0 && WordAt(s) == "not"
            && WordAt(AfterWord(s)) == w && AfterWord(AfterWord(s)) == x
  {
    assert IsWords("not");
    var y := " " + (w + x);
    assert op + x == "not" + y;
    NoSymbol("not", y);
    WordFound(" ", w, x);
  }

  predicate IsComparison(op: string) {
    op in SYMBOLS || op == "in" || op == "like" || op == "not in" || op == "not like"
  }

  lemma ComparisonTest(op: string, left: Node, x: string)
    requires IsComparison(op)
    ensures ReadTest(left, " " + (op + (" " + x))) == Compared(op, left, ReadValue(" " + x))
  {
    if op in SYMBOLS {
      SymbolTest(op, left, x);
    } else if op == "in" || op == "like" {
      WordComparison(op, left, x);
    } else {
      NotComparison(op, if op == "not in" then "in" else "like", left, x);
    }
  }

  lemma WordComparison(op: string, left: Node, x: string)
    requires op == "in" || op == "like"
    ensures ReadTest(left, " " + (op + (" " + x))) == Compared(op, left, ReadValue(" " + x))
  {
    assert IsWords(op);
    NoSymbol(op, " " + x);
  }

  lemma NotComparison(op: string, w: string, left: Node, x: string)
    requires op == "not " + w && (w == "in" || w == "like")
    ensures ReadTest(left, " " + (op + (" " + x))) == Compared(op, left, ReadValue(" " + x))
  {
    assert IsWords(w);
    NotFound(op, w, " " + x);
  }

  lemma RangeTest(op: string, left: Node, x: string)
    requires op == "between" || op == "not between"
    ensures ReadTest(left, " " + (op + (" " + x))) == ReadRange(op, left, " " + x)
  {
    assert IsWords("between");
    if op == "between" {
      NoSymbol(op, " " + x);
    } else {
      NotFound(op, "between", " " + x);
    }
  }

  lemma NullTest(op: string, left: Node, tail: string)
    requires (op == "is null" || op == "is not null") && Ends(tail)
    ensures ReadTest(left, " " + (op + tail)) == Read(NullCheck(op, left), tail)
  {
    if op == "is null" {
      IsNullTest(left, tail);
    } else {
      IsNotNullTest(left, tail);
    }
  }

  /** Two words, one after the other. */
  lemma TwoWords(op: string, a: string, b: string, x: string)
    requires op == a + " " + b
    ensures op + x == a + (" " + (b + x))
  {
  }

  lemma IsNullTest(left: Node, tail: string)
    requires Ends(tail)
    ensures ReadTest(left, " " + ("is null" + tail)) == Read(NullCheck("is null", left), tail)
  {
    assert IsWords("is") && IsWords("null");
    TwoWords("is null", "is", "null", tail);
    NoSymbol("is", " " + ("null" + tail));
    WordFound(" ", "null", tail);
  }

  lemma IsNotNullTest(left: Node, tail: string)
    requires Ends(tail)
    ensures ReadTest(left, " " + ("is not null" + tail)) == Read(NullCheck("is not null", left), tail)
  {
    assert IsWords("is") && IsWords("null") && IsWords("not");
    var y := " " + ("null" + tail);
    TwoWords("is not null", "is", "not null", tail);
    TwoWords("not null", "not", "null", tail);
    NoSymbol("is", " " + ("not" + y));
    WordFound(" ", "not", y);
    WordFound(" ", "null", tail);
  }

  // ---------------------------------------------------------------- conditions

  predicate IsCondition(st: B.Style, n: Node) {
    match n
    case ComparisonExpr(op, left, right) => IsComparison(op) && IsOperand(left) && IsValue(st, right)
    case RangeCond(op, left, lo, hi) =>
      (op == "between" || op == "not between") && IsOperand(left) && IsOperand(lo) && IsOperand(hi)
    case NullCheck(op, left) => (op == "is null" || op == "is not null") && IsOperand(left)
    case _ => false
  }

  /** The operand a condition begins with. */
  function LeftOf(n: Node): Node
    requires n.ComparisonExpr? || n.RangeCond? || n.NullCheck?
  {
    match n
    case ComparisonExpr(_, left, _) => left
    case RangeCond(_, left, _, _) => left
    case NullCheck(_, left) => left
  }

  /** What is printed after that operand, and then `tail`. */
  function AfterLeft(st: B.Style, n: Node, tail: string): string
    requires n.ComparisonExpr? || n.RangeCond? || n.NullCheck?
  {
    match n
    case ComparisonExpr(op, _, right) => " " + (op + (" " + (Text(st, right) + tail)))
    case RangeCond(op, _, lo, hi) => " " + (op + (" " + (Text(st, lo) + (" and " + (Text(st, hi) + tail)))))
    case NullCheck(op, _) => " " + (op + tail)
  }

  lemma ComparisonText(st: B.Style, op: string, l: Node, r: Node, tail: string)
    ensures Text(st, ComparisonExpr(op, l, r)) + tail == Text(st, l) + AfterLeft(st, ComparisonExpr(op, l, r), tail)
  {
    Text5(st, ComparisonExpr(op, l, r), B.Sub(l), B.Lit(" "), B.Str(op), B.Lit(" "), B.Sub(r), tail);
  }

  lemma RangeLayout(st: B.Style, op: string, l: Node, lo: Node, hi: Node)
    ensures B.Layout(st, RangeCond(op, l, lo, hi)) ==
            [B.Sub(l), B.Lit(" "), B.Str(op), B.Lit(" "), B.Sub(lo), B.Lit(" and "), B.Sub(hi)]
  {
  }

  lemma RangeText(st: B.Style, op: string, l: Node, lo: Node, hi: Node, tail: string)
    ensures Text(st, RangeCond(op, l, lo, hi)) + tail == Text(st, l) + AfterLeft(st, RangeCond(op, l, lo, hi), tail)
  {
    RangeLayout(st, op, l, lo, hi);
    Text7(st, RangeCond(op, l, lo, hi), B.Sub(l), B.Lit(" "), B.Str(op), B.Lit(" "), B.Sub(lo), B.Lit(" and "),
          B.Sub(hi), tail);
  }

  lemma NullCheckText(st: B.Style, op: string, l: Node, tail: string)
    ensures Text(st, NullCheck(op, l)) + tail == Text(st, l) + AfterLeft(st, NullCheck(op, l), tail)
  {
    Text3(st, NullCheck(op, l), B.Sub(l), B.Lit(" "), B.Str(op), tail);
  }

  lemma ConditionText(st: B.Style, n: Node, tail: string)
    requires IsCondition(st, n)
    ensures Text(st, n) + tail == Text(st, LeftOf(n)) + AfterLeft(st, n, tail)
  {
    match n
    case ComparisonExpr(op, l, r) => ComparisonText(st, op, l, r, tail);
    case RangeCond(op, l, lo, hi) => RangeText(st, op, l, lo, hi, tail);
    case NullCheck(op, l) => NullCheckText(st, op, l, tail);
  }

  lemma AndFound(x: string)
    ensures WordAt(" and " + x) == "and" && AfterWord(" and " + x) == " " + x && Ends(" and " + x)
  {
    assert IsWords("and");
    Spaced(" and ", "and", x);
  }

  lemma OrFound(x: string)
    ensures WordAt(" or " + x) == "or" && AfterWord(" or " + x) == " " + x && Ends(" or " + x)
  {
    assert IsWords("or");
    Spaced(" or ", "or", x);
  }

  lemma RangeReads(st: B.Style, op: string, l: Node, lo: Node, hi: Node, tail: string)
    requires Reserves(st) && IsOperand(lo) && IsOperand(hi) && Ends(tail)
    ensures ReadRange(op, l, " " + (Text(st, lo) + (" and " + (Text(st, hi) + tail)))) ==
            Read(RangeCond(op, l, lo, hi), tail)
  {
    AndFound(Text(st, hi) + tail);
    OperandReads(st, lo, " ", " and " + (Text(st, hi) + tail));
    OperandReads(st, hi, " ", tail);
  }

  lemma TestReads(st: B.Style, n: Node, tail: string)
    requires Reserves(st) && IsCondition(st, n) && Ends(tail)
    ensures ReadTest(LeftOf(n), AfterLeft(st, n, tail)) == Read(n, tail)
  {
    match n
    case ComparisonExpr(op, l, r) =>
      ComparisonTest(op, l, Text(st, r) + tail);
      ValueReads(st, r, " ", tail);
    case RangeCond(op, l, lo, hi) =>
      RangeTest(op, l, Text(st, lo) + (" and " + (Text(st, hi) + tail)));
      RangeReads(st, op, l, lo, hi, tail);
    case NullCheck(op, l) => NullTest(op, l, tail);
  }

  lemma ConditionReads(st: B.Style, n: Node, lead: string, tail: string)
    requires Reserves(st) && IsCondition(st, n) && Ends(tail) && (lead == "" || lead == " ")
    ensures var s := lead + (Text(st, n) + tail);
            ReadCondition(s) == Read(n, tail) && !At(Skip(s), '(') && WordAt(s) != "not"
  {
    var x := AfterLeft(st, n, tail);
    ConditionText(st, n, tail);
    OperandReads(st, LeftOf(n), lead, x);
    OperandWord(st, LeftOf(n), lead, x);
    TestReads(st, n, tail);
  }

  // ---------------------------------------------------------------- connectives

  /** What NOT applies to, and the parts of a conjunction. */
  predicate IsFactor(st: B.Style, n: Node)
    decreases n, 0
  {
    match n
    case ParenBoolExpr(e) => IsDisjunction(st, e)
    case NotExpr(e) => IsFactor(st, e)
    case _ => IsCondition(st, n)
  }

  predicate IsConjunction(st: B.Style, n: Node)
    decreases n, 1
  {
    IsFactor(st, n) || (n.AndExpr? && IsConjunction(st, n.left) && IsFactor(st, n.right))
  }

  /** The boolean expressions as the grammar builds them: NOT binds closest, then AND, then OR, and both of
      these connect from the left. */
  predicate IsDisjunction(st: B.Style, n: Node)
    decreases n, 2
  {
    IsConjunction(st, n) || (n.OrExpr? && IsDisjunction(st, n.left) && IsConjunction(st, n.right))
  }

  lemma AndText(st: B.Style, l: Node, r: Node, tail: string)
    ensures Text(st, AndExpr(l, r)) + tail == Text(st, l) + (" and " + (Text(st, r) + tail))
  {
    Text3(st, AndExpr(l, r), B.Sub(l), B.Lit(" and "), B.Sub(r), tail);
  }

  lemma OrText(st: B.Style, l: Node, r: Node, tail: string)
    ensures Text(st, OrExpr(l, r)) + tail == Text(st, l) + (" or " + (Text(st, r) + tail))
  {
    Text3(st, OrExpr(l, r), B.Sub(l), B.Lit(" or "), B.Sub(r), tail);
  }

  lemma ParenText(st: B.Style, e: Node, tail: string)
    ensures Text(st, ParenBoolExpr(e)) + tail == "(" + (Text(st, e) + (")" + tail))
  {
    Text3(st, ParenBoolExpr(e), B.Lit("("), B.Sub(e), B.Lit(")"), tail);
  }

  lemma NotText(st: B.Style, e: Node, tail: string)
    ensures Text(st, NotExpr(e)) + tail == "not" + (" " + (Text(st, e) + tail))
  {
    Text2(st, NotExpr(e), B.Lit("not "), B.Sub(e), tail);
    var x := Text(st, e) + tail;
    assert "not " + x == "not" + (" " + x);
  }

  /** Reading inside parentheses, after NOT, and a condition. */
  lemma ParenRead(s: string, n: Node, rest: string)
    requires At(Skip(s), '(') && ReadOr(Skip(s)[1..]) == Read(n, rest) && At(Skip(rest), ')')
    ensures ReadFactor(s) == Read(ParenBoolExpr(n), Skip(rest)[1..])
  {
  }

  lemma NotRead(s: string, n: Node, rest: string)
    requires !At(Skip(s), '(') && WordAt(s) == "not" && ReadFactor(AfterWord(s)) == Read(n, rest)
    ensures ReadFactor(s) == Read(NotExpr(n), rest)
  {
  }

  lemma AndRead(s: string, l: Node, sep: string, r: Node, tail: string)
    requires ReadAnd(s) == AndTail(l, sep) && WordAt(sep) == "and" && ReadFactor(AfterWord(sep)) == Read(r, tail)
    ensures ReadAnd(s) == AndTail(AndExpr(l, r), tail)
  {
  }

  lemma OrRead(s: string, l: Node, sep: string, r: Node, tail: string)
    requires ReadOr(s) == OrTail(l, sep) && WordAt(sep) == "or" && ReadAnd(AfterWord(sep)) == Read(r, tail)
    ensures ReadOr(s) == OrTail(OrExpr(l, r), tail)
  {
  }

  lemma FirstFactor(s: string, n: Node, tail: string)
    requires ReadFactor(s) == Read(n, tail)
    ensures ReadAnd(s) == AndTail(n, tail)
  {
  }

  lemma {:induction false} FactorReads(st: B.Style, n: Node, lead: string, tail: string)
    requires Reserves(st) && IsFactor(st, n) && Ends(tail) && (lead == "" || lead == " ")
    ensures ReadFactor(lead + (Text(st, n) + tail)) == Read(n, tail)
    decreases n, 0
  {
    if n.ParenBoolExpr? {
      var x := Text(st, n.expr) + (")" + tail);
      ParenText(st, n.expr, tail);
      OpenFound(lead, x);
      CloseFound(tail);
      DisjunctionReads(st, n.expr, "", ")" + tail);
      assert "" + x == x;
      ParenRead(lead + ("(" + x), n.expr, ")" + tail);
    } else if n.NotExpr? {
      var x := " " + (Text(st, n.expr) + tail);
      NotText(st, n.expr, tail);
      NotFirst(lead, x);
      FactorReads(st, n.expr, " ", tail);
      NotRead(lead + ("not" + x), n.expr, tail);
    } else {
      ConditionReads(st, n, lead, tail);
    }
  }

  lemma NotFirst(lead: string, x: string)
    requires (lead == "" || lead == " ") && NoWord(x)
    ensures var s := lead + ("not" + x); !At(Skip(s), '(') && WordAt(s) == "not" && AfterWord(s) == x
  {
    assert IsWords("not");
    WordFound(lead, "not", x);
    SkipTo(lead, "not" + x);
  }

  lemma {:induction false} ConjunctionReads(st: B.Style, n: Node, lead: string, tail: string)
    requires Reserves(st) && IsConjunction(st, n) && Ends(tail) && (lead == "" || lead == " ")
    ensures ReadAnd(lead + (Text(st, n) + tail)) == AndTail(n, tail)
    decreases n, 1
  {
    if !n.AndExpr? {
      FactorReads(st, n, lead, tail);
      FirstFactor(lead + (Text(st, n) + tail), n, tail);
    } else {
      var l, r := n.left, n.right;
      var sep := " and " + (Text(st, r) + tail);
      AndText(st, l, r, tail);
      AndFound(Text(st, r) + tail);
      ConjunctionReads(st, l, lead, sep);
      FactorReads(st, r, " ", tail);
      AndRead(lead + (Text(st, l) + sep), l, sep, r, tail);
    }
  }

  /** A boolean expression is read back wherever neither AND nor OR follows. */
  lemma {:induction false} DisjunctionReads(st: B.Style, n: Node, lead: string, tail: string)
    requires Reserves(st) && IsDisjunction(st, n) && Ends(tail) && WordAt(tail) != "and" && (lead == "" || lead == " ")
    ensures ReadOr(lead + (Text(st, n) + tail)) == OrTail(n, tail)
    decreases n, 2
  {
    if IsConjunction(st, n) {
      ConjunctionReads(st, n, lead, tail);
    } else {
      var l, r := n.left, n.right;
      var sep := " or " + (Text(st, r) + tail);
      OrText(st, l, r, tail);
      OrFound(Text(st, r) + tail);
      DisjunctionReads(st, l, lead, sep);
      ConjunctionReads(st, r, " ", tail);
      OrRead(lead + (Text(st, l) + sep), l, sep, r, tail);
    }
  }

  /** The text printed for a condition is read as that condition, wherever neither AND nor OR follows. */
  lemma ConditionReadsBack(st: B.Style, n: Node, tail: string)
    requires Reserves(st) && IsDisjunction(st, n) && Ends(tail) && WordAt(tail) != "and" && WordAt(tail) != "or"
    ensures ReadOr(B.Rendered(B.NodePieces(st, n)) + tail) == Read(n, tail)
  {
    DisjunctionReads(st, n, "", tail);
    assert "" + (Text(st, n) + tail) == Text(st, n) + tail;
  }
}
