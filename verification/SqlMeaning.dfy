/** What WHERE clauses and literals mean to the database: three-valued logic over rows whose values
    are compared by exact equality, and the reading of number literals. */
module SqlMeaning {
  import opened Wrappers
  import opened Bytes
  import opened Ast
  import opened Schema
  import D = Decimal

  datatype Val = Null | Int(n: int) | Frac(text: string) | Text(text: string)

  type Row = seq<Val>

  datatype TV = T | F | U

  /** What a statement's meaning depends on besides its row: the values of bind variables and lists,
      the parts of SQL this model does not look into, other conditions and other expressions, and what
      the database itself puts into a column, by number, of each row that a statement writes. */
  datatype Oracle = Oracle(
    arg: string -> Val,
    list: string -> seq<Val>,
    cond: (Node, Row) -> TV,
    value: (Node, Row) -> Val,
    dflt: (nat, nat) -> Val)

  function And3(a: TV, b: TV): TV { if a.F? || b.F? then F else if a.U? || b.U? then U else T }

  function Or3(a: TV, b: TV): TV { if a.T? || b.T? then T else if a.U? || b.U? then U else F }

  function Not3(a: TV): TV { match a case T => F case F => T case U => U }

  function Eq3(a: Val, b: Val): TV { if a.Null? || b.Null? then U else if a == b then T else F }

  // ---------------------------------------------------------------- numbers

  /** An integer literal as the database reads it: decimal, or hexadecimal after 0x. */
  function MySqlInteger(text: string): Option<int> {
    var neg := text != "" && text[0] == '-';
    var body := if neg then text[1..] else text;
    match Magnitude(body)
    case None => None
    case Some(v) => var n: int := v; Some(if neg then -n else n)
  }

  function Magnitude(body: string): Option<nat> {
    if |body| > 2 && body[..2] == "0x" then D.ParseNat(body[2..], 16) else D.ParseNat(body, 10)
  }

  /** strconv's base 0: 0x or 0X is hexadecimal, any other leading zero octal. */
  function BaseZero(s: string): Option<nat> {
    if |s| > 1 && s[0] == '0' && (s[1] == 'x' || s[1] == 'X') then D.ParseNat(s[2..], 16)
    else if s != "" && s[0] == '0' then D.ParseNat(s, 8)
    else D.ParseNat(s, 10)
  }

  /** sqltypes.BuildNumeric: the normalised number, or an error. */
  function BuildNumeric(text: string): Option<int> {
    if text == "" then None
    else if text[0] == '-' || text[0] == '+' then FitSigned(text[0] == '-', BaseZero(text[1..]))
    else FitUnsigned(BaseZero(text))
  }

  function FitSigned(neg: bool, v: Option<nat>): Option<int> { if v.None? then None else D.Signed(neg, v.value) }

  function FitUnsigned(v: Option<nat>): Option<int> {
    if v.None? || v.value > MAX_UINT64 then None else Some(v.value)
  }

  predicate AllDigits(s: string) { s != "" && forall i :: 0 <= i < |s| ==> D.IsDigit(s[i]) }

  /** Reading decimal digits in base eight gives less, and the same only when all digits but the last
      are zero. */
  lemma {:induction false} OctalDecimal(s: string)
    requires D.ParseNat(s, 8).Some?
    ensures D.ParseNat(s, 10).Some? && D.ParseNat(s, 8).value <= D.ParseNat(s, 10).value
    ensures D.ParseNat(s, 8) == D.ParseNat(s, 10) <==> |s| == 1 || D.ParseNat(s[..|s| - 1], 10) == Some(0)
  {
    if |s| > 1 {
      OctalDecimal(s[..|s| - 1]);
    }
  }

  predicate AllZeros(s: string) { forall i :: 0 <= i < |s| ==> s[i] == '0' }

  /** Digits always have a decimal value, zero only for zeros; zeros are zero in base eight too. */
  lemma {:induction false} DigitsRead(s: string)
    requires AllDigits(s)
    ensures D.ParseNat(s, 10).Some? && (D.ParseNat(s, 10).value == 0 <==> AllZeros(s))
    ensures AllZeros(s) ==> D.ParseNat(s, 8) == Some(0)
  {
    var last := s[|s| - 1];
    assert D.IsDigit(last);
    if |s| > 1 {
      DigitsRead(s[..|s| - 1]);
      assert AllZeros(s) <==> AllZeros(s[..|s| - 1]) && last == '0';
    }
  }

  /** Digits with an optional minus: the grammar folds the sign into the literal. */
  function Numeral(neg: bool, digits: string): string { if neg then "-" + digits else digits }

  function WithSign(neg: bool, v: nat): int { if neg then -(v as int) else v }

  /** Whether a number fits the type its sign chooses. */
  predicate InRange(neg: bool, v: nat) { v <= if neg then -MIN_INT64 else MAX_UINT64 }

  /** A numeral to the database: its decimal value. */
  lemma NumeralMeans(neg: bool, s: string)
    requires AllDigits(s)
    ensures D.ParseNat(s, 10).Some? && MySqlInteger(Numeral(neg, s)) == Some(WithSign(neg, D.ParseNat(s, 10).value))
  {
    DigitsRead(s);
    NotHex(s);
    assert D.IsDigit(s[0]);
    SignedReads(s, D.ParseNat(s, 10).value);
  }

  /** Decimal digits are not taken for a hexadecimal number. */
  lemma NotHex(s: string)
    requires forall i :: 0 <= i < |s| ==> D.IsDigit(s[i])
    ensures !(|s| > 2 && s[..2] == "0x")
  {
    assert |s| > 2 ==> s[..2][1] == s[1] && D.IsDigit(s[1]);
  }

  lemma SignedReads(s: string, m: int)
    requires s != "" && s[0] != '-' && Magnitude(s).Some? && Magnitude(s).value == m
    ensures MySqlInteger(s) == Some(m) && MySqlInteger("-" + s) == Some(-m)
  {
    assert ("-" + s)[1..] == s;
  }

  lemma NumeralBase(s: string)
    requires AllDigits(s)
    ensures BaseZero(s) == if s[0] == '0' then D.ParseNat(s, 8) else D.ParseNat(s, 10)
  {
    assert D.IsDigit(s[0]) && (|s| > 1 ==> D.IsDigit(s[1]));
  }

  /** A numeral to the planner: octal after a zero, and only if it fits. */
  lemma NumeralBuilt(neg: bool, s: string)
    requires AllDigits(s)
    ensures BuildNumeric(Numeral(neg, s)) == if neg then FitSigned(true, BaseZero(s)) else FitUnsigned(BaseZero(s))
  {
    assert D.IsDigit(s[0]);
    assert neg ==> Numeral(neg, s)[1..] == s;
  }

  lemma FitsIff(neg: bool, v: Option<nat>, w: nat)
    ensures (if neg then FitSigned(true, v) else FitUnsigned(v)) == Some(WithSign(neg, w)) <==>
            v == Some(w) && InRange(neg, w)
  {
  }

  lemma OctalIff(s: string)
    requires AllDigits(s)
    ensures D.ParseNat(s, 8).Some? && D.ParseNat(s, 8) == D.ParseNat(s, 10) <==> AllZeros(s[..|s| - 1]) && s[|s| - 1] <= '7'
    ensures AllZeros(s[..|s| - 1]) ==> D.ParseNat(s, 10).Some? && D.ParseNat(s, 10).value <= 9
  {
    assert D.IsDigit(s[|s| - 1]);
    if |s| > 1 { DigitsRead(s[..|s| - 1]); }
    if D.ParseNat(s, 8).Some? { OctalDecimal(s); }
  }

  /** A decimal literal with a leading zero, of any length and sign, means the same to the planner and to
      the database exactly when it is a single digit below eight behind zeros. */
  lemma LeadingZeroIff(neg: bool, s: string)
    requires AllDigits(s) && s[0] == '0'
    ensures BuildNumeric(Numeral(neg, s)) == MySqlInteger(Numeral(neg, s)) <==> AllZeros(s[..|s| - 1]) && s[|s| - 1] <= '7'
  {
    NumeralMeans(neg, s);
    NumeralBuilt(neg, s);
    NumeralBase(s);
    FitsIff(neg, D.ParseNat(s, 8), D.ParseNat(s, 10).value);
    OctalIff(s);
  }

  /** Without a leading zero the two readings agree exactly when the number fits. */
  lemma PlainNumberIff(neg: bool, s: string)
    requires AllDigits(s) && s[0] != '0'
    ensures D.ParseNat(s, 10).Some?
    ensures BuildNumeric(Numeral(neg, s)) == MySqlInteger(Numeral(neg, s)) <==> InRange(neg, D.ParseNat(s, 10).value)
  {
    NumeralMeans(neg, s);
    NumeralBuilt(neg, s);
    NumeralBase(s);
    FitsIff(neg, D.ParseNat(s, 10), D.ParseNat(s, 10).value);
  }

  lemma OneMoreDigit(s: string, c: char, base: nat, v: nat)
    requires 2 <= base <= 16 && D.ParseNat(s, base) == Some(v) && D.DigitVal(c) < base
    ensures D.ParseNat(s + [c], base) == Some(v * base + D.DigitVal(c))
  {
    assert (s + [c])[..|s|] == s;
  }

  /** 010 is eight to the planner and ten to the database. */
  lemma OctalExample()
    ensures BuildNumeric("010") == Some(8) && MySqlInteger("010") == Some(10)
  {
    assert D.ParseNat("0", 8) == Some(0) == D.ParseNat("0", 10);
    OneMoreDigit("0", '1', 8, 0);
    OneMoreDigit("0", '1', 10, 0);
    assert "0" + ['1'] == "01" && "01" + ['0'] == "010";
    OneMoreDigit("01", '0', 8, 1);
    OneMoreDigit("01", '0', 10, 1);
    NumeralMeans(false, "010");
    NumeralBuilt(false, "010");
    NumeralBase("010");
  }

  // ---------------------------------------------------------------- conditions

  function NumberVal(text: string): Val {
    match MySqlInteger(text)
    case Some(n) => Int(n)
    case None => Frac(text)
  }

  function LiteralVal(l: Literal): Val {
    match l
    case NumLit(n) => Int(n)
    case StrLit(text) => Text(text)
    case NullLit => Null
  }

  /** A value as text; NULL has none. */
  function ValText(v: Val): string {
    match v
    case Null => ""
    case Int(n) => D.FormatInt(n)
    case Frac(text) => text
    case Text(text) => text
  }

  predicate Spells(v: Val, text: string) { !v.Null? && ValText(v) == text }

  function ValueOf(t: Table, n: Node, row: Row, o: Oracle): Val {
    match n
    case StrVal(text) => Text(text)
    case NumVal(text) => NumberVal(text)
    case ValArg(arg) => o.arg(arg)
    case NullVal => Null
    case ColName(name, _) =>
      var at := IndexOf(Names(t.columns), Lower(name));
      if 0 <= at < |row| then row[at] else o.value(n, row)
    case _ => o.value(n, row)
  }

  /** Whether a value is in the list of an IN. */
  function InList(t: Table, v: Val, items: seq<Node>, row: Row, o: Oracle): TV {
    if items == [] then F else Or3(Eq3(v, ValueOf(t, items[0], row, o)), InList(t, v, items[1..], row, o))
  }

  function InValues(v: Val, values: seq<Val>): TV {
    if values == [] then F else Or3(Eq3(v, values[0]), InValues(v, values[1..]))
  }

  /** The truth of a condition on a row. */
  function Holds(t: Table, n: Node, row: Row, o: Oracle): TV {
    match n
    case AndExpr(left, right) => And3(Holds(t, left, row, o), Holds(t, right, row, o))
    case OrExpr(left, right) => Or3(Holds(t, left, row, o), Holds(t, right, row, o))
    case NotExpr(expr) => Not3(Holds(t, expr, row, o))
    case ParenBoolExpr(expr) => Holds(t, expr, row, o)
    case ComparisonExpr(op, left, right) =>
      if op == "=" then Eq3(ValueOf(t, left, row, o), ValueOf(t, right, row, o))
      else if op == "in" && right.ValTuple? then InList(t, ValueOf(t, left, row, o), right.items, row, o)
      else if op == "in" && right.ListArg? then InValues(ValueOf(t, left, row, o), o.list(right.arg))
      else o.cond(n, row)
    case _ => o.cond(n, row)
  }
}
