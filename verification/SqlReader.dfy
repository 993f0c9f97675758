/** A reader of SQL text, for the conditions and statements that the proxy formats or writes itself: simple
    operands, comparisons, boolean connectives with their precedence, and the clauses of SELECT, UPDATE and
    DELETE on one table. It is the grammar of sqlparser/sql.y on that fragment, read from the text. */
module SqlReader {
  import opened Wrappers
  import opened Ast
  import D = Decimal
  import T = Tokenizer

  /** What was read and the text after it. */
  datatype Read = Read(node: Node, rest: string) | Unread

  datatype Items = Items(nodes: seq<Node>, rest: string) | NoItems

  // ---------------------------------------------------------------- words

  function Skip(s: string): string { T.SkipBlanks(s) }

  predicate At(s: string, c: char) { s != "" && s[0] == c }

  /** The word that comes next, if any, and the text after it. */
  function WordAt(s: string): string { Skip(s)[..T.RunLen(T.Word, Skip(s))] }

  function AfterWord(s: string): (r: string)
    ensures |r| <= |s| && (WordAt(s) != "" ==> |r| < |s|)
  {
    Skip(s)[T.RunLen(T.Word, Skip(s))..]
  }

  predicate InNumber(c: char) { T.IsWord(c) || c == '.' || c == '+' || c == '-' }

  predicate InSymbol(c: char) { c == '<' || c == '>' || c == '=' || c == '!' }

  function NumberRun(s: string): (n: nat)
    ensures n <= |s| && (forall i :: 0 <= i < n ==> InNumber(s[i])) && (n < |s| ==> !InNumber(s[n]))
  {
    if s == "" || !InNumber(s[0]) then 0 else 1 + NumberRun(s[1..])
  }

  function SymbolRun(s: string): (n: nat)
    ensures n <= |s| && (forall i :: 0 <= i < n ==> InSymbol(s[i])) && (n < |s| ==> !InSymbol(s[n]))
  {
    if s == "" || !InSymbol(s[0]) then 0 else 1 + SymbolRun(s[1..])
  }

  // ---------------------------------------------------------------- values

  datatype Name = Name(text: string, quoted: bool, rest: string) | NoName

  /** A name, bare or between back quotes. */
  function ReadName(s: string): (r: Name)
    ensures r.Name? ==> |r.rest| < |s|
  {
    if At(s, '`') then
      var n := T.RunLen(T.Word, s[1..]);
      if n > 0 && At(s[1 + n..], '`') then Name(s[1..1 + n], true, s[n + 2..]) else NoName
    else
      var n := T.RunLen(T.Word, s);
      if n > 0 then Name(s[..n], false, s[n..]) else NoName
  }

  /** A column, by itself or after the name of its table; a bare `null` is NULL. */
  function ReadColumn(s: string): (r: Read)
    ensures r.Read? ==> |r.rest| < |s|
  {
    match ReadName(s)
    case NoName => Unread
    case Name(text, quoted, rest) =>
      if At(rest, '.') then
        match ReadName(rest[1..])
        case NoName => Unread
        case Name(column, _, rest') => Read(ColName(column, Some(text)), rest')
      else if text == "null" && !quoted then Read(NullVal, rest)
      else Read(ColName(text, None), rest)
  }

  /** A variable: one colon for a value, two for a list. */
  function ReadArg(s: string): (r: Read)
    requires At(s, ':')
    ensures r.Read? ==> |r.rest| < |s|
  {
    var n := if At(s[1..], ':') then 2 else 1;
    var m := n + T.RunLen(T.Dotted, s[n..]);
    Read(if n == 2 then ListArg(s[..m]) else ValArg(s[..m]), s[m..])
  }

  function ReadString(s: string): (r: Read)
    requires At(s, '\'')
    ensures r.Read? ==> |r.rest| < |s|
  {
    var b := T.Literal(s[1..], '\'');
    if b.ok then Read(StrVal(b.value), b.rest) else Unread
  }

  /** A literal, a variable or a column. */
  function ReadOperand(s: string): (r: Read)
    ensures r.Read? ==> |r.rest| < |s|
  {
    var c := Skip(s);
    if c == "" then Unread
    else if c[0] == '\'' then ReadString(c)
    else if c[0] == ':' then ReadArg(c)
    else if D.IsDigit(c[0]) || c[0] == '-' || c[0] == '.' then Read(NumVal(c[..NumberRun(c)]), c[NumberRun(c)..])
    else ReadColumn(c)
  }

  /** Kinds of comma-separated lists. */
  datatype ListKind = Operands | Orders | Assigns | Exprs

  function ReadOrder(s: string): (r: Read)
    ensures r.Read? ==> |r.rest| < |s|
  {
    match ReadOperand(s)
    case Unread => Unread
    case Read(n, rest) =>
      if WordAt(rest) == "asc" || WordAt(rest) == "desc" then Read(Order(n, WordAt(rest)), AfterWord(rest)) else Unread
  }

  function ReadAssign(s: string): (r: Read)
    ensures r.Read? ==> |r.rest| < |s|
  {
    match ReadOperand(s)
    case Unread => Unread
    case Read(column, rest) =>
      if !column.ColName? || !At(Skip(rest), '=') then Unread
      else
        match ReadOperand(Skip(rest)[1..])
        case Unread => Unread
        case Read(value, rest') => Read(UpdateExpr(column, value), rest')
  }

  /** An alias, if `as` announces one. */
  function ReadAlias(s: string): (r: (Option<string>, string))
    ensures |r.1| <= |s|
  {
    if WordAt(s) == "as" && WordAt(AfterWord(s)) != "" then (Some(WordAt(AfterWord(s))), AfterWord(AfterWord(s)))
    else (None, s)
  }

  /** A star, the star of a table, or an operand with or without an alias. */
  function ReadExpr(s: string): (r: Read)
    ensures r.Read? ==> |r.rest| < |s|
  {
    var c := Skip(s);
    var n := T.RunLen(T.Word, c);
    if At(c, '*') then Read(StarExpr(None), c[1..])
    else if n > 0 && At(c[n..], '.') && At(c[n + 1..], '*') then Read(StarExpr(Some(c[..n])), c[n + 2..])
    else
      match ReadOperand(s)
      case Unread => Unread
      case Read(e, rest) => var (alias, rest') := ReadAlias(rest); Read(NonStarExpr(e, alias), rest')
  }

  function ReadItem(kind: ListKind, s: string): (r: Read)
    ensures r.Read? ==> |r.rest| < |s|
  {
    match kind
    case Operands => ReadOperand(s)
    case Orders => ReadOrder(s)
    case Assigns => ReadAssign(s)
    case Exprs => ReadExpr(s)
  }

  /** One or more items. */
  function ReadItems(kind: ListKind, s: string): (r: Items)
    ensures r.Items? ==> |r.rest| < |s|
    decreases |s|
  {
    match ReadItem(kind, s)
    case Unread => NoItems
    case Read(n, rest) =>
      if !At(Skip(rest), ',') then Items([n], rest)
      else
        match ReadItems(kind, Skip(rest)[1..])
        case NoItems => NoItems
        case Items(ns, rest') => Items([n] + ns, rest')
  }

  /** An operand or a tuple of them. */
  function ReadValue(s: string): (r: Read)
    ensures r.Read? ==> |r.rest| < |s|
  {
    if !At(Skip(s), '(') then ReadOperand(s)
    else
      match ReadItems(Operands, Skip(s)[1..])
      case NoItems => Unread
      case Items(ns, rest) => if At(Skip(rest), ')') then Read(ValTuple(ns), Skip(rest)[1..]) else Unread
  }

  // ---------------------------------------------------------------- conditions

  const SYMBOLS: set<string> := {"=", "<", ">", "<=", ">=", "!=", "<=>"}

  function Compared(op: string, left: Node, right: Read): (r: Read)
    ensures r.Read? ==> right.Read? && r.rest == right.rest
  {
    if right.Unread? then Unread else Read(ComparisonExpr(op, left, right.node), right.rest)
  }

  /** After BETWEEN: a value, the word `and`, and a value. */
  function ReadRange(op: string, left: Node, s: string): (r: Read)
    ensures r.Read? ==> |r.rest| < |s|
  {
    match ReadOperand(s)
    case Unread => Unread
    case Read(lo, rest) =>
      if WordAt(rest) != "and" then Unread
      else
        match ReadOperand(AfterWord(rest))
        case Unread => Unread
        case Read(hi, rest') => Read(RangeCond(op, left, lo, hi), rest')
  }

  /** What follows the operand on the left. */
  function ReadTest(left: Node, s: string): (r: Read)
    ensures r.Read? ==> |r.rest| < |s|
  {
    var c, w := Skip(s), WordAt(s);
    if SymbolRun(c) > 0 then
      if c[..SymbolRun(c)] in SYMBOLS then Compared(c[..SymbolRun(c)], left, ReadValue(c[SymbolRun(c)..])) else Unread
    else if w == "in" || w == "like" then Compared(w, left, ReadValue(AfterWord(s)))
    else if w == "between" then ReadRange(w, left, AfterWord(s))
    else if w == "not" then ReadNegated(left, AfterWord(s))
    else if w == "is" then ReadIs(left, AfterWord(s))
    else Unread
  }

  function ReadNegated(left: Node, s: string): (r: Read)
    ensures r.Read? ==> |r.rest| < |s|
  {
    var w := WordAt(s);
    if w == "in" || w == "like" then Compared("not " + w, left, ReadValue(AfterWord(s)))
    else if w == "between" then ReadRange("not between", left, AfterWord(s))
    else Unread
  }

  function ReadIs(left: Node, s: string): (r: Read)
    ensures r.Read? ==> |r.rest| < |s|
  {
    if WordAt(s) == "null" then Read(NullCheck("is null", left), AfterWord(s))
    else if WordAt(s) == "not" && WordAt(AfterWord(s)) == "null" then
      Read(NullCheck("is not null", left), AfterWord(AfterWord(s)))
    else Unread
  }

  function ReadCondition(s: string): (r: Read)
    ensures r.Read? ==> |r.rest| < |s|
  {
    match ReadOperand(s)
    case Unread => Unread
    case Read(left, rest) => ReadTest(left, rest)
  }

  /** NOT binds closest, then AND, then OR; both connect from the left. */
  function ReadFactor(s: string): (r: Read)
    ensures r.Read? ==> |r.rest| < |s|
    decreases |s|, 0
  {
    if At(Skip(s), '(') then
      match ReadOr(Skip(s)[1..])
      case Unread => Unread
      case Read(n, rest) => if At(Skip(rest), ')') then Read(ParenBoolExpr(n), Skip(rest)[1..]) else Unread
    else if WordAt(s) == "not" then
      match ReadFactor(AfterWord(s))
      case Unread => Unread
      case Read(n, rest) => Read(NotExpr(n), rest)
    else ReadCondition(s)
  }

  function ReadAnd(s: string): (r: Read)
    ensures r.Read? ==> |r.rest| < |s|
    decreases |s|, 1
  {
    match ReadFactor(s)
    case Unread => Unread
    case Read(n, rest) => AndTail(n, rest)
  }

  function AndTail(n: Node, s: string): (r: Read)
    ensures r.Read? ==> |r.rest| <= |s|
    decreases |s|, 2
  {
    if WordAt(s) != "and" then Read(n, s)
    else
      match ReadFactor(AfterWord(s))
      case Unread => Unread
      case Read(m, rest) => AndTail(AndExpr(n, m), rest)
  }

  function ReadOr(s: string): (r: Read)
    ensures r.Read? ==> |r.rest| < |s|
    decreases |s|, 3
  {
    match ReadAnd(s)
    case Unread => Unread
    case Read(n, rest) => OrTail(n, rest)
  }

  function OrTail(n: Node, s: string): (r: Read)
    ensures r.Read? ==> |r.rest| <= |s|
    decreases |s|, 4
  {
    if WordAt(s) != "or" then Read(n, s)
    else
      match ReadAnd(AfterWord(s))
      case Unread => Unread
      case Read(m, rest) => OrTail(OrExpr(n, m), rest)
  }

  // ---------------------------------------------------------------- clauses

  /** WHERE or HAVING, if it is there. */
  function ReadWhere(word: string, s: string): Read {
    if WordAt(s) != word then Read(Where(word, None), s)
    else
      match ReadOr(AfterWord(s))
      case Unread => Unread
      case Read(n, rest) => Read(Where(word, Some(n)), rest)
  }

  /** GROUP BY or ORDER BY, if it is there; no items otherwise. */
  function ReadBy(word: string, kind: ListKind, s: string): Items {
    if WordAt(s) != word then Items([], s)
    else if WordAt(AfterWord(s)) != "by" then NoItems
    else ReadItems(kind, AfterWord(AfterWord(s)))
  }

  function ReadLimit(s: string): Read {
    if WordAt(s) != "limit" then Read(NoLimit, s) else LimitOf(ReadItems(Operands, AfterWord(s)))
  }

  function LimitOf(items: Items): Read {
    match items
    case NoItems => Unread
    case Items(ns, rest) =>
      if |ns| == 1 then Read(Limit(None, ns[0]), rest)
      else if |ns| == 2 then Read(Limit(Some(ns[0]), ns[1]), rest)
      else Unread
  }

  /** The lock a SELECT asks for, as its text. */
  function ReadLock(s: string): (string, string) {
    var a := AfterWord(s);
    var b := AfterWord(a);
    if WordAt(s) == "for" && WordAt(a) == "update" then (" for update", b)
    else if WordAt(s) == "lock" && WordAt(a) == "in" && WordAt(b) == "share" && WordAt(AfterWord(b)) == "mode" then
      (" lock in share mode", AfterWord(AfterWord(b)))
    else ("", s)
  }

  /** A table, by itself or after the name of its database. */
  function ReadTable(s: string): Read {
    match ReadName(Skip(s))
    case NoName => Unread
    case Name(text, _, rest) =>
      if !At(rest, '.') then Read(TableName(text, None), rest)
      else
        match ReadName(rest[1..])
        case NoName => Unread
        case Name(table, _, rest') => Read(TableName(table, Some(text)), rest')
  }

  // ---------------------------------------------------------------- statements

  /** ORDER BY and LIMIT, the end of UPDATE and DELETE. */
  datatype Closing = Closing(where: Node, orderBy: Node, limit: Node, rest: string) | NoClosing

  function ReadClosing(s: string): Closing {
    match ReadWhere("where", s)
    case Unread => NoClosing
    case Read(where, rest) => ReadLimits(where, rest)
  }

  function ReadLimits(where: Node, s: string): Closing {
    match ReadBy("order", Orders, s)
    case NoItems => NoClosing
    case Items(orders, rest) =>
      match ReadLimit(rest)
      case Unread => NoClosing
      case Read(limit, rest') => Closing(where, OrderBy(orders), limit, rest')
  }

  function ReadDelete(s: string): Read {
    if WordAt(s) != "from" then Unread
    else
      match ReadTable(AfterWord(s))
      case Unread => Unread
      case Read(table, rest) =>
        match ReadClosing(rest)
        case NoClosing => Unread
        case Closing(where, orderBy, limit, rest') => Read(Node.Delete(Comments([]), table, where, orderBy, limit), rest')
  }

  function ReadUpdate(s: string): Read {
    match ReadTable(s)
    case Unread => Unread
    case Read(table, rest) => if WordAt(rest) != "set" then Unread else ReadSet(table, AfterWord(rest))
  }

  function ReadSet(table: Node, s: string): Read {
    match ReadItems(Assigns, s)
    case NoItems => Unread
    case Items(exprs, rest) =>
      match ReadClosing(rest)
      case NoClosing => Unread
      case Closing(where, orderBy, limit, rest') =>
        Read(Node.Update(Comments([]), table, UpdateExprs(exprs), where, orderBy, limit), rest')
  }

  function ReadSelect(s: string): Read {
    var distinct := WordAt(s) == "distinct";
    match ReadItems(Exprs, if distinct then AfterWord(s) else s)
    case NoItems => Unread
    case Items(exprs, rest) =>
      if WordAt(rest) != "from" then Unread
      else ReadFrom(if distinct then "distinct " else "", SelectExprs(exprs), AfterWord(rest))
  }

  function ReadFrom(distinct: string, exprs: Node, s: string): Read {
    match ReadTable(s)
    case Unread => Unread
    case Read(table, rest) =>
      var (alias, rest') := ReadAlias(rest);
      ReadFilter(distinct, exprs, TableExprs([AliasedTableExpr(table, alias, None)]), rest')
  }

  function ReadFilter(distinct: string, exprs: Node, from: Node, s: string): Read {
    match ReadWhere("where", s)
    case Unread => Unread
    case Read(where, rest) =>
      match ReadBy("group", Operands, rest)
      case NoItems => Unread
      case Items(groups, rest') => ReadGrouped(distinct, exprs, from, where, GroupBy(groups), rest')
  }

  function ReadGrouped(distinct: string, exprs: Node, from: Node, where: Node, groupBy: Node, s: string): Read {
    match ReadWhere("having", s)
    case Unread => Unread
    case Read(having, rest) =>
      match ReadLimits(having, rest)
      case NoClosing => Unread
      case Closing(_, orderBy, limit, rest') =>
        var (lock, end) := ReadLock(rest');
        Read(Node.Select(Comments([]), distinct, exprs, from, where, groupBy, having, orderBy, limit, lock), end)
  }

  function ReadStatement(s: string): Read {
    if WordAt(s) == "select" then ReadSelect(AfterWord(s))
    else if WordAt(s) == "update" then ReadUpdate(AfterWord(s))
    else if WordAt(s) == "delete" then ReadDelete(AfterWord(s))
    else Unread
  }
}
