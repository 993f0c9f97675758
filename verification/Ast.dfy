/** The SQL syntax tree (sqlparser/ast.go). Go's SQLNode interface is one datatype here, one
    constructor per node type; a nil reference or slice is the empty or absent form. */
module Ast {
  import opened Wrappers

  datatype Node =
    // statements
    | Select(comments: Node, distinct: string, selectExprs: Node, from: Node, where: Node,
             groupBy: Node, having: Node, orderBy: Node, limit: Node, lock: string)
    | Union(typ: string, left: Node, right: Node)
    | Insert(comments: Node, table: Node, columns: Node, rows: Node, onDup: Node)
    | Replace(comments: Node, table: Node, columns: Node, rows: Node, onDup: Node)
    | Update(comments: Node, table: Node, exprs: Node, where: Node, orderBy: Node, limit: Node)
    | Delete(comments: Node, table: Node, where: Node, orderBy: Node, limit: Node)
    | Set(comments: Node, exprs: Node)
    | SimpleSelect(comments: Node, distinct: string, selectExprs: Node)
    | Keyword(text: string)                       // begin, commit, rollback, other
    // clauses
    | Comments(lines: seq<string>)
    | SelectExprs(items: seq<Node>)
    | StarExpr(star: Option<string>)
    | NonStarExpr(expr: Node, alias: Option<string>)
    | Columns(items: seq<Node>)
    | TableExprs(items: seq<Node>)
    | AliasedTableExpr(expr: Node, alias: Option<string>, hints: Option<Node>)
    | TableName(name: string, qualifier: Option<string>)
    | ParenTableExpr(expr: Node)
    | JoinTableExpr(left: Node, join: string, right: Node, on: Option<Node>)
    | IndexHints(typ: string, indexes: seq<string>)
    | Where(typ: string, cond: Option<Node>)
    | GroupBy(items: seq<Node>)
    | OrderBy(items: seq<Node>)
    | Order(expr: Node, direction: string)
    | NoLimit
    | Limit(offset: Option<Node>, rowcount: Node)
    | Values(items: seq<Node>)
    | UpdateExprs(items: seq<Node>)
    | UpdateExpr(column: Node, expr: Node)
    | OnDup(items: seq<Node>)
    // boolean expressions
    | AndExpr(left: Node, right: Node)
    | OrExpr(left: Node, right: Node)
    | NotExpr(expr: Node)
    | ParenBoolExpr(expr: Node)
    | ComparisonExpr(op: string, left: Node, right: Node)
    | RangeCond(op: string, left: Node, lo: Node, hi: Node)
    | NullCheck(op: string, expr: Node)
    | ExistsExpr(subquery: Node)
    // value expressions
    | StrVal(text: string)
    | NumVal(text: string)
    | ValArg(arg: string)
    | ListArg(arg: string)
    | NullVal
    | ColName(name: string, qualifier: Option<string>)
    | ValTuple(items: seq<Node>)
    | Subquery(select: Node)
    | BinaryExpr(operator: char, left: Node, right: Node)
    | UnaryExpr(operator: char, expr: Node)
    | FuncExpr(name: string, distinctArgs: bool, exprs: Node)
    | CaseExpr(subject: Option<Node>, whens: seq<Node>, otherwise: Option<Node>)
    | When(test: Node, val: Node)
}
