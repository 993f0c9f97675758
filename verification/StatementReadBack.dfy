/** The text printed for a SELECT, UPDATE or DELETE on one table is read back as that statement: every clause is
    there, in its place (the statement Format methods of sqlparser/ast.go). */
module StatementReadBack {
  import opened Wrappers
  import opened Ast
  import opened Sequences
  import opened SqlReader
  import opened ReadBack
  import opened ConditionReadBack
  import B = TrackedBuffer
  import T = Tokenizer

  // ---------------------------------------------------------------- between clauses

  /** A clause can end before `x`, and one of `ws` comes next. */
  predicate Opens(x: string, ws: set<string>) { Ends(x) && !At(Skip(x), ',') && WordAt(x) in ws }

  /** What can follow a whole statement: nothing, a semicolon, a closing parenthesis. */
  predicate Closes(x: string) { Opens(x, {""}) }

  lemma WordOpens(w: string, x: string)
    requires IsWords(w) && NoWord(x)
    ensures Opens(" " + (w + x), {w}) && AfterWord(" " + (w + x)) == x
  {
    WordFound(" ", w, x);
    SkipTo(" ", w + x);
  }

  /** A word and the blank after it. */
  lemma WordThen(lead: string, text: string, w: string, x: string)
    requires (lead == "" || lead == " ") && IsWords(w) && text == w + " "
    ensures WordAt(lead + (text + x)) == w && AfterWord(lead + (text + x)) == " " + x
  {
    assert text + x == w + (" " + x);
    WordFound(lead, w, " " + x);
  }

  lemma SpacedOpens(text: string, w: string, x: string)
    requires IsWords(w) && text == " " + w + " "
    ensures Opens(text + x, {w}) && AfterWord(text + x) == " " + x
  {
    assert text + x == " " + (w + (" " + x));
    WordOpens(w, " " + x);
  }

  // ---------------------------------------------------------------- WHERE and HAVING

  predicate IsWhere(st: B.Style, word: string, n: Node) {
    n.Where? && n.typ == word && (n.cond.Some? ==> IsDisjunction(st, n.cond.value))
  }

  lemma WhereText(st: B.Style, word: string, cond: Node, tail: string)
    ensures Text(st, Where(word, Some(cond))) + tail == " " + (word + (" " + (Text(st, cond) + tail)))
  {
    Text4(st, Where(word, Some(cond)), B.Lit(" "), B.Str(word), B.Lit(" "), B.Sub(cond), tail);
  }

  lemma WhereRead(word: string, s: string, cond: Node, tail: string)
    requires WordAt(s) == word && ReadOr(AfterWord(s)) == OrTail(cond, tail) && WordAt(tail) != "or"
    ensures ReadWhere(word, s) == Read(Where(word, Some(cond)), tail)
  {
  }

  lemma WhereReads(st: B.Style, word: string, n: Node, tail: string, ws: set<string>)
    requires Reserves(st) && IsWhere(st, word, n) && IsWords(word)
    requires Opens(tail, ws) && word !in ws && "and" !in ws && "or" !in ws
    ensures ReadWhere(word, Text(st, n) + tail) == Read(n, tail) && Opens(Text(st, n) + tail, ws + {word})
  {
    if n.cond.None? {
      TextIs(st, n, tail);
    } else {
      SomeWhere(st, word, n.cond.value, tail);
    }
  }

  lemma SomeWhere(st: B.Style, word: string, cond: Node, tail: string)
    requires Reserves(st) && IsDisjunction(st, cond) && IsWords(word)
    requires Ends(tail) && WordAt(tail) != "and" && WordAt(tail) != "or"
    ensures var s := Text(st, Where(word, Some(cond))) + tail;
            ReadWhere(word, s) == Read(Where(word, Some(cond)), tail) && Opens(s, {word})
  {
    var x := " " + (Text(st, cond) + tail);
    WhereText(st, word, cond, tail);
    WordOpens(word, x);
    DisjunctionReads(st, cond, " ", tail);
    WhereRead(word, " " + (word + x), cond, tail);
  }

  // ---------------------------------------------------------------- GROUP BY and ORDER BY

  lemma ByReads(st: B.Style, word: string, kind: ListKind, first: string, ns: seq<Node>, tail: string, ws: set<string>)
    requires Reserves(st) && AreItems(st, kind, ns) && IsWords(word) && first == " " + word + " by "
    requires Opens(tail, ws) && word !in ws && "as" !in ws
    ensures var s := Nest(st, B.Listed(ns, first, ", "), tail);
            ReadBy(word, kind, s) == Items(ns, tail) && Opens(s, ws + {word})
  {
    if ns != [] {
      var x := Text(st, ns[0]) + More(st, ns[1..], tail);
      ListedText(st, ns, first, tail);
      ByFound(first, word, x);
      ItemsRead(st, kind, ns, " ", tail);
    }
  }

  lemma ByFound(first: string, word: string, x: string)
    requires IsWords(word) && first == " " + word + " by "
    ensures var s := first + x;
            && Opens(s, {word}) && WordAt(AfterWord(s)) == "by" && AfterWord(AfterWord(s)) == " " + x
  {
    assert first + x == " " + (word + (" by " + x));
    WordOpens(word, " by " + x);
    assert IsWords("by");
    Spaced(" by ", "by", x);
  }

  lemma GroupText(st: B.Style, ns: seq<Node>, tail: string)
    ensures Text(st, GroupBy(ns)) + tail == Nest(st, B.Listed(ns, " group by ", ", "), tail)
  {
    TextIs(st, GroupBy(ns), tail);
  }

  lemma OrderByText(st: B.Style, ns: seq<Node>, tail: string)
    ensures Text(st, OrderBy(ns)) + tail == Nest(st, B.Listed(ns, " order by ", ", "), tail)
  {
    TextIs(st, OrderBy(ns), tail);
  }

  // ---------------------------------------------------------------- LIMIT and the lock

  predicate IsLimit(n: Node) {
    n.NoLimit? || (n.Limit? && IsOperand(n.rowcount) && (n.offset.Some? ==> IsOperand(n.offset.value)))
  }

  function LimitItems(n: Node): seq<Node>
    requires n.Limit?
  {
    if n.offset.None? then [n.rowcount] else [n.offset.value, n.rowcount]
  }

  lemma LimitText(st: B.Style, n: Node, tail: string)
    requires n.Limit?
    ensures Text(st, n) + tail == " limit " + (Text(st, LimitItems(n)[0]) + More(st, LimitItems(n)[1..], tail))
  {
    var l, r := B.Lit(" limit "), B.Sub(n.rowcount);
    if n.offset.None? {
      assert [l] + [] + [r] == [l, r];
      Text2(st, n, l, r, tail);
      assert [n.rowcount][1..] == [];
    } else {
      var o := n.offset.value;
      assert [l] + [B.Lit(""), B.Sub(o), B.Lit(", ")] + [r] == [l, B.Lit(""), B.Sub(o), B.Lit(", "), r];
      Text5(st, n, l, B.Lit(""), B.Sub(o), B.Lit(", "), r, tail);
      LimitMore(st, o, n.rowcount, tail);
      var x := Text(st, o) + (", " + (Text(st, n.rowcount) + tail));
      assert "" + x == x;
    }
  }

  lemma LimitMore(st: B.Style, a: Node, b: Node, tail: string)
    ensures More(st, [a, b][1..], tail) == ", " + (Text(st, b) + tail)
  {
    assert [a, b][1..] == [b] && [b][1..] == [];
    ListedText(st, [b], ", ", tail);
  }

  lemma LimitRead(n: Node, tail: string)
    requires n.Limit?
    ensures LimitOf(Items(LimitItems(n), tail)) == Read(n, tail)
  {
  }

  lemma LimitFound(s: string, items: Items)
    requires WordAt(s) == "limit" && ReadItems(Operands, AfterWord(s)) == items
    ensures ReadLimit(s) == LimitOf(items)
  {
  }

  lemma LimitReads(st: B.Style, n: Node, tail: string, ws: set<string>)
    requires Reserves(st) && IsLimit(n) && Opens(tail, ws) && "limit" !in ws && "as" !in ws
    ensures ReadLimit(Text(st, n) + tail) == Read(n, tail) && Opens(Text(st, n) + tail, ws + {"limit"})
  {
    if n.NoLimit? {
      TextIs(st, n, tail);
    } else {
      SomeLimit(st, n, tail);
    }
  }

  lemma LimitOpens(x: string)
    ensures Opens(" limit " + x, {"limit"}) && AfterWord(" limit " + x) == " " + x
  {
    assert IsWords("limit");
    SpacedOpens(" limit ", "limit", x);
  }

  lemma SomeLimit(st: B.Style, n: Node, tail: string)
    requires Reserves(st) && n.Limit? && IsLimit(n) && EndsList(tail)
    ensures ReadLimit(Text(st, n) + tail) == Read(n, tail) && Opens(Text(st, n) + tail, {"limit"})
  {
    var ns := LimitItems(n);
    var x := Text(st, ns[0]) + More(st, ns[1..], tail);
    LimitText(st, n, tail);
    LimitOpens(x);
    ItemsRead(st, Operands, ns, " ", tail);
    LimitFound(" limit " + x, Items(ns, tail));
    LimitRead(n, tail);
  }

  const LOCKS: set<string> := {"", " for update", " lock in share mode"}

  lemma ForUpdate(tail: string)
    requires Closes(tail)
    ensures ReadLock(" for update" + tail) == (" for update", tail) && Opens(" for update" + tail, {"for"})
  {
    assert IsWords("for") && IsWords("update");
    var x := " " + ("update" + tail);
    assert " for update" + tail == " " + ("for" + x);
    WordOpens("for", x);
    WordFound(" ", "update", tail);
  }

  lemma ShareWords(x: string)
    ensures IsWords("lock") && IsWords("in") && IsWords("share") && IsWords("mode")
    ensures " lock in share mode" + x == " " + ("lock" + (" " + ("in" + (" " + ("share" + (" " + ("mode" + x)))))))
  {
  }

  lemma ShareMode(tail: string)
    requires Closes(tail)
    ensures ReadLock(" lock in share mode" + tail) == (" lock in share mode", tail)
    ensures Opens(" lock in share mode" + tail, {"lock"})
  {
    ShareWords(tail);
    var z := " " + ("mode" + tail);
    var y := " " + ("share" + z);
    var x := " " + ("in" + y);
    WordOpens("lock", x);
    WordFound(" ", "in", y);
    WordFound(" ", "share", z);
    WordFound(" ", "mode", tail);
  }

  lemma LockReads(lock: string, tail: string)
    requires lock in LOCKS && Closes(tail)
    ensures ReadLock(lock + tail) == (lock, tail) && Opens(lock + tail, {"", "for", "lock"})
  {
    if lock == "" {
      assert lock + tail == tail;
    } else if lock == " for update" {
      ForUpdate(tail);
    } else {
      ShareMode(tail);
    }
  }

  // ---------------------------------------------------------------- tables

  predicate IsTableName(n: Node) { n.TableName? && IsName(n.name) && (n.qualifier.Some? ==> IsName(n.qualifier.value)) }

  lemma TableReads(st: B.Style, n: Node, tail: string)
    requires IsTableName(n) && Ends(tail)
    ensures ReadTable(" " + (Text(st, n) + tail)) == Read(n, tail)
  {
    TextIs(st, n, tail);
    QualifiedText(st, n.name, n.qualifier, tail);
    if n.qualifier.None? {
      PlainTable(st, n.name, tail);
    } else {
      QualifiedTable(st, n.qualifier.value, n.name, tail);
    }
  }

  lemma PlainTable(st: B.Style, name: string, tail: string)
    requires IsName(name) && Ends(tail)
    ensures ReadTable(" " + (NameText(st, name) + tail)) == Read(TableName(name, None), tail)
  {
    NameReads(st, name, tail);
    SkipTo(" ", NameText(st, name) + tail);
  }

  lemma QualifiedTable(st: B.Style, db: string, name: string, tail: string)
    requires IsName(db) && IsName(name) && Ends(tail)
    ensures ReadTable(" " + (NameText(st, db) + ("." + (NameText(st, name) + tail)))) ==
            Read(TableName(name, Some(db)), tail)
  {
    var x := NameText(st, name) + tail;
    SkipTo(" ", NameText(st, db) + ("." + x));
    NameReads(st, db, "." + x);
    NameReads(st, name, tail);
    assert ("." + x)[1..] == x;
  }

  /** FROM with one table, under its own name or an alias. */
  predicate IsFrom(st: B.Style, n: Node) {
    && n.TableExprs? && |n.items| == 1 && n.items[0].AliasedTableExpr?
    && IsTableName(n.items[0].expr) && IsAlias(st, n.items[0].alias) && n.items[0].hints.None?
  }

  function AliasTail(alias: Option<string>, tail: string): string {
    if alias.None? then tail else " as " + (alias.value + tail)
  }

  lemma AliasedText(st: B.Style, table: Node, alias: Option<string>, tail: string)
    ensures Text(st, AliasedTableExpr(table, alias, None)) + tail == Text(st, table) + AliasTail(alias, tail)
  {
    var n := AliasedTableExpr(table, alias, None);
    if alias.None? {
      assert [B.Sub(table)] + [] + [] == [B.Sub(table)];
      Text1(st, n, B.Sub(table), tail);
    } else {
      var a := [B.Lit(" as "), B.Str(alias.value)];
      assert [B.Sub(table)] + a + [] == [B.Sub(table), B.Lit(" as "), B.Str(alias.value)];
      Text3(st, n, B.Sub(table), B.Lit(" as "), B.Str(alias.value), tail);
    }
  }

  lemma FromText(st: B.Style, n: Node, tail: string)
    requires IsFrom(st, n)
    ensures Text(st, n) + tail == Text(st, n.items[0].expr) + AliasTail(n.items[0].alias, tail)
  {
    ListText(st, n, n.items, tail);
    assert n.items[1..] == [] && More(st, [], tail) == tail;
    AliasedText(st, n.items[0].expr, n.items[0].alias, tail);
  }

  lemma AliasTailReads(alias: Option<string>, tail: string)
    requires (alias.Some? ==> IsName(alias.value)) && Ends(tail) && WordAt(tail) != "as"
    ensures ReadAlias(AliasTail(alias, tail)) == (alias, tail) && Ends(AliasTail(alias, tail))
  {
    if alias.Some? { AliasReads(alias.value, tail); }
  }

  // ---------------------------------------------------------------- the end of a statement

  predicate IsOrderBy(st: B.Style, n: Node) { n.OrderBy? && AreItems(st, Orders, n.items) }

  lemma ClauseWords()
    ensures IsWords("where") && IsWords("group") && IsWords("having") && IsWords("order") && IsWords("limit")
    ensures "where" !in {""} + {"limit"} + {"order"}
    ensures " group by " == " " + "group" + " by " && " order by " == " " + "order" + " by "
  {
  }

  lemma OrderByReads(st: B.Style, n: Node, tail: string, ws: set<string>)
    requires Reserves(st) && IsOrderBy(st, n) && Opens(tail, ws) && "order" !in ws && "as" !in ws
    ensures ReadBy("order", Orders, Text(st, n) + tail) == Items(n.items, tail)
    ensures Opens(Text(st, n) + tail, ws + {"order"})
  {
    ClauseWords();
    OrderByText(st, n.items, tail);
    ByReads(st, "order", Orders, " order by ", n.items, tail, ws);
  }

  lemma LimitsRead(where: Node, s: string, orders: seq<Node>, rest: string, limit: Node, tail: string)
    requires ReadBy("order", Orders, s) == Items(orders, rest) && ReadLimit(rest) == Read(limit, tail)
    ensures ReadLimits(where, s) == Closing(where, OrderBy(orders), limit, tail)
  {
  }

  /** ORDER BY and LIMIT. */
  lemma LimitsReads(st: B.Style, where: Node, orderBy: Node, limit: Node, tail: string, ws: set<string>)
    requires Reserves(st) && IsOrderBy(st, orderBy) && IsLimit(limit)
    requires Opens(tail, ws) && "order" !in ws && "as" !in ws && "limit" !in ws
    ensures var s := Text(st, orderBy) + (Text(st, limit) + tail);
            ReadLimits(where, s) == Closing(where, orderBy, limit, tail) && Opens(s, ws + {"limit"} + {"order"})
  {
    var rest := Text(st, limit) + tail;
    LimitReads(st, limit, tail, ws);
    OrderByReads(st, orderBy, rest, ws + {"limit"});
    LimitsRead(where, Text(st, orderBy) + rest, orderBy.items, rest, limit, tail);
  }

  lemma ClosingRead(s: string, where: Node, rest: string, closing: Closing)
    requires ReadWhere("where", s) == Read(where, rest) && ReadLimits(where, rest) == closing
    ensures ReadClosing(s) == closing
  {
  }

  lemma WhereCloses(st: B.Style, where: Node, s: string)
    requires Reserves(st) && IsWhere(st, "where", where) && Opens(s, {""} + {"limit"} + {"order"})
    ensures ReadWhere("where", Text(st, where) + s) == Read(where, s) && EndsList(Text(st, where) + s)
  {
    ClauseWords();
    WhereReads(st, "where", where, s, {""} + {"limit"} + {"order"});
  }

  /** The clauses UPDATE and DELETE end with, and then `tail`. */
  function ClosingText(st: B.Style, where: Node, orderBy: Node, limit: Node, tail: string): string {
    Text(st, where) + (Text(st, orderBy) + (Text(st, limit) + tail))
  }

  /** WHERE, ORDER BY and LIMIT. */
  lemma ClosingReads(st: B.Style, where: Node, orderBy: Node, limit: Node, tail: string)
    requires Reserves(st) && IsWhere(st, "where", where) && IsOrderBy(st, orderBy) && IsLimit(limit) && Closes(tail)
    ensures var s := ClosingText(st, where, orderBy, limit, tail);
            ReadClosing(s) == Closing(where, orderBy, limit, tail) && EndsList(s)
  {
    var rest := Text(st, orderBy) + (Text(st, limit) + tail);
    LimitsReads(st, where, orderBy, limit, tail, {""});
    WhereCloses(st, where, rest);
    ClosingRead(Text(st, where) + rest, where, rest, Closing(where, orderBy, limit, tail));
  }

  // ---------------------------------------------------------------- DELETE

  /** The text of no comments. */
  lemma NoComments(st: B.Style, c: Node, x: string)
    requires c == Comments([])
    ensures Text(st, c) + x == x
  {
    TextIs(st, c, x);
    assert B.Spaced([]) == [];
  }

  predicate IsDelete(st: B.Style, n: Node) {
    && n.Delete? && n.comments == Comments([]) && IsTableName(n.table) && IsWhere(st, "where", n.where)
    && IsOrderBy(st, n.orderBy) && IsLimit(n.limit)
  }

  lemma ClosingNest(st: B.Style, where: Node, orderBy: Node, limit: Node, tail: string)
    ensures Nest(st, [B.Sub(where), B.Sub(orderBy), B.Sub(limit)], tail) == ClosingText(st, where, orderBy, limit, tail)
  {
    Nest3(st, B.Sub(where), B.Sub(orderBy), B.Sub(limit), tail);
  }

  function DeleteSegs(comments: Node, table: Node): seq<B.Seg> {
    [B.Lit("delete "), B.Sub(comments), B.Lit("from "), B.Sub(table)]
  }

  lemma DeleteNest(st: B.Style, comments: Node, table: Node, x: string)
    ensures Nest(st, DeleteSegs(comments, table), x) ==
            "delete " + (Text(st, comments) + ("from " + (Text(st, table) + x)))
  {
    Nest4(st, B.Lit("delete "), B.Sub(comments), B.Lit("from "), B.Sub(table), x);
  }

  lemma DeleteText(st: B.Style, n: Node, tail: string)
    requires n.Delete?
    ensures Text(st, n) + tail ==
            Nest(st, DeleteSegs(n.comments, n.table), ClosingText(st, n.where, n.orderBy, n.limit, tail))
  {
    var closing := [B.Sub(n.where), B.Sub(n.orderBy), B.Sub(n.limit)];
    assert B.Layout(st, n) == DeleteSegs(n.comments, n.table) + closing;
    TextIs(st, n, tail);
    NestAppend(st, DeleteSegs(n.comments, n.table), closing, tail);
    ClosingNest(st, n.where, n.orderBy, n.limit, tail);
  }

  lemma DeleteRead(s: string, table: Node, rest: string, where: Node, orderBy: Node, limit: Node, tail: string)
    requires WordAt(s) == "from" && ReadTable(AfterWord(s)) == Read(table, rest)
    requires ReadClosing(rest) == Closing(where, orderBy, limit, tail)
    ensures ReadDelete(s) == Read(Node.Delete(Comments([]), table, where, orderBy, limit), tail)
  {
  }

  lemma DeleteReads(st: B.Style, n: Node, tail: string)
    requires Reserves(st) && IsDelete(st, n) && Closes(tail)
    ensures ReadStatement(Text(st, n) + tail) == Read(n, tail)
  {
    var rest := ClosingText(st, n.where, n.orderBy, n.limit, tail);
    var x := Text(st, n.table) + rest;
    DeleteText(st, n, tail);
    DeleteNest(st, n.comments, n.table, rest);
    NoComments(st, n.comments, "from " + x);
    ClosingReads(st, n.where, n.orderBy, n.limit, tail);
    TableReads(st, n.table, rest);
    FromFound(x);
    DeleteRead(" " + ("from " + x), n.table, rest, n.where, n.orderBy, n.limit, tail);
    DeleteFound("from " + x);
  }

  lemma FromFound(x: string)
    ensures WordAt(" " + ("from " + x)) == "from" && AfterWord(" " + ("from " + x)) == " " + x
  {
    assert IsWords("from");
    WordThen(" ", "from ", "from", x);
  }

  lemma DeleteFound(x: string)
    ensures ReadStatement("delete " + x) == ReadDelete(" " + x)
  {
    assert IsWords("delete");
    WordThen("", "delete ", "delete", x);
    assert "" + ("delete " + x) == "delete " + x;
  }

  // ---------------------------------------------------------------- UPDATE

  predicate IsUpdate(st: B.Style, n: Node) {
    && n.Update? && n.comments == Comments([]) && IsTableName(n.table)
    && n.exprs.UpdateExprs? && n.exprs.items != [] && AreItems(st, Assigns, n.exprs.items)
    && IsWhere(st, "where", n.where) && IsOrderBy(st, n.orderBy) && IsLimit(n.limit)
  }

  function UpdateSegs(comments: Node, table: Node, exprs: Node): seq<B.Seg> {
    [B.Lit("update "), B.Sub(comments), B.Sub(table), B.Lit(" set "), B.Sub(exprs)]
  }

  lemma UpdateNest(st: B.Style, comments: Node, table: Node, exprs: Node, x: string)
    ensures Nest(st, UpdateSegs(comments, table, exprs), x) ==
            "update " + (Text(st, comments) + (Text(st, table) + (" set " + (Text(st, exprs) + x))))
  {
    FiveNest(st, "update ", comments, table, " set ", exprs, x);
  }

  lemma FiveNest(st: B.Style, a: string, b: Node, c: Node, d: string, e: Node, x: string)
    ensures Nest(st, [B.Lit(a), B.Sub(b), B.Sub(c), B.Lit(d), B.Sub(e)], x) ==
            a + (Text(st, b) + (Text(st, c) + (d + (Text(st, e) + x))))
  {
    Nest5(st, B.Lit(a), B.Sub(b), B.Sub(c), B.Lit(d), B.Sub(e), x);
  }

  lemma UpdateText(st: B.Style, n: Node, tail: string)
    requires n.Update?
    ensures Text(st, n) + tail ==
            Nest(st, UpdateSegs(n.comments, n.table, n.exprs), ClosingText(st, n.where, n.orderBy, n.limit, tail))
  {
    var closing := [B.Sub(n.where), B.Sub(n.orderBy), B.Sub(n.limit)];
    assert B.Layout(st, n) == UpdateSegs(n.comments, n.table, n.exprs) + closing;
    TextIs(st, n, tail);
    NestAppend(st, UpdateSegs(n.comments, n.table, n.exprs), closing, tail);
    ClosingNest(st, n.where, n.orderBy, n.limit, tail);
  }

  lemma AssignsText(st: B.Style, ns: seq<Node>, tail: string)
    requires ns != []
    ensures Text(st, UpdateExprs(ns)) + tail == Text(st, ns[0]) + More(st, ns[1..], tail)
  {
    ListText(st, UpdateExprs(ns), ns, tail);
  }

  lemma SetRead(table: Node, s: string, exprs: seq<Node>, rest: string, where: Node, orderBy: Node, limit: Node,
                tail: string)
    requires ReadItems(Assigns, s) == Items(exprs, rest) && ReadClosing(rest) == Closing(where, orderBy, limit, tail)
    ensures ReadSet(table, s) == Read(Node.Update(Comments([]), table, UpdateExprs(exprs), where, orderBy, limit), tail)
  {
  }

  lemma SetReads(st: B.Style, n: Node, tail: string)
    requires Reserves(st) && IsUpdate(st, n) && Closes(tail)
    ensures ReadSet(n.table, " " + (Text(st, n.exprs) + ClosingText(st, n.where, n.orderBy, n.limit, tail))) ==
            Read(n, tail)
  {
    var rest := ClosingText(st, n.where, n.orderBy, n.limit, tail);
    ClosingReads(st, n.where, n.orderBy, n.limit, tail);
    AssignsText(st, n.exprs.items, rest);
    ItemsRead(st, Assigns, n.exprs.items, " ", rest);
    SetRead(n.table, " " + (Text(st, n.exprs) + rest), n.exprs.items, rest, n.where, n.orderBy, n.limit, tail);
  }

  lemma SetFound(table: Node, s: string, x: string)
    requires ReadTable(s) == Read(table, " set " + x)
    ensures ReadUpdate(s) == ReadSet(table, " " + x)
  {
    assert IsWords("set");
    Spaced(" set ", "set", x);
  }

  lemma UpdateFound(x: string)
    ensures ReadStatement("update " + x) == ReadUpdate(" " + x)
  {
    assert IsWords("update");
    WordThen("", "update ", "update", x);
    assert "" + ("update " + x) == "update " + x;
  }

  lemma UpdateHead(st: B.Style, table: Node, x: string)
    requires IsTableName(table)
    ensures ReadStatement("update " + (Text(st, table) + (" set " + x))) == ReadSet(table, " " + x)
  {
    TableReads(st, table, " set " + x);
    SetFound(table, " " + (Text(st, table) + (" set " + x)), x);
    UpdateFound(Text(st, table) + (" set " + x));
  }

  lemma UpdateReads(st: B.Style, n: Node, tail: string)
    requires Reserves(st) && IsUpdate(st, n) && Closes(tail)
    ensures ReadStatement(Text(st, n) + tail) == Read(n, tail)
  {
    var x := Text(st, n.exprs) + ClosingText(st, n.where, n.orderBy, n.limit, tail);
    UpdateText(st, n, tail);
    UpdateNest(st, n.comments, n.table, n.exprs, ClosingText(st, n.where, n.orderBy, n.limit, tail));
    NoComments(st, n.comments, Text(st, n.table) + (" set " + x));
    UpdateHead(st, n.table, x);
    SetReads(st, n, tail);
  }

  // ---------------------------------------------------------------- SELECT

  predicate IsGroupBy(st: B.Style, n: Node) { n.GroupBy? && AreItems(st, Operands, n.items) }

  predicate IsSelect(st: B.Style, n: Node) {
    && n.Select? && n.comments == Comments([]) && (n.distinct == "" || n.distinct == "distinct ")
    && n.selectExprs.SelectExprs? && n.selectExprs.items != [] && AreItems(st, Exprs, n.selectExprs.items)
    && IsFrom(st, n.from) && IsWhere(st, "where", n.where) && IsGroupBy(st, n.groupBy)
    && IsWhere(st, "having", n.having) && IsOrderBy(st, n.orderBy) && IsLimit(n.limit) && n.lock in LOCKS
  }

  /** ORDER BY, LIMIT and the lock; HAVING and those; GROUP BY and those; WHERE and those. */
  function LastText(st: B.Style, orderBy: Node, limit: Node, lock: string, tail: string): string {
    Text(st, orderBy) + (Text(st, limit) + (lock + tail))
  }

  function FilterText(st: B.Style, where: Node, groupBy: Node, having: Node, x: string): string {
    Text(st, where) + (Text(st, groupBy) + (Text(st, having) + x))
  }

  const LOCKING: set<string> := {"", "for", "lock"}

  lemma SelectWords()
    ensures "order" !in LOCKING && "as" !in LOCKING && "limit" !in LOCKING
    ensures var ws := LOCKING + {"limit"} + {"order"};
            && "having" !in ws && "group" !in ws && "where" !in ws && "as" !in ws && "and" !in ws && "or" !in ws
    ensures var hs := {"having", "group", "where"};
            && "as" !in hs && "and" !in hs && "or" !in hs
            && "having" != "group" && "having" != "where" && "group" != "where"
  {
  }

  lemma GroupedRead(distinct: string, exprs: Node, from: Node, where: Node, groupBy: Node, s: string,
                    having: Node, rest: string, orderBy: Node, limit: Node, rest': string, lock: string, tail: string)
    requires ReadWhere("having", s) == Read(having, rest)
    requires ReadLimits(having, rest) == Closing(having, orderBy, limit, rest') && ReadLock(rest') == (lock, tail)
    ensures ReadGrouped(distinct, exprs, from, where, groupBy, s) ==
            Read(Node.Select(Comments([]), distinct, exprs, from, where, groupBy, having, orderBy, limit, lock), tail)
  {
  }

  lemma LastReads(st: B.Style, having: Node, orderBy: Node, limit: Node, lock: string, tail: string)
    requires Reserves(st) && IsOrderBy(st, orderBy) && IsLimit(limit) && lock in LOCKS && Closes(tail)
    ensures var s := LastText(st, orderBy, limit, lock, tail);
            && ReadLimits(having, s) == Closing(having, orderBy, limit, lock + tail)
            && Opens(s, LOCKING + {"limit"} + {"order"}) && ReadLock(lock + tail) == (lock, tail)
  {
    LockReads(lock, tail);
    SelectWords();
    LimitsReads(st, having, orderBy, limit, lock + tail, LOCKING);
  }

  /** What HAVING, GROUP BY and WHERE are followed by. */
  predicate AtHaving(s: string) { Opens(s, LOCKING + {"limit"} + {"order"} + {"having"}) }

  predicate AtGroup(s: string) { Opens(s, LOCKING + {"limit"} + {"order"} + {"having"} + {"group"}) }

  lemma HavingReads(st: B.Style, having: Node, s: string)
    requires Reserves(st) && IsWhere(st, "having", having) && Opens(s, LOCKING + {"limit"} + {"order"})
    ensures ReadWhere("having", Text(st, having) + s) == Read(having, s) && AtHaving(Text(st, having) + s)
  {
    ClauseWords();
    SelectWords();
    WhereReads(st, "having", having, s, LOCKING + {"limit"} + {"order"});
  }

  lemma GroupReads(st: B.Style, groupBy: Node, s: string)
    requires Reserves(st) && IsGroupBy(st, groupBy) && AtHaving(s)
    ensures ReadBy("group", Operands, Text(st, groupBy) + s) == Items(groupBy.items, s)
    ensures AtGroup(Text(st, groupBy) + s)
  {
    ClauseWords();
    SelectWords();
    GroupText(st, groupBy.items, s);
    ByReads(st, "group", Operands, " group by ", groupBy.items, s, LOCKING + {"limit"} + {"order"} + {"having"});
  }

  lemma FilteredReads(st: B.Style, where: Node, s: string)
    requires Reserves(st) && IsWhere(st, "where", where) && AtGroup(s)
    ensures ReadWhere("where", Text(st, where) + s) == Read(where, s)
    ensures Ends(Text(st, where) + s) && WordAt(Text(st, where) + s) != "as"
  {
    ClauseWords();
    SelectWords();
    WhereReads(st, "where", where, s, LOCKING + {"limit"} + {"order"} + {"having"} + {"group"});
  }

  lemma FilterRead(distinct: string, exprs: Node, from: Node, s: string, where: Node, rest: string,
                   groups: seq<Node>, rest': string)
    requires ReadWhere("where", s) == Read(where, rest) && ReadBy("group", Operands, rest) == Items(groups, rest')
    ensures ReadFilter(distinct, exprs, from, s) == ReadGrouped(distinct, exprs, from, where, GroupBy(groups), rest')
  {
  }

  /** From WHERE on. */
  lemma FilterReads(st: B.Style, n: Node, tail: string)
    requires Reserves(st) && IsSelect(st, n) && Closes(tail)
    ensures var s := FilterText(st, n.where, n.groupBy, n.having, LastText(st, n.orderBy, n.limit, n.lock, tail));
            && ReadFilter(n.distinct, n.selectExprs, n.from, s) == Read(n, tail)
            && Ends(s) && WordAt(s) != "as"
  {
    var last := LastText(st, n.orderBy, n.limit, n.lock, tail);
    LastReads(st, n.having, n.orderBy, n.limit, n.lock, tail);
    HavingReads(st, n.having, last);
    var h := Text(st, n.having) + last;
    GroupReads(st, n.groupBy, h);
    var g := Text(st, n.groupBy) + h;
    FilteredReads(st, n.where, g);
    FilterRead(n.distinct, n.selectExprs, n.from, Text(st, n.where) + g, n.where, g, n.groupBy.items, h);
    GroupedRead(n.distinct, n.selectExprs, n.from, n.where, n.groupBy, h,
                n.having, last, n.orderBy, n.limit, n.lock + tail, n.lock, tail);
  }

  lemma FromRead(distinct: string, exprs: Node, s: string, table: Node, rest: string, alias: Option<string>, rest': string)
    requires ReadTable(s) == Read(table, rest) && ReadAlias(rest) == (alias, rest')
    ensures ReadFrom(distinct, exprs, s) ==
            ReadFilter(distinct, exprs, TableExprs([AliasedTableExpr(table, alias, None)]), rest')
  {
  }

  lemma FromReads(st: B.Style, distinct: string, exprs: Node, from: Node, x: string)
    requires IsFrom(st, from) && Ends(x) && WordAt(x) != "as"
    ensures ReadFrom(distinct, exprs, " " + (Text(st, from) + x)) == ReadFilter(distinct, exprs, from, x)
  {
    var item := from.items[0];
    FromText(st, from, x);
    AliasTailReads(item.alias, x);
    TableReads(st, item.expr, AliasTail(item.alias, x));
    FromRead(distinct, exprs, " " + (Text(st, from) + x), item.expr, AliasTail(item.alias, x), item.alias, x);
    assert from.items == [item];
  }

  lemma ExprsText(st: B.Style, ns: seq<Node>, tail: string)
    requires ns != []
    ensures Text(st, SelectExprs(ns)) + tail == Text(st, ns[0]) + More(st, ns[1..], tail)
  {
    ListText(st, SelectExprs(ns), ns, tail);
  }

  /** No select list begins with the word `distinct`. */
  lemma ExprWord(st: B.Style, n: Node, tail: string)
    requires Reserves(st) && IsItem(st, Exprs, n) && Ends(tail)
    ensures WordAt(" " + (Text(st, n) + tail)) != "distinct"
  {
    if n.StarExpr? {
      StarReads(st, n, " ", tail);
    } else {
      NonStarText(st, n.expr, n.alias, tail);
      OperandWord(st, n.expr, " ", AliasTail(n.alias, tail));
    }
  }

  lemma DistinctFound(distinct: string, x: string)
    requires (distinct == "" || distinct == "distinct ") && WordAt(" " + x) != "distinct"
    ensures var s := " " + (distinct + x);
            && (WordAt(s) == "distinct" <==> distinct == "distinct ")
            && (if WordAt(s) == "distinct" then AfterWord(s) else s) == " " + x
  {
    if distinct == "" {
      assert distinct + x == x;
    } else {
      assert IsWords("distinct");
      WordThen(" ", distinct, "distinct", x);
    }
  }

  lemma SelectRead(s: string, distinct: string, s': string, exprs: seq<Node>, rest: string)
    requires distinct == (if WordAt(s) == "distinct" then "distinct " else "")
    requires s' == (if WordAt(s) == "distinct" then AfterWord(s) else s)
    requires ReadItems(Exprs, s') == Items(exprs, rest) && WordAt(rest) == "from"
    ensures ReadSelect(s) == ReadFrom(distinct, SelectExprs(exprs), AfterWord(rest))
  {
  }

  /** After the word SELECT, up to FROM. */
  lemma ExprsRead(st: B.Style, distinct: string, ns: seq<Node>, x: string)
    requires Reserves(st) && ns != [] && AreItems(st, Exprs, ns) && (distinct == "" || distinct == "distinct ")
    ensures ReadSelect(" " + (distinct + (Text(st, SelectExprs(ns)) + (" from " + x)))) ==
            ReadFrom(distinct, SelectExprs(ns), " " + x)
  {
    var rest := " from " + x;
    FromOpens(x);
    ExprsText(st, ns, rest);
    FirstExpr(st, ns, rest);
    ItemsRead(st, Exprs, ns, " ", rest);
    var e := Text(st, SelectExprs(ns)) + rest;
    DistinctFound(distinct, e);
    SelectRead(" " + (distinct + e), distinct, " " + e, ns, rest);
  }

  lemma FromOpens(x: string)
    ensures EndsList(" from " + x) && WordAt(" from " + x) == "from" && AfterWord(" from " + x) == " " + x
  {
    assert IsWords("from");
    SpacedOpens(" from ", "from", x);
  }

  lemma MoreEnds(st: B.Style, ns: seq<Node>, tail: string)
    requires EndsList(tail)
    ensures Ends(More(st, ns, tail))
  {
    if ns != [] { ListedText(st, ns, ", ", tail); }
  }

  lemma FirstExpr(st: B.Style, ns: seq<Node>, tail: string)
    requires Reserves(st) && ns != [] && AreItems(st, Exprs, ns) && EndsList(tail)
    ensures WordAt(" " + (Text(st, ns[0]) + More(st, ns[1..], tail))) != "distinct"
  {
    MoreEnds(st, ns[1..], tail);
    ExprWord(st, ns[0], More(st, ns[1..], tail));
  }

  lemma SelectFound(x: string)
    ensures ReadStatement("select " + x) == ReadSelect(" " + x)
  {
    assert IsWords("select");
    WordThen("", "select ", "select", x);
    assert "" + ("select " + x) == "select " + x;
  }

  function SelectSegs(comments: Node, distinct: string, exprs: Node): seq<B.Seg> {
    [B.Lit("select "), B.Sub(comments), B.Str(distinct), B.Sub(exprs)]
  }

  function FromSegs(from: Node): seq<B.Seg> { [B.Lit(" from "), B.Sub(from)] }

  lemma SelectNest(st: B.Style, comments: Node, distinct: string, exprs: Node, x: string)
    ensures Nest(st, SelectSegs(comments, distinct, exprs), x) ==
            "select " + (Text(st, comments) + (distinct + (Text(st, exprs) + x)))
  {
    Nest4(st, B.Lit("select "), B.Sub(comments), B.Str(distinct), B.Sub(exprs), x);
  }

  lemma FromNest(st: B.Style, from: Node, x: string)
    ensures Nest(st, FromSegs(from), x) == " from " + (Text(st, from) + x)
  {
    assert FromSegs(from)[1..] == [B.Sub(from)];
    Nest1(st, B.Sub(from), x);
  }

  lemma FilterNest(st: B.Style, where: Node, groupBy: Node, having: Node, x: string)
    ensures Nest(st, [B.Sub(where), B.Sub(groupBy), B.Sub(having)], x) == FilterText(st, where, groupBy, having, x)
  {
    Nest3(st, B.Sub(where), B.Sub(groupBy), B.Sub(having), x);
  }

  lemma LastNest(st: B.Style, orderBy: Node, limit: Node, lock: string, tail: string)
    ensures Nest(st, [B.Sub(orderBy), B.Sub(limit), B.Str(lock)], tail) == LastText(st, orderBy, limit, lock, tail)
  {
    Nest3(st, B.Sub(orderBy), B.Sub(limit), B.Str(lock), tail);
  }

  lemma FourParts(st: B.Style, a: seq<B.Seg>, b: seq<B.Seg>, c: seq<B.Seg>, d: seq<B.Seg>, tail: string)
    ensures Nest(st, a + b + c + d, tail) == Nest(st, a, Nest(st, b, Nest(st, c, Nest(st, d, tail))))
  {
    NestAppend(st, a + b + c, d, tail);
    NestAppend(st, a + b, c, Nest(st, d, tail));
    NestAppend(st, a, b, Nest(st, c, Nest(st, d, tail)));
  }

  lemma SelectLayout(st: B.Style, n: Node)
    requires n.Select? && !st.impossible
    ensures B.Layout(st, n) ==
            SelectSegs(n.comments, n.distinct, n.selectExprs) + FromSegs(n.from) +
            [B.Sub(n.where), B.Sub(n.groupBy), B.Sub(n.having)] + [B.Sub(n.orderBy), B.Sub(n.limit), B.Str(n.lock)]
  {
  }

  lemma SelectText(st: B.Style, n: Node, tail: string)
    requires n.Select? && !st.impossible
    ensures Text(st, n) + tail ==
            Nest(st, SelectSegs(n.comments, n.distinct, n.selectExprs), Nest(st, FromSegs(n.from),
              FilterText(st, n.where, n.groupBy, n.having, LastText(st, n.orderBy, n.limit, n.lock, tail))))
  {
    var last := LastText(st, n.orderBy, n.limit, n.lock, tail);
    TextIs(st, n, tail);
    SelectLayout(st, n);
    FourParts(st, SelectSegs(n.comments, n.distinct, n.selectExprs), FromSegs(n.from),
              [B.Sub(n.where), B.Sub(n.groupBy), B.Sub(n.having)], [B.Sub(n.orderBy), B.Sub(n.limit), B.Str(n.lock)], tail);
    LastNest(st, n.orderBy, n.limit, n.lock, tail);
    FilterNest(st, n.where, n.groupBy, n.having, last);
  }

  lemma SelectReads(st: B.Style, n: Node, tail: string)
    requires Reserves(st) && !st.impossible && IsSelect(st, n) && Closes(tail)
    ensures ReadStatement(Text(st, n) + tail) == Read(n, tail)
  {
    var filter := FilterText(st, n.where, n.groupBy, n.having, LastText(st, n.orderBy, n.limit, n.lock, tail));
    var x := n.distinct + (Text(st, n.selectExprs) + (" from " + (Text(st, n.from) + filter)));
    SelectText(st, n, tail);
    FromNest(st, n.from, filter);
    SelectNest(st, n.comments, n.distinct, n.selectExprs, " from " + (Text(st, n.from) + filter));
    NoComments(st, n.comments, x);
    SelectFound(x);
    ExprsRead(st, n.distinct, n.selectExprs.items, Text(st, n.from) + filter);
    FilterReads(st, n, tail);
    FromReads(st, n.distinct, n.selectExprs, n.from, filter);
  }

  /** The statements that are read back: SELECT, UPDATE and DELETE on one table. */
  predicate IsStatement(st: B.Style, n: Node) { IsSelect(st, n) || IsUpdate(st, n) || IsDelete(st, n) }

  /** The text printed for a statement is read as that statement, whatever can follow it. */
  lemma StatementReadsBack(st: B.Style, n: Node, tail: string)
    requires Reserves(st) && !st.impossible && IsStatement(st, n) && Closes(tail)
    ensures ReadStatement(B.Rendered(B.NodePieces(st, n)) + tail) == Read(n, tail)
  {
    if n.Select? {
      SelectReads(st, n, tail);
    } else if n.Update? {
      UpdateReads(st, n, tail);
    } else {
      DeleteReads(st, n, tail);
    }
  }

  /** So two statements with the same text are the same statement. */
  lemma SameTextSameStatement(st: B.Style, n: Node, m: Node)
    requires Reserves(st) && !st.impossible && IsStatement(st, n) && IsStatement(st, m)
    ensures B.Rendered(B.NodePieces(st, n)) == B.Rendered(B.NodePieces(st, m)) <==> n == m
  {
    StatementReadsBack(st, n, "");
    StatementReadsBack(st, m, "");
  }

  // ---------------------------------------------------------------- a SELECT that finds nothing

  function Never(): Node { Where("where", Some(ComparisonExpr("!=", NumVal("1"), NumVal("1")))) }

  /** The same columns of the same table, under a condition that never holds. */
  function Emptied(n: Node): Node
    requires n.Select?
  {
    Node.Select(Comments([]), "", n.selectExprs, n.from, Never(), GroupBy([]), Where("having", None), OrderBy([]),
                NoLimit, "")
  }

  lemma OneText(st: B.Style, one: Node, x: string)
    requires one == NumVal("1")
    ensures Text(st, one) + x == "1" + x
  {
    Text1(st, one, B.Str("1"), x);
  }

  lemma NeverText(st: B.Style, x: string)
    ensures Text(st, Never()) + x == " where 1 != 1" + x
  {
    var one := NumVal("1");
    var y := " " + ("!=" + (" " + ("1" + x)));
    WhereText(st, "where", ComparisonExpr("!=", one, one), x);
    ComparisonText(st, "!=", one, one, x);
    OneText(st, one, x);
    OneText(st, one, y);
    NeverSpelled(x);
  }

  lemma NeverSpelled(x: string)
    ensures " " + ("where" + (" " + ("1" + (" " + ("!=" + (" " + ("1" + x))))))) == " where 1 != 1" + x
  {
  }

  lemma AbsentText(st: B.Style, n: Node, x: string)
    requires B.Layout(st, n) == []
    ensures Text(st, n) + x == x
  {
    TextIs(st, n, x);
  }

  lemma OnlyWhere(st: B.Style, where: Node, groupBy: Node, having: Node, orderBy: Node, limit: Node, x: string)
    requires Text(st, groupBy) + x == Text(st, having) + x == Text(st, orderBy) + x == Text(st, limit) + x == x
    ensures FilterText(st, where, groupBy, having, LastText(st, orderBy, limit, "", x)) == Text(st, where) + x
  {
    assert "" + x == x;
  }

  lemma EmptiedText(st: B.Style, n: Node, x: string)
    requires n.Select?
    ensures FilterText(st, Emptied(n).where, Emptied(n).groupBy, Emptied(n).having,
              LastText(st, Emptied(n).orderBy, Emptied(n).limit, Emptied(n).lock, x)) == " where 1 != 1" + x
  {
    NeverText(st, x);
    AbsentText(st, GroupBy([]), x);
    AbsentText(st, Where("having", None), x);
    AbsentText(st, OrderBy([]), x);
    AbsentText(st, NoLimit, x);
    OnlyWhere(st, Never(), GroupBy([]), Where("having", None), OrderBy([]), NoLimit, x);
  }

  lemma ImpossibleText(st: B.Style, n: Node, exprs: Node, from: Node, tail: string)
    requires st.impossible && n.Select? && n.selectExprs == exprs && n.from == from
    ensures Text(st, n) + tail == "select " + (Text(st, exprs) + (" from " + (Text(st, from) + (" where 1 != 1" + tail))))
  {
    Text5(st, n, B.Lit("select "), B.Sub(exprs), B.Lit(" from "), B.Sub(from), B.Lit(" where 1 != 1"), tail);
  }

  lemma EmptiedIsSelect(st: B.Style, n: Node)
    requires IsSelect(st, n)
    ensures IsSelect(st, Emptied(n))
  {
    var one := NumVal("1");
    assert IsOperand(one);
    assert IsCondition(st, ComparisonExpr("!=", one, one));
  }

  lemma PlainSelect(exprs: string)
    ensures ReadStatement("select " + exprs) == ReadSelect(" " + ("" + exprs))
  {
    SelectFound(exprs);
    assert "" + exprs == exprs;
  }

  /** FormatImpossible prints a SELECT whose text asks for the same columns of the same table where 1 is not 1. */
  lemma ImpossibleReadsBack(st: B.Style, n: Node, tail: string)
    requires Reserves(st) && st.impossible && IsSelect(st, n) && Closes(tail)
    ensures ReadStatement(B.Rendered(B.NodePieces(st, n)) + tail) == Read(Emptied(n), tail)
  {
    var m, never := Emptied(n), " where 1 != 1" + tail;
    ImpossibleText(st, n, n.selectExprs, n.from, tail);
    PlainSelect(Text(st, n.selectExprs) + (" from " + (Text(st, n.from) + never)));
    ExprsRead(st, "", n.selectExprs.items, Text(st, n.from) + never);
    EmptiedIsSelect(st, n);
    FilterReads(st, m, tail);
    EmptiedText(st, n, tail);
    FromReads(st, "", n.selectExprs, n.from, never);
  }
}
