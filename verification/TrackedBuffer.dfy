/** Formatting a syntax tree while recording where its bind variables stand, and substituting values
    there later (sqlparser/tracked_buffer.go, sqlparser/parsed_query.go, the Format methods of
    sqlparser/ast.go, and FormatImpossible of planbuilder/query_gen.go). */
module TrackedBuffer {
  import opened Wrappers
  import opened Ast
  import opened Sequences
  import T = Tokenizer

  // ---------------------------------------------------------------- layouts

  /** What a Format method prints, in order: fixed text, a `%s`, a `%c`, a `%v` child, or a bind
      variable. */
  datatype Seg = Lit(text: string) | Str(text: string) | Chr(c: char) | Sub(node: Node) | Arg(name: string)

  /** Formatting settings: the keyword table, and whether selects get an impossible WHERE. */
  datatype Style = Style(keywords: set<string>, impossible: bool)

  /** Items with `first` before the first one and `sep` before the others. */
  function Listed(items: seq<Node>, first: string, sep: string): (r: seq<Seg>)
    ensures forall s :: s in r && s.Sub? ==> s.node in items
    ensures forall s :: s in r ==> !s.Lit?
  {
    if items == [] then [] else [Str(first), Sub(items[0])] + Listed(items[1..], sep, sep)
  }

  function Texts(items: seq<string>, first: string, sep: string): (r: seq<Seg>)
    ensures forall s :: s in r ==> s.Str?
  {
    if items == [] then [] else [Str(first), Str(items[0])] + Texts(items[1..], sep, sep)
  }

  function Escape(st: Style, name: string): (r: seq<Seg>)
    ensures forall s :: s in r ==> !s.Sub?
  {
    if name in st.keywords then [Lit("`"), Str(name), Lit("`")] else [Str(name)]
  }

  function Qualified(st: Style, name: string, qualifier: Option<string>): (r: seq<Seg>)
    ensures forall s :: s in r ==> !s.Sub?
  {
    (if qualifier.Some? then Escape(st, qualifier.value) + [Lit(".")] else []) + Escape(st, name)
  }

  function Maybe(before: string, node: Option<Node>, after: string): (r: seq<Seg>)
    ensures forall s :: s in r && s.Sub? ==> node == Some(s.node)
  {
    if node.None? then [] else [Lit(before), Sub(node.value), Lit(after)]
  }

  predicate IsStatement(n: Node) {
    n.Select? || n.Union? || n.Insert? || n.Replace? ||
    n.Update? || n.Delete? || n.Set? || n.SimpleSelect?
  }

  /** Layout of a statement. */
  function StatementLayout(st: Style, n: Node): (r: seq<Seg>)
    requires IsStatement(n)
    ensures forall s :: s in r && s.Sub? ==> s.node < n
  {
    match n
    case Select(comments, distinct, exprs, from, where, groupBy, having, orderBy, limit, lock) =>
      if st.impossible then [Lit("select "), Sub(exprs), Lit(" from "), Sub(from), Lit(" where 1 != 1")]
      else [Lit("select "), Sub(comments), Str(distinct), Sub(exprs), Lit(" from "), Sub(from), Sub(where),
            Sub(groupBy), Sub(having), Sub(orderBy), Sub(limit), Str(lock)]
    case Union(typ, left, right) => [Sub(left), Lit(" "), Str(typ), Lit(" "), Sub(right)]
    case Insert(comments, table, columns, rows, onDup) =>
      [Lit("insert "), Sub(comments), Lit("into "), Sub(table), Sub(columns), Lit(" "), Sub(rows), Sub(onDup)]
    case Replace(comments, table, columns, rows, onDup) =>
      [Lit("replace "), Sub(comments), Lit("into "), Sub(table), Sub(columns), Lit(" "), Sub(rows), Sub(onDup)]
    case Update(comments, table, exprs, where, orderBy, limit) =>
      [Lit("update "), Sub(comments), Sub(table), Lit(" set "), Sub(exprs), Sub(where), Sub(orderBy), Sub(limit)]
    case Delete(comments, table, where, orderBy, limit) =>
      [Lit("delete "), Sub(comments), Lit("from "), Sub(table), Sub(where), Sub(orderBy), Sub(limit)]
    case Set(comments, exprs) => [Lit("set "), Sub(comments), Sub(exprs)]
    case SimpleSelect(comments, distinct, exprs) => [Lit("select "), Sub(comments), Str(distinct), Sub(exprs)]
  }

  predicate IsTable(n: Node) {
    n.TableExprs? || n.AliasedTableExpr? || n.TableName? ||
    n.ParenTableExpr? || n.JoinTableExpr? || n.IndexHints?
  }

  /** Layout of a table expression. */
  function TableLayout(st: Style, n: Node): (r: seq<Seg>)
    requires IsTable(n)
    ensures forall s :: s in r && s.Sub? ==> s.node < n
  {
    match n
    case TableExprs(items) => Listed(items, "", ", ")
    case AliasedTableExpr(expr, alias, hints) =>
      [Sub(expr)] + (if alias.Some? then [Lit(" as "), Str(alias.value)] else []) + Maybe("", hints, "")
    case TableName(name, qualifier) => Qualified(st, name, qualifier)
    case ParenTableExpr(expr) => [Lit("("), Sub(expr), Lit(")")]
    case JoinTableExpr(left, join, right, on) =>
      [Sub(left), Lit(" "), Str(join), Lit(" "), Sub(right)] +
      (if !st.impossible then Maybe(" on ", on, "")
       else if join == "left join" || join == "right join" then [Lit(" on 1 != 1")] else [])
    case IndexHints(typ, indexes) => [Lit(" "), Str(typ), Lit(" index ")] + Texts(indexes, "(", ", ") + [Lit(")")]
  }

  predicate IsList(n: Node) {
    n.Comments? || n.SelectExprs? || n.Columns? || n.GroupBy? ||
    n.OrderBy? || n.Values? || n.UpdateExprs? || n.OnDup? || n.ValTuple?
  }

  /** Layout of a list. */
  function ListLayout(st: Style, n: Node): (r: seq<Seg>)
    requires IsList(n)
    ensures forall s :: s in r && s.Sub? ==> s.node < n
  {
    match n
    case Comments(lines) => Texts(Spaced(lines), "", "")
    case SelectExprs(items) => Listed(items, "", ", ")
    case Columns(items) => if items == [] then [] else [Lit("(")] + Listed(items, "", ", ") + [Lit(")")]
    case GroupBy(items) => Listed(items, " group by ", ", ")
    case OrderBy(items) => Listed(items, " order by ", ", ")
    case Values(items) => Listed(items, "values ", ", ")
    case UpdateExprs(items) => Listed(items, "", ", ")
    case OnDup(items) => if items == [] then [] else [Lit(" on duplicate key update ")] + Listed(items, "", ", ")
    case ValTuple(items) => [Lit("(")] + Listed(items, "", ", ") + [Lit(")")]
  }

  predicate IsClause(n: Node) {
    n.StarExpr? || n.NonStarExpr? || n.Where? || n.Order? ||
    n.NoLimit? || n.Limit? || n.UpdateExpr? || n.Keyword?
  }

  /** Layout of a clause or an item of one. */
  function ClauseLayout(st: Style, n: Node): (r: seq<Seg>)
    requires IsClause(n)
    ensures forall s :: s in r && s.Sub? ==> s.node < n
  {
    match n
    case StarExpr(star) => (if star.Some? then [Str(star.value), Lit(".")] else []) + [Lit("*")]
    case NonStarExpr(expr, alias) => [Sub(expr)] + (if alias.Some? then [Lit(" as "), Str(alias.value)] else [])
    case Where(typ, cond) => if cond.None? then [] else [Lit(" "), Str(typ), Lit(" "), Sub(cond.value)]
    case Order(expr, direction) => [Sub(expr), Lit(" "), Str(direction)]
    case NoLimit => []
    case Limit(offset, rowcount) => [Lit(" limit ")] + Maybe("", offset, ", ") + [Sub(rowcount)]
    case UpdateExpr(column, expr) => [Sub(column), Lit(" = "), Sub(expr)]
    case Keyword(text) => [Str(text)]
  }

  predicate IsBool(n: Node) {
    n.AndExpr? || n.OrExpr? || n.NotExpr? || n.ParenBoolExpr? ||
    n.ComparisonExpr? || n.RangeCond? || n.NullCheck? || n.ExistsExpr?
  }

  /** Layout of a boolean expression. */
  function BoolLayout(st: Style, n: Node): (r: seq<Seg>)
    requires IsBool(n)
    ensures forall s :: s in r && s.Sub? ==> s.node < n
  {
    match n
    case AndExpr(left, right) => [Sub(left), Lit(" and "), Sub(right)]
    case OrExpr(left, right) => [Sub(left), Lit(" or "), Sub(right)]
    case NotExpr(expr) => [Lit("not "), Sub(expr)]
    case ParenBoolExpr(expr) => [Lit("("), Sub(expr), Lit(")")]
    case ComparisonExpr(op, left, right) => [Sub(left), Lit(" "), Str(op), Lit(" "), Sub(right)]
    case RangeCond(op, left, lo, hi) => [Sub(left), Lit(" "), Str(op), Lit(" "), Sub(lo), Lit(" and "), Sub(hi)]
    case NullCheck(op, expr) => [Sub(expr), Lit(" "), Str(op)]
    case ExistsExpr(subquery) => [Lit("exists "), Sub(subquery)]
  }

  function CaseSegs(subject: Option<Node>, whens: seq<Node>, otherwise: Option<Node>): (r: seq<Seg>)
    ensures forall s :: s in r && s.Sub? ==> subject == Some(s.node) || otherwise == Some(s.node) || s.node in whens
  {
    [Lit("case ")] + Maybe("", subject, " ") + SpacedNodes(whens) + Maybe("else ", otherwise, " ") + [Lit("end")]
  }

  predicate IsCompound(n: Node) { n.FuncExpr? || n.CaseExpr? || n.When? }

  /** Layout of a function call or a CASE expression. */
  function CompoundLayout(st: Style, n: Node): (r: seq<Seg>)
    requires IsCompound(n)
    ensures forall s :: s in r && s.Sub? ==> s.node < n
  {
    match n
    case FuncExpr(name, distinct, exprs) =>
      [Str(name), Lit("("), Str(if distinct then "distinct " else ""), Sub(exprs), Lit(")")]
    case CaseExpr(subject, whens, otherwise) =>
      CaseSegs(subject, whens, otherwise)
    case When(test, val) => [Lit("when "), Sub(test), Lit(" then "), Sub(val)]
  }

  /** Layout of a value expression. */
  function ValueLayout(st: Style, n: Node): (r: seq<Seg>)
    requires !IsStatement(n) && !IsTable(n) && !IsList(n) && !IsClause(n) && !IsBool(n) && !IsCompound(n)
    ensures forall s :: s in r && s.Sub? ==> s.node < n
  {
    match n
    case StrVal(text) => [Str(T.Quoted(text))]
    case NumVal(text) => [Str(text)]
    case ValArg(arg) => [Arg(arg)]
    case ListArg(arg) => [Arg(arg)]
    case NullVal => [Lit("null")]
    case ColName(name, qualifier) => Qualified(st, name, qualifier)
    case Subquery(select) => [Lit("("), Sub(select), Lit(")")]
    case BinaryExpr(operator, left, right) => [Sub(left), Chr(operator), Sub(right)]
    case UnaryExpr(operator, expr) => [Chr(operator), Sub(expr)]
  }

  /** What each node prints; only children of the node are printed inside it. */
  function Layout(st: Style, n: Node): (r: seq<Seg>)
    ensures forall s :: s in r && s.Sub? ==> s.node < n
  {
    if IsStatement(n) then StatementLayout(st, n)
    else if IsTable(n) then TableLayout(st, n)
    else if IsList(n) then ListLayout(st, n)
    else if IsClause(n) then ClauseLayout(st, n)
    else if IsBool(n) then BoolLayout(st, n)
    else if IsCompound(n) then CompoundLayout(st, n)
    else ValueLayout(st, n)
  }

  function Spaced(lines: seq<string>): seq<string> {
    seq(|lines|, (i: nat) requires i < |lines| => lines[i] + " ")
  }

  function SpacedNodes(items: seq<Node>): (r: seq<Seg>)
    ensures forall s :: s in r && s.Sub? ==> s.node in items
    ensures forall s :: s in r && s.Lit? ==> s.text == " "
  {
    if items == [] then [] else [Sub(items[0]), Lit(" ")] + SpacedNodes(items[1..])
  }

  // ---------------------------------------------------------------- tracked text

  /** Formatted text, character by character, with its bind variables kept whole. */
  datatype Piece = Ch(c: char) | Bind(name: string)

  datatype BindLocation = BindLocation(offset: nat, length: nat)

  function Chars(text: string): (r: seq<Piece>)
    ensures |r| == |text| && forall i :: 0 <= i < |text| ==> r[i] == Ch(text[i])
  {
    seq(|text|, (i: nat) requires i < |text| => Ch(text[i]))
  }

  ghost predicate Below(segs: seq<Seg>, n: Node) { forall s :: s in segs && s.Sub? ==> s.node < n }

  function NodePieces(st: Style, n: Node): seq<Piece>
    decreases n, |Layout(st, n)| + 1
  {
    SegPieces(st, Layout(st, n), n)
  }

  /** What one segment of the layout of `n` prints. */
  function SegPiece(st: Style, s: Seg, ghost n: Node): seq<Piece>
    requires s.Sub? ==> s.node < n
    decreases n, 0
  {
    match s
    case Lit(text) => Chars(text)
    case Str(text) => Chars(text)
    case Chr(c) => [Ch(c)]
    case Sub(node) => NodePieces(st, node)
    case Arg(name) => [Bind(name)]
  }

  function SegPieces(st: Style, segs: seq<Seg>, ghost n: Node): seq<Piece>
    requires Below(segs, n)
    decreases n, |segs|
  {
    if segs == [] then [] else SegPiece(st, segs[0], n) + SegPieces(st, segs[1..], n)
  }

  function PieceText(p: Piece): string { if p.Ch? then [p.c] else p.name }

  function Rendered(pieces: seq<Piece>): string {
    if pieces == [] then "" else PieceText(pieces[0]) + Rendered(pieces[1..])
  }

  /** Where the bind variables of some pieces stand, when their text begins at `base`. */
  function Locations(pieces: seq<Piece>, base: nat): seq<BindLocation> {
    if pieces == [] then []
    else (if pieces[0].Bind? then [BindLocation(base, |pieces[0].name|)] else []) +
         Locations(pieces[1..], base + |PieceText(pieces[0])|)
  }

  lemma {:induction false} Appended(a: seq<Piece>, b: seq<Piece>, base: nat)
    ensures Rendered(a + b) == Rendered(a) + Rendered(b)
    ensures Locations(a + b, base) == Locations(a, base) + Locations(b, base + |Rendered(a)|)
  {
    if a == [] {
      assert a + b == b;
    } else {
      assert (a + b)[1..] == a[1..] + b;
      var t := PieceText(a[0]);
      Appended(a[1..], b, base + |t|);
      Assoc(t, Rendered(a[1..]), Rendered(b));
    }
  }

  lemma {:induction false} RenderedChars(text: string, base: nat)
    ensures Rendered(Chars(text)) == text && Locations(Chars(text), base) == []
  {
    if text != "" {
      assert Chars(text)[1..] == Chars(text[1..]);
      RenderedChars(text[1..], base + 1);
      assert [text[0]] + text[1..] == text;
    }
  }

  /** Locations lie inside the text from `lo` to `hi`, one after the other without overlap. */
  predicate InOrder(locs: seq<BindLocation>, lo: nat, hi: nat) {
    && lo <= hi
    && (locs != [] ==>
          var end := locs[0].offset + locs[0].length;
          lo <= locs[0].offset && end <= hi && InOrder(locs[1..], end, hi))
  }

  lemma {:induction false} InOrderAt(locs: seq<BindLocation>, lo: nat, hi: nat, i: nat, j: nat)
    requires InOrder(locs, lo, hi) && i <= j < |locs|
    ensures lo <= locs[i].offset && locs[i].offset + locs[i].length <= hi
    ensures i < j ==> locs[i].offset + locs[i].length <= locs[j].offset
  {
    if i > 0 {
      InOrderAt(locs[1..], locs[0].offset + locs[0].length, hi, i - 1, j - 1);
    } else if j > 0 {
      InOrderAt(locs[1..], locs[0].offset + locs[0].length, hi, j - 1, j - 1);
    }
  }

  /** Every recorded location is in bounds, and locations increase and never overlap. */
  lemma {:induction false} LocationsInOrder(pieces: seq<Piece>, base: nat)
    ensures InOrder(Locations(pieces, base), base, base + |Rendered(pieces)|)
  {
    if pieces != [] {
      var next := base + |PieceText(pieces[0])|;
      LocationsInOrder(pieces[1..], next);
      var locs := Locations(pieces, base);
      if pieces[0].Bind? { assert locs[1..] == Locations(pieces[1..], next); }
      else { assert locs == Locations(pieces[1..], next); InOrderEarlier(locs, base, next, base + |Rendered(pieces)|); }
    }
  }

  lemma InOrderEarlier(locs: seq<BindLocation>, lo: nat, lo': nat, hi: nat)
    requires lo <= lo' && InOrder(locs, lo', hi)
    ensures InOrder(locs, lo, hi)
  {
  }

  // ---------------------------------------------------------------- Myprintf

  /** A segment that is copied from the format string itself. */
  predicate Plain(s: Seg) { s.Lit? && '%' !in s.text }

  function Verb(s: Seg): (r: string)
    ensures !Plain(s) ==> |r| == 2 && r[0] == '%'
  {
    match s
    case Lit(text) => if Plain(s) then text else "%s"
    case Str(_) => "%s"
    case Chr(_) => "%c"
    case Sub(_) => "%v"
    case Arg(_) => "%a"
  }

  /** The format string and the arguments a layout passes to Myprintf. */
  function FormatOf(segs: seq<Seg>): string {
    if segs == [] then "" else Verb(segs[0]) + FormatOf(segs[1..])
  }

  function ArgsOf(segs: seq<Seg>): seq<Seg> {
    if segs == [] then [] else (if Plain(segs[0]) then [] else [segs[0]]) + ArgsOf(segs[1..])
  }

  /** The text up to the first verb, and the segments from it on. */
  function LeadingText(segs: seq<Seg>): (r: string)
    ensures '%' !in r
  {
    if segs == [] || !Plain(segs[0]) then "" else segs[0].text + LeadingText(segs[1..])
  }

  function FromVerb(segs: seq<Seg>): (r: seq<Seg>)
    ensures forall s :: s in r ==> s in segs
    ensures r != [] ==> !Plain(r[0])
    ensures |r| <= |segs|
  {
    if segs == [] || !Plain(segs[0]) then segs else FromVerb(segs[1..])
  }

  lemma {:induction false} SplitFormat(segs: seq<Seg>)
    ensures FormatOf(segs) == LeadingText(segs) + FormatOf(FromVerb(segs)) && ArgsOf(segs) == ArgsOf(FromVerb(segs))
  {
    if segs != [] && Plain(segs[0]) {
      SplitFormat(segs[1..]);
      Assoc(segs[0].text, LeadingText(segs[1..]), FormatOf(FromVerb(segs)));
    }
  }

  lemma CharsConcat(a: string, b: string)
    ensures Chars(a + b) == Chars(a) + Chars(b)
  {
  }

  lemma {:induction false} SplitPieces(st: Style, segs: seq<Seg>, n: Node)
    requires Below(segs, n)
    ensures SegPieces(st, segs, n) == Chars(LeadingText(segs)) + SegPieces(st, FromVerb(segs), n)
    decreases |segs|
  {
    if segs == [] || !Plain(segs[0]) {
      assert Chars("") == [];
    } else {
      SplitPieces(st, segs[1..], n);
      CharsConcat(segs[0].text, LeadingText(segs[1..]));
      Assoc(Chars(segs[0].text), Chars(LeadingText(segs[1..])), SegPieces(st, FromVerb(segs), n));
    }
  }

  lemma VerbStep(st: Style, segs: seq<Seg>, n: Node)
    requires Below(segs, n) && segs != [] && !Plain(segs[0])
    ensures Below([segs[0]], n) && Below(segs[1..], n)
    ensures FormatOf(segs) == Verb(segs[0]) + FormatOf(segs[1..])
    ensures ArgsOf(segs) == [segs[0]] + ArgsOf(segs[1..])
    ensures SegPieces(st, segs, n) == SegPieces(st, [segs[0]], n) + SegPieces(st, segs[1..], n)
  {
    assert segs[0] in segs;
    assert [segs[0]][1..] == [];
  }

  /** A format string with nothing in it prints nothing. */
  lemma EmptyFormat(st: Style, segs: seq<Seg>, n: Node)
    requires Below(segs, n) && FormatOf(segs) == ""
    ensures SegPieces(st, segs, n) == []
  {
    SplitFormat(segs);
    SplitPieces(st, segs, n);
    if FromVerb(segs) != [] { VerbStep(st, FromVerb(segs), n); }
  }

  /** The verb at `i` and its argument, and what is left after them. */
  lemma AtVerb(st: Style, done: seq<Piece>, format: string, i: nat, values: seq<Seg>, f: nat, segs: seq<Seg>, n: Node)
    requires Below(segs, n) && segs != [] && !Plain(segs[0])
    requires i <= |format| && format[i..] == FormatOf(segs) && f <= |values| && values[f..] == ArgsOf(segs)
    ensures Below([segs[0]], n) && Below(segs[1..], n)
    ensures i + 2 <= |format| && format[i + 1] == Verb(segs[0])[1] && format[i + 2..] == FormatOf(segs[1..])
    ensures f < |values| && values[f] == segs[0] && values[f + 1..] == ArgsOf(segs[1..])
    ensures done + SegPieces(st, segs, n) == done + SegPieces(st, [segs[0]], n) + SegPieces(st, segs[1..], n)
  {
    VerbStep(st, segs, n);
    Assoc(done, SegPieces(st, [segs[0]], n), SegPieces(st, segs[1..], n));
    assert format[i..][1] == format[i + 1] && format[i..][2..] == format[i + 2..];
    assert values[f..][0] == values[f] && values[f..][1..] == values[f + 1..];
  }

  /** What stands in the format string between `i` and the next `%` at `j`. */
  lemma AtNextVerb(st: Style, done: seq<Piece>, format: string, i: nat, j: nat, segs: seq<Seg>, n: Node)
    requires Below(segs, n) && i <= j <= |format| && format[i..] == FormatOf(segs)
    requires (forall k :: i <= k < j ==> format[k] != '%') && (j < |format| ==> format[j] == '%')
    ensures var next := FromVerb(segs);
            && done + SegPieces(st, segs, n) == done + Chars(format[i..j]) + SegPieces(st, next, n)
            && format[j..] == FormatOf(next) && ArgsOf(segs) == ArgsOf(next)
            && (next == [] <==> j == |format|)
  {
    var lead, next := LeadingText(segs), FromVerb(segs);
    SplitFormat(segs);
    SplitPieces(st, segs, n);
    if next != [] { VerbStep(st, next, n); }
    FirstPercent(lead, FormatOf(next), format, i, j);
    Assoc(done, Chars(lead), SegPieces(st, next, n));
  }

  /** The scan for `%` stops exactly at the first verb. */
  lemma FirstPercent(lead: string, tail: string, format: string, i: nat, j: nat)
    requires '%' !in lead && (tail != "" ==> tail[0] == '%')
    requires i <= j <= |format| && format[i..] == lead + tail
    requires (forall k :: i <= k < j ==> format[k] != '%') && (j < |format| ==> format[j] == '%')
    ensures format[i..j] == lead && format[j..] == tail
  {
    assert |lead| + |tail| == |format| - i;
    assert forall k :: 0 <= k < |lead| ==> lead[k] == format[i..][k] == format[i + k];
    assert tail != "" ==> format[i..][|lead|] == format[i + |lead|] == '%';
    assert forall k :: i <= k < i + |lead| ==> format[k] in lead;
  }

  datatype ParsedQuery = ParsedQuery(query: string, bindLocations: seq<BindLocation>)

  method NextPercent(format: string, i: nat) returns (j: nat)
    requires i <= |format|
    ensures i <= j <= |format| && (forall k :: i <= k < j ==> format[k] != '%') && (j < |format| ==> format[j] == '%')
  {
    j := i;
    while j < |format| && format[j] != '%'
      invariant i <= j <= |format| && forall k :: i <= k < j ==> format[k] != '%'
    {
      j := j + 1;
    }
  }

  class Buffer {
    const st: Style
    var buf: string
    var bindLocations: seq<BindLocation>
    ghost var pieces: seq<Piece>

    ghost predicate Valid()
      reads this
    {
      buf == Rendered(pieces) && bindLocations == Locations(pieces, 0)
    }

    constructor (st: Style)
      ensures Valid() && pieces == [] && this.st == st
    {
      this.st, buf, bindLocations, pieces := st, "", [], [];
    }

    method WriteString(text: string)
      requires Valid()
      modifies this
      ensures Valid() && pieces == old(pieces) + Chars(text)
    {
      Appended(pieces, Chars(text), 0);
      RenderedChars(text, |buf|);
      buf := buf + text;
      pieces := pieces + Chars(text);
    }

    method WriteArg(arg: string)
      requires Valid()
      modifies this
      ensures Valid() && pieces == old(pieces) + [Bind(arg)]
    {
      Appended(pieces, [Bind(arg)], 0);
      assert Rendered([Bind(arg)]) == arg + "";
      bindLocations := bindLocations + [BindLocation(|buf|, |arg|)];
      buf := buf + arg;
      pieces := pieces + [Bind(arg)];
    }

    /** One verb with its argument. */
    method WriteVerb(verb: char, value: Seg, ghost n: Node)
      requires Valid() && !Plain(value) && Verb(value)[1] == verb && Below([value], n)
      modifies this
      ensures Valid() && pieces == old(pieces) + SegPieces(st, [value], n)
      decreases n, 0
    {
      assert [value][1..] == [];
      match value
      case Lit(text) => WriteString(text);
      case Str(text) => WriteString(text);
      case Chr(c) =>
        WriteString([c]);
        assert Chars([c]) == [Ch(c)];
      case Sub(node) =>
        assert value in [value];
        FormatNode(node);
      case Arg(name) => WriteArg(name);
    }

    /** The text up to the next verb, and that verb with its argument if there is one. */
    method PrintNext(format: string, i: nat, values: seq<Seg>, f: nat, ghost segs: seq<Seg>, ghost n: Node)
      returns (i': nat, f': nat, ghost segs': seq<Seg>)
      requires Valid() && Below(segs, n) && i < |format| && f <= |values|
      requires format[i..] == FormatOf(segs) && values[f..] == ArgsOf(segs)
      modifies this
      ensures Valid() && Below(segs', n) && i < i' <= |format| && f' <= |values|
      ensures format[i'..] == FormatOf(segs') && values[f'..] == ArgsOf(segs')
      ensures pieces + SegPieces(st, segs', n) == old(pieces) + SegPieces(st, segs, n)
      decreases n, 1
    {
      var j := NextPercent(format, i);
      AtNextVerb(st, pieces, format, i, j, segs, n);
      WriteString(format[i..j]);
      segs' := FromVerb(segs);
      if j == |format| {
        return j, f, segs';
      }
      AtVerb(st, pieces, format, j, values, f, segs', n);
      WriteVerb(format[j + 1], values[f], n);
      i', f', segs' := j + 2, f + 1, segs'[1..];
    }

    /** Interprets a format string: text between verbs is copied, each verb takes one argument. */
    method Myprintf(format: string, values: seq<Seg>, ghost segs: seq<Seg>, ghost n: Node)
      requires Valid() && Below(segs, n) && format == FormatOf(segs) && values == ArgsOf(segs)
      modifies this
      ensures Valid() && pieces == old(pieces) + SegPieces(st, segs, n)
      decreases n, 2
    {
      var i, fieldnum := 0, 0;
      ghost var rem, goal := segs, pieces + SegPieces(st, segs, n);
      while i < |format|
        invariant Valid() && Below(rem, n) && 0 <= i <= |format| && 0 <= fieldnum <= |values|
        invariant format[i..] == FormatOf(rem) && values[fieldnum..] == ArgsOf(rem)
        invariant pieces + SegPieces(st, rem, n) == goal
      {
        i, fieldnum, rem := PrintNext(format, i, values, fieldnum, rem, n);
      }
      EmptyFormat(st, rem, n);
    }

    method FormatNode(n: Node)
      requires Valid()
      modifies this
      ensures Valid() && pieces == old(pieces) + NodePieces(st, n)
      decreases n, 3
    {
      var segs := Layout(st, n);
      Myprintf(FormatOf(segs), ArgsOf(segs), segs, n);
    }
  }

  // ---------------------------------------------------------------- substitution

  /** sqltypes.Value. */
  datatype Scalar = Null | Num(digits: string) | Bytes(text: string)

  /** What can be bound: a value, a slice of values or of rows of values, a list, a tuple list, or a type
      no value is built from. */
  datatype BindVal =
    | One(v: Scalar)
    | Row(values: seq<Scalar>)
    | Rows(rows: seq<seq<Scalar>>)
    | List(items: seq<BindVal>)
    | Tuples(columns: seq<string>, rows: seq<seq<Scalar>>)
    | Unsupported

  /** Text written, an error, or an index out of range. */
  datatype Out = Text(text: string) | Fails | Crashes

  /** One output after another; the first that is no text decides. */
  function Concat(a: Out, b: Out): Out {
    if !a.Text? then a else if !b.Text? then b else Text(a.text + b.text)
  }

  function Wrapped(open: string, a: Out, close: string): Out { Concat(Text(open), Concat(a, Text(close))) }

  function SepBy(sep: string, parts: seq<Out>): Out {
    if parts == [] then Text("")
    else if |parts| == 1 then parts[0]
    else Concat(parts[0], Concat(Text(sep), SepBy(sep, parts[1..])))
  }

  function ScalarText(v: Scalar): string {
    match v
    case Null => "null"
    case Num(digits) => digits
    case Bytes(text) => T.Quoted(text)
  }

  function EncodeRow(values: seq<Scalar>): Out {
    SepBy(", ", seq(|values|, (i: nat) requires i < |values| => Text(ScalarText(values[i]))))
  }

  function EncodeValue(v: BindVal): Out {
    match v
    case One(x) => Text(ScalarText(x))
    case Row(values) => EncodeRow(values)
    case Rows(rows) => SepBy(", ", seq(|rows|, (i: nat) requires i < |rows| => Wrapped("(", EncodeRow(rows[i]), ")")))
    case List(items) => Wrapped("(", SepBy(", ", seq(|items|, (i: nat) requires i < |items| => EncodeValue(items[i]))), ")")
    case Tuples(columns, rows) =>
      if rows == [] then Fails
      else if |columns| == 1 then EncodeAsIn(columns[0], rows)
      else SepBy(" or ", Equalities(columns, rows))
    case Unsupported => Fails
  }

  function EncodeAsIn(column: string, rows: seq<seq<Scalar>>): Out {
    Wrapped(column + " in (", SepBy(", ", Singles(rows)), ")")
  }

  function Singles(rows: seq<seq<Scalar>>): (r: seq<Out>)
    ensures |r| == |rows| && forall i :: 0 <= i < |r| ==> r[i] == if |rows[i]| == 1 then EncodeRow(rows[i]) else Fails
  {
    seq(|rows|, (i: nat) requires i < |rows| => if |rows[i]| == 1 then EncodeRow(rows[i]) else Fails)
  }

  function Equalities(columns: seq<string>, rows: seq<seq<Scalar>>): (r: seq<Out>)
    ensures |r| == |rows|
    ensures forall i :: 0 <= i < |r| ==> r[i] == Wrapped("(", SepBy(" and ", Tests(columns, rows[i])), ")")
  {
    seq(|rows|, (i: nat) requires i < |rows| => Wrapped("(", SepBy(" and ", Tests(columns, rows[i])), ")"))
  }

  function Tests(columns: seq<string>, row: seq<Scalar>): (r: seq<Out>)
    ensures |r| == |columns|
    ensures forall j :: 0 <= j < |r| ==>
              r[j] == if j < |row| then Text(columns[j] + " = " + ScalarText(row[j])) else Crashes
  {
    seq(|columns|, (j: nat) requires j < |columns| =>
          if j < |row| then Text(columns[j] + " = " + ScalarText(row[j])) else Crashes)
  }

  /** A separated list of texts and failures of one sort fails exactly when it holds a failure. */
  lemma {:induction false} SepByOnly(sep: string, parts: seq<Out>, bad: Out)
    requires !bad.Text? && forall i :: 0 <= i < |parts| ==> parts[i].Text? || parts[i] == bad
    ensures SepBy(sep, parts) == bad <==> exists i :: 0 <= i < |parts| && parts[i] == bad
    ensures SepBy(sep, parts).Text? || SepBy(sep, parts) == bad
  {
    if |parts| > 1 {
      SepByOnly(sep, parts[1..], bad);
      assert forall i :: 0 < i < |parts| ==> parts[i] == parts[1..][i - 1];
    }
  }

  lemma RowEncodes(values: seq<Scalar>)
    ensures EncodeRow(values).Text?
  {
    SepByOnly(", ", seq(|values|, (i: nat) requires i < |values| => Text(ScalarText(values[i]))), Fails);
  }

  /** Row `i` of several is too short for the columns. */
  predicate TooShort(columns: seq<string>, rows: seq<seq<Scalar>>) { exists i :: 0 <= i < |rows| && |rows[i]| < |columns| }

  predicate NotSingle(rows: seq<seq<Scalar>>) { exists i :: 0 <= i < |rows| && |rows[i]| != 1 }

  /** A tuple list is refused when it has no rows, or one column and a row of another length; with any
      other number of columns a row that is too short is an index out of range. */
  lemma TuplesOutcome(columns: seq<string>, rows: seq<seq<Scalar>>)
    ensures var r := EncodeValue(Tuples(columns, rows));
            && (r.Fails? <==> rows == [] || (|columns| == 1 && NotSingle(rows)))
            && (r.Crashes? <==> |columns| != 1 && TooShort(columns, rows))
  {
    forall i | 0 <= i < |rows|
      ensures EncodeRow(rows[i]).Text?
    {
      RowEncodes(rows[i]);
    }
    SepByOnly(", ", Singles(rows), Fails);
    assert NotSingle(rows) <==> exists i :: 0 <= i < |rows| && Singles(rows)[i] == Fails;
    EqualitiesOutcome(columns, rows);
  }

  lemma EqualitiesOutcome(columns: seq<string>, rows: seq<seq<Scalar>>)
    ensures var r := SepBy(" or ", Equalities(columns, rows));
            (r.Crashes? <==> TooShort(columns, rows)) && !r.Fails?
  {
    var parts := Equalities(columns, rows);
    forall i | 0 <= i < |rows|
      ensures parts[i] == Crashes <==> |rows[i]| < |columns|
      ensures parts[i].Text? || parts[i] == Crashes
    {
      SepByOnly(" and ", Tests(columns, rows[i]), Crashes);
      assert |rows[i]| < |columns| ==> Tests(columns, rows[i])[|rows[i]|] == Crashes;
    }
    SepByOnly(" or ", parts, Crashes);
  }

  /** The value supplied for a variable written `:name`, or for a list written `::name`. */
  datatype Fetched = Supplied(v: BindVal) | Missing | NameTooShort

  function FetchBindVar(name: string, vars: map<string, BindVal>): Fetched {
    if |name| < 2 then NameTooShort
    else
      var isList := name[1] == ':';
      var key := if isList then name[2..] else name[1..];
      if key !in vars then Missing
      else if isList then (if vars[key].List? && vars[key].items != [] then Supplied(vars[key]) else Missing)
      else if vars[key].List? then Missing
      else Supplied(vars[key])
  }

  /** How the bind variables of a query are written. */
  type Encoder = string -> Out

  function EncoderFor(vars: map<string, BindVal>): Encoder {
    name =>
      match FetchBindVar(name, vars)
      case Supplied(v) => EncodeValue(v)
      case Missing => Fails
      case NameTooShort => Crashes
  }

  /** Formatting a node with every bind variable replaced by its value, directly. */
  function Filled(st: Style, n: Node, enc: Encoder): Out
    decreases n, |Layout(st, n)| + 1
  {
    FilledSegs(st, Layout(st, n), n, enc)
  }

  function FilledSeg(st: Style, s: Seg, ghost n: Node, enc: Encoder): Out
    requires s.Sub? ==> s.node < n
    decreases n, 0
  {
    match s
    case Lit(text) => Text(text)
    case Str(text) => Text(text)
    case Chr(c) => Text([c])
    case Sub(node) => Filled(st, node, enc)
    case Arg(name) => enc(name)
  }

  function FilledSegs(st: Style, segs: seq<Seg>, ghost n: Node, enc: Encoder): Out
    requires Below(segs, n)
    decreases n, |segs|
  {
    if segs == [] then Text("") else Concat(FilledSeg(st, segs[0], n, enc), FilledSegs(st, segs[1..], n, enc))
  }

  /** GenerateQuery from the locations `locs` on, with the text before `current` already written. */
  function Generated(query: string, locs: seq<BindLocation>, current: nat, enc: Encoder): Out
    requires InOrder(locs, current, |query|) && current <= |query|
  {
    if locs == [] then Text(query[current..])
    else
      var l := locs[0];
      Concat(Concat(Text(query[current..l.offset]), enc(query[l.offset..l.offset + l.length])),
             Generated(query, locs[1..], l.offset + l.length, enc))
  }

  lemma ConcatAssoc(a: Out, b: Out, c: Out)
    ensures Concat(a, Concat(b, c)) == Concat(Concat(a, b), c)
  {
    if a.Text? && b.Text? && c.Text? { Assoc(a.text, b.text, c.text); }
  }

  lemma ConcatEmpty(a: Out)
    ensures Concat(Text(""), a) == a
  {
    if a.Text? { assert "" + a.text == a.text; }
  }

  /** Unfolding Generated at the head of the locations. */
  lemma GeneratedHead(query: string, locs: seq<BindLocation>, current: nat, enc: Encoder)
    requires locs != [] && current <= |query| && InOrder(locs, current, |query|)
    ensures var l := locs[0];
            && InOrder(locs[1..], l.offset + l.length, |query|)
            && Generated(query, locs, current, enc) ==
               Concat(Text(query[current..l.offset]),
                      Concat(enc(query[l.offset..l.offset + l.length]),
                             Generated(query, locs[1..], l.offset + l.length, enc)))
  {
    var l := locs[0];
    ConcatAssoc(Text(query[current..l.offset]), enc(query[l.offset..l.offset + l.length]),
                Generated(query, locs[1..], l.offset + l.length, enc));
  }

  /** Writing one more location after `buf`. */
  lemma GeneratedStep(query: string, locs: seq<BindLocation>, current: nat, buf: string, enc: Encoder)
    requires locs != [] && current <= |query| && InOrder(locs, current, |query|)
    ensures var l := locs[0];
            && InOrder(locs[1..], l.offset + l.length, |query|)
            && Concat(Text(buf), Generated(query, locs, current, enc)) ==
               Concat(Concat(Text(buf + query[current..l.offset]), enc(query[l.offset..l.offset + l.length])),
                      Generated(query, locs[1..], l.offset + l.length, enc))
  {
    var l := locs[0];
    GeneratedHead(query, locs, current, enc);
    var text, value := Text(query[current..l.offset]), enc(query[l.offset..l.offset + l.length]);
    var rest := Generated(query, locs[1..], l.offset + l.length, enc);
    ConcatAssoc(Text(buf), text, Concat(value, rest));
    ConcatAssoc(Concat(Text(buf), text), value, rest);
  }

  /** What was written, followed by what the remaining locations give, makes `goal`. */
  ghost predicate Writing(query: string, locs: seq<BindLocation>, current: nat, done: Out, enc: Encoder, goal: Out) {
    && current <= |query| && InOrder(locs, current, |query|)
    && Concat(done, Generated(query, locs, current, enc)) == goal
  }

  lemma WritingEnds(query: string, locs: seq<BindLocation>, current: nat, done: Out, enc: Encoder, goal: Out)
    requires Writing(query, locs, current, done, enc, goal)
    ensures current <= |query| && (!done.Text? ==> done == goal)
    ensures done.Text? && locs == [] ==> Text(done.text + query[current..]) == goal
  {
  }

  /** The text up to a location and the value that goes there. */
  method GenerateNext(query: string, locs: seq<BindLocation>, current: nat, buf: string, enc: Encoder, ghost goal: Out)
    returns (done: Out, current': nat, rest: seq<BindLocation>)
    requires locs != [] && Writing(query, locs, current, Text(buf), enc, goal)
    ensures |rest| < |locs| && Writing(query, rest, current', done, enc, goal)
  {
    GeneratedStep(query, locs, current, buf, enc);
    var loc := locs[0];
    current', rest := loc.offset + loc.length, locs[1..];
    var value := enc(query[loc.offset..current']);
    done := if value.Text? then Text(buf + query[current..loc.offset] + value.text) else value;
  }

  /** The substitution loop. */
  method Generate(query: string, locs: seq<BindLocation>, enc: Encoder, ghost goal: Out) returns (r: Out)
    requires Writing(query, locs, 0, Text(""), enc, goal)
    ensures r == goal
  {
    var buf, current: nat, rest := "", 0, locs;
    while rest != []
      invariant Writing(query, rest, current, Text(buf), enc, goal)
      decreases |rest|
    {
      var done;
      done, current, rest := GenerateNext(query, rest, current, buf, enc, goal);
      WritingEnds(query, rest, current, done, enc, goal);
      if !done.Text? {
        return done;
      }
      buf := done.text;
    }
    WritingEnds(query, rest, current, Text(buf), enc, goal);
    return Text(buf + query[current..]);
  }

  method GenerateQuery(pq: ParsedQuery, vars: map<string, BindVal>) returns (r: Out)
    requires InOrder(pq.bindLocations, 0, |pq.query|)
    ensures r == Generated(pq.query, pq.bindLocations, 0, EncoderFor(vars))
  {
    if |pq.bindLocations| == 0 {
      return Text(pq.query);
    }
    ghost var goal := Generated(pq.query, pq.bindLocations, 0, EncoderFor(vars));
    ConcatEmpty(goal);
    r := Generate(pq.query, pq.bindLocations, EncoderFor(vars), goal);
  }

  /** Pieces with every bind variable replaced by its value. */
  function Substituted(pieces: seq<Piece>, enc: Encoder): Out {
    if pieces == [] then Text("")
    else Concat(if pieces[0].Ch? then Text([pieces[0].c]) else enc(pieces[0].name),
                Substituted(pieces[1..], enc))
  }

  lemma {:induction false} SubstitutedAppend(a: seq<Piece>, b: seq<Piece>, enc: Encoder)
    ensures Substituted(a + b, enc) == Concat(Substituted(a, enc), Substituted(b, enc))
  {
    if a == [] {
      assert a + b == b;
      ConcatEmpty(Substituted(b, enc));
    } else {
      assert (a + b)[1..] == a[1..] + b;
      SubstitutedAppend(a[1..], b, enc);
      ConcatAssoc(if a[0].Ch? then Text([a[0].c]) else enc(a[0].name),
                  Substituted(a[1..], enc), Substituted(b, enc));
    }
  }

  lemma {:induction false} SubstitutedChars(text: string, enc: Encoder)
    ensures Substituted(Chars(text), enc) == Text(text)
  {
    if text != "" {
      assert Chars(text)[1..] == Chars(text[1..]);
      SubstitutedChars(text[1..], enc);
      assert [text[0]] + text[1..] == text;
    }
  }

  /** `query` continues at `base` with the text of `pieces`, whose first piece ends at `next`. */
  lemma FirstPiece(query: string, pieces: seq<Piece>, base: nat) returns (next: nat)
    requires base <= |query| && query[base..] == Rendered(pieces) && pieces != []
    ensures next == base + |PieceText(pieces[0])| <= |query|
    ensures query[base..next] == PieceText(pieces[0]) && query[next..] == Rendered(pieces[1..])
  {
    var t := PieceText(pieces[0]);
    next := base + |t|;
    assert query[base..][..|t|] == query[base..next];
    assert query[base..][|t|..] == query[next..];
  }

  /** Substituting at the recorded offsets is substituting in the pieces. */
  lemma {:induction false} GeneratedPieces(query: string, pieces: seq<Piece>, current: nat, base: nat, enc: Encoder)
    requires current <= base <= |query| && query[base..] == Rendered(pieces)
    ensures InOrder(Locations(pieces, base), current, |query|)
    ensures Generated(query, Locations(pieces, base), current, enc) ==
            Concat(Text(query[current..base]), Substituted(pieces, enc))
    decreases |pieces|, 1
  {
    LocationsInOrder(pieces, base);
    InOrderEarlier(Locations(pieces, base), current, base, |query|);
    if pieces == [] {
      assert query[current..base] + "" == query[current..];
    } else {
      var next := FirstPiece(query, pieces, base);
      if pieces[0].Ch? {
        PassChar(query, pieces, current, base, next, enc);
      } else {
        PassBind(query, pieces, current, base, next, enc);
      }
    }
  }

  lemma SliceJoin(s: string, i: nat, j: nat, k: nat)
    requires i <= j <= k <= |s|
    ensures s[i..k] == s[i..j] + s[j..k]
  {
  }

  lemma CharFirst(before: string, pieces: seq<Piece>, enc: Encoder)
    requires pieces != [] && pieces[0].Ch?
    ensures Concat(Text(before + [pieces[0].c]), Substituted(pieces[1..], enc)) ==
            Concat(Text(before), Substituted(pieces, enc))
  {
    ConcatAssoc(Text(before), Text([pieces[0].c]), Substituted(pieces[1..], enc));
  }

  lemma {:induction false} PassChar(query: string, pieces: seq<Piece>, current: nat, base: nat, next: nat, enc: Encoder)
    requires current <= base <= |query| && pieces != [] && pieces[0].Ch?
    requires next == base + 1 <= |query| && query[base..next] == [pieces[0].c] && query[next..] == Rendered(pieces[1..])
    requires InOrder(Locations(pieces, base), current, |query|)
    ensures Generated(query, Locations(pieces, base), current, enc) ==
            Concat(Text(query[current..base]), Substituted(pieces, enc))
    decreases |pieces|, 0
  {
    GeneratedPieces(query, pieces[1..], current, next, enc);
    assert Locations(pieces, base) == Locations(pieces[1..], next);
    SliceJoin(query, current, base, next);
    CharFirst(query[current..base], pieces, enc);
  }

  lemma {:induction false} PassBind(query: string, pieces: seq<Piece>, current: nat, base: nat, next: nat, enc: Encoder)
    requires current <= base <= |query| && pieces != [] && pieces[0].Bind?
    requires next == base + |pieces[0].name| <= |query| && query[base..next] == pieces[0].name &&
             query[next..] == Rendered(pieces[1..])
    requires InOrder(Locations(pieces, base), current, |query|)
    ensures Generated(query, Locations(pieces, base), current, enc) ==
            Concat(Text(query[current..base]), Substituted(pieces, enc))
    decreases |pieces|, 0
  {
    GeneratedPieces(query, pieces[1..], next, next, enc);
    var locs := Locations(pieces, base);
    assert locs[0] == BindLocation(base, |pieces[0].name|) && locs[1..] == Locations(pieces[1..], next);
    GeneratedHead(query, locs, current, enc);
    assert query[next..next] == "";
    ConcatEmpty(Substituted(pieces[1..], enc));
  }

  lemma {:induction false} FilledNode(st: Style, n: Node, enc: Encoder)
    ensures Substituted(NodePieces(st, n), enc) == Filled(st, n, enc)
    decreases n, |Layout(st, n)| + 1
  {
    FilledSegments(st, Layout(st, n), n, enc);
  }

  lemma {:induction false} FilledSegment(st: Style, s: Seg, n: Node, enc: Encoder)
    requires s.Sub? ==> s.node < n
    ensures Substituted(SegPiece(st, s, n), enc) == FilledSeg(st, s, n, enc)
    decreases n, 0
  {
    match s
    case Lit(text) => SubstitutedChars(text, enc);
    case Str(text) => SubstitutedChars(text, enc);
    case Chr(c) => SubstitutedChars([c], enc); assert Chars([c]) == [Ch(c)];
    case Sub(node) => FilledNode(st, node, enc);
    case Arg(name) =>
      assert [Bind(name)][1..] == [];
      var e := enc(name);
      if e.Text? { assert e.text + "" == e.text; }
  }

  lemma {:induction false} FilledSegments(st: Style, segs: seq<Seg>, n: Node, enc: Encoder)
    requires Below(segs, n)
    ensures Substituted(SegPieces(st, segs, n), enc) == FilledSegs(st, segs, n, enc)
    decreases n, |segs|
  {
    if segs != [] {
      FilledSegment(st, segs[0], n, enc);
      FilledSegments(st, segs[1..], n, enc);
      SubstitutedAppend(SegPiece(st, segs[0], n), SegPieces(st, segs[1..], n), enc);
    }
  }

  /** For every tree and every way to write its variables: substituting into the tracked text at the
      recorded offsets gives the tree formatted with each variable replaced by its value, or fails as that
      does. */
  lemma GeneratedIsFilled(st: Style, n: Node, enc: Encoder)
    ensures var pieces := NodePieces(st, n);
            var text, locs := Rendered(pieces), Locations(pieces, 0);
            InOrder(locs, 0, |text|) && Generated(text, locs, 0, enc) == Filled(st, n, enc)
  {
    GeneratedWhole(NodePieces(st, n), enc);
    FilledNode(st, n, enc);
  }

  lemma GeneratedWhole(pieces: seq<Piece>, enc: Encoder)
    ensures InOrder(Locations(pieces, 0), 0, |Rendered(pieces)|)
    ensures Generated(Rendered(pieces), Locations(pieces, 0), 0, enc) == Substituted(pieces, enc)
  {
    var text := Rendered(pieces);
    assert text[0..] == text && text[0..0] == "";
    GeneratedPieces(text, pieces, 0, 0, enc);
    ConcatEmpty(Substituted(pieces, enc));
  }

  /** Formatting, tracking and substituting through the buffer. */
  method FormatAndGenerate(st: Style, n: Node, vars: map<string, BindVal>) returns (r: Out)
    ensures r == Filled(st, n, EncoderFor(vars))
  {
    var b := new Buffer(st);
    b.FormatNode(n);
    assert [] + NodePieces(st, n) == NodePieces(st, n);
    GeneratedIsFilled(st, n, EncoderFor(vars));
    r := GenerateQuery(ParsedQuery(b.buf, b.bindLocations), vars);
  }
}
