/** Formatting loses nothing: the text that the Format methods of sqlparser/ast.go print for an operand or a
    list is read back as that operand or list. */
module ReadBack {
  import opened Wrappers
  import opened Ast
  import opened Sequences
  import opened SqlReader
  import B = TrackedBuffer
  import D = Decimal
  import T = Tokenizer

  // ---------------------------------------------------------------- the text of a tree

  function Text(st: B.Style, n: Node): string { B.Rendered(B.NodePieces(st, n)) }

  function SegText(st: B.Style, s: B.Seg): string {
    match s
    case Lit(text) => text
    case Str(text) => text
    case Chr(c) => [c]
    case Sub(node) => Text(st, node)
    case Arg(name) => name
  }

  /** Segments, one after the other, and then `tail`. */
  function Nest(st: B.Style, segs: seq<B.Seg>, tail: string): string {
    if segs == [] then tail else SegText(st, segs[0]) + Nest(st, segs[1..], tail)
  }

  lemma SegRendered(st: B.Style, s: B.Seg, n: Node)
    requires s.Sub? ==> s.node < n
    ensures B.Rendered(B.SegPiece(st, s, n)) == SegText(st, s)
  {
    match s
    case Lit(text) => B.RenderedChars(text, 0);
    case Str(text) => B.RenderedChars(text, 0);
    case Chr(c) => OnePiece(B.Ch(c));
    case Sub(_) =>
    case Arg(name) => OnePiece(B.Bind(name));
  }

  lemma OnePiece(p: B.Piece)
    ensures B.Rendered([p]) == B.PieceText(p)
  {
    assert [p][1..] == [];
    assert B.Rendered([p]) == B.PieceText(p) + "";
  }

  lemma {:induction false} SegsRendered(st: B.Style, segs: seq<B.Seg>, n: Node, tail: string)
    requires B.Below(segs, n)
    ensures B.Rendered(B.SegPieces(st, segs, n)) + tail == Nest(st, segs, tail)
    decreases |segs|
  {
    if segs == [] {
      assert B.Rendered([]) + tail == tail;
    } else {
      assert segs[0] in segs;
      SegRendered(st, segs[0], n);
      SegsRendered(st, segs[1..], n, tail);
      B.Appended(B.SegPiece(st, segs[0], n), B.SegPieces(st, segs[1..], n), 0);
      Assoc(SegText(st, segs[0]), B.Rendered(B.SegPieces(st, segs[1..], n)), tail);
    }
  }

  lemma TextIs(st: B.Style, n: Node, tail: string)
    ensures Text(st, n) + tail == Nest(st, B.Layout(st, n), tail)
  {
    SegsRendered(st, B.Layout(st, n), n, tail);
  }

  lemma {:induction false} NestAppend(st: B.Style, a: seq<B.Seg>, b: seq<B.Seg>, tail: string)
    ensures Nest(st, a + b, tail) == Nest(st, a, Nest(st, b, tail))
  {
    if a == [] {
      assert a + b == b;
    } else {
      assert (a + b)[1..] == a[1..] + b;
      NestAppend(st, a[1..], b, tail);
    }
  }

  lemma Nest1(st: B.Style, a: B.Seg, tail: string)
    ensures Nest(st, [a], tail) == SegText(st, a) + tail
  {
    assert [a][1..] == [];
  }

  lemma Nest3(st: B.Style, a: B.Seg, b: B.Seg, c: B.Seg, tail: string)
    ensures Nest(st, [a, b, c], tail) == SegText(st, a) + (SegText(st, b) + (SegText(st, c) + tail))
  {
    assert [a, b, c][1..] == [b, c] && [b, c][1..] == [c];
    Nest1(st, c, tail);
  }

  lemma Nest4(st: B.Style, a: B.Seg, b: B.Seg, c: B.Seg, d: B.Seg, tail: string)
    ensures Nest(st, [a, b, c, d], tail) ==
            SegText(st, a) + (SegText(st, b) + (SegText(st, c) + (SegText(st, d) + tail)))
  {
    assert [a, b, c, d][1..] == [b, c, d];
    Nest3(st, b, c, d, tail);
  }

  lemma Nest5(st: B.Style, a: B.Seg, b: B.Seg, c: B.Seg, d: B.Seg, e: B.Seg, tail: string)
    ensures Nest(st, [a, b, c, d, e], tail) ==
            SegText(st, a) + (SegText(st, b) + (SegText(st, c) + (SegText(st, d) + (SegText(st, e) + tail))))
  {
    assert [a, b, c, d, e] == [a, b] + [c, d, e] && [a, b][1..] == [b] && [b][1..] == [];
    NestAppend(st, [a, b], [c, d, e], tail);
    Nest3(st, c, d, e, tail);
  }

  lemma Text1(st: B.Style, n: Node, a: B.Seg, tail: string)
    requires B.Layout(st, n) == [a]
    ensures Text(st, n) + tail == SegText(st, a) + tail
  {
    TextIs(st, n, tail);
    Nest1(st, a, tail);
  }

  lemma Text2(st: B.Style, n: Node, a: B.Seg, b: B.Seg, tail: string)
    requires B.Layout(st, n) == [a, b]
    ensures Text(st, n) + tail == SegText(st, a) + (SegText(st, b) + tail)
  {
    TextIs(st, n, tail);
    assert [a, b][1..] == [b];
    Nest1(st, b, tail);
  }

  lemma Text3(st: B.Style, n: Node, a: B.Seg, b: B.Seg, c: B.Seg, tail: string)
    requires B.Layout(st, n) == [a, b, c]
    ensures Text(st, n) + tail == SegText(st, a) + (SegText(st, b) + (SegText(st, c) + tail))
  {
    TextIs(st, n, tail);
    Nest3(st, a, b, c, tail);
  }

  lemma Text4(st: B.Style, n: Node, a: B.Seg, b: B.Seg, c: B.Seg, d: B.Seg, tail: string)
    requires B.Layout(st, n) == [a, b, c, d]
    ensures Text(st, n) + tail == SegText(st, a) + (SegText(st, b) + (SegText(st, c) + (SegText(st, d) + tail)))
  {
    TextIs(st, n, tail);
    Nest4(st, a, b, c, d, tail);
  }

  lemma Text5(st: B.Style, n: Node, a: B.Seg, b: B.Seg, c: B.Seg, d: B.Seg, e: B.Seg, tail: string)
    requires B.Layout(st, n) == [a, b, c, d, e]
    ensures Text(st, n) + tail ==
            SegText(st, a) + (SegText(st, b) + (SegText(st, c) + (SegText(st, d) + (SegText(st, e) + tail))))
  {
    TextIs(st, n, tail);
    Nest5(st, a, b, c, d, e, tail);
  }

  lemma Text7(st: B.Style, n: Node, a: B.Seg, b: B.Seg, c: B.Seg, d: B.Seg, e: B.Seg, f: B.Seg, g: B.Seg, tail: string)
    requires B.Layout(st, n) == [a, b, c, d, e, f, g]
    ensures Text(st, n) + tail ==
            SegText(st, a) + (SegText(st, b) + (SegText(st, c) + (SegText(st, d) + (SegText(st, e) +
              (SegText(st, f) + (SegText(st, g) + tail))))))
  {
    TextIs(st, n, tail);
    assert [a, b, c, d, e, f, g] == [a, b, c, d, e] + [f, g] && [f, g][1..] == [g];
    NestAppend(st, [a, b, c, d, e], [f, g], tail);
    Nest1(st, g, tail);
    Nest5(st, a, b, c, d, e, Nest(st, [f, g], tail));
  }

  // ---------------------------------------------------------------- words

  lemma SkipTo(lead: string, x: string)
    requires (lead == "" || lead == " ") && x != "" && !T.IsBlank(x[0])
    ensures Skip(lead + x) == x
  {
    assert T.SkipBlanks(x) == x;
    if lead == "" {
      assert lead + x == x;
    } else {
      assert (lead + x)[0] == ' ' && (lead + x)[1..] == x;
    }
  }

  predicate IsWords(w: string) { w != "" && forall i :: 0 <= i < |w| ==> T.IsWord(w[i]) }

  /** The text after a word. */
  predicate NoWord(x: string) { x != "" ==> !T.IsWord(x[0]) }

  lemma WordFound(lead: string, w: string, x: string)
    requires (lead == "" || lead == " ") && IsWords(w) && NoWord(x)
    ensures WordAt(lead + (w + x)) == w && AfterWord(lead + (w + x)) == x
  {
    SkipTo(lead, w + x);
    T.RunLenIs(T.Word, w, x);
    assert (w + x)[..|w|] == w && (w + x)[|w|..] == x;
  }

  /** A word between blanks. */
  lemma Spaced(text: string, w: string, x: string)
    requires IsWords(w) && text == " " + w + " "
    ensures WordAt(text + x) == w && AfterWord(text + x) == " " + x
  {
    WordFound(" ", w, " " + x);
    assert text + x == " " + (w + (" " + x));
  }

  // ---------------------------------------------------------------- operands

  /** A text that ends whatever operand stands before it. */
  predicate Ends(x: string) { x != "" ==> !InNumber(x[0]) && x[0] != '\'' && x[0] != '*' }

  predicate IsName(s: string) { IsWords(s) && T.IsLetter(T.Ch(s[0])) }

  predicate IsNumber(s: string) {
    s != "" && (D.IsDigit(s[0]) || s[0] == '-' || s[0] == '.') && forall i :: 0 <= i < |s| ==> InNumber(s[i])
  }

  /** A variable's name after its colons. */
  predicate IsArg(s: string, colons: nat) {
    && |s| > colons && (forall i :: 0 <= i < colons ==> s[i] == ':') && T.IsLetter(T.Ch(s[colons]))
    && forall i :: colons <= i < |s| ==> T.IsKind(T.Dotted, s[i])
  }

  /** The operands that are read: the literals, variables and columns the grammar makes. */
  predicate IsOperand(n: Node) {
    match n
    case StrVal(_) => true
    case NumVal(text) => IsNumber(text)
    case ValArg(arg) => IsArg(arg, 1)
    case ListArg(arg) => IsArg(arg, 2)
    case NullVal => true
    case ColName(name, qualifier) => IsName(name) && (qualifier.Some? ==> IsName(qualifier.value))
    case _ => false
  }

  /** The words that would be taken for something else if they stood for a name: the keyword table has
      them, so they are quoted. */
  predicate Reserves(st: B.Style) { "not" in st.keywords && "null" in st.keywords && "distinct" in st.keywords }

  function NameText(st: B.Style, name: string): string { if name in st.keywords then "`" + name + "`" else name }

  lemma EscapeText(st: B.Style, name: string, tail: string)
    ensures Nest(st, B.Escape(st, name), tail) == NameText(st, name) + tail
  {
    if name in st.keywords {
      Nest3(st, B.Lit("`"), B.Str(name), B.Lit("`"), tail);
      assert "`" + (name + ("`" + tail)) == "`" + name + "`" + tail;
    } else {
      Nest1(st, B.Str(name), tail);
    }
  }

  lemma QualifiedText(st: B.Style, name: string, qualifier: Option<string>, tail: string)
    ensures Nest(st, B.Qualified(st, name, qualifier), tail) ==
            if qualifier.None? then NameText(st, name) + tail
            else NameText(st, qualifier.value) + ("." + (NameText(st, name) + tail))
  {
    EscapeText(st, name, tail);
    if qualifier.None? {
      assert [] + B.Escape(st, name) == B.Escape(st, name);
    } else {
      var q := B.Escape(st, qualifier.value);
      NestAppend(st, q + [B.Lit(".")], B.Escape(st, name), tail);
      NestAppend(st, q, [B.Lit(".")], NameText(st, name) + tail);
      Nest1(st, B.Lit("."), NameText(st, name) + tail);
      EscapeText(st, qualifier.value, "." + (NameText(st, name) + tail));
    }
  }

  lemma QuotedReads(name: string, tail: string)
    requires IsWords(name)
    ensures ReadName("`" + name + "`" + tail) == Name(name, true, tail)
  {
    var s, x := "`" + name + "`" + tail, "`" + tail;
    assert s[1..] == name + x;
    T.RunLenIs(T.Word, name, x);
    assert s[1..][..|name|] == s[1..1 + |name|] && s[1..][|name|..] == s[1 + |name|..];
    assert s[1 + |name|..][1..] == s[|name| + 2..];
  }

  lemma NameReads(st: B.Style, name: string, tail: string)
    requires IsName(name) && NoWord(tail)
    ensures ReadName(NameText(st, name) + tail) == Name(name, name in st.keywords, tail)
  {
    if name in st.keywords {
      QuotedReads(name, tail);
    } else {
      T.RunLenIs(T.Word, name, tail);
      assert (name + tail)[..|name|] == name && (name + tail)[|name|..] == tail;
    }
  }

  lemma ColumnReads(st: B.Style, name: string, qualifier: Option<string>, tail: string)
    requires Reserves(st) && IsOperand(ColName(name, qualifier)) && Ends(tail)
    ensures ReadColumn(Nest(st, B.Qualified(st, name, qualifier), tail)) == Read(ColName(name, qualifier), tail)
  {
    QualifiedText(st, name, qualifier, tail);
    NameReads(st, name, tail);
    if qualifier.Some? {
      var x := NameText(st, name) + tail;
      NameReads(st, qualifier.value, "." + x);
      assert ("." + x)[1..] == x;
    }
  }

  lemma StringReads(text: string, tail: string)
    requires Ends(tail)
    ensures ReadString(T.Quoted(text) + tail) == Read(StrVal(text), tail)
  {
    T.LiteralRoundTripIff(text, tail);
    assert (T.Quoted(text) + tail)[1..] == T.Escaped(text) + "'" + tail;
  }

  lemma {:induction false} NumberRunIs(run: string, tail: string)
    requires (forall i :: 0 <= i < |run| ==> InNumber(run[i])) && (tail != "" ==> !InNumber(tail[0]))
    ensures NumberRun(run + tail) == |run|
  {
    var s := run + tail;
    assert forall i :: 0 <= i < |run| ==> s[i] == run[i];
    assert tail != "" ==> s[|run|] == tail[0];
  }

  lemma ArgReads(arg: string, colons: nat, tail: string)
    requires (colons == 1 || colons == 2) && IsArg(arg, colons) && Ends(tail)
    ensures ReadArg(arg + tail) == Read(if colons == 2 then ListArg(arg) else ValArg(arg), tail)
  {
    var s := arg + tail;
    assert s[0] == ':' && s[1] == arg[1] && (colons == 2 ==> s[1] == ':');
    assert s[colons..] == arg[colons..] + tail;
    T.RunLenIs(T.Dotted, arg[colons..], tail);
    assert s[..|arg|] == arg && s[|arg|..] == tail;
  }

  /** An operand as it is printed, and then `tail`. */
  function OperandTail(st: B.Style, n: Node, tail: string): string {
    match n
    case StrVal(text) => T.Quoted(text) + tail
    case NumVal(text) => text + tail
    case ValArg(arg) => arg + tail
    case ListArg(arg) => arg + tail
    case NullVal => "null" + tail
    case ColName(name, qualifier) => Nest(st, B.Qualified(st, name, qualifier), tail)
    case _ => tail
  }

  lemma OperandText(st: B.Style, n: Node, tail: string)
    requires IsOperand(n)
    ensures Text(st, n) + tail == OperandTail(st, n, tail)
  {
    TextIs(st, n, tail);
    match n
    case StrVal(text) => Nest1(st, B.Str(T.Quoted(text)), tail);
    case NumVal(text) => Nest1(st, B.Str(text), tail);
    case ValArg(arg) => Nest1(st, B.Arg(arg), tail);
    case ListArg(arg) => Nest1(st, B.Arg(arg), tail);
    case NullVal => Nest1(st, B.Lit("null"), tail);
    case ColName(name, qualifier) =>
  }

  /** The first character of an operand's text. */
  predicate Begins(x: string) {
    && x != "" && !T.IsBlank(x[0]) && !InSymbol(x[0])
    && x[0] != '(' && x[0] != '*' && x[0] != ',' && x[0] != ')'
  }

  lemma NullReads(tail: string)
    requires Ends(tail)
    ensures ReadColumn("null" + tail) == Read(NullVal, tail)
  {
    assert IsWords("null");
    T.RunLenIs(T.Word, "null", tail);
    assert ("null" + tail)[..4] == "null" && ("null" + tail)[4..] == tail;
  }

  lemma OperandBegins(st: B.Style, n: Node, tail: string)
    requires IsOperand(n)
    ensures Begins(OperandTail(st, n, tail))
  {
    if n.ColName? {
      QualifiedText(st, n.name, n.qualifier, tail);
    }
  }

  /** An operand is read back wherever it stands. */
  lemma OperandReads(st: B.Style, n: Node, lead: string, tail: string)
    requires Reserves(st) && IsOperand(n) && Ends(tail) && (lead == "" || lead == " ")
    ensures ReadOperand(lead + (Text(st, n) + tail)) == Read(n, tail)
    ensures Begins(Text(st, n) + tail) && Skip(lead + (Text(st, n) + tail)) == Text(st, n) + tail
  {
    var c := OperandTail(st, n, tail);
    OperandText(st, n, tail);
    OperandBegins(st, n, tail);
    SkipTo(lead, c);
    SkipTo("", c);
    assert "" + c == c;
    OperandFound(st, n, tail);
    SameFromSkip(lead + c, c);
  }

  lemma SameFromSkip(s: string, c: string)
    requires Skip(s) == c == Skip(c)
    ensures ReadOperand(s) == ReadOperand(c)
  {
  }

  lemma NumberFound(text: string, tail: string)
    requires IsNumber(text) && Ends(tail)
    ensures ReadOperand(text + tail) == Read(NumVal(text), tail)
  {
    var c := text + tail;
    assert c[0] == text[0] && Skip(c) == c;
    NumberRunIs(text, tail);
    assert c[..|text|] == text && c[|text|..] == tail;
  }

  lemma ArgFound(arg: string, colons: nat, tail: string)
    requires (colons == 1 || colons == 2) && IsArg(arg, colons) && Ends(tail)
    ensures ReadOperand(arg + tail) == Read(if colons == 2 then ListArg(arg) else ValArg(arg), tail)
  {
    assert (arg + tail)[0] == ':' && Skip(arg + tail) == arg + tail;
    ArgReads(arg, colons, tail);
  }

  lemma StringFound(text: string, tail: string)
    requires Ends(tail)
    ensures ReadOperand(T.Quoted(text) + tail) == Read(StrVal(text), tail)
  {
    var c := T.Quoted(text) + tail;
    assert c[0] == '\'' && Skip(c) == c;
    StringReads(text, tail);
  }

  /** A text that begins like a name is looked at as a column. */
  lemma ColumnFound(c: string)
    requires c != "" && (c[0] == '`' || T.IsLetter(T.Ch(c[0])))
    ensures ReadOperand(c) == ReadColumn(c)
  {
    assert Skip(c) == c;
  }

  lemma NamedFound(st: B.Style, name: string, qualifier: Option<string>, tail: string)
    requires Reserves(st) && IsOperand(ColName(name, qualifier)) && Ends(tail)
    ensures ReadOperand(Nest(st, B.Qualified(st, name, qualifier), tail)) == Read(ColName(name, qualifier), tail)
  {
    ColumnReads(st, name, qualifier, tail);
    QualifiedText(st, name, qualifier, tail);
    ColumnFound(Nest(st, B.Qualified(st, name, qualifier), tail));
  }

  lemma OperandFound(st: B.Style, n: Node, tail: string)
    requires Reserves(st) && IsOperand(n) && Ends(tail)
    ensures ReadOperand(OperandTail(st, n, tail)) == Read(n, tail)
  {
    match n
    case StrVal(text) => StringFound(text, tail);
    case NumVal(text) => NumberFound(text, tail);
    case ValArg(arg) => ArgFound(arg, 1, tail);
    case ListArg(arg) => ArgFound(arg, 2, tail);
    case NullVal =>
      NullReads(tail);
      ColumnFound("null" + tail);
    case ColName(name, qualifier) => NamedFound(st, name, qualifier, tail);
  }

  /** The word a text begins with. */
  function FirstWord(c: string): string { c[..T.RunLen(T.Word, c)] }

  lemma FirstWordOf(c: string)
    requires c != ""
    ensures FirstWord(c) != "" ==> FirstWord(c)[0] == c[0]
  {
  }

  predicate Unreserved(w: string) { w != "not" && w != "distinct" }

  lemma ColumnWord(st: B.Style, n: Node, tail: string)
    requires Reserves(st) && n.ColName? && IsOperand(n) && Ends(tail)
    ensures Unreserved(FirstWord(OperandTail(st, n, tail)))
  {
    QualifiedText(st, n.name, n.qualifier, tail);
    if n.qualifier.None? {
      NameWord(st, n.name, tail);
    } else {
      NameWord(st, n.qualifier.value, "." + (NameText(st, n.name) + tail));
    }
  }

  lemma LiteralWord(st: B.Style, n: Node, tail: string)
    requires IsOperand(n) && !n.ColName? && !n.NullVal?
    ensures Unreserved(FirstWord(OperandTail(st, n, tail)))
  {
    var c := OperandTail(st, n, tail);
    assert c != "" && c[0] != 'n' && c[0] != 'd';
    FirstWordOf(c);
  }

  lemma NullWord(tail: string)
    requires Ends(tail)
    ensures FirstWord("null" + tail) == "null"
  {
    assert IsWords("null");
    T.RunLenIs(T.Word, "null", tail);
  }

  /** No operand's text begins with the word `not` or `distinct`. */
  lemma OperandWord(st: B.Style, n: Node, lead: string, tail: string)
    requires Reserves(st) && IsOperand(n) && Ends(tail) && (lead == "" || lead == " ")
    ensures Unreserved(WordAt(lead + (Text(st, n) + tail)))
  {
    OperandReads(st, n, lead, tail);
    OperandText(st, n, tail);
    if n.ColName? {
      ColumnWord(st, n, tail);
    } else if n.NullVal? {
      NullWord(tail);
    } else {
      LiteralWord(st, n, tail);
    }
  }

  lemma NameWord(st: B.Style, name: string, x: string)
    requires Reserves(st) && IsName(name) && NoWord(x)
    ensures FirstWord(NameText(st, name) + x) == if name in st.keywords then "" else name
  {
    if name !in st.keywords { T.RunLenIs(T.Word, name, x); }
  }

  // ---------------------------------------------------------------- lists

  predicate IsAlias(st: B.Style, alias: Option<string>) {
    alias.Some? ==> IsName(alias.value) && alias.value !in st.keywords
  }

  /** The items that are read, by the kind of list. */
  predicate IsItem(st: B.Style, kind: ListKind, n: Node) {
    match kind
    case Operands => IsOperand(n)
    case Orders => n.Order? && IsOperand(n.expr) && (n.direction == "asc" || n.direction == "desc")
    case Assigns => n.UpdateExpr? && n.column.ColName? && IsOperand(n.column) && IsOperand(n.expr)
    case Exprs =>
      || (n.NonStarExpr? && IsOperand(n.expr) && IsAlias(st, n.alias))
      || (n.StarExpr? && IsAlias(st, n.star))
  }

  predicate AreItems(st: B.Style, kind: ListKind, ns: seq<Node>) { forall i :: 0 <= i < |ns| ==> IsItem(st, kind, ns[i]) }

  /** A text that ends an item: it goes on neither with an alias nor with another item. */
  predicate EndsItem(x: string) { Ends(x) && WordAt(x) != "as" }

  lemma OrderText(st: B.Style, e: Node, direction: string, tail: string)
    ensures Text(st, Order(e, direction)) + tail == Text(st, e) + (" " + (direction + tail))
  {
    Text3(st, Order(e, direction), B.Sub(e), B.Lit(" "), B.Str(direction), tail);
  }

  lemma OrderReads(st: B.Style, n: Node, lead: string, tail: string)
    requires Reserves(st) && IsItem(st, Orders, n) && Ends(tail) && (lead == "" || lead == " ")
    ensures ReadOrder(lead + (Text(st, n) + tail)) == Read(n, tail)
  {
    OrderText(st, n.expr, n.direction, tail);
    OperandReads(st, n.expr, lead, " " + (n.direction + tail));
    WordFound(" ", n.direction, tail);
  }

  lemma AssignText(st: B.Style, column: Node, e: Node, tail: string)
    ensures Text(st, UpdateExpr(column, e)) + tail == Text(st, column) + (" = " + (Text(st, e) + tail))
  {
    Text3(st, UpdateExpr(column, e), B.Sub(column), B.Lit(" = "), B.Sub(e), tail);
  }

  /** The sign of an assignment. */
  lemma SignFound(v: string)
    ensures At(Skip(" = " + v), '=') && Skip(" = " + v)[1..] == " " + v && Ends(" = " + v)
  {
    assert " = " + v == " " + ("= " + v);
    SkipTo(" ", "= " + v);
    assert ("= " + v)[1..] == " " + v;
  }

  lemma AssignReads(st: B.Style, n: Node, lead: string, tail: string)
    requires Reserves(st) && IsItem(st, Assigns, n) && Ends(tail) && (lead == "" || lead == " ")
    ensures ReadAssign(lead + (Text(st, n) + tail)) == Read(n, tail)
  {
    var v := Text(st, n.expr) + tail;
    AssignText(st, n.column, n.expr, tail);
    SignFound(v);
    var sign := " = " + v;
    OperandReads(st, n.column, lead, sign);
    OperandReads(st, n.expr, " ", tail);
    AssignRead(lead + (Text(st, n.column) + sign), n.column, sign, n.expr, tail);
  }

  lemma AssignRead(s: string, column: Node, sign: string, value: Node, tail: string)
    requires ReadOperand(s) == Read(column, sign) && column.ColName?
    requires At(Skip(sign), '=') && ReadOperand(Skip(sign)[1..]) == Read(value, tail)
    ensures ReadAssign(s) == Read(UpdateExpr(column, value), tail)
  {
  }

  lemma AliasReads(alias: string, tail: string)
    requires IsName(alias) && Ends(tail)
    ensures ReadAlias(" as " + (alias + tail)) == (Some(alias), tail) && Ends(" as " + (alias + tail))
  {
    assert IsWords("as");
    Spaced(" as ", "as", alias + tail);
    WordFound(" ", alias, tail);
  }

  lemma StarText(st: B.Style, star: Option<string>, tail: string)
    ensures Text(st, StarExpr(star)) + tail == if star.None? then "*" + tail else star.value + ("." + ("*" + tail))
  {
    if star.None? {
      assert [] + [B.Lit("*")] == [B.Lit("*")];
      Text1(st, StarExpr(star), B.Lit("*"), tail);
    } else {
      assert [B.Str(star.value), B.Lit(".")] + [B.Lit("*")] == [B.Str(star.value), B.Lit("."), B.Lit("*")];
      Text3(st, StarExpr(star), B.Str(star.value), B.Lit("."), B.Lit("*"), tail);
    }
  }

  lemma PlainStar(lead: string, tail: string)
    requires lead == "" || lead == " "
    ensures ReadExpr(lead + ("*" + tail)) == Read(StarExpr(None), tail) && WordAt(lead + ("*" + tail)) == ""
  {
    SkipTo(lead, "*" + tail);
    assert ("*" + tail)[1..] == tail;
  }

  lemma TableStar(star: string, lead: string, tail: string)
    requires IsName(star) && (lead == "" || lead == " ")
    ensures ReadExpr(lead + (star + ("." + ("*" + tail)))) == Read(StarExpr(Some(star)), tail)
    ensures WordAt(lead + (star + ("." + ("*" + tail)))) == star
  {
    var x := "." + ("*" + tail);
    var c := star + x;
    SkipTo(lead, c);
    T.RunLenIs(T.Word, star, x);
    assert c[|star|] == '.' && c[|star| + 1] == '*' && c[|star| + 2..] == tail && c[..|star|] == star;
  }

  lemma StarReads(st: B.Style, n: Node, lead: string, tail: string)
    requires Reserves(st) && n.StarExpr? && IsAlias(st, n.star) && (lead == "" || lead == " ")
    ensures ReadExpr(lead + (Text(st, n) + tail)) == Read(n, tail)
    ensures WordAt(lead + (Text(st, n) + tail)) != "distinct"
  {
    StarText(st, n.star, tail);
    if n.star.None? {
      PlainStar(lead, tail);
    } else {
      TableStar(n.star.value, lead, tail);
    }
  }

  lemma NonStarText(st: B.Style, e: Node, alias: Option<string>, tail: string)
    ensures Text(st, NonStarExpr(e, alias)) + tail ==
            Text(st, e) + if alias.None? then tail else " as " + (alias.value + tail)
  {
    if alias.None? {
      assert [B.Sub(e)] + [] == [B.Sub(e)];
      Text1(st, NonStarExpr(e, alias), B.Sub(e), tail);
    } else {
      assert [B.Sub(e)] + [B.Lit(" as "), B.Str(alias.value)] == [B.Sub(e), B.Lit(" as "), B.Str(alias.value)];
      Text3(st, NonStarExpr(e, alias), B.Sub(e), B.Lit(" as "), B.Str(alias.value), tail);
    }
  }

  /** `c` does not begin with a star or the star of a table. */
  predicate NoStar(c: string) {
    var n := T.RunLen(T.Word, c);
    !At(c, '*') && !(n > 0 && At(c[n..], '.') && At(c[n + 1..], '*'))
  }

  lemma NumberNoStar(text: string, tail: string)
    requires IsNumber(text) && Ends(tail)
    ensures NoStar(text + tail)
  {
    var c := text + tail;
    assert forall i :: 0 <= i < |text| ==> c[i] == text[i];
    assert forall i :: 0 <= i <= |text| && i < |c| ==> c[i] != '*';
    assert tail != "" ==> c[|text|] == tail[0];
    var n := T.RunLen(T.Word, c);
    assert n < |c| ==> c[n..][0] == c[n];
    assert n + 1 < |c| ==> c[n + 1..][0] == c[n + 1];
  }

  lemma NameNoStar(st: B.Style, name: string, x: string)
    requires IsName(name) && NoWord(x) && !(At(x, '.') && At(x[1..], '*'))
    ensures NoStar(NameText(st, name) + x)
  {
    if name !in st.keywords {
      T.RunLenIs(T.Word, name, x);
      assert (name + x)[|name|..] == x && (x != "" ==> (name + x)[|name| + 1..] == x[1..]);
    }
  }

  lemma ColumnNoStar(st: B.Style, e: Node, tail: string)
    requires e.ColName? && IsOperand(e) && Ends(tail)
    ensures NoStar(OperandTail(st, e, tail))
  {
    QualifiedText(st, e.name, e.qualifier, tail);
    if e.qualifier.None? {
      NameNoStar(st, e.name, tail);
    } else {
      var x := NameText(st, e.name) + tail;
      assert ("." + x)[1..] == x && x[0] != '*';
      NameNoStar(st, e.qualifier.value, "." + x);
    }
  }

  lemma OperandNoStar(st: B.Style, e: Node, tail: string)
    requires IsOperand(e) && Ends(tail)
    ensures NoStar(OperandTail(st, e, tail))
  {
    match e
    case NumVal(text) => NumberNoStar(text, tail);
    case ColName(_, _) => ColumnNoStar(st, e, tail);
    case NullVal =>
      NullWord(tail);
      assert ("null" + tail)[4..] == tail;
    case _ =>
  }

  /** Reading an operand in a select list. */
  lemma NonStarRead(s: string, e: Node, rest: string)
    requires NoStar(Skip(s)) && ReadOperand(s) == Read(e, rest)
    ensures ReadExpr(s) == Read(NonStarExpr(e, ReadAlias(rest).0), ReadAlias(rest).1)
  {
  }

  lemma NonStarReads(st: B.Style, n: Node, lead: string, tail: string)
    requires Reserves(st) && n.NonStarExpr? && IsItem(st, Exprs, n) && EndsItem(tail) && (lead == "" || lead == " ")
    ensures ReadExpr(lead + (Text(st, n) + tail)) == Read(n, tail)
  {
    NonStarText(st, n.expr, n.alias, tail);
    var x := tail;
    if n.alias.Some? {
      AliasReads(n.alias.value, tail);
      x := " as " + (n.alias.value + tail);
    }
    OperandReads(st, n.expr, lead, x);
    OperandText(st, n.expr, x);
    OperandNoStar(st, n.expr, x);
    NonStarRead(lead + (Text(st, n.expr) + x), n.expr, x);
  }

  lemma ItemReads(st: B.Style, kind: ListKind, n: Node, lead: string, tail: string)
    requires Reserves(st) && IsItem(st, kind, n) && EndsItem(tail) && (lead == "" || lead == " ")
    ensures ReadItem(kind, lead + (Text(st, n) + tail)) == Read(n, tail)
  {
    match kind
    case Operands => OperandReads(st, n, lead, tail);
    case Orders => OrderReads(st, n, lead, tail);
    case Assigns => AssignReads(st, n, lead, tail);
    case Exprs => if n.StarExpr? { StarReads(st, n, lead, tail); } else { NonStarReads(st, n, lead, tail); }
  }

  /** Items after the first, and then `tail`. */
  function More(st: B.Style, ns: seq<Node>, tail: string): string { Nest(st, B.Listed(ns, ", ", ", "), tail) }

  lemma ListedText(st: B.Style, ns: seq<Node>, first: string, tail: string)
    requires ns != []
    ensures Nest(st, B.Listed(ns, first, ", "), tail) == first + (Text(st, ns[0]) + More(st, ns[1..], tail))
  {
    NestAppend(st, [B.Str(first), B.Sub(ns[0])], B.Listed(ns[1..], ", ", ", "), tail);
    assert [B.Str(first), B.Sub(ns[0])][1..] == [B.Sub(ns[0])];
    Nest1(st, B.Sub(ns[0]), More(st, ns[1..], tail));
  }

  lemma FirstListed(st: B.Style, ns: seq<Node>, tail: string)
    requires ns != []
    ensures Nest(st, B.Listed(ns, "", ", "), tail) == Text(st, ns[0]) + More(st, ns[1..], tail)
  {
    ListedText(st, ns, "", tail);
    var x := Text(st, ns[0]) + More(st, ns[1..], tail);
    assert "" + x == x;
  }

  lemma ListText(st: B.Style, n: Node, ns: seq<Node>, tail: string)
    requires ns != [] && B.Layout(st, n) == B.Listed(ns, "", ", ")
    ensures Text(st, n) + tail == Text(st, ns[0]) + More(st, ns[1..], tail)
  {
    TextIs(st, n, tail);
    FirstListed(st, ns, tail);
  }

  /** A text no list goes on with. */
  predicate EndsList(x: string) { EndsItem(x) && !At(Skip(x), ',') }

  lemma CommaFound(x: string)
    ensures var s := ", " + x; Skip(s) == s && At(s, ',') && s[1..] == " " + x && EndsItem(s)
  {
    var s := ", " + x;
    assert Skip(s) == s;
    assert WordAt(s) == "";
  }

  lemma {:induction false} ItemsRead(st: B.Style, kind: ListKind, ns: seq<Node>, lead: string, tail: string)
    requires Reserves(st) && ns != [] && AreItems(st, kind, ns) && EndsList(tail) && (lead == "" || lead == " ")
    ensures ReadItems(kind, lead + (Text(st, ns[0]) + More(st, ns[1..], tail))) == Items(ns, tail)
    decreases |ns|
  {
    var more := More(st, ns[1..], tail);
    var s := lead + (Text(st, ns[0]) + more);
    if |ns| == 1 {
      LastItem(st, kind, ns, lead, tail);
    } else {
      ListedText(st, ns[1..], ", ", tail);
      var x := Text(st, ns[1]) + More(st, ns[1..][1..], tail);
      assert more == ", " + x;
      CommaFound(x);
      ItemReads(st, kind, ns[0], lead, more);
      ItemsRead(st, kind, ns[1..], " ", tail);
      OneMore(kind, s, ns[0], more, ns[1..], tail);
      assert [ns[0]] + ns[1..] == ns;
    }
  }

  lemma LastItem(st: B.Style, kind: ListKind, ns: seq<Node>, lead: string, tail: string)
    requires Reserves(st) && |ns| == 1 && AreItems(st, kind, ns) && EndsList(tail) && (lead == "" || lead == " ")
    ensures ReadItems(kind, lead + (Text(st, ns[0]) + More(st, ns[1..], tail))) == Items(ns, tail)
  {
    assert ns[1..] == [] && ns == [ns[0]] && More(st, [], tail) == tail;
    ItemReads(st, kind, ns[0], lead, tail);
  }

  lemma OneMore(kind: ListKind, s: string, n: Node, more: string, ns: seq<Node>, tail: string)
    requires ReadItem(kind, s) == Read(n, more) && Skip(more) == more && At(more, ',')
    requires ReadItems(kind, more[1..]) == Items(ns, tail)
    ensures ReadItems(kind, s) == Items([n] + ns, tail)
  {
  }
}
