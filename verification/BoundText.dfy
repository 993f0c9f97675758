/** The text that GenerateQuery makes is the text of the statement with its variables replaced by values
    (sqlparser/parsed_query.go), and it is read back as that statement. */
module BoundText {
  import opened Wrappers
  import opened Ast
  import opened Sequences
  import opened SqlReader
  import opened ReadBack
  import B = TrackedBuffer
  import C = ConditionReadBack
  import S = StatementReadBack
  import T = Tokenizer

  // ---------------------------------------------------------------- values as trees

  /** The trees that stand for variables, by the variable as it is written. */
  type Values = string -> Option<Node>

  function ScalarNode(v: B.Scalar): Node {
    match v
    case Null => NullVal
    case Num(digits) => NumVal(digits)
    case Bytes(text) => StrVal(text)
  }

  predicate AllOnes(items: seq<B.BindVal>) { forall i :: 0 <= i < |items| ==> items[i].One? }

  function ScalarNodes(items: seq<B.BindVal>): (r: seq<Node>)
    requires AllOnes(items)
    ensures |r| == |items| && forall i :: 0 <= i < |r| ==> r[i] == ScalarNode(items[i].v)
  {
    seq(|items|, (i: nat) requires i < |items| => ScalarNode(items[i].v))
  }

  /** A variable written `:key` stands for the value of `key`, a literal; a list written `::key` for its
      values, a tuple of literals. */
  function ValueNode(name: string, vars: map<string, B.BindVal>): Option<Node> {
    if "::" <= name && name[2..] in vars && IsListed(vars[name[2..]]) then
      Some(ValTuple(ScalarNodes(vars[name[2..]].items)))
    else if ":" <= name && name != ":" && name[1] != ':' && name[1..] in vars && vars[name[1..]].One? then
      Some(ScalarNode(vars[name[1..]].v))
    else None
  }

  predicate IsListed(v: B.BindVal) { v.List? && v.items != [] && AllOnes(v.items) }

  // ---------------------------------------------------------------- replacing parts

  function MapAll(ns: seq<Node>, g: Node -> Node): (r: seq<Node>)
    ensures |r| == |ns| && forall i :: 0 <= i < |r| ==> r[i] == g(ns[i])
  {
    seq(|ns|, (i: nat) requires i < |ns| => g(ns[i]))
  }

  function MapMaybe(n: Option<Node>, g: Node -> Node): Option<Node> { if n.None? then None else Some(g(n.value)) }

  function MapStatement(n: Node, g: Node -> Node): (r: Node)
    requires B.IsStatement(n)
    ensures B.IsStatement(r)
  {
    match n
    case Select(c, d, e, from, w, gr, h, o, l, lock) =>
      Node.Select(g(c), d, g(e), g(from), g(w), g(gr), g(h), g(o), g(l), lock)
    case Union(typ, l, r) => Union(typ, g(l), g(r))
    case Insert(c, t, cs, rs, d) => Insert(g(c), g(t), g(cs), g(rs), g(d))
    case Replace(c, t, cs, rs, d) => Replace(g(c), g(t), g(cs), g(rs), g(d))
    case Update(c, t, e, w, o, l) => Node.Update(g(c), g(t), g(e), g(w), g(o), g(l))
    case Delete(c, t, w, o, l) => Node.Delete(g(c), g(t), g(w), g(o), g(l))
    case Set(c, e) => Set(g(c), g(e))
    case SimpleSelect(c, d, e) => SimpleSelect(g(c), d, g(e))
  }

  function MapTable(n: Node, g: Node -> Node): (r: Node)
    requires B.IsTable(n)
    ensures B.IsTable(r)
  {
    match n
    case TableExprs(items) => TableExprs(MapAll(items, g))
    case AliasedTableExpr(e, a, h) => AliasedTableExpr(g(e), a, MapMaybe(h, g))
    case ParenTableExpr(e) => ParenTableExpr(g(e))
    case JoinTableExpr(l, j, r, on) => JoinTableExpr(g(l), j, g(r), MapMaybe(on, g))
    case _ => n
  }

  function MapList(n: Node, g: Node -> Node): (r: Node)
    requires B.IsList(n)
    ensures B.IsList(r)
  {
    match n
    case Comments(_) => n
    case SelectExprs(items) => SelectExprs(MapAll(items, g))
    case Columns(items) => Columns(MapAll(items, g))
    case GroupBy(items) => GroupBy(MapAll(items, g))
    case OrderBy(items) => OrderBy(MapAll(items, g))
    case Values(items) => Node.Values(MapAll(items, g))
    case UpdateExprs(items) => UpdateExprs(MapAll(items, g))
    case OnDup(items) => OnDup(MapAll(items, g))
    case ValTuple(items) => ValTuple(MapAll(items, g))
  }

  function MapClause(n: Node, g: Node -> Node): (r: Node)
    requires B.IsClause(n)
    ensures B.IsClause(r)
  {
    match n
    case NonStarExpr(e, a) => NonStarExpr(g(e), a)
    case Where(typ, c) => Where(typ, MapMaybe(c, g))
    case Order(e, d) => Order(g(e), d)
    case Limit(o, r) => Limit(MapMaybe(o, g), g(r))
    case UpdateExpr(c, e) => UpdateExpr(g(c), g(e))
    case _ => n
  }

  function MapBool(n: Node, g: Node -> Node): (r: Node)
    requires B.IsBool(n)
    ensures B.IsBool(r)
  {
    match n
    case AndExpr(l, r) => AndExpr(g(l), g(r))
    case OrExpr(l, r) => OrExpr(g(l), g(r))
    case NotExpr(e) => NotExpr(g(e))
    case ParenBoolExpr(e) => ParenBoolExpr(g(e))
    case ComparisonExpr(op, l, r) => ComparisonExpr(op, g(l), g(r))
    case RangeCond(op, l, lo, hi) => RangeCond(op, g(l), g(lo), g(hi))
    case NullCheck(op, e) => NullCheck(op, g(e))
    case ExistsExpr(s) => ExistsExpr(g(s))
  }

  function MapCompound(n: Node, g: Node -> Node): (r: Node)
    requires B.IsCompound(n)
    ensures B.IsCompound(r)
  {
    match n
    case FuncExpr(name, d, e) => FuncExpr(name, d, g(e))
    case CaseExpr(s, ws, o) => CaseExpr(MapMaybe(s, g), MapAll(ws, g), MapMaybe(o, g))
    case When(t, v) => When(g(t), g(v))
  }

  predicate IsOther(n: Node) {
    !B.IsStatement(n) && !B.IsTable(n) && !B.IsList(n) && !B.IsClause(n) && !B.IsBool(n) && !B.IsCompound(n)
  }

  function MapOther(n: Node, g: Node -> Node): (r: Node)
    requires IsOther(n)
    ensures IsOther(r)
  {
    match n
    case Subquery(s) => Subquery(g(s))
    case BinaryExpr(op, l, r) => BinaryExpr(op, g(l), g(r))
    case UnaryExpr(op, e) => UnaryExpr(op, g(e))
    case _ => n
  }

  /** A tree with `g` applied to its parts. */
  function MapParts(n: Node, g: Node -> Node): Node {
    if B.IsStatement(n) then MapStatement(n, g)
    else if B.IsTable(n) then MapTable(n, g)
    else if B.IsList(n) then MapList(n, g)
    else if B.IsClause(n) then MapClause(n, g)
    else if B.IsBool(n) then MapBool(n, g)
    else if B.IsCompound(n) then MapCompound(n, g)
    else MapOther(n, g)
  }

  predicate IsVariable(n: Node) { n.ValArg? || n.ListArg? }

  /** A tree with every variable that has a value replaced by it. */
  ghost function Bound(n: Node, f: Values): Node
    decreases n
  {
    if IsVariable(n) then (if f(n.arg).Some? then f(n.arg).value else n)
    else MapParts(n, (m: Node) => if m < n then Bound(m, f) else m)
  }

  // ---------------------------------------------------------------- layouts

  function MapSeg(s: B.Seg, g: Node -> Node): B.Seg { if s.Sub? then B.Sub(g(s.node)) else s }

  function MapSegs(segs: seq<B.Seg>, g: Node -> Node): (r: seq<B.Seg>)
    ensures |r| == |segs| && forall i :: 0 <= i < |r| ==> r[i] == MapSeg(segs[i], g)
  {
    seq(|segs|, (i: nat) requires i < |segs| => MapSeg(segs[i], g))
  }

  predicate NoArg(segs: seq<B.Seg>) { forall s :: s in segs ==> !s.Arg? }

  lemma MapAppend(a: seq<B.Seg>, b: seq<B.Seg>, g: Node -> Node)
    ensures MapSegs(a + b, g) == MapSegs(a, g) + MapSegs(b, g)
    ensures NoArg(a) && NoArg(b) ==> NoArg(a + b)
  {
  }

  lemma MapTail(ns: seq<Node>, g: Node -> Node)
    requires ns != []
    ensures MapAll(ns, g)[1..] == MapAll(ns[1..], g) && MapAll(ns, g)[0] == g(ns[0])
  {
  }

  lemma Map2(a: B.Seg, b: B.Seg, g: Node -> Node)
    ensures MapSegs([a, b], g) == [MapSeg(a, g), MapSeg(b, g)]
    ensures !a.Arg? && !b.Arg? ==> NoArg([a, b])
  {
  }

  lemma ListedHead(ns: seq<Node>, first: string, sep: string)
    requires ns != []
    ensures B.Listed(ns, first, sep) == [B.Str(first), B.Sub(ns[0])] + B.Listed(ns[1..], sep, sep)
  {
  }

  lemma {:induction false} MapListed(ns: seq<Node>, first: string, sep: string, g: Node -> Node)
    ensures B.Listed(MapAll(ns, g), first, sep) == MapSegs(B.Listed(ns, first, sep), g)
    ensures NoArg(B.Listed(ns, first, sep))
  {
    if ns != [] {
      MapTail(ns, g);
      MapListed(ns[1..], sep, sep, g);
      ListedHead(ns, first, sep);
      ListedHead(MapAll(ns, g), first, sep);
      Map2(B.Str(first), B.Sub(ns[0]), g);
      MapAppend([B.Str(first), B.Sub(ns[0])], B.Listed(ns[1..], sep, sep), g);
    }
  }

  lemma SpacedHead(ns: seq<Node>)
    requires ns != []
    ensures B.SpacedNodes(ns) == [B.Sub(ns[0]), B.Lit(" ")] + B.SpacedNodes(ns[1..])
  {
  }

  lemma {:induction false} MapSpaced(ns: seq<Node>, g: Node -> Node)
    ensures B.SpacedNodes(MapAll(ns, g)) == MapSegs(B.SpacedNodes(ns), g) && NoArg(B.SpacedNodes(ns))
  {
    if ns != [] {
      MapTail(ns, g);
      MapSpaced(ns[1..], g);
      SpacedHead(ns);
      SpacedHead(MapAll(ns, g));
      Map2(B.Sub(ns[0]), B.Lit(" "), g);
      MapAppend([B.Sub(ns[0]), B.Lit(" ")], B.SpacedNodes(ns[1..]), g);
    }
  }

  lemma MapMaybeSegs(before: string, n: Option<Node>, after: string, g: Node -> Node)
    ensures B.Maybe(before, MapMaybe(n, g), after) == MapSegs(B.Maybe(before, n, after), g)
    ensures NoArg(B.Maybe(before, n, after))
  {
  }

  /** `segs'` are `segs` with their parts replaced. */
  ghost predicate Mapped(segs: seq<B.Seg>, segs': seq<B.Seg>, g: Node -> Node) {
    segs' == MapSegs(segs, g) && NoArg(segs)
  }

  lemma MappedAppend(a: seq<B.Seg>, a': seq<B.Seg>, b: seq<B.Seg>, b': seq<B.Seg>, g: Node -> Node)
    requires Mapped(a, a', g) && Mapped(b, b', g)
    ensures Mapped(a + b, a' + b', g)
  {
    MapAppend(a, b, g);
  }

  lemma Mapped0(g: Node -> Node)
    ensures Mapped([], [], g)
  {
  }

  lemma Mapped1(a: B.Seg, g: Node -> Node)
    requires !a.Arg?
    ensures Mapped([a], [MapSeg(a, g)], g)
  {
  }

  lemma Mapped2(a: B.Seg, b: B.Seg, g: Node -> Node)
    requires !a.Arg? && !b.Arg?
    ensures Mapped([a, b], [MapSeg(a, g), MapSeg(b, g)], g)
  {
  }

  lemma Mapped3(a: B.Seg, b: B.Seg, c: B.Seg, g: Node -> Node)
    requires !a.Arg? && !b.Arg? && !c.Arg?
    ensures Mapped([a, b, c], [MapSeg(a, g), MapSeg(b, g), MapSeg(c, g)], g)
  {
  }

  lemma Mapped4(a: B.Seg, b: B.Seg, c: B.Seg, d: B.Seg, g: Node -> Node)
    requires !a.Arg? && !b.Arg? && !c.Arg? && !d.Arg?
    ensures Mapped([a, b, c, d], [MapSeg(a, g), MapSeg(b, g), MapSeg(c, g), MapSeg(d, g)], g)
  {
  }

  lemma Mapped5(a: B.Seg, b: B.Seg, c: B.Seg, d: B.Seg, e: B.Seg, g: Node -> Node)
    requires !a.Arg? && !b.Arg? && !c.Arg? && !d.Arg? && !e.Arg?
    ensures Mapped([a, b, c, d, e], [MapSeg(a, g), MapSeg(b, g), MapSeg(c, g), MapSeg(d, g), MapSeg(e, g)], g)
  {
  }

  lemma MappedListed(ns: seq<Node>, first: string, sep: string, g: Node -> Node)
    ensures Mapped(B.Listed(ns, first, sep), B.Listed(MapAll(ns, g), first, sep), g)
  {
    MapListed(ns, first, sep, g);
  }

  lemma MappedMaybe(before: string, n: Option<Node>, after: string, g: Node -> Node)
    ensures Mapped(B.Maybe(before, n, after), B.Maybe(before, MapMaybe(n, g), after), g)
  {
    MapMaybeSegs(before, n, after, g);
  }

  /** Three parts, one after the other. */
  lemma MappedThree(a: seq<B.Seg>, a': seq<B.Seg>, b: seq<B.Seg>, b': seq<B.Seg>, c: seq<B.Seg>, c': seq<B.Seg>,
                    g: Node -> Node)
    requires Mapped(a, a', g) && Mapped(b, b', g) && Mapped(c, c', g)
    ensures Mapped(a + b + c, a' + b' + c', g)
  {
    MappedAppend(a, a', b, b', g);
    MappedAppend(a + b, a' + b', c, c', g);
  }

  lemma BoolMapped(st: B.Style, n: Node, g: Node -> Node)
    requires B.IsBool(n)
    ensures Mapped(B.BoolLayout(st, n), B.BoolLayout(st, MapBool(n, g)), g)
  {
  }

  function Subs(a: Node, b: Node, c: Node): seq<B.Seg> { [B.Sub(a), B.Sub(b), B.Sub(c)] }

  function Ending(orderBy: Node, limit: Node, lock: string): seq<B.Seg> { [B.Sub(orderBy), B.Sub(limit), B.Str(lock)] }

  lemma SelectParts(st: B.Style, c: Node, d: string, e: Node, from: Node, w: Node, gr: Node, h: Node, o: Node, l: Node,
                    lock: string)
    ensures B.StatementLayout(st, Node.Select(c, d, e, from, w, gr, h, o, l, lock)) ==
            if st.impossible then [B.Lit("select "), B.Sub(e), B.Lit(" from "), B.Sub(from), B.Lit(" where 1 != 1")]
            else (S.SelectSegs(c, d, e) + S.FromSegs(from)) + (Subs(w, gr, h) + Ending(o, l, lock))
  {
  }

  lemma HeadMapped(c: Node, d: string, e: Node, from: Node, g: Node -> Node)
    ensures Mapped(S.SelectSegs(c, d, e) + S.FromSegs(from), S.SelectSegs(g(c), d, g(e)) + S.FromSegs(g(from)), g)
  {
    Mapped4(B.Lit("select "), B.Sub(c), B.Str(d), B.Sub(e), g);
    Mapped2(B.Lit(" from "), B.Sub(from), g);
    MappedAppend(S.SelectSegs(c, d, e), S.SelectSegs(g(c), d, g(e)), S.FromSegs(from), S.FromSegs(g(from)), g);
  }

  lemma SubsMapped(a: Node, b: Node, c: Node, g: Node -> Node)
    ensures Mapped(Subs(a, b, c), Subs(g(a), g(b), g(c)), g)
  {
    Mapped3(B.Sub(a), B.Sub(b), B.Sub(c), g);
  }

  lemma BodyMapped(w: Node, gr: Node, h: Node, o: Node, l: Node, lock: string, g: Node -> Node)
    ensures Mapped(Subs(w, gr, h) + Ending(o, l, lock), Subs(g(w), g(gr), g(h)) + Ending(g(o), g(l), lock), g)
  {
    SubsMapped(w, gr, h, g);
    Mapped3(B.Sub(o), B.Sub(l), B.Str(lock), g);
    MappedAppend(Subs(w, gr, h), Subs(g(w), g(gr), g(h)), Ending(o, l, lock), Ending(g(o), g(l), lock), g);
  }

  lemma SelectMapped(st: B.Style, n: Node, g: Node -> Node)
    requires n.Select?
    ensures Mapped(B.StatementLayout(st, n), B.StatementLayout(st, MapStatement(n, g)), g)
  {
    match n
    case Select(c, d, e, from, w, gr, h, o, l, lock) =>
      SelectParts(st, c, d, e, from, w, gr, h, o, l, lock);
      SelectParts(st, g(c), d, g(e), g(from), g(w), g(gr), g(h), g(o), g(l), lock);
      Mapped5(B.Lit("select "), B.Sub(e), B.Lit(" from "), B.Sub(from), B.Lit(" where 1 != 1"), g);
      HeadMapped(c, d, e, from, g);
      BodyMapped(w, gr, h, o, l, lock, g);
      MappedAppend(S.SelectSegs(c, d, e) + S.FromSegs(from), S.SelectSegs(g(c), d, g(e)) + S.FromSegs(g(from)),
                   Subs(w, gr, h) + Ending(o, l, lock), Subs(g(w), g(gr), g(h)) + Ending(g(o), g(l), lock), g);
  }

  lemma UpdateParts(st: B.Style, c: Node, t: Node, e: Node, w: Node, o: Node, l: Node)
    ensures B.StatementLayout(st, Node.Update(c, t, e, w, o, l)) == S.UpdateSegs(c, t, e) + Subs(w, o, l)
    ensures B.StatementLayout(st, Node.Delete(c, t, w, o, l)) == S.DeleteSegs(c, t) + Subs(w, o, l)
  {
  }

  lemma UpdateMapped(st: B.Style, n: Node, g: Node -> Node)
    requires n.Update?
    ensures Mapped(B.StatementLayout(st, n), B.StatementLayout(st, MapStatement(n, g)), g)
  {
    match n
    case Update(c, t, e, w, o, l) =>
      UpdateParts(st, c, t, e, w, o, l);
      UpdateParts(st, g(c), g(t), g(e), g(w), g(o), g(l));
      Mapped5(B.Lit("update "), B.Sub(c), B.Sub(t), B.Lit(" set "), B.Sub(e), g);
      SubsMapped(w, o, l, g);
      MappedAppend(S.UpdateSegs(c, t, e), S.UpdateSegs(g(c), g(t), g(e)), Subs(w, o, l), Subs(g(w), g(o), g(l)), g);
  }

  lemma DeleteMapped(st: B.Style, n: Node, g: Node -> Node)
    requires n.Delete?
    ensures Mapped(B.StatementLayout(st, n), B.StatementLayout(st, MapStatement(n, g)), g)
  {
    match n
    case Delete(c, t, w, o, l) =>
      UpdateParts(st, c, t, c, w, o, l);
      UpdateParts(st, g(c), g(t), g(c), g(w), g(o), g(l));
      Mapped4(B.Lit("delete "), B.Sub(c), B.Lit("from "), B.Sub(t), g);
      SubsMapped(w, o, l, g);
      MappedAppend(S.DeleteSegs(c, t), S.DeleteSegs(g(c), g(t)), Subs(w, o, l), Subs(g(w), g(o), g(l)), g);
  }

  /** What INSERT and REPLACE begin and end with. */
  function IntoSegs(verb: string, c: Node, t: Node, cs: Node): seq<B.Seg> {
    [B.Lit(verb), B.Sub(c), B.Lit("into "), B.Sub(t), B.Sub(cs)]
  }

  function RowSegs(rows: Node, dup: Node): seq<B.Seg> { [B.Lit(" "), B.Sub(rows), B.Sub(dup)] }

  lemma InsertParts(st: B.Style, c: Node, t: Node, cs: Node, rs: Node, d: Node)
    ensures B.StatementLayout(st, Insert(c, t, cs, rs, d)) == IntoSegs("insert ", c, t, cs) + RowSegs(rs, d)
    ensures B.StatementLayout(st, Replace(c, t, cs, rs, d)) == IntoSegs("replace ", c, t, cs) + RowSegs(rs, d)
  {
  }

  lemma IntoMapped(verb: string, c: Node, t: Node, cs: Node, rs: Node, d: Node, g: Node -> Node)
    ensures Mapped(IntoSegs(verb, c, t, cs) + RowSegs(rs, d), IntoSegs(verb, g(c), g(t), g(cs)) + RowSegs(g(rs), g(d)), g)
  {
    Mapped5(B.Lit(verb), B.Sub(c), B.Lit("into "), B.Sub(t), B.Sub(cs), g);
    Mapped3(B.Lit(" "), B.Sub(rs), B.Sub(d), g);
    MappedAppend(IntoSegs(verb, c, t, cs), IntoSegs(verb, g(c), g(t), g(cs)), RowSegs(rs, d), RowSegs(g(rs), g(d)), g);
  }

  lemma InsertMapped(st: B.Style, n: Node, g: Node -> Node)
    requires n.Insert? || n.Replace?
    ensures Mapped(B.StatementLayout(st, n), B.StatementLayout(st, MapStatement(n, g)), g)
  {
    match n
    case Insert(c, t, cs, rs, d) =>
      InsertParts(st, c, t, cs, rs, d);
      InsertParts(st, g(c), g(t), g(cs), g(rs), g(d));
      IntoMapped("insert ", c, t, cs, rs, d, g);
    case Replace(c, t, cs, rs, d) =>
      InsertParts(st, c, t, cs, rs, d);
      InsertParts(st, g(c), g(t), g(cs), g(rs), g(d));
      IntoMapped("replace ", c, t, cs, rs, d, g);
  }

  lemma ShortMapped(st: B.Style, n: Node, g: Node -> Node)
    requires n.Union? || n.Set? || n.SimpleSelect?
    ensures Mapped(B.StatementLayout(st, n), B.StatementLayout(st, MapStatement(n, g)), g)
  {
  }

  lemma StatementMapped(st: B.Style, n: Node, g: Node -> Node)
    requires B.IsStatement(n)
    ensures Mapped(B.StatementLayout(st, n), B.StatementLayout(st, MapStatement(n, g)), g)
  {
    if n.Select? {
      SelectMapped(st, n, g);
    } else if n.Update? {
      UpdateMapped(st, n, g);
    } else if n.Delete? {
      DeleteMapped(st, n, g);
    } else if n.Insert? || n.Replace? {
      InsertMapped(st, n, g);
    } else {
      ShortMapped(st, n, g);
    }
  }

  lemma AliasedMapped(e: Node, alias: Option<string>, hints: Option<Node>, g: Node -> Node)
    ensures var a := if alias.Some? then [B.Lit(" as "), B.Str(alias.value)] else [];
            Mapped([B.Sub(e)] + a + B.Maybe("", hints, ""), [B.Sub(g(e))] + a + B.Maybe("", MapMaybe(hints, g), ""), g)
  {
    var a := if alias.Some? then [B.Lit(" as "), B.Str(alias.value)] else [];
    Mapped1(B.Sub(e), g);
    if alias.Some? { Mapped2(B.Lit(" as "), B.Str(alias.value), g); } else { Mapped0(g); }
    MappedMaybe("", hints, "", g);
    MappedThree([B.Sub(e)], [B.Sub(g(e))], a, a, B.Maybe("", hints, ""), B.Maybe("", MapMaybe(hints, g), ""), g);
  }

  /** What a join prints after its tables. */
  function OnSegs(st: B.Style, join: string, on: Option<Node>): seq<B.Seg> {
    if !st.impossible then B.Maybe(" on ", on, "")
    else if join == "left join" || join == "right join" then [B.Lit(" on 1 != 1")] else []
  }

  lemma OnMapped(st: B.Style, join: string, on: Option<Node>, g: Node -> Node)
    ensures Mapped(OnSegs(st, join, on), OnSegs(st, join, MapMaybe(on, g)), g)
  {
    MappedMaybe(" on ", on, "", g);
    Mapped1(B.Lit(" on 1 != 1"), g);
    Mapped0(g);
  }

  lemma JoinMapped(st: B.Style, l: Node, join: string, r: Node, on: Option<Node>, g: Node -> Node)
    ensures Mapped([B.Sub(l), B.Lit(" "), B.Str(join), B.Lit(" "), B.Sub(r)] + OnSegs(st, join, on),
                   [B.Sub(g(l)), B.Lit(" "), B.Str(join), B.Lit(" "), B.Sub(g(r))] + OnSegs(st, join, MapMaybe(on, g)), g)
  {
    Mapped5(B.Sub(l), B.Lit(" "), B.Str(join), B.Lit(" "), B.Sub(r), g);
    OnMapped(st, join, on, g);
    MappedAppend([B.Sub(l), B.Lit(" "), B.Str(join), B.Lit(" "), B.Sub(r)],
                 [B.Sub(g(l)), B.Lit(" "), B.Str(join), B.Lit(" "), B.Sub(g(r))],
                 OnSegs(st, join, on), OnSegs(st, join, MapMaybe(on, g)), g);
  }

  lemma {:induction false} TextsMapped(items: seq<string>, first: string, sep: string, g: Node -> Node)
    ensures Mapped(B.Texts(items, first, sep), B.Texts(items, first, sep), g)
  {
    var segs := B.Texts(items, first, sep);
    forall i | 0 <= i < |segs|
      ensures MapSeg(segs[i], g) == segs[i] && !segs[i].Arg?
    {
      assert segs[i] in segs;
    }
  }

  lemma HintsMapped(typ: string, indexes: seq<string>, g: Node -> Node)
    ensures var s := [B.Lit(" "), B.Str(typ), B.Lit(" index ")] + B.Texts(indexes, "(", ", ") + [B.Lit(")")];
            Mapped(s, s, g)
  {
    TextsMapped(indexes, "(", ", ", g);
  }

  lemma NameMapped(st: B.Style, name: string, qualifier: Option<string>, g: Node -> Node)
    ensures Mapped(B.Qualified(st, name, qualifier), B.Qualified(st, name, qualifier), g)
  {
  }

  lemma TableMapped(st: B.Style, n: Node, g: Node -> Node)
    requires B.IsTable(n)
    ensures Mapped(B.TableLayout(st, n), B.TableLayout(st, MapTable(n, g)), g)
  {
    match n
    case TableExprs(items) => MappedListed(items, "", ", ", g);
    case AliasedTableExpr(e, a, h) => AliasedMapped(e, a, h, g);
    case TableName(name, qualifier) => NameMapped(st, name, qualifier, g);
    case ParenTableExpr(e) =>
    case JoinTableExpr(l, j, r, on) => JoinMapped(st, l, j, r, on, g);
    case IndexHints(typ, indexes) => HintsMapped(typ, indexes, g);
  }

  lemma Enclosed(items: seq<Node>, g: Node -> Node)
    ensures Mapped([B.Lit("(")] + B.Listed(items, "", ", ") + [B.Lit(")")],
                   [B.Lit("(")] + B.Listed(MapAll(items, g), "", ", ") + [B.Lit(")")], g)
  {
    MappedListed(items, "", ", ", g);
    Mapped1(B.Lit("("), g);
    Mapped1(B.Lit(")"), g);
    MappedThree([B.Lit("(")], [B.Lit("(")], B.Listed(items, "", ", "), B.Listed(MapAll(items, g), "", ", "),
                [B.Lit(")")], [B.Lit(")")], g);
  }

  lemma DupMapped(items: seq<Node>, g: Node -> Node)
    ensures var on := [B.Lit(" on duplicate key update ")];
            Mapped(on + B.Listed(items, "", ", "), on + B.Listed(MapAll(items, g), "", ", "), g)
  {
    var on := B.Lit(" on duplicate key update ");
    Mapped1(on, g);
    MappedListed(items, "", ", ", g);
    MappedAppend([on], [on], B.Listed(items, "", ", "), B.Listed(MapAll(items, g), "", ", "), g);
  }

  lemma ListMapped(st: B.Style, n: Node, g: Node -> Node)
    requires B.IsList(n)
    ensures Mapped(B.ListLayout(st, n), B.ListLayout(st, MapList(n, g)), g)
  {
    match n
    case Comments(lines) => TextsMapped(B.Spaced(lines), "", "", g);
    case SelectExprs(items) => MappedListed(items, "", ", ", g);
    case Columns(items) => Enclosed(items, g); Mapped0(g);
    case GroupBy(items) => MappedListed(items, " group by ", ", ", g);
    case OrderBy(items) => MappedListed(items, " order by ", ", ", g);
    case Values(items) => MappedListed(items, "values ", ", ", g);
    case UpdateExprs(items) => MappedListed(items, "", ", ", g);
    case OnDup(items) => DupMapped(items, g); Mapped0(g);
    case ValTuple(items) => Enclosed(items, g);
  }

  lemma LimitMapped(offset: Option<Node>, rowcount: Node, g: Node -> Node)
    ensures var l := [B.Lit(" limit ")];
            Mapped(l + B.Maybe("", offset, ", ") + [B.Sub(rowcount)],
                   l + B.Maybe("", MapMaybe(offset, g), ", ") + [B.Sub(g(rowcount))], g)
  {
    var l := B.Lit(" limit ");
    Mapped1(l, g);
    MappedMaybe("", offset, ", ", g);
    Mapped1(B.Sub(rowcount), g);
    MappedThree([l], [l], B.Maybe("", offset, ", "), B.Maybe("", MapMaybe(offset, g), ", "),
                [B.Sub(rowcount)], [B.Sub(g(rowcount))], g);
  }

  lemma ClauseMapped(st: B.Style, n: Node, g: Node -> Node)
    requires B.IsClause(n)
    ensures Mapped(B.ClauseLayout(st, n), B.ClauseLayout(st, MapClause(n, g)), g)
  {
    if n.Limit? { LimitMapped(n.offset, n.rowcount, g); }
  }

  lemma CaseMapped(subject: Option<Node>, whens: seq<Node>, otherwise: Option<Node>, g: Node -> Node)
    ensures Mapped(B.CaseSegs(subject, whens, otherwise),
                   B.CaseSegs(MapMaybe(subject, g), MapAll(whens, g), MapMaybe(otherwise, g)), g)
  {
    var a, z := [B.Lit("case ")], [B.Lit("end")];
    var b, b' := B.Maybe("", subject, " "), B.Maybe("", MapMaybe(subject, g), " ");
    var c, c' := B.SpacedNodes(whens), B.SpacedNodes(MapAll(whens, g));
    var d, d' := B.Maybe("else ", otherwise, " "), B.Maybe("else ", MapMaybe(otherwise, g), " ");
    Mapped1(B.Lit("case "), g);
    Mapped1(B.Lit("end"), g);
    MappedMaybe("", subject, " ", g);
    MapSpaced(whens, g);
    MappedMaybe("else ", otherwise, " ", g);
    MappedThree(a, a, b, b', c, c', g);
    MappedThree(a + b + c, a + b' + c', d, d', z, z, g);
  }

  lemma CompoundMapped(st: B.Style, n: Node, g: Node -> Node)
    requires B.IsCompound(n)
    ensures Mapped(B.CompoundLayout(st, n), B.CompoundLayout(st, MapCompound(n, g)), g)
  {
    if n.CaseExpr? { CaseMapped(n.subject, n.whens, n.otherwise, g); }
  }

  lemma OtherMapped(st: B.Style, n: Node, g: Node -> Node)
    requires IsOther(n) && !IsVariable(n)
    ensures Mapped(B.ValueLayout(st, n), B.ValueLayout(st, MapOther(n, g)), g)
  {
  }

  /** Replacing the parts of a tree replaces them in its layout. */
  ghost predicate Follows(st: B.Style, n: Node, g: Node -> Node) {
    Mapped(B.Layout(st, n), B.Layout(st, MapParts(n, g)), g)
  }

  lemma FollowsBy(st: B.Style, n: Node, g: Node -> Node, segs: seq<B.Seg>, segs': seq<B.Seg>)
    requires B.Layout(st, n) == segs && B.Layout(st, MapParts(n, g)) == segs' && Mapped(segs, segs', g)
    ensures Follows(st, n, g)
  {
  }

  lemma StatementFollows(st: B.Style, n: Node, g: Node -> Node)
    requires B.IsStatement(n)
    ensures Follows(st, n, g)
  {
    StatementMapped(st, n, g);
    FollowsBy(st, n, g, B.StatementLayout(st, n), B.StatementLayout(st, MapStatement(n, g)));
  }

  lemma TableFollows(st: B.Style, n: Node, g: Node -> Node)
    requires B.IsTable(n)
    ensures Follows(st, n, g)
  {
    TableMapped(st, n, g);
    FollowsBy(st, n, g, B.TableLayout(st, n), B.TableLayout(st, MapTable(n, g)));
  }

  lemma ListIs(st: B.Style, n: Node, g: Node -> Node)
    requires B.IsList(n)
    ensures B.Layout(st, n) == B.ListLayout(st, n) && MapParts(n, g) == MapList(n, g)
  {
  }

  lemma ListFollows(st: B.Style, n: Node, g: Node -> Node)
    requires B.IsList(n)
    ensures Follows(st, n, g)
  {
    ListMapped(st, n, g);
    ListIs(st, n, g);
    ListIs(st, MapList(n, g), g);
    FollowsBy(st, n, g, B.ListLayout(st, n), B.ListLayout(st, MapList(n, g)));
  }

  lemma ClauseIs(st: B.Style, n: Node, g: Node -> Node)
    requires B.IsClause(n)
    ensures B.Layout(st, n) == B.ClauseLayout(st, n) && MapParts(n, g) == MapClause(n, g)
  {
  }

  lemma ClauseFollows(st: B.Style, n: Node, g: Node -> Node)
    requires B.IsClause(n)
    ensures Follows(st, n, g)
  {
    ClauseMapped(st, n, g);
    ClauseIs(st, n, g);
    ClauseIs(st, MapClause(n, g), g);
    FollowsBy(st, n, g, B.ClauseLayout(st, n), B.ClauseLayout(st, MapClause(n, g)));
  }

  lemma BoolIs(st: B.Style, n: Node, g: Node -> Node)
    requires B.IsBool(n)
    ensures B.Layout(st, n) == B.BoolLayout(st, n) && MapParts(n, g) == MapBool(n, g)
  {
  }

  lemma BoolFollows(st: B.Style, n: Node, g: Node -> Node)
    requires B.IsBool(n)
    ensures Follows(st, n, g)
  {
    BoolMapped(st, n, g);
    BoolIs(st, n, g);
    BoolIs(st, MapBool(n, g), g);
    FollowsBy(st, n, g, B.BoolLayout(st, n), B.BoolLayout(st, MapBool(n, g)));
  }

  lemma CompoundOnly(n: Node)
    requires B.IsCompound(n)
    ensures !B.IsStatement(n) && !B.IsTable(n) && !B.IsList(n) && !B.IsClause(n) && !B.IsBool(n)
  {
  }

  lemma CompoundIs(st: B.Style, n: Node, g: Node -> Node)
    requires B.IsCompound(n)
    ensures B.Layout(st, n) == B.CompoundLayout(st, n) && MapParts(n, g) == MapCompound(n, g)
  {
    CompoundOnly(n);
  }

  lemma CompoundFollows(st: B.Style, n: Node, g: Node -> Node)
    requires B.IsCompound(n)
    ensures Follows(st, n, g)
  {
    CompoundMapped(st, n, g);
    CompoundIs(st, n, g);
    CompoundIs(st, MapCompound(n, g), g);
    FollowsBy(st, n, g, B.CompoundLayout(st, n), B.CompoundLayout(st, MapCompound(n, g)));
  }

  lemma LayoutMapped(st: B.Style, n: Node, g: Node -> Node)
    requires !IsVariable(n)
    ensures Follows(st, n, g)
  {
    if B.IsStatement(n) {
      StatementFollows(st, n, g);
    } else if B.IsTable(n) {
      TableFollows(st, n, g);
    } else if B.IsList(n) {
      ListFollows(st, n, g);
    } else if B.IsClause(n) {
      ClauseFollows(st, n, g);
    } else if B.IsBool(n) {
      BoolFollows(st, n, g);
    } else if B.IsCompound(n) {
      CompoundFollows(st, n, g);
    } else {
      OtherMapped(st, n, g);
    }
  }

  // ---------------------------------------------------------------- filling is binding

  /** Every variable printed has a value. */
  ghost predicate HaveValues(pieces: seq<B.Piece>, f: Values) {
    forall p :: p in pieces && p.Bind? ==> f(p.name).Some?
  }

  /** Variables are written as their values are. */
  ghost predicate Agree(st: B.Style, f: Values, enc: B.Encoder) {
    forall name :: f(name).Some? ==> enc(name) == B.Text(Text(st, f(name).value))
  }

  lemma {:induction false} FilledIsBound(st: B.Style, n: Node, f: Values, enc: B.Encoder)
    requires HaveValues(B.NodePieces(st, n), f) && Agree(st, f, enc)
    ensures B.Filled(st, n, enc) == B.Text(Text(st, Bound(n, f)))
    decreases n, |B.Layout(st, n)| + 1
  {
    if IsVariable(n) {
      VariableFilled(st, n, f, enc);
    } else {
      var g := (m: Node) => if m < n then Bound(m, f) else m;
      LayoutMapped(st, n, g);
      FilledSegsBound(st, B.Layout(st, n), n, f, enc, g);
      TextNest(st, MapParts(n, g));
    }
  }

  lemma TextNest(st: B.Style, n: Node)
    ensures Text(st, n) == Nest(st, B.Layout(st, n), "")
  {
    TextIs(st, n, "");
    assert Text(st, n) + "" == Text(st, n);
  }

  lemma OneArg(st: B.Style, segs: seq<B.Seg>, n: Node, a: string, enc: B.Encoder)
    requires segs == [B.Arg(a)] && B.Below(segs, n)
    ensures B.SegPieces(st, segs, n) == [B.Bind(a)] && B.FilledSegs(st, segs, n, enc) == enc(a)
  {
    assert segs[1..] == [];
    var e := enc(a);
    assert [B.Bind(a)] + [] == [B.Bind(a)];
    if e.Text? { assert e.text + "" == e.text; }
  }

  lemma VariableFilled(st: B.Style, n: Node, f: Values, enc: B.Encoder)
    requires IsVariable(n) && HaveValues(B.NodePieces(st, n), f) && Agree(st, f, enc)
    ensures B.Filled(st, n, enc) == B.Text(Text(st, Bound(n, f)))
  {
    OneArg(st, B.Layout(st, n), n, n.arg, enc);
    assert B.NodePieces(st, n)[0] == B.Bind(n.arg);
  }

  /** One part more. */
  lemma ConcatTexts(a: B.Out, b: B.Out, x: string, y: string)
    requires a == B.Text(x) && b == B.Text(y)
    ensures B.Concat(a, b) == B.Text(x + y)
  {
  }

  lemma {:induction false} FilledSegsBound(st: B.Style, segs: seq<B.Seg>, n: Node, f: Values, enc: B.Encoder,
                                           g: Node -> Node)
    requires B.Below(segs, n) && NoArg(segs) && HaveValues(B.SegPieces(st, segs, n), f) && Agree(st, f, enc)
    requires forall m: Node :: m < n ==> g(m) == Bound(m, f)
    ensures B.FilledSegs(st, segs, n, enc) == B.Text(Nest(st, MapSegs(segs, g), ""))
    decreases n, |segs|
  {
    if segs != [] {
      var s, rest := segs[0], segs[1..];
      assert s in segs;
      FilledSegBound(st, s, n, f, enc, g);
      FilledSegsBound(st, rest, n, f, enc, g);
      assert MapSegs(segs, g)[1..] == MapSegs(rest, g);
      ConcatTexts(B.FilledSeg(st, s, n, enc), B.FilledSegs(st, rest, n, enc),
                  SegText(st, MapSeg(s, g)), Nest(st, MapSegs(rest, g), ""));
    }
  }

  lemma {:induction false} FilledSegBound(st: B.Style, s: B.Seg, n: Node, f: Values, enc: B.Encoder, g: Node -> Node)
    requires (s.Sub? ==> s.node < n) && !s.Arg? && HaveValues(B.SegPiece(st, s, n), f) && Agree(st, f, enc)
    requires forall m: Node :: m < n ==> g(m) == Bound(m, f)
    ensures B.FilledSeg(st, s, n, enc) == B.Text(SegText(st, MapSeg(s, g)))
    decreases n, 0
  {
    if s.Sub? { FilledIsBound(st, s.node, f, enc); }
  }

  // ---------------------------------------------------------------- values as text

  function Supplies(vars: map<string, B.BindVal>): Values { name => ValueNode(name, vars) }

  lemma ScalarIsText(st: B.Style, v: B.Scalar)
    ensures Text(st, ScalarNode(v)) == B.ScalarText(v)
  {
    var n, t := ScalarNode(v), B.ScalarText(v);
    assert t + "" == t && Text(st, n) + "" == Text(st, n);
    match v
    case Null => Text1(st, n, B.Lit("null"), "");
    case Num(digits) => Text1(st, n, B.Str(digits), "");
    case Bytes(text) => Text1(st, n, B.Str(T.Quoted(text)), "");
  }

  lemma {:induction false} SeparatedText(st: B.Style, parts: seq<B.Out>, ns: seq<Node>)
    requires |parts| == |ns| > 0 && forall i :: 0 <= i < |ns| ==> parts[i] == B.Text(Text(st, ns[i]))
    ensures B.SepBy(", ", parts) == B.Text(Text(st, ns[0]) + More(st, ns[1..], ""))
    decreases |ns|
  {
    if |ns| == 1 {
      assert ns[1..] == [] && More(st, [], "") == "" && Text(st, ns[0]) + "" == Text(st, ns[0]);
    } else {
      SeparatedText(st, parts[1..], ns[1..]);
      ListedText(st, ns[1..], ", ", "");
    }
  }

  lemma TupleIsText(st: B.Style, parts: seq<B.Out>, ns: seq<Node>)
    requires |parts| == |ns| > 0 && forall i :: 0 <= i < |ns| ==> parts[i] == B.Text(Text(st, ns[i]))
    ensures B.Wrapped("(", B.SepBy(", ", parts), ")") == B.Text(Text(st, ValTuple(ns)))
  {
    SeparatedText(st, parts, ns);
    C.TupleText(st, ns, "");
    MoreTail(st, ns[1..], ")");
    var x, m := Text(st, ns[0]), More(st, ns[1..], "");
    assert "(" + ((x + m) + ")") == "(" + (x + (m + ")"));
    assert Text(st, ValTuple(ns)) + "" == Text(st, ValTuple(ns)) && ")" + "" == ")";
  }

  lemma {:induction false} MoreTail(st: B.Style, ns: seq<Node>, tail: string)
    ensures More(st, ns, tail) == More(st, ns, "") + tail
  {
    NestTail(st, B.Listed(ns, ", ", ", "), tail);
  }

  lemma {:induction false} NestTail(st: B.Style, segs: seq<B.Seg>, tail: string)
    ensures Nest(st, segs, tail) == Nest(st, segs, "") + tail
  {
    if segs == [] {
      assert "" + tail == tail;
    } else {
      NestTail(st, segs[1..], tail);
      Assoc(SegText(st, segs[0]), Nest(st, segs[1..], ""), tail);
    }
  }

  lemma OneIsText(st: B.Style, v: B.BindVal)
    requires v.One?
    ensures B.EncodeValue(v) == B.Text(Text(st, ScalarNode(v.v)))
  {
    ScalarIsText(st, v.v);
  }

  lemma ListIsText(st: B.Style, items: seq<B.BindVal>)
    requires AllOnes(items) && items != []
    ensures B.EncodeValue(B.List(items)) == B.Text(Text(st, ValTuple(ScalarNodes(items))))
  {
    var parts := seq(|items|, (i: nat) requires i < |items| => B.EncodeValue(items[i]));
    forall i | 0 <= i < |items|
      ensures parts[i] == B.Text(Text(st, ScalarNodes(items)[i]))
    {
      OneIsText(st, items[i]);
    }
    TupleIsText(st, parts, ScalarNodes(items));
  }

  lemma ValueIsText(st: B.Style, name: string, vars: map<string, B.BindVal>)
    requires ValueNode(name, vars).Some?
    ensures B.EncoderFor(vars)(name) == B.Text(Text(st, ValueNode(name, vars).value))
  {
    var v := vars[if "::" <= name then name[2..] else name[1..]];
    assert B.FetchBindVar(name, vars) == B.Supplied(v);
    if v.One? { ScalarIsText(st, v.v); } else { ListIsText(st, v.items); }
  }

  // ---------------------------------------------------------------- the query that is sent

  /** For every tree, when each of its variables is given a value or a list of values: the query generated
      is the text of the tree with its variables replaced by those values. */
  lemma GeneratedIsBound(st: B.Style, n: Node, vars: map<string, B.BindVal>)
    requires HaveValues(B.NodePieces(st, n), Supplies(vars))
    ensures B.Filled(st, n, B.EncoderFor(vars)) == B.Text(B.Rendered(B.NodePieces(st, Bound(n, Supplies(vars)))))
  {
    forall name | Supplies(vars)(name).Some?
      ensures B.EncoderFor(vars)(name) == B.Text(Text(st, Supplies(vars)(name).value))
    {
      ValueIsText(st, name, vars);
    }
    FilledIsBound(st, n, Supplies(vars), B.EncoderFor(vars));
  }

  /** So the query that is sent reads as the statement with its variables replaced by their values: no string,
      whatever its characters, changes the shape of the statement. */
  lemma GeneratedReadsBack(st: B.Style, n: Node, vars: map<string, B.BindVal>, tail: string)
    requires Reserves(st) && !st.impossible && HaveValues(B.NodePieces(st, n), Supplies(vars))
    requires S.IsStatement(st, Bound(n, Supplies(vars))) && S.Closes(tail)
    ensures var r := B.Filled(st, n, B.EncoderFor(vars));
            r.Text? && ReadStatement(r.text + tail) == Read(Bound(n, Supplies(vars)), tail)
  {
    GeneratedIsBound(st, n, vars);
    S.StatementReadsBack(st, Bound(n, Supplies(vars)), tail);
  }
}
