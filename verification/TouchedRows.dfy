/** Which rows a guarded UPDATE, DELETE or REPLACE touches, against the key that guards it
    (handleExec and pkValuesToStrings of proxy/conn_query.go, planbuilder/dml.go, planbuilder/insert.go). */
module TouchedRows {
  import opened Wrappers
  import opened Ast
  import opened Schema
  import opened SqlMeaning
  import opened PlanWhere
  import opened PlanSelect
  import opened PlanDml
  import K = CacheKey
  import D = Decimal

  // ---------------------------------------------------------------- the texts of plan values

  predicate Usable(v: PkValue) { v.Scalar? || (v.Many? && AllScalar(v.values)) }

  function PartTexts(v: PkValue): (r: seq<string>)
    requires Usable(v)
    ensures |r| == if v.Scalar? then 1 else |v.values|
  {
    if v.Scalar? then [KeyText(v.v)]
    else seq(|v.values|, (j: nat) requires j < |v.values| => KeyText(v.values[j].v))
  }

  lemma PartsOf(v: PkValue)
    ensures K.Parts(KeyPart(v)).Some? <==> Usable(v)
    ensures Usable(v) ==> K.Parts(KeyPart(v)) == Some(PartTexts(v))
  {
    if v.Many? {
      var parts := KeyPart(v).values;
      assert forall j :: 0 <= j < |parts| ==> parts[j] == KeyPart(v.values[j]);
      if AllScalar(v.values) {
        assert forall j :: 0 <= j < |parts| ==> v.values[j].Scalar? && parts[j] == K.Scalar(KeyText(v.values[j].v));
        assert K.AllScalar(parts);
        assert K.Texts(parts) == PartTexts(v);
      } else {
        var j :| 0 <= j < |v.values| && !v.values[j].Scalar?;
        assert !parts[j].Scalar?;
      }
    }
  }

  lemma UsableIff(values: seq<PkValue>)
    ensures K.AllUsable(KeyParts(values)) <==> forall k :: 0 <= k < |values| ==> Usable(values[k])
    ensures K.AllUsable(KeyParts(values)) ==> forall k :: 0 <= k < |values| ==>
            K.Parts(KeyParts(values)[k]) == Some(PartTexts(values[k]))
  {
    forall k | 0 <= k < |values|
      ensures K.Parts(KeyParts(values)[k]).Some? <==> Usable(values[k])
      ensures Usable(values[k]) ==> K.Parts(KeyParts(values)[k]) == Some(PartTexts(values[k]))
    {
      PartsOf(values[k]);
    }
  }

  /** A key with a text per column, from values that give at least one each, has one from each. */
  lemma OneTextEach(values: seq<PkValue>)
    requires K.AllUsable(KeyParts(values)) && forall k :: 0 <= k < |values| ==>
             Usable(values[k]) && PartTexts(values[k]) != []
    ensures |KeyTexts(values)| == |values| <==> forall k :: 0 <= k < |values| ==> |PartTexts(values[k])| == 1
    ensures |KeyTexts(values)| == |values| ==> forall k :: 0 <= k < |values| ==>
            KeyTexts(values)[k] == PartTexts(values[k])[0]
  {
    UsableIff(values);
    K.FlatLength(KeyParts(values));
    assert forall k :: 0 <= k < |values| ==> K.Parts(KeyParts(values)[k]).value == PartTexts(values[k]);
  }

  // ---------------------------------------------------------------- the rows a statement touches

  /** The values a test lists: one for `=`, any number for IN. */
  function Listed(cond: Node): seq<Node> {
    if !cond.ComparisonExpr? then []
    else if cond.op == "in" && cond.right.ValTuple? then cond.right.items
    else [cond.right]
  }

  predicate IsLiteral(n: Node) { n.StrVal? || n.NumVal? }

  /** A node that the planner keeps as this text. */
  predicate KeptAs(n: Node, text: string) {
    IsLiteral(n) && AsInterface(n).Some? && AsInterface(n).value.Scalar? && KeyText(AsInterface(n).value.v) == text
  }

  lemma {:induction false} AsInterfacesAt(items: seq<Node>, j: nat)
    requires AsInterfaces(items).Some? && j < |items|
    ensures |AsInterfaces(items).value| == |items| && AsInterface(items[j]) == Some(AsInterfaces(items).value[j])
  {
    if j > 0 {
      AsInterfacesAt(items[1..], j - 1);
    } else if |items| > 1 {
      AsInterfacesAt(items[1..], 0);
    }
  }

  lemma AsInterfacesLength(items: seq<Node>)
    requires AsInterfaces(items).Some?
    ensures |AsInterfaces(items).value| == |items|
  {
    if items != [] { AsInterfacesAt(items, 0); }
  }

  /** What a test lists is what the planner keeps of it. */
  lemma ListedKept(cond: Node, cols: seq<string>, v: PkValue)
    requires SimpleTest(cond) && PkTest(cond, cols) >= 0 && AsInterface(cond.right) == Some(v) && Usable(v)
    ensures |Listed(cond)| == |PartTexts(v)|
    ensures forall j :: 0 <= j < |Listed(cond)| ==> KeptAs(Listed(cond)[j], PartTexts(v)[j])
    ensures cond.op == "=" || (cond.op == "in" && cond.right.ValTuple?)
  {
    if v.Many? {
      AsInterfacesLength(cond.right.items);
      forall j | 0 <= j < |cond.right.items|
        ensures KeptAs(cond.right.items[j], PartTexts(v)[j])
      {
        AsInterfacesAt(cond.right.items, j);
        assert v.values[j].Scalar?;
      }
    }
  }

  lemma {:induction false} InListIff(t: Table, v: Val, items: seq<Node>, row: Row, o: Oracle)
    ensures InList(t, v, items, row, o).T? <==> exists j :: 0 <= j < |items| && Eq3(v, ValueOf(t, items[j], row, o)).T?
  {
    if items != [] {
      InListIff(t, v, items[1..], row, o);
      assert forall j :: 1 <= j < |items| ==> items[j] == items[1..][j - 1];
    }
  }

  /** A test with literals accepts exactly the values it lists. */
  lemma AcceptsListed(t: Table, cond: Node, v: Val, o: Oracle)
    requires cond.ComparisonExpr? && (cond.op == "=" || (cond.op == "in" && cond.right.ValTuple?))
    requires forall j :: 0 <= j < |Listed(cond)| ==> IsLiteral(Listed(cond)[j])
    ensures Accepts(t, cond, v, o).T? <==> exists j :: 0 <= j < |Listed(cond)| && ValueOf(t, Listed(cond)[j], [], o) == v
  {
    var nodes := Listed(cond);
    assert forall j :: 0 <= j < |nodes| ==> IsLiteral(nodes[j]) && !ValueOf(t, nodes[j], [], o).Null?;
    if cond.op == "in" {
      InListIff(t, v, nodes, [], o);
    } else {
      assert nodes[0] == cond.right;
    }
  }

  /** A literal is kept as the text of what it denotes exactly when it reads alike on both sides. */
  lemma AlikeText(t: Table, n: Node, text: string, o: Oracle)
    requires KeptAs(n, text)
    ensures Spells(ValueOf(t, n, [], o), text) <==> ReadsAlike(n)
  {
    if n.NumVal? {
      NumberReadsBack(BuildNumeric(n.text).value);
      if MySqlInteger(n.text).Some? { NumberReadsBack(MySqlInteger(n.text).value); }
    }
  }

  /** The nodes the last test of primary-key column `k` lists. */
  function LastListed(conds: seq<Node>, cols: seq<string>, k: nat): seq<Node> {
    var i := LastTest(conds, cols, k);
    if i < 0 then [] else Listed(conds[i])
  }

  /** The last test of column `k`, its literals and the texts kept of them. */
  lemma LastListedKept(t: Table, conds: seq<Node>, values: seq<PkValue>, k: nat)
    requires KeyPlan(t, conds, values) && k < |values| && Usable(values[k])
    ensures var nodes := LastListed(conds, t.indexes[0].columns, k);
            |nodes| == |PartTexts(values[k])| && forall j :: 0 <= j < |nodes| ==> KeptAs(nodes[j], PartTexts(values[k])[j])
    ensures var i := LastTest(conds, t.indexes[0].columns, k);
            i >= 0 && conds[i].ComparisonExpr? && (conds[i].op == "=" || (conds[i].op == "in" && conds[i].right.ValTuple?))
  {
    LastKept(t, conds, values, k);
    ListedKept(conds[LastTest(conds, t.indexes[0].columns, k)], t.indexes[0].columns, values[k]);
  }

  lemma LastKept(t: Table, conds: seq<Node>, values: seq<PkValue>, k: nat)
    requires KeyPlan(t, conds, values) && k < |values|
    ensures var i := LastTest(conds, t.indexes[0].columns, k);
            i >= 0 && conds[i].ComparisonExpr? && AsInterface(conds[i].right) == Some(values[k])
  {
    PkValuesMeaning(conds, t.indexes[0].columns);
    assert Some(values[k]) == LastValue(conds, t.indexes[0].columns, k);
  }

  /** A key that passes all the tests has, in each column, a value the last test lists. */
  lemma PassingIsListed(t: Table, conds: seq<Node>, values: seq<PkValue>, vals: seq<Val>, k: nat, o: Oracle)
    requires KeyPlan(t, conds, values) && |vals| == |values| && PkTests(conds, t.indexes[0].columns)
    requires AllAccept(t, conds, vals, o) && k < |values| && Usable(values[k])
    ensures var nodes := LastListed(conds, t.indexes[0].columns, k);
            exists j :: 0 <= j < |nodes| && ValueOf(t, nodes[j], [], o) == vals[k]
  {
    LastListedKept(t, conds, values, k);
    var i := LastTest(conds, t.indexes[0].columns, k);
    assert forall j :: 0 <= j < |Listed(conds[i])| ==> KeptAs(Listed(conds[i])[j], PartTexts(values[k])[j]);
    assert Accepts(t, conds[i], vals[k], o).T?;
    AcceptsListed(t, conds[i], vals[k], o);
  }

  /** A row of any values in the primary-key columns passes the tests exactly when they accept those. */
  lemma RowWithPasses(t: Table, conds: seq<Node>, values: seq<PkValue>, vals: seq<Val>, o: Oracle)
    requires KeyPlan(t, conds, values) && |vals| == |values| && PkTests(conds, t.indexes[0].columns)
    ensures AllHold(t, conds, RowWith(t, vals), o).T? <==> AllAccept(t, conds, vals, o)
    ensures PkOf(t, RowWith(t, vals)) == vals
  {
    var row := RowWith(t, vals);
    AllHoldColumns(t, conds, values, row, o);
    forall k | 0 <= k < |vals|
      ensures row[t.pkColumns[k]] == vals[k]
    {
      RowWithAt(t, conds, values, vals, k);
    }
  }

  predicate AllSpell(vals: seq<Val>, texts: seq<string>) {
    |vals| == |texts| && forall k :: 0 <= k < |vals| ==> Spells(vals[k], texts[k])
  }

  /** Every row the WHERE lets through has the primary key that the texts spell. */
  ghost predicate TouchesOnly(t: Table, where: Node, texts: seq<string>, o: Oracle)
    requires WellFormed(t)
  {
    forall row: Row :: |row| == |t.columns| && WhereHolds(t, where, row, o).T? ==> AllSpell(PkOf(t, row), texts)
  }

  /** No primary key passes the tests. */
  ghost predicate AcceptsNoKey(t: Table, conds: seq<Node>, o: Oracle)
    requires WellFormed(t) && PkTests(conds, t.indexes[0].columns)
  {
    forall vals: seq<Val> :: |vals| == |t.pkColumns| ==> !AllAccept(t, conds, vals, o)
  }

  /** The keys of the rows that are let through are the keys that pass the tests. */
  lemma TouchedByKeys(t: Table, where: Node, values: seq<PkValue>, texts: seq<string>, o: Oracle)
    requires AnalyzeWhere(where).Some? && KeyPlan(t, AnalyzeWhere(where).value, values)
    ensures PkTests(AnalyzeWhere(where).value, t.indexes[0].columns)
    ensures TouchesOnly(t, where, texts, o) <==>
            forall vals: seq<Val> :: |vals| == |values| && AllAccept(t, AnalyzeWhere(where).value, vals, o) ==>
              AllSpell(vals, texts)
  {
    var conds := AnalyzeWhere(where).value;
    PkValuesMeaning(conds, t.indexes[0].columns);
    if TouchesOnly(t, where, texts, o) {
      forall vals: seq<Val> | |vals| == |values| && AllAccept(t, conds, vals, o)
        ensures AllSpell(vals, texts)
      {
        RowWithPasses(t, conds, values, vals, o);
        FlattenKeepsMeaning(t, where.cond.value, RowWith(t, vals), o);
      }
    } else {
      var row: Row :| |row| == |t.columns| && WhereHolds(t, where, row, o).T? && !AllSpell(PkOf(t, row), texts);
      FlattenKeepsMeaning(t, where.cond.value, row, o);
      AllHoldColumns(t, conds, values, row, o);
      assert AllAccept(t, conds, PkOf(t, row), o);
    }
  }

  /** The last test of column `k` lists one literal, and that reads alike on both sides. */
  predicate OneAlike(conds: seq<Node>, cols: seq<string>, k: nat) {
    var nodes := LastListed(conds, cols, k);
    |nodes| == 1 && ReadsAlike(nodes[0])
  }

  /** A statement whose primary-key values can be keyed touches only rows with the key that guards it
      exactly when its WHERE accepts no key at all, or the last test of every primary-key column lists a
      single literal that reads alike on both sides. */
  lemma TouchedIff(t: Table, where: Node, values: seq<PkValue>, o: Oracle)
    requires WellFormed(t) && AnalyzeWhere(where).Some?
    requires PkValuesOf(AnalyzeWhere(where).value, t.indexes[0].columns) == Found(values) && K.AllUsable(KeyParts(values))
    ensures PkTests(AnalyzeWhere(where).value, t.indexes[0].columns)
    ensures var conds := AnalyzeWhere(where).value;
            TouchesOnly(t, where, KeyTexts(values), o) <==>
            AcceptsNoKey(t, conds, o) || forall k :: 0 <= k < |values| ==> OneAlike(conds, t.indexes[0].columns, k)
  {
    var conds := AnalyzeWhere(where).value;
    FlattenShape(where.cond.value);
    TouchedByKeys(t, where, values, KeyTexts(values), o);
    forall vals: seq<Val> | |vals| == |values| && AllAccept(t, conds, vals, o)
      ensures AllSpell(vals, KeyTexts(values)) <==>
              forall k :: 0 <= k < |values| ==> OneAlike(conds, t.indexes[0].columns, k)
    {
      KeySpells(t, conds, values, vals, o);
    }
  }

  /** In a key that passes, the value of column `k` is what the planner kept of a single literal exactly
      when that reads alike. */
  lemma ColumnSpells(t: Table, conds: seq<Node>, values: seq<PkValue>, vals: seq<Val>, k: nat, o: Oracle)
    requires KeyPlan(t, conds, values) && PkTests(conds, t.indexes[0].columns)
    requires |vals| == |values| && AllAccept(t, conds, vals, o) && k < |values| && Usable(values[k])
    ensures PartTexts(values[k]) != []
    ensures OneAlike(conds, t.indexes[0].columns, k) <==>
            |PartTexts(values[k])| == 1 && Spells(vals[k], PartTexts(values[k])[0])
  {
    LastListedKept(t, conds, values, k);
    PassingIsListed(t, conds, values, vals, k, o);
    var nodes := LastListed(conds, t.indexes[0].columns, k);
    if |nodes| == 1 { AlikeText(t, nodes[0], PartTexts(values[k])[0], o); }
  }

  lemma KeySpells(t: Table, conds: seq<Node>, values: seq<PkValue>, vals: seq<Val>, o: Oracle)
    requires KeyPlan(t, conds, values) && PkTests(conds, t.indexes[0].columns) && K.AllUsable(KeyParts(values))
    requires |vals| == |values| && AllAccept(t, conds, vals, o)
    ensures AllSpell(vals, KeyTexts(values)) <==> forall k :: 0 <= k < |values| ==> OneAlike(conds, t.indexes[0].columns, k)
  {
    UsableIff(values);
    forall k | 0 <= k < |values|
      ensures PartTexts(values[k]) != []
      ensures OneAlike(conds, t.indexes[0].columns, k) <==>
              |PartTexts(values[k])| == 1 && Spells(vals[k], PartTexts(values[k])[0])
    {
      ColumnSpells(t, conds, values, vals, k, o);
    }
    OneTextEach(values);
  }

  /** When every test lists a single literal that reads alike, only the guarded key is touched. */
  lemma AlikeTouchesOnlyKey(t: Table, where: Node, values: seq<PkValue>, o: Oracle)
    requires WellFormed(t) && AnalyzeWhere(where).Some?
    requires PkValuesOf(AnalyzeWhere(where).value, t.indexes[0].columns) == Found(values) && K.AllUsable(KeyParts(values))
    requires forall n :: n in AnalyzeWhere(where).value ==> |Listed(n)| == 1 && ReadsAlike(Listed(n)[0])
    ensures TouchesOnly(t, where, KeyTexts(values), o)
  {
    var conds, cols := AnalyzeWhere(where).value, t.indexes[0].columns;
    TouchedIff(t, where, values, o);
    PkValuesMeaning(conds, cols);
    forall k | 0 <= k < |values|
      ensures OneAlike(conds, cols, k)
    {
      assert conds[LastTest(conds, cols, k)] in conds;
    }
  }

  /** No column is tested twice. */
  ghost predicate OneTestEach(conds: seq<Node>, cols: seq<string>) {
    forall i, j :: 0 <= i < j < |conds| ==> PkTest(conds[i], cols) != PkTest(conds[j], cols)
  }

  /** With one test per column every choice of listed values passes. */
  lemma ListedPasses(t: Table, conds: seq<Node>, values: seq<PkValue>, vals: seq<Val>, o: Oracle)
    requires KeyPlan(t, conds, values) && PkTests(conds, t.indexes[0].columns) && K.AllUsable(KeyParts(values))
    requires OneTestEach(conds, t.indexes[0].columns) && |vals| == |values|
    requires forall k :: 0 <= k < |values| ==>
               var nodes := LastListed(conds, t.indexes[0].columns, k);
               nodes != [] && vals[k] == ValueOf(t, nodes[0], [], o)
    ensures AllAccept(t, conds, vals, o)
  {
    var cols := t.indexes[0].columns;
    UsableIff(values);
    forall i | 0 <= i < |conds|
      ensures Accepts(t, conds[i], vals[PkTest(conds[i], cols)], o).T?
    {
      var k := PkTest(conds[i], cols);
      LastListedKept(t, conds, values, k);
      assert LastTest(conds, cols, k) == i;
      assert forall j :: 0 <= j < |Listed(conds[i])| ==> KeptAs(Listed(conds[i])[j], PartTexts(values[k])[j]);
      AcceptsListed(t, conds[i], vals[k], o);
      assert ValueOf(t, Listed(conds[i])[0], [], o) == vals[k];
    }
  }

  /** The first value that the last test of each column lists. */
  function FirstListed(t: Table, conds: seq<Node>, n: nat, o: Oracle): (r: seq<Val>)
    requires t.indexes != []
    ensures |r| == n && forall k :: 0 <= k < n ==>
              var nodes := LastListed(conds, t.indexes[0].columns, k);
              nodes != [] ==> r[k] == ValueOf(t, nodes[0], [], o)
  {
    seq(n, (k: nat) => FirstOf(t, LastListed(conds, t.indexes[0].columns, k), o))
  }

  function FirstOf(t: Table, nodes: seq<Node>, o: Oracle): Val { if nodes == [] then Null else ValueOf(t, nodes[0], [], o) }

  /** With one test per column the condition is one of the statement's text alone: an IN with an empty
      list, or a single literal that reads alike in every test. */
  lemma OneTestTouchedIff(t: Table, where: Node, values: seq<PkValue>, o: Oracle)
    requires WellFormed(t) && AnalyzeWhere(where).Some? && OneTestEach(AnalyzeWhere(where).value, t.indexes[0].columns)
    requires PkValuesOf(AnalyzeWhere(where).value, t.indexes[0].columns) == Found(values) && K.AllUsable(KeyParts(values))
    ensures var conds, cols := AnalyzeWhere(where).value, t.indexes[0].columns;
            TouchesOnly(t, where, KeyTexts(values), o) <==>
            || (exists k :: 0 <= k < |values| && LastListed(conds, cols, k) == [])
            || (forall k :: 0 <= k < |values| ==> OneAlike(conds, cols, k))
  {
    var conds, cols := AnalyzeWhere(where).value, t.indexes[0].columns;
    TouchedIff(t, where, values, o);
    FlattenShape(where.cond.value);
    UsableIff(values);
    if k :| 0 <= k < |values| && LastListed(conds, cols, k) == [] {
      forall vals: seq<Val> | |vals| == |values|
        ensures !AllAccept(t, conds, vals, o)
      {
        if AllAccept(t, conds, vals, o) { PassingIsListed(t, conds, values, vals, k, o); }
      }
    } else {
      var vals := FirstListed(t, conds, |values|, o);
      ListedPasses(t, conds, values, vals, o);
    }
  }

  function ValTexts(vals: seq<Val>): (r: seq<string>)
    ensures |r| == |vals| && forall k :: 0 <= k < |r| ==> r[k] == ValText(vals[k])
  {
    seq(|vals|, (k: nat) requires k < |vals| => ValText(vals[k]))
  }

  /** The cache key of a row. */
  function RowKey(t: Table, row: Row): string
    requires forall k :: 0 <= k < |t.pkColumns| ==> t.pkColumns[k] < |row|
  {
    K.KeyOf(ValTexts(PkOf(t, row)))
  }

  /** On a table with safe keys, to touch only the rows the key spells is to touch only rows whose cache
      key it is. */
  lemma SafeTouchIff(t: Table, where: Node, values: seq<PkValue>, o: Oracle)
    requires WellFormed(t) && AnalyzeWhere(where).Some?
    requires PkValuesOf(AnalyzeWhere(where).value, t.indexes[0].columns) == Found(values) && K.AllUsable(KeyParts(values))
    requires forall s :: s in KeyTexts(values) ==> K.Safe(s)
    requires forall row: Row, s ::
               |row| == |t.columns| && WhereHolds(t, where, row, o).T? && s in ValTexts(PkOf(t, row)) ==> K.Safe(s)
    ensures TouchesOnly(t, where, KeyTexts(values), o) <==>
            forall row: Row :: |row| == |t.columns| && WhereHolds(t, where, row, o).T? ==>
              RowKey(t, row) == K.KeyOf(KeyTexts(values))
  {
    FlattenShape(where.cond.value);
    forall row: Row | |row| == |t.columns| && WhereHolds(t, where, row, o).T?
      ensures AllSpell(PkOf(t, row), KeyTexts(values)) <==> RowKey(t, row) == K.KeyOf(KeyTexts(values))
    {
      TouchedNotNull(t, where, values, row, o);
      if AllSpell(PkOf(t, row), KeyTexts(values)) {
        assert ValTexts(PkOf(t, row)) == KeyTexts(values);
      } else if RowKey(t, row) == K.KeyOf(KeyTexts(values)) {
        K.KeyInjective(ValTexts(PkOf(t, row)), KeyTexts(values));
      }
    }
  }

  lemma TouchedNotNull(t: Table, where: Node, values: seq<PkValue>, row: Row, o: Oracle)
    requires AnalyzeWhere(where).Some? && KeyPlan(t, AnalyzeWhere(where).value, values) && K.AllUsable(KeyParts(values))
    requires |row| == |t.columns| && WhereHolds(t, where, row, o).T?
    ensures forall k :: 0 <= k < |t.pkColumns| ==> !PkOf(t, row)[k].Null?
  {
    var conds := AnalyzeWhere(where).value;
    FlattenKeepsMeaning(t, where.cond.value, row, o);
    AllHoldColumns(t, conds, values, row, o);
    AcceptedNotNull(t, conds, values, PkOf(t, row), o);
  }

  lemma AcceptedNotNull(t: Table, conds: seq<Node>, values: seq<PkValue>, vals: seq<Val>, o: Oracle)
    requires KeyPlan(t, conds, values) && PkTests(conds, t.indexes[0].columns) && K.AllUsable(KeyParts(values))
    requires |vals| == |values| && AllAccept(t, conds, vals, o)
    ensures forall k :: 0 <= k < |vals| ==> !vals[k].Null?
  {
    UsableIff(values);
    forall k | 0 <= k < |vals|
      ensures !vals[k].Null?
    {
      LastListedKept(t, conds, values, k);
      PassingIsListed(t, conds, values, vals, k, o);
    }
  }

  // ---------------------------------------------------------------- statements that touch other rows

  const T_TABLES := map["t" := ID_TABLE]

  function DeleteFromT(cond: Node): Node {
    Node.Delete(Comments([]), TableName("t", None), Where("where", Some(cond)), OrderBy([]), NoLimit)
  }

  lemma DeleteGuarded(cond: Node, values: seq<PkValue>, key: string)
    requires AnalyzeBoolean(cond).Some? && PkValuesOf(AnalyzeBoolean(cond).value, ["id"]) == Found(values)
    requires K.AllUsable(KeyParts(values)) && K.KeyOf(KeyTexts(values)) == key
    ensures WellFormedTables(T_TABLES) && Decide(DeleteFromT(cond), T_TABLES) == Guarded(key)
  {
    IdTable();
    assert T_TABLES["t"] == ID_TABLE;
    GuardedKey(DeleteFromT(cond), T_TABLES, values);
  }

  lemma IdRowKey(n: int)
    ensures RowKey(ID_TABLE, [Int(n)]) == K.KeyOf([D.FormatInt(n)])
  {
    assert ValTexts(PkOf(ID_TABLE, [Int(n)])) == [D.FormatInt(n)];
  }

  lemma OneTextKey(text: string)
    requires ' ' !in text
    ensures K.KeyOf([text]) == text + "--"
  {
    assert K.Joined([text]) == text + K.SEP + "";
  }

  lemma ScalarTexts(n: int)
    ensures K.AllUsable(KeyParts([Scalar(NumLit(n))])) && KeyTexts([Scalar(NumLit(n))]) == [D.FormatInt(n)]
  {
    K.FlatScalars(KeyParts([Scalar(NumLit(n))]));
  }

  /** `delete from t where id = 010` is guarded by the key of row eight and deletes row ten. */
  lemma OctalDelete(o: Oracle)
    ensures WellFormedTables(T_TABLES) && Decide(DeleteFromT(IdIs("010")), T_TABLES) == Guarded("8--")
    ensures WhereHolds(ID_TABLE, DeleteFromT(IdIs("010")).where, [Int(10)], o).T? && RowKey(ID_TABLE, [Int(10)]) == "10--"
  {
    assert BuildNumeric("010") == Some(8) && MySqlInteger("010") == Some(10) by { OctalExample(); }
    assert D.FormatInt(8) == "8" && D.FormatInt(10) == "10" by { SmallTexts(); }
    assert "8" + "--" == "8--" && "10" + "--" == "10--";
    NumberDelete("010", 8, 10, "8", "10", o);
  }

  lemma NumberDelete(number: string, kept: int, denoted: int, keptText: string, text: string, o: Oracle)
    requires BuildNumeric(number) == Some(kept) && D.FormatInt(kept) == keptText && ' ' !in keptText
    requires MySqlInteger(number) == Some(denoted) && D.FormatInt(denoted) == text && ' ' !in text
    ensures WellFormedTables(T_TABLES) && Decide(DeleteFromT(IdIs(number)), T_TABLES) == Guarded(keptText + "--")
    ensures WhereHolds(ID_TABLE, DeleteFromT(IdIs(number)).where, [Int(denoted)], o).T?
    ensures RowKey(ID_TABLE, [Int(denoted)]) == text + "--"
  {
    OneNumberGuarded(number, kept, keptText);
    IdHolds(number, denoted, [Int(denoted)], o);
    IdRowKey(denoted);
    OneTextKey(text);
  }

  lemma OneNumberGuarded(number: string, n: int, text: string)
    requires BuildNumeric(number) == Some(n) && D.FormatInt(n) == text && ' ' !in text
    ensures WellFormedTables(T_TABLES) && Decide(DeleteFromT(IdIs(number)), T_TABLES) == Guarded(text + "--")
  {
    OneIdTest(number, n);
    ScalarTexts(n);
    OneTextKey(text);
    IdFlattens(number);
    DeleteGuarded(IdIs(number), [Scalar(NumLit(n))], text + "--");
  }

  lemma IdFlattens(number: string)
    ensures AnalyzeBoolean(IdIs(number)) == Some([IdIs(number)])
  {
  }

  lemma SmallTexts()
    ensures D.FormatInt(1) == "1" && D.FormatInt(2) == "2" && D.FormatInt(8) == "8" && D.FormatInt(10) == "10"
  {
  }

  /** `delete from t where id in (1, 2)` is guarded by a key that is neither row's, and deletes row one. */
  lemma ListDelete(o: Oracle)
    ensures WellFormedTables(T_TABLES) && Decide(DeleteFromT(IdIn("1", "2")), T_TABLES) == Guarded("1--2--")
    ensures WhereHolds(ID_TABLE, DeleteFromT(IdIn("1", "2")).where, [Int(1)], o).T? && RowKey(ID_TABLE, [Int(1)]) == "1--"
  {
    assert BuildNumeric("1") == Some(1) == MySqlInteger("1") && BuildNumeric("2") == Some(2) by { SmallNumbers(); }
    assert D.FormatInt(1) == "1" && D.FormatInt(2) == "2" by { SmallTexts(); }
    TwoNumbersGuarded("1", "2", 1, 2, "1--2--");
    FirstInList("1", "2", 1, o);
    assert RowKey(ID_TABLE, [Int(1)]) == "1--" by {
      IdRowKey(1);
      OneTextKey("1");
    }
  }

  lemma TwoNumbersGuarded(a: string, b: string, m: int, n: int, key: string)
    requires BuildNumeric(a) == Some(m) && BuildNumeric(b) == Some(n) && ' ' !in a && ' ' !in b
    requires D.FormatInt(m) == a && D.FormatInt(n) == b && key == a + "--" + b + "--"
    ensures WellFormedTables(T_TABLES) && Decide(DeleteFromT(IdIn(a, b)), T_TABLES) == Guarded(key)
  {
    TwoNumbersPlan(a, b, m, n);
    TwoNumbersKey(m, n, a, b);
    DeleteGuarded(IdIn(a, b), [TwoNumbers(m, n)], key);
  }

  lemma TwoNumbersKey(m: int, n: int, a: string, b: string)
    requires D.FormatInt(m) == a && D.FormatInt(n) == b && ' ' !in a && ' ' !in b
    ensures K.AllUsable(KeyParts([TwoNumbers(m, n)])) && K.KeyOf(KeyTexts([TwoNumbers(m, n)])) == a + "--" + b + "--"
  {
    var v := TwoNumbers(m, n);
    PartsOf(v);
    assert PartTexts(v) == [a, b];
    OneValueTexts(v);
    TwoTextKey(a, b);
  }

  lemma OneValueTexts(v: PkValue)
    requires Usable(v)
    ensures K.AllUsable(KeyParts([v])) && KeyTexts([v]) == PartTexts(v)
  {
    PartsOf(v);
    var parts := KeyParts([v]);
    assert parts == [KeyPart(v)] && parts[..0] == [];
    assert K.Flat(parts) == [] + PartTexts(v);
  }

  lemma TwoTextKey(a: string, b: string)
    requires ' ' !in a && ' ' !in b
    ensures K.KeyOf([a, b]) == a + "--" + b + "--"
  {
    assert [b][1..] == [] && [a, b][1..] == [b];
    assert K.Joined([b]) == b + "--";
    assert K.Joined([a, b]) == a + "--" + (b + "--");
  }

  lemma FirstInList(a: string, b: string, n: int, o: Oracle)
    requires MySqlInteger(a) == Some(n)
    ensures Holds(ID_TABLE, IdIn(a, b), [Int(n)], o).T?
  {
    var items, row := [NumVal(a), NumVal(b)], [Int(n)];
    IdValue(n, o);
    NumberValue(ID_TABLE, a, n, row, o);
    InListIff(ID_TABLE, Int(n), items, row, o);
    assert Eq3(Int(n), ValueOf(ID_TABLE, items[0], row, o)).T?;
    InHolds(ID_TABLE, ColName("id", None), items, row, o);
  }

  lemma IdValue(n: int, o: Oracle)
    ensures ValueOf(ID_TABLE, ColName("id", None), [Int(n)], o) == Int(n)
  {
    IdTable();
    assert Lower("id") == "id" && Names(ID_TABLE.columns) == ["id"];
    ColumnValue(ID_TABLE, "id", None, [Int(n)], o);
  }

  lemma InHolds(t: Table, left: Node, items: seq<Node>, row: Row, o: Oracle)
    ensures Holds(t, ComparisonExpr("in", left, ValTuple(items)), row, o) ==
            InList(t, ValueOf(t, left, row, o), items, row, o)
  {
  }

  lemma IdHolds(number: string, n: int, row: Row, o: Oracle)
    requires MySqlInteger(number) == Some(n) && row == [Int(n)]
    ensures Holds(ID_TABLE, IdIs(number), row, o).T?
  {
    IdValue(n, o);
    EqualityHolds(ID_TABLE, ColName("id", None), NumVal(number), row, o);
  }

  // ---------------------------------------------------------------- the row a REPLACE writes

  ghost predicate Distinct(names: seq<string>) { forall i, j :: 0 <= i < j < |names| ==> names[i] != names[j] }

  function ListNames(items: seq<Node>): (r: seq<string>)
    requires NamedColumns(items)
    ensures |r| == |items| && forall i :: 0 <= i < |items| ==> r[i] == GetColName(items[i].expr)
  {
    seq(|items|, (i: nat) requires i < |items| => GetColName(items[i].expr))
  }

  /** Where the database takes the value of primary-key column `k` from: its place in the table when no
      columns are listed, its place in the list otherwise, -1 when the list leaves it out. */
  function SourceOf(t: Table, items: seq<Node>, k: nat): (r: int)
    requires HasPrimary(t) && NamedColumns(items) && k < |t.indexes[0].columns| <= |t.pkColumns|
    ensures r >= -1 && (items != [] ==> r < |items|)
  {
    if items == [] then t.pkColumns[k] else IndexOf(ListNames(items), t.indexes[0].columns[k])
  }

  /** An auto-increment column, which has no default, is filled by the database when it is given zero. */
  predicate Generates(t: Table, c: nat, v: Val)
    requires c < |t.columns|
  {
    t.columns[c].dflt.None? && v == Int(0)
  }

  /** The value row `r` of a REPLACE writes to primary-key column `k`: its own, or the database's when the
      column is left out or to be generated. */
  function WrittenVal(t: Table, items: seq<Node>, row: seq<Node>, r: nat, k: nat, o: Oracle): Val
    requires HasPrimary(t) && NamedColumns(items) && k < |t.indexes[0].columns| <= |t.pkColumns| && WellFormedKey(t)
    requires SourceOf(t, items, k) < |row|
  {
    var at, c := SourceOf(t, items, k), t.pkColumns[k];
    if at >= 0 && !Generates(t, c, ValueOf(t, row[at], [], o)) then ValueOf(t, row[at], [], o) else o.dflt(c, r)
  }

  /** Column lists without repetition are found where they stand. */
  lemma {:induction false} PositionsAt(items: seq<Node>, cols: seq<string>, k: nat)
    requires NamedColumns(items) && Distinct(ListNames(items)) && Distinct(cols) && k < |cols|
    ensures Positions(items, cols)[k] == IndexOf(ListNames(items), cols[k])
  {
    if items != [] {
      var n := |items| - 1;
      var init := items[..n];
      assert ListNames(items) == ListNames(init) + [GetColName(items[n].expr)];
      assert forall i :: 0 <= i < n ==> ListNames(items)[i] == ListNames(init)[i];
      PositionsAt(init, cols, k);
      SnocIndex(ListNames(init), GetColName(items[n].expr), cols[k]);
      var at := IndexOf(cols, GetColName(items[n].expr));
      assert at == k <==> GetColName(items[n].expr) == cols[k];
    }
  }

  lemma SnocIndex(names: seq<string>, last: string, name: string)
    requires Distinct(names + [last])
    ensures IndexOf(names + [last], name) == if last == name then |names| else IndexOf(names, name)
  {
    var all := names + [last];
    assert forall i :: 0 <= i < |names| ==> all[i] == names[i];
    assert all[|names|] == last;
    if last == name {
      assert name in all;
    } else if IndexOf(names, name) >= 0 {
      assert names[IndexOf(names, name)] == name;
      assert all[IndexOf(names, name)] == name;
      assert name in all;
    }
  }

  lemma PositionIsSource(t: Table, items: seq<Node>, k: nat)
    requires WellFormed(t) && NamedColumns(items) && Distinct(ListNames(items)) && Distinct(t.indexes[0].columns)
    requires k < |t.indexes[0].columns|
    ensures |InsertPositions(items, t)| == |t.pkColumns| && InsertPositions(items, t)[k] == SourceOf(t, items, k)
  {
    if items != [] { PositionsAt(items, t.indexes[0].columns, k); }
  }

  /** The plan values of a single row, column by column. */
  lemma {:induction false} PkCellsAt(t: Table, positions: seq<int>, rows: seq<Node>, k: nat)
    requires |positions| <= |t.pkColumns| && WellFormedKey(t) && k < |positions|
    requires forall k :: 0 <= k < |positions| ==> positions[k] >= -1
    requires PkCells(t, positions, rows).Cells?
    ensures PkCell(t, k, positions[k], rows) == Cells([PkCells(t, positions, rows).values[k]])
  {
    var last := |positions| - 1;
    if k < last {
      PkCellsAt(t, positions[..last], rows, k);
      assert positions[..last][k] == positions[k];
    }
  }

  lemma {:induction false} CellOfRow(rows: seq<Node>, c: nat, r: nat)
    requires ColumnCells(rows, c).Cells? && r < |rows|
    ensures rows[r].ValTuple? && c < |rows[r].items| && IsValue(rows[r].items[c])
    ensures AsInterface(rows[r].items[c]) == Some(ColumnCells(rows, c).values[r])
  {
    var n := |rows| - 1;
    if r < n {
      CellOfRow(rows[..n], c, r);
    }
  }

  /** What the planner keeps for primary-key column `k`, and where it comes from. */
  lemma CellShape(t: Table, k: nat, position: int, rows: seq<Node>, v: PkValue)
    requires k < |t.pkColumns| && t.pkColumns[k] < |t.columns| && position >= -1
    requires PkCell(t, k, position, rows) == Cells([v]) && Usable(v)
    ensures v.Scalar? <==> position == -1 || |rows| == 1
    ensures v.Many? ==> |v.values| == |rows|
    ensures position == -1 ==> t.columns[t.pkColumns[k]].dflt == Some(v.v)
    ensures position >= 0 ==> forall r :: 0 <= r < |rows| ==> rows[r].ValTuple? && position < |rows[r].items|
    ensures position >= 0 && |rows| == 1 ==> KeptAs(rows[0].items[position], KeyText(v.v))
  {
    if position >= 0 {
      forall r | 0 <= r < |rows|
        ensures rows[r].ValTuple? && position < |rows[r].items|
      {
        CellOfRow(rows, position, r);
      }
      if |rows| == 1 { CellOfRow(rows, position, 0); }
    }
  }

  /** The value row `r` writes to column `k` is the one the planner kept as `text`: its literal reads
      alike on both sides, or the database fills in just that. */
  predicate CellDenotes(t: Table, items: seq<Node>, row: seq<Node>, r: nat, k: nat, text: string, o: Oracle)
    requires HasPrimary(t) && NamedColumns(items) && k < |t.indexes[0].columns| <= |t.pkColumns| && WellFormedKey(t)
    requires SourceOf(t, items, k) < |row|
  {
    var at, c := SourceOf(t, items, k), t.pkColumns[k];
    if at >= 0 && !Generates(t, c, ValueOf(t, row[at], [], o)) then ReadsAlike(row[at]) else Spells(o.dflt(c, r), text)
  }

  lemma WrittenCell(t: Table, items: seq<Node>, row: seq<Node>, r: nat, k: nat, text: string, o: Oracle)
    requires HasPrimary(t) && NamedColumns(items) && k < |t.indexes[0].columns| <= |t.pkColumns| && WellFormedKey(t)
    requires SourceOf(t, items, k) < |row| && (SourceOf(t, items, k) >= 0 ==> KeptAs(row[SourceOf(t, items, k)], text))
    ensures Spells(WrittenVal(t, items, row, r, k, o), text) <==> CellDenotes(t, items, row, r, k, text, o)
  {
    var at := SourceOf(t, items, k);
    if at >= 0 { AlikeText(t, row[at], text, o); }
  }

  /** A REPLACE of rows of values, as the grammar and the database take it. The database refuses repeated
      columns. */
  ghost predicate ListsRows(rep: Node, t: Table) {
    && rep.Replace? && WellFormed(t) && WellFormedKey(t) && Distinct(t.indexes[0].columns)
    && rep.rows.Values? && (forall r :: 0 <= r < |rep.rows.items| ==> rep.rows.items[r].ValTuple?)
    && rep.columns.Columns? && NamedColumns(rep.columns.items) && Distinct(ListNames(rep.columns.items))
  }

  lemma PlannedCell(rep: Node, t: Table, values: seq<PkValue>, k: nat)
    requires ListsRows(rep, t) && AnalyzeReplace(rep, t) == Plan(values) && k < |values|
    ensures |values| == |t.pkColumns| == |t.indexes[0].columns|
    ensures PkCell(t, k, SourceOf(t, rep.columns.items, k), rep.rows.items) == Cells([values[k]])
  {
    var items := rep.columns.items;
    ReplaceCells(rep, t, values);
    PositionIsSource(t, items, k);
    PkCellsAt(t, InsertPositions(items, t), rep.rows.items, k);
  }

  /** The primary key row `r` writes is what the texts spell. */
  ghost predicate WritesKey(rep: Node, t: Table, r: nat, texts: seq<string>, o: Oracle)
    requires ListsRows(rep, t) && r < |rep.rows.items|
  {
    && |texts| == |t.pkColumns|
    && forall k :: 0 <= k < |texts| ==>
         && SourceOf(t, rep.columns.items, k) < |rep.rows.items[r].items|
         && Spells(WrittenVal(t, rep.columns.items, rep.rows.items[r].items, r, k, o), texts[k])
  }

  ghost predicate RowDenotes(rep: Node, t: Table, values: seq<PkValue>, r: nat, o: Oracle)
    requires ListsRows(rep, t) && r < |rep.rows.items| && AllScalar(values) && |values| == |t.pkColumns|
  {
    forall k :: 0 <= k < |values| ==>
      && SourceOf(t, rep.columns.items, k) < |rep.rows.items[r].items|
      && CellDenotes(t, rep.columns.items, rep.rows.items[r].items, r, k, KeyText(values[k].v), o)
  }

  lemma ScalarTextsAre(values: seq<PkValue>)
    requires AllScalar(values)
    ensures K.AllUsable(KeyParts(values)) && |KeyTexts(values)| == |values|
    ensures forall k :: 0 <= k < |values| ==> KeyTexts(values)[k] == KeyText(values[k].v)
  {
    UsableIff(values);
    OneTextEach(values);
  }

  lemma CellWritesIff(t: Table, items: seq<Node>, rows: seq<Node>, v: PkValue, r: nat, k: nat, o: Oracle)
    requires HasPrimary(t) && NamedColumns(items) && k < |t.indexes[0].columns| <= |t.pkColumns| && WellFormedKey(t)
    requires PkCell(t, k, SourceOf(t, items, k), rows) == Cells([v]) && v.Scalar?
    requires r < |rows| && rows[r].ValTuple?
    ensures SourceOf(t, items, k) < |rows[r].items|
    ensures Spells(WrittenVal(t, items, rows[r].items, r, k, o), KeyText(v.v)) <==>
            CellDenotes(t, items, rows[r].items, r, k, KeyText(v.v), o)
  {
    CellShape(t, k, SourceOf(t, items, k), rows, v);
    WrittenCell(t, items, rows[r].items, r, k, KeyText(v.v), o);
  }

  lemma RowWritesIff(rep: Node, t: Table, values: seq<PkValue>, r: nat, o: Oracle)
    requires ListsRows(rep, t) && AnalyzeReplace(rep, t) == Plan(values) && values != [] && AllScalar(values)
    requires r < |rep.rows.items|
    ensures K.AllUsable(KeyParts(values)) && |values| == |t.pkColumns|
    ensures WritesKey(rep, t, r, KeyTexts(values), o) <==> RowDenotes(rep, t, values, r, o)
  {
    ScalarTextsAre(values);
    forall k | 0 <= k < |values|
      ensures |values| == |t.pkColumns| == |t.indexes[0].columns|
      ensures PkCell(t, k, SourceOf(t, rep.columns.items, k), rep.rows.items) == Cells([values[k]])
    {
      PlannedCell(rep, t, values, k);
    }
    var items, row, texts := rep.columns.items, rep.rows.items[r].items, KeyTexts(values);
    assert |values| == |t.pkColumns| == |t.indexes[0].columns| by { PlannedCell(rep, t, values, 0); }
    forall k | 0 <= k < |values|
      ensures SourceOf(t, items, k) < |row|
      ensures Spells(WrittenVal(t, items, row, r, k, o), texts[k]) <==>
              CellDenotes(t, items, row, r, k, KeyText(values[k].v), o)
    {
      CellWritesIff(t, items, rep.rows.items, values[k], r, k, o);
    }
  }

  /** Several rows, or none, that give a primary-key value make it a list. */
  lemma ScalarRows(rep: Node, t: Table, values: seq<PkValue>)
    requires ListsRows(rep, t) && AnalyzeReplace(rep, t) == Plan(values) && values != [] && K.AllUsable(KeyParts(values))
    ensures |values| == |t.pkColumns| == |t.indexes[0].columns|
    ensures AllScalar(values) <==>
            |rep.rows.items| == 1 || forall k :: 0 <= k < |values| ==> SourceOf(t, rep.columns.items, k) == -1
    ensures rep.rows.items != [] ==>
              (|KeyTexts(values)| == |values| <==> AllScalar(values))
  {
    UsableIff(values);
    ReplaceCells(rep, t, values);
    forall k | 0 <= k < |values|
      ensures values[k].Scalar? <==> SourceOf(t, rep.columns.items, k) == -1 || |rep.rows.items| == 1
      ensures rep.rows.items != [] ==> PartTexts(values[k]) != [] && (|PartTexts(values[k])| == 1 <==> values[k].Scalar?)
    {
      PlannedCell(rep, t, values, k);
      CellShape(t, k, SourceOf(t, rep.columns.items, k), rep.rows.items, values[k]);
    }
    if rep.rows.items != [] { OneTextEach(values); }
  }

  /** A REPLACE whose primary-key values can be keyed writes only rows with the key that guards it exactly
      when it has no rows, or it keeps one literal per column (it has a single row, or leaves the whole
      key to the database) and every row writes just that: literals that read alike on both sides, and
      defaults that the database fills in as the planner spells them. */
  lemma ReplaceIff(rep: Node, t: Table, values: seq<PkValue>, o: Oracle)
    requires ListsRows(rep, t) && AnalyzeReplace(rep, t) == Plan(values) && values != [] && K.AllUsable(KeyParts(values))
    ensures |values| == |t.pkColumns|
    ensures AllScalar(values) <==>
            |rep.rows.items| == 1 || forall k :: 0 <= k < |values| ==> SourceOf(t, rep.columns.items, k) == -1
    ensures (forall r :: 0 <= r < |rep.rows.items| ==> WritesKey(rep, t, r, KeyTexts(values), o)) <==>
            || rep.rows.items == []
            || (AllScalar(values) && forall r :: 0 <= r < |rep.rows.items| ==> RowDenotes(rep, t, values, r, o))
  {
    ScalarRows(rep, t, values);
    if AllScalar(values) {
      forall r | 0 <= r < |rep.rows.items|
        ensures WritesKey(rep, t, r, KeyTexts(values), o) <==> RowDenotes(rep, t, values, r, o)
      {
        RowWritesIff(rep, t, values, r, o);
      }
    } else if rep.rows.items != [] {
      assert !WritesKey(rep, t, 0, KeyTexts(values), o);
    }
  }

  lemma ReplaceCells(rep: Node, t: Table, values: seq<PkValue>)
    requires rep.Replace? && WellFormed(t) && WellFormedKey(t)
    requires AnalyzeReplace(rep, t) == Plan(values) && values != []
    requires rep.rows.Values? && rep.columns.Columns? && NamedColumns(rep.columns.items)
    ensures |InsertPositions(rep.columns.items, t)| == |t.pkColumns|
    ensures PkCells(t, InsertPositions(rep.columns.items, t), rep.rows.items) == Cells(values) && |values| == |t.pkColumns|
  {
  }

  /** A table `t (id int not null primary key, v int)`: SHOW COLUMNS gives NULL as the default of both. */
  const IDV_TABLE := Table("t", [Column("id", Some(NullLit)), Column("v", Some(NullLit))],
                           [Index("PRIMARY", ["id"], [1], ["id", "v"])], [0], CACHE_RW)

  const REPLACE_V := Node.Replace(Comments([]), TableName("t", None), Columns([NonStarExpr(ColName("v", None), None)]),
                                  Node.Values([ValTuple([NumVal("1")])]), OnDup([]))

  lemma IdvTable()
    ensures WellFormed(IDV_TABLE) && ListsRows(REPLACE_V, IDV_TABLE) &&
            AnalyzeReplace(REPLACE_V, IDV_TABLE) == Plan([Scalar(NullLit)])
    ensures SourceOf(IDV_TABLE, REPLACE_V.columns.items, 0) == -1
  {
    assert Names(IDV_TABLE.columns) == ["id", "v"];
    assert Lower("id") == "id" && Lower("v") == "v";
    assert ListNames(REPLACE_V.columns.items) == ["v"];
    assert IndexOf(["v"], "id") == -1 by { assert ["v"][1..] == []; }
    PositionIsSource(IDV_TABLE, REPLACE_V.columns.items, 0);
    assert InsertPositions(REPLACE_V.columns.items, IDV_TABLE) == [-1];
    assert [-1][..0] == [];
  }

  lemma OneKeyGuarded(stmt: Node, tables: map<string, Table>, v: Literal, key: string)
    requires IsWrite(stmt) && WellFormedTables(tables) && Target(stmt) != "" && Target(stmt) in tables
    requires !tables[Target(stmt)].cacheType.CACHE_NONE? && |tables[Target(stmt)].pkColumns| == 1
    requires PlanOf(stmt, tables[Target(stmt)]) == Plan([Scalar(v)]) && ' ' !in KeyText(v) && key == KeyText(v) + "--"
    ensures Decide(stmt, tables) == Guarded(key)
  {
    var values := [Scalar(v)];
    ScalarTextsAre(values);
    assert KeyTexts(values) == [KeyText(v)];
    OneTextKey(KeyText(v));
    GuardedKey(stmt, tables, values);
  }

  /** `replace into t (v) values (1)` is guarded by the key of an empty text; a database that fills the
      key with a number writes another row. */
  lemma LeftOutReplace(o: Oracle)
    requires o.dflt(0, 0).Int?
    ensures var tables := map["t" := IDV_TABLE];
            WellFormedTables(tables) && Decide(REPLACE_V, tables) == Guarded("--")
    ensures ListsRows(REPLACE_V, IDV_TABLE) && !WritesKey(REPLACE_V, IDV_TABLE, 0, [""], o)
  {
    IdvTable();
    OneKeyGuarded(REPLACE_V, map["t" := IDV_TABLE], NullLit, "--");
    LeftOutWrites(o);
  }

  lemma LeftOutWrites(o: Oracle)
    requires o.dflt(0, 0).Int?
    ensures ListsRows(REPLACE_V, IDV_TABLE) && !WritesKey(REPLACE_V, IDV_TABLE, 0, [""], o)
  {
    IdvTable();
  }
}
