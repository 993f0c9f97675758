/** Table metadata (vt/schema/schema.go, vt/tabletserver/table_info.go). */
module Schema {
  import opened Wrappers
  import opened Bytes

  /** A literal as sqltypes.Value keeps it: numbers in normal form, or NULL. */
  datatype Literal = NumLit(n: int) | StrLit(text: string) | NullLit

  datatype CacheType = CACHE_NONE | CACHE_RW | CACHE_W

  /** `dflt` is nil for an auto-increment column. */
  datatype Column = Column(name: string, dflt: Option<Literal>)

  datatype Index = Index(name: string, columns: seq<string>, cardinality: seq<nat>, dataColumns: seq<string>)

  /** Each column has a cardinality, a uint64 that is not zero: AddColumn replaces a zero. */
  predicate ValidIndex(index: Index) {
    && |index.cardinality| == |index.columns|
    && forall k :: 0 <= k < |index.cardinality| ==> 0 < index.cardinality[k] <= MAX_UINT64
  }

  function AddColumn(index: Index, name: string, cardinality: nat): (r: Index)
    requires ValidIndex(index) && cardinality <= MAX_UINT64 && |index.cardinality| < MAX_UINT64
    ensures ValidIndex(r) && r.columns == index.columns + [name] && r.cardinality[..|index.columns|] == index.cardinality
  {
    index.(columns := index.columns + [name],
           cardinality := index.cardinality + [if cardinality == 0 then |index.cardinality| + 1 else cardinality])
  }

  datatype Table = Table(
    name: string,
    columns: seq<Column>,
    indexes: seq<Index>,
    pkColumns: seq<nat>,
    cacheType: CacheType)

  function LowerChar(c: char): char { if 'A' <= c <= 'Z' then c + 32 as char else c }

  function Lower(s: string): (r: string)
    ensures |r| == |s| && forall i :: 0 <= i < |s| ==> r[i] == LowerChar(s[i])
  {
    seq(|s|, (i: nat) requires i < |s| => LowerChar(s[i]))
  }

  /** The first position of a name in a list, or -1 (FindColumn and FindDataColumn). */
  function IndexOf(names: seq<string>, name: string): (r: int)
    ensures -1 <= r < |names|
    ensures r >= 0 ==> names[r] == name && forall j :: 0 <= j < r ==> names[j] != name
    ensures r < 0 <==> name !in names
  {
    if names == [] then -1
    else if names[0] == name then 0
    else var r := IndexOf(names[1..], name); if r < 0 then -1 else r + 1
  }

  function Names(columns: seq<Column>): (r: seq<string>)
    ensures |r| == |columns| && forall i :: 0 <= i < |columns| ==> r[i] == columns[i].name
  {
    seq(|columns|, (i: nat) requires i < |columns| => columns[i].name)
  }

  function Lowers(names: seq<string>): (r: seq<string>)
    ensures |r| == |names| && forall i :: 0 <= i < |names| ==> r[i] == Lower(names[i])
  {
    seq(|names|, (i: nat) requires i < |names| => Lower(names[i]))
  }

  /** Column names are lower case, as AddColumn leaves them. */
  ghost predicate LowerNames(columns: seq<Column>) {
    forall i :: 0 <= i < |columns| ==> Lower(columns[i].name) == columns[i].name
  }

  /** The primary index comes first and agrees with the list of primary-key columns. */
  ghost predicate PkConsistent(columns: seq<Column>, indexes: seq<Index>, pkColumns: seq<nat>) {
    && LowerNames(columns)
    && indexes != [] && indexes[0].name == "PRIMARY"
    && |pkColumns| == |indexes[0].columns|
    && forall k :: 0 <= k < |pkColumns| ==>
         pkColumns[k] == IndexOf(Names(columns), indexes[0].columns[k])
  }

  ghost predicate WellFormed(t: Table) { PkConsistent(t.columns, t.indexes, t.pkColumns) }

  /** The cardinalities of a primary key's columns. */
  function Ones(n: nat): (r: seq<nat>)
    ensures |r| == n && forall k :: 0 <= k < n ==> r[k] == 1
  {
    seq(n, (k: nat) => 1)
  }

  /** The indexes other than a leading primary one. */
  function Secondary(indexes: seq<Index>): seq<Index> {
    if indexes != [] && indexes[0].name == "PRIMARY" then indexes[1..] else indexes
  }

  class TableInfo {
    const columns: seq<Column>
    var indexes: seq<Index>
    var pkColumns: seq<nat>

    constructor (columns: seq<Column>)
      ensures this.columns == columns && indexes == [] && pkColumns == []
    {
      this.columns, indexes, pkColumns := columns, [], [];
    }

    /** Makes the named columns the primary key: its index moves in front of the others, replacing an
        earlier primary index. An unknown column changes nothing. */
    method SetPK(colnames: seq<string>) returns (ok: bool)
      requires LowerNames(columns)
      modifies this
      ensures ok <==> forall i :: 0 <= i < |colnames| ==> Lower(colnames[i]) in Names(columns)
      ensures ok ==> PkConsistent(columns, indexes, pkColumns)
      ensures ok ==> indexes[0] == Index("PRIMARY", Lowers(colnames), Ones(|colnames|), Lowers(Names(columns))) &&
                     indexes[1..] == Secondary(old(indexes))
      ensures !ok ==> indexes == old(indexes) && pkColumns == old(pkColumns)
    {
      var colnums: seq<nat>, names: seq<string> := [], [];
      for i := 0 to |colnames|
        invariant |colnums| == i && names == Lowers(colnames)[..i]
        invariant forall k :: 0 <= k < i ==> Lower(colnames[k]) in Names(columns)
        invariant forall k :: 0 <= k < i ==> colnums[k] == IndexOf(Names(columns), names[k])
      {
        var at := IndexOf(Names(columns), Lower(colnames[i]));
        if at == -1 {
          return false;
        }
        colnums, names := colnums + [at], names + [Lower(colnames[i])];
      }
      assert names == Lowers(colnames);
      var data: seq<string> := [];
      for i := 0 to |columns|
        invariant data == Lowers(Names(columns))[..i]
      {
        data := data + [Lower(columns[i].name)];
      }
      if |indexes| == 0 {
        indexes := [Index("", [], [], [])];
      } else if indexes[0].name != "PRIMARY" {
        indexes := [indexes[0]] + indexes;
      }
      assert indexes[1..] == Secondary(old(indexes));
      indexes := indexes[0 := Index("PRIMARY", names, Ones(|names|), data)];
      pkColumns := colnums;
      return true;
    }
  }
}
