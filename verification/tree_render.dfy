/** `print_tree`: renders a cluster, its databases and their tables as one
    line per node. `TreeLines` is the specification of the whole output; the
    lemmas below locate every database line and every table line in it, and
    the method `PrintTree` is `print_tree`'s two nested loops, proved to emit
    exactly `TreeLines`. */
module TreeRender {
  import opened TreeStyle
  import opened PyDict

  /** A database name with the names of its tables, as `items()` yields it. */
  type Entry = (string, seq<string>)

  /** The first line: the cluster decoration and the cluster URL. */
  function Header(clusterUrl: string): string {
    CLUSTER + clusterUrl
  }

  /** The line of a database: elbow if it is the last database, tee otherwise. */
  function DatabaseLine(name: string, isLast: bool): string {
    (if isLast then ELBOW else TEE) + DATABASE + name
  }

  /** What every table line under a database starts with. */
  function Continuation(isLastDb: bool): string {
    if isLastDb then SPACE else PIPE
  }

  /** The line of a table: elbow if it is the database's last table, tee otherwise. */
  function TableLine(prefix: string, name: string, isLast: bool): string {
    prefix + (if isLast then ELBOW else TEE) + TABLE + name
  }

  /** The lines of the first `count` tables of `tables`. */
  function TableLines(prefix: string, tables: seq<string>, count: nat): (r: seq<string>)
    requires count <= |tables|
    ensures |r| == count
  {
    if count == 0 then []
    else TableLines(prefix, tables, count - 1) + [TableLine(prefix, tables[count - 1], count - 1 == |tables| - 1)]
  }

  /** The lines of database `k`: its own line followed by the lines of all its tables. */
  function Block(items: seq<Entry>, k: nat): seq<string>
    requires k < |items|
  {
    var isLast := k == |items| - 1;
    [DatabaseLine(items[k].0, isLast)] + TableLines(Continuation(isLast), items[k].1, |items[k].1|)
  }

  /** The blocks of the first `count` databases, in order. */
  function Blocks(items: seq<Entry>, count: nat): seq<string>
    requires count <= |items|
  {
    if count == 0 then [] else Blocks(items, count - 1) + Block(items, count - 1)
  }

  /** Everything `print_tree` prints for `items`. */
  function TreeLines(clusterUrl: string, items: seq<Entry>): seq<string> {
    [Header(clusterUrl)] + Blocks(items, |items|)
  }

  /** The number of tables of the first `count` databases. */
  function TableTotal(items: seq<Entry>, count: nat): nat
    requires count <= |items|
  {
    if count == 0 then 0 else TableTotal(items, count - 1) + |items[count - 1].1|
  }

  /** Where the line of database `k` stands in the output: after the header,
      the `k` earlier database lines and all their table lines. */
  function DatabaseIndex(items: seq<Entry>, k: nat): nat
    requires k < |items|
  {
    1 + k + TableTotal(items, k)
  }

  // ---------------------------------------------------------------------
  // Shape of the output

  lemma {:induction false} BlocksLength(items: seq<Entry>, count: nat)
    requires count <= |items|
    ensures |Blocks(items, count)| == count + TableTotal(items, count)
  {
    if count > 0 {
      BlocksLength(items, count - 1);
    }
  }

  lemma {:induction false} BlocksPrefix(items: seq<Entry>, k: nat, m: nat)
    requires k <= m <= |items|
    ensures Blocks(items, k) <= Blocks(items, m)
  {
    if k < m {
      BlocksPrefix(items, k, m - 1);
    }
  }

  /** The output has one line for the cluster, one per database and one per
      table, and starts with the cluster header. */
  lemma TreeShape(clusterUrl: string, items: seq<Entry>)
    ensures |TreeLines(clusterUrl, items)| == 1 + |items| + TableTotal(items, |items|)
    ensures TreeLines(clusterUrl, items)[0] == CLUSTER + clusterUrl
  {
    BlocksLength(items, |items|);
  }

  /** An empty dictionary prints the cluster header alone. */
  lemma EmptyTree(clusterUrl: string)
    ensures TreeLines(clusterUrl, []) == [CLUSTER + clusterUrl]
  {
  }

  /** The blocks tile the output: the first database line follows the header,
      each block starts where the previous one ends (so a database with no
      tables is followed at once by the next database line), and the last
      block ends the output. */
  lemma {:induction false} BlocksAdjacent(clusterUrl: string, items: seq<Entry>, k: nat)
    requires k < |items|
    ensures DatabaseIndex(items, 0) == 1
    ensures k + 1 < |items| ==> DatabaseIndex(items, k + 1) == DatabaseIndex(items, k) + 1 + |items[k].1|
    ensures k + 1 == |items| ==> |TreeLines(clusterUrl, items)| == DatabaseIndex(items, k) + 1 + |items[k].1|
  {
    if k + 1 == |items| {
      TreeShape(clusterUrl, items);
    }
  }

  lemma {:induction false} BlockAt(clusterUrl: string, items: seq<Entry>, k: nat, p: nat)
    requires k < |items| && p < 1 + |items[k].1|
    ensures DatabaseIndex(items, k) + p < |TreeLines(clusterUrl, items)|
    ensures TreeLines(clusterUrl, items)[DatabaseIndex(items, k) + p] == Block(items, k)[p]
  {
    var t := TreeLines(clusterUrl, items);
    BlocksPrefix(items, k + 1, |items|);
    BlocksLength(items, k);
    var b := Blocks(items, k + 1);
    assert b == Blocks(items, k) + Block(items, k);
    assert b[|Blocks(items, k)| + p] == Block(items, k)[p];
    assert t[1 + |Blocks(items, k)| + p] == b[|Blocks(items, k)| + p];
  }

  lemma {:induction false} TableLinesAt(prefix: string, tables: seq<string>, count: nat, j: nat)
    requires j < count <= |tables|
    ensures TableLines(prefix, tables, count)[j] == TableLine(prefix, tables[j], j == |tables| - 1)
  {
    if j < count - 1 {
      TableLinesAt(prefix, tables, count - 1, j);
    }
  }

  // ---------------------------------------------------------------------
  // The lines themselves

  /** Database `k` is printed at `DatabaseIndex(items, k)`: an elbow for the
      last database and a tee for every other, then the database decoration
      and its name. */
  lemma DatabaseLineAt(clusterUrl: string, items: seq<Entry>, k: nat)
    requires k < |items|
    ensures DatabaseIndex(items, k) < |TreeLines(clusterUrl, items)|
    ensures TreeLines(clusterUrl, items)[DatabaseIndex(items, k)]
         == (if k == |items| - 1 then ELBOW else TEE) + DATABASE + items[k].0
  {
    BlockAt(clusterUrl, items, k, 0);
  }

  /** Table `j` of database `k` is printed right after the database line and
      the `j` earlier tables: a pipe under every database but the last and
      blank space under the last, then an elbow for the database's last table
      and a tee for every other, then the table decoration and its name. */
  lemma TableLineAt(clusterUrl: string, items: seq<Entry>, k: nat, j: nat)
    requires k < |items| && j < |items[k].1|
    ensures DatabaseIndex(items, k) + 1 + j < |TreeLines(clusterUrl, items)|
    ensures TreeLines(clusterUrl, items)[DatabaseIndex(items, k) + 1 + j]
         == (if k == |items| - 1 then SPACE else PIPE)
          + (if j == |items[k].1| - 1 then ELBOW else TEE)
          + TABLE + items[k].1[j]
  {
    BlockAt(clusterUrl, items, k, 1 + j);
    var isLast := k == |items| - 1;
    TableLinesAt(Continuation(isLast), items[k].1, |items[k].1|, j);
  }

  /** Only the last database line begins with an elbow; every other begins
      with a tee. */
  lemma DatabaseConnector(clusterUrl: string, items: seq<Entry>, k: nat)
    requires k < |items|
    ensures DatabaseIndex(items, k) < |TreeLines(clusterUrl, items)|
    ensures ELBOW <= TreeLines(clusterUrl, items)[DatabaseIndex(items, k)] <==> k == |items| - 1
    ensures TEE <= TreeLines(clusterUrl, items)[DatabaseIndex(items, k)] <==> k != |items| - 1
  {
    DatabaseLineAt(clusterUrl, items, k);
    var c := if k == |items| - 1 then ELBOW else TEE;
    assert TreeLines(clusterUrl, items)[DatabaseIndex(items, k)] == c + (DATABASE + items[k].0);
    ConnectorStart(c, DATABASE + items[k].0);
  }

  /** Table lines under the last database begin with blank space, those under
      any other database with a pipe; after that, only the database's last
      table has an elbow and the others a tee. */
  lemma TableConnector(clusterUrl: string, items: seq<Entry>, k: nat, j: nat)
    requires k < |items| && j < |items[k].1|
    ensures DatabaseIndex(items, k) + 1 + j < |TreeLines(clusterUrl, items)|
    ensures var line := TreeLines(clusterUrl, items)[DatabaseIndex(items, k) + 1 + j];
      && (SPACE <= line <==> k == |items| - 1)
      && (PIPE <= line <==> k != |items| - 1)
      && var rest := line[|Continuation(k == |items| - 1)|..];
      && (ELBOW <= rest <==> j == |items[k].1| - 1)
      && (TEE <= rest <==> j != |items[k].1| - 1)
  {
    TableLineAt(clusterUrl, items, k, j);
    var p := Continuation(k == |items| - 1);
    var c := if j == |items[k].1| - 1 then ELBOW else TEE;
    var tail := TABLE + items[k].1[j];
    var line := TreeLines(clusterUrl, items)[DatabaseIndex(items, k) + 1 + j];
    assert line == p + (c + tail);
    assert line[|p|..] == c + tail;
    ContinuationStart(p, c + tail);
    ConnectorStart(c, tail);
  }

  /** An entry with no tables contributes its database line and nothing else. */
  lemma EmptyDatabase(items: seq<Entry>, k: nat)
    requires k < |items| && items[k].1 == []
    ensures Block(items, k) == [DatabaseLine(items[k].0, k == |items| - 1)]
  {
  }

  /** A cluster with two databases, rendered line by line. */
  lemma TwoDatabases()
    ensures TreeLines("cluster", [("analytics", ["events", "users"]), ("logs", ["raw"])])
         == [ CLUSTER + "cluster",
              TEE + DATABASE + "analytics",
              PIPE + TEE + TABLE + "events",
              PIPE + ELBOW + TABLE + "users",
              ELBOW + DATABASE + "logs",
              SPACE + ELBOW + TABLE + "raw" ]
  {
    var items := [("analytics", ["events", "users"]), ("logs", ["raw"])];
    assert TableLines(PIPE, items[0].1, 2)
        == [PIPE + TEE + TABLE + "events", PIPE + ELBOW + TABLE + "users"];
    assert TableLines(SPACE, items[1].1, 1) == [SPACE + ELBOW + TABLE + "raw"];
    assert Blocks(items, 2) == Block(items, 0) + Block(items, 1);
  }

  // ---------------------------------------------------------------------
  // `print_tree`'s loops

  /** `print_tree(cluster_url, databases_tables)`: each `print` appends one
      line to `out`. */
  method PrintTree(clusterUrl: string, databasesTables: Dict<seq<string>>) returns (out: seq<string>)
    ensures out == TreeLines(clusterUrl, databasesTables.Items())
  {
    var items := databasesTables.Items();
    out := [CLUSTER + clusterUrl];
    var dbCount := |items|;
    var i := 0;
    while i < dbCount
      invariant 0 <= i <= dbCount
      invariant out == [Header(clusterUrl)] + Blocks(items, i)
    {
      var (db, tables) := items[i];
      var isLastDb := i == dbCount - 1;
      var dbPrefix;
      if isLastDb {
        out := out + [ELBOW + DATABASE + db];
        dbPrefix := SPACE;
      } else {
        out := out + [TEE + DATABASE + db];
        dbPrefix := PIPE;
      }
      ghost var before := out;
      var tableCount := |tables|;
      var j := 0;
      while j < tableCount
        invariant 0 <= j <= tableCount
        invariant out == before + TableLines(dbPrefix, tables, j)
      {
        var table := tables[j];
        var isLastTable := j == tableCount - 1;
        if isLastTable {
          out := out + [dbPrefix + ELBOW + TABLE + table];
        } else {
          out := out + [dbPrefix + TEE + TABLE + table];
        }
        j := j + 1;
      }
      assert out == [Header(clusterUrl)] + Blocks(items, i) + Block(items, i);
      i := i + 1;
    }
  }
}
