/** The part of `main` between fetching the database names and printing the
    tree: one call of the table lister per listed name, in list order, each
    result stored under its name, then the tree or, for an empty database
    list, a single message.

    Both listers reach the cluster over the network. They are parameters:
    `databases` is what the database lister returned, and `replies[i]` is what
    the table lister returned on its `i`-th call (possibly empty, which is
    also what it returns when the query fails). */
module Explorer {
  import opened PyDict
  import opened TreeRender

  const NO_DATABASES: string := "No databases found or unable to fetch databases."

  /** The position of the first occurrence of `x` in `s`. */
  function FirstIndex(s: seq<string>, x: string): (r: nat)
    requires x in s
    ensures r < |s| && s[r] == x
    ensures forall j :: 0 <= j < r ==> s[j] != x
  {
    if s[0] == x then 0 else 1 + FirstIndex(s[1..], x)
  }

  /** The position of the last occurrence of `x` in `s`. */
  function LastIndex(s: seq<string>, x: string): (r: nat)
    requires x in s
    ensures r < |s| && s[r] == x
    ensures forall j :: r < j < |s| ==> s[j] != x
  {
    var n := |s| - 1;
    if s[n] == x then n else assert x in s[..n]; LastIndex(s[..n], x)
  }

  /** The dictionary after the first `count` turns of the loop: each of the
      first `count` listed names set, in list order, to the table lister's
      reply for it. */
  function Filled(databases: seq<string>, replies: seq<seq<string>>, count: nat): (d: Dict<seq<string>>)
    requires |replies| == |databases| && count <= |databases|
    ensures d.Valid()
  {
    if count == 0 then Empty()
    else Filled(databases, replies, count - 1).Put(databases[count - 1], replies[count - 1])
  }

  /** The dictionary the loop leaves behind. */
  function Catalog(databases: seq<string>, replies: seq<seq<string>>): (d: Dict<seq<string>>)
    requires |replies| == |databases|
    ensures d.Valid()
  {
    Filled(databases, replies, |databases|)
  }

  /** The names of `s[..count]`, each kept at its first occurrence. */
  function Distinct(s: seq<string>, count: nat): seq<string>
    requires count <= |s|
  {
    if count == 0 then []
    else if s[count - 1] in s[..count - 1] then Distinct(s, count - 1)
    else Distinct(s, count - 1) + [s[count - 1]]
  }

  /** `Distinct` keeps every name and invents none. */
  lemma {:induction false} DistinctMembers(s: seq<string>, count: nat)
    requires count <= |s|
    ensures forall x :: x in Distinct(s, count) <==> x in s[..count]
  {
    if count > 0 {
      DistinctMembers(s, count - 1);
      assert s[..count] == s[..count - 1] + [s[count - 1]];
    }
  }

  lemma FirstIndexBefore(s: seq<string>, n: nat, x: string)
    requires n <= |s| && x in s[..n]
    ensures x in s && FirstIndex(s, x) < n
  {
    var m :| 0 <= m < n && s[..n][m] == x;
    assert s[m] == x;
  }

  lemma FirstIndexAt(s: seq<string>, n: nat)
    requires n < |s| && s[n] !in s[..n]
    ensures FirstIndex(s, s[n]) == n
  {
  }

  /** `Distinct` orders the names by their first occurrence in `s`. */
  lemma {:induction false} DistinctOrder(s: seq<string>, count: nat)
    requires count <= |s|
    ensures forall i :: 0 <= i < |Distinct(s, count)| ==> Distinct(s, count)[i] in s
    ensures forall i, j :: 0 <= i < j < |Distinct(s, count)| ==>
      FirstIndex(s, Distinct(s, count)[i]) < FirstIndex(s, Distinct(s, count)[j])
  {
    if count > 0 {
      var n := count - 1;
      var before := Distinct(s, n);
      DistinctOrder(s, n);
      if s[n] !in s[..n] {
        var d := before + [s[n]];
        DistinctMembers(s, n);
        FirstIndexAt(s, n);
        forall i | 0 <= i < |before|
          ensures before[i] in s && FirstIndex(s, before[i]) < n
        {
          FirstIndexBefore(s, n, before[i]);
        }
        forall i, j | 0 <= i < j < |d|
          ensures FirstIndex(s, d[i]) < FirstIndex(s, d[j])
        {
          assert d[i] == before[i];
          if j < |before| {
            assert d[j] == before[j];
          } else {
            assert d[j] == s[n];
          }
        }
        assert Distinct(s, count) == d;
      } else {
        assert Distinct(s, count) == before;
      }
    } else {
      assert Distinct(s, count) == [];
    }
  }

  /** After `count` turns the dictionary's keys are the distinct names met so far. */
  lemma {:induction false} FilledKeys(databases: seq<string>, replies: seq<seq<string>>, count: nat)
    requires |replies| == |databases| && count <= |databases|
    ensures Filled(databases, replies, count).Keys() == Distinct(databases, count)
  {
    if count > 0 {
      var n := count - 1;
      FilledKeys(databases, replies, n);
      DistinctMembers(databases, n);
      PutKeys(Filled(databases, replies, n), databases[n], replies[n]);
    }
  }

  lemma {:induction false} FilledValues(databases: seq<string>, replies: seq<seq<string>>, count: nat, x: string)
    requires |replies| == |databases| && count <= |databases|
    requires x in databases[..count]
    ensures exists r ::
      && 0 <= r < count && databases[r] == x
      && Filled(databases, replies, count).Get(x) == Some(replies[r])
      && (forall j :: r < j < count ==> databases[j] != x)
  {
    var n := count - 1;
    var before := Filled(databases, replies, n);
    PutValues(before, databases[n], replies[n]);
    if databases[n] != x {
      assert x in databases[..n] by {
        var i :| 0 <= i < count && databases[..count][i] == x;
        assert i < n;
        assert databases[..n][i] == x;
      }
      FilledValues(databases, replies, n, x);
      var r :| && 0 <= r < n && databases[r] == x
               && before.Get(x) == Some(replies[r])
               && (forall j :: r < j < n ==> databases[j] != x);
      assert Filled(databases, replies, count).Get(x) == Some(replies[r]);
    } else {
      assert Filled(databases, replies, count).Get(x) == Some(replies[n]);
    }
  }

  /** The keys are the listed names, each once, ordered by first occurrence. */
  lemma CatalogKeys(databases: seq<string>, replies: seq<seq<string>>)
    requires |replies| == |databases|
    ensures var keys := Catalog(databases, replies).Keys();
      && keys == Distinct(databases, |databases|)
      && (forall x :: x in keys <==> x in databases)
      && (forall i, j :: 0 <= i < j < |keys| ==> keys[i] != keys[j])
      && (forall i, j :: 0 <= i < j < |keys| ==>
            keys[i] in databases && keys[j] in databases && FirstIndex(databases, keys[i]) < FirstIndex(databases, keys[j]))
  {
    FilledKeys(databases, replies, |databases|);
    DistinctMembers(databases, |databases|);
    DistinctOrder(databases, |databases|);
    assert databases[..|databases|] == databases;
  }

  /** Each name holds the reply to the last call made for it: for a repeated
      name the later reply replaces the earlier one. */
  lemma CatalogValues(databases: seq<string>, replies: seq<seq<string>>)
    requires |replies| == |databases|
    ensures var d := Catalog(databases, replies);
      forall x :: x in databases ==> d.Get(x) == Some(replies[LastIndex(databases, x)])
  {
    assert databases[..|databases|] == databases;
    forall x | x in databases
      ensures Catalog(databases, replies).Get(x) == Some(replies[LastIndex(databases, x)])
    {
      FilledValues(databases, replies, |databases|, x);
    }
  }

  /** The loop of `main` that fills `databases_tables`. `asked` records the
      name passed on each call of the table lister. */
  method BuildCatalog(databases: seq<string>, replies: seq<seq<string>>)
    returns (databasesTables: Dict<seq<string>>, asked: seq<string>)
    requires |replies| == |databases|
    ensures databasesTables == Catalog(databases, replies)
    ensures asked == databases
  {
    databasesTables := Empty();
    asked := [];
    var i := 0;
    while i < |databases|
      invariant 0 <= i <= |databases|
      invariant databasesTables == Filled(databases, replies, i)
      invariant asked == databases[..i]
    {
      var db := databases[i];
      asked := asked + [db];
      var tables := replies[i];
      databasesTables := databasesTables.Put(db, tables);
      i := i + 1;
    }
  }

  /** `main` from the database list on: an empty list prints only a message
      and no tree; otherwise the tree of the filled dictionary is printed. */
  method Explore(clusterUrl: string, databases: seq<string>, replies: seq<seq<string>>)
    returns (out: seq<string>)
    requires |replies| == |databases|
    ensures databases == [] ==> out == [NO_DATABASES]
    ensures databases != [] ==> out == TreeLines(clusterUrl, Catalog(databases, replies).Items())
  {
    if |databases| == 0 {
      out := [NO_DATABASES];
      return;
    }
    var databasesTables, _ := BuildCatalog(databases, replies);
    out := PrintTree(clusterUrl, databasesTables);
  }

  /** What the rendered tree shows for a database list: the `k`-th database
      entry is the `k`-th distinct name (by first occurrence), carries the
      last reply for it, and
      the output has one line per distinct name besides the header and the
      table lines. */
  lemma ExploredTree(clusterUrl: string, databases: seq<string>, replies: seq<seq<string>>)
    requires |replies| == |databases|
    ensures var items := Catalog(databases, replies).Items();
      && |items| == |Distinct(databases, |databases|)|
      && (forall k :: 0 <= k < |items| ==>
            && items[k].0 == Distinct(databases, |databases|)[k]
            && items[k].0 in databases
            && items[k].1 == replies[LastIndex(databases, items[k].0)])
      && |TreeLines(clusterUrl, items)| == 1 + |items| + TableTotal(items, |items|)
  {
    var d := Catalog(databases, replies);
    CatalogKeys(databases, replies);
    CatalogValues(databases, replies);
    forall k | 0 <= k < |d.entries|
      ensures d.entries[k].1 == replies[LastIndex(databases, d.entries[k].0)]
    {
      assert d.Get(d.entries[k].0) == Some(d.entries[k].1);
    }
    TreeShape(clusterUrl, d.Items());
  }
}
