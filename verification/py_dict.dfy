/** The insertion-ordered dictionary that `main` fills and `print_tree`
    iterates (a Python dict from database name to table names), as its
    sequence of entries in insertion order. */
module PyDict {

  datatype Option<T> = None | Some(value: T)

  datatype Dict<V> = Dict(entries: seq<(string, V)>) {

    /** No key appears in two entries. */
    ghost predicate Valid() {
      forall i, j :: 0 <= i < j < |entries| ==> entries[i].0 != entries[j].0
    }

    /** `items()`: the key/value pairs in insertion order. */
    function Items(): seq<(string, V)> {
      entries
    }

    /** `list(d)`: the keys in insertion order; each key is listed once, and
        a string is listed exactly when some entry holds it. */
    function Keys(): (r: seq<string>)
      ensures Valid() ==> forall i, j :: 0 <= i < j < |r| ==> r[i] != r[j]
      ensures forall k :: k in r <==> exists i :: 0 <= i < |entries| && entries[i].0 == k
    {
      var r := seq(|entries|, i requires 0 <= i < |entries| => entries[i].0);
      assert forall i :: 0 <= i < |entries| ==> r[i] == entries[i].0;
      r
    }

    /** The position of the entry for `k`, or `|entries|` when there is none. */
    function Find(k: string): (i: nat)
      decreases |entries|
      ensures i <= |entries|
      ensures i < |entries| ==> entries[i].0 == k
      ensures i == |entries| ==> forall j :: 0 <= j < |entries| ==> entries[j].0 != k
    {
      if |entries| == 0 then 0
      else if entries[0].0 == k then 0
      else 1 + Dict(entries[1..]).Find(k)
    }

    /** `d.get(k)`. */
    function Get(k: string): (r: Option<V>)
      requires Valid()
      ensures r.Some? <==> exists i :: 0 <= i < |entries| && entries[i].0 == k
      ensures forall i :: 0 <= i < |entries| && entries[i].0 == k ==> r == Some(entries[i].1)
    {
      var i := Find(k);
      if i < |entries| then Some(entries[i].1) else None
    }

    /** `d[k] = v`: a new key is appended after every existing entry; an
        existing key keeps its place and only its value changes (lemmas
        `PutKeys` and `PutValues`). */
    function Put(k: string, v: V): (r: Dict<V>)
      requires Valid()
      ensures r.Valid()
    {
      var i := Find(k);
      if i < |entries| then Dict(entries[i := (k, v)]) else Dict(entries + [(k, v)])
    }
  }

  /** After `d[k] = v`, `k` maps to `v` and every other key maps to what it
      did before. */
  lemma PutValues<V>(d: Dict<V>, k: string, v: V)
    requires d.Valid()
    ensures d.Put(k, v).Get(k) == Some(v)
    ensures forall k' :: k' != k ==> d.Put(k, v).Get(k') == d.Get(k')
  {
    var i := d.Find(k);
    var r := d.Put(k, v);
    assert r.entries[i] == (k, v);
    forall k' | k' != k
      ensures r.Get(k') == d.Get(k')
    {
      var j := d.Find(k');
      if j < |d.entries| {
        assert r.entries[j] == d.entries[j];
      } else {
        forall m | 0 <= m < |r.entries|
          ensures r.entries[m].0 != k'
        {
          if m != i { assert r.entries[m] == d.entries[m]; }
        }
      }
    }
  }

  /** `d[k] = v` keeps the keys in their order and appends `k` if it is new. */
  lemma PutKeys<V>(d: Dict<V>, k: string, v: V)
    requires d.Valid()
    ensures d.Put(k, v).Keys() == if k in d.Keys() then d.Keys() else d.Keys() + [k]
  {
    var r := d.Put(k, v);
    var i := d.Find(k);
    if i < |d.entries| {
      assert k in d.Keys() by { assert d.Keys()[i] == k; }
      assert r.Keys() == d.Keys();
    } else {
      assert k !in d.Keys();
      assert r.Keys() == d.Keys() + [k];
    }
  }

  /** `{}`: the empty dictionary. */
  function Empty<V>(): (d: Dict<V>)
    ensures d.Valid() && d.entries == []
  {
    Dict([])
  }
}
