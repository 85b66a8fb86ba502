/**
 * A table of rows keyed by an integer id, as the SQL backends see it, and the
 * result of a query that selects every row of it.
 */
module Tables {

  /** One row of a query result: the row's id and its other columns. */
  datatype Row<V> = Row(id: int, fields: V)

  /**
   * `rs` lists every row of `table` exactly once and nothing else, in some
   * order: the result of `SELECT ... FROM table` without `ORDER BY`.
   */
  ghost predicate Enumerates<V(!new)>(rs: seq<Row<V>>, table: map<int, V>)
  {
    forall r :: multiset(rs)[r] == if r.id in table && table[r.id] == r.fields then 1 else 0
  }

  /** Selects every row of `table`, in an order the model leaves open. */
  method Rows<V(==,!new)>(table: map<int, V>) returns (rs: seq<Row<V>>)
    ensures Enumerates(rs, table)
  {
    rs := [];
    var pending := table.Keys;
    while pending != {}
      invariant pending <= table.Keys
      invariant forall r :: multiset(rs)[r] ==
                  if r.id in table && r.id !in pending && table[r.id] == r.fields then 1 else 0
      decreases pending
    {
      NonEmptyHasElement(pending);
      var id :| id in pending;
      rs := rs + [Row(id, table[id])];
      pending := pending - {id};
    }
  }

  lemma NonEmptyHasElement(ids: set<int>)
    requires ids != {}
    ensures exists id :: id in ids
  {
    assert (forall id :: id !in ids) ==> ids == {};
  }

  /** Selecting every row of a one-row table yields exactly that row. */
  lemma EnumeratesSingleton<V(!new)>(rs: seq<Row<V>>, id: int, v: V)
    requires Enumerates(rs, map[id := v])
    ensures rs == [Row(id, v)]
  {
    var only := Row(id, v);
    assert multiset(rs) == multiset{only} by {
      forall r ensures multiset(rs)[r] == multiset{only}[r] {
      }
    }
    assert |rs| == |multiset(rs)| == 1;
    assert rs[0] in multiset(rs);
  }
}
