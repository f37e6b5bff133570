/** The record store: the loaded data frame and the values that populate
    the sidebar controls (the date bounds and the sorted option lists). */
module Store {

  import opened Ordering
  import opened Records

  /** `(df["Date"].min(), df["Date"].max())`; `None` for an empty frame,
      where pandas yields NaT. */
  function DateBounds(rs: seq<Record>): (b: Option<(Date, Date)>)
    ensures b.None? <==> rs == []
    ensures b.Some? ==> exists r :: r in rs && r.date == b.value.0
    ensures b.Some? ==> exists r :: r in rs && r.date == b.value.1
    ensures b.Some? ==> forall r :: r in rs ==> b.value.0 <= r.date <= b.value.1
  {
    if rs == [] then None
    else
      var d := rs[0].date;
      assert rs == [rs[0]] + rs[1..];
      match DateBounds(rs[1..])
      case None => Some((d, d))
      case Some((lo, hi)) =>
        Some((if d < lo then d else lo, if d > hi then d else hi))
  }

  /** The distinct values of a column in ascending `le` order: the group
      keys of `groupby` and, for text columns, `sorted(df[c].unique())`. */
  function SortedDistinct<K(==,!new)>(rs: seq<Record>, keyOf: Record -> K, le: (K, K) -> bool): (keys: seq<K>)
    requires IsTotalPreorder(le)
    ensures Ascending(keys, le)
    ensures NoDups(keys)
    ensures forall k :: k in keys <==> exists r :: r in rs && keyOf(r) == k
  {
    var col := Column(rs, keyOf);
    var distinct := Unique(col);
    SortAscending(distinct, le);
    SortNoDups(distinct, le);
    var keys := SortBy(distinct, le);
    assert forall k :: k in keys <==> k in distinct by {
      forall k ensures k in keys <==> k in distinct {
        assert k in keys <==> k in multiset(keys);
        assert k in distinct <==> k in multiset(distinct);
      }
    }
    assert forall k :: k in distinct <==> k in col;
    assert forall k :: k in col <==> exists r :: r in rs && keyOf(r) == k by {
      forall k ensures k in col <==> exists r :: r in rs && keyOf(r) == k {
        if k in col {
          var i :| 0 <= i < |col| && col[i] == k;
          assert rs[i] in rs && keyOf(rs[i]) == k;
        }
        if exists r :: r in rs && keyOf(r) == k {
          var r :| r in rs && keyOf(r) == k;
          var i :| 0 <= i < |rs| && rs[i] == r;
          assert col[i] == k;
        }
      }
    }
    keys
  }

  /** The option list of a categorical column, `sorted(df[c].unique())`:
      ascending, duplicate-free, and exactly the values in the column. */
  function Options(rs: seq<Record>, column: Record -> string): (opts: seq<string>)
    ensures Ascending(opts, TextLe)
    ensures NoDups(opts)
    ensures forall v :: v in opts <==> exists r :: r in rs && column(r) == v
  {
    TextLeIsTotalPreorder();
    SortedDistinct(rs, column, TextLe)
  }
}
