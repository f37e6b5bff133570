/** The four `groupby(...)["Revenue"].sum()` tables behind the charts. */
module Aggregator {

  import opened Ordering
  import opened Records
  import opened Store
  import opened Metrics

  /** One row of an aggregate table: a group key and its summed revenue. */
  datatype Row<K> = Row(key: K, revenue: int)

  /** The records of `view` whose key is `k`, in view order: one group.
      Every line counts, so a record repeated in the view is repeated in
      its group. */
  function Group<K(==)>(view: seq<Record>, keyOf: Record -> K, k: K): (g: seq<Record>)
    ensures forall r :: r in g <==> r in view && keyOf(r) == k
    ensures forall r :: multiset(g)[r] == if keyOf(r) == k then multiset(view)[r] else 0
    ensures (forall r :: r in view ==> keyOf(r) == k) ==> g == view
    ensures |g| <= |view|
  {
    if view == [] then []
    else
      var head, tail := view[0], view[1..];
      assert view == [head] + tail;
      assert multiset(view) == multiset{head} + multiset(tail);
      assert forall r :: r in tail ==> r in view;
      var rest := Group(tail, keyOf, k);
      if keyOf(head) == k then [head] + rest else rest
  }

  /** The summed revenue of one group: 0 for a key no record has, the
      whole total when every record has the key, and never negative when
      no price or quantity is. */
  function GroupRevenue<K(==)>(view: seq<Record>, keyOf: Record -> K, k: K): (rev: int)
    ensures (forall r :: r in view ==> keyOf(r) != k) ==> rev == 0
    ensures (forall r :: r in view ==> keyOf(r) == k) ==> rev == TotalRevenue(view)
    ensures NonNegative(view) ==> rev >= 0
  {
    var g := Group(view, keyOf, k);
    assert (forall r :: r in view ==> keyOf(r) != k) ==> g == [] by {
      if g != [] {
        assert g[0] in g;
      }
    }
    TotalRevenue(g)
  }

  /** One row per key of `keys`, in that order. */
  function Rows<K(==)>(view: seq<Record>, keyOf: Record -> K, keys: seq<K>): (t: seq<Row<K>>)
    ensures |t| == |keys|
    ensures forall i :: 0 <= i < |keys| ==> t[i] == Row(keys[i], GroupRevenue(view, keyOf, keys[i]))
  {
    if keys == [] then []
    else [Row(keys[0], GroupRevenue(view, keyOf, keys[0]))] + Rows(view, keyOf, keys[1..])
  }

  /** The sum of a table's revenue column. */
  function RowTotal<K>(t: seq<Row<K>>): int {
    if t == [] then 0 else t[0].revenue + RowTotal(t[1..])
  }

  /** The keys that occur in a table. */
  ghost function TableKeys<K>(t: seq<Row<K>>): set<K> {
    set row | row in t :: row.key
  }

  /** The keys that occur in a view. */
  ghost function ViewKeys<K>(view: seq<Record>, keyOf: Record -> K): set<K> {
    set r | r in view :: keyOf(r)
  }

  /** What `groupby(key)["Revenue"].sum()` promises: one row per key present
      in the view and no other, each row the revenue of its group, and the
      rows together adding up to the view's total revenue. */
  ghost predicate IsRevenueTable<K>(t: seq<Row<K>>, view: seq<Record>, keyOf: Record -> K) {
    && (forall i, j :: 0 <= i < j < |t| ==> t[i].key != t[j].key)
    && TableKeys(t) == ViewKeys(view, keyOf)
    && (forall row :: row in t ==> row.revenue == GroupRevenue(view, keyOf, row.key))
    && RowTotal(t) == TotalRevenue(view)
  }

  /** `sort_values("Revenue", ascending=False)` may put `a` before `b`;
      rows with equal revenue may go in either order. */
  predicate RevenueAtLeast<K>(a: Row<K>, b: Row<K>) {
    a.revenue >= b.revenue
  }

  /** The descending revenue comparison is total and transitive, so the
      sort is well defined. */
  lemma RevenueAtLeastIsTotalPreorder<K(!new)>()
    ensures IsTotalPreorder(RevenueAtLeast<K>)
  {
  }

  /** Peeling the first record off the view moves its revenue out of the
      one row whose key it has (if any). */
  lemma {:induction false} RowTotalSplitHead<K>(view: seq<Record>, keyOf: Record -> K, keys: seq<K>)
    requires view != [] && NoDups(keys)
    ensures RowTotal(Rows(view, keyOf, keys)) ==
      (if keyOf(view[0]) in keys then Revenue(view[0]) else 0) + RowTotal(Rows(view[1..], keyOf, keys))
  {
    if keys != [] {
      var k := keys[0];
      RowTotalSplitHead(view, keyOf, keys[1..]);
      var g, g' := Group(view, keyOf, k), Group(view[1..], keyOf, k);
      if keyOf(view[0]) == k {
        assert g == [view[0]] + g';
        assert g[1..] == g';
      } else {
        assert g == g';
      }
    }
  }

  lemma {:induction false} RowTotalEmptyView<K>(keyOf: Record -> K, keys: seq<K>)
    ensures RowTotal(Rows([], keyOf, keys)) == 0
  {
    if keys != [] {
      RowTotalEmptyView(keyOf, keys[1..]);
    }
  }

  /** Grouping is a partition: when every key of the view is listed once,
      the group sums add up to the total revenue. */
  lemma {:induction false} GroupsPartitionRevenue<K>(view: seq<Record>, keyOf: Record -> K, keys: seq<K>)
    requires NoDups(keys)
    requires forall r :: r in view ==> keyOf(r) in keys
    ensures RowTotal(Rows(view, keyOf, keys)) == TotalRevenue(view)
  {
    if view == [] {
      RowTotalEmptyView(keyOf, keys);
    } else {
      assert view[0] in view;
      forall r | r in view[1..] ensures keyOf(r) in keys {
        assert r in view;
      }
      GroupsPartitionRevenue(view[1..], keyOf, keys);
      RowTotalSplitHead(view, keyOf, keys);
    }
  }

  /** A table built on `keys` has exactly those keys. */
  lemma RowsKeys<K>(view: seq<Record>, keyOf: Record -> K, keys: seq<K>)
    ensures TableKeys(Rows(view, keyOf, keys)) == set k | k in keys
  {
    var t := Rows(view, keyOf, keys);
    forall k ensures k in TableKeys(t) <==> k in keys {
      if k in TableKeys(t) {
        var row :| row in t && row.key == k;
        var i :| 0 <= i < |t| && t[i] == row;
        assert t[i].key == keys[i];
      }
      if k in keys {
        var i :| 0 <= i < |keys| && keys[i] == k;
        assert t[i] in t && t[i].key == k;
      }
    }
  }

  /** The keys of a view are exactly the listed keys when every record's
      key is listed and every listed key has a record. */
  lemma ViewKeysAreKeys<K>(view: seq<Record>, keyOf: Record -> K, keys: seq<K>)
    requires forall r :: r in view ==> keyOf(r) in keys
    requires forall k :: k in keys ==> exists r :: r in view && keyOf(r) == k
    ensures ViewKeys(view, keyOf) == set k | k in keys
  {
    forall k | k in ViewKeys(view, keyOf) ensures k in keys {
      var r :| r in view && keyOf(r) == k;
    }
    forall k | k in keys ensures k in ViewKeys(view, keyOf) {
      var r :| r in view && keyOf(r) == k;
    }
  }

  lemma RowsTableKeys<K>(view: seq<Record>, keyOf: Record -> K, keys: seq<K>)
    requires forall r :: r in view ==> keyOf(r) in keys
    requires forall k :: k in keys ==> exists r :: r in view && keyOf(r) == k
    ensures TableKeys(Rows(view, keyOf, keys)) == ViewKeys(view, keyOf)
  {
    RowsKeys(view, keyOf, keys);
    ViewKeysAreKeys(view, keyOf, keys);
  }

  /** The rows built on the distinct keys of the view form its revenue
      table. */
  lemma RowsAreRevenueTable<K>(view: seq<Record>, keyOf: Record -> K, keys: seq<K>)
    requires NoDups(keys)
    requires forall r :: r in view ==> keyOf(r) in keys
    requires forall k :: k in keys ==> exists r :: r in view && keyOf(r) == k
    ensures IsRevenueTable(Rows(view, keyOf, keys), view, keyOf)
  {
    GroupsPartitionRevenue(view, keyOf, keys);
    RowsTableKeys(view, keyOf, keys);
  }

  lemma {:induction false} InsertRowTotal<K>(x: Row<K>, t: seq<Row<K>>, le: (Row<K>, Row<K>) -> bool)
    ensures RowTotal(Insert(x, t, le)) == x.revenue + RowTotal(t)
  {
    if t != [] && !le(x, t[0]) {
      InsertRowTotal(x, t[1..], le);
    }
  }

  lemma {:induction false} SortRowTotal<K>(t: seq<Row<K>>, le: (Row<K>, Row<K>) -> bool)
    ensures RowTotal(SortBy(t, le)) == RowTotal(t)
  {
    if t != [] {
      SortRowTotal(t[1..], le);
      InsertRowTotal(t[0], SortBy(t[1..], le), le);
    }
  }

  /** A table with the same rows, the same total and no repeated row as a
      revenue table is one too. */
  lemma SameRowsRevenueTable<K>(t: seq<Row<K>>, s: seq<Row<K>>, view: seq<Record>, keyOf: Record -> K)
    requires IsRevenueTable(t, view, keyOf)
    requires forall row :: row in s <==> row in t
    requires RowTotal(s) == RowTotal(t)
    requires NoDups(s)
    ensures IsRevenueTable(s, view, keyOf)
  {
  }

  /** Reordering the rows of a revenue table leaves a revenue table. */
  lemma SortKeepsRevenueTable<K>(t: seq<Row<K>>, view: seq<Record>, keyOf: Record -> K, le: (Row<K>, Row<K>) -> bool)
    requires IsRevenueTable(t, view, keyOf)
    ensures IsRevenueTable(SortBy(t, le), view, keyOf)
  {
    var s := SortBy(t, le);
    forall row ensures row in s <==> row in t {
      SortMembers(t, le, row);
    }
    SortRowTotal(t, le);
    assert NoDups(t) by {
      forall i, j | 0 <= i < j < |t| ensures t[i] != t[j] {
        assert t[i].key != t[j].key;
      }
    }
    SortNoDups(t, le);
    SameRowsRevenueTable(t, s, view, keyOf);
  }

  /** `rev_by_day`: revenue per date, one row per date of the view, in
      strictly ascending date order. */
  function RevenueByDay(view: seq<Record>): (t: seq<Row<Date>>)
    ensures IsRevenueTable(t, view, DateOf)
    ensures forall i, j :: 0 <= i < j < |t| ==> t[i].key < t[j].key
  {
    DateLeIsTotalPreorder();
    var keys := SortedDistinct(view, DateOf, DateLe);
    RowsAreRevenueTable(view, DateOf, keys);
    Rows(view, DateOf, keys)
  }

  /** `rev_by_cat`: revenue per category, one row per category of the
      view, revenue never increasing down the table. */
  function RevenueByCategory(view: seq<Record>): (t: seq<Row<string>>)
    ensures IsRevenueTable(t, view, CategoryOf)
    ensures forall i, j :: 0 <= i < j < |t| ==> t[i].revenue >= t[j].revenue
  {
    RevenueSorted(view, CategoryOf)
  }

  /** `promo_split`: revenue per promo flag, in ascending order of the flag
      (the order `groupby` gives its keys by default). */
  function PromoSplit(view: seq<Record>): (t: seq<Row<string>>)
    ensures IsRevenueTable(t, view, PromoOf)
    ensures forall i, j :: 0 <= i < j < |t| ==> TextLe(t[i].key, t[j].key)
  {
    KeySorted(view, PromoOf)
  }

  /** `pay_split`: revenue per payment method, revenue never increasing
      down the table. */
  function PaymentSplit(view: seq<Record>): (t: seq<Row<string>>)
    ensures IsRevenueTable(t, view, PaymentMethodOf)
    ensures forall i, j :: 0 <= i < j < |t| ==> t[i].revenue >= t[j].revenue
  {
    RevenueSorted(view, PaymentMethodOf)
  }

  /** `groupby(column)["Revenue"].sum()` on a text column: rows in
      ascending key order. */
  function KeySorted(view: seq<Record>, column: Record -> string): (t: seq<Row<string>>)
    ensures IsRevenueTable(t, view, column)
    ensures forall i, j :: 0 <= i < j < |t| ==> TextLe(t[i].key, t[j].key)
  {
    var keys := Options(view, column);
    RowsAreRevenueTable(view, column, keys);
    Rows(view, column, keys)
  }

  /** The same table after `.sort_values("Revenue", ascending=False)`. */
  function RevenueSorted(view: seq<Record>, column: Record -> string): (t: seq<Row<string>>)
    ensures IsRevenueTable(t, view, column)
    ensures forall i, j :: 0 <= i < j < |t| ==> t[i].revenue >= t[j].revenue
  {
    var grouped := KeySorted(view, column);
    RevenueAtLeastIsTotalPreorder<string>();
    SortAscending(grouped, RevenueAtLeast);
    SortKeepsRevenueTable(grouped, view, column, RevenueAtLeast);
    SortBy(grouped, RevenueAtLeast)
  }

  /** An empty view has an empty revenue table, whatever the key. */
  lemma EmptyViewEmptyTable<K>(t: seq<Row<K>>, keyOf: Record -> K)
    requires IsRevenueTable(t, [], keyOf)
    ensures t == []
  {
    assert t != [] ==> t[0].key in TableKeys(t);
  }
}
