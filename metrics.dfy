/** The four KPI metrics shown above the charts. */
module Metrics {

  import opened Records

  /** `f["Revenue"].sum()`: 0 for an empty view, and never negative when
      no price or quantity is. */
  function TotalRevenue(view: seq<Record>): (total: int)
    ensures view == [] ==> total == 0
    ensures NonNegative(view) ==> total >= 0
  {
    if view == [] then 0
    else
      assert NonNegative(view) ==> NonNegative(view[1..]) by {
        forall r | r in view[1..] ensures r in view {}
      }
      assert view[0] in view;
      Revenue(view[0]) + TotalRevenue(view[1..])
  }

  /** `f["Quantity"].sum()`: 0 for an empty view, and never negative when
      no quantity is. */
  function ItemsSold(view: seq<Record>): (items: int)
    ensures view == [] ==> items == 0
    ensures (forall r :: r in view ==> r.quantity >= 0) ==> items >= 0
  {
    if view == [] then 0
    else
      assert forall r :: r in view[1..] ==> r in view;
      assert view[0] in view;
      view[0].quantity + ItemsSold(view[1..])
  }

  /** The distinct transaction ids of the view. */
  function TransactionIds(view: seq<Record>): (ids: set<string>)
    ensures forall id :: id in ids <==> exists r :: r in view && r.transactionId == id
    ensures |ids| <= |view|
    ensures ids == {} <==> view == []
  {
    if view == [] then {}
    else
      var head, rest := view[0], TransactionIds(view[1..]);
      assert view == [head] + view[1..];
      assert forall r :: r in view <==> r == head || r in view[1..];
      assert |rest + {head.transactionId}| <= |rest| + 1;
      rest + {head.transactionId}
  }

  /** `f["Transaction_ID"].nunique()`: the number of distinct ids, so a
      transaction spread over several lines counts once. */
  function NumTransactions(view: seq<Record>): (n: nat)
    ensures n <= |view|
    ensures n == 0 <==> view == []
  {
    |TransactionIds(view)|
  }

  /** No two lines share an id. */
  predicate DistinctIds(view: seq<Record>) {
    forall i, j :: 0 <= i < j < |view| ==> view[i].transactionId != view[j].transactionId
  }

  /** When every line is its own transaction, the count is the number of
      lines. */
  lemma {:induction false} DistinctIdsCountLines(view: seq<Record>)
    requires DistinctIds(view)
    ensures NumTransactions(view) == |view|
  {
    if view != [] {
      var tail := view[1..];
      DistinctIdsTail(view);
      DistinctIdsCountLines(tail);
      assert TransactionIds(view) == TransactionIds(tail) + {view[0].transactionId};
    }
  }

  /** The tail of a view with distinct ids has distinct ids, none of them
      the head's. */
  lemma DistinctIdsTail(view: seq<Record>)
    requires view != [] && DistinctIds(view)
    ensures DistinctIds(view[1..])
    ensures view[0].transactionId !in TransactionIds(view[1..])
  {
    var tail := view[1..];
    forall i, j | 0 <= i < j < |tail| ensures tail[i].transactionId != tail[j].transactionId {
      assert tail[i] == view[i + 1] && tail[j] == view[j + 1];
    }
    forall r | r in tail ensures r.transactionId != view[0].transactionId {
      var j :| 0 <= j < |tail| && tail[j] == r;
      assert view[j + 1] == r;
    }
  }

  /** A further line of a transaction already in the view does not change
      the count. */
  lemma SharedIdCountsOnce(view: seq<Record>, line: Record)
    requires exists r :: r in view && r.transactionId == line.transactionId
    ensures NumTransactions(view + [line]) == NumTransactions(view)
  {
    assert TransactionIds(view + [line]) == TransactionIds(view) by {
      forall id ensures id in TransactionIds(view + [line]) <==> id in TransactionIds(view) {
        if id in TransactionIds(view + [line]) {
          var r :| r in view + [line] && r.transactionId == id;
          if r != line {
            assert r in view;
          }
        }
        if id in TransactionIds(view) {
          var r :| r in view && r.transactionId == id;
          assert r in view + [line];
        }
      }
    }
  }

  /** `total / n if n else 0`: the quotient, and exactly 0 without transactions. */
  function AvgRevenuePerTransaction(total: int, n: nat): (avg: real)
    ensures n == 0 ==> avg == 0.0
    ensures n != 0 ==> avg * (n as real) == total as real
  {
    if n != 0 then total as real / n as real else 0.0
  }

  datatype Summary = Summary(
    totalRevenue: int,
    numTransactions: nat,
    itemsSold: int,
    avgRevenuePerTransaction: real)

  /** The KPI row for a view. The number of transactions counts distinct
      ids, so it never exceeds the number of records and is 0 only for an
      empty view. */
  function ComputeMetrics(view: seq<Record>): (m: Summary)
    ensures m.totalRevenue == TotalRevenue(view) && m.itemsSold == ItemsSold(view)
    ensures m.numTransactions == |TransactionIds(view)|
    ensures m.numTransactions <= |view|
    ensures m.numTransactions == 0 <==> view == []
    ensures m.avgRevenuePerTransaction == AvgRevenuePerTransaction(m.totalRevenue, m.numTransactions)
    ensures view == [] ==> m == Summary(0, 0, 0, 0.0)
  {
    var total := TotalRevenue(view);
    var n := NumTransactions(view);
    Summary(total, n, ItemsSold(view), AvgRevenuePerTransaction(total, n))
  }

  /** Total revenue splits over a concatenation. */
  lemma {:induction false} TotalRevenueAppend(a: seq<Record>, b: seq<Record>)
    ensures TotalRevenue(a + b) == TotalRevenue(a) + TotalRevenue(b)
  {
    if a != [] {
      TotalRevenueAppend(a[1..], b);
      assert (a + b)[1..] == a[1..] + b;
    } else {
      assert a + b == b;
    }
  }

  /** Items sold split over a concatenation. */
  lemma {:induction false} ItemsSoldAppend(a: seq<Record>, b: seq<Record>)
    ensures ItemsSold(a + b) == ItemsSold(a) + ItemsSold(b)
  {
    if a != [] {
      ItemsSoldAppend(a[1..], b);
      assert (a + b)[1..] == a[1..] + b;
    } else {
      assert a + b == b;
    }
  }

  /** With non-negative prices and quantities no metric is negative. */
  lemma MetricsNonNegative(view: seq<Record>)
    requires NonNegative(view)
    ensures ComputeMetrics(view).totalRevenue >= 0 && ComputeMetrics(view).itemsSold >= 0
    ensures ComputeMetrics(view).avgRevenuePerTransaction >= 0.0
  {
    var total, n := TotalRevenue(view), NumTransactions(view);
    if n != 0 {
      assert total as real / n as real >= 0.0;
    }
  }
}
