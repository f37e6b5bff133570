/** One run of the script: filter the frame with the sidebar selection,
    then compute the KPI row and the four chart tables from the view. */
module Dashboard {

  import opened Ordering
  import opened Records
  import opened FilterEngine
  import opened Metrics
  import opened Aggregator

  /** Everything the page shows for one selection. */
  datatype Page = Page(
    view: seq<Record>,
    kpis: Summary,
    revenueByDay: seq<Row<Date>>,
    revenueByCategory: seq<Row<string>>,
    promoSplit: seq<Row<string>>,
    paymentSplit: seq<Row<string>>)

  /** The page for a selection. The view is the masked frame, in frame
      order; each chart is the revenue table of that view for its key, in
      the chart's order, so each adds up to the Total Revenue metric. */
  function Refresh(rs: seq<Record>, sel: Selection): (p: Page)
    ensures p.view == Apply(rs, sel)
    ensures forall r :: r in p.view <==> r in rs && Matches(sel, r)
    ensures p.kpis == ComputeMetrics(p.view)
    ensures IsRevenueTable(p.revenueByDay, p.view, DateOf)
    ensures forall i, j :: 0 <= i < j < |p.revenueByDay| ==> p.revenueByDay[i].key < p.revenueByDay[j].key
    ensures IsRevenueTable(p.revenueByCategory, p.view, CategoryOf)
    ensures forall i, j :: 0 <= i < j < |p.revenueByCategory| ==>
      p.revenueByCategory[i].revenue >= p.revenueByCategory[j].revenue
    ensures IsRevenueTable(p.promoSplit, p.view, PromoOf)
    ensures forall i, j :: 0 <= i < j < |p.promoSplit| ==> TextLe(p.promoSplit[i].key, p.promoSplit[j].key)
    ensures IsRevenueTable(p.paymentSplit, p.view, PaymentMethodOf)
    ensures forall i, j :: 0 <= i < j < |p.paymentSplit| ==>
      p.paymentSplit[i].revenue >= p.paymentSplit[j].revenue
    ensures RowTotal(p.revenueByDay) == p.kpis.totalRevenue
    ensures RowTotal(p.revenueByCategory) == p.kpis.totalRevenue
    ensures RowTotal(p.promoSplit) == p.kpis.totalRevenue
    ensures RowTotal(p.paymentSplit) == p.kpis.totalRevenue
  {
    var view := Apply(rs, sel);
    Page(view, ComputeMetrics(view), RevenueByDay(view), RevenueByCategory(view),
         PromoSplit(view), PaymentSplit(view))
  }

  /** An empty multiselect (or a reversed date range) gives an empty view,
      all-zero metrics and four empty tables, not an error. */
  lemma EmptySelectionPage(rs: seq<Record>, sel: Selection)
    requires sel.regions == {} || sel.categories == {} || sel.customerTypes == {}
          || sel.promos == {} || sel.end < sel.start
    ensures Refresh(rs, sel) == Page([], Summary(0, 0, 0, 0.0), [], [], [], [])
  {
  }

  /** Re-running the page on its own view with the same selection shows
      the same page. */
  lemma RefreshIdempotent(rs: seq<Record>, sel: Selection)
    ensures Refresh(Refresh(rs, sel).view, sel) == Refresh(rs, sel)
  {
    ApplyIdempotent(rs, sel);
  }
}
