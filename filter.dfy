/** The filter engine: the boolean mask built from the sidebar selection
    and the selection `df[mask]`. */
module FilterEngine {

  import opened Ordering
  import opened Records
  import opened Store

  /** The sidebar state: an inclusive date range and, for each of four
      categorical columns, the list of selected values (as a set, since
      `isin` only asks for membership). */
  datatype Selection = Selection(
    start: Date,
    end: Date,
    regions: set<string>,
    categories: set<string>,
    customerTypes: set<string>,
    promos: set<string>)

  /** The mask at one record: the conjunction of the five conditions. It
      can hold only when the date range is not inverted and no multiselect
      is empty. */
  predicate Matches(sel: Selection, r: Record)
    ensures Matches(sel, r) ==> sel.start <= sel.end
    ensures Matches(sel, r) ==>
      sel.regions != {} && sel.categories != {} && sel.customerTypes != {} && sel.promos != {}
  {
    && sel.start <= r.date
    && r.date <= sel.end
    && r.storeRegion in sel.regions
    && r.category in sel.categories
    && r.customerType in sel.customerTypes
    && r.promoApplied in sel.promos
  }

  /** `df[mask].copy()`: the records the mask keeps, in frame order. */
  function Apply(rs: seq<Record>, sel: Selection): (view: seq<Record>)
    ensures forall r :: r in view <==> r in rs && Matches(sel, r)
    ensures |view| <= |rs|
  {
    if rs == [] then []
    else (if Matches(sel, rs[0]) then [rs[0]] else []) + Apply(rs[1..], sel)
  }

  /** Each position moved one place on. */
  ghost function Shift(s: seq<nat>): seq<nat> {
    seq(|s|, k requires 0 <= k < |s| => s[k] + 1)
  }

  lemma ShiftMembership(s: seq<nat>, i: nat)
    ensures 0 !in Shift(s)
    ensures i + 1 in Shift(s) <==> i in s
  {
    var t := Shift(s);
    if i in s {
      var k :| 0 <= k < |s| && s[k] == i;
      assert t[k] == i + 1;
    }
    if i + 1 in t {
      var k :| 0 <= k < |t| && t[k] == i + 1;
      assert s[k] == i;
    }
  }

  /** The positions where the mask is true, in increasing order. */
  ghost function MaskPositions(rs: seq<Record>, sel: Selection): seq<nat> {
    if rs == [] then []
    else (if Matches(sel, rs[0]) then [0] else []) + Shift(MaskPositions(rs[1..], sel))
  }

  lemma {:induction false} MaskPositionsSelect(rs: seq<Record>, sel: Selection)
    ensures |MaskPositions(rs, sel)| == |Apply(rs, sel)|
    ensures forall k :: 0 <= k < |MaskPositions(rs, sel)| ==>
      MaskPositions(rs, sel)[k] < |rs| && Apply(rs, sel)[k] == rs[MaskPositions(rs, sel)[k]]
  {
    if rs != [] {
      MaskPositionsSelect(rs[1..], sel);
    }
  }

  lemma {:induction false} MaskPositionsIncreasing(rs: seq<Record>, sel: Selection)
    ensures forall k :: 0 <= k < |MaskPositions(rs, sel)| ==> MaskPositions(rs, sel)[k] < |rs|
    ensures forall k, l :: 0 <= k < l < |MaskPositions(rs, sel)| ==>
      MaskPositions(rs, sel)[k] < MaskPositions(rs, sel)[l]
  {
    if rs != [] {
      MaskPositionsIncreasing(rs[1..], sel);
    }
  }

  lemma {:induction false} MaskPositionsExact(rs: seq<Record>, sel: Selection)
    ensures forall i :: 0 <= i < |rs| ==> (Matches(sel, rs[i]) <==> i in MaskPositions(rs, sel))
  {
    if rs != [] {
      var tail := rs[1..];
      var rest := MaskPositions(tail, sel);
      MaskPositionsExact(tail, sel);
      forall i | 0 <= i < |rs| ensures Matches(sel, rs[i]) <==> i in MaskPositions(rs, sel) {
        if i == 0 {
          ShiftMembership(rest, 0);
        } else {
          assert rs[i] == tail[i - 1];
          ShiftMembership(rest, i - 1);
        }
      }
    }
  }

  /** Boolean-mask selection: the view is `rs` read at a strictly increasing
      list of positions, and those positions are exactly the ones where the
      mask is true. */
  lemma ApplyIsMaskSelection(rs: seq<Record>, sel: Selection) returns (idx: seq<nat>)
    ensures |idx| == |Apply(rs, sel)|
    ensures forall k :: 0 <= k < |idx| ==> idx[k] < |rs| && Apply(rs, sel)[k] == rs[idx[k]]
    ensures forall k, l :: 0 <= k < l < |idx| ==> idx[k] < idx[l]
    ensures forall i :: 0 <= i < |rs| ==> (Matches(sel, rs[i]) <==> i in idx)
  {
    idx := MaskPositions(rs, sel);
    MaskPositionsSelect(rs, sel);
    MaskPositionsIncreasing(rs, sel);
    MaskPositionsExact(rs, sel);
  }

  /** The mask neither duplicates nor drops a record: each kept record
      occurs in the view as often as in the frame, every other not at all. */
  lemma {:induction false} ApplyMultiplicity(rs: seq<Record>, sel: Selection, r: Record)
    ensures multiset(Apply(rs, sel))[r] == if Matches(sel, r) then multiset(rs)[r] else 0
  {
    if rs != [] {
      ApplyMultiplicity(rs[1..], sel, r);
      assert rs == [rs[0]] + rs[1..];
    }
  }

  /** Filtering the view again with the same selection changes nothing. */
  lemma {:induction false} ApplyIdempotent(rs: seq<Record>, sel: Selection)
    ensures Apply(Apply(rs, sel), sel) == Apply(rs, sel)
  {
    if rs != [] {
      var rest := Apply(rs[1..], sel);
      ApplyIdempotent(rs[1..], sel);
      if Matches(sel, rs[0]) {
        var view := [rs[0]] + rest;
        assert view[0] == rs[0] && view[1..] == rest;
        assert Apply(rs, sel) == view;
        assert Apply(view, sel) == [rs[0]] + Apply(rest, sel);
      } else {
        assert Apply(rs, sel) == [] + rest == rest;
      }
    }
  }

  /** A mask that is true everywhere keeps the whole frame. */
  lemma {:induction false} ApplyAllMatch(rs: seq<Record>, sel: Selection)
    requires forall r :: r in rs ==> Matches(sel, r)
    ensures Apply(rs, sel) == rs
  {
    if rs != [] {
      ApplyAllMatch(rs[1..], sel);
      assert rs == [rs[0]] + rs[1..];
    }
  }

  /** An empty multiselect matches nothing, and so does a reversed date
      range; whatever else is selected, the view is then empty. */
  lemma {:induction false} EmptySelectionEmptyView(rs: seq<Record>, sel: Selection)
    requires sel.regions == {} || sel.categories == {} || sel.customerTypes == {}
          || sel.promos == {} || sel.end < sel.start
    ensures Apply(rs, sel) == []
  {
    if rs != [] {
      EmptySelectionEmptyView(rs[1..], sel);
    }
  }

  /** The set of the values in a list. */
  function Elements<T>(s: seq<T>): set<T> { set x | x in s }

  /** The initial sidebar state: the full date range and every option
      selected; `None` for an empty frame. Every record's date lies in the
      range, and each multiselect holds exactly the values of its column. */
  function DefaultSelection(rs: seq<Record>): (d: Option<Selection>)
    ensures d.None? <==> rs == []
    ensures d.Some? ==> forall r :: r in rs ==> d.value.start <= r.date <= d.value.end
    ensures d.Some? ==> forall v :: v in d.value.regions <==> exists r :: r in rs && RegionOf(r) == v
    ensures d.Some? ==> forall v :: v in d.value.categories <==> exists r :: r in rs && CategoryOf(r) == v
    ensures d.Some? ==> forall v :: v in d.value.customerTypes <==> exists r :: r in rs && CustomerTypeOf(r) == v
    ensures d.Some? ==> forall v :: v in d.value.promos <==> exists r :: r in rs && PromoOf(r) == v
  {
    match DateBounds(rs)
    case None => None
    case Some((lo, hi)) =>
      var regions, categories := Options(rs, RegionOf), Options(rs, CategoryOf);
      var customerTypes, promos := Options(rs, CustomerTypeOf), Options(rs, PromoOf);
      Some(Selection(lo, hi, Elements(regions), Elements(categories),
        Elements(customerTypes), Elements(promos)))
  }

  /** The default date range runs from the frame's earliest to its latest
      date. */
  lemma DefaultRangeIsDateBounds(rs: seq<Record>)
    requires rs != []
    ensures DefaultSelection(rs).Some?
    ensures DateBounds(rs) == Some((DefaultSelection(rs).value.start, DefaultSelection(rs).value.end))
  {
  }

  /** Every record passes the mask of the default selection. */
  lemma DefaultSelectionMatches(rs: seq<Record>, r: Record)
    requires r in rs
    ensures DefaultSelection(rs).Some? && Matches(DefaultSelection(rs).value, r)
  {
  }

  /** Every record of the frame passes the mask of its default selection. */
  lemma DefaultSelectionMatchesAll(rs: seq<Record>, sel: Selection)
    requires DefaultSelection(rs) == Some(sel)
    ensures forall r :: r in rs ==> Matches(sel, r)
  {
    forall r | r in rs ensures Matches(sel, r) {
      DefaultSelectionMatches(rs, r);
    }
  }

  /** With the default selection the view is the whole frame; there is a
      default selection exactly when the frame is not empty. */
  lemma DefaultSelectionKeepsAll(rs: seq<Record>)
    ensures DefaultSelection(rs).None? <==> rs == []
    ensures DefaultSelection(rs).Some? ==> Apply(rs, DefaultSelection(rs).value) == rs
  {
    if rs != [] {
      var sel := DefaultSelection(rs).value;
      DefaultSelectionMatchesAll(rs, sel);
      ApplyAllMatch(rs, sel);
    }
  }
}
