/** The counts and row selections the dashboard shows: per delay domain
    (app.py:83, 97, 104-105), per number of delays (app.py:112, 121, 127), for a
    set of AWC centres (app.py:136-151) and for one centre or all (app.py:186). */
module Views {
  import opened Wrappers
  import opened Rows
  import opened Masks

  // ---------------- delay domains ----------------

  /** The children with a delay in domain c, in sheet order (app.py:105). */
  function CategoryRows(rows: seq<Row>, c: Category): seq<Row> {
    Filter(rows, CodeNegative(c))
  }

  /** The number of children with a delay in domain c (app.py:83, 97). */
  function CategoryCount(rows: seq<Row>, c: Category): nat {
    Count(rows, CodeNegative(c))
  }

  /** A domain's table lists exactly its delayed children, each with at least
      one delay, and has as many rows as the domain's button announces. */
  lemma CategoryRowsExact(rows: seq<Row>, c: Category)
    ensures |CategoryRows(rows, c)| == CategoryCount(rows, c)
    ensures forall x :: x in CategoryRows(rows, c) <==> x in rows && Code(x, c) < 0
    ensures forall x :: x in CategoryRows(rows, c) ==> HasDelay(x) && TotalDelays(x) >= 1
  {
    FilterLength(rows, CodeNegative(c));
    forall x | x in CategoryRows(rows, c)
      ensures HasDelay(x)
    {
      HasDelayIff(x);
    }
  }

  /** The per-domain series of the delay pie (app.py:83), labelled and in the
      declared domain order. */
  function DelaySummary(rows: seq<Row>): (s: seq<(string, nat)>)
    ensures |s| == |CATEGORIES|
    ensures forall k :: 0 <= k < |s| ==> s[k].0 == Label(CATEGORIES[k]) && s[k].1 <= |rows|
    ensures forall k :: 0 <= k < |s| ==> s[k].1 == |CategoryRows(rows, CATEGORIES[k])|
  {
    assert forall c :: CategoryCount(rows, c) == |CategoryRows(rows, c)| by {
      forall c ensures CategoryCount(rows, c) == |CategoryRows(rows, c)| {
        FilterLength(rows, CodeNegative(c));
      }
    }
    seq(|CATEGORIES|, k requires 0 <= k < |CATEGORIES| =>
      (Label(CATEGORIES[k]), CategoryCount(rows, CATEGORIES[k])))
  }

  function SumCounts(s: seq<(string, nat)>): nat {
    if s == [] then 0 else s[0].1 + SumCounts(s[1..])
  }

  /** The sum of the "Total Delays" column. */
  function SumTotalDelays(rows: seq<Row>): nat {
    if rows == [] then 0 else TotalDelays(rows[0]) + SumTotalDelays(rows[1..])
  }

  /** The pie's slices add up to the sum of the "Total Delays" column: each
      delay of each child lies in exactly one slice. */
  lemma {:induction false} DelaySummaryAddsUp(rows: seq<Row>)
    ensures SumCounts(DelaySummary(rows)) == SumTotalDelays(rows)
  {
    var s := DelaySummary(rows);
    var t1, t2, t3 := s[1..], s[2..], s[3..];
    assert t1[1..] == t2 && t2[1..] == t3 && t3[1..] == [];
    assert SumCounts(t3) == s[3].1;
    assert SumCounts(t2) == s[2].1 + s[3].1;
    assert SumCounts(t1) == s[1].1 + s[2].1 + s[3].1;
    assert s[0].1 == CategoryCount(rows, Cognitive) && s[1].1 == CategoryCount(rows, Language);
    assert s[2].1 == CategoryCount(rows, Motor) && s[3].1 == CategoryCount(rows, SocialEmotional);
    DomainCountsAddUp(rows);
  }

  lemma {:induction false} DomainCountsAddUp(rows: seq<Row>)
    ensures CategoryCount(rows, Cognitive) + CategoryCount(rows, Language)
          + CategoryCount(rows, Motor) + CategoryCount(rows, SocialEmotional)
         == SumTotalDelays(rows)
  {
    if rows != [] {
      DomainCountsAddUp(rows[1..]);
    }
  }

  // ---------------- number of delays ----------------

  /** The children with exactly n delays, in sheet order (app.py:127). */
  function TotalRows(rows: seq<Row>, n: int): seq<Row> {
    Filter(rows, TotalIs(n))
  }

  /** The number of children with exactly n delays (app.py:121). */
  function TotalCount(rows: seq<Row>, n: int): nat {
    Count(rows, TotalIs(n))
  }

  /** The five buttons 0..4 account for every child exactly once. */
  lemma {:induction false} TotalCountsAddUp(rows: seq<Row>)
    ensures TotalCount(rows, 0) + TotalCount(rows, 1) + TotalCount(rows, 2)
          + TotalCount(rows, 3) + TotalCount(rows, 4) == |rows|
  {
    if rows != [] {
      TotalCountsAddUp(rows[1..]);
    }
  }

  /** A count's table lists exactly the children with that many delays. */
  lemma TotalRowsExact(rows: seq<Row>, n: int)
    ensures |TotalRows(rows, n)| == TotalCount(rows, n)
    ensures forall x :: x in TotalRows(rows, n) <==> x in rows && TotalDelays(x) == n
  {
    FilterLength(rows, TotalIs(n));
  }

  /** Outside 0..4 there is nobody. */
  lemma TotalCountOutOfRange(rows: seq<Row>, n: int)
    requires n < 0 || n > |CATEGORIES|
    ensures TotalCount(rows, n) == 0 && TotalRows(rows, n) == []
  {
    FilterNothing(rows, TotalIs(n));
  }

  /** The bars of app.py:112: `value_counts().sort_index()` lists only the
      numbers of delays that occur, ascending, with their counts. */
  function DelayHistogram(rows: seq<Row>): seq<(int, nat)> {
    HistogramFrom(rows, 0)
  }

  function HistogramFrom(rows: seq<Row>, i: nat): (h: seq<(int, nat)>)
    requires i <= |CATEGORIES| + 1
    ensures forall k :: 0 <= k < |h| ==> i <= h[k].0 <= |CATEGORIES|
    decreases |CATEGORIES| + 1 - i
  {
    if i > |CATEGORIES| then []
    else if TotalCount(rows, i) == 0 then HistogramFrom(rows, i + 1)
    else [(i, TotalCount(rows, i))] + HistogramFrom(rows, i + 1)
  }

  predicate StrictlyAscendingKeys(h: seq<(int, nat)>) {
    forall j, k :: 0 <= j < k < |h| ==> h[j].0 < h[k].0
  }

  function SumBars(h: seq<(int, nat)>): nat {
    if h == [] then 0 else h[0].1 + SumBars(h[1..])
  }

  /** The numbers of delays that have a bar. */
  function BarKeys(h: seq<(int, nat)>): set<int> {
    if h == [] then {} else {h[0].0} + BarKeys(h[1..])
  }

  lemma {:induction false} HistogramFromAscending(rows: seq<Row>, i: nat)
    requires i <= |CATEGORIES| + 1
    ensures StrictlyAscendingKeys(HistogramFrom(rows, i))
    decreases |CATEGORIES| + 1 - i
  {
    if i <= |CATEGORIES| {
      HistogramFromAscending(rows, i + 1);
    }
  }

  lemma {:induction false} HistogramFromBars(rows: seq<Row>, i: nat)
    requires i <= |CATEGORIES| + 1
    ensures forall e :: e in HistogramFrom(rows, i) ==> e.1 == TotalCount(rows, e.0) && e.1 > 0
    decreases |CATEGORIES| + 1 - i
  {
    if i <= |CATEGORIES| {
      HistogramFromBars(rows, i + 1);
    }
  }

  lemma {:induction false} HistogramFromKeys(rows: seq<Row>, i: nat)
    requires i <= |CATEGORIES| + 1
    ensures forall n :: n in BarKeys(HistogramFrom(rows, i)) <==> i <= n <= |CATEGORIES| && TotalCount(rows, n) > 0
    decreases |CATEGORIES| + 1 - i
  {
    if i <= |CATEGORIES| {
      HistogramFromKeys(rows, i + 1);
      var h := HistogramFrom(rows, i + 1);
      if TotalCount(rows, i) > 0 {
        assert BarKeys(HistogramFrom(rows, i)) == {i as int} + BarKeys(h);
      }
    }
  }

  lemma {:induction false} HistogramFromSum(rows: seq<Row>, i: nat)
    requires i <= |CATEGORIES| + 1
    ensures SumBars(HistogramFrom(rows, i))
         == (if i <= 0 then TotalCount(rows, 0) else 0) + (if i <= 1 then TotalCount(rows, 1) else 0)
          + (if i <= 2 then TotalCount(rows, 2) else 0) + (if i <= 3 then TotalCount(rows, 3) else 0)
          + (if i <= 4 then TotalCount(rows, 4) else 0)
    decreases |CATEGORIES| + 1 - i
  {
    if i <= |CATEGORIES| {
      HistogramFromSum(rows, i + 1);
    }
  }

  /** The numbers of delays that occur in the sheet. */
  function OccurringTotals(rows: seq<Row>): set<int> {
    set x | x in rows :: TotalDelays(x) as int
  }

  /** The histogram has one bar per number of delays that occurs, ascending,
      each with its count, and the bars add up to the number of children. */
  lemma DelayHistogramExact(rows: seq<Row>)
    ensures StrictlyAscendingKeys(DelayHistogram(rows))
    ensures forall e :: e in DelayHistogram(rows) ==> 0 <= e.0 <= |CATEGORIES| && e.1 == TotalCount(rows, e.0) && e.1 > 0
    ensures BarKeys(DelayHistogram(rows)) == OccurringTotals(rows)
    ensures SumBars(DelayHistogram(rows)) == |rows|
  {
    HistogramFromAscending(rows, 0);
    HistogramFromBars(rows, 0);
    HistogramFromKeys(rows, 0);
    HistogramFromSum(rows, 0);
    TotalCountsAddUp(rows);
    var h := DelayHistogram(rows);
    forall n | n in BarKeys(h)
      ensures n in OccurringTotals(rows)
    {
      TotalRowsExact(rows, n);
      var x := TotalRows(rows, n)[0];
      assert x in TotalRows(rows, n);
    }
    forall n | n in OccurringTotals(rows)
      ensures n in BarKeys(h)
    {
      TotalRowsExact(rows, n);
      var x :| x in rows && TotalDelays(x) == n;
      assert x in TotalRows(rows, n);
    }
  }

  // ---------------- AWC centres ----------------

  /** The AWC names of the sheet, empty cells dropped: the choices the
      centre widgets offer (app.py:133, 185). */
  function AwcNames(rows: seq<Row>): set<string> {
    set x | x in rows && x.awc.Some? :: x.awc.value
  }

  /** The children of the selected centres, in sheet order (app.py:136). */
  function SelectedRows(rows: seq<Row>, selected: seq<string>): seq<Row> {
    Filter(rows, AwcIsIn(selected))
  }

  /** The number of children with a delay (the sum of "Has_Delay"). */
  function DelayedCount(rows: seq<Row>): nat {
    Count(rows, HasDelayed)
  }

  /** A non-empty selection of existing centres selects somebody, so the
      percentage of app.py:142 never divides by zero. */
  lemma SelectionNotEmpty(rows: seq<Row>, selected: seq<string>)
    requires selected != []
    requires forall n :: n in selected ==> n in AwcNames(rows)
    ensures |SelectedRows(rows, selected)| > 0
    ensures forall x :: x in SelectedRows(rows, selected) <==> x in rows && x.awc.Some? && x.awc.value in selected
  {
    var n := selected[0];
    assert n in AwcNames(rows);
    var x :| x in rows && x.awc == Some(n);
    assert x in SelectedRows(rows, selected);
  }

  /** The share of children with a delay, in percent (app.py:142, 175), before
      rounding. */
  function DelayPercent(withDelay: nat, children: nat): (p: real)
    requires children > 0
    ensures 0.0 <= p
    ensures p == 0.0 <==> withDelay == 0
    ensures withDelay <= children ==> p <= 100.0
    ensures withDelay == children ==> p == 100.0
  {
    assert withDelay <= children ==> withDelay as real / children as real <= 1.0;
    withDelay as real / children as real * 100.0
  }

  /** What the three metrics and the two charts of a centre selection show
      (app.py:140-151). */
  datatype SelectionSummary = SelectionSummary(
    children: nat,
    withDelay: nat,
    percent: real,
    byCategory: seq<(string, nat)>,
    byTotal: seq<(int, nat)>)

  /** The summary of a selection of centres; nothing is shown for an empty
      selection (app.py:135). The widget only offers existing centres. */
  function SummarizeSelection(rows: seq<Row>, selected: seq<string>): (s: Option<SelectionSummary>)
    requires forall n :: n in selected ==> n in AwcNames(rows)
    ensures s.Some? <==> selected != []
    ensures s.Some? ==> s.value.children == Count(rows, AwcIsIn(selected)) > 0
    ensures s.Some? ==> s.value.withDelay == Count(rows, And(AwcIsIn(selected), HasDelayed)) <= s.value.children
    ensures s.Some? ==> 0.0 <= s.value.percent <= 100.0
    ensures s.Some? ==> s.value.percent == DelayPercent(s.value.withDelay, s.value.children)
    ensures s.Some? ==> s.value.byCategory == DelaySummary(SelectedRows(rows, selected))
    ensures s.Some? ==> s.value.byTotal == DelayHistogram(SelectedRows(rows, selected))
  {
    if selected == [] then None
    else
      var chosen := SelectedRows(rows, selected);
      SelectionNotEmpty(rows, selected);
      FilterLength(rows, AwcIsIn(selected));
      FilterLength(chosen, HasDelayed);
      CountOfFilter(rows, AwcIsIn(selected), HasDelayed);
      Some(SelectionSummary(
        |chosen|,
        DelayedCount(chosen),
        DelayPercent(DelayedCount(chosen), |chosen|),
        DelaySummary(chosen),
        DelayHistogram(chosen)))
  }

  /** The table below the "Select AWC to view" box (app.py:186): the whole
      sheet for the choice "All", otherwise the rows of the chosen centre. The
      choice is compared as text, so a centre that is itself named "All" shows
      the whole sheet. */
  function CentreView(rows: seq<Row>, choice: string): (v: seq<Row>)
    ensures choice == "All" ==> v == rows
    ensures choice != "All" ==> forall x :: x in v <==> x in rows && x.awc == Some(choice)
    ensures choice != "All" ==> |v| == Count(rows, AwcIs(choice))
  {
    if choice == "All" then rows
    else
      FilterLength(rows, AwcIs(choice));
      Filter(rows, AwcIs(choice))
  }
}
