/** The age-group table (app.py:169-175): per age bin, the number of children
    (the non-empty IDs, since pandas' "count" skips empty cells), the number with
    a delay, and their share. Rows without a bin are in no group. */
module AgeSummary {
  import opened Wrappers
  import opened Rows
  import opened Masks
  import Ages
  import Views

  datatype AgeRow = AgeRow(group: Ages.Group, total: nat, withDelays: nat)

  function Entry(rows: seq<Row>, g: Ages.Group): AgeRow {
    AgeRow(g, Count(rows, And(InAgeGroup(g), IdPresent)), Count(rows, And(InAgeGroup(g), HasDelayed)))
  }

  /** One entry per bin, in the order of the bins, empty bins included (the
      group key is categorical and pandas groups it with observed=False). */
  function Summary(rows: seq<Row>): (s: seq<AgeRow>)
    ensures |s| == |Ages.GROUPS|
    ensures forall k :: 0 <= k < |s| ==> s[k].group == Ages.GROUPS[k]
  {
    seq(|Ages.GROUPS|, k requires 0 <= k < |Ages.GROUPS| => Entry(rows, Ages.GROUPS[k]))
  }

  /** The share column of a bin with children (app.py:175), before rounding. */
  function Percentage(e: AgeRow): real
    requires e.total > 0
  {
    Views.DelayPercent(e.withDelays, e.total)
  }

  /** A bin's children with a delay are at most its children plus the rows of
      that bin with an empty ID. */
  lemma {:induction false} WithDelaysBound(rows: seq<Row>, g: Ages.Group)
    ensures Entry(rows, g).withDelays <= Entry(rows, g).total + Count(rows, And(InAgeGroup(g), Not(IdPresent)))
  {
    CountSplit(rows, InAgeGroup(g), IdPresent);
    CountMonotone(rows, And(InAgeGroup(g), HasDelayed), InAgeGroup(g));
  }

  /** When every row has an ID, no bin has more children with a delay than
      children, and its share is at most 100 percent. */
  lemma WithDelaysAtMostTotal(rows: seq<Row>, k: nat)
    requires k < |Ages.GROUPS|
    requires forall x :: x in rows ==> x.id.Some?
    ensures Summary(rows)[k].withDelays <= Summary(rows)[k].total
    ensures Summary(rows)[k].total > 0 ==> Percentage(Summary(rows)[k]) <= 100.0
  {
    var g := Ages.GROUPS[k];
    WithDelaysBound(rows, g);
    forall x | x in rows
      ensures !Holds(And(InAgeGroup(g), Not(IdPresent)), x)
    {
      assert Holds(Not(IdPresent), x) == !x.id.Some?;
    }
    FilterNothing(rows, And(InAgeGroup(g), Not(IdPresent)));
    assert Summary(rows)[k] == Entry(rows, g);
  }

  function BinIndicators(x: Row): nat {
    Indicator(Holds(And(InAgeGroup(Ages.Months0To12), IdPresent), x))
    + Indicator(Holds(And(InAgeGroup(Ages.Months13To24), IdPresent), x))
    + Indicator(Holds(And(InAgeGroup(Ages.Months25To36), IdPresent), x))
    + Indicator(Holds(And(InAgeGroup(Ages.Months37To48), IdPresent), x))
    + Indicator(Holds(And(InAgeGroup(Ages.Months49To60), IdPresent), x))
    + Indicator(Holds(And(InAgeGroup(Ages.Months61To72), IdPresent), x))
  }

  /** A row with an ID and a bin is counted in exactly that bin. */
  lemma BinIndicatorsOfRow(x: Row)
    ensures BinIndicators(x) == Indicator(Holds(And(AgeGrouped, IdPresent), x))
  {
    assert Holds(And(AgeGrouped, IdPresent), x) == (AgeGroup(x).Some? && x.id.Some?);
    forall g: Ages.Group
      ensures Holds(And(InAgeGroup(g), IdPresent), x) == (AgeGroup(x) == Some(g) && x.id.Some?)
    {
    }
    match AgeGroup(x)
    case None =>
    case Some(g) =>
      match g
      case Months0To12 =>
      case Months13To24 =>
      case Months25To36 =>
      case Months37To48 =>
      case Months49To60 =>
      case Months61To72 =>
  }

  /** A row is counted in at most one bin. */
  lemma {:induction false} BinTotalsAddUp(rows: seq<Row>)
    ensures Entry(rows, Ages.Months0To12).total + Entry(rows, Ages.Months13To24).total
          + Entry(rows, Ages.Months25To36).total + Entry(rows, Ages.Months37To48).total
          + Entry(rows, Ages.Months49To60).total + Entry(rows, Ages.Months61To72).total
         == Count(rows, And(AgeGrouped, IdPresent))
  {
    if rows != [] {
      BinTotalsAddUp(rows[1..]);
      BinIndicatorsOfRow(rows[0]);
    }
  }

  /** The children of all six bins together. */
  function SumTotals(s: seq<AgeRow>): nat {
    if s == [] then 0 else s[0].total + SumTotals(s[1..])
  }

  lemma SumTotalsOfSummary(rows: seq<Row>)
    ensures SumTotals(Summary(rows)) == Count(rows, And(AgeGrouped, IdPresent))
  {
    BinTotalsAddUp(rows);
    var s := Summary(rows);
    assert s[0] == Entry(rows, Ages.Months0To12) && s[1] == Entry(rows, Ages.Months13To24);
    assert s[2] == Entry(rows, Ages.Months25To36) && s[3] == Entry(rows, Ages.Months37To48);
    assert s[4] == Entry(rows, Ages.Months49To60) && s[5] == Entry(rows, Ages.Months61To72);
    assert s[5..][1..] == [];
    assert SumTotals(s[5..]) == s[5].total;
    assert s[4..][1..] == s[5..];
    assert SumTotals(s[4..]) == s[4].total + s[5].total;
    assert s[3..][1..] == s[4..];
    assert SumTotals(s[3..]) == s[3].total + s[4].total + s[5].total;
    assert s[2..][1..] == s[3..];
    assert SumTotals(s[2..]) == s[2].total + s[3].total + s[4].total + s[5].total;
    assert s[1..][1..] == s[2..];
    assert SumTotals(s[1..]) == s[1].total + s[2].total + s[3].total + s[4].total + s[5].total;
  }

  /** The bins' children add up to no more than the rows of the sheet. */
  lemma TotalsAtMostRows(rows: seq<Row>)
    ensures SumTotals(Summary(rows)) <= |rows|
  {
    SumTotalsOfSummary(rows);
  }

  /** When every row has an ID and a non-negative age, the bins partition the
      sheet: their children add up to all rows. */
  lemma TotalsCoverSheet(rows: seq<Row>)
    requires forall x :: x in rows ==> x.id.Some? && x.age.Some? && x.age.value >= 0.0
    ensures SumTotals(Summary(rows)) == |rows|
  {
    SumTotalsOfSummary(rows);
    forall x | x in rows
      ensures Holds(And(AgeGrouped, IdPresent), x)
    {
      assert Ages.Bucket(x.age).Some?;
    }
    FilterEverything(rows, And(AgeGrouped, IdPresent));
  }
}
