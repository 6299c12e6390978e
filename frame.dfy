/** The shared table of the dashboard. The script loads it once and then
    overwrites or adds whole columns in place: the cleaned gender column
    (app.py:47), "Total Delays" and "Has_Delay" (app.py:64-65) and "Age Group"
    (app.py:167). Every view reads the table after these writes. */
module Frame {
  import opened Wrappers
  import opened Rows
  import Gender
  import Ages

  class DataFrame {
    /** The columns read from the sheet; the gender column is cleaned in place. */
    var rows: seq<Row>
    /** The derived columns, empty until they are added. */
    var totalDelays: seq<nat>
    var hasDelay: seq<bool>
    var ageGroup: seq<Option<Ages.Group>>

    /** "Total Delays" and "Has_Delay" hold the derivation of every row. */
    ghost predicate DelayColumnsAdded()
      reads this
    {
      && |totalDelays| == |rows|
      && |hasDelay| == |rows|
      && (forall i :: 0 <= i < |rows| ==> totalDelays[i] == TotalDelays(rows[i]))
      && (forall i :: 0 <= i < |rows| ==> hasDelay[i] == HasDelay(rows[i]))
    }

    /** "Age Group" holds the bin of every row. */
    ghost predicate AgeGroupColumnAdded()
      reads this
    {
      && |ageGroup| == |rows|
      && (forall i :: 0 <= i < |rows| ==> ageGroup[i] == AgeGroup(rows[i]))
    }

    /** load_data (app.py:45-50): the sheet as read, gender column cleaned. */
    constructor Load(sheet: seq<Row>)
      ensures |rows| == |sheet|
      ensures forall i :: 0 <= i < |sheet| ==>
                rows[i] == sheet[i].(gender := Gender.Normalize(sheet[i].gender))
      ensures totalDelays == [] && hasDelay == [] && ageGroup == []
    {
      rows := sheet;
      totalDelays, hasDelay, ageGroup := [], [], [];
      new;
      NormalizeGenderColumn();
    }

    /** `df["CHINFO_GENDER"] = df["CHINFO_GENDER"].replace(...)` (app.py:47-49):
        only the gender cell of each row changes. */
    method NormalizeGenderColumn()
      modifies this
      ensures |rows| == |old(rows)|
      ensures forall i :: 0 <= i < |rows| ==>
                rows[i] == old(rows[i]).(gender := Gender.Normalize(old(rows[i]).gender))
      ensures totalDelays == old(totalDelays) && hasDelay == old(hasDelay) && ageGroup == old(ageGroup)
    {
      var before := rows;
      rows := seq(|before|, i requires 0 <= i < |before| =>
        before[i].(gender := Gender.Normalize(before[i].gender)));
    }

    /** app.py:64-65: adds "Total Delays", then "Has_Delay" computed from it. */
    method AddDelayColumns()
      modifies this
      ensures rows == old(rows) && ageGroup == old(ageGroup)
      ensures DelayColumnsAdded()
    {
      totalDelays := seq(|rows|, i requires 0 <= i < |rows| reads this => TotalDelays(rows[i]));
      hasDelay := seq(|totalDelays|, i requires 0 <= i < |totalDelays| reads this => totalDelays[i] > 0);
    }

    /** app.py:167: adds "Age Group". */
    method AddAgeGroupColumn()
      modifies this
      ensures rows == old(rows) && totalDelays == old(totalDelays) && hasDelay == old(hasDelay)
      ensures AgeGroupColumnAdded()
    {
      ageGroup := seq(|rows|, i requires 0 <= i < |rows| reads this => AgeGroup(rows[i]));
    }
  }

  /** The column writes of the script, in its order. Cleaning the gender column
      a second time would change nothing. */
  method Prepare(sheet: seq<Row>) returns (df: DataFrame)
    ensures fresh(df)
    ensures |df.rows| == |sheet|
    ensures forall i :: 0 <= i < |sheet| ==>
              df.rows[i] == sheet[i].(gender := Gender.Normalize(sheet[i].gender))
    ensures forall i :: 0 <= i < |sheet| ==> Gender.Normalize(df.rows[i].gender) == df.rows[i].gender
    ensures df.DelayColumnsAdded() && df.AgeGroupColumnAdded()
  {
    df := new DataFrame.Load(sheet);
    df.AddDelayColumns();
    df.AddAgeGroupColumn();
    forall i | 0 <= i < |sheet|
      ensures Gender.Normalize(df.rows[i].gender) == df.rows[i].gender
    {
      Gender.NormalizeIdempotent(sheet[i].gender);
    }
  }
}
