/** The gender column and the fixed replacement table that cleans it when the
    spreadsheet is loaded (app.py:47-49). */
module Gender {

  /** One cell of the CHINFO_GENDER column as the spreadsheet reader yields it:
      a number (the survey's codes 1 and 2), a text, or an empty cell. */
  datatype Cell = Number(x: real) | Text(s: string) | Blank

  const MALE: Cell := Text("Male")
  const FEMALE: Cell := Text("Female")

  /** The two labels the dashboard wants to see. */
  predicate IsCanonical(g: Cell) {
    g == MALE || g == FEMALE
  }

  /** The keys of the replacement table: the codes 1 and 2 and the two misspellings. */
  predicate IsReplaced(g: Cell) {
    g == Number(1.0) || g == Number(2.0) || g == Text("FAMALE") || g == Text("MALU")
  }

  /** The replacement of one cell. A key of the table becomes its label; every
      other value (already clean, or unrecognised) is left as it is. The table is
      applied once, not repeatedly, so no value is rewritten twice. */
  function Normalize(g: Cell): (r: Cell)
    ensures IsReplaced(g) ==> IsCanonical(r)
    ensures IsReplaced(g) ==> (r == MALE <==> g == Number(1.0) || g == Text("MALU"))
    ensures !IsReplaced(g) ==> r == g
    ensures !IsReplaced(r)
  {
    match g
    case Number(x) => if x == 1.0 then MALE else if x == 2.0 then FEMALE else g
    case Text(s) => if s == "FAMALE" then FEMALE else if s == "MALU" then MALE else g
    case Blank => g
  }

  /** Cleaning a column that is already clean changes nothing. */
  lemma NormalizeIdempotent(g: Cell)
    ensures Normalize(Normalize(g)) == Normalize(g)
  {
  }

  /** The replacement of a whole column, cell by cell. */
  function NormalizeColumn(col: seq<Cell>): (r: seq<Cell>)
    ensures |r| == |col|
    ensures forall i :: 0 <= i < |col| ==> r[i] == Normalize(col[i])
  {
    if col == [] then [] else [Normalize(col[0])] + NormalizeColumn(col[1..])
  }

  lemma {:induction false} NormalizeColumnIdempotent(col: seq<Cell>)
    ensures NormalizeColumn(NormalizeColumn(col)) == NormalizeColumn(col)
  {
    var once := NormalizeColumn(col);
    var twice := NormalizeColumn(once);
    forall i | 0 <= i < |col|
      ensures twice[i] == once[i]
    {
      NormalizeIdempotent(col[i]);
    }
  }

  /** The column [1, 2, "FAMALE", "MALU", "Male"] cleans to
      ["Male", "Female", "Female", "Male", "Male"]. */
  lemma NormalizeExample()
    ensures NormalizeColumn([Number(1.0), Number(2.0), Text("FAMALE"), Text("MALU"), Text("Male")])
         == [MALE, FEMALE, FEMALE, MALE, MALE]
  {
  }
}
