/** The two rows of buttons: one per delay domain (app.py:93-108) and one per
    number of delays 0..4 (app.py:117-128). Each loop computes the count its
    button shows and remembers the button that was pressed; the table of the
    selected rows is shown when some button was. Which buttons are pressed is
    an input from the page. */
module Buttons {
  import opened Wrappers
  import opened Rows
  import opened Views

  /** The domain buttons: their counts in the declared order, the label of the
      last pressed button (the loop overwrites earlier ones), and the table of
      that domain's delayed children, looked up through the inverted label
      table. */
  method CategoryButtons(rows: seq<Row>, pressed: seq<bool>)
    returns (counts: seq<nat>, selection: Option<string>, shown: Option<seq<Row>>)
    requires |pressed| == |CATEGORIES|
    ensures |counts| == |CATEGORIES|
    ensures forall i :: 0 <= i < |CATEGORIES| ==> counts[i] == CategoryCount(rows, CATEGORIES[i])
    ensures selection.None? <==> forall i :: 0 <= i < |pressed| ==> !pressed[i]
    ensures selection.Some? ==>
      exists i :: && 0 <= i < |pressed| && pressed[i]
                  && selection.value == Label(CATEGORIES[i])
                  && shown == Some(CategoryRows(rows, CATEGORIES[i]))
                  && forall j :: i < j < |pressed| ==> !pressed[j]
    ensures selection.None? ==> shown.None?
  {
    counts := [];
    selection := None;
    ghost var last: int := -1;
    for i := 0 to |CATEGORIES|
      invariant |counts| == i
      invariant forall k :: 0 <= k < i ==> counts[k] == CategoryCount(rows, CATEGORIES[k])
      invariant -1 <= last < i
      invariant last == -1 <==> forall k :: 0 <= k < i ==> !pressed[k]
      invariant last == -1 ==> selection.None?
      invariant last >= 0 ==> pressed[last] && selection == Some(Label(CATEGORIES[last]))
      invariant forall j :: last < j < i ==> !pressed[j]
    {
      var c := CATEGORIES[i];
      counts := counts + [CategoryCount(rows, c)];
      if pressed[i] {
        selection := Some(Label(c));
        last := i;
      }
    }
    shown := None;
    if selection.Some? {
      LabelsInvertible(CATEGORIES[last], CATEGORIES[last]);
      var column := CategoryOfLabel(selection.value).value;
      shown := Some(CategoryRows(rows, column));
    }
  }

  /** The buttons 0..4: their counts, which add up to the number of children,
      the last pressed number, and the table of the children with exactly that
      many delays. */
  method CountButtons(rows: seq<Row>, pressed: seq<bool>)
    returns (counts: seq<nat>, selection: Option<nat>, shown: Option<seq<Row>>)
    requires |pressed| == |CATEGORIES| + 1
    ensures |counts| == |CATEGORIES| + 1
    ensures forall i :: 0 <= i < |counts| ==> counts[i] == TotalCount(rows, i)
    ensures counts[0] + counts[1] + counts[2] + counts[3] + counts[4] == |rows|
    ensures selection.None? <==> forall i :: 0 <= i < |pressed| ==> !pressed[i]
    ensures selection.Some? ==>
      && selection.value < |pressed| && pressed[selection.value]
      && forall j :: selection.value < j < |pressed| ==> !pressed[j]
    ensures shown == if selection.Some? then Some(TotalRows(rows, selection.value)) else None
  {
    counts := [];
    selection := None;
    for i := 0 to |CATEGORIES| + 1
      invariant |counts| == i
      invariant forall k :: 0 <= k < i ==> counts[k] == TotalCount(rows, k)
      invariant selection.None? <==> forall k :: 0 <= k < i ==> !pressed[k]
      invariant selection.Some? ==> selection.value < i && pressed[selection.value]
      invariant forall j :: 0 <= j < i && (selection.None? || selection.value < j) ==> !pressed[j]
    {
      counts := counts + [TotalCount(rows, i)];
      if pressed[i] {
        selection := Some(i);
      }
    }
    TotalCountsAddUp(rows);
    shown := if selection.Some? then Some(TotalRows(rows, selection.value)) else None;
  }
}
