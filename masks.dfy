/** Boolean row masks and the two things the dashboard does with them: select
    the rows a mask keeps, in sheet order (`df[mask]`), and count them
    (`mask.sum()`). */
module Masks {
  import opened Wrappers
  import opened Rows
  import Ages

  /** The row tests that occur in the dashboard. */
  datatype Mask =
    | CodeNegative(c: Category)     // df[col] < 0
    | TotalIs(n: int)               // df["Total Delays"] == n
    | HasDelayed                    // df["Has_Delay"]
    | AwcIsIn(names: seq<string>)   // df["Name of AWC"].isin(names)
    | AwcIs(name: string)           // df["Name of AWC"] == name
    | AwcPresent                    // a non-empty AWC cell (a group-by key)
    | IdPresent                     // a non-empty ID cell (what "count" counts)
    | InAgeGroup(g: Ages.Group)     // df["Age Group"] == g
    | AgeGrouped                    // some age group at all
    | And(left: Mask, right: Mask)
    | Not(operand: Mask)

  /** Whether a mask keeps a row. An empty cell equals nothing and is in no list. */
  predicate Holds(m: Mask, r: Row) {
    match m
    case CodeNegative(c) => Delayed(r, c)
    case TotalIs(n) => TotalDelays(r) == n
    case HasDelayed => HasDelay(r)
    case AwcIsIn(names) => r.awc.Some? && r.awc.value in names
    case AwcIs(name) => r.awc == Some(name)
    case AwcPresent => r.awc.Some?
    case IdPresent => r.id.Some?
    case InAgeGroup(g) => AgeGroup(r) == Some(g)
    case AgeGrouped => AgeGroup(r).Some?
    case And(a, b) => Holds(a, r) && Holds(b, r)
    case Not(a) => !Holds(a, r)
  }

  /** The rows a mask keeps, in the order of the sheet. */
  function Filter(rows: seq<Row>, m: Mask): (kept: seq<Row>)
    ensures |kept| <= |rows|
    ensures forall x :: x in kept <==> x in rows && Holds(m, x)
  {
    if rows == [] then []
    else (if Holds(m, rows[0]) then [rows[0]] else []) + Filter(rows[1..], m)
  }

  /** How many rows a mask keeps: the sum of the boolean column. */
  function Count(rows: seq<Row>, m: Mask): (n: nat)
    ensures n <= |rows|
  {
    if rows == [] then 0 else Indicator(Holds(m, rows[0])) + Count(rows[1..], m)
  }

  lemma {:induction false} FilterLength(rows: seq<Row>, m: Mask)
    ensures |Filter(rows, m)| == Count(rows, m)
  {
    if rows != [] {
      FilterLength(rows[1..], m);
    }
  }

  /** Selection distributes over concatenation: it never reorders rows. */
  lemma {:induction false} FilterAppend(a: seq<Row>, b: seq<Row>, m: Mask)
    ensures Filter(a + b, m) == Filter(a, m) + Filter(b, m)
  {
    if a == [] {
      assert a + b == b;
    } else {
      assert (a + b)[1..] == a[1..] + b;
      FilterAppend(a[1..], b, m);
    }
  }

  lemma {:induction false} CountAppend(a: seq<Row>, b: seq<Row>, m: Mask)
    ensures Count(a + b, m) == Count(a, m) + Count(b, m)
  {
    FilterAppend(a, b, m);
    FilterLength(a + b, m);
    FilterLength(a, m);
    FilterLength(b, m);
  }

  /** The positions of the rows a mask keeps, in increasing order. */
  function KeptPositions(rows: seq<Row>, m: Mask): (idx: seq<nat>)
    ensures forall k :: 0 <= k < |idx| ==> idx[k] < |rows|
  {
    if rows == [] then []
    else
      var n := |rows| - 1;
      KeptPositions(rows[..n], m) + (if Holds(m, rows[n]) then [n] else [])
  }

  /** Taking the last row off the sheet takes at most the last kept row and
      the last kept position off. */
  lemma {:induction false} LastRowStep(rows: seq<Row>, m: Mask)
    requires rows != []
    ensures var n := |rows| - 1;
      && KeptPositions(rows, m) == KeptPositions(rows[..n], m) + (if Holds(m, rows[n]) then [n] else [])
      && Filter(rows, m) == Filter(rows[..n], m) + (if Holds(m, rows[n]) then [rows[n]] else [])
  {
    var n := |rows| - 1;
    assert rows == rows[..n] + [rows[n]];
    FilterAppend(rows[..n], [rows[n]], m);
    assert Filter([rows[n]], m) == if Holds(m, rows[n]) then [rows[n]] else [];
  }

  lemma {:induction false} KeptPositionsLength(rows: seq<Row>, m: Mask)
    ensures |KeptPositions(rows, m)| == |Filter(rows, m)|
  {
    if rows != [] {
      KeptPositionsLength(rows[..|rows| - 1], m);
      LastRowStep(rows, m);
    }
  }

  lemma {:induction false} KeptPositionsIncrease(rows: seq<Row>, m: Mask)
    ensures forall j, k :: 0 <= j < k < |KeptPositions(rows, m)| ==>
              KeptPositions(rows, m)[j] < KeptPositions(rows, m)[k]
  {
    if rows != [] {
      KeptPositionsIncrease(rows[..|rows| - 1], m);
      LastRowStep(rows, m);
    }
  }

  lemma {:induction false} KeptPositionsExact(rows: seq<Row>, m: Mask)
    ensures forall i :: 0 <= i < |rows| ==> (Holds(m, rows[i]) <==> i in KeptPositions(rows, m))
  {
    if rows != [] {
      var n := |rows| - 1;
      var init := rows[..n];
      KeptPositionsExact(init, m);
      var idx0 := KeptPositions(init, m);
      var last := if Holds(m, rows[n]) then [n] else [];
      assert KeptPositions(rows, m) == idx0 + last;
      assert n !in idx0;
      forall i | 0 <= i < |rows|
        ensures Holds(m, rows[i]) <==> i in idx0 + last
      {
        if i < n {
          assert rows[i] == init[i];
          assert i !in last;
        }
      }
    }
  }

  lemma {:induction false} KeptRowsAtPositions(rows: seq<Row>, m: Mask)
    ensures |KeptPositions(rows, m)| == |Filter(rows, m)|
    ensures forall k :: 0 <= k < |Filter(rows, m)| ==>
              Filter(rows, m)[k] == rows[KeptPositions(rows, m)[k]]
  {
    KeptPositionsLength(rows, m);
    if rows != [] {
      var n := |rows| - 1;
      var init := rows[..n];
      KeptRowsAtPositions(init, m);
      LastRowStep(rows, m);
      var idx0, f0 := KeptPositions(init, m), Filter(init, m);
      var idx, f := KeptPositions(rows, m), Filter(rows, m);
      forall k | 0 <= k < |f|
        ensures f[k] == rows[idx[k]]
      {
        if k < |f0| {
          assert f[k] == f0[k] == init[idx0[k]];
        }
      }
    }
  }

  /** Selection keeps exactly the rows the mask holds for, each once, in sheet
      order: the k-th kept row is the row at the k-th kept position, the kept
      positions increase, and a position is kept iff the mask holds there. */
  lemma FilterInSheetOrder(rows: seq<Row>, m: Mask)
    ensures |KeptPositions(rows, m)| == |Filter(rows, m)|
    ensures forall k :: 0 <= k < |Filter(rows, m)| ==>
              Filter(rows, m)[k] == rows[KeptPositions(rows, m)[k]]
    ensures forall j, k :: 0 <= j < k < |KeptPositions(rows, m)| ==>
              KeptPositions(rows, m)[j] < KeptPositions(rows, m)[k]
    ensures forall i :: 0 <= i < |rows| ==> (Holds(m, rows[i]) <==> i in KeptPositions(rows, m))
  {
    KeptRowsAtPositions(rows, m);
    KeptPositionsIncrease(rows, m);
    KeptPositionsExact(rows, m);
  }

  /** A row the mask holds for is counted. */
  lemma {:induction false} CountPositive(rows: seq<Row>, m: Mask, x: Row)
    requires x in rows && Holds(m, x)
    ensures Count(rows, m) > 0
  {
    FilterLength(rows, m);
    assert x in Filter(rows, m);
  }

  /** A mask that holds for every row keeps the whole sheet. */
  lemma {:induction false} FilterEverything(rows: seq<Row>, m: Mask)
    requires forall x :: x in rows ==> Holds(m, x)
    ensures Filter(rows, m) == rows
    ensures Count(rows, m) == |rows|
  {
    if rows != [] {
      FilterEverything(rows[1..], m);
    }
  }

  /** A mask that holds for no row keeps nothing. */
  lemma {:induction false} FilterNothing(rows: seq<Row>, m: Mask)
    requires forall x :: x in rows ==> !Holds(m, x)
    ensures Filter(rows, m) == []
    ensures Count(rows, m) == 0
  {
    if rows != [] {
      FilterNothing(rows[1..], m);
    }
  }

  /** Counting within a selection is counting the conjunction. */
  lemma {:induction false} CountOfFilter(rows: seq<Row>, a: Mask, b: Mask)
    ensures Count(Filter(rows, a), b) == Count(rows, And(a, b))
  {
    if rows != [] {
      CountOfFilter(rows[1..], a, b);
      assert Filter(rows, a) == (if Holds(a, rows[0]) then [rows[0]] else []) + Filter(rows[1..], a);
      CountAppend(if Holds(a, rows[0]) then [rows[0]] else [], Filter(rows[1..], a), b);
    }
  }

  /** A mask implied by another counts at least as many rows. */
  lemma {:induction false} CountMonotone(rows: seq<Row>, a: Mask, b: Mask)
    requires forall x :: x in rows && Holds(a, x) ==> Holds(b, x)
    ensures Count(rows, a) <= Count(rows, b)
  {
    if rows != [] {
      CountMonotone(rows[1..], a, b);
    }
  }

  /** The rows a mask keeps split by a second mask. */
  lemma {:induction false} CountSplit(rows: seq<Row>, a: Mask, b: Mask)
    ensures Count(rows, a) == Count(rows, And(a, b)) + Count(rows, And(a, Not(b)))
  {
    if rows != [] {
      CountSplit(rows[1..], a, b);
      var x := rows[0];
      assert Holds(And(a, b), x) == (Holds(a, x) && Holds(b, x));
      assert Holds(And(a, Not(b)), x) == (Holds(a, x) && !Holds(b, x));
    }
  }
}
