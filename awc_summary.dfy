/** The "Delays per AWC" bars (app.py:158): the children with a delay, grouped
    by AWC name, counted per centre and ordered by count, largest first. */
module AwcSummary {
  import opened Wrappers
  import opened Rows
  import opened Masks
  import Views

  /** One bar: a centre and its number of children with a delay. */
  datatype AwcCount = AwcCount(awc: string, delayed: nat)

  predicate Distinct(ns: seq<string>) {
    forall j, k :: 0 <= j < k < |ns| ==> ns[j] != ns[k]
  }

  /** The group-by keys: the distinct non-empty AWC names of the rows (an empty
      AWC cell forms no group). */
  function Names(rows: seq<Row>): (ns: seq<string>)
    ensures Distinct(ns)
    ensures forall n :: n in ns <==> n in Views.AwcNames(rows)
  {
    if rows == [] then []
    else
      var rest := Names(rows[1..]);
      assert Views.AwcNames(rows) == Views.AwcNames(rows[..1]) + Views.AwcNames(rows[1..]) by {
        assert rows == rows[..1] + rows[1..];
      }
      match rows[0].awc
      case Some(n) => if n in rest then rest else [n] + rest
      case None => rest
  }

  /** One entry per key, with the number of rows carrying it. */
  function Group(rows: seq<Row>, ns: seq<string>): (g: seq<AwcCount>)
    ensures |g| == |ns|
    ensures forall k :: 0 <= k < |ns| ==> g[k].awc == ns[k]
  {
    if ns == [] then []
    else [AwcCount(ns[0], Count(rows, AwcIs(ns[0])))] + Group(rows, ns[1..])
  }

  /** Inserts a bar before the first bar that is not longer. */
  function Insert(e: AwcCount, s: seq<AwcCount>): seq<AwcCount> {
    if s == [] || s[0].delayed <= e.delayed then [e] + s
    else [s[0]] + Insert(e, s[1..])
  }

  /** `sort_values(ascending=False)`; the order among equal counts is not part of
      the contract. */
  function SortDescending(s: seq<AwcCount>): seq<AwcCount> {
    if s == [] then [] else Insert(s[0], SortDescending(s[1..]))
  }

  /** The bars of app.py:158. */
  function Summary(rows: seq<Row>): seq<AwcCount> {
    var delayed := Filter(rows, HasDelayed);
    SortDescending(Group(delayed, Names(delayed)))
  }

  predicate NonIncreasing(s: seq<AwcCount>) {
    forall j, k :: 0 <= j < k < |s| ==> s[j].delayed >= s[k].delayed
  }

  function KeySet(s: seq<AwcCount>): set<string> {
    set x | x in s :: x.awc
  }

  predicate KeysDistinct(s: seq<AwcCount>) {
    forall j, k :: 0 <= j < k < |s| ==> s[j].awc != s[k].awc
  }

  function Total(s: seq<AwcCount>): nat {
    if s == [] then 0 else s[0].delayed + Total(s[1..])
  }

  // ---------------- sorting ----------------

  lemma {:induction false} InsertPermutes(e: AwcCount, s: seq<AwcCount>)
    ensures multiset(Insert(e, s)) == multiset([e] + s)
  {
    if s != [] && s[0].delayed > e.delayed {
      InsertPermutes(e, s[1..]);
      assert s == [s[0]] + s[1..];
      assert Insert(e, s) == [s[0]] + Insert(e, s[1..]);
      assert multiset([e] + s) == multiset([s[0]]) + multiset([e] + s[1..]);
    }
  }

  lemma {:induction false} InsertTotal(e: AwcCount, s: seq<AwcCount>)
    ensures |Insert(e, s)| == |s| + 1
    ensures Total(Insert(e, s)) == e.delayed + Total(s)
  {
    if s != [] && s[0].delayed > e.delayed {
      InsertTotal(e, s[1..]);
    }
  }

  lemma InsertKeeps(e: AwcCount, s: seq<AwcCount>)
    ensures multiset(Insert(e, s)) == multiset([e] + s)
    ensures forall x :: x in Insert(e, s) <==> x == e || x in s
    ensures |Insert(e, s)| == |s| + 1
    ensures Total(Insert(e, s)) == e.delayed + Total(s)
  {
    InsertPermutes(e, s);
    InsertTotal(e, s);
    forall x
      ensures x in Insert(e, s) <==> x == e || x in s
    {
      assert x in Insert(e, s) <==> x in multiset(Insert(e, s));
      assert x in [e] + s <==> x in multiset([e] + s);
    }
  }

  /** A bar at least as long as every bar of an ordered list may go in front. */
  lemma ConsOrdered(h: AwcCount, r: seq<AwcCount>)
    requires NonIncreasing(r)
    requires forall x :: x in r ==> x.delayed <= h.delayed
    ensures NonIncreasing([h] + r)
  {
    var t := [h] + r;
    forall j, k | 0 <= j < k < |t|
      ensures t[j].delayed >= t[k].delayed
    {
      assert t[k] == r[k - 1];
      if j > 0 {
        assert t[j] == r[j - 1];
      } else {
        assert r[k - 1] in r;
      }
    }
  }

  lemma {:induction false} InsertOrdered(e: AwcCount, s: seq<AwcCount>)
    requires NonIncreasing(s)
    ensures NonIncreasing(Insert(e, s))
  {
    if s != [] && s[0].delayed > e.delayed {
      var r := Insert(e, s[1..]);
      assert NonIncreasing(s[1..]) by {
        forall j, k | 0 <= j < k < |s[1..]|
          ensures s[1..][j].delayed >= s[1..][k].delayed
        {
          assert s[1..][j] == s[j + 1] && s[1..][k] == s[k + 1];
        }
      }
      InsertOrdered(e, s[1..]);
      InsertKeeps(e, s[1..]);
      forall x | x in r
        ensures x.delayed <= s[0].delayed
      {
        if x != e {
          var k :| 0 <= k < |s[1..]| && s[1..][k] == x;
          assert s[k + 1] == x;
        }
      }
      ConsOrdered(s[0], r);
      assert Insert(e, s) == [s[0]] + r;
    } else {
      ConsOrdered(e, s);
    }
  }

  /** With distinct keys the first key does not recur. */
  lemma FirstKeyUnique(s: seq<AwcCount>)
    requires KeysDistinct(s) && s != []
    ensures s[0].awc !in KeySet(s[1..])
    ensures KeysDistinct(s[1..])
  {
    forall x | x in s[1..]
      ensures x.awc != s[0].awc
    {
      var k :| 0 <= k < |s[1..]| && s[1..][k] == x;
      assert s[k + 1] == x;
    }
    forall j, k | 0 <= j < k < |s[1..]|
      ensures s[1..][j].awc != s[1..][k].awc
    {
      assert s[1..][j] == s[j + 1] && s[1..][k] == s[k + 1];
    }
  }

  /** A bar whose key is new may be put in front of bars with distinct keys. */
  lemma ConsDistinct(h: AwcCount, r: seq<AwcCount>)
    requires KeysDistinct(r) && h.awc !in KeySet(r)
    ensures KeysDistinct([h] + r)
  {
    var t := [h] + r;
    forall j, k | 0 <= j < k < |t|
      ensures t[j].awc != t[k].awc
    {
      assert t[k] == r[k - 1];
      if j > 0 {
        assert t[j] == r[j - 1];
      } else {
        assert r[k - 1] in r;
      }
    }
  }

  lemma {:induction false} InsertDistinct(e: AwcCount, s: seq<AwcCount>)
    requires KeysDistinct(s) && e.awc !in KeySet(s)
    ensures KeysDistinct(Insert(e, s))
  {
    if s != [] && s[0].delayed > e.delayed {
      FirstKeyUnique(s);
      assert KeySet(s[1..]) <= KeySet(s) by {
        forall x | x in s[1..] ensures x in s { }
      }
      var r := Insert(e, s[1..]);
      InsertDistinct(e, s[1..]);
      InsertKeeps(e, s[1..]);
      assert s[0] in s;
      assert s[0].awc !in KeySet(r);
      ConsDistinct(s[0], r);
      assert Insert(e, s) == [s[0]] + r;
    } else {
      ConsDistinct(e, s);
    }
  }

  lemma {:induction false} SortDescendingPermutes(s: seq<AwcCount>)
    ensures multiset(SortDescending(s)) == multiset(s)
    ensures forall x :: x in SortDescending(s) <==> x in s
    ensures Total(SortDescending(s)) == Total(s)
  {
    if s != [] {
      SortDescendingPermutes(s[1..]);
      InsertKeeps(s[0], SortDescending(s[1..]));
      assert s == [s[0]] + s[1..];
    }
  }

  lemma {:induction false} SortDescendingOrdered(s: seq<AwcCount>)
    ensures NonIncreasing(SortDescending(s))
  {
    if s != [] {
      SortDescendingOrdered(s[1..]);
      InsertOrdered(s[0], SortDescending(s[1..]));
    }
  }

  lemma {:induction false} SortDescendingDistinct(s: seq<AwcCount>)
    requires KeysDistinct(s)
    ensures KeysDistinct(SortDescending(s))
  {
    if s != [] {
      FirstKeyUnique(s);
      SortDescendingDistinct(s[1..]);
      SortDescendingPermutes(s[1..]);
      var rest := SortDescending(s[1..]);
      assert KeySet(rest) == KeySet(s[1..]);
      InsertDistinct(s[0], rest);
    }
  }

  /** Sorting reorders the bars (keeps each one, the keys and the total) and
      leaves them ordered by count, largest first. */
  lemma SortDescendingCorrect(s: seq<AwcCount>)
    ensures multiset(SortDescending(s)) == multiset(s)
    ensures forall x :: x in SortDescending(s) <==> x in s
    ensures NonIncreasing(SortDescending(s))
    ensures KeySet(SortDescending(s)) == KeySet(s)
    ensures Total(SortDescending(s)) == Total(s)
    ensures KeysDistinct(s) ==> KeysDistinct(SortDescending(s))
  {
    SortDescendingPermutes(s);
    SortDescendingOrdered(s);
    if KeysDistinct(s) {
      SortDescendingDistinct(s);
    }
  }

  // ---------------- grouping ----------------

  /** How many of the keys ns are the AWC cell of x. */
  function Occurrences(ns: seq<string>, awc: Option<string>): nat {
    if ns == [] then 0 else Indicator(awc == Some(ns[0])) + Occurrences(ns[1..], awc)
  }

  lemma {:induction false} OccurrencesOfDistinct(ns: seq<string>, awc: Option<string>)
    requires Distinct(ns)
    ensures Occurrences(ns, awc) == Indicator(awc.Some? && awc.value in ns)
  {
    if ns != [] {
      assert Distinct(ns[1..]) by {
        forall j, k | 0 <= j < k < |ns[1..]|
          ensures ns[1..][j] != ns[1..][k]
        {
          assert ns[1..][j] == ns[j + 1] && ns[1..][k] == ns[k + 1];
        }
      }
      OccurrencesOfDistinct(ns[1..], awc);
      forall n | n in ns[1..]
        ensures n != ns[0]
      {
        var k :| 0 <= k < |ns[1..]| && ns[1..][k] == n;
        assert ns[k + 1] == n;
      }
    }
  }

  /** Adding one row to the grouped rows adds it to the group of its key. */
  lemma {:induction false} GroupTotalStep(x: Row, rows: seq<Row>, ns: seq<string>)
    ensures Total(Group([x] + rows, ns)) == Occurrences(ns, x.awc) + Total(Group(rows, ns))
  {
    if ns != [] {
      GroupTotalStep(x, rows, ns[1..]);
      assert ([x] + rows)[1..] == rows;
    }
  }

  /** The group sizes add up to the number of rows whose key is among ns,
      provided the keys are distinct. */
  lemma {:induction false} GroupTotal(rows: seq<Row>, ns: seq<string>)
    requires Distinct(ns)
    ensures Total(Group(rows, ns)) == Count(rows, AwcIsIn(ns))
  {
    if rows == [] {
      GroupTotalEmpty(ns);
    } else {
      GroupTotal(rows[1..], ns);
      assert rows == [rows[0]] + rows[1..];
      GroupTotalStep(rows[0], rows[1..], ns);
      OccurrencesOfDistinct(ns, rows[0].awc);
    }
  }

  lemma {:induction false} GroupTotalEmpty(ns: seq<string>)
    ensures Total(Group([], ns)) == 0
  {
    if ns != [] {
      GroupTotalEmpty(ns[1..]);
    }
  }

  lemma {:induction false} GroupEntries(rows: seq<Row>, ns: seq<string>)
    ensures forall e :: e in Group(rows, ns) ==> e.delayed == Count(rows, AwcIs(e.awc)) && e.awc in ns
    ensures KeySet(Group(rows, ns)) == set n | n in ns
  {
    if ns != [] {
      GroupEntries(rows, ns[1..]);
    }
  }

  lemma KeysDistinctOfGroup(rows: seq<Row>, ns: seq<string>)
    requires Distinct(ns)
    ensures KeysDistinct(Group(rows, ns))
  {
  }

  /** Keys that are all the non-empty AWC cells select every row with one. */
  lemma {:induction false} NamesCoverPresent(rows: seq<Row>)
    ensures Count(rows, AwcIsIn(Names(rows))) == Count(rows, AwcPresent)
  {
    var ns := Names(rows);
    forall x | x in rows && Holds(AwcPresent, x)
      ensures Holds(AwcIsIn(ns), x)
    {
      assert x.awc.value in Views.AwcNames(rows);
    }
    CountMonotone(rows, AwcPresent, AwcIsIn(ns));
    CountMonotone(rows, AwcIsIn(ns), AwcPresent);
  }

  // ---------------- the summary ----------------

  /** The bars are ordered by count, largest first, one per centre. */
  lemma SummaryOrdered(rows: seq<Row>)
    ensures NonIncreasing(Summary(rows))
    ensures KeysDistinct(Summary(rows))
  {
    var delayed := Filter(rows, HasDelayed);
    var g := Group(delayed, Names(delayed));
    KeysDistinctOfGroup(delayed, Names(delayed));
    SortDescendingCorrect(g);
  }

  /** Every centre with a child with a delay has a bar, and no other centre. */
  lemma SummaryCentres(rows: seq<Row>)
    ensures KeySet(Summary(rows)) == Views.AwcNames(Filter(rows, HasDelayed))
  {
    var delayed := Filter(rows, HasDelayed);
    var ns := Names(delayed);
    var g := Group(delayed, ns);
    GroupEntries(delayed, ns);
    SortDescendingCorrect(g);
    assert KeySet(Summary(rows)) == KeySet(g);
    forall n
      ensures n in KeySet(g) <==> n in Views.AwcNames(delayed)
    {
      assert n in KeySet(g) <==> n in ns;
    }
  }

  /** The bars count only children with a delay: each centre's bar is its
      number of children with a delay, and no bar is empty. */
  lemma SummaryCounts(rows: seq<Row>)
    ensures forall e :: e in Summary(rows) ==>
              e.delayed == Count(rows, And(HasDelayed, AwcIs(e.awc))) && e.delayed > 0
  {
    var delayed := Filter(rows, HasDelayed);
    var ns := Names(delayed);
    var g := Group(delayed, ns);
    GroupEntries(delayed, ns);
    SortDescendingCorrect(g);
    forall e | e in Summary(rows)
      ensures e.delayed == Count(rows, And(HasDelayed, AwcIs(e.awc))) && e.delayed > 0
    {
      assert e in g;
      CountOfFilter(rows, HasDelayed, AwcIs(e.awc));
      assert e.awc in Views.AwcNames(delayed);
      var x :| x in delayed && x.awc.Some? && x.awc.value == e.awc;
      CountPositive(delayed, AwcIs(e.awc), x);
    }
  }

  /** The bars add up to the number of children with a delay and a non-empty
      AWC cell. */
  lemma SummaryTotal(rows: seq<Row>)
    ensures Total(Summary(rows)) == Count(rows, And(HasDelayed, AwcPresent))
  {
    var delayed := Filter(rows, HasDelayed);
    var ns := Names(delayed);
    SortDescendingCorrect(Group(delayed, ns));
    GroupTotal(delayed, ns);
    NamesCoverPresent(delayed);
    CountOfFilter(rows, HasDelayed, AwcPresent);
  }

  /** When every row names its centre, the bars add up to the "Children with
      Delay" metric. */
  lemma SummaryTotalAllNamed(rows: seq<Row>)
    requires forall x :: x in rows ==> x.awc.Some?
    ensures Total(Summary(rows)) == Views.DelayedCount(rows)
  {
    SummaryTotal(rows);
    CountMonotone(rows, HasDelayed, And(HasDelayed, AwcPresent));
    CountMonotone(rows, And(HasDelayed, AwcPresent), HasDelayed);
  }
}
