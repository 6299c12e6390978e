/** Age bucketing of the Code_Age column (app.py:165-167): six right-closed bins
    with edges 0, 12, 24, 36, 48, 60 and infinity, the lowest edge included. */
module Ages {
  import opened Wrappers

  datatype Group =
    | Months0To12 | Months13To24 | Months25To36 | Months37To48 | Months49To60 | Months61To72

  /** The bins in the order of their labels. */
  const GROUPS: seq<Group> :=
    [Months0To12, Months13To24, Months25To36, Months37To48, Months49To60, Months61To72]

  /** The position of a bin in GROUPS. */
  function Index(g: Group): (k: nat)
    ensures k < |GROUPS| && GROUPS[k] == g
  {
    match g
    case Months0To12 => 0
    case Months13To24 => 1
    case Months25To36 => 2
    case Months37To48 => 3
    case Months49To60 => 4
    case Months61To72 => 5
  }

  /** The finite bin edges; the upper edge of the last bin is infinity. */
  const EDGES: seq<real> := [0.0, 12.0, 24.0, 36.0, 48.0, 60.0]

  /** The bin labels of the age table (app.py:166). */
  function Label(g: Group): string {
    match g
    case Months0To12 => "0–12m"
    case Months13To24 => "13–24m"
    case Months25To36 => "25–36m"
    case Months37To48 => "37–48m"
    case Months49To60 => "49–60m"
    case Months61To72 => "61–72m"
  }

  /** Whether an age lies in bin k: (EDGES[k], EDGES[k+1]], where the first bin
      also holds its lower edge and the last has no upper edge. */
  predicate InBin(a: real, k: nat)
    requires k < |EDGES|
  {
    (if k == 0 then EDGES[0] <= a else EDGES[k] < a) && (k == |EDGES| - 1 || a <= EDGES[k + 1])
  }

  /** The bin of an age; a missing or negative age falls in no bin. */
  function Bucket(age: Option<real>): (r: Option<Group>)
    ensures r.Some? <==> age.Some? && age.value >= 0.0
    ensures forall k :: 0 <= k < |GROUPS| ==> (r == Some(GROUPS[k]) <==> age.Some? && InBin(age.value, k))
  {
    match age
    case None => None
    case Some(a) =>
      if a < 0.0 then None
      else if a <= 12.0 then Some(Months0To12)
      else if a <= 24.0 then Some(Months13To24)
      else if a <= 36.0 then Some(Months25To36)
      else if a <= 48.0 then Some(Months37To48)
      else if a <= 60.0 then Some(Months49To60)
      else Some(Months61To72)
  }

  /** The bins cover [0, infinity) without overlap: every non-negative age lies
      in exactly one of them. */
  lemma BinsPartition(a: real)
    requires a >= 0.0
    ensures exists k :: 0 <= k < |EDGES| && InBin(a, k)
    ensures forall j, k :: 0 <= j < |EDGES| && 0 <= k < |EDGES| && InBin(a, j) && InBin(a, k) ==> j == k
  {
    var r := Bucket(Some(a));
    var k := Index(r.value);
    assert InBin(a, k);
  }

  /** The edges 12, 24, 36, 48 and 60 belong to the bin below them, 0 to the
      first bin, and negative or missing ages to none. */
  lemma BucketBoundaries()
    ensures Bucket(Some(0.0)).Some? && Label(Bucket(Some(0.0)).value) == "0–12m"
    ensures Bucket(Some(12.0)).Some? && Label(Bucket(Some(12.0)).value) == "0–12m"
    ensures Bucket(Some(13.0)).Some? && Label(Bucket(Some(13.0)).value) == "13–24m"
    ensures Bucket(Some(24.0)).Some? && Label(Bucket(Some(24.0)).value) == "13–24m"
    ensures Bucket(Some(36.0)).Some? && Label(Bucket(Some(36.0)).value) == "25–36m"
    ensures Bucket(Some(48.0)).Some? && Label(Bucket(Some(48.0)).value) == "37–48m"
    ensures Bucket(Some(60.0)).Some? && Label(Bucket(Some(60.0)).value) == "49–60m"
    ensures Bucket(Some(60.5)).Some? && Label(Bucket(Some(60.5)).value) == "61–72m"
    ensures forall a: real :: a < 0.0 ==> Bucket(Some(a)) == None
    ensures Bucket(None) == None
  {
  }

  /** The six labels are distinct, as pd.cut requires, so a label names its bin. */
  lemma LabelsDistinct(g: Group, h: Group)
    ensures Label(g) == Label(h) <==> g == h
  {
  }
}
