/** One child record of the loaded sheet, the four delay domains and the two
    derived columns "Total Delays" and "Has_Delay" (app.py:55-65). */
module Rows {
  import opened Wrappers
  import Gender
  import Ages

  /** The columns of a record that the dashboard computes with. ID, the AWC name
      and the age may be empty cells; the four delay codes are numbers, and a
      negative code flags a delay in that domain. */
  datatype Row = Row(
    id: Option<string>,
    awc: Option<string>,
    gender: Gender.Cell,
    age: Option<real>,
    cg: int,
    lc: int,
    mt: int,
    se: int)

  /** The four delay domains, one per delay column. */
  datatype Category = Cognitive | Language | Motor | SocialEmotional

  /** The delay columns in their declared order (app.py:55). */
  const CATEGORIES: seq<Category> := [Cognitive, Language, Motor, SocialEmotional]

  function Column(c: Category): string {
    match c
    case Cognitive => "Code_CG_DELAY"
    case Language => "Code_LC_DELAY"
    case Motor => "Code_MT_DELAY"
    case SocialEmotional => "Code_SE_DELAY"
  }

  /** The display label of a domain (app.py:56-61). */
  function Label(c: Category): string {
    match c
    case Cognitive => "Cognitive"
    case Language => "Language/Communication"
    case Motor => "Motor"
    case SocialEmotional => "Social-Emotional"
  }

  /** The inverted label table (app.py:62): the domain a label names, if any. */
  function CategoryOfLabel(text: string): (r: Option<Category>)
    ensures r.Some? ==> Label(r.value) == text
    ensures r.None? ==> forall c: Category :: Label(c) != text
  {
    if text == "Cognitive" then Some(Cognitive)
    else if text == "Language/Communication" then Some(Language)
    else if text == "Motor" then Some(Motor)
    else if text == "Social-Emotional" then Some(SocialEmotional)
    else None
  }

  /** Labels and column names tell the domains apart, so the inverted table
      gives back the domain a label came from. */
  lemma LabelsInvertible(c: Category, d: Category)
    ensures CategoryOfLabel(Label(c)) == Some(c)
    ensures Label(c) == Label(d) ==> c == d
    ensures Column(c) == Column(d) ==> c == d
  {
  }

  function Code(r: Row, c: Category): int {
    match c
    case Cognitive => r.cg
    case Language => r.lc
    case Motor => r.mt
    case SocialEmotional => r.se
  }

  predicate Delayed(r: Row, c: Category) {
    Code(r, c) < 0
  }

  /** 1 for true, 0 for false: a boolean cell summed as a number. */
  function Indicator(b: bool): nat {
    if b then 1 else 0
  }

  /** The "Total Delays" column (app.py:64): the row-wise sum of the four
      "code < 0" tests. */
  function TotalDelays(r: Row): (n: nat)
    ensures n <= |CATEGORIES|
    ensures n == 0 <==> !(r.cg < 0 || r.lc < 0 || r.mt < 0 || r.se < 0)
  {
    Indicator(r.cg < 0) + Indicator(r.lc < 0) + Indicator(r.mt < 0) + Indicator(r.se < 0)
  }

  /** How many of the domains in cs are flagged for r. */
  function DelayedAmong(r: Row, cs: seq<Category>): (n: nat)
    ensures n <= |cs|
  {
    if cs == [] then 0 else Indicator(Delayed(r, cs[0])) + DelayedAmong(r, cs[1..])
  }

  /** "Total Delays" is the number of the four domains whose code is negative. */
  lemma TotalDelaysCountsDomains(r: Row)
    ensures TotalDelays(r) == DelayedAmong(r, CATEGORIES)
  {
    var cs := CATEGORIES;
    assert cs[1..] == [Language, Motor, SocialEmotional];
    assert cs[1..][1..] == [Motor, SocialEmotional];
    assert cs[1..][1..][1..] == [SocialEmotional];
    assert cs[1..][1..][1..][1..] == [];
    assert DelayedAmong(r, cs[1..][1..][1..]) == Indicator(r.se < 0);
    assert DelayedAmong(r, cs[1..][1..]) == Indicator(r.mt < 0) + Indicator(r.se < 0);
    assert DelayedAmong(r, cs[1..]) == Indicator(r.lc < 0) + Indicator(r.mt < 0) + Indicator(r.se < 0);
  }

  /** The "Has_Delay" column (app.py:65). */
  predicate HasDelay(r: Row) {
    TotalDelays(r) > 0
  }

  /** A child has a delay exactly when at least one of the four codes is negative. */
  lemma HasDelayIff(r: Row)
    ensures HasDelay(r) <==> exists c: Category :: Delayed(r, c)
  {
    if HasDelay(r) {
      if r.cg < 0 {
        assert Delayed(r, Cognitive);
      } else if r.lc < 0 {
        assert Delayed(r, Language);
      } else if r.mt < 0 {
        assert Delayed(r, Motor);
      } else {
        assert Delayed(r, SocialEmotional);
      }
    } else {
      forall c: Category
        ensures !Delayed(r, c)
      {
        match c
        case Cognitive =>
        case Language =>
        case Motor =>
        case SocialEmotional =>
      }
    }
  }

  /** The "Age Group" column (app.py:167). */
  function AgeGroup(r: Row): Option<Ages.Group> {
    Ages.Bucket(r.age)
  }
}
