/**
 * The week selector's options in the test-results view: the weeks of the
 * course plan, each kept once (`new Set(...)`), sorted numerically
 * (`sort((a, b) => a - b)`) and labelled `Tuần <week>`.
 */
module WeekOptions {
  import opened JsValues

  /** A course-plan activity; only its week number matters to the view. */
  datatype Activity = Activity(week: int)

  /** One entry of the week selector. */
  datatype WeekOption = WeekOption(value: int, labelText: string)

  const WeekLabelPrefix: string := "Tuần "

  /** Every value occurs at most once. */
  ghost predicate Unique(s: seq<int>) {
    forall x :: multiset(s)[x] <= 1
  }

  /** Non-decreasing order, the order `sort((a, b) => a - b)` produces. */
  predicate Ascending(s: seq<int>) {
    forall i, j :: 0 <= i < j < |s| ==> s[i] <= s[j]
  }

  predicate StrictlyAscending(s: seq<int>) {
    forall i, j :: 0 <= i < j < |s| ==> s[i] < s[j]
  }

  /** `coursePlan?.map((plan) => plan.week) || []`: no plan yet means no weeks. */
  function PlanWeeks(coursePlan: Nullable<seq<Activity>>): (ws: seq<int>)
    ensures coursePlan.Null? ==> ws == []
    ensures coursePlan.Just? ==> |ws| == |coursePlan.value|
    ensures coursePlan.Just? ==> forall i :: 0 <= i < |ws| ==> ws[i] == coursePlan.value[i].week
  {
    match coursePlan
    case Null => []
    case Just(plan) => seq(|plan|, i requires 0 <= i < |plan| => plan[i].week)
  }

  /**
   * `Array.from(new Set(xs))`: the first occurrence of each value, in the
   * order of first insertion.
   */
  function Distinct(xs: seq<int>): (r: seq<int>)
    ensures Unique(r)
    ensures forall x :: x in r <==> x in xs
  {
    if xs == [] then []
    else
      var d := Distinct(xs[..|xs| - 1]);
      var last := xs[|xs| - 1];
      assert xs == xs[..|xs| - 1] + [last];
      if last in d then d else d + [last]
  }

  /** Places `x` before the first element not smaller than it. */
  function Insert(x: int, s: seq<int>): (r: seq<int>)
    requires Ascending(s)
    ensures Ascending(r)
    ensures multiset(r) == multiset(s) + multiset{x}
    ensures r[0] == if s != [] && s[0] < x then s[0] else x
  {
    if s == [] || x <= s[0] then [x] + s
    else
      assert s == [s[0]] + s[1..];
      [s[0]] + Insert(x, s[1..])
  }

  /** `sort((a, b) => a - b)` on integers: an ascending permutation. */
  function SortAscending(s: seq<int>): (r: seq<int>)
    ensures Ascending(r)
    ensures multiset(r) == multiset(s)
  {
    if s == [] then []
    else
      assert s == [s[0]] + s[1..];
      Insert(s[0], SortAscending(s[1..]))
  }

  /** `Tuần ${week}`. */
  function Label(week: int): string {
    WeekLabelPrefix + NumberToString(week)
  }

  /** `map((week) => ({ value: week, label: ... }))`. */
  function Labelled(ws: seq<int>): (r: seq<WeekOption>)
    ensures |r| == |ws|
    ensures forall i :: 0 <= i < |r| ==> r[i].value == ws[i] && r[i].labelText == Label(ws[i])
  {
    seq(|ws|, i requires 0 <= i < |ws| => WeekOption(ws[i], Label(ws[i])))
  }

  function Values(options: seq<WeekOption>): (vs: seq<int>)
    ensures |vs| == |options|
    ensures forall i :: 0 <= i < |vs| ==> vs[i] == options[i].value
  {
    seq(|options|, i requires 0 <= i < |options| => options[i].value)
  }

  /** The `weeks` constant of the view, computed from the fetched course plan. */
  function Weeks(coursePlan: Nullable<seq<Activity>>): (r: seq<WeekOption>)
    ensures coursePlan.Null? ==> r == []
    ensures StrictlyAscending(Values(r))
    ensures forall w :: w in Values(r) <==> w in PlanWeeks(coursePlan)
    ensures forall i :: 0 <= i < |r| ==> r[i].labelText == WeekLabelPrefix + NumberToString(r[i].value)
  {
    var sorted := SortAscending(Distinct(PlanWeeks(coursePlan)));
    SortedDistinct(PlanWeeks(coursePlan));
    var r := Labelled(sorted);
    assert Values(r) == sorted;
    r
  }

  /** Two equal values at different positions count twice. */
  lemma TwiceCountsTwice(s: seq<int>, i: int, j: int)
    requires 0 <= i < j < |s| && s[i] == s[j]
    ensures multiset(s)[s[i]] >= 2
  {
    assert s == s[..j] + s[j..];
    assert s[i] in multiset(s[..j]);
    assert s[j] in multiset(s[j..]);
  }

  lemma UniqueAscendingIsStrict(s: seq<int>)
    requires Ascending(s) && Unique(s)
    ensures StrictlyAscending(s)
  {
    forall i, j | 0 <= i < j < |s|
      ensures s[i] < s[j]
    {
      if s[i] == s[j] {
        TwiceCountsTwice(s, i, j);
        assert false;
      }
    }
  }

  /** Sorting the distinct values gives a strictly ascending listing of the input's values. */
  lemma SortedDistinct(ws: seq<int>)
    ensures StrictlyAscending(SortAscending(Distinct(ws)))
    ensures forall w :: w in SortAscending(Distinct(ws)) <==> w in ws
  {
    var d := Distinct(ws);
    var sorted := SortAscending(d);
    assert Unique(sorted) by {
      forall x ensures multiset(sorted)[x] <= 1 {
        assert multiset(d)[x] <= 1;
      }
    }
    UniqueAscendingIsStrict(sorted);
    forall w ensures w in sorted <==> w in ws {
      assert w in sorted <==> w in multiset(sorted);
      assert w in d <==> w in multiset(d);
    }
  }

  lemma HeadIsElement(s: seq<int>)
    requires s != []
    ensures s[0] in s
  {
  }

  /**
   * A strictly ascending sequence is determined by its elements, so the
   * option values are exactly "the distinct weeks, sorted".
   */
  lemma {:induction false} StrictlyAscendingDeterminedByElements(s: seq<int>, t: seq<int>)
    requires StrictlyAscending(s) && StrictlyAscending(t)
    requires forall x :: x in s <==> x in t
    ensures s == t
  {
    if s == [] || t == [] {
      if s != [] {
        HeadIsElement(s);
        assert false;
      }
      if t != [] {
        HeadIsElement(t);
        assert false;
      }
    } else {
      // The smallest element of each is the smallest element of the other.
      assert s[0] in s && t[0] in t;
      var k :| 0 <= k < |t| && t[k] == s[0];
      var m :| 0 <= m < |s| && s[m] == t[0];
      assert t[0] <= t[k] && s[0] <= s[m];
      forall x
        ensures x in s[1..] <==> x in t[1..]
      {
        if x in s[1..] {
          var i :| 1 <= i < |s| && s[i] == x;
          assert x in t;
          var j :| 0 <= j < |t| && t[j] == x;
          assert j != 0;
        }
        if x in t[1..] {
          var i :| 1 <= i < |t| && t[i] == x;
          assert x in s;
          var j :| 0 <= j < |s| && s[j] == x;
          assert j != 0;
        }
      }
      StrictlyAscendingDeterminedByElements(s[1..], t[1..]);
      assert s == [s[0]] + s[1..];
      assert t == [t[0]] + t[1..];
    }
  }

  /**
   * The options correspond one to one with the sorted distinct weeks: any
   * strictly ascending listing of the plan's weeks is exactly the option
   * values, and each option carries its own label.
   */
  lemma WeeksAreSortedDistinctWeeks(coursePlan: Nullable<seq<Activity>>, ws: seq<int>)
    requires StrictlyAscending(ws)
    requires forall w :: w in ws <==> w in PlanWeeks(coursePlan)
    ensures Weeks(coursePlan) == Labelled(ws)
  {
    var r := Weeks(coursePlan);
    StrictlyAscendingDeterminedByElements(Values(r), ws);
    assert forall i :: 0 <= i < |r| ==> r[i] == WeekOption(ws[i], Label(ws[i]));
  }

  /**
   * The options depend only on which weeks occur in the plan, not on the
   * order of its activities nor on how often a week repeats.
   */
  lemma WeeksIgnoreOrderAndDuplicates(p: Nullable<seq<Activity>>, q: Nullable<seq<Activity>>)
    requires forall w :: w in PlanWeeks(p) <==> w in PlanWeeks(q)
    ensures Weeks(p) == Weeks(q)
  {
    var vs := Values(Weeks(p));
    WeeksAreSortedDistinctWeeks(q, vs);
    assert Weeks(p) == Labelled(vs);
  }

  /** Each week of the plan is offered exactly once. */
  lemma WeekOfferedOnce(coursePlan: Nullable<seq<Activity>>, w: int)
    requires w in PlanWeeks(coursePlan)
    ensures exists i :: 0 <= i < |Weeks(coursePlan)| && Weeks(coursePlan)[i].value == w
    ensures forall i, j :: 0 <= i < j < |Weeks(coursePlan)| ==> Weeks(coursePlan)[i].value != Weeks(coursePlan)[j].value
  {
    var r := Weeks(coursePlan);
    assert w in Values(r);
    var i :| 0 <= i < |Values(r)| && Values(r)[i] == w;
    assert r[i].value == w;
  }

  /** Distinct options carry distinct labels. */
  lemma LabelsDistinct(coursePlan: Nullable<seq<Activity>>, i: int, j: int)
    requires 0 <= i < j < |Weeks(coursePlan)|
    ensures Weeks(coursePlan)[i].labelText != Weeks(coursePlan)[j].labelText
  {
    var r := Weeks(coursePlan);
    assert Values(r)[i] < Values(r)[j];
    if r[i].labelText == r[j].labelText {
      assert NumberToString(r[i].value) == r[i].labelText[|WeekLabelPrefix|..];
      assert NumberToString(r[j].value) == r[j].labelText[|WeekLabelPrefix|..];
      NumberToStringInjective(r[i].value, r[j].value);
    }
  }

  lemma LabelledFirstWeeks()
    ensures Labelled([1, 2, 3]) == [WeekOption(1, "Tuần 1"), WeekOption(2, "Tuần 2"), WeekOption(3, "Tuần 3")]
  {
    var r := Labelled([1, 2, 3]);
    assert Label(1) == "Tuần 1" && Label(2) == "Tuần 2" && Label(3) == "Tuần 3";
    assert r[0] == WeekOption(1, "Tuần 1");
    assert r[1] == WeekOption(2, "Tuần 2");
    assert r[2] == WeekOption(3, "Tuần 3");
  }

  /** A course plan whose activities fall in weeks 3, 1, 2, 1 and 3. */
  const ExamplePlan: Nullable<seq<Activity>> :=
    Just([Activity(3), Activity(1), Activity(2), Activity(1), Activity(3)])

  /** Weeks 3, 1, 2, 1, 3 give the options for weeks 1, 2 and 3, in that order. */
  lemma WeeksExample()
    ensures Weeks(ExamplePlan) == [WeekOption(1, "Tuần 1"), WeekOption(2, "Tuần 2"), WeekOption(3, "Tuần 3")]
  {
    assert PlanWeeks(ExamplePlan) == [3, 1, 2, 1, 3];
    forall w
      ensures w in [1, 2, 3] <==> w in PlanWeeks(ExamplePlan)
    {
    }
    WeeksAreSortedDistinctWeeks(ExamplePlan, [1, 2, 3]);
    LabelledFirstWeeks();
  }
}
