/** `CandidateShortlistPage.tsx`: the requirement card, which merges the
    submitted form over a mock requirement; the metric strip (top and median
    fit); the bench-status badge; and the page state that opens the fit
    report. */
module Shortlist {
  import opened Wrappers
  import RequirementForm
  import FitModal

  // ---------------------------------------------------------------------
  // Requirement merge
  // ---------------------------------------------------------------------

  datatype Requirement = Requirement(
    id: string,
    clientName: string,
    roleTitle: string,
    requiredSkills: seq<string>,
    minimumExperience: real,
    mandatoryCertifications: string,
    availabilityDate: string,
    summary: string)

  const MockId: string := "REQ-10234"

  const MockRequirement: Requirement := Requirement(
    MockId,
    "Global Retail Corp",
    "Senior Full Stack Engineer",
    ["React", "Node.js", "AWS", "PostgreSQL"],
    5.0,
    "AWS Solutions Architect, Azure DP-203",
    "2026-01-10",
    "Greenfield loyalty platform rebuild, high-traffic customer engagement system. Cross-functional squad, CI/CD, cloud-native on AWS with strong integration experience.")

  /** JavaScript's `a || b` on strings: the empty string is falsy. */
  function OrElse(a: string, b: string): string {
    if a != [] then a else b
  }

  /** The card's requirement: the mock one when navigation carried no form,
      otherwise the form field by field, with the mock value standing in for
      an empty text, an empty skill list or a blank experience. The id is
      always the mock id. */
  function Merge(submitted: Option<RequirementForm.Form>): (r: Requirement)
    ensures submitted.None? ==> r == MockRequirement
    ensures r.id == MockId
  {
    match submitted
    case None => MockRequirement
    case Some(f) =>
      Requirement(
        MockId,
        OrElse(f.clientName, MockRequirement.clientName),
        OrElse(f.roleTitle, MockRequirement.roleTitle),
        if |f.requiredSkills| > 0 then f.requiredSkills else MockRequirement.requiredSkills,
        match f.minimumExperience
        case Years(n) => n
        case Blank => MockRequirement.minimumExperience,
        OrElse(f.mandatoryCertifications, MockRequirement.mandatoryCertifications),
        OrElse(f.availabilityDate, MockRequirement.availabilityDate),
        OrElse(f.summary, MockRequirement.summary))
  }

  /** Field by field: a submitted value wins exactly when it is non-empty
      (for text and skills) or a number (for experience, zero included). */
  lemma MergeFields(f: RequirementForm.Form)
    ensures var r := Merge(Some(f));
            && (f.clientName != [] ==> r.clientName == f.clientName)
            && (f.clientName == [] ==> r.clientName == MockRequirement.clientName)
            && (f.roleTitle != [] ==> r.roleTitle == f.roleTitle)
            && (f.roleTitle == [] ==> r.roleTitle == MockRequirement.roleTitle)
            && (f.requiredSkills != [] ==> r.requiredSkills == f.requiredSkills)
            && (f.requiredSkills == [] ==> r.requiredSkills == MockRequirement.requiredSkills)
            && (f.minimumExperience.Years? ==> r.minimumExperience == f.minimumExperience.years)
            && (f.minimumExperience.Blank? ==> r.minimumExperience == MockRequirement.minimumExperience)
            && (f.mandatoryCertifications != [] ==> r.mandatoryCertifications == f.mandatoryCertifications)
            && (f.mandatoryCertifications == [] ==> r.mandatoryCertifications == MockRequirement.mandatoryCertifications)
            && (f.availabilityDate != [] ==> r.availabilityDate == f.availabilityDate)
            && (f.availabilityDate == [] ==> r.availabilityDate == MockRequirement.availabilityDate)
            && (f.summary != [] ==> r.summary == f.summary)
            && (f.summary == [] ==> r.summary == MockRequirement.summary)
  {
  }

  /** A zero experience is a number and is kept, not replaced by the mock's
      five years. */
  lemma ZeroExperienceKept(f: RequirementForm.Form)
    requires f.minimumExperience == RequirementForm.Years(0.0)
    ensures Merge(Some(f)).minimumExperience == 0.0
  {
  }

  /** A requirement read back as a form. */
  function FormOf(r: Requirement): (f: RequirementForm.Form)
    ensures f.minimumExperience.Years?
  {
    RequirementForm.Form(r.clientName, r.roleTitle, r.requiredSkills,
      RequirementForm.Years(r.minimumExperience), r.mandatoryCertifications,
      r.availabilityDate, r.summary)
  }

  /** Merging is idempotent: a merged requirement has nothing left for the
      mock to fill, so merging it again gives it back. */
  lemma MergeIdempotent(submitted: Option<RequirementForm.Form>)
    ensures Merge(Some(FormOf(Merge(submitted)))) == Merge(submitted)
  {
  }

  /** The cleared form (after Cancel) and the initial form both merge into
      the mock requirement except for skills: the initial form's two skills
      survive, the cleared form's empty list falls back to the mock's four. */
  lemma MergeOfPageForms()
    ensures Merge(Some(RequirementForm.ClearedForm)) == MockRequirement
    ensures Merge(Some(RequirementForm.InitialForm)) == MockRequirement.(requiredSkills := RequirementForm.DefaultSkills)
  {
  }

  // ---------------------------------------------------------------------
  // Metric strip
  // ---------------------------------------------------------------------

  /** Ascending order. */
  predicate Ascending(xs: seq<real>) {
    forall i, j :: 0 <= i < j < |xs| ==> xs[i] <= xs[j]
  }

  /** Inserts `x` before the first element not below it. */
  function InsertAsc(xs: seq<real>, x: real): (r: seq<real>)
    ensures multiset(r) == multiset(xs) + multiset{x}
    ensures |r| == |xs| + 1
    decreases |xs|
  {
    if xs == [] then [x]
    else if x <= xs[0] then [x] + xs
    else
      assert xs == [xs[0]] + xs[1..];
      [xs[0]] + InsertAsc(xs[1..], x)
  }

  /** A lower bound of a list and of `x` bounds the insertion too. */
  lemma {:induction false} InsertAscBounded(xs: seq<real>, x: real, lo: real)
    requires lo <= x && forall k :: 0 <= k < |xs| ==> lo <= xs[k]
    ensures forall k :: 0 <= k < |InsertAsc(xs, x)| ==> lo <= InsertAsc(xs, x)[k]
    decreases |xs|
  {
    if xs != [] && x > xs[0] {
      InsertAscBounded(xs[1..], x, lo);
    }
  }

  /** A head no larger than anything in an ascending tail gives an ascending
      list. */
  lemma ConsAscending(h: real, rest: seq<real>)
    requires Ascending(rest) && forall k :: 0 <= k < |rest| ==> h <= rest[k]
    ensures Ascending([h] + rest)
  {
    var r := [h] + rest;
    forall i, j | 0 <= i < j < |r|
      ensures r[i] <= r[j]
    {
      assert r[j] == rest[j - 1];
      if i > 0 {
        assert r[i] == rest[i - 1];
      }
    }
  }

  lemma {:induction false} InsertAscSorted(xs: seq<real>, x: real)
    requires Ascending(xs)
    ensures Ascending(InsertAsc(xs, x))
    decreases |xs|
  {
    if xs == [] {
    } else if x <= xs[0] {
      ConsAscending(x, xs);
    } else {
      var tail := xs[1..];
      assert forall k :: 0 <= k < |tail| ==> tail[k] == xs[k + 1];
      assert Ascending(tail);
      InsertAscSorted(tail, x);
      InsertAscBounded(tail, x, xs[0]);
      ConsAscending(xs[0], InsertAsc(tail, x));
    }
  }

  /** `[...scores].sort((a, b) => a - b)`. */
  function SortAsc(xs: seq<real>): (r: seq<real>)
    ensures multiset(r) == multiset(xs)
    ensures |r| == |xs|
    decreases |xs|
  {
    if xs == [] then []
    else
      assert xs == [xs[0]] + xs[1..];
      InsertAsc(SortAsc(xs[1..]), xs[0])
  }

  lemma {:induction false} SortAscSorted(xs: seq<real>)
    ensures Ascending(SortAsc(xs))
    decreases |xs|
  {
    if xs != [] {
      SortAscSorted(xs[1..]);
      InsertAscSorted(SortAsc(xs[1..]), xs[0]);
    }
  }

  /** `Math.max(...scores)`; for no candidates `Math.max()` is −∞, which
      is `None` here. */
  function TopFit(scores: seq<real>): (r: Option<real>)
    ensures r.None? <==> scores == []
    ensures r.Some? ==> r.value in scores && forall k :: 0 <= k < |scores| ==> scores[k] <= r.value
    decreases |scores|
  {
    if scores == [] then None
    else
      var rest := TopFit(scores[1..]);
      if rest.None? || rest.value <= scores[0] then
        assert forall k :: 1 <= k < |scores| ==> scores[k] == scores[1..][k - 1];
        Some(scores[0])
      else
        assert forall k :: 1 <= k < |scores| ==> scores[k] == scores[1..][k - 1];
        assert rest.value in scores[1..];
        rest
  }

  /** The element at index ⌊n/2⌋ of the ascending sort; for no candidates
      the index is out of range, which is `None` here. */
  function MedianFit(scores: seq<real>): (r: Option<real>)
    ensures r.None? <==> scores == []
  {
    if scores == [] then None else Some(SortAsc(scores)[|scores| / 2])
  }

  /** Which elements a count looks at. */
  datatype Bound = Below(m: real) | AtMost(m: real)

  predicate Within(x: real, b: Bound) {
    match b
    case Below(m) => x < m
    case AtMost(m) => x <= m
  }

  function Count(xs: seq<real>, b: Bound): (n: nat)
    ensures n <= |xs|
    decreases |xs|
  {
    if xs == [] then 0 else (if Within(xs[0], b) then 1 else 0) + Count(xs[1..], b)
  }

  lemma {:induction false} CountInsert(xs: seq<real>, x: real, b: Bound)
    ensures Count(InsertAsc(xs, x), b) == Count(xs, b) + (if Within(x, b) then 1 else 0)
    decreases |xs|
  {
    if xs != [] && x > xs[0] {
      CountInsert(xs[1..], x, b);
      assert InsertAsc(xs, x)[1..] == InsertAsc(xs[1..], x);
    } else if xs != [] {
      assert ([x] + xs)[1..] == xs;
    }
  }

  /** Sorting changes no count. */
  lemma {:induction false} CountSort(xs: seq<real>, b: Bound)
    ensures Count(SortAsc(xs), b) == Count(xs, b)
    decreases |xs|
  {
    if xs != [] {
      CountSort(xs[1..], b);
      CountInsert(SortAsc(xs[1..]), xs[0], b);
    }
  }

  lemma {:induction false} CountSplit(xs: seq<real>, h: nat, b: Bound)
    requires h <= |xs|
    ensures Count(xs, b) == Count(xs[..h], b) + Count(xs[h..], b)
    decreases h
  {
    if h > 0 {
      CountSplit(xs[1..], h - 1, b);
      assert xs[1..][..h - 1] == xs[..h][1..];
      assert xs[1..][h - 1..] == xs[h..];
    } else {
      assert xs[h..] == xs;
    }
  }

  lemma {:induction false} CountNone(xs: seq<real>, b: Bound)
    requires forall k :: 0 <= k < |xs| ==> !Within(xs[k], b)
    ensures Count(xs, b) == 0
    decreases |xs|
  {
    if xs != [] {
      CountNone(xs[1..], b);
    }
  }

  lemma {:induction false} CountAll(xs: seq<real>, b: Bound)
    requires forall k :: 0 <= k < |xs| ==> Within(xs[k], b)
    ensures Count(xs, b) == |xs|
    decreases |xs|
  {
    if xs != [] {
      CountAll(xs[1..], b);
    }
  }

  /** In an ascending list nothing from index `h` on lies below `s[h]`. */
  lemma BelowMedian(s: seq<real>, h: nat)
    requires Ascending(s) && h < |s|
    ensures Count(s, Below(s[h])) <= h
  {
    var m := s[h];
    CountSplit(s, h, Below(m));
    var upper := s[h..];
    forall k | 0 <= k < |upper|
      ensures !Within(upper[k], Below(m))
    {
      assert upper[k] == s[h + k];
    }
    CountNone(upper, Below(m));
  }

  /** In an ascending list everything up to index `h` lies at or below
      `s[h]`. */
  lemma AtMostMedian(s: seq<real>, h: nat)
    requires Ascending(s) && h < |s|
    ensures Count(s, AtMost(s[h])) >= h + 1
  {
    var m := s[h];
    CountSplit(s, h + 1, AtMost(m));
    var lower := s[..h + 1];
    forall k | 0 <= k < |lower|
      ensures Within(lower[k], AtMost(m))
    {
      assert lower[k] == s[k];
    }
    CountAll(lower, AtMost(m));
  }

  /** The median fit is a score of some candidate, at most ⌊n/2⌋ scores lie
      strictly below it and more than ⌊n/2⌋ lie at or below it — for an even
      count this picks the upper of the two middle scores. */
  lemma MedianFitSpec(scores: seq<real>)
    requires scores != []
    ensures var m := MedianFit(scores).value;
            && m in scores
            && Count(scores, Below(m)) <= |scores| / 2
            && Count(scores, AtMost(m)) >= |scores| / 2 + 1
  {
    var s := SortAsc(scores);
    var h := |scores| / 2;
    var m := s[h];
    assert MedianFit(scores).value == m;
    SortAscSorted(scores);
    assert m in multiset(scores) by {
      assert m in multiset(s);
    }
    CountSort(scores, Below(m));
    CountSort(scores, AtMost(m));
    BelowMedian(s, h);
    AtMostMedian(s, h);
  }

  /** One shortlisted candidate as the table shows it. */
  datatype ShortlistRow = ShortlistRow(id: string, rank: nat, overallFitScore: real, skillMatchScore: real, benchStatus: string)

  const MockCandidates: seq<ShortlistRow> := [
    ShortlistRow("c1", 1, 94.0, 92.0, "Bench"),
    ShortlistRow("c2", 2, 88.0, 86.0, "Partial"),
    ShortlistRow("c3", 3, 76.0, 80.0, "Not Bench")]

  function Scores(rows: seq<ShortlistRow>): (r: seq<real>)
    ensures |r| == |rows| && forall k :: 0 <= k < |r| ==> r[k] == rows[k].overallFitScore
  {
    seq(|rows|, k requires 0 <= k < |rows| => rows[k].overallFitScore)
  }

  /** For the three mock candidates the strip shows a top fit of 94 and a
      median fit of 88. */
  lemma MockMetrics()
    ensures TopFit(Scores(MockCandidates)) == Some(94.0)
    ensures MedianFit(Scores(MockCandidates)) == Some(88.0)
  {
    var s := Scores(MockCandidates);
    assert s == [94.0, 88.0, 76.0];
    MockTopFit(s);
    MockSort(s);
  }

  lemma MockTopFit(s: seq<real>)
    requires s == [94.0, 88.0, 76.0]
    ensures TopFit(s) == Some(94.0)
  {
    assert s[0] == 94.0;
  }

  lemma MockSort(s: seq<real>)
    requires s == [94.0, 88.0, 76.0]
    ensures SortAsc(s) == [76.0, 88.0, 94.0]
  {
    assert s[1..] == [88.0, 76.0];
    assert s[1..][1..] == [76.0];
    assert SortAsc([76.0]) == [76.0] by {
      assert [76.0][1..] == [];
    }
    assert InsertAsc([76.0], 88.0) == [76.0, 88.0] by {
      assert [76.0][1..] == [];
    }
    assert SortAsc([88.0, 76.0]) == [76.0, 88.0] by {
      assert [88.0, 76.0][1..] == [76.0];
    }
    assert InsertAsc([88.0], 94.0) == [88.0, 94.0] by {
      assert [88.0][1..] == [];
    }
    assert InsertAsc([76.0, 88.0], 94.0) == [76.0, 88.0, 94.0] by {
      assert [76.0, 88.0][1..] == [88.0];
    }
  }

  // ---------------------------------------------------------------------
  // Bench badge
  // ---------------------------------------------------------------------

  /** The badge variant of the bench-status column. */
  function BadgeVariant(status: string): (r: string)
    ensures r == "bench" <==> status == FitModal.BenchStatus
    ensures r == "partial" <==> status == FitModal.PartialStatus
    ensures r == "notBench" <==> status != FitModal.BenchStatus && status != FitModal.PartialStatus
  {
    if status == FitModal.BenchStatus then "bench"
    else if status == FitModal.PartialStatus then "partial"
    else "notBench"
  }

  /** The table's badge and the fit report's label classify every status the
      same way. */
  lemma BadgeAgreesWithLabel(status: string)
    ensures BadgeVariant(status) == "bench" <==> FitModal.BenchLabel(status) == "Immediately available"
    ensures BadgeVariant(status) == "partial" <==> FitModal.BenchLabel(status) == "Partially allocated"
    ensures BadgeVariant(status) == "notBench" <==> FitModal.BenchLabel(status) == "Not currently on bench"
  {
  }

  // ---------------------------------------------------------------------
  // Opening the fit report
  // ---------------------------------------------------------------------

  /** The id of the candidate the fit report falls back to; the page never
      passes the clicked row to the report. */
  const ReportCandidateId: string := "c1"

  /** `selectedCandidate`, `fitOpen`, and the report's own tab state, which
      survives closing because the report stays mounted. */
  datatype PageState = PageState(selected: Option<string>, fitOpen: bool, tab: FitModal.Tab)

  const InitialPage: PageState := PageState(None, false, FitModal.InitialTab)

  datatype PageEvent = RowClick(id: string) | CloseReport | SelectCandidate | TabClick(tab: FitModal.Tab)

  function PageStep(p: PageState, e: PageEvent): PageState {
    match e
    case RowClick(id) => p.(selected := Some(id), fitOpen := true)
    case CloseReport => p.(fitOpen := false)
    case SelectCandidate => p.(fitOpen := false)
    case TabClick(t) => if p.fitOpen then p.(tab := t) else p
  }

  /** Which candidate the open report describes. */
  function ShownCandidate(p: PageState): (r: Option<string>)
    ensures r.Some? <==> p.fitOpen
  {
    if p.fitOpen then Some(ReportCandidateId) else None
  }

  /** Clicking any row opens the report on the same candidate, whichever row
      was clicked, and records the click in `selected`. */
  lemma RowClickShowsDefault(p: PageState, id: string)
    ensures PageStep(p, RowClick(id)).selected == Some(id)
    ensures ShownCandidate(PageStep(p, RowClick(id))) == Some(ReportCandidateId)
  {
  }

  /** Closing and reopening the report comes back on the tab it was left
      on, not on the summary tab. */
  lemma TabSurvivesReopen(p: PageState, t: FitModal.Tab, id: string)
    requires p.fitOpen
    ensures PageStep(PageStep(PageStep(p, TabClick(t)), CloseReport), RowClick(id)).tab == t
    ensures FitModal.Bodies(true, PageStep(PageStep(PageStep(p, TabClick(t)), CloseReport), RowClick(id)).tab) == [t]
  {
    FitModal.ExactlyOneBody(true, t);
  }
}
