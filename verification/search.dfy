/** `search_employees` in `backend/data_ingestion.py`: retrieval with the
    normalised query, the bench filter, the boosts, the stable re-rank and
    the output records. The vector query is a parameter `retrieve` that maps
    the normalised query text and the window size to the retrieved items;
    nothing is assumed about their order. The tables are the rows the
    database returned. */
module Search {
  import opened Wrappers
  import opened Text
  import opened Records
  import opened Scoring
  import opened Ranking

  /** One retrieved item: id, the `role` metadata stored at ingest time
      (absent if the metadata lacks it) and the cosine distance. */
  datatype Hit = Hit(employeeId: string, role: Option<string>, distance: real)

  /** The three tables the filter and the boosts read. */
  datatype Tables = Tables(
    employees: seq<EmployeeRecord>,
    skills: seq<SkillRecord>,
    bench: seq<BenchRecord>)

  // ---------------------------------------------------------------------
  // Lookups by employee id
  // ---------------------------------------------------------------------

  /** The index of the first row whose key is `id`. For the bench table this
      is `bench_df.loc[id]` followed by `.iloc[0]` when the index is
      duplicated; for the employee table it is the boolean mask followed by
      `.iloc[0]`. */
  function FirstIndex<T>(rows: seq<T>, key: T -> string, id: string): (r: Option<nat>)
    ensures r.None? <==> forall i :: 0 <= i < |rows| ==> key(rows[i]) != id
    ensures r.Some? ==> r.value < |rows| && key(rows[r.value]) == id
    ensures r.Some? ==> forall j :: 0 <= j < r.value ==> key(rows[j]) != id
    decreases |rows|
  {
    if rows == [] then None
    else if key(rows[0]) == id then Some(0)
    else
      assert forall i :: 1 <= i < |rows| ==> rows[1..][i - 1] == rows[i];
      match FirstIndex(rows[1..], key, id)
      case None => None
      case Some(k) => Some(k + 1)
  }

  function BenchKey(b: BenchRecord): string { b.employeeId }

  function EmployeeKey(e: EmployeeRecord): string { e.employeeId }

  /** `any(term in s for term in query_terms)`. */
  predicate SkillMatches(skillLower: string, terms: seq<string>) {
    exists t :: t in terms && Contains(skillLower, t)
  }

  /** Row `i` of `skills` belongs to employee `id` and its lower-cased name
      contains some query term. */
  predicate Matching(id: string, skills: seq<SkillRecord>, terms: seq<string>, i: int) {
    0 <= i < |skills| && skills[i].employeeId == id && SkillMatches(Lower(skills[i].skillName), terms)
  }

  /** `len(matching_skills)`: the matching rows of employee `id`. */
  function MatchCount(id: string, skills: seq<SkillRecord>, terms: seq<string>): (n: nat)
    ensures n <= |skills|
    decreases |skills|
  {
    if skills == [] then 0
    else
      var last := |skills| - 1;
      MatchCount(id, skills[..last], terms) + if Matching(id, skills, terms, last) then 1 else 0
  }

  /** The count is the number of matching rows, a duplicated row counting
      once per copy. */
  lemma {:induction false} MatchCountIsCardinality(id: string, skills: seq<SkillRecord>, terms: seq<string>)
    ensures MatchCount(id, skills, terms) == |set i | 0 <= i < |skills| && Matching(id, skills, terms, i)|
    decreases |skills|
  {
    if skills != [] {
      var n := |skills| - 1;
      var init := skills[..n];
      MatchCountIsCardinality(id, init, terms);
      var before := set i | 0 <= i < n && Matching(id, init, terms, i);
      var after := set i | 0 <= i < |skills| && Matching(id, skills, terms, i);
      assert forall i :: 0 <= i < n ==> init[i] == skills[i];
      if Matching(id, skills, terms, n) {
        assert after == before + {n};
      } else {
        assert after == before;
      }
    }
  }

  // ---------------------------------------------------------------------
  // Bench filter and per-candidate scoring
  // ---------------------------------------------------------------------

  /** The only bench status that is eligible. */
  const EligibleStatus: string := "inactive"

  /** What the metadata lookup `metadata.get("role", "Unknown")` falls back to. */
  const UnknownRole: string := "Unknown"

  /** The fate of one retrieved item. */
  datatype Verdict = Missing | NotEligible | Kept(candidate: Candidate)

  /** The bench record the filter reads for `id`: the first one in table
      order. */
  predicate FirstBench(t: Tables, id: string, i: int) {
    0 <= i < |t.bench| && t.bench[i].employeeId == id
    && forall j :: 0 <= j < i ==> t.bench[j].employeeId != id
  }

  /** The employee row the scoring reads for `id`: the first one in table
      order. */
  predicate FirstEmployee(t: Tables, id: string, i: int) {
    0 <= i < |t.employees| && t.employees[i].employeeId == id
    && forall j :: 0 <= j < i ==> t.employees[j].employeeId != id
  }

  /** There is only one first employee row. */
  lemma FirstEmployeeUnique(t: Tables, id: string, i: int, j: int)
    requires FirstEmployee(t, id, i) && FirstEmployee(t, id, j)
    ensures i == j
  {
  }

  predicate HasBench(t: Tables, id: string) {
    exists i :: 0 <= i < |t.bench| && t.bench[i].employeeId == id
  }

  predicate HasEmployee(t: Tables, id: string) {
    exists i :: 0 <= i < |t.employees| && t.employees[i].employeeId == id
  }

  /** The bench status the filter sees for `id`, if there is a record. */
  function BenchStatusOf(t: Tables, id: string): (r: Option<string>)
    ensures r.None? <==> !HasBench(t, id)
    ensures r.Some? ==> exists i :: FirstBench(t, id, i) && t.bench[i].status == r.value
  {
    match FirstIndex(t.bench, BenchKey, id)
    case None => None
    case Some(b) =>
      assert FirstBench(t, id, b);
      Some(t.bench[b].status)
  }

  /** There is only one first record. */
  lemma FirstBenchUnique(t: Tables, id: string, i: int, j: int)
    requires FirstBench(t, id, i) && FirstBench(t, id, j)
    ensures i == j
  {
  }

  /** Boosts and final score of an eligible item at retrieval index
      `position`, whose employee row is `row`. The role and primary skill
      compared are `str(column).lower()`, so a NULL column compares as
      `"none"`; the query is `query_text.lower()`, not the normalised query. */
  function Score(hit: Hit, position: nat, status: string, row: EmployeeRecord, query: string, skills: seq<SkillRecord>): (c: Candidate)
    ensures c.employeeId == hit.employeeId && c.position == position && c.benchStatus == status
    ensures c.role == if hit.role.Some? then hit.role.value else UnknownRole
    ensures c.embeddingScore == 1.0 - hit.distance
    ensures c.finalScore == FinalScore(c.embeddingScore, c.boost)
    ensures 1.0 <= c.boost <= 7.2
    ensures c.primarySkill == Lower(PyStr(row.primarySkill))
    ensures c.boost == BoostFactor(Lower(PyStr(row.role)), Lower(PyStr(row.primarySkill)),
                                   MatchCount(hit.employeeId, skills, Words(Lower(query))), Lower(query))
  {
    var primary := Lower(PyStr(row.primarySkill));
    var queryLower := Lower(query);
    var matches := MatchCount(hit.employeeId, skills, Words(queryLower));
    var boost := BoostFactor(Lower(PyStr(row.role)), primary, matches, queryLower);
    var score := EmbeddingScore(hit.distance);
    Candidate(hit.employeeId, hit.role.GetOr(UnknownRole), primary, status,
              score, boost, FinalScore(score, boost), position)
  }

  /** The fate of the item at retrieval index `position`: bench status
      check, then employee lookup, then scoring. */
  function Classify(hit: Hit, position: nat, query: string, t: Tables): (v: Verdict)
    ensures v.Kept? ==> v.candidate.employeeId == hit.employeeId && v.candidate.position == position
  {
    match BenchStatusOf(t, hit.employeeId)
    case None => Missing
    case Some(status) =>
      if status != EligibleStatus then NotEligible
      else
        match FirstIndex(t.employees, EmployeeKey, hit.employeeId)
        case None => Missing
        case Some(e) => Kept(Score(hit, position, status, t.employees[e], query, t.skills))
  }

  /** The filter, stated over the tables: an item is kept iff its first
      bench record says "inactive" and it has an employee row; it is dropped
      as not eligible iff its first bench record says anything else; and it
      is dropped as missing iff it has no bench record, or an eligible one
      but no employee row. */
  lemma ClassifySpec(hit: Hit, position: nat, query: string, t: Tables)
    ensures var v := Classify(hit, position, query, t);
            var status := BenchStatusOf(t, hit.employeeId);
            && (v.Missing? <==> status.None? || (status == Some(EligibleStatus) && !HasEmployee(t, hit.employeeId)))
            && (v.NotEligible? <==> status.Some? && status.value != EligibleStatus)
            && (v.Kept? <==> status == Some(EligibleStatus) && HasEmployee(t, hit.employeeId))
  {
  }

  /** A kept candidate is inactive on the bench and carries the final score
      `(1 - distance) * boost`, with the boost in [1, 7.2]; its role is the
      stored metadata, or "Unknown" when the metadata has none. */
  lemma KeptCandidate(hit: Hit, position: nat, query: string, t: Tables)
    requires Classify(hit, position, query, t).Kept?
    ensures var c := Classify(hit, position, query, t).candidate;
            && c.benchStatus == EligibleStatus
            && c.role == (if hit.role.Some? then hit.role.value else UnknownRole)
            && c.embeddingScore == 1.0 - hit.distance
            && c.finalScore == FinalScore(c.embeddingScore, c.boost)
            && 1.0 <= c.boost <= 7.2
  {
    assert BenchStatusOf(t, hit.employeeId) == Some(EligibleStatus);
  }

  /** The boost of a kept candidate is the product of the three rules
      applied to the first employee row of the item (its `role` and
      `primary_skill` columns, not the metadata), to the query as the caller
      gave it lower-cased (not the normalised query), and to the number of
      the employee's skill rows matching a word of that query. */
  lemma KeptBoost(hit: Hit, position: nat, query: string, t: Tables)
    requires Classify(hit, position, query, t).Kept?
    ensures var c := Classify(hit, position, query, t).candidate;
            var q := Lower(query);
            forall e :: FirstEmployee(t, hit.employeeId, e) ==>
              && c.primarySkill == Lower(PyStr(t.employees[e].primarySkill))
              && c.boost == BoostFactor(Lower(PyStr(t.employees[e].role)), Lower(PyStr(t.employees[e].primarySkill)),
                                        MatchCount(hit.employeeId, t.skills, Words(q)), q)
  {
    var e := KeptScoresFirstRow(hit, position, query, t);
    forall e' | FirstEmployee(t, hit.employeeId, e')
      ensures e' == e
    {
      FirstEmployeeUnique(t, hit.employeeId, e', e);
    }
  }

  /** A kept item is scored against its first employee row. */
  lemma KeptScoresFirstRow(hit: Hit, position: nat, query: string, t: Tables) returns (e: nat)
    requires Classify(hit, position, query, t).Kept?
    ensures FirstEmployee(t, hit.employeeId, e)
    ensures Classify(hit, position, query, t).candidate
         == Score(hit, position, EligibleStatus, t.employees[e], query, t.skills)
    ensures var c := Classify(hit, position, query, t).candidate;
            var q := Lower(query);
            && c.primarySkill == Lower(PyStr(t.employees[e].primarySkill))
            && c.boost == BoostFactor(Lower(PyStr(t.employees[e].role)), Lower(PyStr(t.employees[e].primarySkill)),
                                      MatchCount(hit.employeeId, t.skills, Words(q)), q)
  {
    assert BenchStatusOf(t, hit.employeeId) == Some(EligibleStatus);
    var first := FirstIndex(t.employees, EmployeeKey, hit.employeeId);
    e := first.value;
  }

  // ---------------------------------------------------------------------
  // The filter loop
  // ---------------------------------------------------------------------

  /** The candidates kept, in retrieval order, and the two drop counters. */
  datatype Screening = Screening(candidates: seq<Candidate>, missing: nat, notEligible: nat)

  /** The verdict on every retrieved item, by retrieval index. */
  function Verdicts(hits: seq<Hit>, query: string, t: Tables): (vs: seq<Verdict>)
    ensures |vs| == |hits|
    ensures Positioned(vs)
  {
    seq(|hits|, i requires 0 <= i < |hits| => Classify(hits[i], i, query, t))
  }

  /** A kept verdict carries its own index as the candidate's position. */
  predicate Positioned(vs: seq<Verdict>) {
    forall i :: 0 <= i < |vs| && vs[i].Kept? ==> vs[i].candidate.position == i
  }

  /** The loop body applied to the verdicts in order: a missing item bumps
      `dropped_missing`, an ineligible one `dropped_not_eligible`, and a kept
      one is appended to the candidates. */
  function Tally(vs: seq<Verdict>): (r: Screening)
    ensures r.missing + r.notEligible + |r.candidates| == |vs|
    decreases |vs|
  {
    if vs == [] then Screening([], 0, 0)
    else
      var n := |vs| - 1;
      var s := Tally(vs[..n]);
      match vs[n]
      case Missing => s.(missing := s.missing + 1)
      case NotEligible => s.(notEligible := s.notEligible + 1)
      case Kept(c) => s.(candidates := s.candidates + [c])
  }

  /** The filter loop over the retrieved items. */
  function Screen(hits: seq<Hit>, query: string, t: Tables): Screening {
    Tally(Verdicts(hits, query, t))
  }

  /** `dropped_missing` counts exactly the missing verdicts. */
  lemma {:induction false} TallyMissing(vs: seq<Verdict>)
    ensures Tally(vs).missing == |set i | 0 <= i < |vs| && vs[i].Missing?|
    decreases |vs|
  {
    if vs != [] {
      var n := |vs| - 1;
      var init := vs[..n];
      TallyMissing(init);
      assert forall i :: 0 <= i < n ==> init[i] == vs[i];
      var before := set i | 0 <= i < n && init[i].Missing?;
      var after := set i | 0 <= i < |vs| && vs[i].Missing?;
      if vs[n].Missing? {
        assert after == before + {n};
      } else {
        assert after == before;
      }
    }
  }

  /** `dropped_not_eligible` counts exactly the ineligible verdicts. */
  lemma {:induction false} TallyNotEligible(vs: seq<Verdict>)
    ensures Tally(vs).notEligible == |set i | 0 <= i < |vs| && vs[i].NotEligible?|
    decreases |vs|
  {
    if vs != [] {
      var n := |vs| - 1;
      var init := vs[..n];
      TallyNotEligible(init);
      assert forall i :: 0 <= i < n ==> init[i] == vs[i];
      var before := set i | 0 <= i < n && init[i].NotEligible?;
      var after := set i | 0 <= i < |vs| && vs[i].NotEligible?;
      if vs[n].NotEligible? {
        assert after == before + {n};
      } else {
        assert after == before;
      }
    }
  }

  /** Each candidate is the kept verdict at its position, and candidates
      appear in retrieval order. */
  lemma {:induction false} TallySound(vs: seq<Verdict>)
    requires Positioned(vs)
    ensures var cs := Tally(vs).candidates;
            && InRetrievalOrder(cs)
            && forall k :: 0 <= k < |cs| ==> cs[k].position < |vs| && vs[cs[k].position] == Kept(cs[k])
    decreases |vs|
  {
    if vs != [] {
      var n := |vs| - 1;
      var init := vs[..n];
      assert forall i :: 0 <= i < n ==> init[i] == vs[i];
      TallySound(init);
    }
  }

  /** Some candidate sits at retrieval index `i`. */
  predicate Listed(cs: seq<Candidate>, i: int) {
    exists k :: 0 <= k < |cs| && cs[k].position == i
  }

  /** Every kept verdict is among the candidates. */
  lemma {:induction false} TallyComplete(vs: seq<Verdict>)
    requires Positioned(vs)
    ensures forall i :: 0 <= i < |vs| && vs[i].Kept? ==> Listed(Tally(vs).candidates, i)
    decreases |vs|
  {
    if vs != [] {
      var n := |vs| - 1;
      var init := vs[..n];
      assert forall i :: 0 <= i < n ==> init[i] == vs[i];
      TallyComplete(init);
      var before := Tally(init).candidates;
      var cs := Tally(vs).candidates;
      if vs[n].Kept? {
        assert cs == before + [vs[n].candidate];
      } else {
        assert cs == before;
      }
      forall i | 0 <= i < |vs| && vs[i].Kept?
        ensures Listed(cs, i)
      {
        if i < n {
          assert init[i].Kept?;
          var k :| 0 <= k < |before| && before[k].position == i;
          assert cs[k] == before[k];
        } else {
          assert vs[n].candidate.position == n;
          assert cs[|before|] == vs[n].candidate;
          assert cs[|before|].position == i;
        }
      }
    }
  }

  /** The filter over the retrieved items: each candidate is the scored form
      of the item at its position, candidates are in retrieval order, and
      every item the filter keeps is a candidate. */
  lemma ScreenSpec(hits: seq<Hit>, query: string, t: Tables)
    ensures var cs := Screen(hits, query, t).candidates;
            && InRetrievalOrder(cs)
            && (forall k :: 0 <= k < |cs| ==>
                  cs[k].position < |hits| && Classify(hits[cs[k].position], cs[k].position, query, t) == Kept(cs[k]))
            && (forall i :: 0 <= i < |hits| && Classify(hits[i], i, query, t).Kept? ==> Listed(cs, i))
  {
    var vs := Verdicts(hits, query, t);
    assert forall i :: 0 <= i < |hits| ==> vs[i] == Classify(hits[i], i, query, t);
    TallySound(vs);
    TallyComplete(vs);
  }

  // ---------------------------------------------------------------------
  // Output
  // ---------------------------------------------------------------------

  /** One output record; the user sees the final score as the similarity. */
  datatype Match = Match(
    employeeId: string,
    role: string,
    primarySkill: string,
    benchStatus: string,
    similarity: real)

  function MatchOf(c: Candidate): Match {
    Match(c.employeeId, c.role, c.primarySkill, c.benchStatus, c.finalScore)
  }

  /** The output records of the first `top_n` ranked candidates. */
  function Output(ranked: seq<Candidate>, topN: int): (ms: seq<Match>)
    ensures |ms| == |PyTake(ranked, topN)|
    ensures forall k :: 0 <= k < |ms| ==> ms[k] == MatchOf(ranked[k])
  {
    var top := PyTake(ranked, topN);
    seq(|top|, k requires 0 <= k < |top| => MatchOf(top[k]))
  }

  /** The output of a sorted ranking lists similarities highest first. */
  lemma OutputSorted(ranked: seq<Candidate>, topN: int)
    requires SortedByScore(ranked)
    ensures var ms := Output(ranked, topN);
            forall i, j :: 0 <= i < j < |ms| ==> ms[i].similarity >= ms[j].similarity
  {
  }

  /** Every candidate is an eligible retrieved item, at its own position. */
  lemma CandidatesEligible(hits: seq<Hit>, query: string, t: Tables)
    ensures forall c :: c in Screen(hits, query, t).candidates ==>
              && c.position < |hits|
              && Classify(hits[c.position], c.position, query, t) == Kept(c)
              && hits[c.position].employeeId == c.employeeId
              && c.benchStatus == EligibleStatus
  {
    var cs := Screen(hits, query, t).candidates;
    ScreenSpec(hits, query, t);
    forall c | c in cs
      ensures && c.position < |hits|
              && Classify(hits[c.position], c.position, query, t) == Kept(c)
              && hits[c.position].employeeId == c.employeeId
              && c.benchStatus == EligibleStatus
    {
      var k :| 0 <= k < |cs| && cs[k] == c;
      KeptCandidate(hits[c.position], c.position, query, t);
    }
  }

  /** The result together with the two counters the function logs. */
  datatype SearchResult = SearchResult(matches: seq<Match>, missing: nat, notEligible: nat)

  /** The items retrieval returns for a query: the normalised query and the
      widened window are what the collection is asked for. */
  function Retrieved(query: string, topN: int, retrieve: (string, nat) -> seq<Hit>): seq<Hit> {
    retrieve(NormalizeQuery(query), RetrievalK(topN))
  }

  /** The whole search: retrieval with the normalised query and the widened
      window, the filter loop, the stable re-rank and the cut to `top_n`. */
  function SearchEmployees(query: string, topN: int, t: Tables, retrieve: (string, nat) -> seq<Hit>): (r: SearchResult)
    ensures r.missing + r.notEligible + |Screen(Retrieved(query, topN, retrieve), query, t).candidates|
            == |Retrieved(query, topN, retrieve)|
  {
    var s := Screen(Retrieved(query, topN, retrieve), query, t);
    SearchResult(Output(RankByScore(s.candidates), topN), s.missing, s.notEligible)
  }

  /** The output cut from the ranking of candidates listed in retrieval
      order: `min(top_n, |candidates|)` records (Python slicing for a
      negative `top_n`), taken from a ranking that is a permutation of the
      candidates sorted by final score highest first with ties in retrieval
      order, each record showing its candidate's final score as the
      similarity. */
  lemma RankedOutput(cs: seq<Candidate>, topN: int)
    requires InRetrievalOrder(cs)
    ensures var ranked := RankByScore(cs);
            var ms := Output(ranked, topN);
            && (topN >= 0 ==> |ms| == if topN < |cs| then topN else |cs|)
            && (topN < 0 ==> |ms| == if |cs| + topN > 0 then |cs| + topN else 0)
            && multiset(ranked) == multiset(cs)
            && SortedByScore(ranked) && TiesInRetrievalOrder(ranked)
            && (forall k :: 0 <= k < |ms| ==> ms[k] == MatchOf(ranked[k]))
            && (forall i, j :: 0 <= i < j < |ms| ==> ms[i].similarity >= ms[j].similarity)
  {
    var ranked := RankByScore(cs);
    RankByScoreSpec(cs);
    assert |ranked| == |multiset(ranked)| == |cs|;
    OutputSorted(ranked, topN);
    var ms := Output(ranked, topN);
    assert |ms| == |PyTake(ranked, topN)|;
  }

  /** The candidates of a search, in retrieval order. */
  function Candidates(query: string, topN: int, t: Tables, retrieve: (string, nat) -> seq<Hit>): seq<Candidate> {
    Screen(Retrieved(query, topN, retrieve), query, t).candidates
  }

  /** The search output is the ranked output of its candidates, and those
      are listed in retrieval order, so `RankedOutput` applies. */
  lemma SearchEmployeesShape(query: string, topN: int, t: Tables, retrieve: (string, nat) -> seq<Hit>)
    ensures var cs := Candidates(query, topN, t, retrieve);
            && InRetrievalOrder(cs)
            && SearchEmployees(query, topN, t, retrieve).matches == Output(RankByScore(cs), topN)
  {
    TallySound(Verdicts(Retrieved(query, topN, retrieve), query, t));
  }

  /** Every output record is an eligible ("inactive") retrieved employee,
      and its similarity is the final score that item was given. */
  lemma SearchEmployeesProvenance(query: string, topN: int, t: Tables, retrieve: (string, nat) -> seq<Hit>)
    ensures var hits := Retrieved(query, topN, retrieve);
            var ms := SearchEmployees(query, topN, t, retrieve).matches;
            forall k :: 0 <= k < |ms| ==>
              exists i :: 0 <= i < |hits| && hits[i].employeeId == ms[k].employeeId
                && Classify(hits[i], i, query, t).Kept?
                && ms[k].benchStatus == EligibleStatus
                && ms[k].similarity == Classify(hits[i], i, query, t).candidate.finalScore
  {
    var hits := Retrieved(query, topN, retrieve);
    var cs := Screen(hits, query, t).candidates;
    var ranked := RankByScore(cs);
    var ms := SearchEmployees(query, topN, t, retrieve).matches;
    CandidatesEligible(hits, query, t);
    forall k | 0 <= k < |ms|
      ensures exists i :: 0 <= i < |hits| && hits[i].employeeId == ms[k].employeeId
                && Classify(hits[i], i, query, t).Kept?
                && ms[k].benchStatus == EligibleStatus
                && ms[k].similarity == Classify(hits[i], i, query, t).candidate.finalScore
    {
      var c := ranked[k];
      assert c in multiset(cs);
      assert c in cs;
      assert ms[k] == MatchOf(c);
    }
  }
}
