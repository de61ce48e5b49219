/** The query-side rules of `search_employees` in `backend/data_ingestion.py`:
    padding of short queries, the widened retrieval window, and the four
    multiplicative boosts that turn an embedding similarity into the final
    score. Scores are exact reals. */
module Scoring {
  import opened Wrappers
  import opened Text

  // ---------------------------------------------------------------------
  // Query normalisation
  // ---------------------------------------------------------------------

  /** Appended to a one-token query. */
  const OneTokenContext: string := " developer engineer professional"

  /** Appended to a two-token query. */
  const TwoTokenContext: string := " professional development experience"

  /** `normalize_query`: the token count of the stripped query decides the
      padding; the padding is appended to the query as given, not stripped. */
  function NormalizeQuery(q: string): (r: string)
    ensures |Words(q)| == 1 ==> r == q + OneTokenContext
    ensures |Words(q)| == 2 ==> r == q + TwoTokenContext
    ensures |Words(q)| != 1 && |Words(q)| != 2 ==> r == q
  {
    WordsTrim(q);
    var tokens := Words(Trim(q, Python));
    if |tokens| == 1 then q + OneTokenContext
    else if |tokens| == 2 then q + TwoTokenContext
    else q
  }

  /** The tokens the padding adds for a query of `n` tokens. */
  function ContextTokens(n: nat): seq<string> {
    if n == 1 then ["developer", "engineer", "professional"]
    else if n == 2 then ["professional", "development", "experience"]
    else []
  }

  /** Printable ASCII other than the blank is never white space. */
  lemma {:induction false} VisibleNoSpace(s: string, d: Dialect)
    requires forall i :: 0 <= i < |s| ==> '!' <= s[i] <= '~'
    ensures NoSpace(s, d)
  {
    forall i | 0 <= i < |s|
      ensures !IsSpace(s[i], d)
    {
      VisibleAsciiNotSpace(s[i], d);
    }
  }

  /** Each padding is a blank followed by its tokens joined by blanks. */
  lemma PaddingShape(n: nat)
    requires n == 1 || n == 2
    ensures (if n == 1 then OneTokenContext else TwoTokenContext) == " " + Join(" ", ContextTokens(n))
  {
    if n == 1 {
      JoinThree("developer", "engineer", "professional");
      OneTokenSpelled();
    } else {
      JoinThree("professional", "development", "experience");
      TwoTokenSpelled();
    }
  }

  /** The one-token padding, word by word. */
  lemma OneTokenSpelled()
    ensures OneTokenContext == " " + "developer" + " " + "engineer" + " " + "professional"
  {
  }

  /** The two-token padding, word by word. */
  lemma TwoTokenSpelled()
    ensures TwoTokenContext == " " + "professional" + " " + "development" + " " + "experience"
  {
  }

  /** A blank followed by three parts joined by blanks. */
  lemma JoinThree(a: string, b: string, c: string)
    ensures " " + Join(" ", [a, b, c]) == " " + a + " " + b + " " + c
  {
    assert [a, b, c][1..] == [b, c];
    assert [b, c][1..] == [c];
    assert Join(" ", [c]) == c;
    assert Join(" ", [b, c]) == b + " " + c;
    assert Join(" ", [a, b, c]) == a + " " + (b + " " + c);
  }

  /** The padding tokens are non-empty and free of white space. */
  lemma ContextTokensNoSpace(n: nat)
    ensures forall w :: w in ContextTokens(n) ==> w != [] && NoSpace(w, Python)
  {
    assert NoSpace("developer", Python) by { VisibleNoSpace("developer", Python); }
    assert NoSpace("engineer", Python) by { VisibleNoSpace("engineer", Python); }
    assert NoSpace("professional", Python) by { VisibleNoSpace("professional", Python); }
    assert NoSpace("development", Python) by { VisibleNoSpace("development", Python); }
    assert NoSpace("experience", Python) by { VisibleNoSpace("experience", Python); }
  }

  /** A blank followed by space-free words joined by blanks splits into
      exactly those words. */
  lemma {:induction false} PaddedWords(s: string, ws: seq<string>)
    requires s == " " + Join(" ", ws)
    requires forall w :: w in ws ==> w != [] && NoSpace(w, Python)
    ensures Words(s) == ws
  {
    WordsJoinRoundTrip(ws);
    assert AllSpace(" ", Python);
    WordsSkipSpace(" ", Join(" ", ws));
  }

  /** What the embedding model sees: a one-token query grows to four tokens,
      a two-token query to five, and every other query (no token at all, or
      three and more) is left alone. */
  lemma {:induction false} NormalizedTokens(q: string)
    ensures Words(NormalizeQuery(q)) == Words(q) + ContextTokens(|Words(q)|)
  {
    var n := |Words(q)|;
    if n == 1 || n == 2 {
      var pad := if n == 1 then OneTokenContext else TwoTokenContext;
      PaddingShape(n);
      ContextTokensNoSpace(n);
      PaddedWords(pad, ContextTokens(n));
      assert IsSpace(pad[0], Python);
      WordsConcat(q, pad);
    } else {
      assert Words(q) + [] == Words(q);
    }
  }

  // ---------------------------------------------------------------------
  // Retrieval window
  // ---------------------------------------------------------------------

  /** The least number of items ever requested from the collection. */
  const MinRetrieval: nat := 35

  /** How many items are retrieved per requested result. */
  const RetrievalFactor: nat := 6

  /** `max(top_n * 6, 35)`: wide enough to leave `top_n` candidates after
      filtering, and never below 35 (also for a zero or negative `top_n`). */
  function RetrievalK(topN: int): (k: nat)
    ensures k >= MinRetrieval && k >= RetrievalFactor * topN
    ensures k == MinRetrieval || k == RetrievalFactor * topN
  {
    if topN * RetrievalFactor > MinRetrieval then topN * RetrievalFactor else MinRetrieval
  }

  // ---------------------------------------------------------------------
  // Boost signals
  // ---------------------------------------------------------------------

  /** Query words shorter than this are ignored by the role-keyword rule. */
  const MinKeywordLength: nat := 3

  /** Some word of the lower-cased query, at least three characters long,
      occurs in the employee's lower-cased role. */
  predicate KeywordHit(role: string, queryLower: string) {
    exists w :: w in Words(queryLower) && |w| >= MinKeywordLength && Contains(role, w)
  }

  /** Signals 1 and 2: an exact role match doubles the score; only when the
      role is not an exact match does a role keyword give ×1.5. */
  function RoleBoost(role: string, queryLower: string): (r: real)
    ensures r == 2.0 <==> role == queryLower
    ensures r == 1.5 <==> role != queryLower && KeywordHit(role, queryLower)
    ensures r == 1.0 <==> role != queryLower && !KeywordHit(role, queryLower)
  {
    if role == queryLower then 2.0
    else if KeywordHit(role, queryLower) then 1.5
    else 1.0
  }

  /** Signal 3: a non-empty primary skill occurring in the lower-cased query
      gives ×1.8. */
  function PrimaryBoost(primary: string, queryLower: string): (r: real)
    ensures r == 1.8 <==> primary != [] && Contains(queryLower, primary)
    ensures r == 1.0 <==> !(primary != [] && Contains(queryLower, primary))
  {
    if primary != [] && Contains(queryLower, primary) then 1.8 else 1.0
  }

  /** The per-match increment of the skill boost and its cap. */
  const SkillStep: real := 0.3
  const SkillCap: real := 2.0

  /** Signal 4: `min(1 + 0.3·n, 2.0)` for `n` matching skill rows, applied
      only when `n > 0`. */
  function SkillBoost(n: nat): (r: real)
    ensures n == 0 <==> r == 1.0
    ensures n > 0 ==> 1.3 <= r <= SkillCap
    ensures r == SkillCap <==> n >= 4
  {
    if n == 0 then 1.0
    else if 1.0 + SkillStep * n as real < SkillCap then 1.0 + SkillStep * n as real
    else SkillCap
  }

  /** More matching skills never lower the skill boost. */
  lemma SkillBoostMonotone(m: nat, n: nat)
    requires m <= n
    ensures SkillBoost(m) <= SkillBoost(n)
  {
  }

  /** The product of the three factors. */
  function BoostFactor(role: string, primary: string, matches: nat, queryLower: string): (b: real)
    ensures 1.0 <= b <= 2.0 * 1.8 * SkillCap
  {
    var r := RoleBoost(role, queryLower);
    var p := PrimaryBoost(primary, queryLower);
    var s := SkillBoost(matches);
    assert 1.0 <= r * p <= 3.6 by {
      assert r == 1.0 || r == 1.5 || r == 2.0;
      assert p == 1.0 || p == 1.8;
    }
    BoundedProduct(r * p, s, 3.6, SkillCap);
    r * p * s
  }

  /** The boost is neutral exactly when no signal fires: the role is
      neither the query nor hit by a query keyword, the primary skill does
      not occur in the query, and no skill row matches. */
  lemma BoostNeutral(role: string, primary: string, matches: nat, queryLower: string)
    ensures BoostFactor(role, primary, matches, queryLower) == 1.0
        <==> && role != queryLower && !KeywordHit(role, queryLower)
             && !(primary != [] && Contains(queryLower, primary))
             && matches == 0
  {
    var r := RoleBoost(role, queryLower);
    var p := PrimaryBoost(primary, queryLower);
    ProductIsOne(r, p, SkillBoost(matches));
  }

  /** A product of factors that are each at least one is one exactly when
      every factor is. */
  lemma ProductIsOne(x: real, y: real, z: real)
    requires 1.0 <= x && 1.0 <= y && 1.0 <= z
    ensures x * y * z == 1.0 <==> x == 1.0 && y == 1.0 && z == 1.0
  {
    BoundedProduct(x, y, x, y);
    if x * y > 1.0 {
      assert x * y * z >= x * y;
    } else if x > 1.0 {
      assert x * y >= x;
    }
  }

  /** Products of factors that are at least one stay within the product of
      their bounds. */
  lemma BoundedProduct(x: real, y: real, hx: real, hy: real)
    requires 1.0 <= x <= hx && 1.0 <= y <= hy
    ensures 1.0 <= x * y <= hx * hy
  {
    assert x * y <= hx * y;
    assert hx * y <= hx * hy;
  }

  /** `embedding_score = 1 - distance`: cosine distance to similarity. */
  function EmbeddingScore(distance: real): real {
    1.0 - distance
  }

  /** `final_score = embedding_score * boost_factor`. */
  function FinalScore(score: real, boost: real): real {
    score * boost
  }

  /** For a non-negative embedding score a larger boost never lowers the
      final score. */
  lemma FinalScoreMonotone(score: real, b1: real, b2: real)
    requires score >= 0.0 && b1 <= b2
    ensures FinalScore(score, b1) <= FinalScore(score, b2)
  {
    if score > 0.0 {
      assert score * b1 <= score * b2;
    }
  }

  /** A cosine distance above 1 gives a negative embedding score, and then
      every boost pushes the candidate further down: at distance 1.5 an
      exact role match (×2.0) scores below an unboosted candidate. */
  lemma BoostDemotesNegativeScore()
    ensures var score := EmbeddingScore(1.5);
            FinalScore(score, RoleBoost("data engineer", "data engineer")) < FinalScore(score, 1.0)
  {
  }

  // ---------------------------------------------------------------------
  // Facts about the keyword rule
  // ---------------------------------------------------------------------

  /** An occurrence in a suffix is an occurrence in the whole string. */
  lemma ContainsSuffix(s: string, k: nat, w: string)
    requires k <= |s| && Contains(s[k..], w)
    ensures Contains(s, w)
  {
    var i :| 0 <= i <= |s[k..]| && StartsWith(s[k..][i..], w);
    assert s[k..][i..] == s[k + i..];
  }

  /** Every token of `s` occurs in `s`. */
  lemma {:induction false} WordsOccur(s: string)
    ensures forall w :: w in Words(s) ==> Contains(s, w)
    decreases |s|
  {
    if s == [] {
    } else if IsSpace(s[0], Python) {
      WordsOccur(s[1..]);
      forall w | w in Words(s)
        ensures Contains(s, w)
      {
        ContainsSuffix(s, 1, w);
      }
    } else {
      var n := WordLength(s);
      WordsOccur(s[n..]);
      forall w | w in Words(s)
        ensures Contains(s, w)
      {
        if w == s[..n] {
          assert StartsWith(s[0..], w);
        } else {
          assert w in Words(s[n..]);
          ContainsSuffix(s, n, w);
        }
      }
    }
  }

  /** Why the keyword rule is an `elif`: when the role equals the query and
      the query has a word of three or more characters, the keyword rule
      holds too, so without the `elif` an exact match would earn ×3.0. */
  lemma ExactRoleAlsoKeyword(role: string, queryLower: string, w: string)
    requires role == queryLower
    requires w in Words(queryLower) && |w| >= MinKeywordLength
    ensures KeywordHit(role, queryLower)
    ensures RoleBoost(role, queryLower) == 2.0
  {
    WordsOccur(queryLower);
  }

  /** Words of one or two characters never trigger the keyword rule: a
      query with such a word appended after a blank hits a role exactly
      when the query without it does. */
  lemma ShortWordIgnored(role: string, q: string, w: string)
    requires w != [] && |w| < MinKeywordLength && NoSpace(w, Python)
    ensures KeywordHit(role, q + " " + w) <==> KeywordHit(role, q)
  {
    assert AllSpace(" ", Python);
    WordsSkipSpace(" ", w);
    WordsOne(w);
    WordsConcat(q, " " + w);
    assert q + " " + w == q + (" " + w);
    var ws := Words(q);
    assert Words(q + " " + w) == ws + [w];
    assert forall x :: x in ws + [w] <==> x in ws || x == w;
  }

  /** Python's `str()` of a nullable text column: NULL becomes `"None"`. */
  function PyStr(v: Option<string>): (r: string)
    ensures v.Some? ==> r == v.value
    ensures v.None? ==> r == "None"
  {
    v.GetOr("None")
  }

  /** A NULL primary skill reaches the rule as `str(None).lower()`, i.e.
      `"none"`, which is non-empty: such an employee gets ×1.8 exactly when
      the lower-cased query contains `"none"`. */
  lemma NullPrimarySkill(queryLower: string)
    ensures PrimaryBoost(Lower(PyStr(None)), queryLower) == 1.8 <==> Contains(queryLower, "none")
  {
    assert Lower("None") == "none";
  }
}
