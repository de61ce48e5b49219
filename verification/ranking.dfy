/** Step 6 of `search_employees` in `backend/data_ingestion.py`: the
    candidates that survived the bench filter are sorted by final score,
    highest first, with Python's stable sort, and the first `top_n` are kept. */
module Ranking {

  /** One eligible retrieved item. `position` is its index in the retrieval
      result, which is the order the candidate list was built in. */
  datatype Candidate = Candidate(
    employeeId: string,
    role: string,
    primarySkill: string,
    benchStatus: string,
    embeddingScore: real,
    boost: real,
    finalScore: real,
    position: nat)

  /** Highest final score first. */
  predicate SortedByScore(cs: seq<Candidate>) {
    forall i, j :: 0 <= i < j < |cs| ==> cs[i].finalScore >= cs[j].finalScore
  }

  /** Candidates with equal scores appear in retrieval order. */
  predicate TiesInRetrievalOrder(cs: seq<Candidate>) {
    forall i, j :: 0 <= i < j < |cs| && cs[i].finalScore == cs[j].finalScore ==> cs[i].position < cs[j].position
  }

  /** Positions strictly increase along the list. */
  predicate InRetrievalOrder(cs: seq<Candidate>) {
    forall i, j :: 0 <= i < j < |cs| ==> cs[i].position < cs[j].position
  }

  /** Inserts `c` into a list sorted highest first, after every element
      whose score is at least `c`'s, so that an element inserted later never
      overtakes an equal one. */
  function Insert(sorted: seq<Candidate>, c: Candidate): (r: seq<Candidate>)
    ensures multiset(r) == multiset(sorted) + multiset{c}
    ensures |r| == |sorted| + 1
    decreases |sorted|
  {
    if sorted == [] then [c]
    else if sorted[0].finalScore >= c.finalScore then
      assert sorted == [sorted[0]] + sorted[1..];
      [sorted[0]] + Insert(sorted[1..], c)
    else [c] + sorted
  }

  /** The elements of an insertion are the old ones and `c`. */
  lemma InsertMembers(sorted: seq<Candidate>, c: Candidate)
    ensures forall x :: x in Insert(sorted, c) <==> x in sorted || x == c
  {
    var r := Insert(sorted, c);
    forall x
      ensures x in r <==> x in sorted || x == c
    {
      assert x in r <==> x in multiset(r);
      assert x in sorted <==> x in multiset(sorted);
    }
  }

  /** A head that outranks every element of a sorted tail gives a sorted
      list. */
  lemma ConsSorted(h: Candidate, rest: seq<Candidate>)
    requires SortedByScore(rest)
    requires forall x :: x in rest ==> h.finalScore >= x.finalScore
    ensures SortedByScore([h] + rest)
  {
    forall i, j | 0 <= i < j < |rest| + 1
      ensures ([h] + rest)[i].finalScore >= ([h] + rest)[j].finalScore
    {
      if i == 0 {
        assert rest[j - 1] in rest;
      }
    }
  }

  /** A head that precedes every equal-scored element of a stable tail gives
      a stable list. */
  lemma ConsStable(h: Candidate, rest: seq<Candidate>)
    requires TiesInRetrievalOrder(rest)
    requires forall x :: x in rest && x.finalScore == h.finalScore ==> h.position < x.position
    ensures TiesInRetrievalOrder([h] + rest)
  {
    forall i, j | 0 <= i < j < |rest| + 1 && ([h] + rest)[i].finalScore == ([h] + rest)[j].finalScore
      ensures ([h] + rest)[i].position < ([h] + rest)[j].position
    {
      if i == 0 {
        assert rest[j - 1] in rest;
      }
    }
  }

  /** Dropping the head keeps a list sorted and stable. */
  lemma TailOrdered(cs: seq<Candidate>)
    requires cs != []
    ensures SortedByScore(cs) ==> SortedByScore(cs[1..])
    ensures TiesInRetrievalOrder(cs) ==> TiesInRetrievalOrder(cs[1..])
    ensures forall x :: x in cs[1..] ==> x in cs
  {
    assert forall k :: 0 <= k < |cs| - 1 ==> cs[1..][k] == cs[k + 1];
  }

  /** Insertion keeps a sorted list sorted. */
  lemma {:induction false} InsertSorted(sorted: seq<Candidate>, c: Candidate)
    requires SortedByScore(sorted)
    ensures SortedByScore(Insert(sorted, c))
    decreases |sorted|
  {
    if sorted == [] {
    } else if sorted[0].finalScore >= c.finalScore {
      TailOrdered(sorted);
      InsertSorted(sorted[1..], c);
      InsertMembers(sorted[1..], c);
      forall x | x in sorted[1..]
        ensures sorted[0].finalScore >= x.finalScore
      {
        var k :| 0 <= k < |sorted[1..]| && sorted[1..][k] == x;
        assert sorted[k + 1] == x;
      }
      ConsSorted(sorted[0], Insert(sorted[1..], c));
    } else {
      ConsSorted(c, sorted);
    }
  }

  /** Insertion keeps ties in retrieval order when `c` comes after every
      element already in the list. */
  lemma {:induction false} InsertStable(sorted: seq<Candidate>, c: Candidate)
    requires SortedByScore(sorted) && TiesInRetrievalOrder(sorted)
    requires forall x :: x in sorted ==> x.position < c.position
    ensures TiesInRetrievalOrder(Insert(sorted, c))
    decreases |sorted|
  {
    if sorted == [] {
    } else if sorted[0].finalScore >= c.finalScore {
      TailOrdered(sorted);
      InsertStable(sorted[1..], c);
      InsertMembers(sorted[1..], c);
      forall x | x in sorted[1..] && x.finalScore == sorted[0].finalScore
        ensures sorted[0].position < x.position
      {
        var k :| 0 <= k < |sorted[1..]| && sorted[1..][k] == x;
        assert sorted[k + 1] == x;
      }
      assert sorted[0] in sorted;
      ConsStable(sorted[0], Insert(sorted[1..], c));
    } else {
      forall x | x in sorted
        ensures x.finalScore < c.finalScore
      {
        var k :| 0 <= k < |sorted| && sorted[k] == x;
      }
      ConsStable(c, sorted);
    }
  }

  /** `candidates.sort(key=final_score, reverse=True)`: insertion of each
      candidate in list order. */
  function RankByScore(cs: seq<Candidate>): (r: seq<Candidate>)
    ensures multiset(r) == multiset(cs)
    decreases |cs|
  {
    if cs == [] then []
    else
      var n := |cs| - 1;
      assert cs == cs[..n] + [cs[n]];
      Insert(RankByScore(cs[..n]), cs[n])
  }

  /** The ranking is sorted highest first and, for a list in retrieval
      order, ties keep retrieval order: the sort is stable. */
  lemma {:induction false} RankByScoreSpec(cs: seq<Candidate>)
    ensures SortedByScore(RankByScore(cs))
    ensures InRetrievalOrder(cs) ==> TiesInRetrievalOrder(RankByScore(cs))
    decreases |cs|
  {
    if cs != [] {
      var n := |cs| - 1;
      var init := cs[..n];
      RankByScoreSpec(init);
      InsertSorted(RankByScore(init), cs[n]);
      if InRetrievalOrder(cs) {
        assert InRetrievalOrder(init);
        forall x | x in RankByScore(init)
          ensures x.position < cs[n].position
        {
          assert x in multiset(RankByScore(init));
          var k :| 0 <= k < n && init[k] == x;
        }
        InsertStable(RankByScore(init), cs[n]);
        assert cs[..n] == init;
      }
    }
  }

  /** Python's `s[:n]`: a negative `n` drops `-n` elements from the end. */
  function PyTake<T>(s: seq<T>, n: int): (r: seq<T>)
    ensures n >= 0 ==> |r| == if n < |s| then n else |s|
    ensures n < 0 ==> |r| == if |s| + n > 0 then |s| + n else 0
    ensures r <= s
  {
    if n >= 0 then (if n < |s| then s[..n] else s)
    else if |s| + n > 0 then s[..|s| + n] else []
  }

  /** A prefix of a sorted, stable list is sorted and stable. */
  lemma PrefixKeepsOrder(cs: seq<Candidate>, n: int)
    requires SortedByScore(cs) && TiesInRetrievalOrder(cs)
    ensures SortedByScore(PyTake(cs, n)) && TiesInRetrievalOrder(PyTake(cs, n))
  {
    var r := PyTake(cs, n);
    assert forall i :: 0 <= i < |r| ==> r[i] == cs[i];
  }
}
