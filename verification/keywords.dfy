/** Post-processing of the TF-IDF term ranking into the stored keyword list:
    drop terms of two UTF-16 code units or fewer, keep the first ten, and
    remove repetitions keeping first-seen order. The ranking itself is an
    input. */
module KeywordFilter {
  import opened Text
  import opened Collections

  /** How many ranked terms survive the cut. */
  const MaxKeywords: nat := 10

  /** A term is kept only when it is longer than this, in UTF-16 code units. */
  const MinTermLength: nat := 2

  predicate IsLong(term: string) {
    Utf16Length(term) > MinTermLength
  }

  /** The `filter` step: the long terms of the ranking, in ranking order. */
  function LongTerms(ranked: seq<string>): (r: seq<string>)
    ensures |r| <= |ranked|
    ensures forall i :: 0 <= i < |r| ==> IsLong(r[i]) && r[i] in ranked
    ensures forall i :: 0 <= i < |ranked| && IsLong(ranked[i]) ==> ranked[i] in r
  {
    if |ranked| == 0 then []
    else if IsLong(ranked[0]) then [ranked[0]] + LongTerms(ranked[1..])
    else LongTerms(ranked[1..])
  }

  /** Filtering keeps order: the long terms of a concatenation are those of
      its first part followed by those of its second. */
  lemma {:induction false} LongTermsAppend(a: seq<string>, b: seq<string>)
    ensures LongTerms(a + b) == LongTerms(a) + LongTerms(b)
  {
    if |a| > 0 {
      assert (a + b)[1..] == a[1..] + b;
      LongTermsAppend(a[1..], b);
    } else {
      assert a + b == b;
    }
  }

  /** The `slice(0, 10)` step applied to the long terms. */
  function Candidates(ranked: seq<string>): (r: seq<string>)
    ensures |r| <= MaxKeywords
    ensures r <= LongTerms(ranked)
    ensures |r| == MaxKeywords || r == LongTerms(ranked)
  {
    var long := LongTerms(ranked);
    if |long| <= MaxKeywords then long else long[..MaxKeywords]
  }

  /** The stored keyword list: at most ten distinct long terms, exactly the
      candidates with repetitions removed. */
  function Keywords(ranked: seq<string>): (r: seq<string>)
    ensures |r| <= MaxKeywords
    ensures forall i :: 0 <= i < |r| ==> IsLong(r[i]) && r[i] in ranked
    ensures Distinct(r)
    ensures forall i :: 0 <= i < |r| ==> r[i] in Candidates(ranked)
    ensures forall t :: t in Candidates(ranked) ==> t in r
  {
    Dedupe(Candidates(ranked))
  }

  /** Keywords keep the order in which they first occur among the candidates. */
  lemma KeywordsOrder(ranked: seq<string>)
    ensures forall i, j :: 0 <= i < j < |Keywords(ranked)| ==>
      FirstIndex(Candidates(ranked), Keywords(ranked)[i])
        < FirstIndex(Candidates(ranked), Keywords(ranked)[j])
  {
    DedupeOrder(Candidates(ranked));
  }

  /** When the first ten long terms are already distinct, they are the keywords
      exactly, in ranking order. */
  lemma KeywordsOfDistinctRanking(ranked: seq<string>)
    requires Distinct(Candidates(ranked))
    ensures Keywords(ranked) == Candidates(ranked)
  {
    DedupeOfDistinct(Candidates(ranked));
  }
}
