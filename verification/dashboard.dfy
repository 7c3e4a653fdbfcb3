/** The page's aggregation of a stored analysis into chart data: comments per
    month bucket, and the three-bar sentiment distribution with the stat cards
    that repeat its counts. */
module Dashboard {
  import opened AnalysisTypes
  import opened Collections

  /** One bar of the "Comments Over Time" chart. */
  datatype Bucket = Bucket(month: string, count: nat)

  /** The keys of the buckets, in bucket order. */
  function Months(buckets: seq<Bucket>): seq<string> {
    seq(|buckets|, i requires 0 <= i < |buckets| => buckets[i].month)
  }

  /** Sum of the bucket counts. */
  function Total(buckets: seq<Bucket>): nat {
    if |buckets| == 0 then 0 else Total(buckets[..|buckets| - 1]) + buckets[|buckets| - 1].count
  }

  lemma TotalSnoc(buckets: seq<Bucket>, b: Bucket)
    ensures Total(buckets + [b]) == Total(buckets) + b.count
  {
    assert (buckets + [b])[..|buckets|] == buckets;
  }

  /** Changing one bucket's count changes the total by the same amount. */
  lemma {:induction false} TotalUpdate(buckets: seq<Bucket>, j: nat, b: Bucket)
    requires j < |buckets|
    ensures Total(buckets[j := b]) + buckets[j].count == Total(buckets) + b.count
    decreases |buckets|
  {
    var n := |buckets| - 1;
    var u := buckets[j := b];
    assert u[..n] == if j == n then buckets[..n] else buckets[..n][j := b];
    if j < n {
      TotalUpdate(buckets[..n], j, b);
    }
  }

  /** `months[month] = (months[month] || 0) + 1`: one more comment for `key`,
      in its existing bucket, or in a new bucket of one at the end. */
  function Bump(buckets: seq<Bucket>, key: string): (r: seq<Bucket>)
    requires Distinct(Months(buckets))
    ensures Months(r) == if key in Months(buckets) then Months(buckets) else Months(buckets) + [key]
    ensures forall i :: 0 <= i < |buckets| ==>
      r[i].count == buckets[i].count + (if buckets[i].month == key then 1 else 0)
    ensures key !in Months(buckets) ==> r[|buckets|].count == 1
    ensures Total(r) == Total(buckets) + 1
  {
    assert forall i :: 0 <= i < |buckets| ==> Months(buckets)[i] == buckets[i].month;
    if key in Months(buckets) then
      var j := FirstIndex(Months(buckets), key);
      var r := buckets[j := Bucket(key, buckets[j].count + 1)];
      assert Months(r) == Months(buckets);
      TotalUpdate(buckets, j, Bucket(key, buckets[j].count + 1));
      r
    else
      var r := buckets + [Bucket(key, 1)];
      assert Months(r) == Months(buckets) + [key];
      TotalSnoc(buckets, Bucket(key, 1));
      r
  }

  /** One more key: the buckets of `p + [k]` are those of `p` bumped at `k`. */
  lemma {:induction false} GroupStep(p: seq<string>, k: string, g: seq<Bucket>)
    requires Months(g) == Dedupe(p)
    requires forall i :: 0 <= i < |g| ==> g[i].count == Count(p, g[i].month)
    requires Total(g) == |p|
    ensures Distinct(Months(g))
    ensures Months(Bump(g, k)) == Dedupe(p + [k])
    ensures forall i :: 0 <= i < |Bump(g, k)| ==> Bump(g, k)[i].count == Count(p + [k], Bump(g, k)[i].month)
    ensures Total(Bump(g, k)) == |p + [k]|
  {
    var keys := p + [k];
    assert keys[..|keys| - 1] == p;
    var r := Bump(g, k);
    forall i | 0 <= i < |r|
      ensures r[i].count == Count(keys, r[i].month)
    {
      CountSnoc(p, k, r[i].month);
      if i < |g| {
        assert r[i].month == g[i].month by { assert Months(r)[i] == Months(g)[i]; }
      } else {
        assert r[i].month == k by { assert Months(r)[i] == k; }
      }
    }
  }

  /** The `forEach` over the month keys followed by `Object.entries`. Each key
      gets one bucket, in the order keys are first seen, counting that key's
      occurrences. */
  function Group(keys: seq<string>): (r: seq<Bucket>)
    ensures Months(r) == Dedupe(keys)
    ensures forall i :: 0 <= i < |r| ==> r[i].count == Count(keys, r[i].month)
    ensures Total(r) == |keys|
  {
    if |keys| == 0 then []
    else
      var p := keys[..|keys| - 1];
      var k := keys[|keys| - 1];
      assert keys == p + [k];
      var g := Group(p);
      GroupStep(p, k, g);
      Bump(g, k)
  }

  /** `groupByMonth`: `monthOf` stands for the locale's short-month-and-year
      rendering of a comment's date. */
  function GroupByMonth(comments: seq<Comment>, monthOf: Timestamp -> string): (r: seq<Bucket>)
    ensures Months(r) == Dedupe(MonthKeys(comments, monthOf))
    ensures forall i :: 0 <= i < |r| ==> r[i].count == Count(MonthKeys(comments, monthOf), r[i].month)
    ensures Total(r) == |comments|
  {
    Group(MonthKeys(comments, monthOf))
  }

  function MonthKeys(comments: seq<Comment>, monthOf: Timestamp -> string): seq<string> {
    seq(|comments|, i requires 0 <= i < |comments| => monthOf(comments[i].date))
  }

  /** Positions of the comments whose date falls in `month`. */
  function InMonth(comments: seq<Comment>, monthOf: Timestamp -> string, month: string): set<int> {
    set i | 0 <= i < |comments| && monthOf(comments[i].date) == month
  }

  /** A bucket's count is the number of comments falling in its month, and is
      never zero. */
  lemma BucketCount(comments: seq<Comment>, monthOf: Timestamp -> string, b: Bucket)
    requires b in GroupByMonth(comments, monthOf)
    ensures b.count == |InMonth(comments, monthOf, b.month)|
    ensures b.count >= 1
  {
    var keys := MonthKeys(comments, monthOf);
    var g := Group(keys);
    var j :| 0 <= j < |g| && g[j] == b;
    assert Months(g)[j] == b.month;
    assert b.month in keys;
    CountIsIndexSet(keys, b.month);
    forall i
      ensures i in Positions(keys, b.month) <==> i in InMonth(comments, monthOf, b.month)
    {
      if 0 <= i < |comments| {
        assert keys[i] == monthOf(comments[i].date);
      }
    }
    assert Positions(keys, b.month) == InMonth(comments, monthOf, b.month);
  }

  /** Buckets follow the first appearance of their month among the comments,
      whatever the calendar order of the months. */
  lemma GroupByMonthOrder(comments: seq<Comment>, monthOf: Timestamp -> string)
    ensures forall i, j :: 0 <= i < j < |GroupByMonth(comments, monthOf)| ==>
      FirstIndex(MonthKeys(comments, monthOf), Months(GroupByMonth(comments, monthOf))[i])
        < FirstIndex(MonthKeys(comments, monthOf), Months(GroupByMonth(comments, monthOf))[j])
    ensures forall c :: c in comments ==> monthOf(c.date) in Months(GroupByMonth(comments, monthOf))
  {
    var keys := MonthKeys(comments, monthOf);
    var g := GroupByMonth(comments, monthOf);
    DedupeOrder(keys);
    forall c | c in comments
      ensures monthOf(c.date) in Months(g)
    {
      var i :| 0 <= i < |comments| && comments[i] == c;
      assert keys[i] == monthOf(c.date);
    }
  }

  /** Three comments of one month make one bucket of three. */
  lemma OneMonthExample(a: string)
    ensures Group([a, a, a]) == [Bucket(a, 3)]
  {
    var keys := [a, a, a];
    assert keys[..2] == [a, a] && [a, a][..1] == [a] && [a][..0] == [];
    assert Dedupe(keys) == [a];
    assert Count(keys, a) == 3;
    var r := Group(keys);
    assert Months(r) == [a];
    assert r[0] == Bucket(a, 3);
  }

  /** Months seen in the order A, B, A make the buckets A then B, counting two
      and one. */
  lemma TwoMonthsExample(a: string, b: string)
    requires a != b
    ensures Group([a, b, a]) == [Bucket(a, 2), Bucket(b, 1)]
  {
    var keys := [a, b, a];
    assert keys[..2] == [a, b] && [a, b][..1] == [a] && [a][..0] == [];
    assert Dedupe([a]) == [a];
    assert Dedupe([a, b]) == [a, b];
    assert Dedupe(keys) == [a, b];
    assert Count(keys, a) == 2 && Count(keys, b) == 1;
    var r := Group(keys);
    assert Months(r) == [a, b];
    assert r[0] == Bucket(a, 2) && r[1] == Bucket(b, 1);
  }

  /** One bar of the "Sentiment Distribution" chart. */
  datatype Entry = Entry(name: string, value: nat, percentage: real, fill: string)

  /** The sentiment strings of the comments, in order. */
  function Labels(comments: seq<Comment>): seq<string> {
    seq(|comments|, i requires 0 <= i < |comments| => comments[i].sentiment)
  }

  /** `comments.filter(c => c.sentiment === wanted).length`: the number of
      comments carrying the sentiment `wanted`. */
  function CountLabel(comments: seq<Comment>, wanted: string): (n: nat)
    ensures n == |WithLabel(comments, wanted)|
    ensures n <= |comments|
  {
    LabelCountIsSize(comments, wanted);
    Count(Labels(comments), wanted)
  }

  /** Positions of the comments carrying the sentiment `wanted`. */
  function WithLabel(comments: seq<Comment>, wanted: string): set<int> {
    set i | 0 <= i < |comments| && comments[i].sentiment == wanted
  }

  /** Counting a label in the label list counts the comments carrying it. */
  lemma LabelCountIsSize(comments: seq<Comment>, wanted: string)
    ensures Count(Labels(comments), wanted) == |WithLabel(comments, wanted)|
    ensures Count(Labels(comments), wanted) <= |comments|
  {
    var labels := Labels(comments);
    CountIsIndexSet(labels, wanted);
    var positions := Positions(labels, wanted);
    forall i
      ensures i in positions <==> i in WithLabel(comments, wanted)
    {
      if 0 <= i < |comments| {
        assert labels[i] == comments[i].sentiment;
      }
    }
    assert Count(labels, wanted) == |positions|;
    assert positions == WithLabel(comments, wanted);
  }

  /** `p` is `count` as a percentage of `total`: p times total is count times 100. */
  predicate IsShare(p: real, count: nat, total: nat) {
    p * (total as real) == (count as real) * 100.0
  }

  /** `count / total * 100`, or 0 when there are no comments. */
  function Percentage(count: nat, total: nat): (p: real)
    requires count <= total
    ensures 0.0 <= p <= 100.0
    ensures total == 0 ==> p == 0.0
    ensures IsShare(p, count, total)
  {
    if total > 0 then count as real / total as real * 100.0 else 0.0
  }

  /** The three label counts never exceed the number of labels together,
      and reach it exactly when every label is a known one. */
  lemma {:induction false} KnownLabelCounts(labels: seq<string>)
    ensures Count(labels, "agree") + Count(labels, "disagree") + Count(labels, "neutral") <= |labels|
    ensures (forall i :: 0 <= i < |labels| ==> IsKnownLabel(labels[i]))
      <==> Count(labels, "agree") + Count(labels, "disagree") + Count(labels, "neutral") == |labels|
  {
    if |labels| > 0 {
      var p := labels[..|labels| - 1];
      var x := labels[|labels| - 1];
      assert labels == p + [x];
      KnownLabelCounts(p);
      CountSnoc(p, x, "agree");
      CountSnoc(p, x, "disagree");
      CountSnoc(p, x, "neutral");
      assert (forall i :: 0 <= i < |labels| ==> IsKnownLabel(labels[i]))
        <==> (forall i :: 0 <= i < |p| ==> IsKnownLabel(p[i])) && IsKnownLabel(x);
    }
  }

  /** `getSentimentDistribution`: the Agree, Disagree and Neutral bars, always
      three and in that order, each with its comment count and a share between
      0 and 100 that is 0 for every bar when there are no comments. */
  function Distribution(comments: seq<Comment>): (r: seq<Entry>)
    ensures |r| == 3
    ensures r[0].name == "Agree" && r[1].name == "Disagree" && r[2].name == "Neutral"
    ensures r[0].value + r[1].value + r[2].value <= |comments|
    ensures forall k :: 0 <= k < 3 ==> 0.0 <= r[k].percentage <= 100.0
    ensures |comments| == 0 ==> r[0].percentage == r[1].percentage == r[2].percentage == 0.0
    ensures forall k :: 0 <= k < 3 ==>
      r[k].value <= |comments| && IsShare(r[k].percentage, r[k].value, |comments|)
  {
    var total := |comments|;
    var agree := CountLabel(comments, "agree");
    var disagree := CountLabel(comments, "disagree");
    var neutral := CountLabel(comments, "neutral");
    KnownLabelCounts(Labels(comments));
    [ Entry("Agree", agree, Percentage(agree, total), "#10b981"),
      Entry("Disagree", disagree, Percentage(disagree, total), "#ef4444"),
      Entry("Neutral", neutral, Percentage(neutral, total), "#64748b") ]
  }

  /** Each bar's value is the number of comments carrying its label. */
  lemma DistributionValues(comments: seq<Comment>)
    ensures Distribution(comments)[0].value == |WithLabel(comments, "agree")|
    ensures Distribution(comments)[1].value == |WithLabel(comments, "disagree")|
    ensures Distribution(comments)[2].value == |WithLabel(comments, "neutral")|
  {
  }

  /** With at least one comment and only known labels, the bar values add up
      to the number of comments and the percentages to 100. */
  lemma DistributionSums(comments: seq<Comment>)
    requires |comments| > 0
    requires forall c :: c in comments ==> IsKnownLabel(c.sentiment)
    ensures Distribution(comments)[0].value + Distribution(comments)[1].value
      + Distribution(comments)[2].value == |comments|
    ensures Distribution(comments)[0].percentage + Distribution(comments)[1].percentage
      + Distribution(comments)[2].percentage == 100.0
  {
    var labels := Labels(comments);
    forall i | 0 <= i < |labels|
      ensures IsKnownLabel(labels[i])
    {
      assert comments[i] in comments;
    }
    KnownLabelCounts(labels);
    var r := Distribution(comments);
    SharesSum(r[0].value, r[1].value, r[2].value);
  }

  /** When every label is "agree" or "neutral", as the server writes them,
      the Disagree bar is empty and, with at least one comment, the other two
      bars add up to all comments and their percentages to 100. */
  lemma AgreeOrNeutralOnly(comments: seq<Comment>)
    requires forall c :: c in comments ==> c.sentiment in {"agree", "neutral"}
    ensures Distribution(comments)[1].value == 0
    ensures |comments| > 0 ==>
      && Distribution(comments)[0].value + Distribution(comments)[2].value == |comments|
      && Distribution(comments)[0].percentage + Distribution(comments)[2].percentage == 100.0
  {
    var labels := Labels(comments);
    assert "disagree" !in labels by {
      forall i | 0 <= i < |labels|
        ensures labels[i] != "disagree"
      {
        assert comments[i] in comments;
      }
    }
    if |comments| > 0 {
      DistributionSums(comments);
    }
  }

  /** Three counts' shares of their sum add up to 100. */
  lemma SharesSum(a: nat, d: nat, n: nat)
    requires a + d + n > 0
    ensures Percentage(a, a + d + n) + Percentage(d, a + d + n) + Percentage(n, a + d + n) == 100.0
  {
    var t := (a + d + n) as real;
    var x, y, z := a as real / t, d as real / t, n as real / t;
    assert x + y + z == (a as real + d as real + n as real) / t;
    assert x + y + z == 1.0;
  }

  /** The four stat cards: total, agrees, disagrees and neutrals. */
  datatype Cards = Cards(total: nat, agrees: nat, disagrees: nat, neutrals: nat)

  /** The cards count with the same label filters as the distribution chart,
      so each card shows the value of its bar. */
  function StatCards(analysis: Analysis): (r: Cards)
    ensures r.total == |analysis.comments|
    ensures r.agrees == Distribution(analysis.comments)[0].value
    ensures r.disagrees == Distribution(analysis.comments)[1].value
    ensures r.neutrals == Distribution(analysis.comments)[2].value
  {
    var cs := analysis.comments;
    Cards(|cs|, CountLabel(cs, "agree"), CountLabel(cs, "disagree"), CountLabel(cs, "neutral"))
  }
}
