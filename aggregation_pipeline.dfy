/** pipelines/aggregation_pipeline.py: the statistics a report is written
    from: the average sentiment score, the share of clearly negative
    comments, the five most frequent topics and the number of comments. */
module AggregationPipeline {
  import opened PyValues
  import opened SentimentPipeline
  import opened Counter

  /** A score below this counts as negative. */
  const NegativeThreshold: real := -0.2

  /** How many topics `most_common` is asked for. */
  const TopTopicLimit: nat := 5

  /** The dictionary `run` returns; `total_comments` is absent (`None`) when
      there are no comments. */
  datatype Stats = Stats(
    avgSentiment: real, negativeRatio: real, topTopics: seq<(string, nat)>, totalComments: Option<nat>)

  /** `[c["sentiment"]["score"] for c in processed_comments]`. */
  function Scores(ps: seq<Processed>): seq<real>
  {
    seq(|ps|, i requires 0 <= i < |ps| => ps[i].sentiment.score)
  }

  /** `[c["topic"] for c in processed_comments]`. */
  function Topics(ps: seq<Processed>): seq<string>
  {
    seq(|ps|, i requires 0 <= i < |ps| => ps[i].topic)
  }

  /** `sum(xs)`. */
  function Sum(xs: seq<real>): real
  {
    if xs == [] then 0.0 else Sum(xs[..|xs| - 1]) + xs[|xs| - 1]
  }

  /** `len([s for s in xs if s < -0.2])`. */
  function CountNegative(xs: seq<real>): (n: nat)
    ensures n <= |xs|
  {
    if xs == [] then 0
    else CountNegative(xs[..|xs| - 1]) + (if xs[|xs| - 1] < NegativeThreshold then 1 else 0)
  }

  /** `sum(scores) / len(scores)`, and 0 for no comments. */
  function AverageScore(ps: seq<Processed>): real
  {
    if ps == [] then 0.0 else Sum(Scores(ps)) / |ps| as real
  }

  /** `negative_count / len(scores)`, and 0 for no comments. */
  function NegativeRatio(ps: seq<Processed>): real
  {
    if ps == [] then 0.0 else CountNegative(Scores(ps)) as real / |ps| as real
  }

  /** `Counter(topics).most_common(5)`, and no topics for no comments. */
  function TopTopics(ps: seq<Processed>): seq<(string, nat)>
  {
    if ps == [] then [] else MostCommon(Topics(ps), TopTopicLimit)
  }

  /** `run(processed_comments)`. */
  function Aggregate(ps: seq<Processed>): Stats
  {
    if ps == [] then Stats(0.0, 0.0, [], None)
    else Stats(AverageScore(ps), NegativeRatio(ps), TopTopics(ps), Some(|ps|))
  }

  /** The negative count is the number of positions holding a score below
      the threshold. */
  lemma {:induction false} CountNegativeIsIndexCount(xs: seq<real>)
    ensures CountNegative(xs) == |set i | 0 <= i < |xs| && xs[i] < NegativeThreshold|
  {
    var all := set i | 0 <= i < |xs| && xs[i] < NegativeThreshold;
    if xs == [] {
      assert all == {};
    } else {
      var n := |xs| - 1;
      var front := xs[..n];
      CountNegativeIsIndexCount(front);
      var before := set i | 0 <= i < n && front[i] < NegativeThreshold;
      if xs[n] < NegativeThreshold {
        assert all == before + {n};
      } else {
        assert all == before;
      }
    }
  }

  /** No score is negative exactly when the count is 0, and every score is
      exactly when the count is the length. */
  lemma {:induction false} CountNegativeExtremes(xs: seq<real>)
    ensures CountNegative(xs) == 0 <==> forall i :: 0 <= i < |xs| ==> xs[i] >= NegativeThreshold
    ensures CountNegative(xs) == |xs| <==> forall i :: 0 <= i < |xs| ==> xs[i] < NegativeThreshold
  {
    if xs != [] {
      var n := |xs| - 1;
      CountNegativeExtremes(xs[..n]);
      assert forall i :: 0 <= i < n ==> xs[..n][i] == xs[i];
    }
  }

  /** Bounds on every element bound the sum. */
  lemma {:induction false} SumBounds(xs: seq<real>, lo: real, hi: real)
    requires forall i :: 0 <= i < |xs| ==> lo <= xs[i] <= hi
    ensures |xs| as real * lo <= Sum(xs) <= |xs| as real * hi
  {
    if xs != [] {
      var n := |xs| - 1;
      assert forall i :: 0 <= i < n ==> xs[..n][i] == xs[i];
      SumBounds(xs[..n], lo, hi);
      assert |xs| as real * lo == n as real * lo + lo;
      assert |xs| as real * hi == n as real * hi + hi;
    }
  }

  /** With no comments the statistics are 0, 0 and no topics, and the comment
      count is left out; with comments, the count is their number. */
  lemma AggregateEmpty(ps: seq<Processed>)
    ensures Aggregate(ps).totalComments.None? <==> ps == []
    ensures ps == [] ==> Aggregate(ps).avgSentiment == 0.0 && Aggregate(ps).negativeRatio == 0.0 && Aggregate(ps).topTopics == []
    ensures ps != [] ==> Aggregate(ps).totalComments == Some(|ps|)
    ensures Aggregate(ps).avgSentiment == AverageScore(ps) && Aggregate(ps).negativeRatio == NegativeRatio(ps)
    ensures Aggregate(ps).topTopics == TopTopics(ps)
  {
  }

  /** A count out of a positive total, as a fraction. */
  lemma Fraction(c: nat, n: nat)
    requires 0 < n && c <= n
    ensures (c as real / n as real) * n as real == c as real
    ensures 0.0 <= c as real / n as real <= 1.0
    ensures c as real / n as real == 0.0 <==> c == 0
    ensures c as real / n as real == 1.0 <==> c == n
  {
    var q := c as real / n as real;
    assert q * n as real == c as real;
  }

  /** The negative ratio times the number of comments is the number of
      comments scored below -0.2. */
  lemma NegativeRatioCounts(ps: seq<Processed>)
    requires ps != []
    ensures NegativeRatio(ps) * |ps| as real == |set i | 0 <= i < |ps| && ps[i].sentiment.score < NegativeThreshold| as real
  {
    var scores := Scores(ps);
    CountNegativeIsIndexCount(scores);
    assert (set i | 0 <= i < |ps| && ps[i].sentiment.score < NegativeThreshold)
        == (set i | 0 <= i < |scores| && scores[i] < NegativeThreshold);
    Fraction(CountNegative(scores), |ps|);
  }

  /** The negative ratio lies in [0, 1]; it is 0 exactly when no comment is
      scored below -0.2, and 1 exactly when there are comments and all are. */
  lemma NegativeRatioRange(ps: seq<Processed>)
    ensures 0.0 <= NegativeRatio(ps) <= 1.0
    ensures NegativeRatio(ps) == 0.0 <==> forall i :: 0 <= i < |ps| ==> ps[i].sentiment.score >= NegativeThreshold
    ensures NegativeRatio(ps) == 1.0 <==> ps != [] && forall i :: 0 <= i < |ps| ==> ps[i].sentiment.score < NegativeThreshold
  {
    if ps != [] {
      var scores := Scores(ps);
      assert forall i :: 0 <= i < |ps| ==> scores[i] == ps[i].sentiment.score;
      CountNegativeExtremes(scores);
      Fraction(CountNegative(scores), |ps|);
    }
  }

  /** The average lies within any bounds every score lies within; in
      particular it is in [-1, 1] when every score is. */
  lemma AverageWithinBounds(ps: seq<Processed>, lo: real, hi: real)
    requires ps != []
    requires forall i :: 0 <= i < |ps| ==> lo <= ps[i].sentiment.score <= hi
    ensures lo <= AverageScore(ps) <= hi
  {
    var scores := Scores(ps);
    SumBounds(scores, lo, hi);
    QuotientBounds(Sum(scores), |ps| as real, lo, hi);
  }

  /** Helper: dividing a total between `n` times the bounds by `n`. */
  lemma QuotientBounds(total: real, n: real, lo: real, hi: real)
    requires n > 0.0 && n * lo <= total <= n * hi
    ensures lo <= total / n <= hi
  {
    assert total / n - lo == (total - n * lo) / n;
    assert hi - total / n == (n * hi - total) / n;
  }

  /** A topic's count is the number of comments carrying it. */
  lemma {:induction false} CountIsOccurrences(xs: seq<string>, x: string)
    ensures multiset(xs)[x] == |set j | 0 <= j < |xs| && xs[j] == x|
  {
    var all := set j | 0 <= j < |xs| && xs[j] == x;
    if xs == [] {
      assert all == {};
    } else {
      var n := |xs| - 1;
      var front := xs[..n];
      assert xs == front + [xs[n]];
      CountIsOccurrences(front, x);
      var before := set j | 0 <= j < n && front[j] == x;
      if xs[n] == x {
        assert all == before + {n};
      } else {
        assert all == before;
      }
    }
  }

  /** At most five topics are listed, each a comment's topic with the number
      of comments carrying it. */
  lemma TopTopicsCounts(ps: seq<Processed>)
    ensures |TopTopics(ps)| <= TopTopicLimit
    ensures forall i :: 0 <= i < |TopTopics(ps)| ==>
      && (exists j :: 0 <= j < |ps| && ps[j].topic == TopTopics(ps)[i].0)
      && TopTopics(ps)[i].1 == |set j | 0 <= j < |ps| && ps[j].topic == TopTopics(ps)[i].0|
  {
    if ps != [] {
      var xs := Topics(ps);
      var top := TopTopics(ps);
      MostCommonItems(xs, TopTopicLimit);
      forall i | 0 <= i < |top|
        ensures (exists j :: 0 <= j < |ps| && ps[j].topic == top[i].0)
        ensures top[i].1 == |set j | 0 <= j < |ps| && ps[j].topic == top[i].0|
      {
        var t := top[i].0;
        CountIsOccurrences(xs, t);
        assert (set j | 0 <= j < |ps| && ps[j].topic == t) == (set j | 0 <= j < |xs| && xs[j] == t);
        var j :| 0 <= j < |xs| && xs[j] == t;
        assert ps[j].topic == t;
      }
    }
  }

  /** No topic is listed twice, and the counts never increase, equal counts
      appearing in the order their topics first appear among the comments. */
  lemma TopTopicsOrder(ps: seq<Processed>)
    ensures forall i, j :: 0 <= i < j < |TopTopics(ps)| ==>
      && TopTopics(ps)[i].0 != TopTopics(ps)[j].0
      && (|| TopTopics(ps)[i].1 > TopTopics(ps)[j].1
          || (&& TopTopics(ps)[i].1 == TopTopics(ps)[j].1
              && FirstIndex(Topics(ps), TopTopics(ps)[i].0) < FirstIndex(Topics(ps), TopTopics(ps)[j].0)))
  {
    if ps != [] {
      MostCommonItems(Topics(ps), TopTopicLimit);
      MostCommonOrder(Topics(ps), TopTopicLimit);
    }
  }

  /** With at most five distinct topics, every comment's topic is listed. */
  lemma TopTopicsCovers(ps: seq<Processed>)
    ensures |Distinct(Topics(ps))| <= TopTopicLimit ==>
      forall j :: 0 <= j < |ps| ==> exists i :: 0 <= i < |TopTopics(ps)| && TopTopics(ps)[i].0 == ps[j].topic
  {
    var top := TopTopics(ps);
    if ps != [] && |Distinct(Topics(ps))| <= TopTopicLimit {
      var xs := Topics(ps);
      forall j | 0 <= j < |ps|
        ensures exists i :: 0 <= i < |top| && top[i].0 == ps[j].topic
      {
        assert xs[j] in xs;
        MostCommonCovers(xs, TopTopicLimit, xs[j]);
      }
    }
  }

  /** A topic left out is carried by fewer comments than every listed topic,
      or by as many but first appears later. */
  lemma TopTopicsLeftOut(ps: seq<Processed>, j: nat)
    requires j < |ps|
    requires forall i :: 0 <= i < |TopTopics(ps)| ==> TopTopics(ps)[i].0 != Topics(ps)[j]
    ensures forall i :: 0 <= i < |TopTopics(ps)| ==>
      || multiset(Topics(ps))[Topics(ps)[j]] < TopTopics(ps)[i].1
      || (&& multiset(Topics(ps))[Topics(ps)[j]] == TopTopics(ps)[i].1
          && FirstIndex(Topics(ps), TopTopics(ps)[i].0) < FirstIndex(Topics(ps), Topics(ps)[j]))
  {
    var xs := Topics(ps);
    var t := xs[j];
    assert TopTopics(ps) == MostCommon(xs, TopTopicLimit);
    assert t in xs;
    MostCommonLeftOut(xs, TopTopicLimit, t);
  }
}
