/** pipelines/report_pipeline.py: the brand health score, the report text
    asked of the language model, and the final output dictionary.
    `generate` is `GeminiClient.generate_content` and `reportPrompt` is
    `REPORT_GENERATION_PROMPT.format(...)`, both parameters here. */
module ReportPipeline {
  import opened PyValues
  import opened PyText
  import opened SentimentPipeline
  import opened AggregationPipeline

  /** The collaborators a `ReportPipeline` holds: the model call and the
      prompt template (brand, goal, average, negative ratio, topic list). */
  datatype ReportServices = ReportServices(
    generate: string -> string, reportPrompt: (string, string, real, real, string) -> string)

  /** Python's `int(x)` on a float: the integer part, rounding toward zero. */
  function Trunc(x: real): (r: int)
    ensures x >= 0.0 ==> r as real <= x < r as real + 1.0
    ensures x < 0.0 ==> r as real - 1.0 < x <= r as real
  {
    if x >= 0.0 then x.Floor else -((-x).Floor)
  }

  /** `max(0, min(100, n))`. */
  function Clamp(n: int): (r: int)
    ensures 0 <= r <= 100
    ensures 0 <= n <= 100 ==> r == n
    ensures n < 0 ==> r == 0
    ensures n > 100 ==> r == 100
  {
    if n > 100 then 100 else if n < 0 then 0 else n
  }

  /** `100 - (negative_ratio * 60) + (avg_sentiment * 40)`. */
  function RawHealth(avgSentiment: real, negativeRatio: real): real
  {
    100.0 - negativeRatio * 60.0 + avgSentiment * 40.0
  }

  /** `calculate_brand_health(avg_sentiment, negative_ratio)`. */
  function BrandHealth(avgSentiment: real, negativeRatio: real): int
  {
    Clamp(Trunc(RawHealth(avgSentiment, negativeRatio)))
  }

  /** The score is always between 0 and 100. */
  lemma BrandHealthRange(avgSentiment: real, negativeRatio: real)
    ensures 0 <= BrandHealth(avgSentiment, negativeRatio) <= 100
  {
  }

  /** The best possible statistics give 100 (the raw value 140 is capped),
      the worst give 0, and neutral statistics with no negatives give 100. */
  lemma BrandHealthExamples()
    ensures RawHealth(1.0, 0.0) == 140.0 && BrandHealth(1.0, 0.0) == 100
    ensures RawHealth(-1.0, 1.0) == 0.0 && BrandHealth(-1.0, 1.0) == 0
    ensures BrandHealth(0.0, 0.0) == 100
    ensures BrandHealth(0.0, 1.0) == 40
    ensures BrandHealth(-0.5, 0.5) == 50
  {
  }

  /** Truncation never decreases when its argument grows. */
  lemma TruncMonotone(x: real, y: real)
    requires x <= y
    ensures Trunc(x) <= Trunc(y)
  {
  }

  /** A higher average or a lower negative ratio never lowers the score. */
  lemma BrandHealthMonotone(avg1: real, neg1: real, avg2: real, neg2: real)
    requires avg1 <= avg2 && neg2 <= neg1
    ensures BrandHealth(avg1, neg1) <= BrandHealth(avg2, neg2)
  {
    assert RawHealth(avg1, neg1) <= RawHealth(avg2, neg2);
    TruncMonotone(RawHealth(avg1, neg1), RawHealth(avg2, neg2));
  }

  /** Rounding toward zero and rounding down differ only below 0, where the
      clamp gives 0 either way: the score is `Clamp(floor(raw))`. */
  lemma TruncOrFloorAgree(avgSentiment: real, negativeRatio: real)
    ensures BrandHealth(avgSentiment, negativeRatio) == Clamp(RawHealth(avgSentiment, negativeRatio).Floor)
  {
  }

  /** With the average in [-1, 1] and the ratio in [0, 1], the raw value is in
      [0, 140], so only the upper cap can act. */
  lemma BoundedStatsNeedOnlyTheCap(avgSentiment: real, negativeRatio: real)
    requires -1.0 <= avgSentiment <= 1.0 && 0.0 <= negativeRatio <= 1.0
    ensures 0.0 <= RawHealth(avgSentiment, negativeRatio) <= 140.0
    ensures BrandHealth(avgSentiment, negativeRatio) ==
      if RawHealth(avgSentiment, negativeRatio) >= 100.0 then 100 else RawHealth(avgSentiment, negativeRatio).Floor
  {
  }

  /** For any comments scored in [-1, 1], the score computed from their
      statistics needs only the upper cap. */
  lemma HealthOfComments(ps: seq<Processed>)
    requires ps != []
    requires forall i :: 0 <= i < |ps| ==> -1.0 <= ps[i].sentiment.score <= 1.0
    ensures 0.0 <= RawHealth(AverageScore(ps), NegativeRatio(ps)) <= 140.0
  {
    AverageWithinBounds(ps, -1.0, 1.0);
    NegativeRatioRange(ps);
    BoundedStatsNeedOnlyTheCap(AverageScore(ps), NegativeRatio(ps));
  }

  /** `f"{t[0]} ({t[1]})"`. */
  function TopicEntry(t: (string, nat)): string
  {
    t.0 + " (" + NatToString(t.1) + ")"
  }

  /** The entries of all topics. */
  function TopicEntries(top: seq<(string, nat)>): seq<string>
  {
    seq(|top|, i requires 0 <= i < |top| => TopicEntry(top[i]))
  }

  /** `", ".join(f"{t[0]} ({t[1]})" for t in stats['top_topics'])`. */
  function TopTopicsStr(top: seq<(string, nat)>): string
  {
    JoinWith(TopicEntries(top), ", ")
  }

  /** No topics give the empty string, one topic gives its entry, and each
      further topic adds ", " and its entry. */
  lemma TopTopicsStrShape(top: seq<(string, nat)>, t: (string, nat))
    ensures TopTopicsStr([]) == ""
    ensures TopTopicsStr([t]) == TopicEntry(t)
    ensures top != [] ==> TopTopicsStr(top + [t]) == TopTopicsStr(top) + ", " + TopicEntry(t)
  {
    assert TopicEntries([t]) == [TopicEntry(t)];
    if top != [] {
      JoinAppend(TopicEntries(top), TopicEntry(t), ", ");
      assert TopicEntries(top + [t]) == TopicEntries(top) + [TopicEntry(t)];
    }
  }

  /** Joining a list with one more part adds the separator and that part. */
  lemma {:induction false} JoinAppend(parts: seq<string>, p: string, sep: string)
    requires parts != []
    ensures JoinWith(parts + [p], sep) == JoinWith(parts, sep) + sep + p
  {
    if |parts| == 1 {
      assert parts + [p] == [parts[0]] + [p];
      JoinCons(parts[0], [p], sep);
    } else {
      var rest := parts[1..];
      assert parts + [p] == [parts[0]] + (rest + [p]);
      JoinCons(parts[0], rest + [p], sep);
      JoinAppend(rest, p, sep);
      assert parts == [parts[0]] + rest;
      JoinCons(parts[0], rest, sep);
    }
  }

  /** An entry holds a comma only if its topic does: the count is digits. */
  lemma NoCommaInEntry(t: (string, nat))
    requires ',' !in t.0
    ensures ',' !in TopicEntry(t) && ',' !in " " + TopicEntry(t)
  {
    var d := NatToString(t.1);
    assert ',' !in d;
    assert TopicEntry(t) == t.0 + " (" + d + ")";
  }

  /** Each part with a space in front. */
  function Prefixed(parts: seq<string>): seq<string>
  {
    seq(|parts|, i requires 0 <= i < |parts| => " " + parts[i])
  }

  /** `", ".join(parts)` is the comma-join of the parts, each after the first
      preceded by a space. */
  lemma {:induction false} JoinSpaced(parts: seq<string>)
    requires parts != []
    ensures JoinWith(parts, ", ") == JoinWith([parts[0]] + Prefixed(parts[1..]), ",")
  {
    if |parts| > 1 {
      var rest := parts[1..];
      JoinSpaced(rest);
      var tail := Prefixed(rest[1..]);
      assert Prefixed(rest) == [" " + rest[0]] + tail;
      JoinCons(parts[0], rest, ", ");
      JoinCons(parts[0], Prefixed(rest), ",");
      if tail != [] {
        JoinCons(" " + rest[0], tail, ",");
        JoinCons(rest[0], tail, ",");
      }
    }
  }

  /** The entries as the comma split sees them: the first as is, every
      later one after its space. */
  function SpacedEntries(top: seq<(string, nat)>): (r: seq<string>)
    requires top != []
    ensures |r| == |top|
    ensures r[0] == TopicEntry(top[0])
    ensures forall i :: 1 <= i < |top| ==> r[i] == " " + TopicEntry(top[i])
  {
    var entries := TopicEntries(top);
    var r := [entries[0]] + Prefixed(entries[1..]);
    assert forall i :: 1 <= i < |top| ==> r[i] == Prefixed(entries[1..])[i - 1];
    r
  }

  /** No spaced entry holds a comma when no topic does. */
  lemma SpacedEntriesNoComma(top: seq<(string, nat)>)
    requires top != []
    requires forall i :: 0 <= i < |top| ==> ',' !in top[i].0
    ensures forall p :: p in SpacedEntries(top) ==> ',' !in p
  {
    var pieces := SpacedEntries(top);
    forall k | 0 <= k < |pieces|
      ensures ',' !in pieces[k]
    {
      NoCommaInEntry(top[k]);
    }
  }

  /** When no topic holds a comma, splitting the topic string at commas gives
      back the entries, each after the first with its leading space. */
  lemma TopTopicsStrSplits(top: seq<(string, nat)>)
    requires top != []
    requires forall i :: 0 <= i < |top| ==> ',' !in top[i].0
    ensures |SplitOn(TopTopicsStr(top), ',')| == |top|
    ensures SplitOn(TopTopicsStr(top), ',')[0] == TopicEntry(top[0])
    ensures forall i :: 1 <= i < |top| ==> SplitOn(TopTopicsStr(top), ',')[i] == " " + TopicEntry(top[i])
  {
    var entries := TopicEntries(top);
    var pieces := SpacedEntries(top);
    JoinSpaced(entries);
    assert pieces == [entries[0]] + Prefixed(entries[1..]);
    SpacedEntriesNoComma(top);
    SplitJoin(pieces, ',');
  }

  /** `generate_report(brand, company_goal, stats)`. */
  function GenerateReport(brand: string, goal: string, stats: Stats, svc: ReportServices): map<string, Json>
  {
    var prompt := svc.reportPrompt(brand, goal, stats.avgSentiment, stats.negativeRatio, TopTopicsStr(stats.topTopics));
    map["report_markdown" := JStr(svc.generate(prompt))]
  }

  /** `run(brand, goal, stats)`. */
  function Run(brand: string, goal: string, stats: Stats, svc: ReportServices): map<string, Json>
  {
    var report := GenerateReport(brand, goal, stats, svc);
    map[
      "brand_health_score" := JInt(BrandHealth(stats.avgSentiment, stats.negativeRatio)),
      "report_markdown" := PyValues.Get(report, "report_markdown", JStr("")),
      "sentiment_overview" := JObj(map[
        "average_score" := JFloat(Round3(stats.avgSentiment)),
        "negative_ratio" := JFloat(Round3(stats.negativeRatio))])]
  }

  /** The output has exactly three keys, and no `executive_summary`. */
  lemma RunKeys(brand: string, goal: string, stats: Stats, svc: ReportServices)
    ensures Run(brand, goal, stats, svc).Keys == {"brand_health_score", "report_markdown", "sentiment_overview"}
    ensures "executive_summary" !in Run(brand, goal, stats, svc)
  {
  }

  /** The score is a whole number between 0 and 100 computed from the average
      and the negative ratio; the report is the model's answer to the prompt
      built from the statistics (the "" default is never used); the overview
      holds both statistics rounded to three places. */
  lemma RunFields(brand: string, goal: string, stats: Stats, svc: ReportServices)
    ensures var out := Run(brand, goal, stats, svc);
      && out["brand_health_score"].JInt?
      && 0 <= out["brand_health_score"].i <= 100
      && out["brand_health_score"].i == BrandHealth(stats.avgSentiment, stats.negativeRatio)
      && out["report_markdown"] == JStr(svc.generate(svc.reportPrompt(
           brand, goal, stats.avgSentiment, stats.negativeRatio, TopTopicsStr(stats.topTopics))))
      && out["sentiment_overview"].JObj?
      && out["sentiment_overview"].fields.Keys == {"average_score", "negative_ratio"}
      && out["sentiment_overview"].fields["average_score"].JFloat?
      && -0.0005 <= out["sentiment_overview"].fields["average_score"].f - stats.avgSentiment <= 0.0005
      && out["sentiment_overview"].fields["negative_ratio"].JFloat?
      && -0.0005 <= out["sentiment_overview"].fields["negative_ratio"].f - stats.negativeRatio <= 0.0005
  {
    Round3Close(stats.avgSentiment);
    Round3Close(stats.negativeRatio);
  }

  /** The prompt, and so the report, depends on the statistics only through
      the average, the ratio and the topic string. */
  lemma ReportDependsOnSummary(brand: string, goal: string, s: Stats, t: Stats, svc: ReportServices)
    requires s.avgSentiment == t.avgSentiment && s.negativeRatio == t.negativeRatio
    requires TopTopicsStr(s.topTopics) == TopTopicsStr(t.topTopics)
    ensures Run(brand, goal, s, svc) == Run(brand, goal, t, svc)
  {
  }
}
