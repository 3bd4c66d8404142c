/**
 * `updateAnalysis`: the analysis object rebuilt from both populations after
 * every submission. The two clock readings it takes (`toLocaleString` for
 * the summary and `toISOString` for the object) are parameters.
 */
module Analysis {
  import opened JsValue
  import opened Buckets
  import opened StableSort
  import opened Grouping
  import opened Statistics
  import opened Features
  import opened Satisfaction
  import opened Insights

  datatype Summary = Summary(
    totalParticipants: nat,
    studentCount: nat,
    professorCount: nat,
    completionRate: string,
    averageTime: string,
    lastUpdate: string)

  datatype Charts = Charts(
    satisfactionLevels: seq<(string, int)>,
    featureRankings: seq<(string, int)>,
    byMajor: seq<(string, int)>,
    byExperience: seq<(string, int)>)

  datatype Report = Report(summary: Summary, charts: Charts, insights: seq<string>, lastUpdated: string)

  /** The analysis object as a specification; every statistic except the
      insights is taken over `[...students, ...professors]`. */
  function ReportOf(students: seq<Record>, professors: seq<Record>, localTime: string, isoTime: string): Report {
    var all := students + professors;
    Report(
      Summary(|all|, |students|, |professors|, RateText(all), TimeText(all), localTime),
      Charts(Satisfaction.Satisfaction(all), Ranking(all), Tally(GroupKeys(all, "major")), Tally(GroupKeys(all, "teachingExperience"))),
      Insights.Insights(students, professors),
      isoTime)
  }

  method UpdateAnalysis(students: seq<Record>, professors: seq<Record>, localTime: string, isoTime: string)
    returns (report: Report)
    ensures report == ReportOf(students, professors, localTime, isoTime)
  {
    var all := students + professors;
    var summary := Summary(|all|, |students|, |professors|, RateText(all), TimeText(all), localTime);
    var levels := CalculateSatisfaction(all);
    var rankings := RankFeatures(all);
    var byMajor := GroupBy(all, "major");
    var byExperience := GroupBy(all, "teachingExperience");
    var insights := GenerateInsights(students, professors);
    report := Report(summary, Charts(levels, rankings, byMajor, byExperience), insights, isoTime);
  }

  /** The two clock readings are recorded where they were taken. */
  lemma {:induction false} ReportClocks(students: seq<Record>, professors: seq<Record>, localTime: string, isoTime: string)
    ensures ReportOf(students, professors, localTime, isoTime).summary.lastUpdate == localTime
    ensures ReportOf(students, professors, localTime, isoTime).lastUpdated == isoTime
  {
  }

  /** The counts of the summary and of the two histograms agree: every
      response is counted once in each histogram, under the label its field
      gives; the histograms have distinct labels; at most ten features are
      ranked, best first; only the ten rating labels are reported; and there
      is always at least one insight. */
  lemma {:induction false} ReportFacts(students: seq<Record>, professors: seq<Record>, localTime: string, isoTime: string)
    ensures var r := ReportOf(students, professors, localTime, isoTime); var all := students + professors;
      r.summary.totalParticipants == r.summary.studentCount + r.summary.professorCount &&
      Total(r.charts.byMajor) == r.summary.totalParticipants &&
      Total(r.charts.byExperience) == r.summary.totalParticipants &&
      DistinctKeys(r.charts.byMajor) && DistinctKeys(r.charts.byExperience) &&
      (forall k :: CountOf(r.charts.byMajor, k) == Occurrences(GroupKeys(all, "major"), k)) &&
      (forall k :: CountOf(r.charts.byExperience, k) == Occurrences(GroupKeys(all, "teachingExperience"), k)) &&
      |r.charts.featureRankings| <= 10 && SortedDesc(r.charts.featureRankings) &&
      (forall k :: HasKey(r.charts.satisfactionLevels, k) ==> k in Levels) &&
      |r.insights| >= 1
  {
    var all := students + professors;
    TallyCounts(GroupKeys(all, "major"));
    TallyCounts(GroupKeys(all, "teachingExperience"));
    RankingFacts(all);
    SatisfactionFacts(all);
    InsightsShape(students, professors);
  }

  lemma {:induction false} RankingFacts(responses: seq<Record>)
    ensures |Ranking(responses)| <= 10 && SortedDesc(Ranking(responses))
  {
    var s := SortDesc(Averages(ScoreTally(Contributions(Flatten(responses)))));
    SortDescFacts(Averages(ScoreTally(Contributions(Flatten(responses)))));
    TopTen(s);
  }

  /** Before any response arrives: zero participants, the rate and the time
      rendered from the number `0`, empty charts and the single waiting
      line. */
  lemma {:induction false} EmptyReport(localTime: string, isoTime: string)
    ensures ReportOf([], [], localTime, isoTime) ==
      Report(Summary(0, 0, 0, "0%", "0" + Minutes, localTime), Charts([], [], [], []), [Waiting], isoTime)
  {
    var none: seq<Record> := [];
    assert none + none == none;
    assert GroupKeys(none, "major") == [] && GroupKeys(none, "teachingExperience") == [];
    assert ValidTimes(none) == [] by {
      assert Times(none) == [];
    }
    EmptyRanking();
    EmptySatisfaction();
    InsightsShape(none, none);
  }

  lemma {:induction false} EmptyRanking()
    ensures Ranking([]) == []
  {
    assert Flatten([]) == [];
    assert Contributions([]) == [] by {
      assert Rated([]) == [];
    }
    assert Averages(ScoreTally([])) == [];
  }

  lemma {:induction false} EmptySatisfaction()
    ensures Satisfaction.Satisfaction([]) == []
  {
    var r := Satisfaction.Satisfaction([]);
    SatisfactionFacts([]);
    assert Flatten([]) == [];
    if r != [] {
      assert HasKey(r, r[0].0);
      assert false;
    }
  }
}
