/** What the page shows for an analysis the server has just answered with. */
module Report {
  import opened Wrappers
  import opened AnalyzeRoute
  import opened Dashboard

  /** For a successful answer the Disagree bar and card are always empty, and,
      when the video has comments, the other two bars add up to all of them and
      their percentages to 100. */
  lemma DisagreeBarAlwaysEmpty(query: Result<Option<string>>, svc: Services)
    requires Analyze(query, svc).response.status == 200
    ensures
      var comments := Analyze(query, svc).response.body.analysis.comments;
      && Distribution(comments)[1].value == 0
      && (|comments| > 0 ==>
            && Distribution(comments)[0].value + Distribution(comments)[2].value == |comments|
            && Distribution(comments)[0].percentage + Distribution(comments)[2].percentage == 100.0)
  {
    NeverStoresDisagree(query, svc);
    AgreeOrNeutralOnly(Analyze(query, svc).response.body.analysis.comments);
  }
}
