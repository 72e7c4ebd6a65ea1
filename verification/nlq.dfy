/** The data summary and insight rule of the natural-language query endpoint
    (backend/server.py, `process_nlq`). The language-model call is not modelled: its answer text is
    a parameter. */
module Nlq {
  import opened Wrappers
  import opened Events
  import opened Counters
  import opened Overview

  /** `days_map`: the accepted `date_range` tokens and their window lengths in days. */
  const DaysMap: map<string, nat> := map["7d" := 7, "30d" := 30, "90d" := 90, "all" := 365]

  /** `days_map.get(request.date_range, 7)`: an unknown or missing token falls back to a week. */
  function DaysFor(dateRange: Option<string>): (days: nat)
    ensures days in {7, 30, 90, 365}
    ensures days == 30 <==> dateRange == Some("30d")
    ensures days == 90 <==> dateRange == Some("90d")
    ensures days == 365 <==> dateRange == Some("all")
  {
    if dateRange.Some? && dateRange.value in DaysMap then DaysMap[dateRange.value] else 7
  }

  /** The one insight the endpoint derives itself: average pageviews per session. The string
      formatting with one decimal is not modelled; the exact average is kept instead. */
  datatype Insight = AveragePageviewsPerSession(average: real)

  /** `if total_pageviews > 0: insights.append(...)`, with
      `avg = total_pageviews / unique_sessions if unique_sessions > 0 else 0`. */
  function Insights(totalPageviews: nat, uniqueSessions: nat): (r: seq<Insight>)
    ensures |r| <= 1
    ensures r != [] <==> totalPageviews > 0
    ensures r != [] && uniqueSessions > 0 ==>
      r[0].average * (uniqueSessions as real) == totalPageviews as real
  {
    if totalPageviews > 0 then
      var avg := if uniqueSessions > 0 then (totalPageviews as real) / (uniqueSessions as real) else 0.0;
      [AveragePageviewsPerSession(avg)]
    else []
  }

  /** `data_summary`: the window length, two counts, the ten most viewed pages and the
      per-day dictionary in insertion order (not sorted on this path). */
  datatype DataSummary = DataSummary(
    periodDays: nat,
    totalPageviews: nat,
    uniqueSessions: nat,
    topPages: seq<Entry>,
    dailyTraffic: seq<Entry>)

  /** The `NLQResponse` body. */
  datatype NlqResponse = NlqResponse(question: string, answer: string, data: DataSummary, insights: seq<Insight>)

  /** The per-day dictionary as sent: every first-seen day in order of first occurrence, each with
      its number of events, the counts adding up to the number of events. */
  ghost predicate DailyDictSpec(events: seq<Event>, items: seq<Entry>) {
    && |items| == |FirstSeenDates(events)|
    && (forall i :: 0 <= i < |items| ==>
          items[i] == Entry(FirstSeenDates(events)[i], EventsOn(events, FirstSeenDates(events)[i])))
    && Total(items) == |events|
  }

  /** The route handler. `owned` is whether the project belongs to the caller's tenant, `events`
      what the window query for `DaysFor(dateRange)` days returned, and `answer` the language
      model's reply. */
  method ProcessNlq(owned: bool, question: string, dateRange: Option<string>, events: seq<Event>, answer: string)
    returns (r: Result<NlqResponse, HttpError>)
    ensures !owned <==> r.Err?
    ensures r.Err? ==> r.error == HttpError(404, "Project not found")
    ensures r.Ok? ==> var d := r.value.data;
      && r.value.question == question
      && r.value.answer == answer
      && d.periodDays == DaysFor(dateRange)
      && d.totalPageviews == Pageviews(events)
      && d.uniqueSessions == |SessionIds(events)|
      && TopPagesSpec(events, d.topPages, 10)
      && DailyDictSpec(events, d.dailyTraffic)
      && r.value.insights == Insights(d.totalPageviews, d.uniqueSessions)
      && (d.totalPageviews > 0 ==> d.uniqueSessions > 0)
  {
    if !owned {
      return Err(HttpError(404, "Project not found"));
    }
    var days := DaysFor(dateRange);
    var totalPageviews := Pageviews(events);
    var uniqueSessions := |SessionIds(events)|;
    var topPages := TopPages(events, 10);
    var daily := CountDays(events);
    var dailyItems := daily.Items();
    assert DailyDictSpec(events, dailyItems);
    var summary := DataSummary(days, totalPageviews, uniqueSessions, topPages, dailyItems);
    PageviewsImplySessions(events);
    var insights := Insights(totalPageviews, uniqueSessions);
    r := Ok(NlqResponse(question, answer, summary, insights));
  }
}
