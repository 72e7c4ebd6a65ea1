/** The analytics overview of backend/server.py (`get_analytics_overview`): counts, the top-pages
    table and the per-day traffic series, computed from the project's events in the requested
    window. The window query itself is not modelled: `events` is the list the query returned. */
module Overview {
  import opened Wrappers
  import opened Strings
  import opened Events
  import opened Counters
  import opened Sorting

  // ---------------------------------------------------------------------------------------------
  // Reference definitions. Each is a count over the event list, written from its last element so
  // that it extends one event at a time, as the loops below do.

  function Last(es: seq<Event>): Event
    requires es != []
  {
    es[|es| - 1]
  }

  function Init(es: seq<Event>): seq<Event>
    requires es != []
  {
    es[..|es| - 1]
  }

  /** `sum(1 for e in events if e['event_type'] == 'pageview')`. */
  function Pageviews(es: seq<Event>): nat {
    if es == [] then 0 else Pageviews(Init(es)) + (if IsPageview(Last(es)) then 1 else 0)
  }

  /** `set(e['session_id'] for e in events)`. */
  function SessionIds(es: seq<Event>): set<string> {
    if es == [] then {} else SessionIds(Init(es)) + {Last(es).sessionId}
  }

  /** The number of pageviews with a non-empty URL equal to `url`. */
  function PageHits(es: seq<Event>, url: string): nat {
    if es == [] then 0
    else PageHits(Init(es), url) + (if IsPageHit(Last(es)) && Last(es).pageUrl.value == url then 1 else 0)
  }

  /** The number of pageviews with a non-empty URL, whatever the URL. */
  function AllPageHits(es: seq<Event>): nat {
    if es == [] then 0 else AllPageHits(Init(es)) + (if IsPageHit(Last(es)) then 1 else 0)
  }

  /** The distinct non-empty pageview URLs in the order in which each first occurs. */
  function FirstSeenPages(es: seq<Event>): seq<string> {
    if es == [] then []
    else
      var seen := FirstSeenPages(Init(es));
      if IsPageHit(Last(es)) && Last(es).pageUrl.value !in seen then seen + [Last(es).pageUrl.value] else seen
  }

  /** The page table before ranking: each first-seen URL with its number of hits. */
  ghost function PageTable(es: seq<Event>): seq<Entry> {
    var urls := FirstSeenPages(es);
    seq(|urls|, i requires 0 <= i < |urls| => Entry(urls[i], PageHits(es, urls[i])))
  }

  /** The number of events whose timestamp starts with the day `date`. */
  function EventsOn(es: seq<Event>, date: string): nat {
    if es == [] then 0 else EventsOn(Init(es), date) + (if DateKey(Last(es)) == date then 1 else 0)
  }

  /** The distinct day keys in the order in which each first occurs. */
  function FirstSeenDates(es: seq<Event>): seq<string> {
    if es == [] then []
    else
      var seen := FirstSeenDates(Init(es));
      if DateKey(Last(es)) !in seen then seen + [DateKey(Last(es))] else seen
  }

  // ---------------------------------------------------------------------------------------------
  // Properties of the counts.

  /** There are no more pageviews than events. */
  lemma {:induction false} PageviewsAtMostEvents(es: seq<Event>)
    ensures Pageviews(es) <= |es|
  {
    if es != [] {
      PageviewsAtMostEvents(Init(es));
    }
  }

  /** Pageviews that count towards the page table are among all pageviews. */
  lemma {:induction false} PageHitsAtMostPageviews(es: seq<Event>)
    ensures AllPageHits(es) <= Pageviews(es)
  {
    if es != [] {
      PageHitsAtMostPageviews(Init(es));
    }
  }

  /** A session id is counted exactly when some event carries it. */
  lemma {:induction false} SessionIdsAreThoseOfEvents(es: seq<Event>, s: string)
    ensures s in SessionIds(es) <==> exists i :: 0 <= i < |es| && es[i].sessionId == s
  {
    if es != [] {
      SessionIdsAreThoseOfEvents(Init(es), s);
      if exists i :: 0 <= i < |Init(es)| && Init(es)[i].sessionId == s {
        var i :| 0 <= i < |Init(es)| && Init(es)[i].sessionId == s;
        assert es[i] == Init(es)[i];
      }
      if exists i :: 0 <= i < |es| && es[i].sessionId == s {
        var i :| 0 <= i < |es| && es[i].sessionId == s;
        if i < |es| - 1 {
          assert Init(es)[i] == es[i];
        }
      }
    }
  }

  /** There are no more distinct sessions than events, and none exactly when there are no events. */
  lemma {:induction false} SessionsAtMostEvents(es: seq<Event>)
    ensures |SessionIds(es)| <= |es|
    ensures |SessionIds(es)| == 0 <==> es == []
  {
    if es != [] {
      SessionsAtMostEvents(Init(es));
      assert Last(es).sessionId in SessionIds(es);
    }
  }

  /** A pageview belongs to some session, so pageviews without sessions cannot occur. */
  lemma PageviewsImplySessions(es: seq<Event>)
    ensures Pageviews(es) > 0 ==> |SessionIds(es)| > 0
  {
    PageviewsAtMostEvents(es);
    SessionsAtMostEvents(es);
  }

  /** A URL has hits exactly when some pageview with a non-empty URL names it. */
  lemma {:induction false} PageHitsWitness(es: seq<Event>, url: string)
    ensures PageHits(es, url) > 0 <==> exists i :: 0 <= i < |es| && IsPageHit(es[i]) && es[i].pageUrl.value == url
  {
    if es != [] {
      PageHitsWitness(Init(es), url);
      if exists i :: 0 <= i < |Init(es)| && IsPageHit(Init(es)[i]) && Init(es)[i].pageUrl.value == url {
        var i :| 0 <= i < |Init(es)| && IsPageHit(Init(es)[i]) && Init(es)[i].pageUrl.value == url;
        assert es[i] == Init(es)[i];
      }
      if exists i :: 0 <= i < |es| && IsPageHit(es[i]) && es[i].pageUrl.value == url {
        var i :| 0 <= i < |es| && IsPageHit(es[i]) && es[i].pageUrl.value == url;
        if i < |es| - 1 {
          assert Init(es)[i] == es[i];
        }
      }
    }
  }

  /** A day has events exactly when some event's timestamp starts with it. */
  lemma {:induction false} EventsOnWitness(es: seq<Event>, date: string)
    ensures EventsOn(es, date) > 0 <==> exists i :: 0 <= i < |es| && DateKey(es[i]) == date
  {
    if es != [] {
      EventsOnWitness(Init(es), date);
      if exists i :: 0 <= i < |Init(es)| && DateKey(Init(es)[i]) == date {
        var i :| 0 <= i < |Init(es)| && DateKey(Init(es)[i]) == date;
        assert es[i] == Init(es)[i];
      }
      if exists i :: 0 <= i < |es| && DateKey(es[i]) == date {
        var i :| 0 <= i < |es| && DateKey(es[i]) == date;
        if i < |es| - 1 {
          assert Init(es)[i] == es[i];
        }
      }
    }
  }

  // ---------------------------------------------------------------------------------------------
  // The two dictionary-building loops.

  /** `for e in events: if pageview and e.get('page_url'): page_counts[url] = page_counts.get(url, 0) + 1`. */
  method CountPages(events: seq<Event>) returns (pageCounts: Counter)
    ensures pageCounts.Valid()
    ensures pageCounts.keys == FirstSeenPages(events)
    ensures forall url :: pageCounts.Get(url) == PageHits(events, url)
    ensures Total(pageCounts.Items()) == AllPageHits(events)
  {
    pageCounts := Empty;
    for i := 0 to |events|
      invariant pageCounts.Valid()
      invariant pageCounts.keys == FirstSeenPages(events[..i])
      invariant forall url :: pageCounts.Get(url) == PageHits(events[..i], url)
      invariant Total(pageCounts.Items()) == AllPageHits(events[..i])
    {
      var e := events[i];
      assert Init(events[..i + 1]) == events[..i] && Last(events[..i + 1]) == e;
      if e.eventType == "pageview" && e.pageUrl.Some? && e.pageUrl.value != "" {
        IncrementTotal(pageCounts, e.pageUrl.value);
        pageCounts := pageCounts.Increment(e.pageUrl.value);
      }
    }
    assert events[..|events|] == events;
  }

  /** `for e in events: date_str = e['timestamp'][:10]; daily_traffic[date_str] = daily_traffic.get(date_str, 0) + 1`. */
  method CountDays(events: seq<Event>) returns (daily: Counter)
    ensures daily.Valid()
    ensures daily.keys == FirstSeenDates(events)
    ensures forall date :: daily.Get(date) == EventsOn(events, date)
    ensures Total(daily.Items()) == |events|
  {
    daily := Empty;
    for i := 0 to |events|
      invariant daily.Valid()
      invariant daily.keys == FirstSeenDates(events[..i])
      invariant forall date :: daily.Get(date) == EventsOn(events[..i], date)
      invariant Total(daily.Items()) == i
    {
      var e := events[i];
      assert Init(events[..i + 1]) == events[..i] && Last(events[..i + 1]) == e;
      var dateStr := Take(e.timestamp, 10);
      IncrementTotal(daily, dateStr);
      daily := daily.Increment(dateStr);
    }
    assert events[..|events|] == events;
  }

  // ---------------------------------------------------------------------------------------------
  // What the overview promises about its top-pages table and its daily series.

  /** The top-pages table for `limit` rows: at most `limit` rows, highest views first, each row's
      views the true number of hits of its URL; a URL left out has no more views than any row
      kept, and only because the table is full; pages with equal views keep their first-seen
      order; and the views add up to no more than the pageviews. */
  ghost predicate TopPagesSpec(events: seq<Event>, top: seq<Entry>, limit: nat) {
    && |top| <= limit
    && ByCountDesc(top)
    && (forall p :: p in top ==> p.count == PageHits(events, p.key) && p.count >= 1)
    && (forall url :: PageHits(events, url) > 0 && (forall p :: p in top ==> p.key != url) ==>
          |top| == limit && forall p :: p in top ==> p.count >= PageHits(events, url))
    && (forall v :: IsPrefix(WithCount(top, v), WithCount(PageTable(events), v)))
    && Total(top) <= Pageviews(events)
  }

  /** The daily series: dates strictly ascending, each the day of some event and counting exactly
      that day's events (so never zero), every event's day present, and the counts adding up to
      the number of events. */
  ghost predicate DailyTrafficSpec(events: seq<Event>, daily: seq<Entry>) {
    && ByKeyAsc(daily)
    && (forall d :: d in daily ==> d.count == EventsOn(events, d.key) && d.count >= 1)
    && (forall d :: d in daily ==> exists i :: 0 <= i < |events| && DateKey(events[i]) == d.key)
    && (forall i :: 0 <= i < |events| ==> exists d :: d in daily && d.key == DateKey(events[i]))
    && Total(daily) == |events|
  }

  /** Rows of a ranked table carry what the table before ranking carried. */
  lemma RankedRowsCounted(events: seq<Event>, items: seq<Entry>, ranked: seq<Entry>, top: seq<Entry>)
    requires multiset(ranked) == multiset(items)
    requires IsPrefix(top, ranked)
    requires forall p :: p in items ==> p.count == PageHits(events, p.key) && p.count >= 1
    ensures forall p :: p in top ==> p.count == PageHits(events, p.key) && p.count >= 1
  {
    forall p | p in top ensures p.count == PageHits(events, p.key) && p.count >= 1 {
      assert p in ranked;
      assert p in multiset(items);
    }
  }

  /** A page missing from a cut of the ranked table ranks below every row kept, and was cut only
      because the table was full. */
  lemma RankedRowsDominate(events: seq<Event>, items: seq<Entry>, ranked: seq<Entry>, limit: nat)
    requires multiset(ranked) == multiset(items)
    requires ByCountDesc(ranked)
    requires forall url :: PageHits(events, url) > 0 ==> Entry(url, PageHits(events, url)) in items
    ensures var top := Prefix(ranked, limit);
      forall url :: PageHits(events, url) > 0 && (forall p :: p in top ==> p.key != url) ==>
        |top| == limit && forall p :: p in top ==> p.count >= PageHits(events, url)
  {
    var top := Prefix(ranked, limit);
    forall url | PageHits(events, url) > 0 && (forall p :: p in top ==> p.key != url)
      ensures |top| == limit && forall p :: p in top ==> p.count >= PageHits(events, url)
    {
      var row := Entry(url, PageHits(events, url));
      assert row in multiset(ranked);
      var j :| 0 <= j < |ranked| && ranked[j] == row;
      assert j >= |top|;
      forall p | p in top ensures p.count >= PageHits(events, url) {
        var i :| 0 <= i < |top| && top[i] == p;
        assert ranked[i] == p;
      }
    }
  }

  /** The items of the page counter are the page table, and carry every page with hits. */
  lemma PageItemsFacts(events: seq<Event>, pageCounts: Counter)
    requires pageCounts.Valid()
    requires pageCounts.keys == FirstSeenPages(events)
    requires forall url :: pageCounts.Get(url) == PageHits(events, url)
    ensures pageCounts.Items() == PageTable(events)
    ensures forall p :: p in pageCounts.Items() ==> p.count == PageHits(events, p.key) && p.count >= 1
    ensures forall url :: PageHits(events, url) > 0 ==> Entry(url, PageHits(events, url)) in pageCounts.Items()
  {
    var items := pageCounts.Items();
    forall url | PageHits(events, url) > 0 ensures Entry(url, PageHits(events, url)) in items {
      assert url in pageCounts.counts;
      var k :| 0 <= k < |pageCounts.keys| && pageCounts.keys[k] == url;
      assert items[k] == Entry(url, PageHits(events, url));
    }
  }

  /** `sorted(page_counts.items(), key=lambda x: x[1], reverse=True)[:limit]`. */
  method TopPages(events: seq<Event>, limit: nat) returns (top: seq<Entry>)
    ensures TopPagesSpec(events, top, limit)
  {
    var pageCounts := CountPages(events);
    var items := pageCounts.Items();
    var ranked := SortByCountDesc(items);
    top := Prefix(ranked, limit);
    PageItemsFacts(events, pageCounts);
    RankedRowsCounted(events, items, ranked, top);
    RankedRowsDominate(events, items, ranked, limit);
    forall v ensures IsPrefix(WithCount(top, v), WithCount(PageTable(events), v)) {
      PrefixWithCount(ranked, limit, v);
    }
    PrefixTotal(ranked, limit);
    PageHitsAtMostPageviews(events);
  }

  /** The sorted day items count exactly each day's events and name only days that occur. */
  lemma DayRowsCounted(events: seq<Event>, items: seq<Entry>, series: seq<Entry>)
    requires multiset(series) == multiset(items)
    requires forall d :: d in items ==> d.count == EventsOn(events, d.key) && d.count >= 1
    ensures forall d :: d in series ==> d.count == EventsOn(events, d.key) && d.count >= 1
    ensures forall d :: d in series ==> exists i :: 0 <= i < |events| && DateKey(events[i]) == d.key
  {
    forall d | d in series ensures d.count == EventsOn(events, d.key) && d.count >= 1 {
      assert d in multiset(items);
    }
    forall d | d in series ensures exists i :: 0 <= i < |events| && DateKey(events[i]) == d.key {
      EventsOnWitness(events, d.key);
    }
  }

  /** Every event's day has a row in the sorted day items. */
  lemma DayRowsComplete(events: seq<Event>, daily: Counter, series: seq<Entry>)
    requires daily.Valid()
    requires forall date :: daily.Get(date) == EventsOn(events, date)
    requires multiset(series) == multiset(daily.Items())
    ensures forall i :: 0 <= i < |events| ==> exists d :: d in series && d.key == DateKey(events[i])
  {
    var items := daily.Items();
    forall i | 0 <= i < |events| ensures exists d :: d in series && d.key == DateKey(events[i]) {
      var date := DateKey(events[i]);
      EventsOnWitness(events, date);
      assert date in daily.counts;
      var k :| 0 <= k < |daily.keys| && daily.keys[k] == date;
      assert items[k] in multiset(series);
    }
  }

  /** `sorted(daily_traffic.items())`, built from the events. */
  method DailyTraffic(events: seq<Event>) returns (series: seq<Entry>)
    ensures DailyTrafficSpec(events, series)
  {
    var daily := CountDays(events);
    var items := daily.Items();
    series := SortByKey(items);
    DayRowsCounted(events, items, series);
    DayRowsComplete(events, daily, series);
  }

  // ---------------------------------------------------------------------------------------------
  // The endpoint.

  /** The JSON body returned by `GET /api/analytics/{project_id}/overview`. */
  datatype Overview = Overview(
    totalPageviews: nat,
    uniqueSessions: nat,
    totalEvents: nat,
    topPages: seq<Entry>,
    dailyTraffic: seq<Entry>)

  /** The route handler. `owned` is whether the project belongs to the caller's tenant;
      `events` is what the window query returned. */
  method GetAnalyticsOverview(owned: bool, events: seq<Event>) returns (r: Result<Overview, HttpError>)
    ensures !owned <==> r.Err?
    ensures r.Err? ==> r.error == HttpError(404, "Project not found")
    ensures r.Ok? ==> var o := r.value;
      && o.totalPageviews == Pageviews(events)
      && o.uniqueSessions == |SessionIds(events)|
      && o.totalEvents == |events|
      && o.totalPageviews <= o.totalEvents
      && o.uniqueSessions <= o.totalEvents
      && (o.uniqueSessions == 0 <==> o.totalEvents == 0)
      && TopPagesSpec(events, o.topPages, 5)
      && DailyTrafficSpec(events, o.dailyTraffic)
  {
    if !owned {
      return Err(HttpError(404, "Project not found"));
    }
    var totalPageviews := Pageviews(events);
    var uniqueSessions := |SessionIds(events)|;
    var totalEvents := |events|;
    var topPages := TopPages(events, 5);
    var dailyTraffic := DailyTraffic(events);
    PageviewsAtMostEvents(events);
    SessionsAtMostEvents(events);
    r := Ok(Overview(totalPageviews, uniqueSessions, totalEvents, topPages, dailyTraffic));
  }
}
