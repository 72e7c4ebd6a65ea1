/** The values the analytics dashboard derives from the overview it receives
    (frontend/src/components/AnalyticsDashboard.js): the page search, the three pie-chart shares,
    the heights of the daily bars and the name of the exported CSV file. */
module Dashboard {
  import opened Wrappers
  import opened Strings
  import Events
  import Overview

  /** One `{url, views}` row of `top_pages`. */
  datatype PageRow = PageRow(url: string, views: nat)

  /** One `{date, count}` row of `daily_traffic`. */
  datatype DayRow = DayRow(date: string, count: nat)

  /** The overview as the component holds it; `top_pages` may be absent. */
  datatype Analytics = Analytics(
    totalPageviews: nat,
    uniqueSessions: nat,
    totalEvents: nat,
    topPages: Option<seq<PageRow>>,
    dailyTraffic: seq<DayRow>)

  // ---------------------------------------------------------------------------------------------
  // Page search.

  /** `page.url.toLowerCase().includes(searchTerm.toLowerCase())`. */
  predicate MatchesSearch(page: PageRow, term: string) {
    Contains(Lower(page.url), Lower(term))
  }

  /** `a` is `b` with some elements left out, the rest in the same order. */
  ghost predicate IsSubsequence(a: seq<PageRow>, b: seq<PageRow>)
    decreases |b|
  {
    if a == [] then true
    else if b == [] then false
    else if a[0] == b[0] then IsSubsequence(a[1..], b[1..])
    else IsSubsequence(a, b[1..])
  }

  /** `pages.filter(page => ...)`: the matching rows, in order, and all of them. */
  function FilterPages(pages: seq<PageRow>, term: string): (r: seq<PageRow>)
    ensures IsSubsequence(r, pages)
    ensures forall p :: p in r ==> MatchesSearch(p, term)
    ensures forall p :: p in pages && MatchesSearch(p, term) ==> p in r
    ensures forall p :: multiset(r)[p] == if MatchesSearch(p, term) then multiset(pages)[p] else 0
  {
    if pages == [] then []
    else
      var rest := FilterPages(pages[1..], term);
      assert pages == [pages[0]] + pages[1..];
      if MatchesSearch(pages[0], term) then
        var r := [pages[0]] + rest;
        assert r[0] == pages[0] && r[1..] == rest;
        r
      else
        assert rest != [] ==> rest[0] in rest && rest[0] != pages[0];
        rest
  }

  /** `analytics?.top_pages?.filter(...) || []`: no overview, or one without `top_pages`, gives no rows. */
  function FilteredPages(analytics: Option<Analytics>, term: string): (r: seq<PageRow>)
    ensures analytics.None? || analytics.value.topPages.None? ==> r == []
    ensures analytics.Some? && analytics.value.topPages.Some? ==> r == FilterPages(analytics.value.topPages.value, term)
  {
    if analytics.Some? && analytics.value.topPages.Some? then FilterPages(analytics.value.topPages.value, term) else []
  }

  /** An empty search term keeps every page. */
  lemma {:induction false} EmptySearchKeepsAll(pages: seq<PageRow>)
    ensures FilterPages(pages, "") == pages
  {
    if pages != [] {
      assert Lower("") == "";
      assert MatchesSearch(pages[0], "");
      EmptySearchKeepsAll(pages[1..]);
      assert pages == [pages[0]] + pages[1..];
    }
  }

  // ---------------------------------------------------------------------------------------------
  // Pie-chart shares.

  /** A share as JavaScript computes it: an integer, or `Infinity` when a positive count is divided
      by a zero total. */
  datatype Percent = Finite(value: int) | Infinite

  /** `n` is `100 * part / total` rounded to the nearest integer, halves rounded up. */
  predicate RoundsHalfUp(n: int, part: nat, total: nat) {
    2 * total * n <= 200 * part + total < 2 * total * (n + 1)
  }

  /** `Math.round((part / total) * 100)` on exact rationals: the nearest integer to
      `100 * part / total`, halves rounded up. */
  function RoundedShare(part: nat, total: nat): (n: nat)
    requires total > 0
    ensures RoundsHalfUp(n, part, total)
  {
    var x, d := 200 * part + total, 2 * total;
    assert x == d * (x / d) + x % d;
    x / d
  }

  /** `count ? Math.round((count / totalMetric) * 100) : 0`: zero for no count, `Infinity` for a
      count over a zero total, and otherwise the rounded percentage. */
  function Share(count: nat, totalMetric: nat): (r: Percent)
    ensures count == 0 ==> r == Finite(0)
    ensures count > 0 && totalMetric == 0 ==> r == Infinite
    ensures count > 0 && totalMetric > 0 ==> r.Finite? && r.value >= 0 && RoundsHalfUp(r.value, count, totalMetric)
  {
    if count == 0 then Finite(0)
    else if totalMetric == 0 then Infinite
    else Finite(RoundedShare(count, totalMetric))
  }

  /** `sessionsPercent`, over `totalMetric = analytics?.total_events || 0`: no overview or no
      sessions gives 0, sessions over no events give `Infinity`, otherwise the rounded share of
      sessions in events. */
  function SessionsPercent(analytics: Option<Analytics>): (r: Percent)
    ensures analytics.None? || analytics.value.uniqueSessions == 0 ==> r == Finite(0)
    ensures analytics.Some? && analytics.value.uniqueSessions > 0 && analytics.value.totalEvents == 0 ==> r == Infinite
    ensures analytics.Some? && analytics.value.uniqueSessions > 0 && analytics.value.totalEvents > 0 ==>
      r.Finite? && RoundsHalfUp(r.value, analytics.value.uniqueSessions, analytics.value.totalEvents)
  {
    if analytics.Some? then Share(analytics.value.uniqueSessions, analytics.value.totalEvents) else Share(0, 0)
  }

  /** `pageviewsPercent`, over the same total: the rounded share of pageviews in events. */
  function PageviewsPercent(analytics: Option<Analytics>): (r: Percent)
    ensures analytics.None? || analytics.value.totalPageviews == 0 ==> r == Finite(0)
    ensures analytics.Some? && analytics.value.totalPageviews > 0 && analytics.value.totalEvents == 0 ==> r == Infinite
    ensures analytics.Some? && analytics.value.totalPageviews > 0 && analytics.value.totalEvents > 0 ==>
      r.Finite? && RoundsHalfUp(r.value, analytics.value.totalPageviews, analytics.value.totalEvents)
  {
    if analytics.Some? then Share(analytics.value.totalPageviews, analytics.value.totalEvents) else Share(0, 0)
  }

  /** `Math.max(0, 100 - sessionsPercent - pageviewsPercent)`: never negative, the remainder of
      100 whenever that is not negative, and 0 when either share is infinite. */
  function OtherPercent(sessions: Percent, pageviews: Percent): (o: int)
    ensures o >= 0
    ensures sessions.Finite? && pageviews.Finite? && 100 - sessions.value - pageviews.value >= 0 ==>
      o == 100 - sessions.value - pageviews.value
    ensures sessions.Finite? && pageviews.Finite? && 100 - sessions.value - pageviews.value < 0 ==> o == 0
    ensures sessions.Infinite? || pageviews.Infinite? ==> o == 0
  {
    if sessions.Infinite? || pageviews.Infinite? then 0
    else if 100 - sessions.value - pageviews.value > 0 then 100 - sessions.value - pageviews.value
    else 0
  }

  /** A count no larger than a positive total gives a finite share between 0 and 100, and a count
      equal to the total gives exactly 100. */
  lemma ShareWithinRange(count: nat, total: nat)
    requires count <= total && total > 0
    ensures Share(count, total).Finite?
    ensures 0 <= Share(count, total).value <= 100
    ensures count == total ==> Share(count, total).value == 100
  {
    if count > 0 {
      var n := RoundedShare(count, total);
      ScaleMonotone(200, count, total);
      AtMostHundred(n, total);
      if count == total {
        AtLeastHundred(n, total);
      }
    }
  }

  lemma ScaleMonotone(k: nat, a: nat, b: nat)
    requires a <= b
    ensures k * a <= k * b
  {
  }

  lemma AtMostHundred(n: nat, t: nat)
    requires t > 0 && 2 * t * n <= 201 * t
    ensures n <= 100
  {
    if n > 100 {
      ScaleMonotone(2 * t, 101, n);
    }
  }

  lemma AtLeastHundred(n: nat, t: nat)
    requires t > 0 && 201 * t < 2 * t * (n + 1)
    ensures n >= 100
  {
    if n < 100 {
      ScaleMonotone(2 * t, n + 1, 100);
    }
  }

  /** Given the overview's own guarantees (pageviews and sessions never exceed events), every
      share the pie shows for a non-empty window is finite and between 0 and 100. */
  lemma SharesOfServerOverview(events: seq<Events.Event>)
    requires events != []
    ensures var a := Some(Analytics(Overview.Pageviews(events), |Overview.SessionIds(events)|, |events|, None, []));
      && SessionsPercent(a).Finite? && 0 <= SessionsPercent(a).value <= 100
      && PageviewsPercent(a).Finite? && 0 <= PageviewsPercent(a).value <= 100
      && 0 <= OtherPercent(SessionsPercent(a), PageviewsPercent(a)) <= 100
  {
    Overview.PageviewsAtMostEvents(events);
    Overview.SessionsAtMostEvents(events);
    ShareWithinRange(Overview.Pageviews(events), |events|);
    ShareWithinRange(|Overview.SessionIds(events)|, |events|);
  }

  // ---------------------------------------------------------------------------------------------
  // Daily bars.

  /** `Math.max(...analytics.daily_traffic.map(d => d.count))`; the chart is drawn only when the
      series is not empty. */
  function MaxCount(days: seq<DayRow>): (m: nat)
    requires |days| > 0
    ensures forall d :: d in days ==> d.count <= m
    ensures exists d :: d in days && d.count == m
  {
    if |days| == 1 then days[0].count
    else
      var rest := MaxCount(days[1..]);
      assert forall d :: d in days ==> d == days[0] || d in days[1..];
      if days[0].count >= rest then days[0].count else rest
  }

  /** `maxCount > 0 ? (day.count / maxCount) * 100 : 0`, then `Math.max(height, 5)` as drawn: the
      day's count as a percentage of the maximum, raised to 5 when it is smaller. */
  function BarHeight(count: nat, maxCount: nat): (h: real)
    ensures h >= 5.0
    ensures maxCount == 0 ==> h == 5.0
    ensures maxCount > 0 ==> h * (maxCount as real) >= 100.0 * (count as real)
    ensures maxCount > 0 && h > 5.0 ==> h * (maxCount as real) == 100.0 * (count as real)
  {
    var m := maxCount as real;
    var height := if maxCount > 0 then ((count as real) / m) * 100.0 else 0.0;
    assert maxCount > 0 ==> height * m == 100.0 * (count as real) by {
      if maxCount > 0 {
        assert ((count as real) / m) * m == count as real;
      }
    }
    assert maxCount > 0 && height < 5.0 ==> 5.0 * m > height * m;
    if height >= 5.0 then height else 5.0
  }

  lemma BarHeightBounds(count: nat, maxCount: nat)
    requires count <= maxCount
    ensures 5.0 <= BarHeight(count, maxCount) <= 100.0
    ensures maxCount > 0 && count == maxCount ==> BarHeight(count, maxCount) == 100.0
  {
    if maxCount > 0 {
      var q := (count as real) / (maxCount as real);
      assert q * (maxCount as real) == count as real;
      assert q <= 1.0;
      if count == maxCount {
        assert (maxCount as real) / (maxCount as real) == 1.0;
      }
    }
  }

  lemma BarHeightMonotone(c1: nat, c2: nat, maxCount: nat)
    requires c1 <= c2
    ensures BarHeight(c1, maxCount) <= BarHeight(c2, maxCount)
  {
    if maxCount > 0 {
      var m := maxCount as real;
      var q1, q2 := (c1 as real) / m, (c2 as real) / m;
      assert q1 * m == c1 as real && q2 * m == c2 as real;
      assert q1 <= q2;
    }
  }

  /** The drawn heights, in percent of the chart: one per day, each the day's `BarHeight` against
      the busiest day, so between 5 and 100, the busiest day at 100 when it had any events, and a
      busier day never drawn lower. */
  function BarHeights(days: seq<DayRow>): (hs: seq<real>)
    ensures |hs| == |days|
    ensures |days| > 0 ==> forall i :: 0 <= i < |days| ==> hs[i] == BarHeight(days[i].count, MaxCount(days))
    ensures forall i :: 0 <= i < |hs| ==> 5.0 <= hs[i] <= 100.0
    ensures |days| > 0 && MaxCount(days) > 0 ==>
      forall i :: 0 <= i < |days| && days[i].count == MaxCount(days) ==> hs[i] == 100.0
    ensures forall i, j :: 0 <= i < |days| && 0 <= j < |days| && days[i].count <= days[j].count ==> hs[i] <= hs[j]
  {
    if days == [] then []
    else
      var m := MaxCount(days);
      var hs := seq(|days|, i requires 0 <= i < |days| => BarHeight(days[i].count, m));
      HeightsFacts(days, hs);
      hs
  }

  lemma HeightsFacts(days: seq<DayRow>, hs: seq<real>)
    requires |days| > 0 && |hs| == |days|
    requires forall i :: 0 <= i < |days| ==> hs[i] == BarHeight(days[i].count, MaxCount(days))
    ensures forall i :: 0 <= i < |hs| ==> 5.0 <= hs[i] <= 100.0
    ensures MaxCount(days) > 0 ==>
      forall i :: 0 <= i < |days| && days[i].count == MaxCount(days) ==> hs[i] == 100.0
    ensures forall i, j :: 0 <= i < |days| && 0 <= j < |days| && days[i].count <= days[j].count ==> hs[i] <= hs[j]
  {
    var m := MaxCount(days);
    forall i | 0 <= i < |days| ensures 5.0 <= hs[i] <= 100.0 && (days[i].count == m ==> hs[i] == 100.0 || m == 0) {
      assert days[i] in days;
      BarHeightBounds(days[i].count, m);
    }
    forall i, j | 0 <= i < |days| && 0 <= j < |days| && days[i].count <= days[j].count ensures hs[i] <= hs[j] {
      BarHeightMonotone(days[i].count, days[j].count, m);
    }
  }

  // ---------------------------------------------------------------------------------------------
  // CSV file name.

  const FilenameKey: string := "filename="

  /** The characters JavaScript's `.` does not match. */
  predicate IsLineTerminator(c: char) {
    c == '\n' || c == '\r' || c == '\U{2028}' || c == '\U{2029}'
  }

  /** The longest prefix without a line terminator: what a greedy `.+` or `.*` takes. */
  function RestOfLine(s: string): (r: string)
    ensures StartsWith(s, r)
    ensures forall c :: c in r ==> !IsLineTerminator(c)
    ensures |r| < |s| ==> IsLineTerminator(s[|r|])
  {
    if s == [] || IsLineTerminator(s[0]) then [] else [s[0]] + RestOfLine(s[1..])
  }

  /** `/filename="?(.+)"?/` tried at position `p`: the optional quote is taken when the line goes
      on after it, `.+` takes the rest of the line, and the closing `"?` then matches nothing. */
  function MatchAt(s: string, p: nat): (r: Option<string>)
    requires p <= |s|
    ensures r.Some? ==> StartsWith(s[p..], FilenameKey)
    ensures r.Some? ==> r.value != [] && forall c :: c in r.value ==> !IsLineTerminator(c)
    ensures r.Some? ==>
      && p + |FilenameKey| <= |s|
      && r.value == StripOneQuote(RestOfLine(s[p + |FilenameKey|..]))
    ensures StartsWith(s[p..], FilenameKey) && p + |FilenameKey| < |s| && !IsLineTerminator(s[p + |FilenameKey|]) ==> r.Some?
  {
    if !StartsWith(s[p..], FilenameKey) then None
    else
      var r := s[p + |FilenameKey|..];
      if |r| >= 2 && r[0] == '"' && !IsLineTerminator(r[1]) then
        assert RestOfLine(r) == [r[0]] + RestOfLine(r[1..]);
        Some(RestOfLine(r[1..]))
      else if |r| >= 1 && !IsLineTerminator(r[0]) then Some(RestOfLine(r))
      else None
  }

  /** `s.match(regex)`: the first position, from `p` on, where the pattern matches; its group. */
  function FirstMatch(s: string, p: nat): Option<string>
    requires p <= |s|
    decreases |s| - p
  {
    match MatchAt(s, p)
    case Some(g) => Some(g)
    case None => if p == |s| then None else FirstMatch(s, p + 1)
  }

  /** No match starts at a position in `[p, q)`. */
  ghost predicate NoMatchIn(s: string, p: nat, q: nat)
    requires q <= |s| + 1
  {
    forall k :: p <= k < q ==> MatchAt(s, k).None?
  }

  /** The search finds the leftmost match from `p` on, and finds nothing only when no position
      from `p` on matches. */
  lemma {:induction false} FirstMatchIsLeftmost(s: string, p: nat)
    requires p <= |s|
    ensures FirstMatch(s, p).Some? ==> exists q :: p <= q <= |s| && MatchAt(s, q) == FirstMatch(s, p) && NoMatchIn(s, p, q)
    ensures FirstMatch(s, p).None? ==> NoMatchIn(s, p, |s| + 1)
    decreases |s| - p
  {
    var here := MatchAt(s, p);
    if here.Some? {
      assert FirstMatch(s, p) == here;
      assert NoMatchIn(s, p, p);
    } else if p < |s| {
      assert FirstMatch(s, p) == FirstMatch(s, p + 1);
      FirstMatchIsLeftmost(s, p + 1);
      if FirstMatch(s, p + 1).Some? {
        var q :| p + 1 <= q <= |s| && MatchAt(s, q) == FirstMatch(s, p + 1) && NoMatchIn(s, p + 1, q);
        assert NoMatchIn(s, p, q);
      } else {
        assert NoMatchIn(s, p, |s| + 1);
      }
    } else {
      assert FirstMatch(s, p).None?;
      assert NoMatchIn(s, p, |s| + 1);
    }
  }

  /** `analytics_report_${new Date().toISOString().split('T')[0]}.csv`, for the clock's ISO string. */
  function DefaultFilename(nowIso: string): (f: string)
    ensures |f| >= 21 && StartsWith(f, "analytics_report_") && f[|f| - 4..] == ".csv"
    ensures f[17..|f| - 4] == TakeUntil(nowIso, 'T') && 'T' !in f[17..|f| - 4]
  {
    var date := Split(nowIso, 'T')[0];
    var f := "analytics_report_" + date + ".csv";
    assert f[17..|f| - 4] == date;
    f
  }

  /** The download name: the header's `filename=` group when the header is present and the pattern
      matches, the dated default otherwise. */
  function ExportFilename(contentDisposition: Option<string>, nowIso: string): (f: string)
    ensures contentDisposition.None? || contentDisposition == Some("") ==> f == DefaultFilename(nowIso)
  {
    if contentDisposition.Some? && contentDisposition.value != "" then
      match FirstMatch(contentDisposition.value, 0)
      case Some(g) => g
      case None => DefaultFilename(nowIso)
    else DefaultFilename(nowIso)
  }

  /** `s` has no `filename=` before position `p`. */
  ghost predicate NoKeyBefore(s: string, p: nat)
    requires p <= |s|
  {
    forall q :: 0 <= q < p ==> !StartsWith(s[q..], FilenameKey)
  }

  lemma {:induction false} SkipToFirstKey(s: string, q: nat, p: nat)
    requires q <= p <= |s|
    requires NoKeyBefore(s, p)
    ensures FirstMatch(s, q) == FirstMatch(s, p)
    decreases p - q
  {
    if q < p {
      SkipToFirstKey(s, q + 1, p);
    }
  }

  /** `"x` loses its opening quote; anything else, a lone `"` included, stays as it is. */
  function StripOneQuote(line: string): string {
    if |line| >= 2 && line[0] == '"' then line[1..] else line
  }

  /** At the first `filename=` that has text after it on the same line, the file name is the rest
      of that line with at most one leading quote removed; any closing quote is kept. */
  lemma FilenameAtFirstKey(s: string, p: nat, nowIso: string)
    requires p + |FilenameKey| < |s|
    requires StartsWith(s[p..], FilenameKey)
    requires NoKeyBefore(s, p)
    requires !IsLineTerminator(s[p + |FilenameKey|])
    ensures ExportFilename(Some(s), nowIso) == StripOneQuote(RestOfLine(s[p + |FilenameKey|..]))
  {
    SkipToFirstKey(s, 0, p);
    var r := s[p + |FilenameKey|..];
    if |r| >= 2 && r[0] == '"' && !IsLineTerminator(r[1]) {
      assert RestOfLine(r) == [r[0]] + RestOfLine(r[1..]);
    }
  }

  /** A header without any `filename=` gives the dated default. */
  lemma {:induction false} NoKeyGivesDefault(s: string, nowIso: string)
    requires NoKeyBefore(s, |s|)
    ensures ExportFilename(Some(s), nowIso) == DefaultFilename(nowIso)
  {
    SkipToFirstKey(s, 0, |s|);
    assert s[|s|..] == [];
  }

  /** The two header shapes the export can send: `attachment; filename="<name>"` and
      `attachment; filename=<name>`. */
  function QuotedHeader(name: string): string {
    "attachment; filename=\"" + name + "\""
  }

  function BareHeader(name: string): string {
    "attachment; filename=" + name
  }

  /** In both shapes the first `filename=` is the one at position 12. */
  lemma KeyAtTwelve(s: string)
    requires StartsWith(s, "attachment; filename=")
    ensures StartsWith(s[12..], FilenameKey)
    ensures NoKeyBefore(s, 12)
  {
    var lead := "attachment; filename=";
    assert s[..21] == lead;
    assert s[12..][..9] == lead[12..21];
    forall q | 0 <= q < 12 ensures !StartsWith(s[q..], FilenameKey) {
      assert s[q..][8] == lead[q + 8];
    }
  }

  /** As written, a quoted file name keeps its closing quote: `filename="report.csv"` downloads as
      `report.csv"`. */
  lemma QuotedNameKeepsClosingQuote(name: string, nowIso: string)
    requires name != [] && '"' !in name
    requires forall c :: c in name ==> !IsLineTerminator(c)
    ensures ExportFilename(Some(QuotedHeader(name)), nowIso) == name + "\""
  {
    var s := QuotedHeader(name);
    assert StartsWith(s, "attachment; filename=");
    KeyAtTwelve(s);
    var r := s[21..];
    assert r == "\"" + name + "\"";
    RestOfLineAll(r);
    FilenameAtFirstKey(s, 12, nowIso);
  }

  lemma {:induction false} RestOfLineAll(s: string)
    requires forall c :: c in s ==> !IsLineTerminator(c)
    ensures RestOfLine(s) == s
  {
    if s != [] {
      RestOfLineAll(s[1..]);
    }
  }

  // ---------------------------------------------------------------------------------------------
  // The file name as evidently intended: `/filename="?([^"\r\n\u2028\u2029]+)"?/`, quotes excluded.

  /** The longest prefix free of quotes and line terminators. */
  function NameChars(s: string): (r: string)
    ensures StartsWith(s, r)
    ensures forall c :: c in r ==> c != '"' && !IsLineTerminator(c)
    ensures |r| < |s| ==> s[|r|] == '"' || IsLineTerminator(s[|r|])
  {
    if s == [] || s[0] == '"' || IsLineTerminator(s[0]) then [] else [s[0]] + NameChars(s[1..])
  }

  /** The corrected pattern tried at position `p`: after `filename=` and at most one opening quote,
      the longest run free of quotes and line terminators, which must not be empty. */
  function MatchAtUnquoted(s: string, p: nat): (r: Option<string>)
    requires p <= |s|
    ensures r.Some? ==> StartsWith(s[p..], FilenameKey)
    ensures r.Some? ==> r.value != [] && forall c :: c in r.value ==> c != '"' && !IsLineTerminator(c)
    ensures r.Some? ==>
      && p + |FilenameKey| < |s|
      && (var name := AfterOptionalQuote(s[p + |FilenameKey|..]);
          && StartsWith(name, r.value)
          && (|r.value| == |name| || name[|r.value|] == '"' || IsLineTerminator(name[|r.value|])))
    ensures StartsWith(s[p..], FilenameKey) && NameChars(AfterOptionalQuote(s[p + |FilenameKey|..])) != [] ==> r.Some?
  {
    if !StartsWith(s[p..], FilenameKey) then None
    else
      var name := NameChars(AfterOptionalQuote(s[p + |FilenameKey|..]));
      if name != [] then Some(name) else None
  }

  /** What `"?` leaves: the text without its opening quote, if it has one. */
  function AfterOptionalQuote(rest: string): string {
    if |rest| >= 1 && rest[0] == '"' then rest[1..] else rest
  }

  function FirstMatchUnquoted(s: string, p: nat): Option<string>
    requires p <= |s|
    decreases |s| - p
  {
    match MatchAtUnquoted(s, p)
    case Some(g) => Some(g)
    case None => if p == |s| then None else FirstMatchUnquoted(s, p + 1)
  }

  ghost predicate NoUnquotedMatchIn(s: string, p: nat, q: nat)
    requires q <= |s| + 1
  {
    forall k :: p <= k < q ==> MatchAtUnquoted(s, k).None?
  }

  /** The corrected search, too, finds the leftmost match from `p` on, or nothing when none exists. */
  lemma {:induction false} FirstMatchUnquotedIsLeftmost(s: string, p: nat)
    requires p <= |s|
    ensures FirstMatchUnquoted(s, p).Some? ==>
      exists q :: p <= q <= |s| && MatchAtUnquoted(s, q) == FirstMatchUnquoted(s, p) && NoUnquotedMatchIn(s, p, q)
    ensures FirstMatchUnquoted(s, p).None? ==> NoUnquotedMatchIn(s, p, |s| + 1)
    decreases |s| - p
  {
    var here := MatchAtUnquoted(s, p);
    if here.Some? {
      assert FirstMatchUnquoted(s, p) == here;
      assert NoUnquotedMatchIn(s, p, p);
    } else if p < |s| {
      assert FirstMatchUnquoted(s, p) == FirstMatchUnquoted(s, p + 1);
      FirstMatchUnquotedIsLeftmost(s, p + 1);
      if FirstMatchUnquoted(s, p + 1).Some? {
        var q :| p + 1 <= q <= |s| && MatchAtUnquoted(s, q) == FirstMatchUnquoted(s, p + 1) && NoUnquotedMatchIn(s, p + 1, q);
        assert NoUnquotedMatchIn(s, p, q);
      } else {
        assert NoUnquotedMatchIn(s, p, |s| + 1);
      }
    } else {
      assert FirstMatchUnquoted(s, p).None?;
      assert NoUnquotedMatchIn(s, p, |s| + 1);
    }
  }

  /** The download name with both quotes removed: a name taken from the header never contains a
      quote. */
  function ExportFilenameUnquoted(contentDisposition: Option<string>, nowIso: string): (f: string)
    ensures contentDisposition.None? || contentDisposition == Some("") ==> f == DefaultFilename(nowIso)
    ensures contentDisposition.Some? && contentDisposition.value != "" && FirstMatchUnquoted(contentDisposition.value, 0).Some? ==>
      f != [] && '"' !in f
  {
    if contentDisposition.Some? && contentDisposition.value != "" then
      FirstMatchUnquotedIsLeftmost(contentDisposition.value, 0);
      match FirstMatchUnquoted(contentDisposition.value, 0)
      case Some(g) => g
      case None => DefaultFilename(nowIso)
    else DefaultFilename(nowIso)
  }

  lemma {:induction false} SkipToFirstKeyUnquoted(s: string, q: nat, p: nat)
    requires q <= p <= |s|
    requires NoKeyBefore(s, p)
    ensures FirstMatchUnquoted(s, q) == FirstMatchUnquoted(s, p)
    decreases p - q
  {
    if q < p {
      SkipToFirstKeyUnquoted(s, q + 1, p);
    }
  }

  lemma {:induction false} NameCharsAll(s: string)
    requires forall c :: c in s ==> c != '"' && !IsLineTerminator(c)
    ensures NameChars(s) == s
  {
    if s != [] {
      assert s[0] in s && forall c :: c in s[1..] ==> c in s;
      NameCharsAll(s[1..]);
      assert s == [s[0]] + s[1..];
    }
  }

  lemma NameCharsStopsAtQuote(name: string)
    requires forall c :: c in name ==> c != '"' && !IsLineTerminator(c)
    ensures NameChars(name + "\"") == name
  {
    if name == [] {
    } else {
      assert name[0] in name && forall c :: c in name[1..] ==> c in name;
      assert (name + "\"")[0] == name[0];
      assert (name + "\"")[1..] == name[1..] + "\"";
      NameCharsStopsAtQuote(name[1..]);
    }
  }

  /** Corrected: a file name sent quoted or bare comes back exactly, without quotes. */
  lemma UnquotedNameRoundTrip(name: string, nowIso: string)
    requires name != []
    requires forall c :: c in name ==> c != '"' && !IsLineTerminator(c)
    ensures ExportFilenameUnquoted(Some(QuotedHeader(name)), nowIso) == name
    ensures ExportFilenameUnquoted(Some(BareHeader(name)), nowIso) == name
  {
    QuotedNameRoundTrip(name, nowIso);
    BareNameRoundTrip(name, nowIso);
  }

  lemma QuotedNameRoundTrip(name: string, nowIso: string)
    requires name != []
    requires forall c :: c in name ==> c != '"' && !IsLineTerminator(c)
    ensures ExportFilenameUnquoted(Some(QuotedHeader(name)), nowIso) == name
  {
    var s := QuotedHeader(name);
    assert StartsWith(s, "attachment; filename=");
    KeyAtTwelve(s);
    SkipToFirstKeyUnquoted(s, 0, 12);
    var rest := s[12 + |FilenameKey|..];
    assert rest == "\"" + name + "\"";
    assert AfterOptionalQuote(rest) == name + "\"" by {
      assert rest[1..] == name + "\"";
    }
    NameCharsStopsAtQuote(name);
    assert MatchAtUnquoted(s, 12) == Some(name);
    assert FirstMatchUnquoted(s, 0) == Some(name);
  }

  lemma BareNameRoundTrip(name: string, nowIso: string)
    requires name != []
    requires forall c :: c in name ==> c != '"' && !IsLineTerminator(c)
    ensures ExportFilenameUnquoted(Some(BareHeader(name)), nowIso) == name
  {
    var b := BareHeader(name);
    assert StartsWith(b, "attachment; filename=");
    KeyAtTwelve(b);
    SkipToFirstKeyUnquoted(b, 0, 12);
    assert b[12 + |FilenameKey|..] == name;
    NameCharsAll(name);
    assert MatchAtUnquoted(b, 12) == Some(name);
    assert FirstMatchUnquoted(b, 0) == Some(name);
  }
}
