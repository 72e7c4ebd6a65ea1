# Privacy-first web analytics: a verified model of its core

This project models the core of a multi-tenant web-analytics service in Dafny:

- **Event ingestion.** `POST /api/track` checks the project's tracking code. It honours the
  project's consent setting and hashes the visitor's IP when anonymisation is on. Then it appends
  the event to the event store.
- **Overview aggregation.** `GET /api/analytics/{id}/overview` computes pageviews, unique
  sessions and events for the events in a window. It also builds the five most viewed pages and a
  per-day series sorted by date.
- **Natural-language query.** `POST /api/nlq` builds the data summary handed to the language model
  and derives the pageviews-per-session insight.
- **Bearer-token check.** `verify_token` reads the `Authorization` header.
- **Continent migration.** `migrate_continents.py` backfills a continent name on every stored
  event that lacks one. The name comes from the digits of the event's IP hash.
- **Dashboard derivations.** The dashboard computes the page search, the pie-chart shares, the
  daily bar heights and the exported CSV file name.

Modules, one per file:

| module | file | models |
|---|---|---|
| `Wrappers` | `wrappers.dfy` | `Option`, `Result`, and the `HTTPException` pair of status and detail |
| `Strings` | `strings.dfy` | slicing, `startswith`, `split`, ASCII lower-casing, substring search, string order |
| `Events` | `events.dfy` | the stored event document |
| `Counters` | `counter.dfy` | a Python `dict` used as a counter (insertion-ordered keys, `get(k, 0) + 1`) |
| `Sorting` | `sorting.dfy` | `sorted(..., key=count, reverse=True)` (stable) and `sorted(dict.items())` |
| `Overview` | `overview.dfy` | the overview route |
| `Nlq` | `nlq.dfy` | the NLQ route |
| `Auth` | `auth.dfy` | `verify_token` |
| `Tracking` | `tracking.dfy` | the track route; the event store is a class whose `events` field the route appends to |
| `Continents` | `continents.dfy` | the migration, as a loop over an array of events updated in place |
| `Dashboard` | `dashboard.dfy` | the dashboard's derived values |

The database, the clock, SHA-256, JWT decoding and the language model cannot be seen from the
model. Each of them enters as a parameter:

- The events a window query returned are a sequence.
- Project ownership is a boolean, `owned`.
- The language model's reply is a string.
- SHA-256 as hexadecimal is a function `string -> string`.
- JWT decoding is a function to `Valid(payload) | ExpiredSignature | InvalidToken`.
- The new event's id and the current time are strings.

The model follows the code in these points:

- The daily series has a row only for days that had events. Empty days are not filled with zeros.
- Pages with equal views keep the order in which they were first seen. Ties are not broken by URL,
  because Python's sort is stable.
- The overview returns only the five fields listed here. It has no device, browser or country
  breakdowns.
- The NLQ summary sends the per-day dictionary unsorted, in first-seen order.

## Model

| member | source | states |
|---|---|---|
| Overview.GetAnalyticsOverview | backend/server.py:247-287 | 404 "Project not found" exactly when the project is not the caller's; otherwise pageviews, distinct sessions and events of the window, pageviews and sessions never above events, no sessions only for no events, the top-5 table and the daily series as specified below |
| Overview.CountPages | backend/server.py:269-272 | the page dictionary holds each URL of a pageview with a URL, in first-seen order, with its exact number of such pageviews; its counts add up to those pageviews |
| Overview.CountDays | backend/server.py:276-279 | the day dictionary holds each first-10-character date in first-seen order with its exact number of events; the counts add up to the number of events |
| Overview.TopPages | backend/server.py:268-273 | at most `limit` rows, views descending, each row the true hit count of its URL; a URL left out has no more views than any row and is left out only when the table is full; equal-view rows keep first-seen order; views add up to at most the pageviews |
| Overview.DailyTraffic | backend/server.py:275-286 | dates strictly ascending, each the day of some event with that day's exact event count, every event's day present, counts adding up to the number of events |
| Overview.PageviewsAtMostEvents | backend/server.py:264-266 | pageviews never exceed events |
| Overview.PageHitsAtMostPageviews | backend/server.py:270-272 | the page counts add up to at most the pageviews |
| Overview.SessionIdsAreThoseOfEvents | backend/server.py:265 | a session id is counted iff some event carries it |
| Overview.SessionsAtMostEvents | backend/server.py:265-266 | unique sessions never exceed events, and are zero iff there are no events |
| Overview.PageviewsImplySessions | backend/server.py:264-265 | any pageview implies at least one session |
| Overview.PageHitsWitness | backend/server.py:270-272 | a URL has hits iff some pageview carries that URL |
| Overview.EventsOnWitness | backend/server.py:277-279 | a date has events iff some event's timestamp starts with it |
| Overview.RankedRowsCounted | backend/server.py:273 | ranking and truncating keeps each row's true count |
| Overview.RankedRowsDominate | backend/server.py:273 | a URL cut by `[:limit]` has no more views than any kept row |
| Overview.PageItemsFacts | backend/server.py:269-273 | `page_counts.items()` is the first-seen table of true counts and holds every URL with hits |
| Overview.DayRowsCounted | backend/server.py:276-286 | each series row is a day of some event with its true count |
| Overview.DayRowsComplete | backend/server.py:276-286 | every event's day appears in the series |
| Counters.Counter.Increment | backend/server.py:272 | `d[k] = d.get(k, 0) + 1` adds one to `k`, leaves every other key alone and keeps the dictionary well formed |
| Counters.ItemsListEachCountedKeyOnce | backend/server.py:273 | `items()` of a well-formed dictionary lists no key twice, and lists a key with its count exactly when that key was counted at least once |
| Counters.TotalAppend | backend/server.py:273 | the count total of two tables joined is the sum of their totals |
| Counters.TotalUpdate | backend/server.py:272 | replacing one row changes the total by the difference of the counts |
| Counters.IncrementTotal | backend/server.py:272 | each increment adds exactly one to the total |
| Counters.IncrementExistingItems | backend/server.py:272 | counting a key already present changes its own `items()` pair, in place, and no other |
| Counters.IncrementNewItems | backend/server.py:272 | counting a new key appends its pair with count 1 to `items()` |
| Sorting.SortByCountDesc | backend/server.py:273 | the result is sorted by count, descending, and is a permutation of the input; rows with equal counts keep their relative order; the total is unchanged |
| Sorting.InsertByCountPermutes | backend/server.py:273 | one insertion step permutes and keeps the total |
| Sorting.InsertByCountSorted | backend/server.py:273 | one insertion step keeps the descending order |
| Sorting.InsertByCountStable | backend/server.py:273 | one insertion step keeps the order among equal counts |
| Sorting.WithCountAppend | backend/server.py:273 | picking the rows of one count distributes over concatenation |
| Sorting.WithCountCons | backend/server.py:273 | the rows of one count in a list with a row in front: that row (when it has the count) ahead of the rest's |
| Sorting.Prefix | backend/server.py:273 | `[:n]` keeps min(n, length) leading rows |
| Sorting.PrefixWithCount | backend/server.py:273 | truncation keeps a prefix of each equal-count group |
| Sorting.PrefixTotal | backend/server.py:273 | truncation never raises the total |
| Sorting.SortByKey | backend/server.py:286 | `sorted(items())` on distinct dates gives strictly ascending dates, a permutation with the same total |
| Sorting.InsertByKeyPermutes | backend/server.py:286 | one insertion step permutes and keeps the total |
| Sorting.InsertByKeySorted | backend/server.py:286 | one insertion step keeps the strictly ascending order |
| Strings.LessIrreflexive | backend/server.py:286 | string order is irreflexive |
| Strings.LessTransitive | backend/server.py:286 | string order is transitive |
| Strings.LessTotal | backend/server.py:286 | distinct strings are ordered one way or the other |
| Strings.Take | backend/server.py:278 | `s[:n]` is the prefix of length min(n, len(s)) |
| Events.DateKey | backend/server.py:278 | an event's day is the prefix of its timestamp of length min(10, length): exactly `timestamp[:10]` |
| Strings.TakeUntil | backend/server.py:131 | the longest prefix before the first separator |
| Strings.Split | backend/server.py:131 | `split(sep)` gives at least one part, the first being the text before the first separator, and one part iff the separator is absent |
| Strings.SplitAfterWord | backend/server.py:131 | splitting a word, a separator and a rest gives the word followed by the rest's parts |
| Strings.DigitValue | migrate_continents.py:62 | `int(c)` of a digit is the digit's own value: the position of `c` in "0123456789" |
| Strings.LowerChar | frontend/src/components/AnalyticsDashboard.js:80 | `toLowerCase` maps each letter A-Z to its own lower-case letter, leaves every other character alone, and never yields A-Z |
| Strings.Lower | frontend/src/components/AnalyticsDashboard.js:80 | `toLowerCase` of a string lowers each character in place and leaves no A-Z in the result |
| Strings.LowerIdempotent | frontend/src/components/AnalyticsDashboard.js:80 | lowering twice is lowering once |
| Strings.ContainsEmpty | frontend/src/components/AnalyticsDashboard.js:80 | every string includes the empty string |
| Strings.ContainsAt | frontend/src/components/AnalyticsDashboard.js:80 | `includes` holds iff the needle starts at some position |
| Nlq.ProcessNlq | backend/server.py:291-362 | 404 exactly when the project is not the caller's; otherwise the question and answer passed through, the window length chosen from the range, pageviews and distinct sessions, a top-10 table as specified for the overview, the per-day dictionary in first-seen order with exact counts, the insights, and sessions positive whenever pageviews are |
| Nlq.DaysFor | backend/server.py:299-300 | the window is one of 7, 30, 90, 365 days; 30, 90 and 365 exactly for "30d", "90d" and "all", 7 for anything else or no range |
| Nlq.Insights | backend/server.py:351-355 | at most one insight, present iff there were pageviews, whose average times the sessions gives the pageviews when there are sessions |
| Auth.BearerToken | backend/server.py:127-131 | 401 "Missing or invalid authorization header" iff the header is absent, empty or lacks "Bearer "; otherwise the token is the space-free word right after "Bearer ", followed by a space or the end |
| Auth.VerifyToken | backend/server.py:127-138 | a bad header gives 401 "Missing or invalid authorization header"; an expired token gives 401 "Token expired"; any other invalid token gives 401 "Invalid token"; a validly decoded token gives its payload |
| Auth.BearerRoundTrip | backend/server.py:128-131 | "Bearer " + a space-free token, then anything starting with a space, gives that token back |
| Auth.TokensAgree | backend/server.py:131 | the space-free word at the head of a string is unique |
| Tracking.Store.Track | backend/server.py:206-243 | 403 iff no project has the id and tracking code; "consent_required" iff the project is found and consent is required and not given; only a tracked event is appended, with the event id returned; otherwise the store is unchanged |
| Tracking.ConsentMissing | backend/server.py:217-219 | an event without consent is refused exactly when the project requires consent, whether by default or by `require_consent` set to true; a visitor who gave consent always passes, and a project that set the requirement to false lets every event through |
| Tracking.AnonymizedIp | backend/server.py:221-224 | a hash exists iff an IP was sent and anonymisation is on (the default); it is the prefix of the SHA-256 hex digest of length min(16, digest length) |
| Tracking.StoredEvent | backend/server.py:226-240 | the stored document carries the request's project, session, event type, event name, page URL, title, referrer and user agent, with the hash in place of the IP, the new id, the server time and no continent; so it is a pageview, and a page hit, exactly when the request was one |
| Tracking.StoredEventAwaitsBackfill | backend/server.py:226-241 | a freshly tracked event lacks a continent, and the back-fill gives it the continent of its IP hash |
| Tracking.FindProject | backend/server.py:209-214 | a found project has the requested id and tracking code; none is found only when no project has both |
| Continents.ContinentFor | migrate_continents.py:58-66 | the continent is one of the six fallback names; no hash or an empty one gives "North America" |
| Continents.DigitSum | migrate_continents.py:62 | the sum of the digits is at most 9 per character |
| Continents.DigitSumAppend | migrate_continents.py:62 | the digit sum of a concatenation is the sum of the digit sums |
| Continents.DigitSumNoDigits | migrate_continents.py:62 | a string without digits has digit sum 0 |
| Continents.NoDigitsNorthAmerica | migrate_continents.py:60-63 | a hash without digits maps to "North America" |
| Continents.SameContinentIffSameResidue | migrate_continents.py:62-63 | two hashes get the same continent iff their digit sums agree modulo 6 |
| Continents.NonDigitIgnored | migrate_continents.py:62-63 | inserting a non-digit never changes the continent |
| Continents.Backfilled | migrate_continents.py:33-71 | an event with a continent is kept unchanged; an event without one (missing, None or "") gets exactly its computed continent and nothing else changes |
| Continents.CountLackingZero | migrate_continents.py:33-45 | no event lacks a continent iff the count of such events is 0 |
| Continents.MigrateContinents | migrate_continents.py:33-75 | the number of updates is the number of events that lacked a continent; every event is backfilled in place; afterwards none lacks a continent |
| Dashboard.FilterPages | frontend/src/components/AnalyticsDashboard.js:79-81 | the kept rows are a subsequence of the input; each kept row's lowered URL includes the lowered term; every matching row is kept as often as it occurs and no other row is kept |
| Dashboard.FilteredPages | frontend/src/components/AnalyticsDashboard.js:79-81 | no overview, or no `top_pages`, gives no rows |
| Dashboard.EmptySearchKeepsAll | frontend/src/components/AnalyticsDashboard.js:79-81 | an empty search keeps every row |
| Dashboard.RoundedShare | frontend/src/components/AnalyticsDashboard.js:85-86 | `Math.round(part / total * 100)` is the nearest integer to 100·part/total, halves rounded up |
| Dashboard.Share | frontend/src/components/AnalyticsDashboard.js:85-86 | zero for no count, `Infinity` for a count over a zero total, otherwise the percentage rounded half up |
| Dashboard.SessionsPercent | frontend/src/components/AnalyticsDashboard.js:84-85 | no overview or no sessions gives 0; sessions over no events give `Infinity`; otherwise sessions as a rounded percentage of events |
| Dashboard.PageviewsPercent | frontend/src/components/AnalyticsDashboard.js:84-86 | no overview or no pageviews gives 0; pageviews over no events give `Infinity`; otherwise pageviews as a rounded percentage of events |
| Dashboard.OtherPercent | frontend/src/components/AnalyticsDashboard.js:87 | never negative; the remainder of 100 when that is non-negative, 0 when it is negative, and 0 when a share is infinite |
| Dashboard.ShareWithinRange | frontend/src/components/AnalyticsDashboard.js:84-86 | a count at most a positive total gives a finite share in 0..100, and exactly 100 when equal |
| Dashboard.SharesOfServerOverview | frontend/src/components/AnalyticsDashboard.js:84-87 | for the overview the server sends for a non-empty window, both shares and "other" are finite and within 0..100 |
| Dashboard.MaxCount | frontend/src/components/AnalyticsDashboard.js:198 | the maximum bounds every day's count and is some day's count |
| Dashboard.BarHeight | frontend/src/components/AnalyticsDashboard.js:199-206 | a bar is at least 5; with a positive maximum it is the count as a percentage of the maximum, or 5 when that percentage is smaller; with no maximum it is 5 |
| Dashboard.BarHeightBounds | frontend/src/components/AnalyticsDashboard.js:199-206 | a drawn bar is between 5% and 100%, and 100% for the busiest day when it had events |
| Dashboard.BarHeightMonotone | frontend/src/components/AnalyticsDashboard.js:199-206 | a busier day is never drawn lower |
| Dashboard.BarHeights | frontend/src/components/AnalyticsDashboard.js:193-206 | one height per day, each `max(count / max * 100, 5)` against the busiest day's count (`BarHeight`), so in 5..100, the busiest day at 100 when it had events, heights ordered as counts are |
| Dashboard.HeightsFacts | frontend/src/components/AnalyticsDashboard.js:197-206 | the bounds, busiest-day and order facts for the whole series |
| Dashboard.RestOfLine | frontend/src/components/AnalyticsDashboard.js:46 | `.+`/`.*` takes the longest prefix without a line terminator |
| Dashboard.MatchAt | frontend/src/components/AnalyticsDashboard.js:46 | the pattern matches at a position only where `filename=` starts; the group is non-empty, stays on one line, and is exactly the rest of the line after `filename=` with one leading quote removed when more text follows it; it matches wherever `filename=` is followed by text on the same line |
| Dashboard.FirstMatchIsLeftmost | frontend/src/components/AnalyticsDashboard.js:46 | `match` returns the group of the leftmost matching position, and nothing only when no position matches |
| Dashboard.DefaultFilename | frontend/src/components/AnalyticsDashboard.js:44 | the default is "analytics_report_", then the part of the clock's ISO string before the first "T", then ".csv" |
| Dashboard.ExportFilename | frontend/src/components/AnalyticsDashboard.js:42-50 | no header or an empty one gives the dated default |
| Dashboard.SkipToFirstKey | frontend/src/components/AnalyticsDashboard.js:46 | the regex search moves past positions without `filename=` |
| Dashboard.FilenameAtFirstKey | frontend/src/components/AnalyticsDashboard.js:42-50 | at the first `filename=` with text after it, the name is the rest of the line with at most one leading quote removed |
| Dashboard.NoKeyGivesDefault | frontend/src/components/AnalyticsDashboard.js:42-50 | a header without `filename=` gives the dated default |
| Dashboard.KeyAtTwelve | frontend/src/components/AnalyticsDashboard.js:46 | in `attachment; filename=...` the first `filename=` is at position 12 |
| Dashboard.RestOfLineAll | frontend/src/components/AnalyticsDashboard.js:46 | a string without line terminators is taken whole |
| Dashboard.QuotedNameKeepsClosingQuote | frontend/src/components/AnalyticsDashboard.js:46-48 | as written, `attachment; filename="name"` downloads as `name"` |
| Dashboard.NameChars | frontend/src/components/AnalyticsDashboard.js:46 | (corrected pattern) the longest prefix free of quotes and line terminators: it stops only at a quote, a line terminator or the end |
| Dashboard.MatchAtUnquoted | frontend/src/components/AnalyticsDashboard.js:46 | (corrected) a match starts at `filename=`; its group is non-empty and free of quotes and line terminators, follows `filename=` directly or after one quote, and runs up to a quote, a line terminator or the end; it matches wherever such a name follows `filename=` |
| Dashboard.FirstMatchUnquotedIsLeftmost | frontend/src/components/AnalyticsDashboard.js:46 | (corrected) the search returns the leftmost match, and nothing only when no position matches |
| Dashboard.ExportFilenameUnquoted | frontend/src/components/AnalyticsDashboard.js:42-50 | (corrected) no header or an empty one gives the dated default; a name taken from the header is non-empty and never contains a quote |
| Dashboard.SkipToFirstKeyUnquoted | frontend/src/components/AnalyticsDashboard.js:46 | (corrected) the search moves past positions without `filename=` |
| Dashboard.NameCharsAll | frontend/src/components/AnalyticsDashboard.js:46 | (corrected) a name without quotes or line terminators is taken whole |
| Dashboard.NameCharsStopsAtQuote | frontend/src/components/AnalyticsDashboard.js:46 | (corrected) a name followed by a quote is taken without the quote |
| Dashboard.UnquotedNameRoundTrip | frontend/src/components/AnalyticsDashboard.js:42-50 | (corrected) a name sent quoted or bare downloads as exactly that name |

## Left out

- The MongoDB queries are not modelled. The `$gte` window on the ISO timestamp and the project
  filter are not modelled either. The events they return are an input sequence.
- `to_list(10000)` is left out. The model assumes the window returned every matching event; the
  10000-event cap is not modelled.
- The ownership lookup (`find_one` by project and tenant) becomes the boolean `owned`.
- SHA-256, JWT encoding and decoding, and the language-model call are parameters. Their internals
  are not modelled.
- `f"...{avg:.1f}..."` formatting of the insight is not modelled. Nlq.Insights keeps the exact
  average as a `real`. Python's float division and one-decimal rounding are left out.
- The `properties` dictionary of an event is not modelled: neither the request nor the stored
  event has such a field. The event's timestamp is the `now` parameter rather than generated.
- Lower-casing (`toLowerCase`) and `str.isdigit` are ASCII only in the model. The Unicode case
  mappings and Unicode digit classes are not modelled.
- Dashboard.RoundedShare uses exact rationals. JavaScript's floating-point division and
  `Math.round` can differ from exact rounding at halves that floats cannot represent.
- Dashboard.BarHeights uses exact reals rather than IEEE doubles.
- The migration's progress prints, its final re-count and its environment checks are left out.
  The MongoDB cursor and the per-document `update_one` are left out too. The model is one pass
  over an in-memory array.
- The dashboard's rendering, toasts, the download link and the hard-coded percentage changes
  (12, 8, 15) are not modelled. The loading state and the other UI components are not modelled
  either.
- The JWT issuing path (`create_token`, registration, login) and the project CRUD routes are not
  modelled. The CSV export endpoint and the GeoIP downloader are not part of this model.
- The NLQ prompt text and the `system_message` JSON serialisation are not modelled. The summary is
  modelled as a value.

## Findings

| source | as written | input that shows it | evidently intended | confidence | as-written member | corrected member |
|---|---|---|---|---|---|---|
| frontend/src/components/AnalyticsDashboard.js:46 | `/filename="?(.+)"?/`: the greedy `.+` takes the closing quote, and the trailing `"?` then matches nothing | header `attachment; filename="report.csv"` gives the file name `report.csv"` | the name without its surrounding quotes, `report.csv` (for example `/filename="?([^"\r\n\u2028\u2029]+)"?/`) | high; follows from the regex semantics, not executed | Dashboard.QuotedNameKeepsClosingQuote | Dashboard.UnquotedNameRoundTrip |
