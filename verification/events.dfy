/** The event record stored by the tracking endpoint (backend/server.py, class `Event`), with the
    `continent` field that the migration script back-fills. */
module Events {
  import opened Wrappers
  import opened Strings

  /** One stored event document. `ip_hash` is the anonymised IP; `continent` is `None` when the field
      is missing from the document or holds `None`. `timestamp` is the stored ISO-8601 string. */
  datatype Event = Event(
    id: string,
    projectId: string,
    sessionId: string,
    eventType: string,
    eventName: Option<string>,
    pageUrl: Option<string>,
    pageTitle: Option<string>,
    referrer: Option<string>,
    userAgent: Option<string>,
    ipHash: Option<string>,
    timestamp: string,
    continent: Option<string>)

  /** `e['event_type'] == 'pageview'`. */
  predicate IsPageview(e: Event) {
    e.eventType == "pageview"
  }

  /** `e['event_type'] == 'pageview' and e.get('page_url')`: a pageview whose URL is present and
      non-empty (Python treats `None` and `''` as false). */
  predicate IsPageHit(e: Event) {
    IsPageview(e) && e.pageUrl.Some? && e.pageUrl.value != ""
  }

  /** `e['timestamp'][:10]`: the `YYYY-MM-DD` part of the stored timestamp. */
  function DateKey(e: Event): (d: string)
    ensures StartsWith(e.timestamp, d)
    ensures |d| == if |e.timestamp| < 10 then |e.timestamp| else 10
  {
    Take(e.timestamp, 10)
  }
}
