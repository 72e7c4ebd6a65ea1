/** Event ingestion in backend/server.py (`track_event`): the tracking-code check, the consent
    gate, IP anonymisation and the insertion of the stored event. SHA-256 is a library call and is
    passed in as a function; the new event's id and the current time are parameters. */
module Tracking {
  import opened Wrappers
  import opened Strings
  import opened Events
  import Continents

  /** The request body (`EventCreate`). */
  datatype EventInput = EventInput(
    projectId: string,
    trackingCode: string,
    sessionId: string,
    eventType: string,
    eventName: Option<string>,
    pageUrl: Option<string>,
    pageTitle: Option<string>,
    referrer: Option<string>,
    userAgent: Option<string>,
    ipAddress: Option<string>,
    consentGiven: bool)

  /** A stored project with its privacy settings (an empty map when the document has none). */
  datatype Project = Project(id: string, tenantId: string, trackingCode: string, privacySettings: map<string, bool>)

  /** What the endpoint answers when it does not raise. */
  datatype TrackStatus = ConsentRequired | Tracked(eventId: string)

  const InvalidProject: HttpError := HttpError(403, "Invalid project or tracking code")

  /** `privacy_settings.get(name, default)`. */
  function Setting(settings: map<string, bool>, name: string, default: bool): bool {
    if name in settings then settings[name] else default
  }

  /** The consent gate: a project requires consent unless its settings say otherwise, and then an
      event sent without consent is refused. Consent is required by default, an event that
      carries consent always passes, and a project that switched the requirement off lets every
      event through. */
  predicate ConsentMissing(settings: map<string, bool>, consentGiven: bool): (missing: bool)
    ensures "require_consent" !in settings ==> (missing <==> !consentGiven)
    ensures consentGiven ==> !missing
    ensures "require_consent" in settings && !settings["require_consent"] ==> !missing
    ensures "require_consent" in settings && settings["require_consent"] && !consentGiven ==> missing
  {
    Setting(settings, "require_consent", true) && !consentGiven
  }

  /** `hashlib.sha256(ip.encode()).hexdigest()[:16]` when an address was sent and anonymisation is
      on (the default); otherwise nothing is stored. The raw address is never stored. */
  function AnonymizedIp(ip: Option<string>, settings: map<string, bool>, sha256Hex: string -> string): (h: Option<string>)
    ensures h.Some? <==> ip.Some? && ip.value != "" && Setting(settings, "anonymize_ip", true)
    ensures h.Some? ==> StartsWith(sha256Hex(ip.value), h.value)
    ensures h.Some? ==> |h.value| == if |sha256Hex(ip.value)| < 16 then |sha256Hex(ip.value)| else 16
  {
    if ip.Some? && ip.value != "" && Setting(settings, "anonymize_ip", true) then
      Some(Take(sha256Hex(ip.value), 16))
    else None
  }

  /** The stored `Event`: the request's fields, the anonymised IP, a fresh id and the server's
      clock; no continent yet. */
  function StoredEvent(input: EventInput, ipHash: Option<string>, id: string, now: string): (e: Event)
    ensures e.id == id && e.projectId == input.projectId && e.sessionId == input.sessionId
    ensures e.eventType == input.eventType && e.eventName == input.eventName && e.pageUrl == input.pageUrl
    ensures e.pageTitle == input.pageTitle && e.referrer == input.referrer && e.userAgent == input.userAgent
    ensures e.ipHash == ipHash && e.timestamp == now && e.continent.None?
    ensures IsPageview(e) <==> input.eventType == "pageview"
    ensures IsPageHit(e) <==> input.eventType == "pageview" && input.pageUrl.Some? && input.pageUrl.value != ""
  {
    Event(id, input.projectId, input.sessionId, input.eventType, input.eventName, input.pageUrl,
          input.pageTitle, input.referrer, input.userAgent, ipHash, now, None)
  }

  /** A freshly stored event has no continent, so the continent back-fill picks it up and gives it
      the continent of its anonymised IP. */
  lemma StoredEventAwaitsBackfill(input: EventInput, ipHash: Option<string>, id: string, now: string)
    ensures Continents.LacksContinent(StoredEvent(input, ipHash, id, now))
    ensures Continents.Backfilled(StoredEvent(input, ipHash, id, now)).continent == Some(Continents.ContinentFor(ipHash))
  {
  }

  /** `db.projects.find_one({"id": projectId, "tracking_code": trackingCode})`. */
  function FindProject(projects: seq<Project>, projectId: string, trackingCode: string): (p: Option<Project>)
    ensures p.Some? ==> p.value in projects && p.value.id == projectId && p.value.trackingCode == trackingCode
    ensures p.None? ==> forall q :: q in projects ==> !(q.id == projectId && q.trackingCode == trackingCode)
  {
    if projects == [] then None
    else if projects[0].id == projectId && projects[0].trackingCode == trackingCode then Some(projects[0])
    else FindProject(projects[1..], projectId, trackingCode)
  }

  /** The two collections the endpoint touches. */
  class Store {
    var projects: seq<Project>
    var events: seq<Event>

    constructor(projects: seq<Project>)
      ensures this.projects == projects && events == []
    {
      this.projects := projects;
      events := [];
    }

    /** `POST /api/track`. Only a tracked event is appended; a bad tracking code or missing consent
        leaves the event collection as it was. */
    method Track(input: EventInput, sha256Hex: string -> string, newId: string, now: string)
      returns (r: Result<TrackStatus, HttpError>)
      modifies this`events
      ensures var found := FindProject(projects, input.projectId, input.trackingCode);
        && (r.Err? <==> found.None?)
        && (r.Err? ==> r.error == InvalidProject)
        && (r == Ok(ConsentRequired) <==> found.Some? && ConsentMissing(found.value.privacySettings, input.consentGiven))
        && (r.Ok? && r.value.Tracked? ==>
              r.value.eventId == newId &&
              events == old(events) + [StoredEvent(input, AnonymizedIp(input.ipAddress, found.value.privacySettings, sha256Hex), newId, now)])
        && (!(r.Ok? && r.value.Tracked?) ==> events == old(events))
    {
      var project := FindProject(projects, input.projectId, input.trackingCode);
      if project.None? {
        return Err(InvalidProject);
      }
      var privacySettings := project.value.privacySettings;
      if Setting(privacySettings, "require_consent", true) && !input.consentGiven {
        return Ok(ConsentRequired);
      }
      var ipHash := AnonymizedIp(input.ipAddress, privacySettings, sha256Hex);
      var event := StoredEvent(input, ipHash, newId, now);
      events := events + [event];
      r := Ok(Tracked(newId));
    }
  }
}
