/** The social feed simulator: the advisory feed kept in step with the
    server's broadcasts, and the composer whose post button drives the
    status machine IDLE, PROCESSING, PUBLISHING, SENT or ERROR, IDLE.

    The awaited analysis and publish calls are parameters of `HandlePost`;
    the delayed status resets are the separate step `FireTimer`.
 */
module SocialFeed {
  import opened Records
  import opened ServerStore

  // ---------------------------------------------------------------------
  // The feed reducer
  // ---------------------------------------------------------------------

  /** Initial load: `data.advisories || []`. */
  function InitialFeed(advisories: Option<seq<Advisory>>): seq<Advisory> {
    if advisories.Some? then advisories.value else []
  }

  /** The two feed handlers: a posted advisory goes in front, a clear empties
      the feed; the simulator does not listen to the other events. */
  function ApplyFeedEvent(feed: seq<Advisory>, e: Event): seq<Advisory> {
    match e
    case AdvisoryPosted(a) => [a] + feed
    case AdvisoriesCleared => []
    case _ => feed
  }

  /** The feed after a sequence of broadcasts, oldest first. */
  function FeedAfter(feed: seq<Advisory>, evs: seq<Event>): seq<Advisory>
    decreases |evs|
  {
    if evs == [] then feed else FeedAfter(ApplyFeedEvent(feed, evs[0]), evs[1..])
  }

  /** The advisories posted by a sequence of broadcasts, oldest first. */
  function Posted(evs: seq<Event>): seq<Advisory> {
    if evs == [] then []
    else if evs[0].AdvisoryPosted? then [evs[0].advisory] + Posted(evs[1..])
    else Posted(evs[1..])
  }

  predicate NoClear(evs: seq<Event>) {
    forall i :: 0 <= i < |evs| ==> !evs[i].AdvisoriesCleared?
  }

  function Reverse<T>(s: seq<T>): (r: seq<T>)
    ensures |r| == |s|
  {
    if s == [] then [] else Reverse(s[1..]) + [s[0]]
  }

  lemma {:induction false} ReverseSnoc<T>(s: seq<T>, x: T)
    ensures Reverse(s + [x]) == [x] + Reverse(s)
    decreases |s|
  {
    if s == [] {
      assert s + [x] == [x];
      assert [x][1..] == [];
    } else {
      assert (s + [x])[1..] == s[1..] + [x] && (s + [x])[0] == s[0];
      ReverseSnoc(s[1..], x);
    }
  }

  /** Without a clear, the feed gains the posted advisories newest first in
      front of what it held; earlier entries keep their relative order. */
  lemma {:induction false} FeedWithoutClear(feed: seq<Advisory>, evs: seq<Event>)
    requires NoClear(evs)
    ensures FeedAfter(feed, evs) == Reverse(Posted(evs)) + feed
    decreases |evs|
  {
    if evs != [] {
      assert NoClear(evs[1..]) by {
        forall i | 0 <= i < |evs| - 1 ensures !evs[1..][i].AdvisoriesCleared? {
          assert evs[1..][i] == evs[i + 1];
        }
      }
      var e, rest := evs[0], evs[1..];
      FeedWithoutClear(ApplyFeedEvent(feed, e), rest);
      assert FeedAfter(feed, evs) == Reverse(Posted(rest)) + ApplyFeedEvent(feed, e);
      if e.AdvisoryPosted? {
        var p := [e.advisory] + Posted(rest);
        assert Posted(evs) == p;
        assert p[1..] == Posted(rest) && p[0] == e.advisory;
        assert Reverse(p) == Reverse(Posted(rest)) + [e.advisory];
      } else {
        assert !e.AdvisoriesCleared?;
        assert Posted(evs) == Posted(rest);
      }
    }
  }

  /** Handling broadcasts in two batches is handling them in one. */
  lemma {:induction false} FeedAfterAppend(feed: seq<Advisory>, a: seq<Event>, b: seq<Event>)
    ensures FeedAfter(feed, a + b) == FeedAfter(FeedAfter(feed, a), b)
    decreases |a|
  {
    if a == [] {
      assert a + b == b;
    } else {
      assert (a + b)[0] == a[0] && (a + b)[1..] == a[1..] + b;
      FeedAfterAppend(ApplyFeedEvent(feed, a[0]), a[1..], b);
    }
  }

  /** A clear forgets everything before it: the feed afterwards holds only
      the advisories posted since, newest first. */
  lemma FeedAfterLastClear(feed: seq<Advisory>, before: seq<Event>, after: seq<Event>)
    requires NoClear(after)
    ensures FeedAfter(feed, before + [AdvisoriesCleared] + after) == Reverse(Posted(after))
  {
    FeedAfterAppend(feed, before + [AdvisoriesCleared], after);
    FeedAfterAppend(feed, before, [AdvisoriesCleared]);
    FeedWithoutClear([], after);
  }

  /** A client whose feed shows the store's advisories newest first keeps
      doing so across each of the store's broadcasts: a posted advisory is
      the one the store appended, and a clear comes with an emptied store. */
  lemma FeedMirrorsStore(advisories: seq<Advisory>, a: Advisory, incidents: seq<Incident>, units: seq<ForceUnit>,
                         newIncident: Option<Incident>)
    ensures ApplyFeedEvent(Reverse(advisories), AdvisoryPosted(a)) == Reverse(advisories + [a])
    ensures FeedAfter(Reverse(advisories), [IncidentAlert([], units, None), AdvisoriesCleared]) == Reverse([])
    ensures ApplyFeedEvent(Reverse(advisories), IncidentAlert(incidents, units, newIncident)) == Reverse(advisories)
    ensures ApplyFeedEvent(Reverse(advisories), UnitsUpdated(units)) == Reverse(advisories)
  {
    ReverseSnoc(advisories, a);
    var evs := [IncidentAlert([], units, None), AdvisoriesCleared];
    assert evs[1..] == [AdvisoriesCleared] && [AdvisoriesCleared][1..] == [];
    assert FeedAfter(Reverse(advisories), evs) == FeedAfter(Reverse(advisories), [AdvisoriesCleared]);
  }

  // ---------------------------------------------------------------------
  // The post status machine
  // ---------------------------------------------------------------------

  const PROCESSING := "PROCESSING"
  const PUBLISHING := "PUBLISHING"
  const SENT := "SENT"
  const ERROR := "ERROR"

  /** The status changes the composer may make. */
  predicate Transition(from: string, to: string) {
    || (from == IDLE && to == PROCESSING)
    || (from == PROCESSING && (to == PUBLISHING || to == ERROR))
    || (from == PUBLISHING && (to == SENT || to == ERROR))
    || ((from == SENT || from == ERROR) && to == IDLE)
  }

  /** Every consecutive pair of the trace is a transition. */
  predicate IsWalk(trace: seq<string>) {
    forall i :: 0 <= i < |trace| - 1 ==> Transition(trace[i], trace[i + 1])
  }

  /** How a post's awaited calls end: the analysis request throws (an error
      response or no connection), or it answers and the incident POST then
      reaches the server or fails to connect.  An error status from the
      incident POST does not throw and counts as reaching the server. */
  datatype PostOutcome = AnalysisFailed | Analyzed(data: IncidentBody, reachedServer: bool)

  function Succeeded(outcome: PostOutcome): bool {
    outcome.Analyzed? && outcome.reachedServer
  }

  /** The statuses `handlePost` sets, in order. */
  function PostTrace(outcome: PostOutcome): seq<string> {
    match outcome
    case AnalysisFailed => [PROCESSING, ERROR]
    case Analyzed(_, reached) => if reached then [PROCESSING, PUBLISHING, SENT] else [PROCESSING, PUBLISHING, ERROR]
  }

  /** A post walks from PROCESSING to SENT exactly when it succeeds and to
      ERROR otherwise, and can follow an idle composer. */
  lemma PostTraceIsWalk(outcome: PostOutcome)
    ensures var t := PostTrace(outcome);
      && t[0] == PROCESSING && IsWalk(t) && IsWalk([IDLE] + t)
      && (t[|t| - 1] == SENT <==> Succeeded(outcome))
      && (t[|t| - 1] == ERROR <==> !Succeeded(outcome))
  {
    var t := PostTrace(outcome);
    assert ([IDLE] + t)[1..] == t;
  }

  /** A walk extended by a walk that may follow its last status is a walk. */
  lemma WalkAppend(a: seq<string>, b: seq<string>)
    requires a != [] && IsWalk(a) && IsWalk([a[|a| - 1]] + b)
    ensures IsWalk(a + b)
  {
    var ab := a + b;
    forall i | 0 <= i < |ab| - 1 ensures Transition(ab[i], ab[i + 1]) {
      if i >= |a| - 1 {
        assert ab[i] == ([a[|a| - 1]] + b)[i - |a| + 1];
        assert ab[i + 1] == ([a[|a| - 1]] + b)[i - |a| + 2];
      }
    }
  }

  /** A pending `setTimeout` callback of `handlePost`. */
  datatype Timer = AfterSent | AfterError

  /** A selected media file; `preview` holds its object URL. */
  datatype MediaFile = MediaFile(name: string, mimeType: string)

  class SocialSimulator {
    var text: string
    var file: Option<MediaFile>
    var preview: Option<string>
    var status: string
    var advisories: seq<Advisory>
    /** Every status set so far, starting with the initial IDLE. */
    var statusLog: seq<string>
    /** The bodies sent to `POST /api/incident`, oldest first. */
    var published: seq<IncidentBody>
    /** The reset scheduled by the last post, if it has not fired yet. */
    var pending: Option<Timer>

    /** Between steps the composer rests only in IDLE, SENT or ERROR; a SENT
        or ERROR status always has its matching reset pending; the status
        log is a walk from IDLE ending in the current status. */
    ghost predicate Valid()
      reads this
    {
      && (status == IDLE || status == SENT || status == ERROR)
      && (status == IDLE <==> pending.None?)
      && (status == SENT <==> pending == Some(AfterSent))
      && (status == ERROR <==> pending == Some(AfterError))
      && statusLog != [] && statusLog[0] == IDLE && statusLog[|statusLog| - 1] == status
      && IsWalk(statusLog)
    }

    constructor ()
      ensures Valid()
      ensures text == "" && file.None? && preview.None? && status == IDLE
      ensures advisories == [] && published == []
    {
      text, file, preview, status := "", None, None, IDLE;
      advisories, statusLog, published, pending := [], [IDLE], [], None;
    }

    /** The post button's enabled state: pressing it is only possible in
        the state `HandlePost` requires. */
    predicate PostEnabled(): (b: bool)
      reads this
      ensures b ==> status == IDLE && (text != "" || file.Some?)
      ensures status != IDLE ==> !b
    {
      status == IDLE && (text != "" || file.Some?)
    }

    method SetText(t: string)
      modifies this
      requires Valid()
      ensures Valid()
      ensures text == t
      ensures file == old(file) && preview == old(preview) && status == old(status)
      ensures advisories == old(advisories) && published == old(published)
      ensures statusLog == old(statusLog) && pending == old(pending)
    {
      text := t;
    }

    /** `handleFileSelect`: an empty selection changes nothing. */
    method SelectFile(selected: Option<MediaFile>, objectUrl: string)
      modifies this
      requires Valid()
      ensures Valid()
      ensures selected.Some? ==> file == selected && preview == Some(objectUrl)
      ensures selected.None? ==> file == old(file) && preview == old(preview)
      ensures text == old(text) && status == old(status)
      ensures advisories == old(advisories) && published == old(published)
      ensures statusLog == old(statusLog) && pending == old(pending)
    {
      if selected.Some? {
        file, preview := selected, Some(objectUrl);
      }
    }

    /** `clearFile`. */
    method ClearFile()
      modifies this
      requires Valid()
      ensures Valid()
      ensures file.None? && preview.None?
      ensures text == old(text) && status == old(status)
      ensures advisories == old(advisories) && published == old(published)
      ensures statusLog == old(statusLog) && pending == old(pending)
    {
      file, preview := None, None;
    }

    /** Initial load of the feed from `/api/data`. */
    method LoadInitial(data: Option<seq<Advisory>>)
      modifies this
      requires Valid()
      ensures Valid()
      ensures advisories == InitialFeed(data)
      ensures text == old(text) && file == old(file) && preview == old(preview)
      ensures status == old(status) && published == old(published)
      ensures statusLog == old(statusLog) && pending == old(pending)
    {
      advisories := InitialFeed(data);
    }

    /** A broadcast reaching the simulator. */
    method ReceiveEvent(e: Event)
      modifies this
      requires Valid()
      ensures Valid()
      ensures advisories == ApplyFeedEvent(old(advisories), e)
      ensures text == old(text) && file == old(file) && preview == old(preview)
      ensures status == old(status) && published == old(published)
      ensures statusLog == old(statusLog) && pending == old(pending)
    {
      advisories := ApplyFeedEvent(advisories, e);
    }

    /** `handlePost`, pressed while the button is enabled.  With neither text
        nor file nothing happens; otherwise the statuses of `PostTrace` are
        set in turn, a successful analysis result is published, and the
        matching reset is scheduled.  Text and file stay until it fires. */
    method HandlePost(outcome: PostOutcome)
      modifies this
      requires Valid() && status == IDLE
      ensures Valid()
      ensures text == "" && file.None? ==>
        statusLog == old(statusLog) && status == old(status) && published == old(published)
      ensures text != "" || file.Some? ==>
        && statusLog == old(statusLog) + PostTrace(outcome)
        && status == (if Succeeded(outcome) then SENT else ERROR)
        && published == old(published) + (if outcome.Analyzed? && outcome.reachedServer then [outcome.data] else [])
      ensures text == old(text) && file == old(file) && preview == old(preview)
      ensures advisories == old(advisories)
    {
      if text == "" && file.None? {
        return;
      }
      PostTraceIsWalk(outcome);
      WalkAppend(statusLog, PostTrace(outcome));
      statusLog := statusLog + [PROCESSING];
      if outcome.AnalysisFailed? {
        statusLog := statusLog + [ERROR];
        status := ERROR;
        pending := Some(AfterError);
        return;
      }
      statusLog := statusLog + [PUBLISHING];
      if !outcome.reachedServer {
        statusLog := statusLog + [ERROR];
        status := ERROR;
        pending := Some(AfterError);
        return;
      }
      published := published + [outcome.data];
      statusLog := statusLog + [SENT];
      status := SENT;
      pending := Some(AfterSent);
    }

    /** The scheduled reset fires: after a success the composer is emptied;
        after an error only the status returns to IDLE. */
    method FireTimer()
      modifies this
      requires Valid() && pending.Some?
      ensures Valid()
      ensures status == IDLE && statusLog == old(statusLog) + [IDLE]
      ensures old(pending) == Some(AfterSent) ==> text == "" && file.None? && preview.None?
      ensures old(pending) == Some(AfterError) ==>
        text == old(text) && file == old(file) && preview == old(preview)
      ensures advisories == old(advisories) && published == old(published)
    {
      WalkAppend(statusLog, [IDLE]);
      if pending == Some(AfterSent) {
        text := "";
        file, preview := None, None;
      }
      status := IDLE;
      statusLog := statusLog + [IDLE];
      pending := None;
    }
  }
}
