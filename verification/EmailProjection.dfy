/**
 Projecting delivery events of one email attempt onto its audit row and onto the
 summary of the invite.
 */
module EmailProjection {
  import opened Options

  const STATUS_RANK: map<string, int> := map[
    "queued" := 10, "submitted" := 20, "delivered" := 30, "failed" := 40,
    "bounced" := 50, "complained" := 60, "suppressed" := 70, "skipped" := 80]

  datatype Event = Event(
    status: string, at: Option<int>, reason: Option<string>, messageId: Option<string>, eventKey: Option<string>)

  datatype Summary = Summary(
    status: string, lastEventAt: Option<int>, error: Option<string>, sentAt: Option<int>, messageId: Option<string>)

  datatype Audit = Audit(
    status: string, lastEventAt: Option<int>, reason: Option<string>, messageId: Option<string>,
    eventKey: Option<string>, submittedAt: Option<int>)

  predicate Ranked(status: string) {
    status in STATUS_RANK
  }

  function Rank(status: string): int {
    if Ranked(status) then STATUS_RANK[status] else -1
  }

  /** The incoming status is at least as authoritative; one without a rank counts as much as the current one. */
  predicate ShouldPromoteStatus(current: Option<string>, incoming: string) {
    var currentRank := Rank(Coalesce(current, ""));
    (if Ranked(incoming) then STATUS_RANK[incoming] else currentRank) >= currentRank
  }

  /** Python truth of an optional string. */
  predicate Given(s: Option<string>) {
    s.Some? && s.value != ""
  }

  function ProjectAudit(a: Audit, e: Event, now: int): Audit {
    var at := Coalesce(e.at, now);
    Audit(e.status, Some(at), e.reason,
          if Given(e.messageId) then e.messageId else a.messageId,
          if Given(e.eventKey) then e.eventKey else a.eventKey,
          if e.status == "submitted" && a.submittedAt.None? then Some(at) else a.submittedAt)
  }

  function ProjectSummary(s: Summary, e: Event, now: int): Summary {
    if !ShouldPromoteStatus(Some(s.status), e.status) then s
    else
      var at := Coalesce(e.at, now);
      Summary(e.status, Some(at), e.reason,
              if e.status == "submitted" then Some(at) else s.sentAt,
              if Given(e.messageId) then e.messageId else s.messageId)
  }

  /** The order of the statuses. */
  lemma RanksAscend()
    ensures 0 <= Rank("queued") < Rank("submitted") < Rank("delivered") < Rank("failed") < Rank("bounced")
              < Rank("complained") < Rank("suppressed") < Rank("skipped")
    ensures forall status ::
              Ranked(status) <==> status in ["queued", "submitted", "delivered", "failed", "bounced", "complained", "suppressed", "skipped"]
    ensures forall status :: !Ranked(status) ==> Rank(status) < 0
  {
  }

  /**
   The summary an event leaves, in columns: unless the event has a rank below the one
   shown, its status, time and reason; a submission's time as the time of sending; and
   the message id, if it is given and not empty. Otherwise it is as before.
   */
  lemma SummaryInColumns(s: Summary, e: Event, now: int)
    ensures var s1 := ProjectSummary(s, e, now); var at := if e.at.Some? then e.at.value else now;
            if Ranked(e.status) && Rank(e.status) < Rank(s.status) then s1 == s
            else
              s1.status == e.status && s1.lastEventAt == Some(at) && s1.error == e.reason &&
              s1.sentAt == (if e.status == "submitted" then Some(at) else s.sentAt) &&
              s1.messageId == if e.messageId.Some? && |e.messageId.value| > 0 then e.messageId else s.messageId
  {
  }

  /** The audit row an event leaves: its status, time and reason, the first submission's time, and the ids last given. */
  lemma AuditInColumns(a: Audit, e: Event, now: int)
    ensures var a1 := ProjectAudit(a, e, now); var at := if e.at.Some? then e.at.value else now;
            a1.status == e.status && a1.lastEventAt == Some(at) && a1.reason == e.reason &&
            a1.submittedAt == (if e.status == "submitted" && a.submittedAt == None then Some(at) else a.submittedAt) &&
            a1.messageId == (if e.messageId.Some? && |e.messageId.value| > 0 then e.messageId else a.messageId) &&
            a1.eventKey == if e.eventKey.Some? && |e.eventKey.value| > 0 then e.eventKey else a.eventKey
  {
  }

  // --- the rows ---

  class Invite {
    var status: string
    var lastEventAt: Option<int>
    var error: Option<string>
    var sentAt: Option<int>
    var messageId: Option<string>

    function Value(): Summary
      reads this
    {
      Summary(status, lastEventAt, error, sentAt, messageId)
    }

    constructor (s: Summary)
      ensures Value() == s
    {
      status, lastEventAt, error, sentAt, messageId := s.status, s.lastEventAt, s.error, s.sentAt, s.messageId;
    }
  }

  class Attempt {
    var status: string
    var lastEventAt: Option<int>
    var reason: Option<string>
    var messageId: Option<string>
    var eventKey: Option<string>
    var submittedAt: Option<int>

    function Value(): Audit
      reads this
    {
      Audit(status, lastEventAt, reason, messageId, eventKey, submittedAt)
    }

    constructor (a: Audit)
      ensures Value() == a
    {
      status, lastEventAt, reason := a.status, a.lastEventAt, a.reason;
      messageId, eventKey, submittedAt := a.messageId, a.eventKey, a.submittedAt;
    }
  }

  method ApplyAttemptProjection(invite: Invite, attempt: Attempt, e: Event, now: int)
    modifies invite, attempt
    ensures attempt.Value() == ProjectAudit(old(attempt.Value()), e, now)
    ensures invite.Value() == ProjectSummary(old(invite.Value()), e, now)
  {
    var effectiveAt := if e.at.Some? then e.at.value else now;
    attempt.status := e.status;
    attempt.lastEventAt := Some(effectiveAt);
    attempt.reason := e.reason;
    if Given(e.messageId) {
      attempt.messageId := e.messageId;
    }
    if Given(e.eventKey) {
      attempt.eventKey := e.eventKey;
    }
    if e.status == "submitted" && attempt.submittedAt == None {
      attempt.submittedAt := Some(effectiveAt);
    }
    if ShouldPromoteStatus(Some(invite.status), e.status) {
      invite.status := e.status;
      invite.lastEventAt := Some(effectiveAt);
      invite.error := e.reason;
      if e.status == "submitted" {
        invite.sentAt := Some(effectiveAt);
      }
      if Given(e.messageId) {
        invite.messageId := e.messageId;
      }
    }
  }

  // --- runs ---

  function Statuses(events: seq<Event>): seq<string> {
    seq(|events|, i requires 0 <= i < |events| => events[i].status)
  }

  predicate AllRanked(events: seq<Event>) {
    forall e | e in events :: Ranked(e.status)
  }

  /** The summary after events, each projected at its own time. */
  function Projected(s: Summary, events: seq<Event>, times: seq<int>): Summary
    requires |times| == |events|
  {
    if events == [] then s
    else
      var n := |events| - 1;
      ProjectSummary(Projected(s, events[..n], times[..n]), events[n], times[n])
  }

  function ProjectedAudit(a: Audit, events: seq<Event>, times: seq<int>): Audit
    requires |times| == |events|
  {
    if events == [] then a
    else
      var n := |events| - 1;
      ProjectAudit(ProjectedAudit(a, events[..n], times[..n]), events[n], times[n])
  }

  /** `status` is the initial or an event's status, and none of those ranks higher. */
  predicate IsHighest(status: string, initial: string, events: seq<Event>) {
    (status == initial || exists e :: e in events && e.status == status) &&
    Rank(initial) <= Rank(status) && forall e | e in events :: Rank(e.status) <= Rank(status)
  }

  lemma RanksDiffer(a: string, b: string)
    requires Ranked(a) && Rank(a) == Rank(b)
    ensures a == b
  {
  }

  /** After any events with ranked statuses the summary shows the highest-ranked status there has been. */
  lemma {:induction false} SummaryShowsHighest(s: Summary, events: seq<Event>, times: seq<int>)
    requires |times| == |events| && AllRanked(events)
    ensures IsHighest(Projected(s, events, times).status, s.status, events)
  {
    if events != [] {
      var n := |events| - 1;
      assert events == events[..n] + [events[n]];
      SummaryShowsHighest(s, events[..n], times[..n]);
    }
  }

  /** The rank of the summary's status never falls while events arrive. */
  lemma RankNeverFalls(s: Summary, events: seq<Event>, times: seq<int>, k: nat)
    requires |times| == |events| && AllRanked(events) && k <= |events|
    ensures Rank(Projected(s, events[..k], times[..k]).status) <= Rank(Projected(s, events, times).status)
  {
    SummaryShowsHighest(s, events[..k], times[..k]);
    SummaryShowsHighest(s, events, times);
  }

  /** The same events in another order, at whatever times, give the same status. */
  lemma OrderDoesNotMatter(s: Summary, a: seq<Event>, timesA: seq<int>, b: seq<Event>, timesB: seq<int>)
    requires |timesA| == |a| && |timesB| == |b| && AllRanked(a)
    requires multiset(Statuses(a)) == multiset(Statuses(b))
    ensures Projected(s, a, timesA).status == Projected(s, b, timesB).status
  {
    SameStatuses(b, a);
    SameStatuses(a, b);
    SummaryShowsHighest(s, a, timesA);
    RankedToo(a, b);
    SummaryShowsHighest(s, b, timesB);
    HighestIsUnique(Projected(s, a, timesA).status, Projected(s, b, timesB).status, s.status, a, b);
  }

  lemma RankedToo(a: seq<Event>, b: seq<Event>)
    requires AllRanked(a) && forall e | e in b :: exists other :: other in a && other.status == e.status
    ensures AllRanked(b)
  {
  }

  lemma HighestIsUnique(x: string, y: string, initial: string, a: seq<Event>, b: seq<Event>)
    requires IsHighest(x, initial, a) && IsHighest(y, initial, b) && AllRanked(a) && AllRanked(b)
    requires forall e | e in a :: exists other :: other in b && other.status == e.status
    requires forall e | e in b :: exists other :: other in a && other.status == e.status
    ensures x == y
  {
    assert Rank(x) <= Rank(y) <= Rank(x);
    if Ranked(x) { RanksDiffer(x, y); }
  }

  lemma SameStatuses(a: seq<Event>, b: seq<Event>)
    requires multiset(Statuses(a)) == multiset(Statuses(b))
    ensures forall e | e in a :: exists other :: other in b && other.status == e.status
  {
    forall e | e in a ensures exists other :: other in b && other.status == e.status {
      var i :| 0 <= i < |a| && a[i] == e;
      assert Statuses(a)[i] in multiset(Statuses(a));
      assert e.status in Statuses(b);
      var j :| 0 <= j < |Statuses(b)| && Statuses(b)[j] == e.status;
      assert b[j] in b;
    }
  }

  /** The last event that brought the status shown, if an event did. */
  predicate LastOfStatus(events: seq<Event>, k: nat, status: string) {
    k < |events| && events[k].status == status && forall m | k < m < |events| :: events[m].status != status
  }

  /** Time and error of the summary are those of the last event that has the status shown. */
  lemma {:induction false} DetailsOfLastHighest(s: Summary, events: seq<Event>, times: seq<int>, k: nat)
    requires |times| == |events| && AllRanked(events)
    requires LastOfStatus(events, k, Projected(s, events, times).status)
    ensures Projected(s, events, times).lastEventAt == Some(Coalesce(events[k].at, times[k]))
    ensures Projected(s, events, times).error == events[k].reason
  {
    var n := |events| - 1;
    var before := Projected(s, events[..n], times[..n]);
    assert events[n] in events;
    assert events == events[..n] + [events[n]];
    if k < n {
      assert events[k] in events[..n];
      SummaryShowsHighest(s, events[..n], times[..n]);
      assert before.status == Projected(s, events, times).status;
      DetailsOfLastHighest(s, events[..n], times[..n], k);
    }
  }

  /** The audit row always shows the last event, whatever its rank, and keeps the first submission. */
  lemma {:induction false} AuditShowsLast(a: Audit, events: seq<Event>, times: seq<int>)
    requires |times| == |events|
    ensures events != [] ==>
              ProjectedAudit(a, events, times).status == events[|events| - 1].status &&
              ProjectedAudit(a, events, times).reason == events[|events| - 1].reason
    ensures ProjectedAudit(a, events, times).submittedAt ==
              if a.submittedAt.Some? then a.submittedAt else FirstSubmission(events, times)
  {
    if events != [] {
      var n := |events| - 1;
      AuditShowsLast(a, events[..n], times[..n]);
      FirstSubmissionSnoc(events, times);
    }
  }

  function FirstSubmission(events: seq<Event>, times: seq<int>): Option<int>
    requires |times| == |events|
  {
    if events == [] then None
    else if events[0].status == "submitted" then Some(Coalesce(events[0].at, times[0]))
    else FirstSubmission(events[1..], times[1..])
  }

  lemma {:induction false} FirstSubmissionSnoc(events: seq<Event>, times: seq<int>)
    requires |times| == |events| && events != []
    ensures var n := |events| - 1; var before := FirstSubmission(events[..n], times[..n]);
            FirstSubmission(events, times) ==
              if before.Some? then before
              else if events[n].status == "submitted" then Some(Coalesce(events[n].at, times[n])) else None
  {
    var n := |events| - 1;
    if n > 0 && events[0].status != "submitted" {
      FirstSubmissionSnoc(events[1..], times[1..]);
      assert events[1..][..n - 1] == events[..n][1..] && times[1..][..n - 1] == times[..n][1..];
    }
  }

  /** One event lowers the rank exactly when its status has no rank and the current one has. */
  lemma RankFallsExactly(s: Summary, e: Event, now: int)
    ensures Rank(ProjectSummary(s, e, now).status) < Rank(s.status) <==> !Ranked(e.status) && Ranked(s.status)
  {
  }

  /** So an invite that bounced shows a later event without a rank. */
  lemma UnrankedEventHidesBounce(e: Event, s: Summary, now: int)
    requires s.status == "bounced" && e.status == "opened"
    ensures ProjectSummary(s, e, now).status == "opened"
    ensures Rank(ProjectSummary(s, e, now).status) < Rank(s.status)
  {
    RankFallsExactly(s, e, now);
  }
}
