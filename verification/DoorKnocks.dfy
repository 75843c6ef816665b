/**
 Recording door knocks posted by devices that may post the same knock again.
 */
module DoorKnocks {
  import opened Options

  datatype Kind = DoorKnock | SurveyResponse

  datatype Interaction = Interaction(
    campaign: nat, voter: nat, kind: Kind, clientUuid: Option<nat>, payload: Payload, user: string)

  datatype Payload =
    | KnockPayload(result: string, list: nat, notes: Option<string>, surveyComplete: bool, script: Option<nat>, answered: nat)
    | SurveyPayload(surveyScript: nat, answers: seq<string>)

  datatype WalkEntry = WalkEntry(list: nat, visited: bool)

  datatype WalkList = WalkList(script: Option<nat>, visitedEntries: int)

  /** A survey script of a campaign; the survey service takes some answer batches and rejects the others. */
  datatype Script = Script(campaign: nat, accepted: set<seq<string>>)

  datatype Db = Db(
    entries: map<nat, WalkEntry>, lists: map<nat, WalkList>, scripts: map<nat, Script>,
    voters: map<nat, nat>, interactions: seq<Interaction>)

  datatype Post = Post(
    campaign: nat, list: nat, entry: nat, voter: nat, clientUuid: nat, result: string,
    notes: Option<string>, surveyComplete: bool, answers: seq<string>, user: string)

  datatype Refusal =
    | EntryNotInList | NoScript | ScriptElsewhere | VoterNotFound | Duplicate | AnswersRejected

  datatype Outcome = Accepted(attempt: nat) | Refused(why: Refusal)

  /** Foreign key of entries to lists. */
  predicate Valid(db: Db) {
    forall e | e in db.entries :: db.entries[e].list in db.lists
  }

  // --- specification ---

  /** The partial unique index on door knocks already has this post's key. */
  predicate Recorded(interactions: seq<Interaction>, campaign: nat, uuid: nat) {
    exists r | r in interactions :: r.kind == DoorKnock && r.campaign == campaign && r.clientUuid == Some(uuid)
  }

  function Knocks(interactions: seq<Interaction>, campaign: nat, voter: nat): nat {
    if interactions == [] then 0
    else
      var last := interactions[|interactions| - 1];
      Knocks(interactions[..|interactions| - 1], campaign, voter) +
      if last.kind == DoorKnock && last.campaign == campaign && last.voter == voter then 1 else 0
  }

  /** Why the post is refused, reading the reasons in the order in which they are found. */
  function WhyRefused(db: Db, p: Post): Option<Refusal>
    requires Valid(db)
  {
    if p.entry !in db.entries || db.entries[p.entry].list != p.list then Some(EntryNotInList)
    else
      var script := db.lists[p.list].script;
      if p.answers != [] && script.None? then Some(NoScript)
      else if p.answers != [] && (script.value !in db.scripts || db.scripts[script.value].campaign != p.campaign) then
        Some(ScriptElsewhere)
      else if p.voter !in db.voters || db.voters[p.voter] != p.campaign then Some(VoterNotFound)
      else if Recorded(db.interactions, p.campaign, p.clientUuid) then Some(Duplicate)
      else if p.answers != [] && p.answers !in db.scripts[script.value].accepted then Some(AnswersRejected)
      else None
  }

  /** The walk list of the post has this script. */
  predicate HasScript(db: Db, p: Post, script: nat) {
    p.list in db.lists && db.lists[p.list].script == Some(script)
  }

  /**
   When a post is accepted, in columns: the entry is of the list, the voter of the
   campaign, no door knock of the campaign has the client id, and answers, if any, are
   for a script the list has, of the campaign, that takes them.
   */
  lemma AcceptedInColumns(db: Db, p: Post)
    requires Valid(db)
    ensures WhyRefused(db, p) == None <==>
              (p.entry in db.entries && db.entries[p.entry].list == p.list) &&
              (p.voter in db.voters && db.voters[p.voter] == p.campaign) &&
              (forall i | 0 <= i < |db.interactions| ::
                 !(db.interactions[i].kind == DoorKnock && db.interactions[i].campaign == p.campaign &&
                   db.interactions[i].clientUuid == Some(p.clientUuid))) &&
              (|p.answers| > 0 ==>
                 exists script :: HasScript(db, p, script) && script in db.scripts &&
                                  db.scripts[script].campaign == p.campaign && p.answers in db.scripts[script].accepted)
  {
    var script := if p.list in db.lists then db.lists[p.list].script else None;
    if script.Some? { assert p.list in db.lists ==> HasScript(db, p, script.value); }
    RecordedInColumns(db.interactions, p.campaign, p.clientUuid);
  }

  lemma RecordedInColumns(interactions: seq<Interaction>, campaign: nat, uuid: nat)
    ensures Recorded(interactions, campaign, uuid) <==>
              exists i :: 0 <= i < |interactions| && interactions[i].kind == DoorKnock &&
                          interactions[i].campaign == campaign && interactions[i].clientUuid == Some(uuid)
  {
    if Recorded(interactions, campaign, uuid) {
      var r :| r in interactions && r.kind == DoorKnock && r.campaign == campaign && r.clientUuid == Some(uuid);
      var i :| 0 <= i < |interactions| && interactions[i] == r;
    }
  }

  /** The reason given is the first that holds: entry, script, voter, repetition, answers. */
  lemma RefusedInOrder(db: Db, p: Post)
    requires Valid(db)
    ensures var why := WhyRefused(db, p);
            (why == Some(EntryNotInList) <==> !(p.entry in db.entries && db.entries[p.entry].list == p.list)) &&
            (why == Some(NoScript) <==>
               p.entry in db.entries && db.entries[p.entry].list == p.list &&
               |p.answers| > 0 && db.lists[p.list].script == None) &&
            (why in {Some(VoterNotFound), Some(Duplicate), Some(AnswersRejected)} ==>
               p.entry in db.entries && db.entries[p.entry].list == p.list &&
               (|p.answers| > 0 ==> exists script :: HasScript(db, p, script) && script in db.scripts &&
                                                    db.scripts[script].campaign == p.campaign)) &&
            (why in {Some(Duplicate), Some(AnswersRejected)} ==> p.voter in db.voters && db.voters[p.voter] == p.campaign) &&
            (why == Some(Duplicate) ==>
               exists i :: 0 <= i < |db.interactions| && db.interactions[i].kind == DoorKnock &&
                           db.interactions[i].campaign == p.campaign && db.interactions[i].clientUuid == Some(p.clientUuid)) &&
            (why == Some(VoterNotFound) ==> !(p.voter in db.voters && db.voters[p.voter] == p.campaign)) &&
            (why == Some(AnswersRejected) ==>
               |p.answers| > 0 &&
               forall i | 0 <= i < |db.interactions| ::
                 !(db.interactions[i].kind == DoorKnock && db.interactions[i].campaign == p.campaign &&
                   db.interactions[i].clientUuid == Some(p.clientUuid))) &&
            (why == Some(ScriptElsewhere) ==>
               |p.answers| > 0 && forall script | HasScript(db, p, script) && script in db.scripts ::
                                    db.scripts[script].campaign != p.campaign)
  {
    RecordedInColumns(db.interactions, p.campaign, p.clientUuid);
    if p.list in db.lists && db.lists[p.list].script.Some? {
      assert HasScript(db, p, db.lists[p.list].script.value);
    }
  }

  function KnockRow(p: Post, script: Option<nat>): Interaction {
    Interaction(p.campaign, p.voter, DoorKnock, Some(p.clientUuid),
                KnockPayload(p.result, p.list, p.notes, p.surveyComplete, script, |p.answers|), p.user)
  }

  function SurveyRow(p: Post, script: nat): Interaction {
    Interaction(p.campaign, p.voter, SurveyResponse, None, SurveyPayload(script, p.answers), p.user)
  }

  /** The rows an accepted post adds. */
  function NewRows(db: Db, p: Post): seq<Interaction>
    requires Valid(db) && WhyRefused(db, p) == None
  {
    if p.answers == [] then [KnockRow(p, None)]
    else [KnockRow(p, db.lists[p.list].script), SurveyRow(p, db.lists[p.list].script.value)]
  }

  /** The committed database after a post. */
  function Knock(db: Db, p: Post): (db1: Db)
    requires Valid(db)
    ensures Valid(db1)
  {
    if WhyRefused(db, p).Some? then db
    else
      db.(interactions := db.interactions + NewRows(db, p),
          entries := db.entries[p.entry := db.entries[p.entry].(visited := true)],
          lists := db.lists[p.list := db.lists[p.list].(visitedEntries := db.lists[p.list].visitedEntries + 1)])
  }

  /**
   What an accepted post leaves, in columns: its knock, an answer row if it has answers,
   its entry visited, its list's counter one higher, and nothing else changed.
   */
  lemma KnockInColumns(db: Db, p: Post)
    requires Valid(db) && WhyRefused(db, p) == None
    ensures var db1 := Knock(db, p); var n := |db.interactions|;
            |db1.interactions| == n + (if |p.answers| > 0 then 2 else 1) && db1.interactions[..n] == db.interactions &&
            db1.interactions[n] ==
              Interaction(p.campaign, p.voter, DoorKnock, Some(p.clientUuid),
                          KnockPayload(p.result, p.list, p.notes, p.surveyComplete,
                                       if |p.answers| > 0 then db.lists[p.list].script else None, |p.answers|), p.user) &&
            (|p.answers| > 0 ==>
               db.lists[p.list].script.Some? &&
               db1.interactions[n + 1] ==
                 Interaction(p.campaign, p.voter, SurveyResponse, None,
                             SurveyPayload(db.lists[p.list].script.value, p.answers), p.user)) &&
            db1.entries == db.entries[p.entry := WalkEntry(p.list, true)] &&
            db1.lists == db.lists[p.list := WalkList(db.lists[p.list].script, db.lists[p.list].visitedEntries + 1)] &&
            db1.scripts == db.scripts && db1.voters == db.voters
  {
  }

  // --- the service ---

  class Service {
    var entries: map<nat, WalkEntry>
    var lists: map<nat, WalkList>
    var scripts: map<nat, Script>
    var voters: map<nat, nat>
    var interactions: seq<Interaction>

    function State(): Db
      reads this
    {
      Db(entries, lists, scripts, voters, interactions)
    }

    constructor (db: Db)
      ensures State() == db
    {
      entries, lists, scripts, voters, interactions := db.entries, db.lists, db.scripts, db.voters, db.interactions;
    }

    /** Inserts the knock first; a later refusal rolls the insertion back. */
    method RecordDoorKnock(p: Post) returns (outcome: Outcome)
      requires Valid(State())
      modifies this
      ensures Valid(State()) && State() == Knock(old(State()), p)
      ensures match WhyRefused(old(State()), p)
              case Some(why) => outcome == Refused(why)
              case None => outcome == Accepted(Knocks(old(interactions), p.campaign, p.voter) + 1)
    {
      if p.entry !in entries || entries[p.entry].list != p.list { return Refused(EntryNotInList); }
      var walkList := lists[p.list];
      var script: Option<nat> := None;
      if p.answers != [] {
        if walkList.script == None { return Refused(NoScript); }
        if walkList.script.value !in scripts || scripts[walkList.script.value].campaign != p.campaign {
          return Refused(ScriptElsewhere);
        }
        script := walkList.script;
      }
      if p.voter !in voters || voters[p.voter] != p.campaign { return Refused(VoterNotFound); }
      if Recorded(interactions, p.campaign, p.clientUuid) { return Refused(Duplicate); }
      var saved := interactions;
      interactions := interactions + [KnockRow(p, script)];
      if p.answers != [] {
        if p.answers !in scripts[script.value].accepted {
          interactions := saved;
          return Refused(AnswersRejected);
        }
        interactions := interactions + [SurveyRow(p, script.value)];
        assert interactions == saved + [KnockRow(p, script), SurveyRow(p, script.value)];
      }
      entries := entries[p.entry := entries[p.entry].(visited := true)];
      lists := lists[p.list := lists[p.list].(visitedEntries := lists[p.list].visitedEntries + 1)];
      KnocksAfter(State(), saved, NewRows(old(State()), p), p);
      outcome := Accepted(Knocks(interactions, p.campaign, p.voter));
    }
  }

  lemma {:induction false} KnocksConcat(a: seq<Interaction>, b: seq<Interaction>, campaign: nat, voter: nat)
    ensures Knocks(a + b, campaign, voter) == Knocks(a, campaign, voter) + Knocks(b, campaign, voter)
  {
    if b == [] {
      assert a + b == a;
    } else {
      KnocksConcat(a, b[..|b| - 1], campaign, voter);
      assert (a + b)[..|a + b| - 1] == a + b[..|b| - 1];
    }
  }

  lemma KnocksAfter(db1: Db, before: seq<Interaction>, rows: seq<Interaction>, p: Post)
    requires rows != [] && rows[0].kind == DoorKnock && rows[0].campaign == p.campaign && rows[0].voter == p.voter
    requires |rows| == 1 || (|rows| == 2 && rows[1].kind == SurveyResponse)
    requires db1.interactions == before + rows
    ensures forall c: nat, v: nat :: Knocks(db1.interactions, c, v) ==
              Knocks(before, c, v) + if c == p.campaign && v == p.voter then 1 else 0
  {
    forall c: nat, v: nat
      ensures Knocks(db1.interactions, c, v) == Knocks(before, c, v) + if c == p.campaign && v == p.voter then 1 else 0
    {
      KnocksConcat(before, rows, c, v);
      assert rows[..1][..0] == [] && rows[..|rows|] == rows;
      assert Knocks(rows[..1], c, v) == if c == p.campaign && v == p.voter then 1 else 0;
    }
  }

  function KnocksOn(interactions: seq<Interaction>, campaign: nat, voter: nat): set<nat> {
    set i: nat | i < |interactions| && interactions[i].kind == DoorKnock &&
                 interactions[i].campaign == campaign && interactions[i].voter == voter
  }

  lemma KnocksOnSnoc(interactions: seq<Interaction>, r: Interaction, campaign: nat, voter: nat)
    ensures KnocksOn(interactions + [r], campaign, voter) ==
            KnocksOn(interactions, campaign, voter) +
            if r.kind == DoorKnock && r.campaign == campaign && r.voter == voter then {|interactions|} else {}
  {
  }

  /** The knocks counted are the campaign's door knocks on the voter. */
  lemma {:induction false} KnocksIsNumber(interactions: seq<Interaction>, campaign: nat, voter: nat)
    ensures Knocks(interactions, campaign, voter) == |KnocksOn(interactions, campaign, voter)|
  {
    if interactions == [] {
      assert KnocksOn(interactions, campaign, voter) == {};
    } else {
      var init, last := interactions[..|interactions| - 1], interactions[|interactions| - 1];
      KnocksIsNumber(init, campaign, voter);
      assert interactions == init + [last];
      KnocksOnSnoc(init, last, campaign, voter);
    }
  }

  // --- runs ---

  /**
   A delivery of a post, or a change of what other services keep: entries, which
   lists there are and their scripts, scripts, voters, and interactions of other kinds.
   */
  datatype Step =
    | Delivery(post: Post)
    | Change(entries: map<nat, WalkEntry>, scriptOf: map<nat, Option<nat>>, scripts: map<nat, Script>,
             voters: map<nat, nat>, others: seq<Interaction>)

  /** A change leaves counters and door knocks alone, and entries refer to lists. */
  predicate Fits(s: Step)
    requires s.Change?
  {
    (forall e | e in s.entries :: s.entries[e].list in s.scriptOf) && forall r | r in s.others :: r.kind != DoorKnock
  }

  function Counter(db: Db, list: nat): int {
    if list in db.lists then db.lists[list].visitedEntries else 0
  }

  function Take(db: Db, s: Step): (db1: Db)
    requires Valid(db)
    ensures Valid(db1)
  {
    match s
    case Delivery(p) => Knock(db, p)
    case Change(entries, scriptOf, scripts, voters, others) =>
      if !Fits(s) then db
      else Db(entries, map l | l in scriptOf :: WalkList(scriptOf[l], Counter(db, l)), scripts, voters,
              db.interactions + others)
  }

  function Play(db: Db, steps: seq<Step>): (db1: Db)
    requires Valid(db)
    ensures Valid(db1)
  {
    if steps == [] then db else Take(Play(db, steps[..|steps| - 1]), steps[|steps| - 1])
  }

  /** A post that the database accepts. */
  predicate Accepts(db: Db, s: Step)
    requires Valid(db)
  {
    s.Delivery? && WhyRefused(db, s.post) == None
  }

  // --- at least once is exactly once ---

  /** How often posts with this key were accepted. */
  function AcceptedTimes(db: Db, steps: seq<Step>, campaign: nat, uuid: nat): nat
    requires Valid(db)
  {
    if steps == [] then 0
    else
      var init, last := steps[..|steps| - 1], steps[|steps| - 1];
      AcceptedTimes(db, init, campaign, uuid) +
      if Accepts(Play(db, init), last) && last.post.campaign == campaign && last.post.clientUuid == uuid then 1 else 0
  }

  /** A key is recorded after a step exactly if it was before or the step is an accepted post with it. */
  lemma RecordedAfter(db: Db, s: Step, campaign: nat, uuid: nat)
    requires Valid(db)
    ensures Recorded(Take(db, s).interactions, campaign, uuid) <==>
              Recorded(db.interactions, campaign, uuid) ||
              (Accepts(db, s) && s.post.campaign == campaign && s.post.clientUuid == uuid)
  {
    var db1 := Take(db, s);
    if Recorded(db.interactions, campaign, uuid) {
      var r :| r in db.interactions && r.kind == DoorKnock && r.campaign == campaign && r.clientUuid == Some(uuid);
      assert r in db1.interactions;
    }
    if Accepts(db, s) {
      assert NewRows(db, s.post)[0] in db1.interactions;
    }
  }

  /**
   Whatever changes between deliveries, a key is accepted at most once, and then
   stays recorded; a key recorded before is never accepted.
   */
  lemma {:induction false} AcceptedAtMostOnce(db: Db, steps: seq<Step>, campaign: nat, uuid: nat)
    requires Valid(db)
    ensures AcceptedTimes(db, steps, campaign, uuid) <= if Recorded(db.interactions, campaign, uuid) then 0 else 1
    ensures Recorded(Play(db, steps).interactions, campaign, uuid) <==>
              Recorded(db.interactions, campaign, uuid) || AcceptedTimes(db, steps, campaign, uuid) == 1
  {
    if steps != [] {
      var init, last := steps[..|steps| - 1], steps[|steps| - 1];
      AcceptedAtMostOnce(db, init, campaign, uuid);
      RecordedAfter(Play(db, init), last, campaign, uuid);
    }
  }

  /** The run without the deliveries whose key an earlier post of the run had been accepted with. */
  function WithoutReplays(db: Db, steps: seq<Step>): seq<Step>
    requires Valid(db)
  {
    if steps == [] then []
    else
      var init, last := steps[..|steps| - 1], steps[|steps| - 1];
      var before := WithoutReplays(db, init);
      if last.Delivery? && AcceptedTimes(db, init, last.post.campaign, last.post.clientUuid) > 0 then before
      else before + [last]
  }

  /**
   Delivering accepted posts again, however often and whatever changes in between,
   leaves the same interactions, entries and counters as not delivering them again.
   */
  lemma {:induction false} AtLeastOnceIsExactlyOnce(db: Db, steps: seq<Step>)
    requires Valid(db)
    ensures Play(db, steps) == Play(db, WithoutReplays(db, steps))
  {
    if steps != [] {
      var init, last := steps[..|steps| - 1], steps[|steps| - 1];
      AtLeastOnceIsExactlyOnce(db, init);
      var before := WithoutReplays(db, init);
      if last.Delivery? && AcceptedTimes(db, init, last.post.campaign, last.post.clientUuid) > 0 {
        AcceptedAtMostOnce(db, init, last.post.campaign, last.post.clientUuid);
        assert WhyRefused(Play(db, init), last.post).Some?;
      } else {
        assert (before + [last])[..|before|] == before;
      }
    }
  }

  // --- where nothing else changes, refusals repeat, too ---

  /** Posting it again would change nothing. */
  predicate Settled(db: Db, p: Post)
    requires Valid(db)
  {
    WhyRefused(db, p).Some?
  }

  predicate OnlyDeliveries(steps: seq<Step>) {
    forall s | s in steps :: s.Delivery?
  }

  lemma KnockSettles(db: Db, p: Post)
    requires Valid(db)
    ensures Settled(Knock(db, p), p)
  {
    RecordedAfter(db, Delivery(p), p.campaign, p.clientUuid);
  }

  lemma SettledStays(db: Db, p: Post, q: Post)
    requires Valid(db) && Settled(db, p)
    ensures Settled(Knock(db, q), p)
  {
    RecordedAfter(db, Delivery(q), p.campaign, p.clientUuid);
  }

  lemma {:induction false} DeliveredIsSettled(db: Db, steps: seq<Step>, p: Post)
    requires Valid(db) && OnlyDeliveries(steps) && Delivery(p) in steps
    ensures Settled(Play(db, steps), p)
  {
    var init, last := steps[..|steps| - 1], steps[|steps| - 1];
    assert last in steps && forall s | s in init :: s in steps;
    if Delivery(p) in init {
      DeliveredIsSettled(db, init, p);
      SettledStays(Play(db, init), p, last.post);
    } else {
      KnockSettles(Play(db, init), p);
    }
  }

  /** The steps without those identical to an earlier one. */
  function WithoutRepeats(steps: seq<Step>): seq<Step> {
    if steps == [] then []
    else
      var init, last := steps[..|steps| - 1], steps[|steps| - 1];
      if last in init then WithoutRepeats(init) else WithoutRepeats(init) + [last]
  }

  /** When there are only deliveries, any repeats leave what each post delivered once leaves, accepted or not. */
  lemma {:induction false} RepeatsChangeNothing(db: Db, steps: seq<Step>)
    requires Valid(db) && OnlyDeliveries(steps)
    ensures Play(db, steps) == Play(db, WithoutRepeats(steps))
  {
    if steps != [] {
      var init, last := steps[..|steps| - 1], steps[|steps| - 1];
      assert last in steps && forall s | s in init :: s in steps;
      RepeatsChangeNothing(db, init);
      if last in init {
        DeliveredIsSettled(db, init, last.post);
      } else {
        var once := WithoutRepeats(init) + [last];
        assert once[..|once| - 1] == WithoutRepeats(init);
      }
    }
  }

  // --- what the counters count ---

  /** How many posts were accepted on the list. */
  function AcceptedOn(db: Db, steps: seq<Step>, list: nat): nat
    requires Valid(db)
  {
    if steps == [] then 0
    else
      var init, last := steps[..|steps| - 1], steps[|steps| - 1];
      AcceptedOn(db, init, list) + if Accepts(Play(db, init), last) && last.post.list == list then 1 else 0
  }

  /** The attempt numbers returned for knocks on a voter, in order. */
  function Attempts(db: Db, steps: seq<Step>, campaign: nat, voter: nat): seq<nat>
    requires Valid(db)
  {
    if steps == [] then []
    else
      var init, last := steps[..|steps| - 1], steps[|steps| - 1];
      var before := Play(db, init);
      var attempts := Attempts(db, init, campaign, voter);
      if Accepts(before, last) && last.post.campaign == campaign && last.post.voter == voter
      then attempts + [Knocks(before.interactions, campaign, voter) + 1] else attempts
  }

  /** No change deletes the list. */
  predicate KeepsList(steps: seq<Step>, list: nat) {
    forall s | s in steps && s.Change? :: list in s.scriptOf
  }

  /** As long as a list exists, its visited counter grows by exactly the knocks accepted on it. */
  lemma {:induction false} CounterCountsAccepted(db: Db, steps: seq<Step>, list: nat)
    requires Valid(db) && list in db.lists && KeepsList(steps, list)
    ensures list in Play(db, steps).lists
    ensures Play(db, steps).lists[list].visitedEntries == db.lists[list].visitedEntries + AcceptedOn(db, steps, list)
  {
    if steps != [] {
      assert steps[|steps| - 1] in steps && forall s | s in steps[..|steps| - 1] :: s in steps;
      CounterCountsAccepted(db, steps[..|steps| - 1], list);
    }
  }

  lemma {:induction false} NoKnocks(rows: seq<Interaction>, campaign: nat, voter: nat)
    requires forall r | r in rows :: r.kind != DoorKnock
    ensures Knocks(rows, campaign, voter) == 0
  {
    if rows != [] {
      assert rows[|rows| - 1] in rows;
      NoKnocks(rows[..|rows| - 1], campaign, voter);
    }
  }

  lemma KnocksAfterStep(db: Db, s: Step, campaign: nat, voter: nat)
    requires Valid(db)
    ensures Knocks(Take(db, s).interactions, campaign, voter) == Knocks(db.interactions, campaign, voter) +
              if Accepts(db, s) && s.post.campaign == campaign && s.post.voter == voter then 1 else 0
  {
    if Accepts(db, s) {
      KnocksAfter(Take(db, s), db.interactions, NewRows(db, s.post), s.post);
    } else if s.Change? && Fits(s) {
      KnocksConcat(db.interactions, s.others, campaign, voter);
      NoKnocks(s.others, campaign, voter);
    }
  }

  /** Attempt numbers of a voter's accepted knocks are consecutive, starting after the knocks there were. */
  lemma {:induction false} AttemptsAreConsecutive(db: Db, steps: seq<Step>, campaign: nat, voter: nat)
    requires Valid(db)
    ensures var attempts := Attempts(db, steps, campaign, voter); var start := Knocks(db.interactions, campaign, voter);
            Knocks(Play(db, steps).interactions, campaign, voter) == start + |attempts| &&
            forall k | 0 <= k < |attempts| :: attempts[k] == start + k + 1
  {
    if steps != [] {
      var init, last := steps[..|steps| - 1], steps[|steps| - 1];
      AttemptsAreConsecutive(db, init, campaign, voter);
      KnocksAfterStep(Play(db, init), last, campaign, voter);
    }
  }

  /** A door-knock key is never recorded twice. */
  predicate KeysUnique(interactions: seq<Interaction>) {
    forall i, j | 0 <= i < j < |interactions| && interactions[i].kind == DoorKnock && interactions[j].kind == DoorKnock &&
                  interactions[i].campaign == interactions[j].campaign ::
      interactions[i].clientUuid != interactions[j].clientUuid
  }

  lemma StepKeepsKeysUnique(db: Db, s: Step)
    requires Valid(db) && KeysUnique(db.interactions)
    ensures KeysUnique(Take(db, s).interactions)
  {
    assert forall i | 0 <= i < |db.interactions| :: db.interactions[i] in db.interactions;
    if s.Change? {
      assert forall i | 0 <= i < |s.others| :: s.others[i] in s.others;
    }
  }

  lemma {:induction false} KeysStayUnique(db: Db, steps: seq<Step>)
    requires Valid(db) && KeysUnique(db.interactions)
    ensures KeysUnique(Play(db, steps).interactions)
  {
    if steps != [] {
      KeysStayUnique(db, steps[..|steps| - 1]);
      StepKeepsKeysUnique(Play(db, steps[..|steps| - 1]), steps[|steps| - 1]);
    }
  }

  function VisitedEntries(db: Db, list: nat): set<nat> {
    set e | e in db.entries && db.entries[e].list == list && db.entries[e].visited
  }

  /**
   The counter counts knocks, not entries: where it agreed with the number of
   visited entries, an accepted knock keeps it so exactly if the entry was not
   visited yet.
   */
  lemma CounterAgreesExactly(db: Db, p: Post)
    requires Valid(db) && WhyRefused(db, p) == None
    requires db.lists[p.list].visitedEntries == |VisitedEntries(db, p.list)|
    ensures Knock(db, p).lists[p.list].visitedEntries == |VisitedEntries(Knock(db, p), p.list)| <==>
            !db.entries[p.entry].visited
  {
    var before, after := VisitedEntries(db, p.list), VisitedEntries(Knock(db, p), p.list);
    assert after == before + {p.entry};
  }

  // --- a counter above the number of visited entries ---

  const ONE_ENTRY := Db(map[1 := WalkEntry(1, false)], map[1 := WalkList(None, 0)], map[], map[1 := 1], [])

  function KnockAgain(uuid: nat): Post {
    Post(1, 1, 1, 1, uuid, "not_home", None, false, [], "user")
  }

  /** Two knocks with different client ids on the only entry of a list: the counter says 2 and one entry is visited. */
  lemma CounterAboveEntries()
    ensures var db := Knock(Knock(ONE_ENTRY, KnockAgain(1)), KnockAgain(2));
            db.lists[1].visitedEntries == 2 && VisitedEntries(db, 1) == {1}
  {
    var once := Knock(ONE_ENTRY, KnockAgain(1));
    assert WhyRefused(ONE_ENTRY, KnockAgain(1)) == None;
    assert once.interactions == [KnockRow(KnockAgain(1), None)];
    assert WhyRefused(once, KnockAgain(2)) == None;
    assert VisitedEntries(Knock(once, KnockAgain(2)), 1) == {1};
  }
}
