/**
 One request's database session: its statements, on its connection, are steps of the
 pool, and user synchronization runs in it.
 */
module DatabaseSession {
  import opened Options
  import opened CampaignContext

  /**
   What becomes of the connection when a transaction ends: the session keeps it, or it
   goes back to the pool, other requests take steps, and the next statement runs on
   the connection the pool hands out then.
   */
  datatype Handover = Kept | Handed(between: seq<Step>, number: nat, conn: Conn)

  /** The steps up to the hand-out, when this step ends the transaction. */
  function GivenBack(steps: seq<Step>, ending: Step, request: nat, h: Handover): seq<Step>
    requires h.Handed?
  {
    steps + [ending] + [Release(request)] + h.between
  }

  /** The steps once the transaction has ended. */
  function Ended(steps: seq<Step>, ending: Step, request: nat, h: Handover): seq<Step> {
    if h.Kept? then steps + [ending]
    else GivenBack(steps, ending, request, h) + [Checkout(request, h.number)]
  }

  /** The pool can hand out this connection, in this state, when the transaction ends. */
  ghost predicate CanHand(steps: seq<Step>, ending: Step, request: nat, h: Handover) {
    h.Handed? ==>
      Possible(GivenBack(steps, ending, request, h)) &&
      var p := Play(GivenBack(steps, ending, request, h));
      Enabled(p, Checkout(request, h.number)) && p.conns[h.number] == h.conn
  }

  /** The run has the request hold a connection in this state. */
  ghost predicate Holds(steps: seq<Step>, request: nat, conn: Conn) {
    Possible(steps) && request in Play(steps).holders &&
    var number := Play(steps).holders[request];
    number in Play(steps).conns && Play(steps).conns[number] == conn
  }

  lemma OneMoreStep(steps: seq<Step>, s: Step)
    requires Possible(steps) && Enabled(Play(steps), s)
    ensures Possible(steps + [s]) && Play(steps + [s]) == Take(Play(steps), s)
  {
    assert (steps + [s])[..|steps + [s]| - 1] == steps;
  }

  lemma LastStep(steps: seq<Step>, s: Step, request: nat)
    ensures Chosen(steps + [s], request) ==
            if Sets(s, request) then Some(s.campaign) else if Bounds(s, request) then None else Chosen(steps, request)
  {
    assert (steps + [s])[..|steps + [s]| - 1] == steps;
  }

  /** What the request sees on its connection is what it chose, if it chose. */
  lemma SeesChosen(steps: seq<Step>, request: nat, conn: Conn)
    requires Holds(steps, request, conn)
    ensures Harmless(conn)
    ensures if Chosen(steps, request).Some? then Effective(conn) == Chosen(steps, request).value else !Real(Effective(conn))
  {
    QueriesSeeOnlyTheirOwnContext(steps, request);
  }

  lemma SetKeepsHolding(steps: seq<Step>, request: nat, conn: Conn, campaign: Context)
    requires Holds(steps, request, conn) && campaign != ""
    ensures Holds(steps + [SetContext(request, campaign)], request, SetLocal(conn, campaign))
    ensures Chosen(steps + [SetContext(request, campaign)], request) == Some(campaign)
  {
    OneMoreStep(steps, SetContext(request, campaign));
    LastStep(steps, SetContext(request, campaign), request);
  }

  /** The connection after the end of a transaction that leaves `kept` on the old one. */
  function After(kept: Conn, h: Handover): Conn {
    if h.Kept? then kept else CheckedOut(h.conn)
  }

  lemma EndKeepsHolding(steps: seq<Step>, ending: Step, request: nat, conn: Conn, h: Handover)
    requires Holds(steps, request, conn) && (ending == Commit(request) || ending == Rollback(request))
    requires CanHand(steps, ending, request, h)
    ensures Holds(Ended(steps, ending, request, h), request, After(if ending.Commit? then Committed(conn) else RolledBack(conn), h))
    ensures Chosen(Ended(steps, ending, request, h), request) == None
  {
    OneMoreStep(steps, ending);
    LastStep(steps, ending, request);
    if h.Handed? {
      OneMoreStep(GivenBack(steps, ending, request, h), Checkout(request, h.number));
      LastStep(GivenBack(steps, ending, request, h), Checkout(request, h.number), request);
    }
  }

  class Session {
    var conn: Conn
    var work: Tables
    var saved: Tables
    ghost const request: nat
    ghost var steps: seq<Step>

    /** The connection is the one that the steps of the pool so far give the request. */
    ghost predicate Valid()
      reads this
    {
      Holds(steps, request, conn)
    }

    constructor (conn: Conn, tables: Tables, ghost request: nat, ghost steps: seq<Step>)
      requires Holds(steps, request, conn)
      ensures Valid() && this.conn == conn && work == tables && saved == tables
      ensures this.request == request && this.steps == steps
    {
      this.conn, work, saved := conn, tables, tables;
      this.request, this.steps := request, steps;
    }

    /** Another request's step changes nothing for this one. */
    ghost method OthersStep(s: Step)
      requires Valid() && Enabled(Play(steps), s) && (s.Connect? || s.request != request)
      modifies this`steps
      ensures Valid() && steps == old(steps) + [s] && Chosen(steps, request) == Chosen(old(steps), request)
    {
      QueriesSeeOnlyTheirOwnContext(steps, request);
      if s.Checkout? { assert Held(Play(steps), Play(steps).holders[request]); }
      OneMoreStep(steps, s);
      LastStep(steps, s, request);
      steps := steps + [s];
    }

    method SetCampaignContext(campaign: Context) returns (ok: bool)
      requires Valid()
      modifies this`conn, this`steps
      ensures Valid()
      ensures ok <==> campaign != ""
      ensures conn == if ok then SetLocal(old(conn), campaign) else old(conn)
      ensures steps == if ok then old(steps) + [SetContext(request, campaign)] else old(steps)
      ensures ok ==> Chosen(steps, request) == Some(campaign) && Effective(conn) == campaign
    {
      if campaign == "" { return false; }
      SetKeepsHolding(steps, request, conn, campaign);
      conn := SetLocal(conn, campaign);
      steps := steps + [SetContext(request, campaign)];
      ok := true;
    }

    method CommitTransaction(h: Handover)
      requires Valid() && CanHand(steps, Commit(request), request, h)
      modifies this`conn, this`saved, this`steps
      ensures Valid() && saved == work
      ensures conn == After(Committed(old(conn)), h)
      ensures steps == Ended(old(steps), Commit(request), request, h) && Chosen(steps, request) == None
    {
      EndKeepsHolding(steps, Commit(request), request, conn, h);
      saved := work;
      conn := Committed(conn);
      if h.Handed? {
        conn := CheckedOut(h.conn);
      }
      steps := Ended(steps, Commit(request), request, h);
    }

    method RollbackTransaction(h: Handover)
      requires Valid() && CanHand(steps, Rollback(request), request, h)
      modifies this`conn, this`work, this`steps
      ensures Valid() && work == saved
      ensures conn == After(RolledBack(old(conn)), h)
      ensures steps == Ended(old(steps), Rollback(request), request, h) && Chosen(steps, request) == None
    {
      EndKeepsHolding(steps, Rollback(request), request, conn, h);
      work := saved;
      conn := RolledBack(conn);
      if h.Handed? {
        conn := CheckedOut(h.conn);
      }
      steps := Ended(steps, Rollback(request), request, h);
    }

    /** Commits, then sets the context again; an empty context is refused only after the commit. */
    method CommitAndRestoreRls(campaign: Context, h: Handover) returns (ok: bool)
      requires Valid() && CanHand(steps, Commit(request), request, h)
      modifies this`conn, this`saved, this`steps
      ensures Valid() && saved == work
      ensures ok <==> campaign != ""
      ensures Chosen(steps, request) == if ok then Some(campaign) else None
      ensures if ok then Effective(conn) == campaign else !Real(Effective(conn))
    {
      CommitTransaction(h);
      SeesChosen(steps, request, conn);
      ok := SetCampaignContext(campaign);
    }

    method SyncUserRow(u: AuthUser, h: Handover)
      requires Valid() && (UserChanges(work, u) ==> CanHand(steps, Commit(request), request, h))
      modifies this
      ensures Valid()
      ensures work == old(work).(users := old(work).users[u.id := SyncedUser(old(work), u)])
      ensures saved == if UserChanges(old(work), u) then work else old(saved)
      ensures UserRowSynced(old(work).users, work.users, u) && work == old(work).(users := work.users)
      ensures saved == if TokenDiffers(old(work).users, u) then work else old(saved)
      ensures steps == StepsAfterUser(old(work), u, old(steps), request, h)
      ensures UserChanges(old(work), u) ==> Chosen(steps, request) == None
      ensures !UserChanges(old(work), u) ==> conn == old(conn)
    {
      UserInColumns(work, u);
      if u.id !in work.users {
        work := work.(users := work.users[u.id := User(u.displayName, u.email)]);
        CommitTransaction(h);
      } else {
        var row := work.users[u.id];
        var changed := false;
        if NameChanges(u, row) {
          row := row.(displayName := u.displayName);
          changed := true;
        }
        if EmailChanges(u, row) {
          row := row.(email := u.email);
          changed := true;
        }
        work := work.(users := work.users[u.id := row]);
        if changed {
          CommitTransaction(h);
        }
      }
    }

    method UpsertOrgMembers(user: string, orgs: seq<Org>, role: string)
      modifies this`work
      ensures work == old(work).(orgMembers := SyncedOrgMembers(old(work).orgMembers, user, orgs, role))
    {
      var members := InsertMissingOrgMembers(work.orgMembers, user, orgs, role);
      work := work.(orgMembers := members);
    }

    method UpsertCampaignMembers(user: string, campaigns: seq<nat>, role: string)
      modifies this`work
      ensures work == old(work).(campaignMembers := SyncedCampaignMembers(old(work).campaignMembers, user, campaigns, role))
    {
      var members := FillCampaignMembers(work.campaignMembers, user, campaigns, role);
      work := work.(campaignMembers := members);
    }

    method FindCampaigns(campaigns: seq<Campaign>, orgs: seq<Org>, ids: seq<string>) returns (found: seq<nat>)
      ensures found == CampaignsFor(campaigns, orgs, ids)
    {
      found := [];
      for i := 0 to |orgs|
        invariant found == CampaignsOfOrgs(campaigns, orgs[..i])
      {
        assert orgs[..i + 1][..i] == orgs[..i];
        found := found + CampaignsOfOrg(campaigns, orgs[i].id);
      }
      assert orgs[..|orgs|] == orgs;
      if found == [] {
        found := CampaignsOfZitadel(campaigns, ids);
      }
    }

    /** Upserts the memberships, uncommitted; `found` is whether the user has any organization or campaign. */
    method SyncMemberships(u: AuthUser, allOrgs: seq<Org>, allCampaigns: seq<Campaign>) returns (found: bool)
      modifies this`work
      ensures var orgs := OrgsOf(allOrgs, OrgIdsOf(u)); var campaigns := CampaignsFor(allCampaigns, orgs, OrgIdsOf(u));
              found == (orgs != [] || campaigns != []) &&
              work == (if found then SyncedMemberships(old(work), u, orgs, campaigns) else old(work))
    {
      var orgs := OrgsOf(allOrgs, OrgIdsOf(u));
      var orgRole := OrgRole(RoleName(u));
      ghost var before := work;
      if orgRole.Some? {
        UpsertOrgMembers(u.id, orgs, orgRole.value);
      }
      var campaigns := FindCampaigns(allCampaigns, orgs, OrgIdsOf(u));
      UpsertCampaignMembers(u.id, campaigns, RoleName(u));
      found := orgs != [] || campaigns != [];
      if !found { NothingToSync(before, u); }
    }

    /** Commits or, when that meets a concurrent insert, rolls back. */
    method EndSync(conflict: bool, h: Handover)
      requires Valid() && CanHand(steps, if conflict then Rollback(request) else Commit(request), request, h)
      modifies this
      ensures Valid() && Chosen(steps, request) == None && !Real(Effective(conn))
      ensures work == saved == if conflict then old(saved) else old(work)
    {
      if conflict {
        RollbackTransaction(h);
      } else {
        CommitTransaction(h);
      }
      SeesChosen(steps, request, conn);
    }

    /**
     Returns with the real context it entered with chosen again, on whichever commits,
     rollback and connections it takes; `conflict` is whether the last commit meets a
     concurrent insert, and then only what the first commit saved remains.
     */
    method EnsureUserSynced(u: AuthUser, allOrgs: seq<Org>, allCampaigns: seq<Campaign>, conflict: bool,
                            first: Handover, later: Handover)
      requires Valid() && (UserChanges(work, u) ==> CanHand(steps, Commit(request), request, first))
      requires CanHand(StepsAfterUser(work, u, steps, request, first),
                       if conflict then Rollback(request) else Commit(request), request, later)
      modifies this
      ensures Valid()
      ensures Real(Effective(old(conn))) ==>
                Effective(conn) == Effective(old(conn)) && Chosen(steps, request) == Some(Effective(old(conn)))
      ensures !Real(Effective(old(conn))) ==> !Real(Effective(conn))
      ensures var orgs := OrgsOf(allOrgs, OrgIdsOf(u));
              var campaigns := CampaignsFor(allCampaigns, orgs, OrgIdsOf(u));
              var synced := old(work).(users := old(work).users[u.id := SyncedUser(old(work), u)]);
              var kept := if UserChanges(old(work), u) then synced else old(saved);
              if orgs == [] && campaigns == [] then work == synced && saved == kept
              else if conflict then work == kept && saved == kept
              else work == SyncedMemberships(synced, u, orgs, campaigns) && saved == work
      ensures var orgs := OrgsOf(allOrgs, OrgIdsOf(u));
              var found := orgs != [] || CampaignsFor(allCampaigns, orgs, OrgIdsOf(u)) != [];
              if found && conflict && !TokenDiffers(old(work).users, u) then work == old(saved) && saved == old(saved)
              else
                UserRowSynced(old(work).users, work.users, u) &&
                saved == if found || TokenDiffers(old(work).users, u) then saved.(users := work.users) else old(saved)
    {
      UserInColumns(work, u);
      var context := Effective(conn);
      SyncUserRow(u, first);
      SeesChosen(steps, request, conn);
      var found := SyncMemberships(u, allOrgs, allCampaigns);
      if found {
        EndSync(conflict, later);
      }
      if context != "" && context != NIL {
        var _ := SetCampaignContext(context);
      }
    }
  }

  /** The steps once the user's row is up to date: a transaction ends exactly if the row changed. */
  function StepsAfterUser(t: Tables, u: AuthUser, steps: seq<Step>, request: nat, h: Handover): seq<Step> {
    if UserChanges(t, u) then Ended(steps, Commit(request), request, h) else steps
  }
}
