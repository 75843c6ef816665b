/**
 The campaign context that row-level security reads: a session-scoped setting under
 a transaction-scoped one, on connections that requests share through a pool.
 */
module CampaignContext {
  import opened Options
  import opened Texts

  /** Value of app.current_campaign_id; empty when it was never set. */
  type Context = string

  const NIL: Context := "00000000-0000-0000-0000-000000000000"

  predicate Real(c: Context) {
    c != "" && c != NIL
  }

  // --- one connection ---

  /**
   The setting on one connection: its session value as last committed, the session
   value inside the open transaction, and the transaction-scoped value over it.
   */
  datatype Conn = Conn(committed: Context, session: Context, local: Option<Context>)

  function Effective(c: Conn): Context {
    Coalesce(c.local, c.session)
  }

  /** set_config(..., true) */
  function SetLocal(c: Conn, value: Context): Conn {
    c.(local := Some(value))
  }

  /** set_config(..., false): also overrides a transaction-scoped value, and is undone by rollback. */
  function SetSession(c: Conn, value: Context): Conn {
    c.(session := value, local := None)
  }

  function Committed(c: Conn): Conn {
    Conn(c.session, c.session, None)
  }

  function RolledBack(c: Conn): Conn {
    Conn(c.committed, c.committed, None)
  }

  /** The checkout hook. */
  function CheckedOut(c: Conn): Conn {
    SetSession(c, NIL)
  }

  /**
   What a query sees: what was set last, in either scope; after a commit, the session
   value there was; after a rollback, the one committed before; and after a checkout none.
   */
  lemma SeenOnConnection(c: Conn, value: Context)
    ensures Effective(SetLocal(c, value)) == value && Effective(SetSession(c, value)) == value
    ensures Effective(Committed(SetLocal(SetSession(c, value), NIL))) == value
    ensures Effective(RolledBack(SetLocal(SetSession(c, value), NIL))) == c.committed
    ensures Effective(CheckedOut(c)) == "00000000-0000-0000-0000-000000000000" && !Real(Effective(CheckedOut(c)))
  {
  }

  /** Neither session value is a real campaign. */
  predicate Harmless(c: Conn) {
    !Real(c.committed) && !Real(c.session)
  }

  // --- requests sharing a pool ---

  /** The connections, and which one each request's database session holds. */
  datatype Pool = Pool(conns: map<nat, Conn>, holders: map<nat, nat>)

  const NO_CONNECTIONS := Pool(map[], map[])

  datatype Step =
    | Connect(conn: nat)
    | Checkout(request: nat, conn: nat)
    | SetContext(request: nat, campaign: Context)
    | Commit(request: nat)
    | Rollback(request: nat)
    | Release(request: nat)

  predicate Held(p: Pool, conn: nat) {
    exists r | r in p.holders :: p.holders[r] == conn
  }

  predicate Enabled(p: Pool, s: Step) {
    match s
    case Connect(conn) => conn !in p.conns
    case Checkout(request, conn) => request !in p.holders && conn in p.conns && !Held(p, conn)
    case _ => s.request in p.holders && p.holders[s.request] in p.conns
  }

  /** Setting an empty context raises and does nothing; a released connection is rolled back. */
  function Take(p: Pool, s: Step): Pool
    requires Enabled(p, s)
  {
    match s
    case Connect(conn) => p.(conns := p.conns[conn := Conn("", "", None)])
    case Checkout(request, conn) =>
      Pool(p.conns[conn := CheckedOut(p.conns[conn])], p.holders[request := conn])
    case SetContext(request, campaign) =>
      if campaign == "" then p
      else p.(conns := p.conns[p.holders[request] := SetLocal(p.conns[p.holders[request]], campaign)])
    case Commit(request) => p.(conns := p.conns[p.holders[request] := Committed(p.conns[p.holders[request]])])
    case Rollback(request) => p.(conns := p.conns[p.holders[request] := RolledBack(p.conns[p.holders[request]])])
    case Release(request) =>
      Pool(p.conns[p.holders[request] := RolledBack(p.conns[p.holders[request]])], p.holders - {request})
  }

  predicate Possible(steps: seq<Step>)
    decreases |steps|, 0
  {
    steps == [] || (Possible(steps[..|steps| - 1]) && Enabled(Play(steps[..|steps| - 1]), steps[|steps| - 1]))
  }

  /** The pool after a run that starts without connections. */
  function Play(steps: seq<Step>): Pool
    requires Possible(steps)
    decreases |steps|, 1
  {
    if steps == [] then NO_CONNECTIONS else Take(Play(steps[..|steps| - 1]), steps[|steps| - 1])
  }

  /** What a query of the request sees. */
  function Seen(p: Pool, request: nat): Context
    requires request in p.holders && p.holders[request] in p.conns
  {
    Effective(p.conns[p.holders[request]])
  }

  /** The step begins or ends a transaction of the request. */
  predicate Bounds(s: Step, request: nat) {
    (s.Checkout? || s.Commit? || s.Rollback? || s.Release?) && s.request == request
  }

  predicate Sets(s: Step, request: nat) {
    s.SetContext? && s.request == request && s.campaign != ""
  }

  /** The campaign the request set last in its current transaction, as the steps tell. */
  function Chosen(steps: seq<Step>, request: nat): Option<Context> {
    if steps == [] then None
    else
      var last := steps[|steps| - 1];
      if Sets(last, request) then Some(last.campaign)
      else if Bounds(last, request) then None
      else Chosen(steps[..|steps| - 1], request)
  }

  /** The request set `c` at step `k` and since then neither set another nor began or ended a transaction. */
  predicate LastSetAt(steps: seq<Step>, request: nat, c: Context, k: nat) {
    k < |steps| && Sets(steps[k], request) && steps[k].campaign == c &&
    forall j | k < j < |steps| :: !Sets(steps[j], request) && !Bounds(steps[j], request)
  }

  lemma {:induction false} ChosenIsLastSet(steps: seq<Step>, request: nat, c: Context)
    ensures Chosen(steps, request) == Some(c) <==> exists k: nat :: LastSetAt(steps, request, c, k)
  {
    if steps != [] {
      var n := |steps| - 1;
      ChosenIsLastSet(steps[..n], request, c);
      if Sets(steps[n], request) || Bounds(steps[n], request) {
        assert steps[n].SetContext? && steps[n].campaign == c ==> LastSetAt(steps, request, c, n);
      } else {
        forall k: nat ensures LastSetAt(steps, request, c, k) <==> LastSetAt(steps[..n], request, c, k) {
          assert forall j | 0 <= j < n :: steps[..n][j] == steps[j];
        }
      }
    }
  }

  /**
   No connection is shared, none has a real campaign in its session values, and idle
   ones are outside a transaction.
   */
  predicate Isolated(p: Pool) {
    (forall c | c in p.conns :: Harmless(p.conns[c]) && (Held(p, c) || Idle(p.conns[c]))) &&
    (forall r | r in p.holders :: p.holders[r] in p.conns) &&
    (forall r, q | r in p.holders && q in p.holders && r != q :: p.holders[r] != p.holders[q])
  }

  predicate Idle(c: Conn) {
    c.local == None && c.session == c.committed
  }

  lemma TakeKeepsIsolated(p: Pool, s: Step)
    requires Isolated(p) && Enabled(p, s)
    ensures Isolated(Take(p, s))
  {
    var p1 := Take(p, s);
    forall c | c in p1.conns ensures Held(p1, c) || Idle(p1.conns[c]) {
      if c in p.conns && Held(p, c) {
        var r :| r in p.holders && p.holders[r] == c;
        if r in p1.holders { assert p1.holders[r] == c; }
      }
      if s.Checkout? { assert p1.holders[s.request] == s.conn; }
    }
  }

  /** Only the request's own steps touch what its transaction has set. */
  lemma LocalAfter(p: Pool, s: Step, request: nat)
    requires Isolated(p) && Enabled(p, s) && request in Take(p, s).holders
    ensures var p1 := Take(p, s); var local := p1.conns[p1.holders[request]].local;
            if Sets(s, request) then local == Some(s.campaign)
            else if Bounds(s, request) then local == None
            else request in p.holders && local == p.conns[p.holders[request]].local
  {
    TakeKeepsIsolated(p, s);
    if s.Checkout? && s.request != request { assert Held(p, p.holders[request]); }
  }

  /**
   In every interleaving of requests over shared connections, a query sees the
   campaign its own request set last in the current transaction, or none at all.
   */
  lemma {:induction false} QueriesSeeOnlyTheirOwnContext(steps: seq<Step>, request: nat)
    requires Possible(steps)
    ensures Isolated(Play(steps))
    ensures request in Play(steps).holders ==>
              Play(steps).conns[Play(steps).holders[request]].local == Chosen(steps, request)
    ensures request in Play(steps).holders ==>
              if Chosen(steps, request).Some? then Seen(Play(steps), request) == Chosen(steps, request).value
              else !Real(Seen(Play(steps), request))
  {
    if steps != [] {
      var init, last := steps[..|steps| - 1], steps[|steps| - 1];
      QueriesSeeOnlyTheirOwnContext(init, request);
      TakeKeepsIsolated(Play(init), last);
      if request in Play(steps).holders { LocalAfter(Play(init), last, request); }
    }
  }

  /** A commit or rollback takes the context away until the request sets it again. */
  lemma ContextEndsWithTransaction(p: Pool, request: nat)
    requires Isolated(p) && request in p.holders
    ensures !Real(Seen(Take(p, Commit(request)), request))
    ensures !Real(Seen(Take(p, Rollback(request)), request))
  {
  }

  // --- synchronizing a user ---

  datatype AuthUser = AuthUser(
    id: string, displayName: string, email: string, orgIds: seq<string>, orgId: string, role: Option<string>)

  datatype User = User(displayName: string, email: string)

  datatype Org = Org(id: nat, zitadelOrg: string)

  datatype Campaign = Campaign(id: nat, org: Option<nat>, zitadelOrg: string)

  /** Membership rows by their unique keys; a campaign role may be NULL. */
  datatype Tables = Tables(
    users: map<string, User>, orgMembers: map<(string, nat), string>, campaignMembers: map<(string, nat), Option<string>>)

  function OrgIdsOf(u: AuthUser): seq<string> {
    if u.orgIds != [] then u.orgIds else [u.orgId]
  }

  function OrgsOf(orgs: seq<Org>, ids: seq<string>): seq<Org> {
    if orgs == [] then []
    else
      var before := OrgsOf(orgs[..|orgs| - 1], ids);
      if orgs[|orgs| - 1].zitadelOrg in ids then before + [orgs[|orgs| - 1]] else before
  }

  function CampaignsOfOrg(campaigns: seq<Campaign>, org: nat): seq<nat> {
    if campaigns == [] then []
    else
      var last := campaigns[|campaigns| - 1];
      var before := CampaignsOfOrg(campaigns[..|campaigns| - 1], org);
      if last.org == Some(org) then before + [last.id] else before
  }

  function CampaignsOfZitadel(campaigns: seq<Campaign>, ids: seq<string>): seq<nat> {
    if campaigns == [] then []
    else
      var last := campaigns[|campaigns| - 1];
      var before := CampaignsOfZitadel(campaigns[..|campaigns| - 1], ids);
      if last.zitadelOrg in ids then before + [last.id] else before
  }

  function CampaignsOfOrgs(campaigns: seq<Campaign>, orgs: seq<Org>): seq<nat> {
    if orgs == [] then []
    else CampaignsOfOrgs(campaigns, orgs[..|orgs| - 1]) + CampaignsOfOrg(campaigns, orgs[|orgs| - 1].id)
  }

  /** The campaigns of the user's organizations, or of the organization ids if those have none. */
  function CampaignsFor(campaigns: seq<Campaign>, orgs: seq<Org>, ids: seq<string>): seq<nat> {
    if CampaignsOfOrgs(campaigns, orgs) != [] then CampaignsOfOrgs(campaigns, orgs)
    else CampaignsOfZitadel(campaigns, ids)
  }

  predicate OfAnOrg(c: Campaign, orgs: seq<Org>) {
    exists org | org in orgs :: c.org == Some(org.id)
  }

  /** The user's organizations are those with one of the token's ids or, if it has none, its single one. */
  lemma {:induction false} OrgsAre(orgs: seq<Org>, u: AuthUser)
    ensures forall org :: org in OrgsOf(orgs, OrgIdsOf(u)) <==>
              org in orgs && if |u.orgIds| > 0 then org.zitadelOrg in u.orgIds else org.zitadelOrg == u.orgId
  {
    if orgs != [] {
      OrgsAre(orgs[..|orgs| - 1], u);
      assert orgs == orgs[..|orgs| - 1] + [orgs[|orgs| - 1]];
    }
  }

  lemma {:induction false} CampaignsOfOrgAre(campaigns: seq<Campaign>, org: nat)
    ensures forall id :: id in CampaignsOfOrg(campaigns, org) <==> exists c :: c in campaigns && c.id == id && c.org == Some(org)
  {
    if campaigns != [] {
      var init := campaigns[..|campaigns| - 1];
      CampaignsOfOrgAre(init, org);
      assert campaigns == init + [campaigns[|campaigns| - 1]];
    }
  }

  lemma {:induction false} CampaignsOfZitadelAre(campaigns: seq<Campaign>, ids: seq<string>)
    ensures forall id :: id in CampaignsOfZitadel(campaigns, ids) <==>
              exists c :: c in campaigns && c.id == id && c.zitadelOrg in ids
  {
    if campaigns != [] {
      var init := campaigns[..|campaigns| - 1];
      CampaignsOfZitadelAre(init, ids);
      assert campaigns == init + [campaigns[|campaigns| - 1]];
    }
  }

  lemma {:induction false} CampaignsOfOrgsAre(campaigns: seq<Campaign>, orgs: seq<Org>)
    ensures forall id :: id in CampaignsOfOrgs(campaigns, orgs) <==> exists c :: c in campaigns && c.id == id && OfAnOrg(c, orgs)
  {
    if orgs != [] {
      var init, last := orgs[..|orgs| - 1], orgs[|orgs| - 1];
      CampaignsOfOrgsAre(campaigns, init);
      CampaignsOfOrgAre(campaigns, last.id);
      assert orgs == init + [last];
      assert forall c | c in campaigns :: OfAnOrg(c, orgs) <==> OfAnOrg(c, init) || c.org == Some(last.id);
    }
  }

  /** The campaigns found are those of the organizations; only where there are none, those of the organization ids. */
  lemma CampaignsForAre(campaigns: seq<Campaign>, orgs: seq<Org>, ids: seq<string>)
    ensures forall id :: id in CampaignsFor(campaigns, orgs, ids) <==>
              exists c :: c in campaigns && c.id == id &&
                          if exists d, org :: d in campaigns && org in orgs && d.org == Some(org.id)
                          then exists org :: org in orgs && c.org == Some(org.id)
                          else c.zitadelOrg in ids
  {
    CampaignsOfOrgsAre(campaigns, orgs);
    CampaignsOfZitadelAre(campaigns, ids);
    assert (exists d, org :: d in campaigns && org in orgs && d.org == Some(org.id)) <==>
           exists d :: d in campaigns && OfAnOrg(d, orgs);
    if CampaignsOfOrgs(campaigns, orgs) != [] {
      assert CampaignsOfOrgs(campaigns, orgs)[0] in CampaignsOfOrgs(campaigns, orgs);
    } else {
      forall d | d in campaigns ensures !OfAnOrg(d, orgs) {
        assert d.id !in CampaignsOfOrgs(campaigns, orgs);
      }
    }
  }

  function RoleName(u: AuthUser): string {
    Coalesce(u.role, "viewer")
  }

  /** Only project owners and admins become organization members. */
  function OrgRole(role: string): Option<string> {
    if role == "owner" then Some("org_owner") else if role == "admin" then Some("org_admin") else None
  }

  predicate NameChanges(u: AuthUser, row: User) {
    u.displayName != "" && (row.displayName != u.displayName || AllBlank(row.displayName))
  }

  predicate EmailChanges(u: AuthUser, row: User) {
    u.email != "" && row.email != u.email
  }

  /** The user's row is new or differs from the token, which is when a first commit happens. */
  predicate UserChanges(t: Tables, u: AuthUser) {
    u.id !in t.users || NameChanges(u, t.users[u.id]) || EmailChanges(u, t.users[u.id])
  }

  function SyncedUser(t: Tables, u: AuthUser): User {
    if u.id !in t.users then User(u.displayName, u.email)
    else User(if u.displayName != "" then u.displayName else t.users[u.id].displayName,
              if u.email != "" then u.email else t.users[u.id].email)
  }

  /** The token has a name that is new, or the row's name is blank, or it has an address that is new. */
  predicate TokenDiffers(users: map<string, User>, u: AuthUser) {
    u.id !in users ||
    (u.displayName != "" &&
     (users[u.id].displayName != u.displayName || forall c | c in users[u.id].displayName :: c in " \t\n\r")) ||
    (u.email != "" && users[u.id].email != u.email)
  }

  /**
   A new user's row has the token's name and address; an existing one has each of them
   where it is not empty, and its own otherwise. Nobody else's row changes.
   */
  predicate UserRowSynced(before: map<string, User>, after: map<string, User>, u: AuthUser) {
    u.id in after && after.Keys == before.Keys + {u.id} &&
    (u.id !in before ==> after[u.id].displayName == u.displayName && after[u.id].email == u.email) &&
    (u.id in before ==>
       after[u.id].displayName == (if u.displayName == "" then before[u.id].displayName else u.displayName) &&
       after[u.id].email == (if u.email == "" then before[u.id].email else u.email)) &&
    forall id | id in before && id != u.id :: after[id] == before[id]
  }

  lemma UserInColumns(t: Tables, u: AuthUser)
    ensures UserRowSynced(t.users, t.users[u.id := SyncedUser(t, u)], u)
    ensures UserChanges(t, u) <==> TokenDiffers(t.users, u)
  {
    forall c: char ensures Blank(c) <==> c in " \t\n\r" {
      assert " \t\n\r" == [' ', '\t', '\n', '\r'];
    }
  }

  /** Missing memberships get the role; existing ones keep theirs. */
  function SyncedOrgMembers(members: map<(string, nat), string>, user: string, orgs: seq<Org>, role: string)
    : map<(string, nat), string>
  {
    members + map org | org in orgs && (user, org.id) !in members :: (user, org.id) := role
  }

  /** Missing memberships and NULL roles get the role; existing roles stay. */
  function SyncedCampaignMembers(members: map<(string, nat), Option<string>>, user: string, campaigns: seq<nat>, role: string)
    : map<(string, nat), Option<string>>
  {
    members + map id | id in campaigns :: (user, id) :=
      if (user, id) in members && members[(user, id)].Some? then members[(user, id)] else Some(role)
  }

  /** The tables with the user's row and memberships brought up to date. */
  function SyncedMemberships(t: Tables, u: AuthUser, orgs: seq<Org>, campaigns: seq<nat>): Tables {
    var orgRole := OrgRole(RoleName(u));
    t.(orgMembers := if orgRole.Some? then SyncedOrgMembers(t.orgMembers, u.id, orgs, orgRole.value) else t.orgMembers,
       campaignMembers := SyncedCampaignMembers(t.campaignMembers, u.id, campaigns, RoleName(u)))
  }

  /** INSERT ... ON CONFLICT DO NOTHING, organization by organization. */
  method InsertMissingOrgMembers(before: map<(string, nat), string>, user: string, orgs: seq<Org>, role: string)
    returns (members: map<(string, nat), string>)
    ensures members == SyncedOrgMembers(before, user, orgs, role)
  {
    members := before;
    PrefixSnoc(orgs, 0);
    NoOrgsNoChange(before, user, role);
    for i := 0 to |orgs|
      invariant members == SyncedOrgMembers(before, user, orgs[..i], role)
    {
      OrgMembersOfPrefix(before, user, orgs, i, role);
      if (user, orgs[i].id) !in members {
        members := members[(user, orgs[i].id) := role];
      }
    }
    PrefixSnoc(orgs, |orgs|);
  }

  lemma NoOrgsNoChange(members: map<(string, nat), string>, user: string, role: string)
    ensures SyncedOrgMembers(members, user, [], role) == members
  {
  }

  lemma OrgMembersOfPrefix(before: map<(string, nat), string>, user: string, orgs: seq<Org>, i: nat, role: string)
    requires i < |orgs|
    ensures var members := SyncedOrgMembers(before, user, orgs[..i], role);
              SyncedOrgMembers(before, user, orgs[..i + 1], role) ==
              if (user, orgs[i].id) in members then members else members[(user, orgs[i].id) := role]
  {
    PrefixSnoc(orgs, i);
    OrgMembersSnoc(before, user, orgs[..i], orgs[i], role);
  }

  /** Inserts the row, or backfills its role if that is NULL. */
  function FillOne(members: map<(string, nat), Option<string>>, key: (string, nat), role: string)
    : map<(string, nat), Option<string>>
  {
    if key !in members then members[key := Some(role)]
    else if members[key] == None then members[key := Some(role)]
    else members
  }

  /** The same for campaigns, except that a row whose role is NULL gets the role. */
  method FillCampaignMembers(before: map<(string, nat), Option<string>>, user: string, campaigns: seq<nat>, role: string)
    returns (members: map<(string, nat), Option<string>>)
    ensures members == SyncedCampaignMembers(before, user, campaigns, role)
  {
    members := before;
    PrefixSnoc(campaigns, 0);
    NoCampaignsNoChange(before, user, role);
    for i := 0 to |campaigns|
      invariant members == SyncedCampaignMembers(before, user, campaigns[..i], role)
    {
      CampaignMembersOfPrefix(before, user, campaigns, i, role);
      members := FillOne(members, (user, campaigns[i]), role);
    }
    PrefixSnoc(campaigns, |campaigns|);
  }

  lemma NoCampaignsNoChange(members: map<(string, nat), Option<string>>, user: string, role: string)
    ensures SyncedCampaignMembers(members, user, [], role) == members
  {
  }

  lemma CampaignMembersOfPrefix(before: map<(string, nat), Option<string>>, user: string, campaigns: seq<nat>, i: nat, role: string)
    requires i < |campaigns|
    ensures var members := SyncedCampaignMembers(before, user, campaigns[..i], role);
            SyncedCampaignMembers(before, user, campaigns[..i + 1], role) == FillOne(members, (user, campaigns[i]), role)
  {
    PrefixSnoc(campaigns, i);
    CampaignMembersSnoc(before, user, campaigns[..i], campaigns[i], role);
  }

  lemma PrefixSnoc<T>(s: seq<T>, i: nat)
    requires i <= |s|
    ensures if i < |s| then s[..i] + [s[i]] == s[..i + 1] else s[..i] == s
    ensures s[..0] == []
  {
  }

  lemma OrgMembersAt(members: map<(string, nat), string>, user: string, orgs: seq<Org>, role: string, key: (string, nat))
    ensures var synced := SyncedOrgMembers(members, user, orgs, role);
            (key in synced <==> key in members || (key.0 == user && exists org :: org in orgs && org.id == key.1)) &&
            (key in synced ==> synced[key] == if key in members then members[key] else role)
  {
  }

  lemma OrgMemberSnocAt(members: map<(string, nat), string>, user: string, orgs: seq<Org>, org: Org, role: string, key: (string, nat))
    ensures var before := SyncedOrgMembers(members, user, orgs, role);
            var after := SyncedOrgMembers(members, user, orgs + [org], role);
            (key in after <==> key in before || key == (user, org.id)) &&
            (key in after ==> after[key] == if key in before then before[key] else role)
  {
    OrgMembersAt(members, user, orgs, role, key);
    OrgMembersAt(members, user, orgs + [org], role, key);
    assert forall o :: o in orgs + [org] <==> o in orgs || o == org;
  }

  lemma OrgMembersSnoc(members: map<(string, nat), string>, user: string, orgs: seq<Org>, org: Org, role: string)
    ensures var before := SyncedOrgMembers(members, user, orgs, role);
            SyncedOrgMembers(members, user, orgs + [org], role)
              == if (user, org.id) in before then before else before[(user, org.id) := role]
  {
    forall key: (string, nat) {
      OrgMemberSnocAt(members, user, orgs, org, role, key);
    }
  }

  lemma CampaignMembersSnoc(members: map<(string, nat), Option<string>>, user: string, campaigns: seq<nat>, id: nat, role: string)
    ensures var before := SyncedCampaignMembers(members, user, campaigns, role);
            SyncedCampaignMembers(members, user, campaigns + [id], role)
              == if (user, id) in before && before[(user, id)].Some? then before else before[(user, id) := Some(role)]
  {
    var all := campaigns + [id];
    assert forall c :: c in all <==> c in campaigns || c == id;
  }

  lemma NothingToSync(t: Tables, u: AuthUser)
    ensures SyncedMemberships(t, u, [], []) == t
  {
    assert forall role :: SyncedOrgMembers(t.orgMembers, u.id, [], role) == t.orgMembers;
    assert SyncedCampaignMembers(t.campaignMembers, u.id, [], RoleName(u)) == t.campaignMembers;
  }

  /**
   After a sync the user has a role in every campaign, and is a member of every
   organization if the role makes members; nobody's existing role has changed, and
   the rows that are new are the user's and have the user's role.
   */
  lemma SyncFillsAndKeeps(t: Tables, u: AuthUser, orgs: seq<Org>, campaigns: seq<nat>)
    ensures var t1 := SyncedMemberships(t, u, orgs, campaigns);
            var role := if u.role.Some? then u.role.value else "viewer";
            t1.users == t.users &&
            (forall id | id in campaigns :: (u.id, id) in t1.campaignMembers && t1.campaignMembers[(u.id, id)].Some?) &&
            (role == "owner" || role == "admin" ==> forall org | org in orgs :: (u.id, org.id) in t1.orgMembers) &&
            (forall key | key in t.campaignMembers && t.campaignMembers[key].Some? ::
               key in t1.campaignMembers && t1.campaignMembers[key] == t.campaignMembers[key]) &&
            (forall key | key in t.campaignMembers :: key in t1.campaignMembers) &&
            (forall key | key in t.orgMembers :: key in t1.orgMembers && t1.orgMembers[key] == t.orgMembers[key]) &&
            (forall key | key in t1.campaignMembers && (key !in t.campaignMembers || t1.campaignMembers[key] != t.campaignMembers[key]) ::
               key.0 == u.id && key.1 in campaigns && t1.campaignMembers[key] == Some(role)) &&
            (forall key | key in t1.orgMembers && key !in t.orgMembers ::
               key.0 == u.id && (exists org :: org in orgs && org.id == key.1) &&
               ((role == "owner" && t1.orgMembers[key] == "org_owner") || (role == "admin" && t1.orgMembers[key] == "org_admin")))
  {
  }

  /** Syncing again changes no membership. */
  lemma SyncAgainChangesNothing(t: Tables, u: AuthUser, orgs: seq<Org>, campaigns: seq<nat>)
    ensures var t1 := SyncedMemberships(t, u, orgs, campaigns); SyncedMemberships(t1, u, orgs, campaigns) == t1
  {
    var t1 := SyncedMemberships(t, u, orgs, campaigns);
    var t2 := SyncedMemberships(t1, u, orgs, campaigns);
    assert t2.campaignMembers == t1.campaignMembers;
    assert t2.orgMembers == t1.orgMembers;
  }
}
