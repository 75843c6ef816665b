/**
 The call list service over its tables: generation, appending, claiming and status.
 */
module CallLists {
  import opened Options
  import opened CallListBuild
  import opened CallListClaims

  datatype ListStatus = Draft | Active | Completed

  datatype CallList = CallList(campaign: nat, status: ListStatus, total: int, claimTimeoutMinutes: int)

  /** Static lists have member rows, whose primary key makes them distinct. */
  datatype VoterList = VoterList(campaign: nat, isStatic: bool, members: seq<nat>)

  datatype Error = CallListNotFound | VoterListNotFound | NotActive | InvalidTransition | NegativeLimit

  function FreshAll(list: nat, contacts: seq<Contact>): seq<Entry> {
    seq(|contacts|, k requires 0 <= k < |contacts| => Fresh(list, contacts[k]))
  }

  /** Each contact gets one entry of the list, available and nobody's, in order. */
  lemma FreshInColumns(list: nat, contacts: seq<Contact>, k: nat)
    requires k < |contacts|
    ensures |FreshAll(list, contacts)| == |contacts|
    ensures var e := FreshAll(list, contacts)[k];
            e.list == list && e.contact == contacts[k] && e.status == Available && e.claimedBy == None && e.claimedAt == None
  {
  }

  function EntriesIn(entries: seq<Entry>, list: nat): nat {
    if entries == [] then 0
    else EntriesIn(entries[..|entries| - 1], list) + if entries[|entries| - 1].list == list then 1 else 0
  }

  function VotersIn(entries: seq<Entry>, list: nat): set<nat> {
    set e | e in entries && e.list == list :: e.contact.voter
  }

  /** The voters in a list are those of its entries, and their number is counted entry by entry. */
  lemma {:induction false} ListInColumns(entries: seq<Entry>, list: nat, voter: nat)
    ensures voter in VotersIn(entries, list) <==>
              exists i :: 0 <= i < |entries| && entries[i].list == list && entries[i].contact.voter == voter
    ensures EntriesIn(entries, list) == |RowsOfList(entries, list)|
  {
    if entries == [] {
      assert RowsOfList(entries, list) == {};
    } else {
      var init, last := entries[..|entries| - 1], entries[|entries| - 1];
      ListInColumns(init, list, voter);
      assert entries == init + [last];
      RowsOfListSnoc(init, last, list);
      if i :| 0 <= i < |entries| && entries[i].list == list && entries[i].contact.voter == voter {
        assert entries[i] in entries;
      }
    }
  }

  function RowsOfList(entries: seq<Entry>, list: nat): set<nat> {
    set i: nat | i < |entries| && entries[i].list == list
  }

  lemma RowsOfListSnoc(entries: seq<Entry>, e: Entry, list: nat)
    ensures RowsOfList(entries + [e], list) == RowsOfList(entries, list) + if e.list == list then {|entries|} else {}
  {
  }

  /** Claims made before this moment are stale (times in seconds). */
  function Cutoff(list: CallList, now: int): int {
    now - 60 * list.claimTimeoutMinutes
  }

  predicate CanMove(from: ListStatus, to: ListStatus) {
    (from == Draft && to == Active) || (from == Active && to == Completed)
  }

  // --- counting ---

  lemma {:induction false} EntriesAfterAdding(entries: seq<Entry>, added: nat, contacts: seq<Contact>, list: nat)
    ensures EntriesIn(entries + FreshAll(added, contacts), list)
         == EntriesIn(entries, list) + if added == list then |contacts| else 0
  {
    if contacts == [] {
      assert entries + FreshAll(added, contacts) == entries;
    } else {
      var n := |contacts| - 1;
      EntriesAfterAdding(entries, added, contacts[..n], list);
      var all := entries + FreshAll(added, contacts);
      assert all[..|all| - 1] == entries + FreshAll(added, contacts[..n]);
    }
  }

  lemma {:induction false} SameListsSameCounts(a: seq<Entry>, b: seq<Entry>, list: nat)
    requires |a| == |b| && forall i | 0 <= i < |a| :: a[i].list == b[i].list
    ensures EntriesIn(a, list) == EntriesIn(b, list)
  {
    if a != [] { SameListsSameCounts(a[..|a| - 1], b[..|b| - 1], list); }
  }

  lemma {:induction false} NoneIn(entries: seq<Entry>, list: nat)
    requires forall e | e in entries :: e.list != list
    ensures EntriesIn(entries, list) == 0
  {
    if entries != [] { NoneIn(entries[..|entries| - 1], list); }
  }

  lemma {:induction false} CandidatesDependOnSource(a: set<nat>, b: set<nat>, source: seq<nat>)
    requires forall voter | voter in source :: voter in a <==> voter in b
    ensures Candidates(a, source) == Candidates(b, source)
  {
    if source != [] { CandidatesDependOnSource(a, b, source[..|source| - 1]); }
  }

  // --- the invariant ---

  /**
   Counters agree with the entries, no voter is twice in a list, and every entry
   has good phones, judged by the DNC list of the moment it was built.
   */
  ghost predicate Consistent(entries: seq<Entry>, lists: map<nat, CallList>, dncWhenBuilt: seq<set<string>>) {
    |dncWhenBuilt| == |entries| &&
    (forall i | 0 <= i < |entries| ::
       entries[i].list in lists && GoodPhones(entries[i].contact.phones, dncWhenBuilt[i])) &&
    (forall i, j | 0 <= i < j < |entries| && entries[i].list == entries[j].list ::
       entries[i].contact.voter != entries[j].contact.voter) &&
    (forall l | l in lists :: lists[l].total == EntriesIn(entries, l))
  }

  /** Claims and releases leave list and contact of every entry alone. */
  lemma ClaimingKeepsConsistent(a: seq<Entry>, b: seq<Entry>, lists: map<nat, CallList>, dncWhenBuilt: seq<set<string>>)
    requires Consistent(a, lists, dncWhenBuilt)
    requires |a| == |b| && forall i | 0 <= i < |a| :: a[i].list == b[i].list && a[i].contact == b[i].contact
    ensures Consistent(b, lists, dncWhenBuilt)
  {
    forall l | l in lists ensures lists[l].total == EntriesIn(b, l) {
      SameListsSameCounts(a, b, l);
    }
  }

  /**
   What a claim that runs alone does: stale claims are released, and the batch, the
   best available entries up to the size, goes to the caller.
   */
  ghost predicate ClaimedBest(before: seq<Entry>, after: seq<Entry>, id: nat, cutoff: int,
                              caller: string, size: nat, now: int, batch: seq<nat>) {
    var released := Released(before, StaleRows(before, id, cutoff));
    TopBatch(released, AvailableRows(released, id), size, batch) && after == Claimed(released, batch, caller, now)
  }

  /** What a claim can take: available entries and those whose claim is stale. */
  function OpenRows(entries: seq<Entry>, id: nat, cutoff: int): set<nat> {
    AvailableRows(entries, id) + StaleRows(entries, id, cutoff)
  }

  /**
   A claim that runs alone takes as many open entries as asked for or as there are,
   and none of lower priority than an entry it leaves available.
   */
  lemma ClaimTakesBest(before: seq<Entry>, after: seq<Entry>, id: nat, cutoff: int, caller: string, size: nat, now: int,
                       batch: seq<nat>)
    requires ClaimedBest(before, after, id, cutoff, caller, size, now, batch)
    ensures var open := OpenRows(before, id, cutoff);
            |batch| == (if size < |open| then size else |open|) && Distinct(batch) && (forall i | i in batch :: i in open) &&
            forall i, other | i in batch && other in open && other !in batch ::
              before[i].contact.priority >= before[other].contact.priority
  {
    var released := Released(before, StaleRows(before, id, cutoff));
    assert AvailableRows(released, id) == OpenRows(before, id, cutoff);
    forall i | i in batch ensures i in OpenRows(before, id, cutoff) {
      var k :| 0 <= k < |batch| && batch[k] == i;
    }
    forall i | i in OpenRows(before, id, cutoff) ensures Priority(released, i) == before[i].contact.priority {
    }
  }

  /**
   It gives the entries it takes to the caller, leaves the other open ones available
   and nobody's, and changes nothing else.
   */
  lemma ClaimSettlesEach(before: seq<Entry>, after: seq<Entry>, id: nat, cutoff: int, caller: string, size: nat, now: int,
                         batch: seq<nat>, i: nat)
    requires ClaimedBest(before, after, id, cutoff, caller, size, now, batch) && i < |before|
    ensures |before| == |after|
    ensures after[i].list == before[i].list && after[i].contact == before[i].contact
    ensures if i in batch then
              i in OpenRows(before, id, cutoff) && after[i].status == InProgress &&
              after[i].claimedBy == Some(caller) && after[i].claimedAt == Some(now)
            else if before[i].list == id && before[i].status == InProgress &&
                    before[i].claimedAt.Some? && before[i].claimedAt.value < cutoff then
              after[i].status == Available && after[i].claimedBy == None && after[i].claimedAt == None
            else after[i] == before[i]
  {
    ClaimTakesBest(before, after, id, cutoff, caller, size, now, batch);
  }

  /** In progress since before now less the list's timeout in minutes, or available. */
  predicate Open(e: Entry, id: nat, minutes: int, now: int) {
    e.list == id &&
    (e.status == Available || (e.status == InProgress && e.claimedAt.Some? && e.claimedAt.value + 60 * minutes < now))
  }

  /**
   What a claim that runs alone does, entry by entry and in columns: entries that are
   not open stay as they are; of the open ones the caller gets as many as asked for or
   as there are, none of lower priority than one left; those left are available and
   nobody's.
   */
  ghost predicate ClaimedInColumns(before: seq<Entry>, after: seq<Entry>, id: nat, minutes: int, caller: string, size: nat,
                                   now: int, later: int, batch: seq<nat>) {
    var open := set i: nat | i < |before| && Open(before[i], id, minutes, now);
    |after| == |before| && (forall i | i in batch :: i in open) && Distinct(batch) &&
    |batch| == (if size < |open| then size else |open|) &&
    (forall i, other | i in batch && other in open && other !in batch ::
       before[i].contact.priority >= before[other].contact.priority) &&
    (forall i: nat | i < |before| ::
       after[i] == if i in batch then before[i].(status := InProgress, claimedBy := Some(caller), claimedAt := Some(later))
                   else if Open(before[i], id, minutes, now) && before[i].status == InProgress then
                     before[i].(status := Available, claimedBy := None, claimedAt := None)
                   else before[i])
  }

  lemma ClaimInColumns(before: seq<Entry>, after: seq<Entry>, id: nat, list: CallList, caller: string, size: nat,
                       now: int, later: int, batch: seq<nat>)
    requires ClaimedBest(before, after, id, Cutoff(list, now), caller, size, later, batch)
    ensures ClaimedInColumns(before, after, id, list.claimTimeoutMinutes, caller, size, now, later, batch)
  {
    var cutoff := Cutoff(list, now);
    ClaimTakesBest(before, after, id, cutoff, caller, size, later, batch);
    OpenInColumns(before, id, list, now);
  }

  lemma OpenInColumns(before: seq<Entry>, id: nat, list: CallList, now: int)
    ensures OpenRows(before, id, Cutoff(list, now)) ==
            set i: nat | i < |before| && Open(before[i], id, list.claimTimeoutMinutes, now)
  {
  }

  /** Releases of a list go by its own timeout. */
  predicate OwnTimeouts(actions: seq<Action>, lists: map<nat, CallList>) {
    forall k | 0 <= k < |actions| && actions[k].Release? ::
      actions[k].list in lists && actions[k].timeout == 60 * lists[actions[k].list].claimTimeoutMinutes
  }

  /**
   An entry claimed at some time keeps its caller through every interleaving of claims
   in which those on its list come no later than the list's own timeout after it.
   */
  lemma ListKeepsClaim(s: System, actions: seq<Action>, lists: map<nat, CallList>, i: nat, caller: string, time: int)
    requires Interleaving(s, actions) && HeldSince(s, i, caller, time) && OwnTimeouts(actions, lists)
    requires s.entries[i].list in lists
    requires forall k | 0 <= k < |actions| && actions[k].Release? && actions[k].list == s.entries[i].list ::
               actions[k].now <= time + 60 * lists[s.entries[i].list].claimTimeoutMinutes
    ensures HeldSince(Play(s, actions), i, caller, time)
  {
    ClaimIsKept(s, actions, i, caller, time);
  }

  /** The actions of one claim of the service. */
  function ClaimActions(id: nat, list: CallList, caller: string, now: int, later: int, batch: seq<nat>): seq<Action> {
    [Release(0, id, caller, now, 60 * list.claimTimeoutMinutes), Select(0, batch), Commit(0, later)]
  }

  lemma ClaimKeepsContacts(before: seq<Entry>, after: seq<Entry>, id: nat, cutoff: int, caller: string, size: nat, now: int,
                           batch: seq<nat>)
    requires ClaimedBest(before, after, id, cutoff, caller, size, now, batch)
    ensures |after| == |before|
    ensures forall i | 0 <= i < |before| :: after[i].list == before[i].list && after[i].contact == before[i].contact
  {
  }

  lemma ClaimKeepsConsistent(before: seq<Entry>, after: seq<Entry>, id: nat, cutoff: int, caller: string, size: nat, now: int,
                             batch: seq<nat>, lists: map<nat, CallList>, dncWhenBuilt: seq<set<string>>)
    requires Consistent(before, lists, dncWhenBuilt) && ClaimedBest(before, after, id, cutoff, caller, size, now, batch)
    ensures Consistent(after, lists, dncWhenBuilt)
  {
    ClaimKeepsContacts(before, after, id, cutoff, caller, size, now, batch);
    ClaimingKeepsConsistent(before, after, lists, dncWhenBuilt);
  }

  lemma AddingKeepsConsistent(entries: seq<Entry>, lists: map<nat, CallList>, dncWhenBuilt: seq<set<string>>,
                              id: nat, contacts: seq<Contact>, row: CallList, dnc: set<string>)
    requires Consistent(entries, lists, dncWhenBuilt) && DistinctVoters(contacts)
    requires forall contact | contact in contacts :: GoodPhones(contact.phones, dnc) && contact.voter !in VotersIn(entries, id)
    requires row.total == (if id in lists then lists[id].total else 0) + |contacts|
    ensures Consistent(entries + FreshAll(id, contacts), lists[id := row], dncWhenBuilt + seq(|contacts|, _ => dnc))
  {
    var all := entries + FreshAll(id, contacts);
    if id !in lists { NoneIn(entries, id); }
    forall l | l in lists[id := row] ensures lists[id := row][l].total == EntriesIn(all, l) {
      EntriesAfterAdding(entries, id, contacts, l);
    }
    forall i | |entries| <= i < |all|
      ensures GoodPhones(all[i].contact.phones, dnc) && all[i].contact.voter !in VotersIn(entries, id)
    {
      assert contacts[i - |entries|] in contacts;
    }
    forall i, j | 0 <= i < |entries| <= j < |all| && all[i].list == all[j].list
      ensures all[i].contact.voter != all[j].contact.voter
    {
      assert entries[i] in entries;
    }
  }

  lemma NothingAppended(data: Data, campaign: nat, present: set<nat>, source: seq<nat>)
    requires source == [] || Candidates(present, source) == []
    ensures Appended(data, campaign, present, source) == []
  {
  }

  // --- the loops ---

  /** Voters in order of their first callable row, each with its callable phones. */
  ghost predicate Groups(order: seq<nat>, grouped: map<nat, seq<Phone>>, rows: seq<PhoneRow>, dnc: set<string>) {
    order == VotersInOrder(rows, dnc) &&
    (forall voter :: voter in grouped <==> voter in order) &&
    (forall voter | voter in grouped :: grouped[voter] == PhonesOf(rows, dnc, voter))
  }

  /** defaultdict(list): append to the voter's phones, which start out empty. */
  function AddPhone(grouped: map<nat, seq<Phone>>, row: PhoneRow): map<nat, seq<Phone>> {
    var phones := if row.voter in grouped then grouped[row.voter] else [];
    grouped[row.voter := phones + [Phone(row.id, row.value, row.kind, row.primary)]]
  }

  lemma GroupsSkip(order: seq<nat>, grouped: map<nat, seq<Phone>>, rows: seq<PhoneRow>, i: nat, dnc: set<string>)
    requires i < |rows| && Groups(order, grouped, rows[..i], dnc) && !Callable(rows[i], dnc)
    ensures Groups(order, grouped, rows[..i + 1], dnc)
  {
    assert rows[..i + 1][..i] == rows[..i];
  }

  lemma GroupsAdd(order: seq<nat>, grouped: map<nat, seq<Phone>>, rows: seq<PhoneRow>, i: nat, dnc: set<string>)
    requires i < |rows| && Groups(order, grouped, rows[..i], dnc) && Callable(rows[i], dnc)
    ensures Groups(if rows[i].voter in order then order else order + [rows[i].voter],
                   AddPhone(grouped, rows[i]), rows[..i + 1], dnc)
  {
    assert rows[..i + 1][..i] == rows[..i];
    VotersInOrderAre(rows[..i], dnc);
    var after := AddPhone(grouped, rows[i]);
    forall voter | voter in after ensures after[voter] == PhonesOf(rows[..i + 1], dnc, voter) {
    }
  }

  /** Groups callable phone rows by voter. */
  method GroupPhones(rows: seq<PhoneRow>, dnc: set<string>) returns (order: seq<nat>, grouped: map<nat, seq<Phone>>)
    ensures Groups(order, grouped, rows, dnc)
  {
    order, grouped := [], map[];
    for i := 0 to |rows|
      invariant Groups(order, grouped, rows[..i], dnc)
    {
      var row := rows[i];
      if !ValidPhone(row.value) || row.value in dnc {
        GroupsSkip(order, grouped, rows, i, dnc);
        continue;
      }
      GroupsAdd(order, grouped, rows, i, dnc);
      order := if row.voter in order then order else order + [row.voter];
      grouped := AddPhone(grouped, row);
    }
    assert rows[..|rows|] == rows;
  }

  method CountInteractions(voters: seq<nat>) returns (counts: map<nat, nat>)
    ensures forall voter :: (if voter in counts then counts[voter] else 0) == CountOf(voters, voter)
  {
    counts := map[];
    for i := 0 to |voters|
      invariant forall voter :: (if voter in counts then counts[voter] else 0) == CountOf(voters[..i], voter)
    {
      assert voters[..i + 1][..i] == voters[..i];
      counts := counts[voters[i] := (if voters[i] in counts then counts[voters[i]] else 0) + 1];
    }
    assert voters[..|voters|] == voters;
  }

  /** The contacts of every voter with a callable phone, in the order of the grouping. */
  method BuildContacts(phoneRows: seq<PhoneRow>, dnc: set<string>, interactions: seq<nat>) returns (contacts: seq<Contact>)
    ensures contacts == ContactsOf(phoneRows, dnc, interactions, VotersInOrder(phoneRows, dnc))
  {
    var counts := CountInteractions(interactions);
    var order, grouped := GroupPhones(phoneRows, dnc);
    VotersInOrderAre(phoneRows, dnc);
    contacts := [];
    for i := 0 to |order|
      invariant contacts == ContactsOf(phoneRows, dnc, interactions, order[..i])
    {
      var vid := order[i];
      assert order[..i + 1][..i] == order[..i];
      assert vid in order;
      contacts := contacts +
        [Contact(vid, CalculatePriorityScore(if vid in counts then counts[vid] else 0), SortPhones(grouped[vid]))];
    }
    assert order[..|order|] == order;
  }

  /** The contacts of the candidates with a callable phone, and how many candidates have none. */
  method CollectContacts(phoneRows: seq<PhoneRow>, dnc: set<string>, interactions: seq<nat>, candidates: seq<nat>)
    returns (contacts: seq<Contact>, skippedNoPhone: nat)
    ensures contacts == ContactsOf(phoneRows, dnc, interactions, candidates)
    ensures |contacts| + skippedNoPhone == |candidates|
  {
    var counts := CountInteractions(interactions);
    var _, grouped := GroupPhones(phoneRows, dnc);
    VotersInOrderAre(phoneRows, dnc);
    contacts, skippedNoPhone := [], 0;
    for i := 0 to |candidates|
      invariant contacts == ContactsOf(phoneRows, dnc, interactions, candidates[..i])
      invariant |contacts| + skippedNoPhone == i
    {
      var vid := candidates[i];
      assert candidates[..i + 1][..i] == candidates[..i];
      if vid !in grouped {
        skippedNoPhone := skippedNoPhone + 1;
        continue;
      }
      contacts := contacts +
        [Contact(vid, CalculatePriorityScore(if vid in counts then counts[vid] else 0), SortPhones(grouped[vid]))];
    }
    assert candidates[..|candidates|] == candidates;
  }

  method ContactsOfCandidates(data: Data, campaign: nat, ghost present: set<nat>, ghost source: seq<nat>, candidates: seq<nat>)
    returns (contacts: seq<Contact>, skippedNoPhone: nat)
    requires candidates == Candidates(present, source)
    ensures contacts == Appended(data, campaign, present, source)
    ensures |contacts| + skippedNoPhone == |candidates|
  {
    var phoneRows := SelectPhones(data.phones, campaign, Some(candidates));
    var dnc := DncNumbers(data, campaign);
    var interactions := SelectInteractions(data.interactions, campaign, Some(candidates));
    contacts, skippedNoPhone := CollectContacts(phoneRows, dnc, interactions, candidates);
  }

  /** Source voters that the list does not have yet; only entries of source voters are looked up. */
  method CandidatesFor(entries: seq<Entry>, id: nat, source: seq<nat>) returns (candidates: seq<nat>)
    ensures candidates == Candidates(VotersIn(entries, id), source)
  {
    var existing := set e | e in entries && e.list == id && e.contact.voter in source :: e.contact.voter;
    CandidatesDependOnSource(existing, VotersIn(entries, id), source);
    candidates := Candidates(existing, source);
  }

  /** The contacts an append adds, and how many source voters it skips; it stops early where there is nobody to add. */
  method ContactsToAppend(data: Data, campaign: nat, entries: seq<Entry>, id: nat, source: seq<nat>)
    returns (contacts: seq<Contact>, skipped: nat)
    ensures contacts == Appended(data, campaign, VotersIn(entries, id), source)
    ensures |contacts| + skipped == |source|
  {
    AppendedAre(data, campaign, VotersIn(entries, id), source);
    var candidates := CandidatesFor(entries, id, source);
    var skippedPresent := |source| - |candidates|;
    if source == [] || candidates == [] {
      NothingAppended(data, campaign, VotersIn(entries, id), source);
      return [], skippedPresent;
    }
    var skippedNoPhone;
    contacts, skippedNoPhone := ContactsOfCandidates(data, campaign, VotersIn(entries, id), source, candidates);
    skipped := skippedPresent + skippedNoPhone;
  }

  /** Repeatedly takes a best remaining row, up to the limit. */
  method SelectTop(entries: seq<Entry>, rows: set<nat>, size: nat) returns (batch: seq<nat>)
    requires forall i | i in rows :: i < |entries|
    ensures TopBatch(entries, rows, size, batch)
  {
    batch := [];
    var rest := rows;
    while |batch| < size && rest != {}
      invariant rest <= rows && |batch| <= size && |batch| + |rest| == |rows|
      invariant forall i :: i in rows <==> i in rest || i in batch
      invariant Distinct(batch) && forall k | 0 <= k < |batch| :: batch[k] !in rest
      invariant forall i, j | 0 <= i < j < |batch| :: Priority(entries, batch[i]) >= Priority(entries, batch[j])
      invariant forall k, other | 0 <= k < |batch| && other in rest :: Priority(entries, batch[k]) >= Priority(entries, other)
      decreases |rest|
    {
      ghost var first := BestExists(entries, rest);
      var best :| best in rest && IsBest(entries, rest, best);
      assert IsBest(entries, rest, best);
      batch := batch + [best];
      rest := rest - {best};
    }
    forall b, other | b in batch && other in rows && other !in batch
      ensures Priority(entries, b) >= Priority(entries, other)
    {
      var k :| 0 <= k < |batch| && batch[k] == b;
    }
  }

  /** A claim that runs alone is one interleaving, so what holds of interleavings holds of it. */
  lemma SerialClaimIsInterleaving(before: seq<Entry>, after: seq<Entry>, id: nat, now: int, timeout: int,
                                  caller: string, size: nat, later: int, batch: seq<nat>)
    requires ClaimedBest(before, after, id, now - timeout, caller, size, later, batch)
    ensures var actions := [Release(0, id, caller, now, timeout), Select(0, batch), Commit(0, later)];
            Interleaving(System(before, map[]), actions) && Play(System(before, map[]), actions) == System(after, map[])
  {
    var s := System(before, map[]);
    var release, select, commit := Release(0, id, caller, now, timeout), Select(0, batch), Commit(0, later);
    var stale := StaleRows(before, id, now - timeout);
    forall i | i in batch ensures i in AvailableRows(Released(before, stale), id) {
      var k :| 0 <= k < |batch| && batch[k] == i;
    }
    var s1 := Act(s, release);
    var s2 := Act(s1, select);
    assert s2.pending - {0} == map[];
    assert [release, select, commit][1..] == [select, commit] && [select, commit][1..] == [commit] && [commit][1..] == [];
    assert Interleaving(Act(s2, commit), []) && Interleaving(s2, [commit]) && Interleaving(s1, [select, commit]);
    assert Play(s2, [commit]) == Act(s2, commit) && Play(s1, [select, commit]) == Play(s2, [commit]);
  }

  /** The statements of a claim: release, select, update. */
  method ClaimRows(entries: seq<Entry>, id: nat, cutoff: int, caller: string, size: nat, later: int)
    returns (after: seq<Entry>, batch: seq<nat>)
    ensures ClaimedBest(entries, after, id, cutoff, caller, size, later, batch)
  {
    after := Released(entries, StaleRows(entries, id, cutoff));
    batch := SelectTop(after, AvailableRows(after, id), size);
    if batch == [] {
      assert Claimed(after, [], caller, later) == after;
      return;
    }
    after := Claimed(after, batch, caller, later);
  }

  /** A claim from a list, by the list's own timeout. */
  method ClaimFrom(entries: seq<Entry>, id: nat, list: CallList, caller: string, size: nat, now: int, later: int)
    returns (after: seq<Entry>, batch: seq<nat>)
    ensures ClaimedBest(entries, after, id, Cutoff(list, now), caller, size, later, batch)
    ensures ClaimedInColumns(entries, after, id, list.claimTimeoutMinutes, caller, size, now, later, batch)
    ensures Plays(entries, after, ClaimActions(id, list, caller, now, later, batch))
  {
    var cutoff := Cutoff(list, now);
    after, batch := ClaimRows(entries, id, cutoff, caller, size, later);
    ClaimInColumns(entries, after, id, list, caller, size, now, later, batch);
    SerialClaimIsInterleaving(entries, after, id, now, 60 * list.claimTimeoutMinutes, caller, size, later, batch);
  }

  /** The actions, one after the other and with no other claim open, take the entries there. */
  ghost predicate Plays(before: seq<Entry>, after: seq<Entry>, actions: seq<Action>) {
    Interleaving(System(before, map[]), actions) && Play(System(before, map[]), actions) == System(after, map[])
  }

  predicate IsBest(entries: seq<Entry>, rows: set<nat>, best: nat)
    requires forall i | i in rows :: i < |entries|
  {
    best in rows && forall other | other in rows :: Priority(entries, best) >= Priority(entries, other)
  }

  lemma {:induction false} BestExists(entries: seq<Entry>, rows: set<nat>) returns (best: nat)
    requires rows != {} && forall i | i in rows :: i < |entries|
    ensures IsBest(entries, rows, best)
    decreases |rows|
  {
    var some :| some in rows;
    var rest := rows - {some};
    best := some;
    if rest != {} {
      var winner := BestExists(entries, rest);
      if Priority(entries, winner) >= Priority(entries, some) { best := winner; }
      forall other | other in rows ensures Priority(entries, best) >= Priority(entries, other) {
        assert other == some || other in rest;
      }
    }
  }

  // --- the service ---

  class Service {
    var data: Data
    var voterLists: map<nat, VoterList>
    var lists: map<nat, CallList>
    var entries: seq<Entry>
    ghost var dncWhenBuilt: seq<set<string>>

    ghost predicate Valid()
      reads this
    {
      Consistent(entries, lists, dncWhenBuilt) && forall v | v in voterLists :: Distinct(voterLists[v].members)
    }

    constructor (data: Data, voterLists: map<nat, VoterList>)
      requires forall v | v in voterLists :: Distinct(voterLists[v].members)
      ensures Valid() && lists == map[] && entries == [] && this.data == data && this.voterLists == voterLists
    {
      this.data, this.voterLists := data, voterLists;
      lists, entries, dncWhenBuilt := map[], [], [];
    }

    /** The DNC list, phones and interactions change between calls; entries are frozen. */
    method DataChanges(data: Data)
      requires Valid()
      modifies this`data
      ensures Valid() && this.data == data
    {
      this.data := data;
    }

    /** The voters are drawn from a static list's members, else from the whole campaign. */
    method Generate(campaign: nat, voterListId: Option<nat>, id: nat, claimTimeoutMinutes: int) returns (error: Option<Error>)
      requires Valid() && id !in lists
      modifies this`lists, this`entries, this`dncWhenBuilt
      ensures Valid()
      ensures error == None <==>
                (voterListId.Some? ==> voterListId.value in voterLists && voterLists[voterListId.value].campaign == campaign)
      ensures error != None ==> lists == old(lists) && entries == old(entries)
      ensures error == None ==>
                var contacts := Generated(data, campaign, if voterListId.Some? && voterLists[voterListId.value].isStatic
                                                          then Some(voterLists[voterListId.value].members) else None);
                entries == old(entries) + FreshAll(id, contacts) &&
                lists == old(lists)[id := CallList(campaign, Draft, |contacts|, claimTimeoutMinutes)]
    {
      var voterIds: Option<seq<nat>> := None;
      if voterListId.Some? {
        if voterListId.value !in voterLists || voterLists[voterListId.value].campaign != campaign {
          return Some(VoterListNotFound);
        }
        if voterLists[voterListId.value].isStatic {
          voterIds := Some(voterLists[voterListId.value].members);
        }
      }
      var phoneRows := SelectPhones(data.phones, campaign, voterIds);
      var dnc := DncNumbers(data, campaign);
      var interactions := SelectInteractions(data.interactions, campaign, voterIds);
      var contacts := BuildContacts(phoneRows, dnc, interactions);
      GeneratedAre(data, campaign, voterIds);
      AddContacts(campaign, id, contacts, CallList(campaign, Draft, |contacts|, claimTimeoutMinutes));
      error := None;
    }

    /** Adds entries for contacts of voters that are not in the list, and stores the list row. */
    method AddContacts(campaign: nat, id: nat, contacts: seq<Contact>, row: CallList)
      requires Valid() && DistinctVoters(contacts)
      requires forall contact | contact in contacts ::
                 ContactFor(data, campaign, contact.voter) == Some(contact) && contact.voter !in VotersIn(entries, id)
      requires row.total == (if id in lists then lists[id].total else 0) + |contacts|
      modifies this`lists, this`entries, this`dncWhenBuilt
      ensures Valid()
      ensures entries == old(entries) + FreshAll(id, contacts) && lists == old(lists)[id := row]
    {
      ghost var dnc := DncNumbers(data, campaign);
      forall contact | contact in contacts ensures GoodPhones(contact.phones, dnc) {
        ContactsHaveGoodPhones(data, campaign, contact);
      }
      AddingKeepsConsistent(entries, lists, dncWhenBuilt, id, contacts, row, dnc);
      lists := lists[id := row];
      entries := entries + FreshAll(id, contacts);
      dncWhenBuilt := dncWhenBuilt + seq(|contacts|, _ => dnc);
    }

    /** The source is a static list's members; a dynamic list counts as empty. */
    method AppendFromList(campaign: nat, id: nat, voterListId: nat) returns (added: nat, skipped: nat, error: Option<Error>)
      requires Valid()
      modifies this`lists, this`entries, this`dncWhenBuilt
      ensures Valid()
      ensures error == None <==> id in old(lists) && old(lists)[id].campaign == campaign && voterListId in voterLists
      ensures error != None ==> lists == old(lists) && entries == old(entries)
      ensures error == None ==>
                var source := if voterLists[voterListId].isStatic then voterLists[voterListId].members else [];
                var contacts := Appended(data, campaign, VotersIn(old(entries), id), source);
                added == |contacts| && added + skipped == |source| &&
                entries == old(entries) + FreshAll(id, contacts) &&
                lists == old(lists)[id := old(lists)[id].(total := old(lists)[id].total + added)]
    {
      if id !in lists || lists[id].campaign != campaign { return 0, 0, Some(CallListNotFound); }
      if voterListId !in voterLists { return 0, 0, Some(VoterListNotFound); }
      var source := if voterLists[voterListId].isStatic then voterLists[voterListId].members else [];
      added, skipped := AppendSource(campaign, id, source);
      error := None;
    }

    method AppendSource(campaign: nat, id: nat, source: seq<nat>) returns (added: nat, skipped: nat)
      requires Valid() && id in lists && Distinct(source)
      modifies this`lists, this`entries, this`dncWhenBuilt
      ensures Valid()
      ensures var contacts := Appended(data, campaign, VotersIn(old(entries), id), source);
              added == |contacts| && added + skipped == |source| &&
              entries == old(entries) + FreshAll(id, contacts) &&
              lists == old(lists)[id := old(lists)[id].(total := old(lists)[id].total + added)]
    {
      AppendedAre(data, campaign, VotersIn(entries, id), source);
      var contacts;
      contacts, skipped := ContactsToAppend(data, campaign, entries, id, source);
      added := |contacts|;
      AddContacts(campaign, id, contacts, lists[id].(total := lists[id].total + added));
    }

    /**
     A claim that runs alone. It releases stale claims, then gives the caller the
     best available entries, as many as asked for or as there are. The database
     refuses a negative number of rows, which takes the release back, too.
     */
    method ClaimEntries(id: nat, caller: string, size: int, campaign: Option<nat>, now: int, later: int)
      returns (batch: seq<nat>, error: Option<Error>)
      requires Valid()
      modifies this`entries
      ensures Valid()
      ensures error == if id !in lists || (campaign.Some? && lists[id].campaign != campaign.value) then Some(CallListNotFound)
                       else if lists[id].status != Active then Some(NotActive)
                       else if size < 0 then Some(NegativeLimit) else None
      ensures error != None ==> batch == [] && entries == old(entries)
      ensures error == None ==>
                ClaimedInColumns(old(entries), entries, id, lists[id].claimTimeoutMinutes, caller, size, now, later, batch)
      ensures error == None ==> Plays(old(entries), entries, ClaimActions(id, lists[id], caller, now, later, batch))
    {
      if id !in lists || (campaign.Some? && lists[id].campaign != campaign.value) { return [], Some(CallListNotFound); }
      if lists[id].status != Active { return [], Some(NotActive); }
      if size < 0 { return [], Some(NegativeLimit); }
      var after;
      after, batch := ClaimFrom(entries, id, lists[id], caller, size, now, later);
      error := None;
      ClaimKeepsConsistent(entries, after, id, Cutoff(lists[id], now), caller, size, later, batch, lists, dncWhenBuilt);
      entries := after;
    }

    method UpdateStatus(id: nat, status: ListStatus, campaign: Option<nat>) returns (error: Option<Error>)
      requires Valid()
      modifies this`lists
      ensures Valid()
      ensures error == if id !in old(lists) || (campaign.Some? && old(lists)[id].campaign != campaign.value) then Some(CallListNotFound)
                       else if (old(lists)[id].status == Draft && status == Active) ||
                               (old(lists)[id].status == Active && status == Completed) then None
                       else Some(InvalidTransition)
      ensures lists == if error == None then old(lists)[id := old(lists)[id].(status := status)] else old(lists)
    {
      if id !in lists || (campaign.Some? && lists[id].campaign != campaign.value) { return Some(CallListNotFound); }
      if !CanMove(lists[id].status, status) { return Some(InvalidTransition); }
      lists := lists[id := lists[id].(status := status)];
      error := None;
    }
  }
}
