/**
 Two appends to one call list that overlap: both read the list before either commits.
 Nothing in the tables stops them.
 */
module CallListOverlap {
  import opened Options
  import opened CallListBuild
  import opened CallListClaims
  import opened CallLists

  /** What an append that read these entries adds. */
  function Adds(entries: seq<Entry>, id: nat, data: Data, campaign: nat, source: seq<nat>): seq<Contact> {
    Appended(data, campaign, VotersIn(entries, id), source)
  }

  function EntriesAfterBoth(entries: seq<Entry>, id: nat, first: seq<Contact>, second: seq<Contact>): seq<Entry> {
    entries + FreshAll(id, first) + FreshAll(id, second)
  }

  /** The total is written as read plus added, over what the first has written; a total that does not change is not written. */
  function TotalAfterBoth(total: int, first: seq<Contact>, second: seq<Contact>): int {
    if second == [] then total + |first| else total + |second|
  }

  predicate NoVoterTwice(entries: seq<Entry>, id: nat) {
    forall i, j | 0 <= i < j < |entries| && entries[i].list == id && entries[j].list == id ::
      entries[i].contact.voter != entries[j].contact.voter
  }

  /** Adding contacts keeps voters distinct exactly if theirs are distinct and new. */
  lemma DistinctAfterAdding(entries: seq<Entry>, id: nat, contacts: seq<Contact>)
    requires NoVoterTwice(entries, id) && DistinctVoters(contacts)
    ensures NoVoterTwice(entries + FreshAll(id, contacts), id) <==> VotersOf(contacts) !! VotersIn(entries, id)
  {
    var all := entries + FreshAll(id, contacts);
    if contact, e :| contact in contacts && e in entries && e.list == id && e.contact.voter == contact.voter {
      var i :| 0 <= i < |entries| && entries[i] == e;
      var k :| 0 <= k < |contacts| && contacts[k] == contact;
      assert all[i] == e && all[|entries| + k] == Fresh(id, contact);
    }
    if VotersOf(contacts) !! VotersIn(entries, id) {
      forall i, j | 0 <= i < j < |all| && all[i].list == id && all[j].list == id
        ensures all[i].contact.voter != all[j].contact.voter
      {
        if i < |entries| <= j {
          assert entries[i] in entries && contacts[j - |entries|] in contacts;
          assert all[i].contact.voter in VotersIn(entries, id) && all[j].contact.voter in VotersOf(contacts);
        }
      }
    }
  }

  lemma VotersAfterAdding(entries: seq<Entry>, id: nat, contacts: seq<Contact>)
    ensures VotersIn(entries + FreshAll(id, contacts), id) == VotersIn(entries, id) + VotersOf(contacts)
  {
    var all := entries + FreshAll(id, contacts);
    forall voter | voter in VotersIn(all, id) ensures voter in VotersIn(entries, id) + VotersOf(contacts) {
      var e :| e in all && e.list == id && e.contact.voter == voter;
      var i :| 0 <= i < |all| && all[i] == e;
      if i >= |entries| { assert contacts[i - |entries|] in contacts; }
    }
    forall voter | voter in VotersOf(contacts) ensures voter in VotersIn(all, id) {
      var contact :| contact in contacts && contact.voter == voter;
      var k :| 0 <= k < |contacts| && contacts[k] == contact;
      assert all[|entries| + k] == Fresh(id, contact);
    }
  }

  /** Both sources have this voter, whom the list did not have and who can be called. */
  predicate AddedByBoth(entries: seq<Entry>, id: nat, data: Data, campaign: nat, first: seq<nat>, second: seq<nat>, voter: nat) {
    voter in first && voter in second && voter !in VotersIn(entries, id) && ContactFor(data, campaign, voter).Some?
  }

  lemma AddedVoters(entries: seq<Entry>, id: nat, data: Data, campaign: nat, source: seq<nat>)
    ensures var added := VotersOf(Adds(entries, id, data, campaign, source));
            added !! VotersIn(entries, id) &&
            forall voter :: voter in added <==>
              voter in source && voter !in VotersIn(entries, id) && ContactFor(data, campaign, voter).Some?
  {
    var contacts := Adds(entries, id, data, campaign, source);
    AppendedAre(data, campaign, VotersIn(entries, id), source);
    forall voter | voter in source && voter !in VotersIn(entries, id) && ContactFor(data, campaign, voter).Some?
      ensures voter in VotersOf(contacts)
    {
      assert ContactFor(data, campaign, voter).value in contacts;
    }
  }

  lemma DistinctAfterBoth(entries: seq<Entry>, id: nat, a: seq<Contact>, b: seq<Contact>)
    requires NoVoterTwice(entries, id) && DistinctVoters(a) && DistinctVoters(b)
    requires VotersOf(a) !! VotersIn(entries, id) && VotersOf(b) !! VotersIn(entries, id)
    ensures NoVoterTwice(EntriesAfterBoth(entries, id, a, b), id) <==> VotersOf(a) !! VotersOf(b)
  {
    DistinctAfterAdding(entries, id, a);
    VotersAfterAdding(entries, id, a);
    DistinctAfterAdding(entries + FreshAll(id, a), id, b);
  }

  lemma TotalAgrees(entries: seq<Entry>, id: nat, total: int, a: seq<Contact>, b: seq<Contact>)
    requires total == EntriesIn(entries, id)
    ensures TotalAfterBoth(total, a, b) == EntriesIn(EntriesAfterBoth(entries, id, a, b), id) <==> a == [] || b == []
  {
    EntriesAfterAdding(entries, id, a, id);
    EntriesAfterAdding(entries + FreshAll(id, a), id, b, id);
  }

  /**
   Exactly when two overlapping appends leave the list as it should be: no voter is
   twice in it if and only if no new callable voter is in both sources, and the total
   counts the entries if and only if one of the two added nothing.
   */
  lemma OverlapExactly(entries: seq<Entry>, id: nat, total: int, data: Data, campaign: nat, first: seq<nat>, second: seq<nat>)
    requires NoVoterTwice(entries, id) && total == EntriesIn(entries, id) && Distinct(first) && Distinct(second)
    ensures var a, b := Adds(entries, id, data, campaign, first), Adds(entries, id, data, campaign, second);
            var after := EntriesAfterBoth(entries, id, a, b);
            (NoVoterTwice(after, id) <==>
               forall voter :: !AddedByBoth(entries, id, data, campaign, first, second, voter)) &&
            (TotalAfterBoth(total, a, b) == EntriesIn(after, id) <==> a == [] || b == [])
  {
    var a, b := Adds(entries, id, data, campaign, first), Adds(entries, id, data, campaign, second);
    AppendedAre(data, campaign, VotersIn(entries, id), first);
    AppendedAre(data, campaign, VotersIn(entries, id), second);
    AddedVoters(entries, id, data, campaign, first);
    AddedVoters(entries, id, data, campaign, second);
    DistinctAfterBoth(entries, id, a, b);
    TotalAgrees(entries, id, total, a, b);
    forall voter
      ensures AddedByBoth(entries, id, data, campaign, first, second, voter) <==> voter in VotersOf(a) && voter in VotersOf(b)
    {
    }
  }

  // --- a list appended twice at once ---

  const ONE_ROW := PhoneRow(1, 7, 1, "5551234567", "mobile", true)
  const ONE_VOTER := Data([ONE_ROW], {}, [])

  lemma OneRowCallable()
    ensures CallableRow(ONE_VOTER, 1, 7, ONE_ROW)
  {
  }

  lemma OneVoterCallable()
    ensures ContactFor(ONE_VOTER, 1, 7).Some?
  {
    OneRowCallable();
    ContactPhonesAre(ONE_VOTER, 1, 7, AsPhone(ONE_ROW));
  }

  /** Appending the same voter list twice at once to an empty list puts its voter in twice and counts one entry. */
  lemma OverlapDuplicates()
    ensures var a := Adds([], 1, ONE_VOTER, 1, [7]); var after := EntriesAfterBoth([], 1, a, a);
            !NoVoterTwice(after, 1) && EntriesIn(after, 1) != TotalAfterBoth(0, a, a)
  {
    OneVoterCallable();
    OverlapExactly([], 1, 0, ONE_VOTER, 1, [7], [7]);
    AddedVoters([], 1, ONE_VOTER, 1, [7]);
    assert AddedByBoth([], 1, ONE_VOTER, 1, [7], [7], 7);
  }
}
