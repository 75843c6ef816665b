/**
 Claiming call list entries: a claim first releases stale claims, then takes the
 best available entries that no other transaction has locked.
 */
module CallListClaims {
  import opened Options
  import opened CallListBuild

  datatype EntryStatus = Available | InProgress | CompletedEntry | MaxAttempts | Terminal

  datatype Entry = Entry(list: nat, contact: Contact, status: EntryStatus, claimedBy: Option<string>, claimedAt: Option<int>)

  function Fresh(list: nat, contact: Contact): Entry {
    Entry(list, contact, Available, None, None)
  }

  // --- the statements of a claim ---

  predicate Stale(e: Entry, list: nat, cutoff: int) {
    e.list == list && e.status == InProgress && e.claimedAt.Some? && e.claimedAt.value < cutoff
  }

  function StaleRows(entries: seq<Entry>, list: nat, cutoff: int): set<nat> {
    set i: nat | i < |entries| && Stale(entries[i], list, cutoff)
  }

  function Released(entries: seq<Entry>, rows: set<nat>): (r: seq<Entry>)
    ensures |r| == |entries|
  {
    seq(|entries|, i requires 0 <= i < |entries| =>
      if i in rows then entries[i].(status := Available, claimedBy := None, claimedAt := None) else entries[i])
  }

  function AvailableRows(entries: seq<Entry>, list: nat): set<nat> {
    set i: nat | i < |entries| && entries[i].list == list && entries[i].status == Available
  }

  function Claimed(entries: seq<Entry>, batch: seq<nat>, caller: string, now: int): (r: seq<Entry>)
    ensures |r| == |entries|
  {
    seq(|entries|, i requires 0 <= i < |entries| =>
      if i in batch then entries[i].(status := InProgress, claimedBy := Some(caller), claimedAt := Some(now)) else entries[i])
  }

  function Priority(entries: seq<Entry>, i: nat): int
    requires i < |entries|
  {
    entries[i].contact.priority
  }

  /** A batch that ORDER BY priority DESC LIMIT size can return from these rows; ties fall either way. */
  predicate TopBatch(entries: seq<Entry>, rows: set<nat>, size: nat, batch: seq<nat>)
    requires forall i | i in rows :: i < |entries|
  {
    (forall k | 0 <= k < |batch| :: batch[k] in rows) && Distinct(batch) &&
    |batch| == (if size < |rows| then size else |rows|) &&
    (forall i, j | 0 <= i < j < |batch| :: Priority(entries, batch[i]) >= Priority(entries, batch[j])) &&
    (forall b, other | b in batch && other in rows && other !in batch :: Priority(entries, b) >= Priority(entries, other))
  }

  // --- interleaved claims ---

  /**
   A claim between its first statement and the end of its transaction: the list, the
   rows it has released, and the batch it has selected, if it has; it holds both locked.
   */
  datatype Claim = Claim(caller: string, list: nat, released: set<nat>, selected: bool, batch: seq<nat>)

  datatype System = System(entries: seq<Entry>, pending: map<nat, Claim>)

  datatype Action =
    | Release(txn: nat, list: nat, caller: string, now: int, timeout: int)
    | Select(txn: nat, batch: seq<nat>)
    | Commit(txn: nat, now: int)
    | Rollback(txn: nat)
    | AddEntries(list: nat, contacts: seq<Contact>)

  predicate Holds(c: Claim, i: nat) {
    i in c.released || i in c.batch
  }

  predicate LockedByOther(s: System, txn: nat, i: nat) {
    exists t: nat | t in s.pending && t != txn :: Holds(s.pending[t], i)
  }

  /**
   When an action can happen. The release waits for row locks; the SELECT skips
   locked rows and takes rows that are available when it locks them, where the
   transaction sees its own release on what has been committed by then.
   */
  predicate Enabled(s: System, a: Action) {
    match a
    case Release(txn, list, caller, now, timeout) =>
      txn !in s.pending && forall i | i in StaleRows(s.entries, list, now - timeout) :: !LockedByOther(s, txn, i)
    case Select(txn, batch) =>
      txn in s.pending && !s.pending[txn].selected &&
      forall i | i in batch ::
        i in AvailableRows(Released(s.entries, s.pending[txn].released), s.pending[txn].list) && !LockedByOther(s, txn, i)
    case Commit(txn, _) => txn in s.pending
    case Rollback(txn) => txn in s.pending
    case AddEntries(_, _) => true
  }

  /** The committed entries and the open claims after an action. */
  function Act(s: System, a: Action): System {
    match a
    case Release(txn, list, caller, now, timeout) =>
      s.(pending := s.pending[txn := Claim(caller, list, StaleRows(s.entries, list, now - timeout), false, [])])
    case Select(txn, batch) =>
      if txn !in s.pending then s
      else s.(pending := s.pending[txn := s.pending[txn].(selected := true, batch := batch)])
    case Commit(txn, now) =>
      if txn !in s.pending then s
      else
        var c := s.pending[txn];
        System(Claimed(Released(s.entries, c.released), c.batch, c.caller, now), s.pending - {txn})
    case Rollback(txn) => s.(pending := s.pending - {txn})
    case AddEntries(list, contacts) =>
      s.(entries := s.entries + seq(|contacts|, k requires 0 <= k < |contacts| => Fresh(list, contacts[k])))
  }

  predicate Interleaving(s: System, actions: seq<Action>)
    decreases |actions|
  {
    actions == [] || (Enabled(s, actions[0]) && Interleaving(Act(s, actions[0]), actions[1..]))
  }

  function Play(s: System, actions: seq<Action>): System
    decreases |actions|
  {
    if actions == [] then s else Play(Act(s, actions[0]), actions[1..])
  }

  predicate Takeable(s: System, c: Claim, i: nat) {
    i < |s.entries| && (i in c.released || s.entries[i].status == Available)
  }

  /** No row is held by two open claims, and every row in a batch is available or being released by its own claim. */
  ghost predicate LocksDisjoint(s: System) {
    (forall t: nat, u: nat, i: nat | t in s.pending && u in s.pending && t != u && Holds(s.pending[t], i) :: !Holds(s.pending[u], i)) &&
    (forall t: nat, i: nat | t in s.pending && Holds(s.pending[t], i) :: Takeable(s, s.pending[t], i))
  }

  lemma ActKeepsLocksDisjoint(s: System, a: Action)
    requires LocksDisjoint(s) && Enabled(s, a)
    ensures LocksDisjoint(Act(s, a))
  {
    var s1 := Act(s, a);
    match a
    case Release(txn, _, _, _, _) =>
      forall i: nat | Holds(s1.pending[txn], i) ensures Takeable(s, s1.pending[txn], i) && !LockedByOther(s, txn, i) {
      }
    case Select(txn, batch) =>
      var mine := s.pending[txn];
      forall i: nat | Holds(s1.pending[txn], i) ensures Takeable(s1, s1.pending[txn], i) && !LockedByOther(s, txn, i) {
        if i in batch {
          assert i in AvailableRows(Released(s.entries, mine.released), mine.list);
        } else {
          assert Holds(mine, i);
        }
      }
    case Commit(txn, now) =>
      forall t: nat, i: nat | t in s1.pending && Holds(s1.pending[t], i)
        ensures i < |s1.entries| && s1.entries[i] == s.entries[i]
      {
        assert Holds(s.pending[t], i) && !Holds(s.pending[txn], i);
      }
    case _ =>
  }

  /**
   In every interleaving of claims, the batches of claims that overlap are disjoint,
   and none contains a row another committed claim still has.
   */
  lemma {:induction false} OverlappingClaimsAreDisjoint(s: System, actions: seq<Action>, t: nat, u: nat)
    requires LocksDisjoint(s) && Interleaving(s, actions)
    ensures LocksDisjoint(Play(s, actions))
    ensures var s1 := Play(s, actions);
            t in s1.pending && u in s1.pending && t != u ==>
              forall i: nat :: i in s1.pending[t].batch ==> i !in s1.pending[u].batch
    decreases |actions|
  {
    if actions != [] {
      ActKeepsLocksDisjoint(s, actions[0]);
      OverlappingClaimsAreDisjoint(Act(s, actions[0]), actions[1..], t, u);
    } else if t in s.pending && u in s.pending && t != u {
      forall i: nat | i in s.pending[t].batch ensures i !in s.pending[u].batch {
        assert Holds(s.pending[t], i);
      }
    }
  }

  /** A row held by its claimant: in progress for the caller since the time, and locked by nobody. */
  predicate HeldSince(s: System, i: nat, caller: string, time: int) {
    i < |s.entries| && s.entries[i].status == InProgress &&
    s.entries[i].claimedBy == Some(caller) && s.entries[i].claimedAt == Some(time) &&
    forall t: nat | t in s.pending :: !Holds(s.pending[t], i)
  }

  /** Committing a claim gives its caller every row of its batch. */
  lemma CommitGivesBatch(s: System, txn: nat, now: int, i: nat)
    requires LocksDisjoint(s) && txn in s.pending && i in s.pending[txn].batch
    ensures HeldSince(Act(s, Commit(txn, now)), i, s.pending[txn].caller, now)
    ensures var e := Act(s, Commit(txn, now)).entries[i];
            e.contact == s.entries[i].contact && e.list == s.entries[i].list
  {
    assert Holds(s.pending[txn], i);
  }

  /**
   An entry claimed at some time keeps its caller through every interleaving in which
   all claims on its list are made at or before that time plus the claim timeout.
   */
  lemma {:induction false} ClaimIsKept(s: System, actions: seq<Action>, i: nat, caller: string, time: int)
    requires Interleaving(s, actions) && HeldSince(s, i, caller, time)
    requires forall k | 0 <= k < |actions| && actions[k].Release? && actions[k].list == s.entries[i].list ::
               actions[k].now <= time + actions[k].timeout
    ensures HeldSince(Play(s, actions), i, caller, time)
    decreases |actions|
  {
    if actions != [] {
      var s1 := Act(s, actions[0]);
      assert HeldSince(s1, i, caller, time);
      forall k | 0 <= k < |actions[1..]| && actions[1..][k].Release? && actions[1..][k].list == s1.entries[i].list
        ensures actions[1..][k].now <= time + actions[1..][k].timeout
      {
        assert actions[1..][k] == actions[k + 1];
      }
      ClaimIsKept(s1, actions[1..], i, caller, time);
    }
  }

  /** An entry shows a caller and a time exactly while it is in progress. */
  predicate OwnerShown(e: Entry) {
    if e.status == InProgress then e.claimedBy.Some? && e.claimedAt.Some?
    else e.status == Available ==> e.claimedBy == None && e.claimedAt == None
  }

  /** In every interleaving, available entries are nobody's and entries in progress are somebody's. */
  lemma {:induction false} OwnersStayShown(s: System, actions: seq<Action>)
    requires forall e | e in s.entries :: OwnerShown(e)
    ensures forall e | e in Play(s, actions).entries :: OwnerShown(e)
    decreases |actions|
  {
    if actions != [] {
      var s1 := Act(s, actions[0]);
      forall i | 0 <= i < |s1.entries| ensures OwnerShown(s1.entries[i]) {
        if i < |s.entries| { assert s.entries[i] in s.entries; }
      }
      OwnersStayShown(s1, actions[1..]);
    }
  }
}
