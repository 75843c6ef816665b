/**
 The spend ledger of an organization: what its totals mean, when the budget gate
 lets a new event start, and how reconciliation changes what was recorded.
 */
module SpendLedger {
  import opened Options

  datatype Row = Row(
    org: nat, id: nat, createdAt: int, event: string, sid: Option<string>, status: Option<string>,
    cost: Option<int>, pending: bool, metadata: Option<map<string, string>>, updatedAt: int)

  datatype Org = Org(id: nat, softBudget: Option<int>, warningPercent: int)

  datatype State = Healthy | CostPending | NearLimit | OverLimit

  datatype Summary = Summary(
    configured: bool, softBudget: Option<int>, warningPercent: int, state: State,
    finalized: int, pendingSpend: int, pendingItems: int, estimatedTotal: int,
    remaining: Option<int>, warningThreshold: Option<int>)

  datatype Decision = Decision(allowed: bool, state: State, reason: Option<string>, summary: Summary)

  // --- totals ---

  /** SUM of the costs of the organization's rows that are pending, or are not; NULL costs add nothing. */
  function Spend(rows: seq<Row>, org: nat, pending: bool): int {
    if rows == [] then 0
    else
      var last := rows[|rows| - 1];
      Spend(rows[..|rows| - 1], org, pending) + if last.org == org && last.pending == pending then Known(last) else 0
  }

  function PendingItems(rows: seq<Row>, org: nat): nat {
    if rows == [] then 0
    else PendingItems(rows[..|rows| - 1], org) + if rows[|rows| - 1].org == org && rows[|rows| - 1].pending then 1 else 0
  }

  /** What is known of a row's cost. */
  function Known(row: Row): int {
    Coalesce(row.cost, 0)
  }

  /** All costs known so far, settled or not. */
  function KnownTotal(rows: seq<Row>, org: nat): int {
    if rows == [] then 0
    else KnownTotal(rows[..|rows| - 1], org) + if rows[|rows| - 1].org == org then Known(rows[|rows| - 1]) else 0
  }

  // --- summary and gate ---

  /** int(budget * (percent / 100)), with the fraction taken exactly and cut toward zero. */
  function WarningThreshold(budget: int, percent: int): int {
    var product := budget * percent;
    if product >= 0 then product / 100 else -((-product) / 100)
  }

  /** The threshold is the greatest whole number of cents within the percentage, and within the budget. */
  lemma ThresholdWithinBudget(budget: nat, percent: nat, cents: int)
    requires percent <= 100
    ensures 0 <= WarningThreshold(budget, percent) <= budget
    ensures cents <= WarningThreshold(budget, percent) <==> cents * 100 <= budget * percent
  {
    assert 0 <= budget * percent <= budget * 100;
    ShareCut(budget * percent, budget, cents);
  }

  lemma ShareCut(product: int, budget: int, cents: int)
    ensures cents <= product / 100 <==> cents * 100 <= product
    ensures 0 <= product <= budget * 100 ==> 0 <= product / 100 <= budget
  {
  }

  function BuildSummary(org: Org, finalized: int, pendingSpend: int, pendingItems: int): Summary {
    var estimated := finalized + pendingSpend;
    var quiet := if pendingItems > 0 then CostPending else Healthy;
    match org.softBudget
    case None =>
      Summary(false, None, org.warningPercent, quiet, finalized, pendingSpend, pendingItems, estimated, None, None)
    case Some(budget) =>
      var threshold := WarningThreshold(budget, org.warningPercent);
      var state := if estimated >= budget then OverLimit else if estimated >= threshold then NearLimit else quiet;
      Summary(true, Some(budget), org.warningPercent, state, finalized, pendingSpend, pendingItems, estimated,
              Some(budget - estimated), Some(threshold))
  }

  function GetBudgetSummary(rows: seq<Row>, org: Org): Summary {
    BuildSummary(org, Spend(rows, org.id, false), Spend(rows, org.id, true), PendingItems(rows, org.id))
  }

  /**
   What each row adds to the summary: its known cost to the finalized spend once it is
   settled, and before that to the pending spend, where it counts as an item.
   */
  lemma SummaryAfterRow(rows: seq<Row>, row: Row, org: Org)
    ensures var before, after := GetBudgetSummary(rows, org), GetBudgetSummary(rows + [row], org);
            var cost := if row.cost.Some? then row.cost.value else 0;
            after.finalized == before.finalized + (if row.org == org.id && !row.pending then cost else 0) &&
            after.pendingSpend == before.pendingSpend + (if row.org == org.id && row.pending then cost else 0) &&
            after.pendingItems == before.pendingItems + (if row.org == org.id && row.pending then 1 else 0)
    ensures var none := GetBudgetSummary([], org); none.finalized == none.pendingSpend == none.pendingItems == 0
  {
    assert (rows + [row])[..|rows|] == rows;
  }

  /**
   The state of a summary: over the limit at the budget, near it at the percentage
   rounded down, and otherwise a matter of pending items; and what remains of the budget.
   */
  lemma SummaryInNumbers(rows: seq<Row>, org: Org)
    ensures var s := GetBudgetSummary(rows, org);
            && s.estimatedTotal == s.finalized + s.pendingSpend && s.softBudget == org.softBudget
            && (s.configured <==> org.softBudget.Some?) && s.warningPercent == org.warningPercent
            && (s.state == OverLimit <==> org.softBudget.Some? && s.estimatedTotal >= org.softBudget.value)
            && (org.softBudget.Some? && org.softBudget.value >= 0 && 0 <= org.warningPercent <= 100 ==>
                  (s.state == NearLimit <==>
                     s.estimatedTotal < org.softBudget.value &&
                     (s.estimatedTotal + 1) * 100 > org.softBudget.value * org.warningPercent))
            && (s.state == CostPending ==> s.pendingItems > 0) && (s.state == Healthy ==> s.pendingItems == 0)
            && (org.softBudget.None? ==> s.state in {CostPending, Healthy})
            && (s.remaining == if org.softBudget.Some? then Some(org.softBudget.value - s.estimatedTotal) else None)
  {
    if org.softBudget.Some? && org.softBudget.value >= 0 && 0 <= org.warningPercent <= 100 {
      ThresholdWithinBudget(org.softBudget.value, org.warningPercent, GetBudgetSummary(rows, org).estimatedTotal + 1);
    }
  }

  /**
   What a decision says: refused at the budget, warned about from the percentage on, and
   the reason is the state if there is anything to say.
   */
  lemma DecisionInWords(rows: seq<Row>, org: Org, estimate: int)
    ensures var d := Gate(rows, org, estimate);
            (d.allowed <==> d.state != OverLimit) && d.summary.state == d.state &&
            (d.reason == Some("budget_over_limit") <==> d.state == OverLimit) &&
            (d.reason == Some("budget_near_limit") <==> d.state == NearLimit) &&
            (d.reason == Some("cost_pending") <==> d.state == CostPending) && (d.reason == None <==> d.state == Healthy) &&
            d.summary == GetBudgetSummary(rows, org).(state := d.state)
    ensures var d := Gate(rows, org, estimate);
            var projected := GetBudgetSummary(rows, org).estimatedTotal + if estimate > 0 then estimate else 0;
            && (d.state == OverLimit <==> org.softBudget.Some? && projected >= org.softBudget.value)
            && (org.softBudget.Some? && org.softBudget.value >= 0 && 0 <= org.warningPercent <= 100 ==>
                  (d.state == NearLimit <==>
                     projected < org.softBudget.value && (projected + 1) * 100 > org.softBudget.value * org.warningPercent))
            && (d.state == CostPending ==> GetBudgetSummary(rows, org).pendingItems > 0)
            && (d.state == Healthy ==> GetBudgetSummary(rows, org).pendingItems == 0)
  {
    if org.softBudget.Some? && org.softBudget.value >= 0 && 0 <= org.warningPercent <= 100 {
      ThresholdWithinBudget(org.softBudget.value, org.warningPercent,
                            GetBudgetSummary(rows, org).estimatedTotal + Additional(estimate) + 1);
    }
  }

  /** Sets the summary's state to what the decision is about. */
  method EvaluateGate(rows: seq<Row>, org: Org, estimate: int := 0) returns (decision: Decision)
    ensures decision == Gate(rows, org, estimate)
  {
    var summary := GetBudgetSummary(rows, org);
    if !summary.configured || summary.softBudget == None {
      var state := if summary.pendingItems > 0 then CostPending else Healthy;
      summary := summary.(state := state);
      return Decision(true, state, if state == CostPending then Some("cost_pending") else None, summary);
    }
    var projected := summary.estimatedTotal + (if estimate > 0 then estimate else 0);
    if projected >= summary.softBudget.value {
      return Decision(false, OverLimit, Some("budget_over_limit"), summary.(state := OverLimit));
    }
    if summary.warningThreshold != None && projected >= summary.warningThreshold.value {
      return Decision(true, NearLimit, Some("budget_near_limit"), summary.(state := NearLimit));
    }
    if summary.pendingItems > 0 {
      return Decision(true, CostPending, Some("cost_pending"), summary.(state := CostPending));
    }
    return Decision(true, Healthy, None, summary.(state := Healthy));
  }

  /** A negative estimate counts as none. */
  function Additional(estimate: int): int {
    if estimate > 0 then estimate else 0
  }

  /** The decision: the state the summary would have with the estimate already spent. */
  function Gate(rows: seq<Row>, org: Org, estimate: int): Decision {
    var projected := BuildSummary(org, Spend(rows, org.id, false) + Additional(estimate), Spend(rows, org.id, true), PendingItems(rows, org.id));
    var reason :=
      match projected.state
      case OverLimit => Some("budget_over_limit")
      case NearLimit => Some("budget_near_limit")
      case CostPending => Some("cost_pending")
      case Healthy => None;
    Decision(projected.state != OverLimit, projected.state, reason,
             GetBudgetSummary(rows, org).(state := projected.state))
  }

  // --- the ledger ---

  const FINAL_STATUSES: set<string> :=
    {"delivered", "read", "completed", "busy", "no-answer", "failed", "canceled", "undelivered"}

  predicate Matches(row: Row, sid: string, event: string) {
    row.sid == Some(sid) && row.event == event
  }

  predicate Newer(a: Row, b: Row) {
    a.createdAt > b.createdAt || (a.createdAt == b.createdAt && a.id > b.id)
  }

  /** ORDER BY created_at DESC, id DESC LIMIT 1 among the matching rows of all organizations. */
  predicate IsLatest(rows: seq<Row>, k: nat, sid: string, event: string) {
    k < |rows| && Matches(rows[k], sid, event) &&
    forall other | 0 <= other < |rows| && other != k && Matches(rows[other], sid, event) :: Newer(rows[k], rows[other])
  }

  /** The row that a reconciliation leaves in place of the one it found. */
  function Reconciled(row: Row, status: Option<string>, cost: Option<int>, metadata: map<string, string>, now: int): Row {
    row.(status := if status.Some? then status else row.status,
         cost := if cost.Some? then cost else row.cost,
         pending := if status.Some? && status.value in FINAL_STATUSES then false else cost.None? && row.pending,
         metadata := if metadata == map[] then row.metadata else Some(Coalesce(row.metadata, map[]) + metadata),
         updatedAt := now)
  }

  /** The row matches, and every other that does was created earlier, or at once with a smaller id. */
  predicate NewestMatch(rows: seq<Row>, k: nat, sid: string, event: string)
    requires k < |rows|
  {
    rows[k].sid == Some(sid) && rows[k].event == event &&
    forall i | 0 <= i < |rows| && i != k && rows[i].sid == Some(sid) && rows[i].event == event ::
      rows[i].createdAt < rows[k].createdAt || (rows[i].createdAt == rows[k].createdAt && rows[i].id < rows[k].id)
  }

  /** Twilio will not report on the message or call again. */
  predicate IsFinal(status: string) {
    status == "delivered" || status == "read" || status == "completed" || status == "busy" ||
    status == "no-answer" || status == "failed" || status == "canceled" || status == "undelivered"
  }

  /**
   A row is settled by a final status or a cost, and otherwise as pending as before.
   A status or cost given is the new one, an absent one keeps the old; each metadata
   key takes the value given, if any; every other column stays.
   */
  predicate ReconciledInColumns(before: Row, after: Row, status: Option<string>, cost: Option<int>,
                                metadata: map<string, string>, now: int) {
    after.pending == (if (status.Some? && IsFinal(status.value)) || cost.Some? then false else before.pending) &&
    (status.Some? ==> after.status == status) && (status.None? ==> after.status == before.status) &&
    (cost.Some? ==> after.cost == cost) && (cost.None? ==> after.cost == before.cost) &&
    (metadata == map[] ==> after.metadata == before.metadata) &&
    (metadata != map[] ==>
       after.metadata.Some? &&
       after.metadata.value.Keys == metadata.Keys + (if before.metadata.Some? then before.metadata.value.Keys else {}) &&
       (forall key | key in after.metadata.value ::
          after.metadata.value[key] == if key in metadata then metadata[key] else before.metadata.value[key])) &&
    after.org == before.org && after.id == before.id && after.createdAt == before.createdAt &&
    after.event == before.event && after.sid == before.sid && after.updatedAt == now
  }

  lemma ReconcileInColumns(row: Row, status: Option<string>, cost: Option<int>, metadata: map<string, string>, now: int)
    ensures ReconciledInColumns(row, Reconciled(row, status, cost, metadata, now), status, cost, metadata, now)
  {
  }

  predicate IdsUnique(rows: seq<Row>) {
    forall i, j | 0 <= i < j < |rows| :: rows[i].id != rows[j].id
  }

  class Ledger {
    var rows: seq<Row>

    constructor ()
      ensures rows == []
    {
      rows := [];
    }

    method RecordEvent(row: Row)
      requires IdsUnique(rows) && forall r | r in rows :: r.id != row.id
      modifies this
      ensures IdsUnique(rows) && rows == old(rows) + [row]
      ensures Steps(old(rows), Record(row), rows)
    {
      assert forall i | 0 <= i < |rows| :: rows[i] in rows;
      rows := rows + [row];
    }

    method ReconcileEvent(sid: string, event: string, status: Option<string>, cost: Option<int>,
                          metadata: map<string, string>, now: int) returns (found: Option<nat>)
      requires IdsUnique(rows)
      modifies this
      ensures IdsUnique(rows)
      ensures found.None? <==>
                forall k | 0 <= k < |old(rows)| :: !(old(rows)[k].sid == Some(sid) && old(rows)[k].event == event)
      ensures found.None? ==> rows == old(rows)
      ensures found.Some? ==>
                found.value < |old(rows)| && NewestMatch(old(rows), found.value, sid, event) &&
                |rows| == |old(rows)| && rows == old(rows)[found.value := rows[found.value]] &&
                ReconciledInColumns(old(rows)[found.value], rows[found.value], status, cost, metadata, now)
      ensures Steps(old(rows), Reconcile(sid, event, status, cost, metadata, now), rows)
    {
      if forall k | 0 <= k < |rows| :: !Matches(rows[k], sid, event) { return None; }
      LatestExists(rows, sid, event);
      var k: nat :| k < |rows| && IsLatest(rows, k, sid, event);
      assert IsLatest(rows, k, sid, event);
      var row := rows[k];
      if status.Some? {
        row := row.(status := status);
      }
      if cost.Some? {
        row := row.(cost := cost);
      }
      row := row.(pending := if status == None || status.value !in FINAL_STATUSES then cost == None && row.pending else false);
      if metadata != map[] {
        row := row.(metadata := Some(Coalesce(row.metadata, map[]) + metadata));
      }
      row := row.(updatedAt := now);
      rows := rows[k := row];
      ReconcileInColumns(old(rows)[k], status, cost, metadata, now);
      assert ReplacesLatest(old(rows), Reconcile(sid, event, status, cost, metadata, now), rows, k);
      found := Some(k);
    }
  }

  lemma {:induction false} LatestExists(rows: seq<Row>, sid: string, event: string)
    requires IdsUnique(rows) && exists k :: 0 <= k < |rows| && Matches(rows[k], sid, event)
    ensures exists k: nat :: k < |rows| && IsLatest(rows, k, sid, event)
  {
    var n := |rows| - 1;
    if exists k :: 0 <= k < n && Matches(rows[..n][k], sid, event) {
      LatestExists(rows[..n], sid, event);
      var k: nat :| k < n && IsLatest(rows[..n], k, sid, event);
      assert IsLatest(rows[..n], k, sid, event);
      assert rows[..n][k] == rows[k];
      forall other | 0 <= other < n && other != k && Matches(rows[other], sid, event) ensures Newer(rows[k], rows[other]) {
        assert rows[..n][other] == rows[other];
      }
      if Matches(rows[n], sid, event) && Newer(rows[n], rows[k]) {
        assert IsLatest(rows, n, sid, event);
      } else {
        assert IsLatest(rows, k, sid, event);
      }
    } else {
      forall k | 0 <= k < n ensures !Matches(rows[k], sid, event) {
        assert rows[..n][k] == rows[k];
      }
      assert IsLatest(rows, n, sid, event);
    }
  }

  // --- what the totals mean ---

  lemma {:induction false} SpendAddsUp(rows: seq<Row>, org: nat)
    ensures Spend(rows, org, false) + Spend(rows, org, true) == KnownTotal(rows, org)
  {
    if rows != [] { SpendAddsUp(rows[..|rows| - 1], org); }
  }

  /** The estimated total is finalized plus pending spend, and is the sum of all known costs. */
  lemma EstimateIsKnownTotal(rows: seq<Row>, org: Org)
    ensures var s := GetBudgetSummary(rows, org);
            s.estimatedTotal == s.finalized + s.pendingSpend == KnownTotal(rows, org.id)
  {
    SpendAddsUp(rows, org.id);
  }

  lemma {:induction false} TotalAfterReplacing(rows: seq<Row>, k: nat, row: Row, org: nat)
    requires k < |rows| && row.org == rows[k].org
    ensures KnownTotal(rows[k := row], org)
         == KnownTotal(rows, org) + if row.org == org then Known(row) - Known(rows[k]) else 0
  {
    var n := |rows| - 1;
    if k == n {
      assert rows[k := row][..n] == rows[..n];
    } else {
      TotalAfterReplacing(rows[..n], k, row, org);
      assert rows[k := row][..n] == rows[..n][k := row];
    }
  }

  // --- runs ---

  datatype Op =
    | Record(row: Row)
    | Reconcile(sid: string, event: string, status: Option<string>, cost: Option<int>,
                metadata: map<string, string>, now: int)

  /** Relates the ledger before and after one operation; the methods keep it. */
  ghost predicate Steps(before: seq<Row>, op: Op, after: seq<Row>) {
    match op
    case Record(row) => after == before + [row]
    case Reconcile(sid, event, status, cost, metadata, now) =>
      if forall k | 0 <= k < |before| :: !Matches(before[k], sid, event) then after == before
      else exists k: nat :: ReplacesLatest(before, op, after, k)
  }

  ghost predicate ReplacesLatest(before: seq<Row>, op: Op, after: seq<Row>, k: nat)
    requires op.Reconcile?
  {
    k < |before| && IsLatest(before, k, op.sid, op.event) &&
    after == before[k := Reconciled(before[k], op.status, op.cost, op.metadata, op.now)]
  }

  /** A sequence of ledgers, each from the one before by the operation between them. */
  ghost predicate Run(ledgers: seq<seq<Row>>, ops: seq<Op>) {
    |ledgers| == |ops| + 1 && forall i | 0 <= i < |ops| :: Steps(ledgers[i], ops[i], ledgers[i + 1])
  }

  /**
   Recording adds the row's known cost; reconciling adds exactly the new cost less
   what was known of that one row, and nothing else.
   */
  lemma TotalAfterStep(before: seq<Row>, op: Op, after: seq<Row>, org: nat) returns (k: nat)
    requires Steps(before, op, after)
    ensures op.Record? ==> KnownTotal(after, org) == KnownTotal(before, org) + if op.row.org == org then Known(op.row) else 0
    ensures op.Reconcile? && after != before ==>
              k < |before| && Matches(before[k], op.sid, op.event) &&
              KnownTotal(after, org) == KnownTotal(before, org) +
                if before[k].org == org then Coalesce(op.cost, Known(before[k])) - Known(before[k]) else 0
  {
    k := 0;
    if op.Record? {
      assert (before + [op.row])[..|before|] == before;
    } else if after != before {
      k :| ReplacesLatest(before, op, after, k);
      assert ReplacesLatest(before, op, after, k);
      TotalAfterReplacing(before, k, Reconciled(before[k], op.status, op.cost, op.metadata, op.now), org);
    }
  }

  lemma SettledSurvivesStep(before: seq<Row>, op: Op, after: seq<Row>, i: nat)
    requires Steps(before, op, after) && i < |before| && !before[i].pending
    ensures i < |after| && !after[i].pending && after[i].id == before[i].id
  {
    if op.Reconcile? && after != before {
      var k: nat :| ReplacesLatest(before, op, after, k);
      assert ReplacesLatest(before, op, after, k);
    }
  }

  /** A row that is settled is settled ever after. */
  lemma {:induction false} SettledStaysSettled(ledgers: seq<seq<Row>>, ops: seq<Op>, i: nat)
    requires Run(ledgers, ops) && i < |ledgers[0]| && !ledgers[0][i].pending
    ensures forall m | 0 <= m < |ledgers| ::
              i < |ledgers[m]| && !ledgers[m][i].pending && ledgers[m][i].id == ledgers[0][i].id
  {
    if ops != [] {
      var n := |ops| - 1;
      assert Run(ledgers[..n + 1], ops[..n]);
      SettledStaysSettled(ledgers[..n + 1], ops[..n], i);
      assert ledgers[..n + 1][n] == ledgers[n];
      SettledSurvivesStep(ledgers[n], ops[n], ledgers[n + 1], i);
      forall m | 0 <= m < |ledgers|
        ensures i < |ledgers[m]| && !ledgers[m][i].pending && ledgers[m][i].id == ledgers[0][i].id
      {
        if m <= n { assert ledgers[..n + 1][m] == ledgers[m]; }
      }
    }
  }

  // --- the gate ---

  /** The gate with nothing to add reports the state of the summary. */
  lemma GateAgreesWithSummary(rows: seq<Row>, org: Org, estimate: int)
    requires estimate <= 0
    ensures Gate(rows, org, estimate).state == GetBudgetSummary(rows, org).state
    ensures Gate(rows, org, estimate).summary == GetBudgetSummary(rows, org)
  {
  }

  /** The gate refuses exactly when a budget is set and known spend plus the estimate reaches it. */
  lemma GateRefusesExactly(rows: seq<Row>, org: Org, estimate: int)
    ensures Gate(rows, org, estimate).allowed <==>
              (org.softBudget.Some? ==>
                 KnownTotal(rows, org.id) + Additional(estimate) < org.softBudget.value)
  {
    SpendAddsUp(rows, org.id);
  }

  /** A larger estimate never turns a refusal into a permission. */
  lemma GateIsMonotone(rows: seq<Row>, org: Org, less: int, more: int)
    requires less <= more && Gate(rows, org, more).allowed
    ensures Gate(rows, org, less).allowed
  {
    GateRefusesExactly(rows, org, less);
    GateRefusesExactly(rows, org, more);
  }

  // --- costs that are not known yet ---

  /** What each row, by its id, will finally cost. */
  type Costs = nat -> int

  function Always(cost: int): Costs {
    _ => cost
  }

  function FinalCost(row: Row, final: Costs): int {
    Coalesce(row.cost, final(row.id))
  }

  /** What the organization's rows without a known cost will finally cost. */
  function Outstanding(rows: seq<Row>, org: nat, final: Costs): int {
    if rows == [] then 0
    else
      var last := rows[|rows| - 1];
      Outstanding(rows[..|rows| - 1], org, final) + if last.org == org && last.cost == None then final(last.id) else 0
  }

  /** Known and outstanding costs together. */
  function FinalTotal(rows: seq<Row>, org: nat, final: Costs): int {
    KnownTotal(rows, org) + Outstanding(rows, org, final)
  }

  lemma {:induction false} FinalAfterReplacing(rows: seq<Row>, k: nat, row: Row, org: nat, final: Costs)
    requires k < |rows| && row.org == rows[k].org
    ensures FinalTotal(rows[k := row], org, final)
         == FinalTotal(rows, org, final) + if row.org == org then FinalCost(row, final) - FinalCost(rows[k], final) else 0
  {
    var n := |rows| - 1;
    if k == n {
      assert rows[k := row][..n] == rows[..n];
    } else {
      FinalAfterReplacing(rows[..n], k, row, org, final);
      assert rows[k := row][..n] == rows[..n][k := row];
    }
  }

  lemma {:induction false} KnownIsPartOfFinal(rows: seq<Row>, org: nat, final: Costs)
    requires forall id :: final(id) >= 0
    ensures KnownTotal(rows, org) <= FinalTotal(rows, org, final)
  {
    if rows != [] { KnownIsPartOfFinal(rows[..|rows| - 1], org, final); }
  }

  /** What the gate did not count of all that is recorded now: outstanding costs and what came after it. */
  function Uncounted(gate: seq<Row>, now: seq<Row>, org: nat, final: Costs): int {
    FinalTotal(now, org, final) - KnownTotal(gate, org)
  }

  /**
   An event of the organization was gated, on this or an earlier ledger, at an estimate
   that covers its final cost and all that the gate did not count; reconciliation fills
   in a cost up to the final one, and never raises a known cost of the organization.
   */
  ghost predicate Prudent(gate: seq<Row>, before: seq<Row>, op: Op, after: seq<Row>, org: Org, estimate: int, final: Costs) {
    match op
    case Record(row) =>
      row.org != org.id ||
      (Gate(gate, org, estimate).allowed &&
       Uncounted(gate, before, org.id, final) + FinalCost(row, final) <= Additional(estimate))
    case Reconcile(_, _, _, _, _, _) =>
      forall k: nat | ReplacesLatest(before, op, after, k) && before[k].org == org.id ::
        Coalesce(op.cost, FinalCost(before[k], final)) <= FinalCost(before[k], final)
  }

  /** Gated when nothing is recorded in between, the estimate has to cover the event and what is outstanding. */
  lemma UncountedAtOnce(rows: seq<Row>, org: nat, final: Costs)
    ensures Uncounted(rows, rows, org, final) == Outstanding(rows, org, final)
  {
  }

  /**
   If every event of the organization is recorded prudently, with or without its
   cost and however long after its gate, and reconciled prudently, then known and
   outstanding costs together stay strictly below a soft budget they started below,
   and so does the spend shown when no cost is negative.
   */
  lemma {:induction false} SpendStaysBelowBudget(ledgers: seq<seq<Row>>, ops: seq<Op>, gates: seq<nat>, estimates: seq<int>,
                                                 org: Org, final: Costs)
    requires Run(ledgers, ops) && |gates| == |estimates| == |ops| && org.softBudget.Some?
    requires FinalTotal(ledgers[0], org.id, final) < org.softBudget.value
    requires forall i | 0 <= i < |ops| ::
               gates[i] <= i && Prudent(ledgers[gates[i]], ledgers[i], ops[i], ledgers[i + 1], org, estimates[i], final)
    ensures FinalTotal(ledgers[|ops|], org.id, final) < org.softBudget.value
    ensures (forall id :: final(id) >= 0) ==>
              GetBudgetSummary(ledgers[|ops|], org).estimatedTotal < org.softBudget.value
  {
    if ops != [] {
      var n := |ops| - 1;
      assert Run(ledgers[..n + 1], ops[..n]);
      SpendStaysBelowBudget(ledgers[..n + 1], ops[..n], gates[..n], estimates[..n], org, final);
      PrudentStepStaysBelow(ledgers[gates[n]], ledgers[n], ops[n], ledgers[n + 1], org, estimates[n], final);
    }
    EstimateIsKnownTotal(ledgers[|ops|], org);
    if forall id :: final(id) >= 0 { KnownIsPartOfFinal(ledgers[|ops|], org.id, final); }
  }

  lemma PrudentStepStaysBelow(gate: seq<Row>, before: seq<Row>, op: Op, after: seq<Row>, org: Org, estimate: int, final: Costs)
    requires Steps(before, op, after) && org.softBudget.Some?
    requires FinalTotal(before, org.id, final) < org.softBudget.value
    requires Prudent(gate, before, op, after, org, estimate, final)
    ensures FinalTotal(after, org.id, final) < org.softBudget.value
  {
    if op.Record? {
      assert after[..|after| - 1] == before;
      GateRefusesExactly(gate, org, estimate);
    } else if after != before {
      var k: nat :| ReplacesLatest(before, op, after, k);
      assert ReplacesLatest(before, op, after, k);
      FinalAfterReplacing(before, k, Reconciled(before[k], op.status, op.cost, op.metadata, op.now), org.id, final);
    }
  }

  // --- exactly what an estimate has to cover ---

  /**
   Whatever the ledgers at the gate and now, when the gate did not count this much an
   event of this cost that it admits leaves known and outstanding costs below the budget.
   */
  ghost predicate Bounds(org: Org, estimate: int, cost: int, open: int)
    requires org.softBudget.Some?
  {
    forall gate: seq<Row>, now: seq<Row>, final: Costs |
      Gate(gate, org, estimate).allowed && Uncounted(gate, now, org.id, final) == open ::
      FinalTotal(now, org.id, final) + cost < org.softBudget.value
  }

  predicate NoNegativeCosts(rows: seq<Row>, final: Costs) {
    forall r | r in rows :: FinalCost(r, final) >= 0
  }

  /** The same where nothing is recorded in between and no cost is negative. */
  ghost predicate BoundsAtOnce(org: Org, estimate: int, cost: int, open: int)
    requires org.softBudget.Some?
  {
    forall rows: seq<Row>, final: Costs |
      NoNegativeCosts(rows, final) && Gate(rows, org, estimate).allowed && Outstanding(rows, org.id, final) == open ::
      FinalTotal(rows, org.id, final) + cost < org.softBudget.value
  }

  function RowOfCost(org: nat, id: nat, cost: Option<int>): Row {
    Row(org, id, 0, "sms", None, None, cost, true, None, 0)
  }

  function KnownFor(row: Row, org: nat): int {
    if row.org == org then Known(row) else 0
  }

  function OpenFor(row: Row, org: nat, final: Costs): int {
    if row.org == org && row.cost == None then final(row.id) else 0
  }

  lemma TotalsOfOne(a: Row, org: nat, final: Costs)
    ensures KnownTotal([a], org) == KnownFor(a, org) && Outstanding([a], org, final) == OpenFor(a, org, final)
  {
    assert [a][..0] == [];
  }

  lemma TotalsOfTwo(a: Row, b: Row, org: nat, final: Costs)
    ensures KnownTotal([a, b], org) == KnownFor(a, org) + KnownFor(b, org)
    ensures Outstanding([a, b], org, final) == OpenFor(a, org, final) + OpenFor(b, org, final)
  {
    assert [a, b][..1] == [a];
    TotalsOfOne(a, org, final);
  }

  /**
   Exactly when the gate bounds spend: the estimate covers the event and all that the
   gate did not count. Where some event can be admitted at all, gating and recording at
   once on ledgers without negative costs already shows it.
   */
  lemma EstimateBoundsExactly(org: Org, estimate: int, cost: int, open: int)
    requires org.softBudget.Some?
    ensures Bounds(org, estimate, cost, open) <==> open + cost <= Additional(estimate)
    ensures Additional(estimate) < org.softBudget.value && open >= 0 ==>
              (BoundsAtOnce(org, estimate, cost, open) <==> open + cost <= Additional(estimate))
  {
    if open + cost <= Additional(estimate) {
      forall gate: seq<Row>, now: seq<Row>, final: Costs |
        Gate(gate, org, estimate).allowed && Uncounted(gate, now, org.id, final) == open
        ensures FinalTotal(now, org.id, final) + cost < org.softBudget.value
      {
        GateRefusesExactly(gate, org, estimate);
      }
      forall rows: seq<Row>, final: Costs | Gate(rows, org, estimate).allowed && Outstanding(rows, org.id, final) == open
        ensures FinalTotal(rows, org.id, final) + cost < org.softBudget.value
      {
        UncountedAtOnce(rows, org.id, final);
      }
    } else {
      var rows := AdmittedBeforeOverrun(org, estimate, cost, open);
      var final := Always(open);
      UncountedAtOnce(rows, org.id, final);
      assert Gate(rows, org, estimate).allowed && Uncounted(rows, rows, org.id, final) == open;
    }
  }

  /** A ledger on top of which the estimate just fits, with one cost known and one outstanding. */
  lemma AdmittedBeforeOverrun(org: Org, estimate: int, cost: int, open: int) returns (rows: seq<Row>)
    requires org.softBudget.Some? && Additional(estimate) < open + cost
    ensures Gate(rows, org, estimate).allowed && Outstanding(rows, org.id, Always(open)) == open
    ensures KnownTotal(rows, org.id) + open + cost >= org.softBudget.value
    ensures Additional(estimate) < org.softBudget.value && open >= 0 ==> NoNegativeCosts(rows, Always(open))
  {
    var known := org.softBudget.value - Additional(estimate) - 1;
    rows := [RowOfCost(org.id, 0, Some(known)), RowOfCost(org.id, 1, None)];
    TotalsOfTwo(rows[0], rows[1], org.id, Always(open));
    GateRefusesExactly(rows, org, estimate);
  }

  /**
   For every budget and every estimate, an event that costs more than the estimate
   can be admitted and then take spend over the limit. With no estimate at all, any
   cost does.
   */
  lemma CostAboveEstimateCanOverrun(org: Org, estimate: int, row: Row) returns (rows: seq<Row>)
    requires org.softBudget.Some? && row.org == org.id && Additional(estimate) < Known(row)
    ensures Gate(rows, org, estimate).allowed && !Gate(rows + [row], org, 0).allowed
    ensures GetBudgetSummary(rows + [row], org).state == OverLimit
  {
    rows := AdmittedBeforeOverrun(org, estimate, Known(row), 0);
    assert (rows + [row])[..|rows|] == rows;
    GateRefusesExactly(rows + [row], org, 0);
    GateAgreesWithSummary(rows + [row], org, 0);
  }

  // --- an estimate above the cost is not enough ---

  const ORG := Org(1, Some(100), 80)

  function Sent(id: nat, sid: string, cost: Option<int>): Row {
    Row(1, id, id, "sms", Some(sid), None, cost, cost == None, None, 0)
  }

  const A := Sent(1, "A", None)
  const B := Sent(2, "B", None)

  function Priced(sid: string): Op {
    Reconcile(sid, "sms", None, Some(50), map[], 0)
  }

  const PRICED_A := Sent(1, "A", Some(50))
  const PRICED_B := Sent(2, "B", Some(50))

  /** Two events are recorded before either cost is known, and then both costs arrive. */
  const OVERRUN: seq<seq<Row>> := [[], [A], [A, B], [PRICED_A, B], [PRICED_A, PRICED_B]]
  const OVERRUN_OPS := [Record(A), Record(B), Priced("A"), Priced("B")]

  lemma OverrunIsRun()
    ensures Run(OVERRUN, OVERRUN_OPS)
  {
    assert OVERRUN[1] == OVERRUN[0] + [A] && OVERRUN[2] == OVERRUN[1] + [B];
    assert Matches(OVERRUN[2][0], "A", "sms") && Matches(OVERRUN[3][1], "B", "sms");
    assert OVERRUN[2][0 := PRICED_A] == OVERRUN[3];
    assert OVERRUN[3][1 := PRICED_B] == OVERRUN[4];
    assert ReplacesLatest(OVERRUN[2], Priced("A"), OVERRUN[3], 0);
    assert ReplacesLatest(OVERRUN[3], Priced("B"), OVERRUN[4], 1);
    forall i | 0 <= i < |OVERRUN_OPS| ensures Steps(OVERRUN[i], OVERRUN_OPS[i], OVERRUN[i + 1]) {
      assert i == 0 || i == 1 || i == 2 || i == 3;
    }
  }

  /** The gate admits each of them at 60, while 50 are outstanding at the second. */
  lemma GatedAtSixty()
    ensures Gate([], ORG, 60).allowed && Gate([A], ORG, 60).allowed && Outstanding([A], 1, Always(50)) == 50
  {
    TotalsOfOne(A, 1, Always(50));
    GateRefusesExactly([], ORG, 60);
    GateRefusesExactly([A], ORG, 60);
  }

  lemma HundredSpent()
    ensures KnownTotal([PRICED_A, PRICED_B], 1) == 100 && !Gate([PRICED_A, PRICED_B], ORG, 0).allowed
  {
    TotalsOfTwo(PRICED_A, PRICED_B, 1, Always(0));
    GateRefusesExactly([PRICED_A, PRICED_B], ORG, 0);
  }

  /** An estimate of 60 covers an event of 50, but not with 50 outstanding. */
  lemma SixtyCoversOne()
    ensures Bounds(ORG, 60, 50, 0) && !Bounds(ORG, 60, 50, 50)
  {
    EstimateBoundsExactly(ORG, 60, 50, 0);
    EstimateBoundsExactly(ORG, 60, 50, 50);
  }

  /**
   Each event costs 50 and is gated at 60 on the ledger it is recorded in, within a
   budget of 100, and yet spend reaches the budget: the second gate does not count what
   the first event will cost.
   */
  lemma UnknownCostsOverrun()
    ensures Run(OVERRUN, OVERRUN_OPS) && OVERRUN[0] == [] && OVERRUN[1] == [A] && OVERRUN[4] == [PRICED_A, PRICED_B]
    ensures Gate([], ORG, 60).allowed && Gate([A], ORG, 60).allowed && Outstanding([A], 1, Always(50)) == 50
    ensures KnownTotal([PRICED_A, PRICED_B], 1) == 100 && !Gate([PRICED_A, PRICED_B], ORG, 0).allowed
  {
    OverrunIsRun();
    GatedAtSixty();
    HundredSpent();
  }

  /** So do two events of known cost when the second was gated before the first was recorded. */
  lemma OverlappingGatesOverrun()
    ensures Gate([], ORG, 60).allowed && Uncounted([], [PRICED_A], 1, Always(0)) == 50
    ensures KnownTotal([PRICED_A, PRICED_B], 1) == 100 && !Gate([PRICED_A, PRICED_B], ORG, 0).allowed
  {
    TotalsOfOne(PRICED_A, 1, Always(0));
    GatedAtSixty();
    HundredSpent();
  }
}
