/** Usage accounting: what the rollup jobs charge a user for. */
module RelayUsage {
  import opened Options
  import opened RelayStore

  /** Each usage row belongs to a charged session and its user's cycle, bills what was measured, and never runs ahead of
      the session. */
  ghost predicate UsageOk(t: Tables, users: map<string, Plan>) {
    forall id | id in t.usage ::
      && id < |t.sessions| && Charged(t.sessions[id], users)
      && var u, r := t.usage[id], t.sessions[id];
      && u.user == r.user && u.cycleStart == users[r.user].cycleStart && u.cycleEnd == users[r.user].cycleEnd
      && 0 <= u.reconciled <= u.measured == u.billable <= r.duration && u.reconciled <= r.reconciled
  }

  /** The rows of the first `n` sessions are up to date. */
  ghost predicate UpToDate(t: Tables, usage: map<nat, UsageRow>, users: map<string, Plan>, n: nat)
    requires n <= |t.sessions|
  {
    forall id | 0 <= id < n && Charged(t.sessions[id], users) ::
      && id in usage && usage[id].billable == usage[id].measured == t.sessions[id].duration
      && usage[id].reconciled == t.sessions[id].reconciled
  }

  lemma {:induction false} UpsertKeepsUsage(t: Tables, users: map<string, Plan>, n: nat)
    requires Sound(t) && UsageOk(t, users) && n <= |t.sessions|
    ensures UsageOk(t.(usage := UpsertFirst(t, users, n)), users)
  {
    if n > 0 {
      UpsertKeepsUsage(t, users, n - 1);
      assert RowOk(t, n - 1);
    }
  }

  lemma {:induction false} UpsertRefreshes(t: Tables, users: map<string, Plan>, n: nat)
    requires Sound(t) && n <= |t.sessions|
    ensures UpToDate(t, UpsertFirst(t, users, n), users, n)
  {
    if n > 0 {
      UpsertRefreshes(t, users, n - 1);
      assert RowOk(t, n - 1);
    }
  }

  lemma GrowthKeepsUsage(t: Tables, t': Tables, users: map<string, Plan>)
    requires UsageOk(t, users) && Grows(t, t') && t'.usage == t.usage
    ensures UsageOk(t', users)
  {
    forall id | id in t.usage
      ensures id < |t'.sessions| && Charged(t'.sessions[id], users) && t'.sessions[id].user == t.sessions[id].user
      ensures t'.sessions[id].duration >= t.sessions[id].duration && t'.sessions[id].reconciled >= t.sessions[id].reconciled
    {
      assert RowGrows(t.sessions[id], t'.sessions[id]);
    }
  }

  lemma CommitKeepsUsage(t: Tables, tx: Tx, users: map<string, Plan>)
    requires Sound(t) && UsageOk(t, users) && (tx.UpsertTx? ==> tx.users == users)
    ensures UsageOk(Commit(t, tx), users)
  {
    if tx.UpsertTx? {
      UpsertKeepsUsage(t, users, |t.sessions|);
    } else {
      CommitGrows(t, tx);
      GrowthKeepsUsage(t, Commit(t, tx), users);
    }
  }

  /** Over every sequence of transactions usage rows stay as described. */
  lemma {:induction false} UsageStaysOk(txs: seq<Tx>, users: map<string, Plan>)
    requires forall tx | tx in txs && tx.UpsertTx? :: tx.users == users
    ensures UsageOk(CommitAll(EMPTY, txs), users) && Sound(CommitAll(EMPTY, txs))
  {
    RunsKeepTables(EMPTY, txs, 0);
    if txs != [] {
      var front := txs[..|txs| - 1];
      UsageStaysOk(front, users);
      CommitKeepsUsage(CommitAll(EMPTY, front), txs[|txs| - 1], users);
    }
  }

  // ----- What a user consumed -----

  predicate CountsFor(u: UsageRow, user: string, plan: Plan) {
    u.user == user && u.cycleStart == plan.cycleStart && u.cycleEnd == plan.cycleEnd
  }

  /** The sum over the user's usage rows of the current cycle, of the first `n` sessions. */
  function Billed(usage: map<nat, UsageRow>, user: string, plan: Plan, n: nat): int {
    if n == 0 then 0
    else Billed(usage, user, plan, n - 1) + (if n - 1 in usage && CountsFor(usage[n - 1], user, plan) then usage[n - 1].billable else 0)
  }

  /** The seconds of the user's sessions that started in the current cycle and are past provisioning. */
  function Measured(sessions: seq<SessionRow>, user: string, plan: Plan): int {
    if sessions == [] then 0
    else
      var r := sessions[|sessions| - 1];
      Measured(sessions[..|sessions| - 1], user, plan) +
      (if r.user == user && r.status != Provisioning && plan.cycleStart <= r.startedAt <= plan.cycleEnd then r.duration else 0)
  }

  lemma {:induction false} BilledIsMeasured(t: Tables, users: map<string, Plan>, user: string, n: nat)
    requires UsageOk(t, users) && n <= |t.sessions| && UpToDate(t, t.usage, users, n) && user in users
    ensures Billed(t.usage, user, users[user], n) == Measured(t.sessions[..n], user, users[user])
  {
    if n > 0 {
      BilledIsMeasured(t, users, user, n - 1);
      assert t.sessions[..n][..n - 1] == t.sessions[..n - 1];
      if n - 1 in t.usage { assert Charged(t.sessions[n - 1], users); }
    }
  }

  /** Right after an upsert, whatever went before, the user is billed for exactly those seconds. */
  lemma UpsertBillsWhatWasMeasured(txs: seq<Tx>, users: map<string, Plan>, user: string)
    requires user in users && forall tx | tx in txs && tx.UpsertTx? :: tx.users == users
    ensures var t := UpsertUsage(CommitAll(EMPTY, txs), users);
      Billed(t.usage, user, users[user], |t.sessions|) == Measured(t.sessions, user, users[user])
  {
    UsageStaysOk(txs, users);
    var before := CommitAll(EMPTY, txs);
    UpsertKeepsUsage(before, users, |before.sessions|);
    UpsertRefreshes(before, users, |before.sessions|);
    var t := UpsertUsage(before, users);
    BilledIsMeasured(t, users, user, |t.sessions|);
    assert t.sessions[..|t.sessions|] == t.sessions;
  }

  /** Between upserts the bill may lag behind, but never runs ahead. */
  lemma {:induction false} BillNeverRunsAhead(t: Tables, users: map<string, Plan>, user: string, n: nat)
    requires Sound(t) && UsageOk(t, users) && n <= |t.sessions| && user in users
    ensures 0 <= Billed(t.usage, user, users[user], n) <= Measured(t.sessions[..n], user, users[user])
  {
    if n > 0 {
      BillNeverRunsAhead(t, users, user, n - 1);
      assert t.sessions[..n][..n - 1] == t.sessions[..n - 1];
      assert RowOk(t, n - 1);
      if n - 1 in t.usage { assert Charged(t.sessions[n - 1], users); }
    }
  }

  datatype UsageCurrent = UsageCurrent(included: int, consumed: int, remaining: int, overage: int)

  /** The summary the control plane reports: the sum is taken row by row. */
  method GetUsageCurrent(t: Tables, users: map<string, Plan>, user: string) returns (usage: Option<UsageCurrent>)
    ensures usage.Some? <==> user in users
    ensures usage.Some? ==>
      var u := usage.value;
      && u.included == users[user].included
      && u.consumed == Billed(t.usage, user, users[user], |t.sessions|)
      && u.remaining - u.overage == u.included - u.consumed
      && u.remaining >= 0 && u.overage >= 0 && (u.remaining == 0 || u.overage == 0)
  {
    if user !in users {
      return None;
    }
    var plan, consumed := users[user], 0;
    for id := 0 to |t.sessions|
      invariant consumed == Billed(t.usage, user, plan, id)
    {
      if id in t.usage && CountsFor(t.usage[id], user, plan) {
        consumed := consumed + t.usage[id].billable;
      }
    }
    return Some(UsageCurrent(plan.included, consumed, Max(plan.included - consumed, 0), Max(consumed - plan.included, 0)));
  }
}
