/** The control plane's tables and the transactions on them, each one atomic step. Row ids are positions in a table;
    a generated id is fresh. Times are clock readings in milliseconds. */
module RelayStore {
  import opened Options

  const RECORD_LIFETIME_MS: int := 3_600_000

  // ----- Tables -----

  datatype Status = Provisioning | Active | Grace | Stopped

  datatype SessionRow = SessionRow(
    user: string, region: string, status: Status, relay: Option<nat>, pairToken: string, wsToken: string,
    startedAt: int, stoppedAt: Option<int>, duration: int, reconciled: int)
  {
    predicate Live() { status != Stopped }

    predicate Serving() { status == Active || status == Grace }
  }

  datatype RelayRow = RelayRow(session: nat, instance: nat, running: bool, terminatedAt: Option<int>)

  /** A session as responses and idempotency records show it. */
  datatype Payload = Payload(
    id: nat, user: string, region: string, status: Status, instance: Option<nat>, pairToken: string, wsToken: string,
    startedAt: int, stoppedAt: Option<int>, duration: int)

  datatype RecordKey = RecordKey(user: string, key: string)

  datatype Record = Record(hash: string, response: Payload, session: nat, expiresAt: int)

  datatype UsageRow = UsageRow(
    user: string, cycleStart: int, cycleEnd: int, measured: int, reconciled: int, billable: int)

  datatype HealthEvent = HealthEvent(session: nat, observedAt: int, uptime: nat)

  datatype Tables = Tables(
    sessions: seq<SessionRow>, relays: seq<RelayRow>, records: map<RecordKey, Record>,
    usage: map<nat, UsageRow>, health: seq<HealthEvent>)

  const EMPTY := Tables([], [], map[], map[], [])

  function InstanceOf(t: Tables, row: SessionRow): Option<nat> {
    if row.relay.Some? && row.relay.value < |t.relays| then Some(t.relays[row.relay.value].instance) else None
  }

  function Show(t: Tables, id: nat): Payload
    requires id < |t.sessions|
  {
    var r := t.sessions[id];
    Payload(id, r.user, r.region, r.status, InstanceOf(t, r), r.pairToken, r.wsToken, r.startedAt, r.stoppedAt, r.duration)
  }

  /** The latest live session of a user. */
  function LiveOf(sessions: seq<SessionRow>, user: string): Option<nat> {
    if sessions == [] then None
    else
      var n := |sessions| - 1;
      if sessions[n].user == user && sessions[n].Live() then Some(n) else LiveOf(sessions[..n], user)
  }

  lemma {:induction false} LiveOfFinds(sessions: seq<SessionRow>, user: string)
    ensures LiveOf(sessions, user).Some? ==>
      var id := LiveOf(sessions, user).value;
      && id < |sessions| && sessions[id].user == user && sessions[id].Live()
      && forall i | id < i < |sessions| && sessions[i].user == user :: !sessions[i].Live()
    ensures LiveOf(sessions, user).None? ==>
      forall i | 0 <= i < |sessions| :: sessions[i].user == user ==> !sessions[i].Live()
  {
    if sessions != [] {
      LiveOfFinds(sessions[..|sessions| - 1], user);
    }
  }

  // ----- Transactions on sessions and relays -----

  datatype StartInput = StartInput(user: string, region: string, key: string, hash: string)

  datatype StartResult = Mismatch | Found(session: Payload) | Created(session: Payload)

  /** An existing record keeps its hash and expiry; only the response and the session are replaced. */
  function Persist(records: map<RecordKey, Record>, input: StartInput, p: Payload, now: int): map<RecordKey, Record> {
    var k := RecordKey(input.user, input.key);
    if k in records then records[k := records[k].(response := p, session := p.id)]
    else records[k := Record(input.hash, p, p.id, now + RECORD_LIFETIME_MS)]
  }

  predicate FreshRecord(t: Tables, k: RecordKey, now: int) { k in t.records && t.records[k].expiresAt > now }

  function NewSession(input: StartInput, now: int): SessionRow {
    SessionRow(input.user, input.region, Provisioning, None, "", "", now, None, 0, 0)
  }

  function StartOrGet(t: Tables, input: StartInput, now: int): (Tables, StartResult) {
    var k := RecordKey(input.user, input.key);
    if FreshRecord(t, k, now) then
      (t, if t.records[k].hash != input.hash then Mismatch else Found(t.records[k].response))
    else
      var live := LiveOf(t.sessions, input.user);
      if live.Some? then
        LiveOfFinds(t.sessions, input.user);
        var p := Show(t, live.value);
        (t.(records := Persist(t.records, input, p, now)), Found(p))
      else
        var t' := t.(sessions := t.sessions + [NewSession(input, now)]);
        var p := Show(t', |t.sessions|);
        (t'.(records := Persist(t.records, input, p, now)), Created(p))
  }

  datatype Launched = Launched(instance: nat, pairToken: string, wsToken: string)

  predicate Owns(t: Tables, user: string, id: nat) { id < |t.sessions| && t.sessions[id].user == user }

  /** The relay table takes one row per session and per instance. */
  predicate RelayFits(t: Tables, id: nat, instance: nat) {
    forall i | 0 <= i < |t.relays| :: t.relays[i].session != id && t.relays[i].instance != instance
  }

  predicate CanActivate(t: Tables, user: string, id: nat, instance: nat) {
    Owns(t, user, id) && t.sessions[id].status == Provisioning && RelayFits(t, id, instance)
  }

  function Activate(t: Tables, user: string, id: nat, l: Launched): Tables {
    if !CanActivate(t, user, id, l.instance) then t
    else
      var row := t.sessions[id].(status := Active, relay := Some(|t.relays|), pairToken := l.pairToken, wsToken := l.wsToken);
      t.(sessions := t.sessions[id := row], relays := t.relays + [RelayRow(id, l.instance, true, None)])
  }

  function Terminate(relays: seq<RelayRow>, relay: Option<nat>, now: int): seq<RelayRow> {
    if relay.Some? && relay.value < |relays| then
      var r := relays[relay.value];
      relays[relay.value := r.(running := false, terminatedAt := if r.terminatedAt.Some? then r.terminatedAt else Some(now))]
    else relays
  }

  function Stop(t: Tables, user: string, id: nat, now: int): Tables {
    if !Owns(t, user, id) || t.sessions[id].status == Stopped then t
    else
      var row := t.sessions[id];
      t.(sessions := t.sessions[id := row.(status := Stopped, stoppedAt := Some(now))],
         relays := Terminate(t.relays, row.relay, now))
  }

  // ----- Transactions of the background jobs -----

  function Cleanup(t: Tables, now: int): Tables {
    t.(records := map k | k in t.records && t.records[k].expiresAt > now :: t.records[k])
  }

  function Max(a: int, b: int): int { if a >= b then a else b }

  predicate Counting(r: SessionRow, now: int) { r.Serving() && r.startedAt <= now }

  /** Whole seconds since the start, for sessions that serve and have started. */
  function RolledUp(r: SessionRow, now: int): SessionRow {
    if Counting(r, now) then r.(duration := Max(r.duration, (now - r.startedAt) / 1000)) else r
  }

  function Rollup(t: Tables, now: int): Tables {
    t.(sessions := seq(|t.sessions|, i requires 0 <= i < |t.sessions| => RolledUp(t.sessions[i], now)))
  }

  /** A session's latest health event: the greatest observation time, the later row among equals. */
  function LatestHealth(health: seq<HealthEvent>, id: nat): Option<HealthEvent> {
    if health == [] then None
    else
      var before, e := LatestHealth(health[..|health| - 1], id), health[|health| - 1];
      if e.session == id && (before.None? || e.observedAt >= before.value.observedAt) then Some(e) else before
  }

  /** The report is there, none of the session's reports is later, and of those as late it is the last row. */
  ghost predicate IsLatest(health: seq<HealthEvent>, id: nat, j: nat) {
    && j < |health| && health[j].session == id
    && (forall i | 0 <= i < |health| && health[i].session == id :: health[i].observedAt <= health[j].observedAt)
    && (forall i | j < i < |health| && health[i].session == id :: health[i].observedAt < health[j].observedAt)
  }

  lemma {:induction false} LatestHealthIsLatest(health: seq<HealthEvent>, id: nat) returns (j: nat)
    ensures LatestHealth(health, id).None? <==> forall i | 0 <= i < |health| :: health[i].session != id
    ensures LatestHealth(health, id).Some? ==> IsLatest(health, id, j) && LatestHealth(health, id) == Some(health[j])
  {
    j := 0;
    if health != [] {
      var n := |health| - 1;
      var e, before := health[n], LatestHealth(health[..n], id);
      j := LatestHealthIsLatest(health[..n], id);
      if e.session == id && (before.None? || e.observedAt >= before.value.observedAt) {
        j := n;
      }
    }
  }

  /** A run of the rollup job that was missed is made up by the next one. */
  lemma RollupCatchesUp(t: Tables, now: int, later: int)
    requires now <= later
    ensures Rollup(Rollup(t, now), later) == Rollup(t, later)
  {
    forall i | 0 <= i < |t.sessions|
      ensures RolledUp(RolledUp(t.sessions[i], now), later) == RolledUp(t.sessions[i], later)
    {
      SecondsGrow(now - t.sessions[i].startedAt, later - t.sessions[i].startedAt);
    }
  }

  lemma SecondsGrow(a: int, b: int)
    requires a <= b
    ensures a / 1000 <= b / 1000
  {
  }

  /** Reconciling again without a new report changes nothing. */
  lemma ReconcileSettles(t: Tables)
    ensures Reconcile(Reconcile(t)) == Reconcile(t)
  {
    assert Reconcile(Reconcile(t)).sessions == Reconcile(t).sessions;
  }

  function ReconciledRow(r: SessionRow, latest: Option<HealthEvent>): SessionRow {
    if latest.None? || r.status == Provisioning then r
    else r.(reconciled := Max(r.reconciled, latest.value.uptime), duration := Max(r.duration, latest.value.uptime))
  }

  function Reconcile(t: Tables): Tables {
    t.(sessions := seq(|t.sessions|, i requires 0 <= i < |t.sessions| => ReconciledRow(t.sessions[i], LatestHealth(t.health, i))))
  }

  /** Health reports are taken for sessions bound to a relay only. */
  function RecordHealth(t: Tables, e: HealthEvent): Tables {
    if e.session < |t.sessions| && t.sessions[e.session].relay.Some? then t.(health := t.health + [e]) else t
  }

  datatype Plan = Plan(cycleStart: int, cycleEnd: int, included: nat)

  predicate Charged(r: SessionRow, users: map<string, Plan>) {
    && r.status != Provisioning
    && r.user in users && users[r.user].cycleStart <= r.startedAt <= users[r.user].cycleEnd
  }

  /** A row that exists keeps its user and cycle. */
  function Upserted(usage: map<nat, UsageRow>, id: nat, r: SessionRow, users: map<string, Plan>): UsageRow
    requires r.user in users
  {
    var billable := Max(r.duration, r.reconciled);
    if id in usage then usage[id].(measured := r.duration, reconciled := r.reconciled, billable := billable)
    else UsageRow(r.user, users[r.user].cycleStart, users[r.user].cycleEnd, r.duration, r.reconciled, billable)
  }

  function UpsertFirst(t: Tables, users: map<string, Plan>, n: nat): map<nat, UsageRow>
    requires n <= |t.sessions|
  {
    if n == 0 then t.usage
    else
      var usage, r := UpsertFirst(t, users, n - 1), t.sessions[n - 1];
      if Charged(r, users) then usage[n - 1 := Upserted(usage, n - 1, r, users)] else usage
  }

  function UpsertUsage(t: Tables, users: map<string, Plan>): Tables {
    t.(usage := UpsertFirst(t, users, |t.sessions|))
  }

  // ----- Every transaction as one step -----

  datatype Tx =
    | StartTx(input: StartInput, now: int)
    | ActivateTx(user: string, id: nat, launched: Launched)
    | StopTx(user: string, id: nat, now: int)
    | CleanupTx(now: int)
    | RollupTx(now: int)
    | HealthTx(event: HealthEvent)
    | ReconcileTx
    | UpsertTx(users: map<string, Plan>)

  function Commit(t: Tables, tx: Tx): Tables {
    match tx
    case StartTx(input, now) => StartOrGet(t, input, now).0
    case ActivateTx(user, id, l) => Activate(t, user, id, l)
    case StopTx(user, id, now) => Stop(t, user, id, now)
    case CleanupTx(now) => Cleanup(t, now)
    case RollupTx(now) => Rollup(t, now)
    case HealthTx(e) => RecordHealth(t, e)
    case ReconcileTx => Reconcile(t)
    case UpsertTx(users) => UpsertUsage(t, users)
  }

  // ----- The invariant of the tables -----

  /** A session that is not live has a stop time, one that serves or once served has a relay bound to it. */
  ghost predicate RowOk(t: Tables, i: nat)
    requires i < |t.sessions|
  {
    var r := t.sessions[i];
    && (r.status == Stopped <==> r.stoppedAt.Some?)
    && (r.status == Provisioning ==> r.relay.None?)
    && (r.Serving() ==> r.relay.Some?)
    && (r.relay.Some? ==> r.relay.value < |t.relays| && t.relays[r.relay.value].session == i)
    && 0 <= r.reconciled <= r.duration
  }

  /** A relay row is bound by its session, and running exactly while that session is live. */
  ghost predicate RelayOk(t: Tables, j: nat)
    requires j < |t.relays|
  {
    var r := t.relays[j];
    && r.session < |t.sessions| && t.sessions[r.session].relay == Some(j)
    && (r.running <==> t.sessions[r.session].Live())
    && (r.running <==> r.terminatedAt.None?)
  }

  ghost predicate OneLivePerUser(sessions: seq<SessionRow>) {
    forall i, j | 0 <= i < j < |sessions| && sessions[i].user == sessions[j].user ::
      !sessions[i].Live() || !sessions[j].Live()
  }

  ghost predicate InstancesDiffer(relays: seq<RelayRow>) {
    forall i, j | 0 <= i < j < |relays| :: relays[i].instance != relays[j].instance
  }

  ghost predicate Sound(t: Tables) {
    && (forall i | 0 <= i < |t.sessions| :: RowOk(t, i))
    && (forall j | 0 <= j < |t.relays| :: RelayOk(t, j))
    && OneLivePerUser(t.sessions)
    && InstancesDiffer(t.relays)
  }

  lemma StartKeepsSound(t: Tables, input: StartInput, now: int)
    requires Sound(t)
    ensures Sound(StartOrGet(t, input, now).0)
  {
    var t' := StartOrGet(t, input, now).0;
    LiveOfFinds(t.sessions, input.user);
    assert t'.relays == t.relays;
    assert t'.sessions == t.sessions || t'.sessions == t.sessions + [NewSession(input, now)];
    forall i | 0 <= i < |t'.sessions| ensures RowOk(t', i) {
      if i < |t.sessions| { assert RowOk(t, i); }
    }
    forall j | 0 <= j < |t'.relays| ensures RelayOk(t', j) { assert RelayOk(t, j); }
  }

  lemma ActivateKeepsSound(t: Tables, user: string, id: nat, l: Launched)
    requires Sound(t)
    ensures Sound(Activate(t, user, id, l))
  {
    var t' := Activate(t, user, id, l);
    if CanActivate(t, user, id, l.instance) {
      forall i | 0 <= i < |t'.sessions| ensures RowOk(t', i) { assert RowOk(t, i); }
      forall j | 0 <= j < |t'.relays| ensures RelayOk(t', j) {
        if j < |t.relays| { assert RelayOk(t, j); }
      }
    }
  }

  lemma StopKeepsSound(t: Tables, user: string, id: nat, now: int)
    requires Sound(t)
    ensures Sound(Stop(t, user, id, now))
  {
    var t' := Stop(t, user, id, now);
    if Owns(t, user, id) && t.sessions[id].status != Stopped {
      assert RowOk(t, id);
      forall i | 0 <= i < |t'.sessions| ensures RowOk(t', i) { assert RowOk(t, i); }
      forall j | 0 <= j < |t'.relays| ensures RelayOk(t', j) { assert RelayOk(t, j); }
    }
  }

  /** Jobs change durations only. */
  lemma DurationsKeepSound(t: Tables, t': Tables)
    requires Sound(t) && t'.relays == t.relays && |t'.sessions| == |t.sessions|
    requires forall i | 0 <= i < |t.sessions| ::
      t'.sessions[i] == t.sessions[i].(duration := t'.sessions[i].duration, reconciled := t'.sessions[i].reconciled)
      && 0 <= t'.sessions[i].reconciled <= t'.sessions[i].duration
    ensures Sound(t')
  {
    forall i | 0 <= i < |t'.sessions| ensures RowOk(t', i) { assert RowOk(t, i); }
    forall j | 0 <= j < |t'.relays| ensures RelayOk(t', j) { assert RelayOk(t, j); }
  }

  lemma CommitKeepsSound(t: Tables, tx: Tx)
    requires Sound(t)
    ensures Sound(Commit(t, tx))
  {
    match tx
    case StartTx(input, now) => StartKeepsSound(t, input, now);
    case ActivateTx(user, id, l) => ActivateKeepsSound(t, user, id, l);
    case StopTx(user, id, now) => StopKeepsSound(t, user, id, now);
    case _ =>
      forall i | 0 <= i < |t.sessions|
        ensures 0 <= t.sessions[i].reconciled <= t.sessions[i].duration
      {
        assert RowOk(t, i);
      }
      DurationsKeepSound(t, Commit(t, tx));
  }

  // ----- What no transaction ever takes back -----

  function Rank(s: Status): nat {
    match s case Provisioning => 0 case Active => 1 case Grace => 1 case Stopped => 2
  }

  /** Owner, region and start never change; a status never goes back; a relay is bound once, and the tokens with it; a
      stop time is written once; seconds never decrease. */
  predicate RowGrows(r: SessionRow, r': SessionRow) {
    && r'.user == r.user && r'.region == r.region && r'.startedAt == r.startedAt
    && Rank(r.status) <= Rank(r'.status)
    && (r.relay.Some? ==> r'.relay == r.relay && r'.pairToken == r.pairToken && r'.wsToken == r.wsToken)
    && (r.status == Stopped ==> r'.stoppedAt == r.stoppedAt && r'.relay == r.relay)
    && r.duration <= r'.duration && r.reconciled <= r'.reconciled
  }

  predicate RelayGrows(r: RelayRow, r': RelayRow) {
    && r'.session == r.session && r'.instance == r.instance
    && (!r.running ==> !r'.running)
    && (r.terminatedAt.Some? ==> r'.terminatedAt == r.terminatedAt)
  }

  ghost predicate Grows(t: Tables, t': Tables) {
    && |t.sessions| <= |t'.sessions| && |t.relays| <= |t'.relays|
    && (forall i | 0 <= i < |t.sessions| :: RowGrows(t.sessions[i], t'.sessions[i]))
    && (forall j | 0 <= j < |t.relays| :: RelayGrows(t.relays[j], t'.relays[j]))
  }

  lemma SecondsGrowOnly(t: Tables, t': Tables)
    requires t'.relays == t.relays && |t'.sessions| == |t.sessions|
    requires forall i | 0 <= i < |t.sessions| ::
      && t'.sessions[i] == t.sessions[i].(duration := t'.sessions[i].duration, reconciled := t'.sessions[i].reconciled)
      && t'.sessions[i].duration >= t.sessions[i].duration && t'.sessions[i].reconciled >= t.sessions[i].reconciled
    ensures Grows(t, t')
  {
  }

  lemma ActivateGrows(t: Tables, user: string, id: nat, l: Launched)
    requires Sound(t)
    ensures Grows(t, Activate(t, user, id, l))
  {
    if id < |t.sessions| { assert RowOk(t, id); }
  }

  lemma StopGrows(t: Tables, user: string, id: nat, now: int)
    ensures Grows(t, Stop(t, user, id, now))
  {
  }

  lemma CommitGrows(t: Tables, tx: Tx)
    requires Sound(t)
    ensures Grows(t, Commit(t, tx))
  {
    match tx
    case StartTx(_, _) =>
    case ActivateTx(user, id, l) => ActivateGrows(t, user, id, l);
    case StopTx(user, id, now) => StopGrows(t, user, id, now);
    case _ => SecondsGrowOnly(t, Commit(t, tx));
  }

  lemma GrowsTransitive(a: Tables, b: Tables, c: Tables)
    requires Grows(a, b) && Grows(b, c)
    ensures Grows(a, c)
  {
    forall i | 0 <= i < |a.sessions| ensures RowGrows(a.sessions[i], c.sessions[i]) {
      assert RowGrows(a.sessions[i], b.sessions[i]) && RowGrows(b.sessions[i], c.sessions[i]);
    }
    forall j | 0 <= j < |a.relays| ensures RelayGrows(a.relays[j], c.relays[j]) {
      assert RelayGrows(a.relays[j], b.relays[j]) && RelayGrows(b.relays[j], c.relays[j]);
    }
  }

  function CommitAll(t: Tables, txs: seq<Tx>): Tables {
    if txs == [] then t else Commit(CommitAll(t, txs[..|txs| - 1]), txs[|txs| - 1])
  }

  /** Over every sequence of transactions the tables stay sound, and nothing is ever taken back. */
  lemma {:induction false} RunsKeepTables(t: Tables, txs: seq<Tx>, n: nat)
    requires Sound(t) && n <= |txs|
    ensures Sound(CommitAll(t, txs[..n])) && Sound(CommitAll(t, txs))
    ensures Grows(CommitAll(t, txs[..n]), CommitAll(t, txs))
    decreases |txs|
  {
    if n < |txs| {
      var front := txs[..|txs| - 1];
      assert front[..n] == txs[..n];
      RunsKeepTables(t, front, n);
      CommitKeepsSound(CommitAll(t, front), txs[|txs| - 1]);
      CommitGrows(CommitAll(t, front), txs[|txs| - 1]);
      GrowsTransitive(CommitAll(t, txs[..n]), CommitAll(t, front), CommitAll(t, txs));
    } else {
      assert txs[..n] == txs;
      if n > 0 {
        RunsKeepTables(t, txs[..n - 1], n - 1);
        assert txs[..n - 1][..n - 1] == txs[..n - 1];
        CommitKeepsSound(CommitAll(t, txs[..n - 1]), txs[n - 1]);
      }
    }
  }

  /** A session is activated at most once. */
  lemma ActivatedOnce(t: Tables, txs: seq<Tx>, m: nat, n: nat)
    requires Sound(t) && m < n < |txs| && txs[m].ActivateTx? && txs[n].ActivateTx? && txs[m].id == txs[n].id
    requires CanActivate(CommitAll(t, txs[..m]), txs[m].user, txs[m].id, txs[m].launched.instance)
    ensures !CanActivate(CommitAll(t, txs[..n]), txs[n].user, txs[n].id, txs[n].launched.instance)
  {
    var a, b := txs[..m + 1], txs[..n];
    assert a[..m] == txs[..m] && b[..m + 1] == a;
    RunsKeepTables(t, b, m + 1);
    var id := txs[m].id;
    assert RowGrows(CommitAll(t, a).sessions[id], CommitAll(t, b).sessions[id]);
  }

  /** What a successful activation leaves in the session's row stays there, over every sequence of transactions behind
      it. */
  lemma ActivatedStays(t: Tables, txs: seq<Tx>, m: nat)
    requires Sound(t) && m < |txs| && txs[m].ActivateTx?
    requires CanActivate(CommitAll(t, txs[..m]), txs[m].user, txs[m].id, txs[m].launched.instance)
    ensures
      var rows, l := CommitAll(t, txs).sessions, txs[m].launched;
      && txs[m].id < |rows| && rows[txs[m].id].user == txs[m].user && rows[txs[m].id].status != Provisioning
      && rows[txs[m].id].pairToken == l.pairToken && rows[txs[m].id].wsToken == l.wsToken
      && InstanceOf(CommitAll(t, txs), rows[txs[m].id]) == Some(l.instance)
  {
    var a, id := txs[..m + 1], txs[m].id;
    assert a[..m] == txs[..m];
    RunsKeepTables(t, txs, m + 1);
    assert RowGrows(CommitAll(t, a).sessions[id], CommitAll(t, txs).sessions[id]);
  }
}
