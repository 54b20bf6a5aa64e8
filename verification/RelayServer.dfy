/** The store and the request handlers as objects that change their state in place. Each handler takes exactly the
    steps of its process, whatever other handlers do between its calls. */
module RelayServer {
  import opened Options
  import opened RelayStore
  import opened RelaySaga
  import opened RelayLeaks

  lemma {:induction false} UpsertedRows(t: Tables, users: map<string, Plan>, n: nat)
    requires n <= |t.sessions|
    ensures var usage := UpsertFirst(t, users, n);
      && (forall id | id in usage && (id >= n || !Charged(t.sessions[id], users)) ::
            id in t.usage && usage[id] == t.usage[id])
      && (forall id | id in t.usage ::
            && id in usage && usage[id].user == t.usage[id].user
            && usage[id].cycleStart == t.usage[id].cycleStart && usage[id].cycleEnd == t.usage[id].cycleEnd)
      && (forall id | 0 <= id < n && Charged(t.sessions[id], users) ::
            && id in usage && usage[id].measured == t.sessions[id].duration
            && usage[id].reconciled == t.sessions[id].reconciled
            && usage[id].billable == Max(usage[id].measured, usage[id].reconciled))
      && (forall id | 0 <= id < n && Charged(t.sessions[id], users) && id !in t.usage ::
            var r, plan := t.sessions[id], users[t.sessions[id].user];
            usage[id].user == r.user && usage[id].cycleStart == plan.cycleStart && usage[id].cycleEnd == plan.cycleEnd)
  {
    if n > 0 {
      UpsertedRows(t, users, n - 1);
    }
  }

  class Store {
    var sessions: seq<SessionRow>
    var relays: seq<RelayRow>
    var records: map<RecordKey, Record>
    var usage: map<nat, UsageRow>
    var health: seq<HealthEvent>

    ghost function View(): Tables reads this { Tables(sessions, relays, records, usage, health) }

    constructor ()
      ensures View() == EMPTY
    {
      sessions, relays, records, usage, health := [], [], map[], map[], [];
    }

    method PersistIdempotencyRecord(input: StartInput, session: Payload, now: int)
      modifies this`records
      ensures var k := RecordKey(input.user, input.key);
        && records.Keys == old(records.Keys) + {k} && records - {k} == old(records) - {k}
        && records[k].response == session && records[k].session == session.id
        && (if k in old(records)
            then records[k].hash == old(records)[k].hash && records[k].expiresAt == old(records)[k].expiresAt
            else records[k].hash == input.hash && records[k].expiresAt == now + 3_600_000)
      ensures records == Persist(old(records), input, session, now)
    {
      var k := RecordKey(input.user, input.key);
      if k in records {
        records := records[k := records[k].(response := session, session := session.id)];
      } else {
        records := records[k := Record(input.hash, session, session.id, now + RECORD_LIFETIME_MS)];
      }
    }

    method GetSession(id: nat) returns (p: Payload)
      requires id < |sessions|
      ensures var r := sessions[id];
        && p.id == id && p.user == r.user && p.region == r.region && p.status == r.status
        && p.pairToken == r.pairToken && p.wsToken == r.wsToken
        && p.startedAt == r.startedAt && p.stoppedAt == r.stoppedAt && p.duration == r.duration
        && (r.relay.None? ==> p.instance.None?)
        && (r.relay.Some? && r.relay.value < |relays| ==> p.instance == Some(relays[r.relay.value].instance))
      ensures p == Show(View(), id)
    {
      var r := sessions[id];
      var instance := None;
      if r.relay.Some? && r.relay.value < |relays| {
        instance := Some(relays[r.relay.value].instance);
      }
      p := Payload(id, r.user, r.region, r.status, instance, r.pairToken, r.wsToken, r.startedAt, r.stoppedAt, r.duration);
    }

    /** A fresh record decides by its hash. Otherwise the user's latest live session is shown, or a session created if
        there is none: it starts now, without tokens, and the key is recorded with what is shown. */
    method StartOrGetSession(input: StartInput, now: int) returns (result: StartResult)
      modifies this
      ensures var k := RecordKey(input.user, input.key);
        if k in old(records) && old(records)[k].expiresAt > now then
          && View() == old(View())
          && result == if old(records)[k].hash == input.hash then Found(old(records)[k].response) else Mismatch
        else !result.Mismatch? && k in records && records[k].response == result.session
      ensures var k := RecordKey(input.user, input.key);
        !(k in old(records) && old(records)[k].expiresAt > now) ==>
          && (result.Created? <==> forall i | 0 <= i < |old(sessions)| && old(sessions)[i].user == input.user ::
                old(sessions)[i].status == Stopped)
          && (result.Found? ==>
                && sessions == old(sessions)
                && result.session.id < |sessions| && sessions[result.session.id].status != Stopped
                && sessions[result.session.id].user == result.session.user == input.user
                && forall i | result.session.id < i < |sessions| && sessions[i].user == input.user ::
                  sessions[i].status == Stopped)
      ensures result.Created? ==>
        && result.session.id == |old(sessions)| && |sessions| == |old(sessions)| + 1 && old(sessions) <= sessions
        && var p, r := result.session, sessions[|old(sessions)|];
        && p.user == r.user == input.user && p.region == r.region == input.region
        && p.status == r.status == Provisioning && p.instance.None? && r.relay.None?
        && p.pairToken == r.pairToken == "" && p.wsToken == r.wsToken == ""
        && p.startedAt == r.startedAt == now && p.stoppedAt == r.stoppedAt == None && p.duration == r.duration == 0
        && r.reconciled == 0
      ensures relays == old(relays) && usage == old(usage) && health == old(health)
      ensures (View(), result) == StartOrGet(old(View()), input, now)
    {
      var k := RecordKey(input.user, input.key);
      if k in records && records[k].expiresAt > now {
        if records[k].hash != input.hash {
          return Mismatch;
        }
        return Found(records[k].response);
      }
      LiveOfFinds(sessions, input.user);
      var existing := LiveOf(sessions, input.user);
      if existing.Some? {
        var p := GetSession(existing.value);
        PersistIdempotencyRecord(input, p, now);
        return Found(p);
      }
      sessions := sessions + [NewSession(input, now)];
      var p := GetSession(|sessions| - 1);
      PersistIdempotencyRecord(input, p, now);
      return Created(p);
    }

    /** `None` when the transaction is rolled back. Otherwise a new running relay is bound to the session, which is
        active and carries the two tokens of the launch. */
    method ActivateProvisionedSession(user: string, id: nat, l: Launched) returns (session: Option<Payload>)
      modifies this
      ensures session.Some? <==>
        && id < |old(sessions)| && old(sessions)[id].user == user && old(sessions)[id].status == Provisioning
        && forall j | 0 <= j < |old(relays)| :: old(relays)[j].session != id && old(relays)[j].instance != l.instance
      ensures session.None? ==> View() == old(View())
      ensures session.Some? ==>
        && |sessions| == |old(sessions)| && relays == old(relays) + [RelayRow(id, l.instance, true, None)]
        && (forall i | 0 <= i < |sessions| && i != id :: sessions[i] == old(sessions)[i])
        && var p, r, before := session.value, sessions[id], old(sessions)[id];
        && p.id == id && p.user == r.user == user && p.region == r.region == before.region
        && p.status == r.status == Active && p.instance == Some(l.instance) && r.relay == Some(|old(relays)|)
        && p.pairToken == r.pairToken == l.pairToken && p.wsToken == r.wsToken == l.wsToken
        && p.startedAt == r.startedAt == before.startedAt && p.stoppedAt == r.stoppedAt == before.stoppedAt
        && p.duration == r.duration == before.duration && r.reconciled == before.reconciled
      ensures records == old(records) && usage == old(usage) && health == old(health)
      ensures View() == Activate(old(View()), user, id, l)
      ensures session.Some? <==> CanActivate(old(View()), user, id, l.instance)
      ensures session.Some? ==> id < |sessions| && session.value == Show(View(), id)
    {
      if !RelayFits(Tables(sessions, relays, records, usage, health), id, l.instance) {
        return None;
      }
      if id >= |sessions| || sessions[id].user != user || sessions[id].status != Provisioning {
        return None;
      }
      relays := relays + [RelayRow(id, l.instance, true, None)];
      sessions := sessions[id := sessions[id].(
        status := Active, relay := Some(|relays| - 1), pairToken := l.pairToken, wsToken := l.wsToken)];
      var p := GetSession(id);
      return Some(p);
    }

    /** `None` when there is no such session. A live one is stopped now, and its relay with it; the relay keeps a time of
        termination it already has. */
    method StopSession(user: string, id: nat, now: int) returns (session: Option<Payload>)
      modifies this
      ensures session.Some? <==> id < |old(sessions)| && old(sessions)[id].user == user
      ensures session.None? || old(sessions)[id].status == Stopped ==> View() == old(View())
      ensures |sessions| == |old(sessions)| && |relays| == |old(relays)|
      ensures forall i | 0 <= i < |sessions| && i != id :: sessions[i] == old(sessions)[i]
      ensures session.Some? ==>
        && var p, r, before := session.value, sessions[id], old(sessions)[id];
        && p.id == id && p.user == r.user == user && p.region == r.region == before.region
        && p.status == r.status == Stopped && r.relay == before.relay
        && p.pairToken == r.pairToken == before.pairToken && p.wsToken == r.wsToken == before.wsToken
        && p.startedAt == r.startedAt == before.startedAt
        && p.stoppedAt == r.stoppedAt == (if before.status == Stopped then before.stoppedAt else Some(now))
        && p.duration == r.duration == before.duration && r.reconciled == before.reconciled
      ensures forall j | 0 <= j < |relays| ::
        if session.Some? && old(sessions)[id].status != Stopped && old(sessions)[id].relay == Some(j) then
          && relays[j].session == old(relays)[j].session && relays[j].instance == old(relays)[j].instance
          && !relays[j].running
          && relays[j].terminatedAt == if old(relays)[j].terminatedAt.Some? then old(relays)[j].terminatedAt else Some(now)
        else relays[j] == old(relays)[j]
      ensures records == old(records) && usage == old(usage) && health == old(health)
      ensures View() == Stop(old(View()), user, id, now)
      ensures session.Some? <==> Owns(old(View()), user, id)
      ensures session.Some? ==> id < |sessions| && session.value == Show(View(), id) && session.value.status == Stopped
    {
      if id >= |sessions| || sessions[id].user != user {
        return None;
      }
      var curr := sessions[id];
      if curr.status != Stopped {
        sessions := sessions[id := curr.(status := Stopped, stoppedAt := Some(now))];
        if curr.relay.Some? && curr.relay.value < |relays| {
          var r := relays[curr.relay.value];
          relays := relays[curr.relay.value :=
            r.(running := false, terminatedAt := if r.terminatedAt.Some? then r.terminatedAt else Some(now))];
        }
      }
      var p := GetSession(id);
      return Some(p);
    }

    method GetSessionByID(user: string, id: nat) returns (session: Option<Payload>)
      ensures session.Some? <==> id < |sessions| && sessions[id].user == user
      ensures session.Some? ==>
        && var p, r := session.value, sessions[id];
        && p.id == id && p.user == user && p.region == r.region && p.status == r.status
        && p.pairToken == r.pairToken && p.wsToken == r.wsToken
        && p.startedAt == r.startedAt && p.stoppedAt == r.stoppedAt && p.duration == r.duration
      ensures session.Some? ==> session.value == Show(View(), id)
    {
      if id >= |sessions| || sessions[id].user != user {
        return None;
      }
      var p := GetSession(id);
      return Some(p);
    }

    /** No record that is fresh then or later is lost, and none that is gone was fresh. */
    method CleanupExpiredIdempotencyRecords(now: int)
      modifies this`records
      ensures forall k :: k in records <==> k in old(records) && old(records)[k].expiresAt > now
      ensures forall k | k in records :: records[k] == old(records)[k]
      ensures forall k, later | later >= now :: FreshRecord(View(), k, later) <==> FreshRecord(old(View()), k, later)
      ensures View() == Cleanup(old(View()), now)
    {
      records := map k | k in records && records[k].expiresAt > now :: records[k];
    }

    /** Durations only, never downwards: to the whole seconds served, unless they were beyond that. */
    method RollupLiveSessionDurations(now: int)
      modifies this`sessions
      ensures |sessions| == |old(sessions)|
      ensures forall i | 0 <= i < |sessions| ::
        && sessions[i] == old(sessions)[i].(duration := sessions[i].duration)
        && sessions[i].duration >= old(sessions)[i].duration
      ensures forall i | 0 <= i < |sessions| && sessions[i].status in {Active, Grace} && sessions[i].startedAt <= now ::
        && now - sessions[i].startedAt < 1000 * sessions[i].duration + 1000
        && (sessions[i].duration > old(sessions)[i].duration ==>
            1000 * sessions[i].duration <= now - sessions[i].startedAt)
      ensures forall i | 0 <= i < |sessions| && !(sessions[i].status in {Active, Grace} && sessions[i].startedAt <= now) ::
        sessions[i] == old(sessions)[i]
      ensures View() == Rollup(old(View()), now)
    {
      var rows := sessions;
      sessions := seq(|rows|, i requires 0 <= i < |rows| => RolledUp(rows[i], now));
    }

    /** A report counts as its session's latest unless one with a later observation time is there; it never counts
        for another session. */
    method RecordRelayHealth(e: HealthEvent) returns (accepted: bool)
      modifies this`health
      ensures accepted <==> e.session < |sessions| && sessions[e.session].relay.Some?
      ensures !accepted ==> health == old(health)
      ensures accepted ==> old(health) < health && multiset(health) == multiset(old(health)) + multiset{e}
      ensures forall id | id != e.session :: LatestHealth(health, id) == LatestHealth(old(health), id)
      ensures accepted ==>
        var latest, before := LatestHealth(health, e.session), LatestHealth(old(health), e.session);
        latest == if before.Some? && before.value.observedAt > e.observedAt then before else Some(e)
      ensures View() == RecordHealth(old(View()), e)
    {
      accepted := e.session < |sessions| && sessions[e.session].relay.Some?;
      if accepted {
        health := health + [e];
      }
    }

    /** Seconds only, never downwards: past provisioning both columns reach the latest reported uptime, and go no further
        than it when they rise. */
    method ReconcileOutageFromHealth()
      modifies this`sessions
      ensures |sessions| == |old(sessions)|
      ensures forall i | 0 <= i < |sessions| ::
        && var r, r' := old(sessions)[i], sessions[i];
        && r' == r.(reconciled := r'.reconciled, duration := r'.duration)
        && r'.reconciled >= r.reconciled && r'.duration >= r.duration
      ensures forall i | 0 <= i < |sessions| && sessions[i].status != Provisioning && LatestHealth(health, i).Some? ::
        && var r, r', uptime := old(sessions)[i], sessions[i], LatestHealth(health, i).value.uptime;
        && r'.reconciled >= uptime && r'.duration >= uptime
        && (r'.reconciled > r.reconciled ==> r'.reconciled == uptime)
        && (r'.duration > r.duration ==> r'.duration == uptime)
      ensures forall i | 0 <= i < |sessions| && (sessions[i].status == Provisioning || LatestHealth(health, i).None?) ::
        sessions[i] == old(sessions)[i]
      ensures View() == Reconcile(old(View()))
    {
      var rows, events := sessions, health;
      sessions := seq(|rows|, i requires 0 <= i < |rows| => ReconciledRow(rows[i], LatestHealth(events, i)));
    }

    /** Row by row over the charged sessions: past provisioning, and started in the current cycle of a known user. Each
        gets its seconds; a row that was there keeps its user and cycle. */
    method UpsertUsageRollups(users: map<string, Plan>)
      modifies this`usage
      ensures forall id | 0 <= id < |sessions| && Charged(sessions[id], users) ::
        && id in usage && usage[id].measured == sessions[id].duration && usage[id].reconciled == sessions[id].reconciled
        && usage[id].billable >= usage[id].measured && usage[id].billable >= usage[id].reconciled
        && (usage[id].billable == usage[id].measured || usage[id].billable == usage[id].reconciled)
      ensures forall id | id in usage && (id >= |sessions| || !Charged(sessions[id], users)) ::
        id in old(usage) && usage[id] == old(usage)[id]
      ensures forall id | id in old(usage) ::
        && id in usage && usage[id].user == old(usage)[id].user
        && usage[id].cycleStart == old(usage)[id].cycleStart && usage[id].cycleEnd == old(usage)[id].cycleEnd
      ensures forall id | 0 <= id < |sessions| && Charged(sessions[id], users) && id !in old(usage) ::
        var r, plan := sessions[id], users[sessions[id].user];
        usage[id].user == r.user && usage[id].cycleStart == plan.cycleStart && usage[id].cycleEnd == plan.cycleEnd
      ensures View() == UpsertUsage(old(View()), users)
    {
      UpsertedRows(View(), users, |sessions|);
      for id := 0 to |sessions|
        invariant View() == old(View()).(usage := UpsertFirst(old(View()), users, id))
      {
        var r := sessions[id];
        if Charged(r, users) {
          usage := usage[id := Upserted(usage, id, r, users)];
        }
      }
    }
  }

  class Cloud {
    var running: set<nat>
    var next: nat

    constructor ()
      ensures running == {} && next == 0
    {
      running, next := {}, 0;
    }

    method Provision(outcome: Outcome) returns (instance: Option<nat>)
      modifies this
      ensures outcome == Fails ==> running == old(running) && next == old(next)
      ensures outcome != Fails ==> running == old(running) + {old(next)} && next == old(next) + 1
      ensures instance == if outcome == Fine then Some(old(next)) else None
    {
      instance := if outcome == Fine then Some(next) else None;
      if outcome != Fails {
        running, next := running + {next}, next + 1;
      }
    }

    method Deprovision(instance: nat, outcome: Outcome) returns (ok: bool)
      modifies this`running
      ensures ok <==> outcome == Fine
      ensures running == if ok then old(running) - {instance} else old(running)
    {
      ok := outcome == Fine;
      if ok {
        running := running - {instance};
      }
    }
  }

  /** What surrounds one request: how its calls turn out, the clock at each, and what others do before each. */
  datatype Env = Env(outcomes: nat -> Outcome, clock: nat -> int, others: nat -> seq<Action>, pairToken: string, wsToken: string)

  datatype Response = Response(code: nat, session: Option<Payload>)

  /** The handler's activation goes through in this state. */
  predicate Activates(s: Sys, pid: nat) {
    && pid < |s.procs| && s.procs[pid].StartActivate?
    && CanActivate(s.db, s.procs[pid].user, s.procs[pid].id, s.procs[pid].instance)
  }

  /** A session shows these tokens, and what the tables `t` knew of it before. */
  predicate Carries(p: Payload, t: Tables, pairToken: string, wsToken: string) {
    && p.pairToken == pairToken && p.wsToken == wsToken
    && p.id < |t.sessions| && p.user == t.sessions[p.id].user && p.region == t.sessions[p.id].region
    && p.startedAt == t.sessions[p.id].startedAt && p.stoppedAt == t.sessions[p.id].stoppedAt
  }

  predicate HasLive(t: Tables, user: string) {
    exists i :: 0 <= i < |t.sessions| && t.sessions[i].user == user && t.sessions[i].status != Stopped
  }

  /** The answer to a start request, by the tables at its start transaction: a fresh record decides by its hash, a live
      session is returned as it is; `activated` says whether the launch of a new one went through. */
  ghost predicate AnswersStart(t: Tables, activated: bool, input: StartInput, env: Env, r: Response) {
    var k := RecordKey(input.user, input.key);
    var found := k in t.records && t.records[k].expiresAt > env.clock(0);
    && (r.code == 200 || r.code == 201 || r.code == 409 || r.code == 500)
    && (r.code == 409 <==> env.outcomes(0) == Fine && found && t.records[k].hash != input.hash)
    && (r.code == 200 <==>
        env.outcomes(0) == Fine && if found then t.records[k].hash == input.hash else HasLive(t, input.user))
    && (r.code == 201 <==>
        && env.outcomes(0) == Fine && !found && !HasLive(t, input.user)
        && env.outcomes(1) == Fine && env.outcomes(2) == Fine && activated)
    && (r.session.Some? <==> r.code == 200 || r.code == 201)
    && (r.code == 200 && found ==> r.session.value == t.records[k].response)
    && (r.code == 200 && !found ==> IsLiveOne(t, input.user, r.session.value))
  }

  /** The payload is the row of a live session of the user. */
  predicate IsLiveOne(t: Tables, user: string, p: Payload) {
    && p.id < |t.sessions|
    && var r := t.sessions[p.id];
    && p.user == r.user == user && p.status == r.status && r.status != Stopped && p.region == r.region
    && p.pairToken == r.pairToken && p.wsToken == r.wsToken
    && p.startedAt == r.startedAt && p.stoppedAt == r.stoppedAt && p.duration == r.duration
  }

  /** What a launch answers: the new session, active, with the tokens of the launch, for the user and region asked for,
      from the time of the start transaction on. */
  predicate IsLaunched(p: Payload, id: nat, input: StartInput, env: Env) {
    && p.id == id && p.user == input.user && p.region == input.region && p.startedAt == env.clock(0)
    && p.status == Active && p.instance.Some? && p.pairToken == env.pairToken && p.wsToken == env.wsToken
  }

  lemma StartOrGetMeans(t: Tables, input: StartInput, now: int)
    ensures var k, r := RecordKey(input.user, input.key), StartOrGet(t, input, now).1;
      if k in t.records && t.records[k].expiresAt > now then
        r == if t.records[k].hash == input.hash then Found(t.records[k].response) else Mismatch
      else if HasLive(t, input.user) then r.Found? && IsLiveOne(t, input.user, r.session)
      else r.Created?
  {
    LiveOfFinds(t.sessions, input.user);
  }

  /** The code that answers a stop request, by the tables at its read. */
  predicate AnswersStop(t: Tables, user: string, id: nat, env: Env, code: nat) {
    var owned := id < |t.sessions| && t.sessions[id].user == user;
    var bound := owned && t.sessions[id].status != Stopped && InstanceOf(t, t.sessions[id]).Some?;
    && (code == 200 || code == 404 || code == 500)
    && (code == 404 <==> env.outcomes(0) == Fine && !owned)
    && (code == 200 <==> env.outcomes(0) == Fine && owned && (bound ==> env.outcomes(1) == Fine) && env.outcomes(2) == Fine)
  }

  class Server {
    const store: Store
    const cloud: Cloud
    /** Every request handler so far, this one's included, and every session that Provision was called for. */
    var procs: seq<Proc>
    var provisioned: seq<nat>
    /** The run of the whole system so far. */
    ghost var states: seq<Sys>
    ghost var actions: seq<Action>

    function Now(): Sys reads this, store, cloud {
      Sys(Tables(store.sessions, store.relays, store.records, store.usage, store.health),
        cloud.running, cloud.next, procs, provisioned)
    }

    ghost predicate Valid() reads this, store, cloud { IsRun(states, actions) && states[|actions|] == Now() }

    constructor ()
      ensures Valid() && fresh(store) && fresh(cloud) && actions == []
    {
      store := new Store();
      cloud := new Cloud();
      procs, provisioned, states, actions := [], [], [START], [];
    }

    ghost predicate At(pid: nat, p: Proc) reads this { pid < |procs| && procs[pid] == p }

    /** Adds the step just taken to the run. */
    ghost method Took(a: Action)
      requires IsRun(states, actions) && Enabled(states[|actions|], a) && Now() == Do(states[|actions|], a)
      modifies this`states, this`actions
      ensures Valid() && actions == old(actions) + [a]
    {
      states, actions := states + [Now()], actions + [a];
    }

    method Spawned(p: Proc) returns (pid: nat)
      requires Valid() && (p.StartBegin? || p.StopBegin?)
      modifies this
      ensures Valid() && At(pid, p) && actions == old(actions) + [Spawn(p)]
    {
      pid := |procs|;
      procs := procs + [p];
      Took(Spawn(p));
    }

    /** Other handlers and the background jobs: whatever of `wanted` is possible, never a step of handler `pid`. */
    method Others(pid: nat, wanted: seq<Action>)
      requires Valid() && pid < |procs|
      modifies this, store, cloud
      ensures Valid() && At(pid, old(procs)[pid]) && old(actions) <= actions
    {
      for i := 0 to |wanted|
        invariant Valid() && At(pid, old(procs)[pid]) && old(actions) <= actions
      {
        var s, a := Now(), wanted[i];
        if Enabled(s, a) && !(a.Move? && a.pid == pid) {
          var s' := Do(s, a);
          store.sessions, store.relays, store.records := s'.db.sessions, s'.db.relays, s'.db.records;
          store.usage, store.health := s'.db.usage, s'.db.health;
          cloud.running, cloud.next, procs, provisioned := s'.running, s'.next, s'.procs, s'.provisioned;
          Took(a);
        }
      }
    }

    // ----- One method per call of a handler -----

    method CallStartOrGet(pid: nat, input: StartInput, o: Outcome, now: int) returns (r: Option<StartResult>)
      requires Valid() && At(pid, StartBegin(input))
      modifies this, store
      ensures Valid() && actions == old(actions) + [Move(pid, o, now, "", "")]
      ensures old(actions) <= actions
      ensures r.None? <==> o != Fine
      ensures At(pid, if r.Some? && r.value.Created? then StartProvision(input.user, r.value.session.id) else Done)
      ensures r.Some? ==> r.value == StartOrGet(old(Now()).db, input, now).1
      ensures r.Some? && r.value.Created? ==>
        && r.value.session.id == |old(Now()).db.sessions| < |Now().db.sessions|
        && var row := Now().db.sessions[r.value.session.id];
        row.user == input.user && row.region == input.region && row.startedAt == now
    {
      if o != Fine {
        procs := procs[pid := Done];
        r := None;
      } else {
        var result := store.StartOrGetSession(input, now);
        procs := procs[pid := if result.Created? then StartProvision(input.user, result.session.id) else Done];
        r := Some(result);
      }
      Took(Move(pid, o, now, "", ""));
    }

    method CallProvision(pid: nat, user: string, id: nat, o: Outcome) returns (instance: Option<nat>)
      requires Valid() && At(pid, StartProvision(user, id))
      modifies this, cloud
      ensures Valid() && actions == old(actions) + [Move(pid, o, 0, "", "")]
      ensures old(actions) <= actions
      ensures instance.Some? <==> o == Fine
      ensures At(pid, if instance.Some? then StartActivate(user, id, instance.value) else UndoSession(user, id))
    {
      instance := cloud.Provision(o);
      provisioned := provisioned + [id];
      procs := procs[pid := if instance.Some? then StartActivate(user, id, instance.value) else UndoSession(user, id)];
      Took(Move(pid, o, 0, "", ""));
    }

    /** Covers the token generation as well: its failure takes the same path as a failed activation. */
    method CallActivate(pid: nat, user: string, id: nat, l: Launched, o: Outcome) returns (session: Option<Payload>)
      requires Valid() && At(pid, StartActivate(user, id, l.instance))
      modifies this, store
      ensures Valid() && actions == old(actions) + [Move(pid, o, 0, l.pairToken, l.wsToken)]
      ensures old(actions) <= actions
      ensures At(pid, if session.Some? then Done else UndoInstance(user, id, l.instance))
      ensures session.Some? ==> session.value.status == Active && session.value.instance == Some(l.instance)
      ensures session.Some? ==> session.value.id == id && Carries(session.value, old(Now()).db, l.pairToken, l.wsToken)
      ensures session.Some? <==> o == Fine && CanActivate(old(Now()).db, user, id, l.instance)
    {
      session := None;
      if o == Fine {
        session := store.ActivateProvisionedSession(user, id, l);
      }
      procs := procs[pid := if session.Some? then Done else UndoInstance(user, id, l.instance)];
      Took(Move(pid, o, 0, l.pairToken, l.wsToken));
    }

    method CallDeprovision(pid: nat, user: string, id: nat, instance: nat, o: Outcome) returns (ok: bool)
      requires Valid() && (At(pid, UndoInstance(user, id, instance)) || At(pid, StopInstance(user, id, instance)))
      modifies this, cloud
      ensures Valid() && actions == old(actions) + [Move(pid, o, 0, "", "")]
      ensures old(actions) <= actions
      ensures ok <==> o == Fine
      ensures At(pid,
        if old(procs)[pid].UndoInstance? then UndoSession(user, id)
        else if ok then StopFinish(user, id, Some(instance)) else Done)
    {
      ok := cloud.Deprovision(instance, o);
      procs := procs[pid :=
        if procs[pid].UndoInstance? then UndoSession(user, id)
        else if ok then StopFinish(user, id, Some(instance)) else Done];
      Took(Move(pid, o, 0, "", ""));
    }

    method CallStop(pid: nat, user: string, id: nat, o: Outcome, now: int) returns (session: Option<Payload>)
      requires Valid() && pid < |procs|
      requires procs[pid] == UndoSession(user, id) || (procs[pid].StopFinish? && procs[pid].user == user && procs[pid].id == id)
      modifies this, store
      ensures Valid() && actions == old(actions) + [Move(pid, o, now, "", "")]
      ensures old(actions) <= actions
      ensures At(pid, Done)
      ensures session.Some? ==> session.value.status == Stopped && session.value.id == id && session.value.user == user
      ensures session.Some? <==> o == Fine && Owns(old(Now()).db, user, id)
    {
      session := None;
      if o == Fine {
        session := store.StopSession(user, id, now);
      }
      procs := procs[pid := Done];
      Took(Move(pid, o, now, "", ""));
    }

    method CallRead(pid: nat, user: string, id: nat, o: Outcome) returns (curr: Option<Payload>)
      requires Valid() && At(pid, StopBegin(user, id))
      modifies this
      ensures Valid() && actions == old(actions) + [Move(pid, o, 0, "", "")]
      ensures old(actions) <= actions
      ensures curr.Some? <==> o == Fine && Owns(old(Now()).db, user, id)
      ensures curr.Some? ==> curr.value == Show(old(Now()).db, id)
      ensures At(pid,
        if curr.None? then Done
        else if curr.value.status != Stopped && curr.value.instance.Some? then StopInstance(user, id, curr.value.instance.value)
        else StopFinish(user, id, None))
    {
      curr := None;
      if o == Fine {
        curr := store.GetSessionByID(user, id);
      }
      procs := procs[pid :=
        if curr.None? then Done
        else if curr.value.status != Stopped && curr.value.instance.Some? then StopInstance(user, id, curr.value.instance.value)
        else StopFinish(user, id, None)];
      Took(Move(pid, o, 0, "", ""));
    }

    // ----- The handlers -----

    /** After a successful Provision that did not lead to an active session. */
    method CompensateRelayStartProvisioned(pid: nat, user: string, id: nat, instance: nat, env: Env)
      requires Valid() && At(pid, UndoInstance(user, id, instance))
      modifies this, store, cloud
      ensures Valid() && At(pid, Done) && old(actions) <= actions
    {
      var _ := CallDeprovision(pid, user, id, instance, env.outcomes(3));
      Others(pid, env.others(4));
      var _ := CallStop(pid, user, id, env.outcomes(4), env.clock(4));
    }

    /** The rest of a start request once it has created a session. `m` is the moment of the activation, if any. */
    method LaunchRelay(pid: nat, user: string, id: nat, env: Env) returns (session: Option<Payload>, ghost m: nat)
      requires Valid() && At(pid, StartProvision(user, id))
      modifies this, store, cloud
      ensures Valid() && At(pid, Done) && old(actions) <= actions
      ensures session.Some? ==>
        session.value.id == id && session.value.status == Active && session.value.instance.Some?
      ensures |old(actions)| <= m <= |actions|
      ensures session.Some? ==> Carries(session.value, states[m].db, env.pairToken, env.wsToken)
      ensures session.Some? <==> env.outcomes(1) == Fine && env.outcomes(2) == Fine && Activates(states[m], pid)
    {
      var instance := CallProvision(pid, user, id, env.outcomes(1));
      Others(pid, env.others(2));
      m := |actions|;
      if instance.None? {
        var _ := CallStop(pid, user, id, env.outcomes(2), env.clock(2));
        return None, m;
      }
      session := FinishStart(pid, user, id, Launched(instance.value, env.pairToken, env.wsToken), env);
    }

    /** The activation, undone when it fails. */
    method FinishStart(pid: nat, user: string, id: nat, l: Launched, env: Env) returns (session: Option<Payload>)
      requires Valid() && At(pid, StartActivate(user, id, l.instance))
      modifies this, store, cloud
      ensures Valid() && At(pid, Done) && old(actions) <= actions
      ensures session.Some? ==>
        session.value.id == id && session.value.status == Active && session.value.instance.Some?
      ensures states[|old(actions)|] == old(Now())
      ensures session.Some? ==> Carries(session.value, old(Now()).db, l.pairToken, l.wsToken)
      ensures session.Some? <==> env.outcomes(2) == Fine && Activates(old(Now()), pid)
    {
      ghost var before, first := states, actions;
      session := CallActivate(pid, user, id, l, env.outcomes(2));
      if session.None? {
        Others(pid, env.others(3));
        CompensateRelayStartProvisioned(pid, user, id, l.instance, env);
      }
      RunsAgree(before, first, states, actions, |first|);
    }

    /** When each answer is given, by the tables at the moment `n` of the start transaction and, for a new session, by
        those at the moment `m` of its activation. */
    method HandleRelayStart(input: StartInput, env: Env)
      returns (pid: nat, response: Response, ghost n: nat, ghost m: nat)
      requires Valid()
      modifies this, store, cloud
      ensures Valid() && At(pid, Done) && old(actions) <= actions
      ensures n < |actions| && m <= |actions|
      ensures actions[n] == Move(pid, env.outcomes(0), env.clock(0), "", "")
      ensures AnswersStart(states[n].db, Activates(states[m], pid), input, env, response)
      ensures response.code == 201 ==> IsLaunched(response.session.value, |states[n].db.sessions|, input, env)
    {
      m := 0;
      pid := Spawned(StartBegin(input));
      Others(pid, env.others(0));
      n := |actions|;
      ghost var before, first := states, actions;
      StartOrGetMeans(Now().db, input, env.clock(0));
      var result := CallStartOrGet(pid, input, env.outcomes(0), env.clock(0));
      RunsAgree(before, first, states, actions, n);
      if result.None? {
        return pid, Response(500, None), n, m;
      }
      if result.value.Mismatch? {
        return pid, Response(409, None), n, m;
      }
      if result.value.Found? {
        return pid, Response(200, Some(result.value.session)), n, m;
      }
      var session;
      session, m := LaunchNew(pid, input, result.value.session.id, env);
      RunsAgree(before, first, states, actions, n);
      return pid, Response(if session.Some? then 201 else 500, session), n, m;
    }

    /** The rest of a start request whose transaction has just created the session. */
    method LaunchNew(pid: nat, input: StartInput, id: nat, env: Env) returns (session: Option<Payload>, ghost m: nat)
      requires Valid() && At(pid, StartProvision(input.user, id)) && id < |Now().db.sessions|
      requires var row := Now().db.sessions[id];
        row.user == input.user && row.region == input.region && row.startedAt == env.clock(0)
      modifies this, store, cloud
      ensures Valid() && At(pid, Done) && old(actions) <= actions && m <= |actions|
      ensures session.Some? <==> env.outcomes(1) == Fine && env.outcomes(2) == Fine && Activates(states[m], pid)
      ensures session.Some? ==> IsLaunched(session.value, id, input, env)
    {
      ghost var before, first := states, actions;
      Others(pid, env.others(1));
      session, m := LaunchRelay(pid, input.user, id, env);
      RowStays(before, first, states, actions, m, id);
    }

    /** The rest of a stop request that has read a session with an instance; false when the instance would not stop. */
    method TerminateInstance(pid: nat, user: string, id: nat, instance: nat, env: Env) returns (ok: bool)
      requires Valid() && At(pid, StopInstance(user, id, instance))
      modifies this, store, cloud
      ensures Valid() && old(actions) <= actions
      ensures At(pid, if ok then StopFinish(user, id, Some(instance)) else Done)
      ensures ok <==> env.outcomes(1) == Fine
    {
      ok := CallDeprovision(pid, user, id, instance, env.outcomes(1));
      if ok {
        Others(pid, env.others(2));
      }
    }

    /** When each answer is given, by the tables at the moment `n` of the read. */
    method HandleRelayStop(user: string, id: nat, env: Env) returns (pid: nat, response: Response, ghost n: nat)
      requires Valid()
      modifies this, store, cloud
      ensures Valid() && At(pid, Done) && old(actions) <= actions
      ensures n < |actions| && actions[n] == Move(pid, env.outcomes(0), 0, "", "")
      ensures AnswersStop(states[n].db, user, id, env, response.code)
      ensures response.code == 200 <==> response.session.Some?
      ensures response.session.Some? ==>
        && response.session.value.status == Stopped && response.session.value.id == id
        && response.session.value.user == user
    {
      pid := Spawned(StopBegin(user, id));
      Others(pid, env.others(0));
      n := |actions|;
      ghost var before, first := states, actions;
      var curr := CallRead(pid, user, id, env.outcomes(0));
      RunsAgree(before, first, states, actions, n);
      if curr.None? {
        return pid, Response(if env.outcomes(0) == Fine then 404 else 500, None), n;
      }
      Others(pid, env.others(1));
      response := FinishStop(pid, user, id, curr.value, env, before, first);
    }

    /** The rest of a stop request that has read its session in the last of the states `before`. */
    method FinishStop(
        pid: nat, user: string, id: nat, curr: Payload, env: Env, ghost before: seq<Sys>, ghost first: seq<Action>)
      returns (response: Response)
      requires Valid() && IsRun(before, first) && first < actions && Owns(before[|first|].db, user, id)
      requires At(pid, if curr.status != Stopped && curr.instance.Some? then StopInstance(user, id, curr.instance.value)
                       else StopFinish(user, id, None))
      modifies this, store, cloud
      ensures Valid() && At(pid, Done) && old(actions) <= actions && states[|first|] == before[|first|]
      ensures response.code ==
        if (curr.status != Stopped && curr.instance.Some? && env.outcomes(1) != Fine) || env.outcomes(2) != Fine then 500
        else 200
      ensures response.code == 200 <==> response.session.Some?
      ensures response.session.Some? ==>
        && response.session.value.status == Stopped && response.session.value.id == id
        && response.session.value.user == user
    {
      if curr.status != Stopped && curr.instance.Some? {
        var ok := TerminateInstance(pid, user, id, curr.instance.value, env);
        if !ok {
          RunsAgree(before, first, states, actions, |first|);
          return Response(500, None);
        }
      }
      StaysOwned(before, first, states, actions, user, id);
      var session := CallStop(pid, user, id, env.outcomes(2), env.clock(2));
      RunsAgree(before, first, states, actions, |first|);
      if session.None? {
        return Response(if env.outcomes(2) == Fine then 404 else 500, None);
      }
      return Response(200, session);
    }
  }

  /** A session that was there is still there, with the same owner, region and start. */
  lemma RowStays(
    before: seq<Sys>, first: seq<Action>, states: seq<Sys>, actions: seq<Action>, m: nat, id: nat)
    requires IsRun(before, first) && IsRun(states, actions) && first <= actions && |first| <= m <= |actions|
    requires id < |before[|first|].db.sessions|
    ensures id < |states[m].db.sessions|
    ensures var r, r' := before[|first|].db.sessions[id], states[m].db.sessions[id];
      r'.user == r.user && r'.region == r.region && r'.startedAt == r.startedAt
  {
    var n := |first|;
    RunsAgree(before, first, states, actions, n);
    TablesGrow(states, actions, n, m);
    assert RowGrows(states[n].db.sessions[id], states[m].db.sessions[id]);
  }

  /** A session that was there is still there, with the same owner. */
  lemma StaysOwned(
    before: seq<Sys>, first: seq<Action>, states: seq<Sys>, actions: seq<Action>, user: string, id: nat)
    requires IsRun(before, first) && IsRun(states, actions) && first <= actions && Owns(before[|first|].db, user, id)
    ensures Owns(states[|actions|].db, user, id)
  {
    RowStays(before, first, states, actions, |actions|, id);
  }
}
