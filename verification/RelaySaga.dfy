/** Start and stop requests as processes that interleave at their transactions and cloud calls. A crash of the server in
    the middle of a request is not modelled; every database call may fail without effect. */
module RelaySaga {
  import opened Options
  import opened RelayStore

  /** Where a request handler is, with the variables it still needs. */
  datatype Proc =
    | StartBegin(input: StartInput)
    | StartProvision(user: string, id: nat)
    | StartActivate(user: string, id: nat, instance: nat)
    | UndoInstance(user: string, id: nat, instance: nat)
    | UndoSession(user: string, id: nat)
    | StopBegin(user: string, id: nat)
    | StopInstance(user: string, id: nat, instance: nat)
    | StopFinish(user: string, id: nat, seen: Option<nat>)
    | Done

  /** How the call a handler makes next turns out. A provisioner may fail and still have launched an instance. */
  datatype Outcome = Fine | Fails | FailsRunning

  /** The tables, the cloud's running instances, the next fresh instance, the handlers, and every session that
      Provision was called for. */
  datatype Sys = Sys(db: Tables, running: set<nat>, next: nat, procs: seq<Proc>, provisioned: seq<nat>)

  datatype Action =
    | Spawn(proc: Proc)
    | Move(pid: nat, outcome: Outcome, now: int, pairToken: string, wsToken: string)
    | Job(tx: Tx)

  predicate Enabled(s: Sys, a: Action) {
    match a
    case Spawn(p) => p.StartBegin? || p.StopBegin?
    case Move(pid, _, _, _, _) => pid < |s.procs| && s.procs[pid] != Done
    case Job(tx) => !tx.StartTx? && !tx.ActivateTx? && !tx.StopTx?
  }

  /** The next step of handler `p`: the shared state after it and where the handler is then. */
  function Advance(s: Sys, p: Proc, a: Action): (Sys, Proc)
    requires a.Move?
  {
    match p
    case StartBegin(input) =>
      if a.outcome != Fine then (s, Done)
      else
        var r := StartOrGet(s.db, input, a.now);
        (s.(db := r.0), if r.1.Created? then StartProvision(input.user, r.1.session.id) else Done)
    case StartProvision(user, id) =>
      var called := s.(provisioned := s.provisioned + [id]);
      if a.outcome == Fails then (called, UndoSession(user, id))
      else
        (called.(running := s.running + {s.next}, next := s.next + 1),
         if a.outcome == Fine then StartActivate(user, id, s.next) else UndoSession(user, id))
    case StartActivate(user, id, instance) =>
      if a.outcome == Fine && CanActivate(s.db, user, id, instance)
      then (s.(db := Activate(s.db, user, id, Launched(instance, a.pairToken, a.wsToken))), Done)
      else (s, UndoInstance(user, id, instance))
    case UndoInstance(user, id, instance) =>
      (if a.outcome == Fine then s.(running := s.running - {instance}) else s, UndoSession(user, id))
    case UndoSession(user, id) =>
      (if a.outcome == Fine then s.(db := Stop(s.db, user, id, a.now)) else s, Done)
    case StopBegin(user, id) =>
      (s,
       if a.outcome != Fine || !Owns(s.db, user, id) then Done
       else
         var instance := InstanceOf(s.db, s.db.sessions[id]);
         if s.db.sessions[id].status != Stopped && instance.Some? then StopInstance(user, id, instance.value)
         else StopFinish(user, id, None))
    case StopInstance(user, id, instance) =>
      if a.outcome == Fine then (s.(running := s.running - {instance}), StopFinish(user, id, Some(instance)))
      else (s, Done)
    case StopFinish(user, id, _) =>
      (if a.outcome == Fine then s.(db := Stop(s.db, user, id, a.now)) else s, Done)
    case Done => (s, Done)
  }

  function Do(s: Sys, a: Action): Sys
    requires Enabled(s, a)
  {
    match a
    case Spawn(p) => s.(procs := s.procs + [p])
    case Move(pid, _, _, _, _) =>
      var r := Advance(s, s.procs[pid], a);
      r.0.(procs := s.procs[pid := r.1])
    case Job(tx) => s.(db := Commit(s.db, tx))
  }

  const START := Sys(EMPTY, {}, 0, [], [])

  ghost predicate IsRun(states: seq<Sys>, actions: seq<Action>) {
    && |states| == |actions| + 1 && states[0] == START
    && forall i | 0 <= i < |actions| :: Enabled(states[i], actions[i]) && states[i + 1] == Do(states[i], actions[i])
  }

  /** The actions taken determine the states. */
  lemma {:induction false} RunsAgree(before: seq<Sys>, first: seq<Action>, states: seq<Sys>, actions: seq<Action>, n: nat)
    requires IsRun(before, first) && IsRun(states, actions) && first <= actions && n <= |first|
    ensures states[n] == before[n]
  {
    if n > 0 {
      RunsAgree(before, first, states, actions, n - 1);
      assert actions[n - 1] == first[n - 1];
    }
  }

  // ----- What the handlers know -----

  /** The session a start handler is responsible for. */
  function HeldSession(p: Proc): Option<nat> {
    match p
    case StartProvision(_, id) => Some(id)
    case StartActivate(_, id, _) => Some(id)
    case UndoInstance(_, id, _) => Some(id)
    case UndoSession(_, id) => Some(id)
    case _ => None
  }

  /** The instance a start handler is responsible for. */
  function HeldInstance(p: Proc): Option<nat> {
    match p
    case StartActivate(_, _, instance) => Some(instance)
    case UndoInstance(_, _, instance) => Some(instance)
    case _ => None
  }

  predicate Unbound(t: Tables, user: string, id: nat) { Owns(t, user, id) && t.sessions[id].relay.None? }

  predicate BoundTo(t: Tables, id: nat, instance: nat) {
    && id < |t.sessions| && t.sessions[id].relay.Some? && t.sessions[id].relay.value < |t.relays|
    && t.relays[t.sessions[id].relay.value].instance == instance
  }

  ghost predicate NoRelayHas(t: Tables, instance: nat) {
    forall j | 0 <= j < |t.relays| :: t.relays[j].instance != instance
  }

  ghost predicate Knows(s: Sys, p: Proc) {
    match p
    case StartProvision(user, id) => Unbound(s.db, user, id)
    case UndoSession(user, id) => Unbound(s.db, user, id)
    case StartActivate(user, id, instance) => Unbound(s.db, user, id) && instance in s.running && NoRelayHas(s.db, instance)
    case UndoInstance(user, id, instance) => Unbound(s.db, user, id) && instance in s.running && NoRelayHas(s.db, instance)
    case StopInstance(_, id, instance) => BoundTo(s.db, id, instance)
    case StopFinish(_, id, seen) => seen.Some? ==> BoundTo(s.db, id, seen.value) && seen.value !in s.running
    case _ => true
  }

  ghost predicate HoldDifferent(p: Proc, q: Proc) {
    && (HeldSession(p).Some? ==> HeldSession(p) != HeldSession(q))
    && (HeldInstance(p).Some? ==> HeldInstance(p) != HeldInstance(q))
  }

  ghost predicate Good(s: Sys) {
    && Sound(s.db)
    && (forall i | i in s.running :: i < s.next)
    && (forall j | 0 <= j < |s.db.relays| :: s.db.relays[j].instance < s.next)
    && (forall i | 0 <= i < |s.procs| :: Knows(s, s.procs[i]))
    && (forall i, j | 0 <= i < j < |s.procs| :: HoldDifferent(s.procs[i], s.procs[j]))
  }

  // ----- The handlers' knowledge survives every step -----

  /** Sessions keep owner and relay, relays keep their instances, nothing is bound anew. */
  predicate SameBindings(t: Tables, t': Tables) {
    && |t.sessions| <= |t'.sessions| && |t'.relays| == |t.relays|
    && (forall i | 0 <= i < |t.sessions| ::
        t'.sessions[i].user == t.sessions[i].user && t'.sessions[i].relay == t.sessions[i].relay)
    && (forall j | 0 <= j < |t.relays| :: t'.relays[j].instance == t.relays[j].instance)
  }

  lemma KnowsStays(s: Sys, s': Sys, p: Proc)
    requires Knows(s, p) && SameBindings(s.db, s'.db) && s'.running == s.running
    ensures Knows(s', p)
  {
  }

  lemma BindingsStay(t: Tables, tx: Tx)
    requires !tx.ActivateTx?
    ensures SameBindings(t, Commit(t, tx))
  {
  }

  /** Replacing one handler keeps them apart when the new one holds no more than the old one, or something fresh. */
  lemma Replaced(procs: seq<Proc>, pid: nat, p: Proc)
    requires pid < |procs|
    requires forall i, j | 0 <= i < j < |procs| :: HoldDifferent(procs[i], procs[j])
    requires forall i | 0 <= i < |procs| && i != pid :: HoldDifferent(p, procs[i]) && HoldDifferent(procs[i], p)
    ensures var procs' := procs[pid := p];
      forall i, j | 0 <= i < j < |procs'| :: HoldDifferent(procs'[i], procs'[j])
  {
  }

  lemma SpawnKeepsGood(s: Sys, p: Proc)
    requires Good(s) && (p.StartBegin? || p.StopBegin?)
    ensures Good(s.(procs := s.procs + [p]))
  {
  }

  lemma JobKeepsGood(s: Sys, tx: Tx)
    requires Good(s) && !tx.StartTx? && !tx.ActivateTx? && !tx.StopTx?
    ensures Good(s.(db := Commit(s.db, tx)))
  {
    var s' := s.(db := Commit(s.db, tx));
    CommitKeepsSound(s.db, tx);
    BindingsStay(s.db, tx);
    forall i | 0 <= i < |s.procs| ensures Knows(s', s'.procs[i]) { KnowsStays(s, s', s.procs[i]); }
  }

  /** A step that changes the tables without binding anything. */
  lemma TableStepKeepsGood(s: Sys, pid: nat, tx: Tx, p': Proc)
    requires Good(s) && pid < |s.procs| && !tx.ActivateTx?
    requires Knows(s.(db := Commit(s.db, tx)), p')
    requires forall i | 0 <= i < |s.procs| && i != pid :: HoldDifferent(p', s.procs[i]) && HoldDifferent(s.procs[i], p')
    ensures Good(s.(db := Commit(s.db, tx), procs := s.procs[pid := p']))
  {
    var s' := s.(db := Commit(s.db, tx), procs := s.procs[pid := p']);
    CommitKeepsSound(s.db, tx);
    BindingsStay(s.db, tx);
    Replaced(s.procs, pid, p');
    forall i | 0 <= i < |s'.procs| ensures Knows(s', s'.procs[i]) {
      if i != pid { KnowsStays(s, s', s.procs[i]); }
    }
  }

  lemma HoldingLess(s: Sys, pid: nat, p': Proc)
    requires Good(s) && pid < |s.procs|
    requires HeldSession(p').None? || HeldSession(p') == HeldSession(s.procs[pid])
    requires HeldInstance(p').None? || HeldInstance(p') == HeldInstance(s.procs[pid])
    ensures forall i | 0 <= i < |s.procs| && i != pid :: HoldDifferent(p', s.procs[i]) && HoldDifferent(s.procs[i], p')
  {
    forall i | 0 <= i < |s.procs| && i != pid
      ensures HoldDifferent(p', s.procs[i]) && HoldDifferent(s.procs[i], p')
    {
      if i < pid { assert HoldDifferent(s.procs[i], s.procs[pid]); } else { assert HoldDifferent(s.procs[pid], s.procs[i]); }
    }
  }

  lemma BeginKeepsGood(s: Sys, a: Action)
    requires Good(s) && Enabled(s, a) && a.Move? && s.procs[a.pid].StartBegin?
    ensures Good(Do(s, a))
  {
    var input, p' := s.procs[a.pid].input, Advance(s, s.procs[a.pid], a).1;
    if a.outcome == Fine {
      var tx := StartTx(input, a.now);
      LiveOfFinds(s.db.sessions, input.user);
      if p' == Done {
        HoldingLess(s, a.pid, p');
      } else {
        forall i | 0 <= i < |s.procs| && i != a.pid
          ensures HoldDifferent(p', s.procs[i]) && HoldDifferent(s.procs[i], p')
        {
          assert Knows(s, s.procs[i]);
        }
      }
      TableStepKeepsGood(s, a.pid, tx, p');
    } else {
      HoldingLess(s, a.pid, p');
      Replaced(s.procs, a.pid, p');
      StillKnow(s, Do(s, a), a.pid);
    }
  }

  /** The other handlers keep their knowledge when tables and cloud stay as they are. */
  lemma StillKnow(s: Sys, s': Sys, pid: nat)
    requires Good(s) && pid < |s.procs| && s'.db == s.db && s'.running == s.running
    requires |s'.procs| == |s.procs| && forall i | 0 <= i < |s.procs| && i != pid :: s'.procs[i] == s.procs[i]
    ensures forall i | 0 <= i < |s.procs| && i != pid :: Knows(s', s'.procs[i])
  {
    forall i | 0 <= i < |s.procs| && i != pid ensures Knows(s', s'.procs[i]) { assert Knows(s, s.procs[i]); }
  }

  lemma ProvisionKeepsGood(s: Sys, a: Action)
    requires Good(s) && Enabled(s, a) && a.Move? && s.procs[a.pid].StartProvision?
    ensures Good(Do(s, a))
  {
    var s', p' := Do(s, a), Advance(s, s.procs[a.pid], a).1;
    assert Knows(s, s.procs[a.pid]);
    forall i | 0 <= i < |s.procs| && i != a.pid
      ensures HoldDifferent(p', s.procs[i]) && HoldDifferent(s.procs[i], p') && Knows(s', s.procs[i])
    {
      assert Knows(s, s.procs[i]);
      if i < a.pid { assert HoldDifferent(s.procs[i], s.procs[a.pid]); } else { assert HoldDifferent(s.procs[a.pid], s.procs[i]); }
    }
    Replaced(s.procs, a.pid, p');
    assert Knows(s', p');
  }

  lemma ActivateKeepsGood(s: Sys, a: Action)
    requires Good(s) && Enabled(s, a) && a.Move? && s.procs[a.pid].StartActivate?
    ensures Good(Do(s, a))
  {
    var s', p, p' := Do(s, a), s.procs[a.pid], Advance(s, s.procs[a.pid], a).1;
    HoldingLess(s, a.pid, p');
    Replaced(s.procs, a.pid, p');
    assert Knows(s, p);
    if p' == Done {
      ActivateKeepsSound(s.db, p.user, p.id, Launched(p.instance, a.pairToken, a.wsToken));
      forall i | 0 <= i < |s.procs| && i != a.pid ensures Knows(s', s'.procs[i]) {
        OthersKnowAfterActivate(s, s', a.pid, i, a.pairToken, a.wsToken);
      }
    } else {
      StillKnow(s, s', a.pid);
    }
  }

  lemma OthersKnowAfterActivate(s: Sys, s': Sys, pid: nat, i: nat, pairToken: string, wsToken: string)
    requires Good(s) && pid < |s.procs| && i < |s.procs| && i != pid && s.procs[pid].StartActivate?
    requires var p := s.procs[pid];
      CanActivate(s.db, p.user, p.id, p.instance)
      && s'.db == Activate(s.db, p.user, p.id, Launched(p.instance, pairToken, wsToken)) && s'.running == s.running
    ensures Knows(s', s.procs[i])
  {
    var p, q := s.procs[pid], s.procs[i];
    assert Knows(s, p) && Knows(s, q);
    if i < pid { assert HoldDifferent(q, p); } else { assert HoldDifferent(p, q); }
  }

  lemma DeprovisionKeepsGood(s: Sys, a: Action)
    requires Good(s) && Enabled(s, a) && a.Move? && (s.procs[a.pid].UndoInstance? || s.procs[a.pid].StopInstance?)
    ensures Good(Do(s, a))
  {
    var s', p, p' := Do(s, a), s.procs[a.pid], Advance(s, s.procs[a.pid], a).1;
    HoldingLess(s, a.pid, p');
    Replaced(s.procs, a.pid, p');
    assert Knows(s, p);
    forall i | 0 <= i < |s.procs| && i != a.pid ensures Knows(s', s'.procs[i]) {
      var q := s.procs[i];
      assert Knows(s, q);
      if i < a.pid { assert HoldDifferent(q, p); } else { assert HoldDifferent(p, q); }
    }
  }

  lemma LastStepKeepsGood(s: Sys, a: Action)
    requires Good(s) && Enabled(s, a) && a.Move?
    requires var p := s.procs[a.pid]; p.UndoSession? || p.StopBegin? || p.StopFinish?
    ensures Good(Do(s, a))
  {
    var s', p, p' := Do(s, a), s.procs[a.pid], Advance(s, s.procs[a.pid], a).1;
    HoldingLess(s, a.pid, p');
    if !p.StopBegin? && a.outcome == Fine {
      TableStepKeepsGood(s, a.pid, StopTx(p.user, p.id, a.now), p');
    } else {
      Replaced(s.procs, a.pid, p');
      StillKnow(s, s', a.pid);
    }
  }

  lemma DoKeepsGood(s: Sys, a: Action)
    requires Good(s) && Enabled(s, a)
    ensures Good(Do(s, a))
  {
    match a
    case Spawn(p) => SpawnKeepsGood(s, p);
    case Job(tx) => JobKeepsGood(s, tx);
    case Move(pid, _, _, _, _) =>
      match s.procs[pid]
      case StartBegin(_) => BeginKeepsGood(s, a);
      case StartProvision(_, _) => ProvisionKeepsGood(s, a);
      case StartActivate(_, _, _) => ActivateKeepsGood(s, a);
      case UndoInstance(_, _, _) => DeprovisionKeepsGood(s, a);
      case StopInstance(_, _, _) => DeprovisionKeepsGood(s, a);
      case _ => LastStepKeepsGood(s, a);
  }
}
