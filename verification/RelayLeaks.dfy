/** No relay instance is left running unless a step does exactly one of three things. */
module RelayLeaks {
  import opened Options
  import opened RelayStore
  import opened RelaySaga

  // ----- Covered instances -----

  /** Some start handler in flight is responsible for the instance. */
  ghost predicate HeldIn(procs: seq<Proc>, instance: nat) {
    exists i :: 0 <= i < |procs| && HeldInstance(procs[i]) == Some(instance)
  }

  /** The instance belongs to an active session. */
  ghost predicate Serves(t: Tables, instance: nat) {
    exists i :: 0 <= i < |t.sessions| && t.sessions[i].Serving() && BoundTo(t, i, instance)
  }

  ghost predicate NoLeak(s: Sys) {
    forall instance | instance in s.running :: HeldIn(s.procs, instance) || Serves(s.db, instance)
  }

  /** A cloud call that fails and leaves an instance running, or a stop handler that saw no instance when it read the
      session, and now stops it while its instance runs. */
  predicate Leaks(s: Sys, a: Action)
    requires Enabled(s, a)
  {
    a.Move? &&
    match s.procs[a.pid]
    case StartProvision(_, _) => a.outcome == FailsRunning
    case UndoInstance(_, _, _) => a.outcome != Fine
    case StopFinish(user, id, seen) =>
      && a.outcome == Fine && seen.None? && Owns(s.db, user, id) && s.db.sessions[id].Serving()
      && InstanceOf(s.db, s.db.sessions[id]).Some? && InstanceOf(s.db, s.db.sessions[id]).value in s.running
    case _ => false
  }

  lemma HeldStays(procs: seq<Proc>, pid: nat, p': Proc, instance: nat)
    requires pid < |procs| && HeldIn(procs, instance)
    requires HeldInstance(procs[pid]) == Some(instance) ==> HeldInstance(p') == Some(instance)
    ensures HeldIn(procs[pid := p'], instance)
  {
    var i :| 0 <= i < |procs| && HeldInstance(procs[i]) == Some(instance);
    assert HeldInstance(procs[pid := p'][i]) == Some(instance);
  }

  lemma ServesStays(t: Tables, tx: Tx, instance: nat)
    requires Serves(t, instance) && !tx.ActivateTx? && !tx.StopTx?
    ensures Serves(Commit(t, tx), instance)
  {
    var i :| 0 <= i < |t.sessions| && t.sessions[i].Serving() && BoundTo(t, i, instance);
    var t' := Commit(t, tx);
    BindingsStay(t, tx);
    assert t'.sessions[i].Serving() && BoundTo(t', i, instance);
  }

  lemma ServesAfterActivate(t: Tables, user: string, id: nat, l: Launched, instance: nat)
    requires CanActivate(t, user, id, l.instance) && (Serves(t, instance) || instance == l.instance)
    ensures Serves(Activate(t, user, id, l), instance)
  {
    var t' := Activate(t, user, id, l);
    if instance == l.instance {
      assert t'.sessions[id].Serving() && BoundTo(t', id, instance);
    } else {
      var i :| 0 <= i < |t.sessions| && t.sessions[i].Serving() && BoundTo(t, i, instance);
      assert t'.sessions[i].Serving() && BoundTo(t', i, instance);
    }
  }

  lemma ServesOthersAfterStop(t: Tables, user: string, id: nat, now: int, instance: nat)
    requires Serves(t, instance) && !(Owns(t, user, id) && BoundTo(t, id, instance))
    ensures Serves(Stop(t, user, id, now), instance)
  {
    var t' := Stop(t, user, id, now);
    var i :| 0 <= i < |t.sessions| && t.sessions[i].Serving() && BoundTo(t, i, instance);
    BindingsStay(t, StopTx(user, id, now));
    assert t'.sessions[i].Serving() && BoundTo(t', i, instance);
  }

  lemma ServedBeforeStop(t: Tables, user: string, id: nat, now: int, instance: nat)
    requires Sound(t) && Serves(Stop(t, user, id, now), instance)
    ensures Serves(t, instance) && !(Owns(t, user, id) && BoundTo(t, id, instance))
  {
    var t' := Stop(t, user, id, now);
    BindingsStay(t, StopTx(user, id, now));
    var i :| 0 <= i < |t'.sessions| && t'.sessions[i].Serving() && BoundTo(t', i, instance);
    assert t.sessions[i].Serving() && BoundTo(t, i, instance);
    if i != id && id < |t.sessions| { BoundOnce(t, i, id, instance); }
  }

  /** Stopping a session takes its own instance out of service, and no other. */
  lemma ServesAfterStop(t: Tables, user: string, id: nat, now: int, instance: nat)
    requires Sound(t)
    ensures Serves(Stop(t, user, id, now), instance) <==>
      Serves(t, instance) && !(Owns(t, user, id) && BoundTo(t, id, instance))
  {
    if Serves(t, instance) && !(Owns(t, user, id) && BoundTo(t, id, instance)) {
      ServesOthersAfterStop(t, user, id, now, instance);
    }
    if Serves(Stop(t, user, id, now), instance) {
      ServedBeforeStop(t, user, id, now, instance);
    }
  }

  lemma BoundOnce(t: Tables, i: nat, j: nat, instance: nat)
    requires Sound(t) && i < |t.sessions| && j < |t.sessions| && i != j && BoundTo(t, i, instance)
    ensures !BoundTo(t, j, instance)
  {
    assert RowOk(t, i) && RowOk(t, j);
  }

  lemma NotServed(t: Tables, instance: nat)
    requires NoRelayHas(t, instance)
    ensures !Serves(t, instance)
  {
  }

  // ----- One step -----

  lemma CloudStaysLeak(s: Sys, a: Action, tx: Tx)
    requires Good(s) && NoLeak(s) && Enabled(s, a) && a.Move? && !tx.ActivateTx? && !tx.StopTx?
    requires HeldInstance(s.procs[a.pid]).None?
    requires Do(s, a).running <= s.running && (Do(s, a).db == s.db || Do(s, a).db == Commit(s.db, tx))
    ensures NoLeak(Do(s, a))
  {
    var s' := Do(s, a);
    forall instance | instance in s'.running
      ensures HeldIn(s'.procs, instance) || Serves(s'.db, instance)
    {
      if HeldIn(s.procs, instance) { HeldStays(s.procs, a.pid, s'.procs[a.pid], instance); } else { ServesStays(s.db, tx, instance); }
    }
  }

  lemma ProvisionLeak(s: Sys, a: Action)
    requires Good(s) && NoLeak(s) && Enabled(s, a) && a.Move? && s.procs[a.pid].StartProvision?
    ensures NoLeak(Do(s, a)) <==> !Leaks(s, a)
  {
    var s' := Do(s, a);
    forall instance | instance in s'.running && instance != s.next
      ensures HeldIn(s'.procs, instance) || Serves(s'.db, instance)
    {
      if HeldIn(s.procs, instance) { HeldStays(s.procs, a.pid, s'.procs[a.pid], instance); }
    }
    if a.outcome == Fine {
      assert HeldInstance(s'.procs[a.pid]) == Some(s.next);
    } else {
      forall i | 0 <= i < |s'.procs| ensures HeldInstance(s'.procs[i]) != Some(s.next) {
        if i != a.pid { assert Knows(s, s.procs[i]); }
      }
      NotServed(s.db, s.next);
    }
  }

  lemma ActivateLeak(s: Sys, a: Action)
    requires Good(s) && NoLeak(s) && Enabled(s, a) && a.Move? && s.procs[a.pid].StartActivate?
    ensures NoLeak(Do(s, a))
  {
    var s', p := Do(s, a), s.procs[a.pid];
    forall instance | instance in s'.running
      ensures HeldIn(s'.procs, instance) || Serves(s'.db, instance)
    {
      if s'.procs[a.pid] == Done {
        if instance == p.instance || Serves(s.db, instance) {
          ServesAfterActivate(s.db, p.user, p.id, Launched(p.instance, a.pairToken, a.wsToken), instance);
        } else {
          HeldStays(s.procs, a.pid, Done, instance);
        }
      } else if HeldIn(s.procs, instance) {
        HeldStays(s.procs, a.pid, s'.procs[a.pid], instance);
      }
    }
  }

  lemma UndoLeak(s: Sys, a: Action)
    requires Good(s) && NoLeak(s) && Enabled(s, a) && a.Move? && s.procs[a.pid].UndoInstance?
    ensures NoLeak(Do(s, a)) <==> !Leaks(s, a)
  {
    var s', p := Do(s, a), s.procs[a.pid];
    assert Knows(s, p);
    forall instance | instance in s'.running && instance != p.instance
      ensures HeldIn(s'.procs, instance) || Serves(s'.db, instance)
    {
      if HeldIn(s.procs, instance) { HeldStays(s.procs, a.pid, s'.procs[a.pid], instance); }
    }
    forall i | 0 <= i < |s'.procs| ensures HeldInstance(s'.procs[i]) != Some(p.instance) {
      if i < a.pid { assert HoldDifferent(s.procs[i], p); }
      if i > a.pid { assert HoldDifferent(p, s.procs[i]); }
    }
    NotServed(s.db, p.instance);
  }

  lemma StopLeak(s: Sys, a: Action)
    requires Good(s) && NoLeak(s) && Enabled(s, a) && a.Move? && (s.procs[a.pid].StopFinish? || s.procs[a.pid].UndoSession?)
    requires a.outcome == Fine
    ensures NoLeak(Do(s, a)) <==> !Leaks(s, a)
  {
    var s', p := Do(s, a), s.procs[a.pid];
    assert Knows(s, p);
    forall instance | instance in s.running
      ensures HeldIn(s'.procs, instance) <==> HeldIn(s.procs, instance)
      ensures Serves(s'.db, instance) <==> Serves(s.db, instance) && !(Owns(s.db, p.user, p.id) && BoundTo(s.db, p.id, instance))
    {
      if HeldIn(s.procs, instance) { HeldStays(s.procs, a.pid, s'.procs[a.pid], instance); }
      ServesAfterStop(s.db, p.user, p.id, a.now, instance);
    }
    if Leaks(s, a) {
      var instance := InstanceOf(s.db, s.db.sessions[p.id]).value;
      forall i | 0 <= i < |s.procs| ensures HeldInstance(s.procs[i]) != Some(instance) { assert Knows(s, s.procs[i]); }
      assert RowOk(s.db, p.id);
      assert BoundTo(s.db, p.id, instance);
      assert instance in s'.running && !HeldIn(s'.procs, instance) && !Serves(s'.db, instance);
    } else {
      forall instance | instance in s'.running
        ensures HeldIn(s'.procs, instance) || Serves(s'.db, instance)
      {
        if Owns(s.db, p.user, p.id) && BoundTo(s.db, p.id, instance) {
          BoundNotServing(s, p, instance);
        }
      }
    }
  }

  lemma BoundNotServing(s: Sys, p: Proc, instance: nat)
    requires Good(s) && Knows(s, p) && (p.StopFinish? || p.UndoSession?)
    requires Owns(s.db, p.user, p.id) && BoundTo(s.db, p.id, instance) && instance in s.running
    requires p.StopFinish? && p.seen.None? ==> !s.db.sessions[p.id].Serving()
    ensures !Serves(s.db, instance)
  {
    if Serves(s.db, instance) {
      var i :| 0 <= i < |s.db.sessions| && s.db.sessions[i].Serving() && BoundTo(s.db, i, instance);
      if i != p.id { BoundOnce(s.db, i, p.id, instance); }
    }
  }

  /** From a state without leaks, a step leaks an instance if and only if it is one of the three. */
  lemma StepLeaksExactly(s: Sys, a: Action)
    requires Good(s) && NoLeak(s) && Enabled(s, a)
    ensures NoLeak(Do(s, a)) <==> !Leaks(s, a)
  {
    var s' := Do(s, a);
    match a
    case Spawn(p) =>
      forall instance | instance in s'.running ensures HeldIn(s'.procs, instance) || Serves(s'.db, instance) {
        if HeldIn(s.procs, instance) {
          var i :| 0 <= i < |s.procs| && HeldInstance(s.procs[i]) == Some(instance);
          assert HeldInstance(s'.procs[i]) == Some(instance);
        }
      }
    case Job(tx) =>
      forall instance | instance in s'.running ensures HeldIn(s'.procs, instance) || Serves(s'.db, instance) {
        if !HeldIn(s.procs, instance) { ServesStays(s.db, tx, instance); }
      }
    case Move(pid, outcome, now, _, _) =>
      match s.procs[pid]
      case StartBegin(input) => CloudStaysLeak(s, a, StartTx(input, now));
      case StartProvision(_, _) => ProvisionLeak(s, a);
      case StartActivate(_, _, _) => ActivateLeak(s, a);
      case UndoInstance(_, _, _) => UndoLeak(s, a);
      case StopInstance(_, _, _) => CloudStaysLeak(s, a, ReconcileTx);
      case StopBegin(_, _) => CloudStaysLeak(s, a, ReconcileTx);
      case _ => if outcome == Fine { StopLeak(s, a); } else { CloudStaysLeak(s, a, ReconcileTx); }
  }

  // ----- Whole runs -----

  lemma {:induction false} RunIsGood(states: seq<Sys>, actions: seq<Action>, n: nat)
    requires IsRun(states, actions) && n <= |actions|
    ensures Good(states[n])
  {
    if n > 0 {
      RunIsGood(states, actions, n - 1);
      DoKeepsGood(states[n - 1], actions[n - 1]);
    }
  }

  lemma {:induction false} NoLeakUpTo(states: seq<Sys>, actions: seq<Action>, n: nat)
    requires IsRun(states, actions) && n <= |actions|
    requires forall i | 0 <= i < n :: !Leaks(states[i], actions[i])
    ensures NoLeak(states[n])
  {
    if n > 0 {
      NoLeakUpTo(states, actions, n - 1);
      RunIsGood(states, actions, n - 1);
      StepLeaksExactly(states[n - 1], actions[n - 1]);
    }
  }

  /** Over every interleaving: no state has a leak if and only if no step is one of the three. */
  lemma RunsLeakExactly(states: seq<Sys>, actions: seq<Action>)
    requires IsRun(states, actions)
    ensures (forall n | 0 <= n <= |actions| :: NoLeak(states[n])) <==>
      (forall n | 0 <= n < |actions| :: !Leaks(states[n], actions[n]))
  {
    if forall n | 0 <= n < |actions| :: !Leaks(states[n], actions[n]) {
      forall n | 0 <= n <= |actions| ensures NoLeak(states[n]) { NoLeakUpTo(states, actions, n); }
    }
    if forall n | 0 <= n <= |actions| :: NoLeak(states[n]) {
      forall n | 0 <= n < |actions| ensures !Leaks(states[n], actions[n]) {
        RunIsGood(states, actions, n);
        assert NoLeak(states[n]) && NoLeak(states[n + 1]);
        StepLeaksExactly(states[n], actions[n]);
      }
    }
  }

  /** Then every running instance that no start handler in flight holds belongs to an active session. */
  lemma NoLeakedRelay(states: seq<Sys>, actions: seq<Action>, instance: nat) returns (id: nat)
    requires IsRun(states, actions)
    requires forall n | 0 <= n < |actions| :: !Leaks(states[n], actions[n])
    requires var s := states[|actions|]; instance in s.running && !HeldIn(s.procs, instance)
    ensures var t := states[|actions|].db; id < |t.sessions| && t.sessions[id].Serving() && BoundTo(t, id, instance)
  {
    NoLeakUpTo(states, actions, |actions|);
    var t := states[|actions|].db;
    id :| id < |t.sessions| && t.sessions[id].Serving() && BoundTo(t, id, instance);
  }

  // ----- The stale stop -----

  /** A stop handler that saw no instance read the session while it was provisioning or stopped. */
  lemma {:induction false} ReadEarlier(states: seq<Sys>, actions: seq<Action>, n: nat, pid: nat, user: string, id: nat)
    returns (m: nat)
    requires IsRun(states, actions) && n <= |actions|
    requires pid < |states[n].procs| && states[n].procs[pid] == StopFinish(user, id, None)
    ensures m < n && pid < |states[m].procs| && actions[m].Move? && actions[m].pid == pid
    ensures states[m].procs[pid] == StopBegin(user, id) && Owns(states[m].db, user, id)
    ensures states[m].db.sessions[id].status == Stopped || InstanceOf(states[m].db, states[m].db.sessions[id]).None?
  {
    var before := states[n - 1];
    assert states[n] == Do(before, actions[n - 1]);
    if pid < |before.procs| && before.procs[pid] == states[n].procs[pid] {
      m := ReadEarlier(states, actions, n - 1, pid, user, id);
    } else {
      m := n - 1;
    }
  }

  lemma RunStepGrows(states: seq<Sys>, actions: seq<Action>, n: nat)
    requires IsRun(states, actions) && 0 < n <= |actions|
    ensures Grows(states[n - 1].db, states[n].db)
  {
    RunIsGood(states, actions, n - 1);
    StepGrows(states[n - 1], actions[n - 1]);
  }

  lemma {:induction false} TablesGrow(states: seq<Sys>, actions: seq<Action>, m: nat, n: nat)
    requires IsRun(states, actions) && m <= n <= |actions|
    ensures Grows(states[m].db, states[n].db)
  {
    if m < n {
      var a, b, c := states[m].db, states[n - 1].db, states[n].db;
      assert Grows(a, b) by { TablesGrow(states, actions, m, n - 1); }
      assert Grows(b, c) by { RunStepGrows(states, actions, n); }
      GrowsTransitive(a, b, c);
    }
  }

  lemma StepGrows(s: Sys, a: Action)
    requires Good(s) && Enabled(s, a)
    ensures Grows(s.db, Do(s, a).db)
  {
    var tx := StepCommits(s, a);
    if Do(s, a).db != s.db { CommitGrows(s.db, tx); }
  }

  /** A step changes the tables by one transaction, if at all. */
  lemma StepCommits(s: Sys, a: Action) returns (tx: Tx)
    requires Enabled(s, a)
    ensures Do(s, a).db == s.db || Do(s, a).db == Commit(s.db, tx)
  {
    tx := ReconcileTx;
    if a.Job? {
      tx := a.tx;
    } else if a.Move? {
      match s.procs[a.pid]
      case StartBegin(input) => tx := StartTx(input, a.now);
      case StartActivate(user, id, instance) => tx := ActivateTx(user, id, Launched(instance, a.pairToken, a.wsToken));
      case UndoSession(user, id) => tx := StopTx(user, id, a.now);
      case StopFinish(user, id, _) => tx := StopTx(user, id, a.now);
      case _ =>
    }
  }

  /** A stop that leaks has its session activated between its read, which saw it provisioning, and its StopSession. */
  lemma LeakingStopIsStale(states: seq<Sys>, actions: seq<Action>, n: nat) returns (m: nat)
    requires IsRun(states, actions) && n < |actions| && Leaks(states[n], actions[n])
    requires states[n].procs[actions[n].pid].StopFinish?
    ensures m < n && actions[m].Move? && actions[m].pid == actions[n].pid
    ensures actions[m].pid < |states[m].procs| && states[m].procs[actions[m].pid].StopBegin?
    ensures var id := states[n].procs[actions[n].pid].id;
      && id < |states[m].db.sessions| && states[m].db.sessions[id].status == Provisioning
      && id < |states[n].db.sessions| && states[n].db.sessions[id].Serving()
  {
    var p := states[n].procs[actions[n].pid];
    m := ReadEarlier(states, actions, n, actions[n].pid, p.user, p.id);
    TablesGrow(states, actions, m, n);
    RunIsGood(states, actions, m);
    assert RowGrows(states[m].db.sessions[p.id], states[n].db.sessions[p.id]);
    assert RowOk(states[m].db, p.id);
  }

  /** Such a run exists, with every call succeeding: the session ends stopped and its instance runs on. */
  lemma StaleStopLeaks() returns (states: seq<Sys>, actions: seq<Action>)
    ensures IsRun(states, actions)
    ensures forall a | a in actions && a.Move? :: a.outcome == Fine
    ensures var s := states[|actions|];
      && (forall p | p in s.procs :: p == Done) && |s.db.sessions| == 1 && s.db.sessions[0].status == Stopped
      && 0 in s.running && !NoLeak(s)
  {
    states, actions := StaleRead();
    var s4 := states[4];
    var start, stop := Move(0, Fine, 0, "", ""), Move(1, Fine, 0, "", "");
    var s5 := Do(s4, start);
    var s6 := Do(s5, start);
    var s7 := Do(s6, stop);
    assert s6.procs == [Done, StopFinish("u", 0, None)] && s6.running == {0} && s6.db.sessions[0].status == Active;
    assert s7.procs == [Done, Done] && s7.running == {0} && s7.db.sessions[0].status == Stopped;
    assert !HeldIn(s7.procs, 0) && !Serves(s7.db, 0);
    states, actions := states + [s5, s6, s7], actions + [start, start, stop];
  }

  /** A start handler creates a session and a stop handler reads it. */
  lemma StaleRead() returns (states: seq<Sys>, actions: seq<Action>)
    ensures |actions| == 4 && IsRun(states, actions)
    ensures forall a | a in actions && a.Move? :: a.outcome == Fine
    ensures var s := states[4];
      && s.procs == [StartProvision("u", 0), StopFinish("u", 0, None)] && s.running == {} && s.next == 0
      && s.db.relays == [] && |s.db.sessions| == 1
      && s.db.sessions[0].user == "u" && s.db.sessions[0].status == Provisioning && s.db.sessions[0].relay == None
  {
    var input := StartInput("u", "r", "k", "h");
    actions := [Spawn(StartBegin(input)), Move(0, Fine, 0, "", ""), Spawn(StopBegin("u", 0)), Move(1, Fine, 0, "", "")];
    var s1 := Do(START, actions[0]);
    var s2 := Do(s1, actions[1]);
    assert s2.procs == [StartProvision("u", 0)];
    var s3 := Do(s2, actions[2]);
    var s4 := Do(s3, actions[3]);
    states := [START, s1, s2, s3, s4];
  }

  // ----- One Provision per session -----

  ghost predicate ToProvision(procs: seq<Proc>, id: nat) {
    exists i :: 0 <= i < |procs| && procs[i].StartProvision? && procs[i].id == id
  }

  /** Provision was called once for every session, except the ones a handler is about to call it for. */
  ghost predicate ProvisionedOnce(s: Sys) {
    && (forall i, j | 0 <= i < j < |s.provisioned| :: s.provisioned[i] != s.provisioned[j])
    && (forall id | id in s.provisioned :: id < |s.db.sessions|)
    && (forall id | 0 <= id < |s.db.sessions| :: id in s.provisioned <==> !ToProvision(s.procs, id))
  }

  lemma ToProvisionAfter(procs: seq<Proc>, pid: nat, p': Proc, id: nat)
    requires pid < |procs|
    ensures ToProvision(procs[pid := p'], id) ==> ToProvision(procs, id) || (p'.StartProvision? && p'.id == id)
    ensures ToProvision(procs, id) && !(procs[pid].StartProvision? && procs[pid].id == id) ==> ToProvision(procs[pid := p'], id)
    ensures p'.StartProvision? && p'.id == id ==> ToProvision(procs[pid := p'], id)
  {
    var procs' := procs[pid := p'];
    if ToProvision(procs, id) && !(procs[pid].StartProvision? && procs[pid].id == id) {
      var i :| 0 <= i < |procs| && procs[i].StartProvision? && procs[i].id == id;
      assert procs'[i] == procs[i];
    }
    assert procs'[pid] == p';
  }

  lemma MoveProvisions(s: Sys, a: Action)
    requires Good(s) && ProvisionedOnce(s) && Enabled(s, a) && a.Move?
    ensures ProvisionedOnce(Do(s, a))
  {
    var s', p := Do(s, a), s.procs[a.pid];
    var p' := s'.procs[a.pid];
    assert Knows(s, p);
    if p.StartBegin? { LiveOfFinds(s.db.sessions, p.input.user); }
    assert |s'.db.sessions| == |s.db.sessions| + (if p'.StartProvision? then 1 else 0);
    forall id | 0 <= id < |s'.db.sessions|
      ensures id in s'.provisioned <==> !ToProvision(s'.procs, id)
    {
      ToProvisionAfter(s.procs, a.pid, p', id);
      if p.StartProvision? && p.id == id { GoneOnce(s, a.pid, p'); }
      if id == |s.db.sessions| { assert ToProvision(s'.procs, id); }
    }
    if p.StartProvision? {
      assert ToProvision(s.procs, p.id);
    }
  }

  lemma GoneOnce(s: Sys, pid: nat, p': Proc)
    requires Good(s) && pid < |s.procs| && s.procs[pid].StartProvision? && !p'.StartProvision?
    ensures !ToProvision(s.procs[pid := p'], s.procs[pid].id)
  {
    var id, procs' := s.procs[pid].id, s.procs[pid := p'];
    forall i | 0 <= i < |procs'| && procs'[i].StartProvision? ensures procs'[i].id != id {
      if i < pid { assert HoldDifferent(s.procs[i], s.procs[pid]); } else { assert HoldDifferent(s.procs[pid], s.procs[i]); }
    }
  }

  lemma {:induction false} ProvisionIsCalledOnce(states: seq<Sys>, actions: seq<Action>, n: nat)
    requires IsRun(states, actions) && n <= |actions|
    ensures ProvisionedOnce(states[n])
  {
    if n > 0 {
      ProvisionIsCalledOnce(states, actions, n - 1);
      RunIsGood(states, actions, n - 1);
      var s, a := states[n - 1], actions[n - 1];
      match a
      case Move(_, _, _, _, _) => MoveProvisions(s, a);
      case Spawn(p) =>
        forall id | 0 <= id < |s.db.sessions| ensures ToProvision(s.procs + [p], id) <==> ToProvision(s.procs, id) {
          if ToProvision(s.procs, id) {
            var i :| 0 <= i < |s.procs| && s.procs[i].StartProvision? && s.procs[i].id == id;
            assert (s.procs + [p])[i] == s.procs[i];
          }
        }
      case Job(tx) => BindingsStay(s.db, tx);
    }
  }
}
