/** A session that is being provisioned has a start handler at work on it, unless a step does exactly one thing; from then
    on it is all that its user gets. */
module RelayStranded {
  import opened Options
  import opened RelayStore
  import opened RelaySaga
  import opened RelayLeaks

  // ----- Attended sessions -----

  /** Some start handler in flight is responsible for the session. */
  ghost predicate AttendedBy(procs: seq<Proc>, id: nat) {
    exists i :: 0 <= i < |procs| && HeldSession(procs[i]) == Some(id)
  }

  predicate Waits(t: Tables, id: nat) { id < |t.sessions| && t.sessions[id].status == Provisioning }

  ghost predicate NoneStranded(s: Sys) { forall id: nat | Waits(s.db, id) :: AttendedBy(s.procs, id) }

  /** A start handler that would stop the session it could not launch does not get to. */
  predicate Strands(s: Sys, a: Action)
    requires Enabled(s, a)
  {
    a.Move? && s.procs[a.pid].UndoSession? && a.outcome != Fine && Waits(s.db, s.procs[a.pid].id)
  }

  lemma AttendedStays(procs: seq<Proc>, pid: nat, p': Proc, id: nat)
    requires pid < |procs| && AttendedBy(procs, id)
    requires HeldSession(procs[pid]) == Some(id) ==> HeldSession(p') == Some(id)
    ensures AttendedBy(procs[pid := p'], id)
  {
    var i :| 0 <= i < |procs| && HeldSession(procs[i]) == Some(id);
    assert HeldSession(procs[pid := p'][i]) == Some(id);
  }

  lemma NotAttended(procs: seq<Proc>, pid: nat, p': Proc, id: nat)
    requires pid < |procs| && HeldSession(p') != Some(id)
    requires forall i | 0 <= i < |procs| && i != pid :: HeldSession(procs[i]) != Some(id)
    ensures !AttendedBy(procs[pid := p'], id)
  {
  }

  /** What a step does to the sessions: none is lost, a new one is held by its start handler, and a session leaves
      provisioning by activation and by stop only. */
  lemma WaitsAfter(s: Sys, a: Action, id: nat)
    requires Good(s) && Enabled(s, a) && Waits(Do(s, a).db, id)
    ensures Waits(s.db, id) ||
      (a.Move? && s.procs[a.pid].StartBegin? && id == |s.db.sessions| && HeldSession(Do(s, a).procs[a.pid]) == Some(id))
  {
    if a.Move? && s.procs[a.pid].StartBegin? {
      LiveOfFinds(s.db.sessions, s.procs[a.pid].input.user);
    }
  }

  /** A handler gives up a session that still waits in that one case only. */
  lemma GivenUp(s: Sys, a: Action, id: nat)
    requires Good(s) && Enabled(s, a) && a.Move? && HeldSession(s.procs[a.pid]) == Some(id)
    requires Waits(Do(s, a).db, id)
    ensures HeldSession(Do(s, a).procs[a.pid]) == Some(id) <==> !(s.procs[a.pid].UndoSession? && a.outcome != Fine)
    ensures Waits(s.db, id)
  {
    assert Knows(s, s.procs[a.pid]);
    WaitsAfter(s, a, id);
  }

  // ----- One step -----

  lemma MoveStrands(s: Sys, a: Action)
    requires Good(s) && NoneStranded(s) && Enabled(s, a) && a.Move? && Strands(s, a)
    ensures !NoneStranded(Do(s, a))
  {
    var s', id := Do(s, a), s.procs[a.pid].id;
    forall i | 0 <= i < |s.procs| && i != a.pid ensures HeldSession(s.procs[i]) != Some(id) {
      if i < a.pid { assert HoldDifferent(s.procs[i], s.procs[a.pid]); } else { assert HoldDifferent(s.procs[a.pid], s.procs[i]); }
    }
    NotAttended(s.procs, a.pid, Done, id);
    assert Waits(s'.db, id) && !AttendedBy(s'.procs, id);
  }

  lemma MoveAttends(s: Sys, a: Action, id: nat)
    requires Good(s) && NoneStranded(s) && Enabled(s, a) && a.Move? && !Strands(s, a) && Waits(Do(s, a).db, id)
    ensures AttendedBy(Do(s, a).procs, id)
  {
    var s' := Do(s, a);
    WaitsAfter(s, a, id);
    if HeldSession(s'.procs[a.pid]) != Some(id) {
      if HeldSession(s.procs[a.pid]) == Some(id) { GivenUp(s, a, id); }
      AttendedStays(s.procs, a.pid, s'.procs[a.pid], id);
    }
  }

  /** From a state with every provisioning session attended, a step strands one if and only if it is that step. */
  lemma StepStrandsExactly(s: Sys, a: Action)
    requires Good(s) && NoneStranded(s) && Enabled(s, a)
    ensures NoneStranded(Do(s, a)) <==> !Strands(s, a)
  {
    var s' := Do(s, a);
    if a.Move? && Strands(s, a) {
      MoveStrands(s, a);
    } else {
      forall id: nat | Waits(s'.db, id) ensures AttendedBy(s'.procs, id) {
        if a.Move? {
          MoveAttends(s, a, id);
        } else {
          WaitsAfter(s, a, id);
          var i :| 0 <= i < |s.procs| && HeldSession(s.procs[i]) == Some(id);
          assert HeldSession(s'.procs[i]) == Some(id);
        }
      }
    }
  }

  // ----- Whole runs -----

  lemma {:induction false} NoneStrandedUpTo(states: seq<Sys>, actions: seq<Action>, n: nat)
    requires IsRun(states, actions) && n <= |actions|
    requires forall i | 0 <= i < n :: !Strands(states[i], actions[i])
    ensures NoneStranded(states[n])
  {
    if n > 0 {
      NoneStrandedUpTo(states, actions, n - 1);
      RunIsGood(states, actions, n - 1);
      StepStrandsExactly(states[n - 1], actions[n - 1]);
    }
  }

  /** Over every interleaving: every provisioning session is attended in every state if and only if no step is that one. */
  lemma RunsStrandExactly(states: seq<Sys>, actions: seq<Action>)
    requires IsRun(states, actions)
    ensures (forall n | 0 <= n <= |actions| :: NoneStranded(states[n])) <==>
      (forall n | 0 <= n < |actions| :: !Strands(states[n], actions[n]))
  {
    if forall n | 0 <= n < |actions| :: !Strands(states[n], actions[n]) {
      forall n | 0 <= n <= |actions| ensures NoneStranded(states[n]) { NoneStrandedUpTo(states, actions, n); }
    }
    if forall n | 0 <= n <= |actions| :: NoneStranded(states[n]) {
      forall n | 0 <= n < |actions| ensures !Strands(states[n], actions[n]) {
        RunIsGood(states, actions, n);
        assert NoneStranded(states[n]) && NoneStranded(states[n + 1]);
        StepStrandsExactly(states[n], actions[n]);
      }
    }
  }

  // ----- What becomes of a stranded session -----

  ghost predicate Stranded(s: Sys, id: nat) { Waits(s.db, id) && !AttendedBy(s.procs, id) }

  /** A stop request of its owner that gets through. */
  predicate Frees(s: Sys, a: Action, id: nat)
    requires Enabled(s, a)
  {
    a.Move? && s.procs[a.pid].StopFinish? && a.outcome == Fine && s.procs[a.pid].id == id && Owns(s.db, s.procs[a.pid].user, id)
  }

  lemma StepKeepsStranded(s: Sys, a: Action, id: nat)
    requires Good(s) && Enabled(s, a) && Stranded(s, id)
    ensures Stranded(Do(s, a), id) <==> !Frees(s, a, id)
  {
    var s' := Do(s, a);
    if a.Move? {
      MoveKeepsStranded(s, a, id);
    } else {
      forall i | 0 <= i < |s'.procs| ensures HeldSession(s'.procs[i]) != Some(id) {
        if i < |s.procs| { assert s'.procs[i] == s.procs[i]; }
      }
    }
  }

  lemma MoveKeepsStranded(s: Sys, a: Action, id: nat)
    requires Good(s) && Enabled(s, a) && a.Move? && Stranded(s, id)
    ensures Stranded(Do(s, a), id) <==> !Frees(s, a, id)
  {
    var s' := Do(s, a);
    assert HeldSession(s.procs[a.pid]) != Some(id);
    if s.procs[a.pid].StartBegin? { LiveOfFinds(s.db.sessions, s.procs[a.pid].input.user); }
    NotAttended(s.procs, a.pid, s'.procs[a.pid], id);
  }

  /** It stays stranded, whatever else happens, until a stop request of its owner gets through. */
  lemma {:induction false} StrandedStays(states: seq<Sys>, actions: seq<Action>, n: nat, m: nat, id: nat)
    requires IsRun(states, actions) && n <= m <= |actions| && Stranded(states[n], id)
    requires forall i | n <= i < m :: !Frees(states[i], actions[i], id)
    ensures Stranded(states[m], id)
  {
    if n < m {
      var s, a := states[m - 1], actions[m - 1];
      assert Stranded(s, id) by { StrandedStays(states, actions, n, m - 1, id); }
      assert Good(s) by { RunIsGood(states, actions, m - 1); }
      StepKeepsStranded(s, a, id);
    }
  }

  lemma {:induction false} LiveOfIs(sessions: seq<SessionRow>, user: string, id: nat)
    requires OneLivePerUser(sessions) && id < |sessions| && sessions[id].user == user && sessions[id].Live()
    ensures LiveOf(sessions, user) == Some(id)
  {
    if id < |sessions| - 1 {
      LiveOfIs(sessions[..|sessions| - 1], user, id);
    }
  }

  /** Meanwhile no start of its user creates a session: it returns this one, still provisioning, or what its key's fresh
      record holds. */
  lemma StrandedBlocks(states: seq<Sys>, actions: seq<Action>, n: nat, m: nat, id: nat, input: StartInput, now: int)
    requires IsRun(states, actions) && n <= m <= |actions| && Stranded(states[n], id)
    requires forall i | n <= i < m :: !Frees(states[i], actions[i], id)
    requires Owns(states[n].db, input.user, id)
    ensures var t := states[m].db;
      var r := StartOrGet(t, input, now).1;
      && Owns(t, input.user, id) && !r.Created?
      && (!FreshRecord(t, RecordKey(input.user, input.key), now) ==> r == Found(Show(t, id)) && r.session.status == Provisioning)
  {
    StrandedStays(states, actions, n, m, id);
    RunIsGood(states, actions, m);
    TablesGrow(states, actions, n, m);
    assert RowGrows(states[n].db.sessions[id], states[m].db.sessions[id]);
    LiveOfIs(states[m].db.sessions, input.user, id);
  }

  /** Such a run: the launch fails, and so does the stop that should undo the session. */
  lemma FailedUndoStrands(input: StartInput, now: int) returns (states: seq<Sys>, actions: seq<Action>)
    ensures IsRun(states, actions) && Stranded(states[|actions|], 0) && Owns(states[|actions|].db, input.user, 0)
  {
    var failed := Move(0, Fails, now, "", "");
    var s1 := Do(START, Spawn(StartBegin(input)));
    var s2 := Do(s1, Move(0, Fine, now, "", ""));
    assert s2.procs == [StartProvision(input.user, 0)];
    var s3 := Do(s2, failed);
    assert s3.procs == [UndoSession(input.user, 0)];
    var s4 := Do(s3, failed);
    assert s4.procs == [Done] && s4.db.sessions == [NewSession(input, now)];
    states := [START, s1, s2, s3, s4];
    actions := [Spawn(StartBegin(input)), Move(0, Fine, now, "", ""), failed, failed];
  }
}
