/** What a core session does before its handshake: switch requests wait for it, but status, mode and setting requests are
    served without one. */
module CoreHandshake {
  import opened Options
  import opened CoreStatus
  import opened CoreSession
  import opened CoreSwitches
  import opened CoreTiming

  // ----- The requests that need no handshake -----

  /** A request that changes the overrides, or may. */
  predicate Changes(body: Body) {
    (body.SetMode? && ParseMode(body.mode).Some?) || (body.SetSetting? && Supported(body.key))
  }

  predicate Answerable(body: Body) { body.RequestStatus? || Changes(body) }

  /** A read that a session answers with a snapshot, unless it changes nothing. */
  predicate Serves(r: Read) { r.Message? && r.written && Answerable(r.body) }

  /** A snapshot was written before a handshake was acknowledged. */
  predicate EarlyStatus(log: seq<Event>) {
    log != [] && (EarlyStatus(log[..|log| - 1]) || (log[|log| - 1].StatusSent? && !HasAck(log[..|log| - 1])))
  }

  lemma EarlySnoc(log: seq<Event>, e: Event)
    ensures EarlyStatus(log + [e]) <==> EarlyStatus(log) || (e.StatusSent? && !HasAck(log))
    ensures HasAck(log + [e]) <==> HasAck(log) || e.Acknowledged?
  {
    assert (log + [e])[..|log|] == log;
  }

  /** Until the handshake nothing is pending, and overrides have been reported. */
  ghost predicate Tracked(s: Session) {
    s.exit == Open ==>
      && (s.handshake <==> HasAck(s.log))
      && (!s.handshake ==> s.pending == map[] && (s.overrides != NO_OVERRIDES ==> EarlyStatus(s.log)))
  }

  // ----- One turn -----

  lemma {:induction false} NothingSentBefore(s: Session, commands: seq<Command>)
    requires !s.handshake
    ensures SendAll(s, commands) == s
  {
    if commands != [] {
      NothingSentBefore(s, commands[..|commands| - 1]);
    }
  }

  lemma NothingBeforePoll(s: Session, t: Turn)
    requires s.exit == Open && !s.handshake && s.pending == map[]
    ensures BeforePoll(s, t) == s
  {
    NothingSentBefore(s, t.commands);
    assert Late(s.pending, t.expireAt) == {};
  }

  /** Whether a message leaves a session as it is. */
  predicate NoChange(s: Session, body: Body) {
    || (body.SetMode? && ParseMode(body.mode).Some? && s.overrides.mode == ParseMode(body.mode))
    || (body.SetSetting? && Supported(body.key)
        && body.key in s.overrides.settings && s.overrides.settings[body.key] == body.value)
  }

  /** What such a read does: it changes nothing, or reports a change, or reports the status. */
  lemma ServedRead(s: Session, t: Turn)
    requires s.exit == Open && Serves(t.read)
    ensures var s' := Poll(s, t);
      && s'.exit == Open && s'.handshake == s.handshake && s'.pending == s.pending
      && (s' == s || exists status :: s'.log == s.log + [StatusSent(status, t.readAt)])
      && (s' == s ==> NoChange(s, t.read.body))
  {
    match t.read.body
    case SetMode(text) => ServedMode(s, text, t.readAt, t.readWorld);
    case SetSetting(key, value) => ServedSetting(s, key, value, t.readAt, t.readWorld);
    case RequestStatus => Reported(s, t.readWorld, t.readAt);
  }

  lemma Reported(s: Session, w: World, at: int)
    ensures var s' := Report(s, w, true, at); s' != s && s'.log == s.log + [StatusSent(Snapshot(w, s.overrides), at)]
  {
  }

  lemma ServedMode(s: Session, text: string, at: int, w: World)
    requires ParseMode(text).Some?
    ensures var s', mode := Handle(s, SetMode(text), true, at, w), ParseMode(text);
      if s.overrides.mode == mode then s' == s
      else s' == Report(s.(overrides := s.overrides.(mode := mode)), w, true, at) && s'.log != s.log
  {
  }

  lemma ServedSetting(s: Session, key: string, value: bool, at: int, w: World)
    requires Supported(key)
    ensures var s', all := Handle(s, SetSetting(key, value), true, at, w), s.overrides.settings[key := value];
      if key in s.overrides.settings && s.overrides.settings[key] == value then s' == s
      else s' == Report(s.(overrides := s.overrides.(settings := all)), w, true, at) && s'.log != s.log
  {
  }

  /** Any other read writes no snapshot and changes no override. */
  lemma OtherRead(s: Session, t: Turn)
    requires s.exit == Open && s.pending == map[] && !Serves(t.read)
    ensures var s', hello := Poll(s, t), t.read.Message? && t.read.body.Hello?;
      && (s'.log == s.log || s'.log == s.log + [if hello then Acknowledged(t.readAt) else Complained(t.readAt)])
      && (s'.exit == Open ==>
          && s'.overrides == s.overrides && s'.pending == map[]
          && s'.handshake == (s.handshake || hello) && (hello ==> s'.log != s.log))
  {
  }

  lemma PollEarly(s: Session, t: Turn)
    requires s.exit == Open && !s.handshake && s.pending == map[] && Tracked(s)
    ensures Tracked(Poll(s, t)) && (EarlyStatus(Poll(s, t).log) <==> EarlyStatus(s.log) || Serves(t.read))
  {
    var s' := Poll(s, t);
    if Serves(t.read) {
      ServedRead(s, t);
      if s' != s {
        var status :| s'.log == s.log + [StatusSent(status, t.readAt)];
        EarlySnoc(s.log, StatusSent(status, t.readAt));
      }
    } else {
      OtherRead(s, t);
      EarlySnoc(s.log, Acknowledged(t.readAt));
      EarlySnoc(s.log, Complained(t.readAt));
    }
  }

  lemma {:induction false} SendGrowsLog(s: Session, commands: seq<Command>)
    ensures s.log <= SendAll(s, commands).log
  {
    if commands != [] {
      SendGrowsLog(s, commands[..|commands| - 1]);
    }
  }

  lemma PollGrowsLog(s: Session, t: Turn)
    ensures s.log <= Poll(s, t).log
  {
    if t.read.Message? {
      HandleNotes(s, t.read.body, t.read.written, t.readAt, t.readWorld);
    } else {
      RefusalNotes(s, t.read.Malformed? && t.read.written, t.readAt);
    }
  }

  lemma StepGrowsLog(s: Session, t: Turn)
    ensures s.log <= Step(s, t).log
  {
    SendGrowsLog(s, t.commands);
    var pushed := Push(Expire(SendAll(s, t.commands), t.expireAt), t);
    assert SendAll(s, t.commands).log <= pushed.log;
    PollGrowsLog(BeforePoll(s, t), t);
  }

  lemma {:induction false} NothingEarlyAgain(log: seq<Event>, longer: seq<Event>)
    requires log <= longer && HasAck(log)
    ensures HasAck(longer) && (EarlyStatus(longer) <==> EarlyStatus(log))
    decreases |longer|
  {
    if |log| < |longer| {
      NothingEarlyAgain(log, longer[..|longer| - 1]);
    } else {
      assert longer == log;
    }
  }

  lemma StepEarly(s: Session, t: Turn)
    requires Tracked(s)
    ensures Tracked(Step(s, t))
    ensures EarlyStatus(Step(s, t).log) <==> EarlyStatus(s.log) || (s.exit == Open && !s.handshake && Serves(t.read))
  {
    if s.exit != Open {
      StepClosed(s, t);
    } else if !s.handshake {
      NothingBeforePoll(s, t);
      PollEarly(s, t);
    } else {
      StepGrowsLog(s, t);
      NothingEarlyAgain(s.log, Step(s, t).log);
      BeforePollKeeps(s, t);
      if Step(s, t).exit == Open { PollDoes(BeforePoll(s, t), t); }
    }
  }

  // ----- Over whole runs -----

  /** The session is open and not greeted yet when turn `n` reads a request that it serves. */
  ghost predicate EarlyAt(now: int, turns: seq<Turn>, n: nat) {
    n < |turns| && Ran(now, turns[..n]).exit == Open && !Greeted(turns[..n]) && Serves(turns[n].read)
  }

  lemma {:induction false} RunTracked(now: int, turns: seq<Turn>, n: nat)
    requires n <= |turns|
    ensures Tracked(Ran(now, turns[..n]))
  {
    if n == 0 {
      assert turns[..0] == [];
    } else {
      var s, t := Ran(now, turns[..n - 1]), turns[n - 1];
      assert Tracked(s) by { RunTracked(now, turns, n - 1); }
      assert Ran(now, turns[..n]) == Step(s, t) by { AfterSnoc(Begin(now, 0), turns, n - 1); }
      StepEarly(s, t);
    }
  }

  lemma EarlyInTurn(now: int, turns: seq<Turn>, n: nat)
    requires n < |turns|
    ensures EarlyStatus(Ran(now, turns[..n + 1]).log) <==> EarlyStatus(Ran(now, turns[..n]).log) || EarlyAt(now, turns, n)
  {
    RunTracked(now, turns, n);
    AfterSnoc(Begin(now, 0), turns, n);
    StepEarly(Ran(now, turns[..n]), turns[n]);
    if Ran(now, turns[..n]).exit == Open { ReadsDecide(now, turns[..n]); }
  }

  lemma {:induction false} EarlyHasTurn(now: int, turns: seq<Turn>, m: nat) returns (n: nat)
    requires m <= |turns| && EarlyStatus(Ran(now, turns[..m]).log)
    ensures n < m && EarlyAt(now, turns, n)
  {
    assert turns[..0] == [];
    EarlyInTurn(now, turns, m - 1);
    n := m - 1;
    if EarlyStatus(Ran(now, turns[..m - 1]).log) {
      n := EarlyHasTurn(now, turns, m - 1);
    }
  }

  lemma {:induction false} EarlyStays(now: int, turns: seq<Turn>, k: nat, m: nat)
    requires k <= m <= |turns| && EarlyStatus(Ran(now, turns[..k]).log)
    ensures EarlyStatus(Ran(now, turns[..m]).log)
  {
    if k < m {
      EarlyStays(now, turns, k, m - 1);
      EarlyInTurn(now, turns, m - 1);
    }
  }

  lemma EarlyTurnShows(now: int, turns: seq<Turn>, n: nat)
    requires EarlyAt(now, turns, n)
    ensures EarlyStatus(Ran(now, turns).log)
  {
    EarlyInTurn(now, turns, n);
    EarlyStays(now, turns, n + 1, |turns|);
    assert turns[..|turns|] == turns;
  }

  /** In any run a snapshot is written before the handshake if and only if some turn, on a session that is open and not
      greeted, reads a status request, a request for a valid mode or one for a known setting, and its replies go out. */
  lemma EarlyStatusExactly(now: int, turns: seq<Turn>)
    ensures EarlyStatus(Ran(now, turns).log) <==> exists n: nat :: EarlyAt(now, turns, n)
  {
    assert turns[..|turns|] == turns;
    if EarlyStatus(Ran(now, turns).log) {
      var n := EarlyHasTurn(now, turns, |turns|);
    } else {
      forall n: nat ensures !EarlyAt(now, turns, n) {
        if EarlyAt(now, turns, n) { EarlyTurnShows(now, turns, n); }
      }
    }
  }

  /** A request that an open session did not answer changed nothing. */
  lemma UnansweredChangesNothing(s: Session, t: Turn)
    requires Poll(s, t).exit == Open && t.read.Message? && Answerable(t.read.body) && !t.read.written
    ensures NoChange(s, t.read.body)
  {
  }

  lemma OverridesAsked(o: Overrides, r: Read)
    ensures Asked(o, r) != NO_OVERRIDES <==> o != NO_OVERRIDES || (r.Message? && Changes(r.body))
  {
    if r.Message? && r.body.SetSetting? && Supported(r.body.key) {
      assert r.body.key in Asked(o, r).settings;
    }
  }

  predicate AsksEarly(turns: seq<Turn>) {
    exists i :: 0 <= i < |turns| && turns[i].read.Message? && Answerable(turns[i].read.body)
  }

  predicate ChangesEarly(turns: seq<Turn>) {
    exists i :: 0 <= i < |turns| && turns[i].read.Message? && Changes(turns[i].read.body)
  }

  lemma EarlyReadsSnoc(turns: seq<Turn>, t: Turn)
    ensures AsksEarly(turns + [t]) <==> AsksEarly(turns) || (t.read.Message? && Answerable(t.read.body))
    ensures ChangesEarly(turns + [t]) <==> ChangesEarly(turns) || (t.read.Message? && Changes(t.read.body))
  {
    var all := turns + [t];
    assert all[|turns|] == t && forall i | 0 <= i < |turns| :: all[i] == turns[i];
  }

  lemma OneMoreRead(s: Session, t: Turn)
    requires Tracked(s) && Step(s, t).exit == s.exit == Open && !s.handshake
    ensures EarlyStatus(Step(s, t).log) <==> EarlyStatus(s.log) || (t.read.Message? && Answerable(t.read.body))
  {
    StepEarly(s, t);
    NothingBeforePoll(s, t);
    if t.read.Message? && Answerable(t.read.body) && !t.read.written { UnansweredChangesNothing(s, t); }
  }

  /** As long as a session is open and not greeted: it has written a snapshot if and only if it read such a request, and
      its overrides are set if and only if it read one for a mode or a setting. */
  lemma {:induction false} ServedWithoutHandshake(now: int, turns: seq<Turn>)
    requires Ran(now, turns).exit == Open && !Greeted(turns)
    ensures EarlyStatus(Ran(now, turns).log) <==> AsksEarly(turns)
    ensures Ran(now, turns).overrides != NO_OVERRIDES <==> ChangesEarly(turns)
  {
    if turns != [] {
      var front, t := turns[..|turns| - 1], turns[|turns| - 1];
      var s := Ran(now, front);
      FrontAndLast(turns);
      GreetedSnoc(front, t);
      EarlyReadsSnoc(front, t);
      ReadsDecide(now, turns);
      ReadsDecide(now, front);
      ServedWithoutHandshake(now, front);
      OverridesAsked(s.overrides, t.read);
      RunTracked(now, turns, |front|);
      assert Ran(now, turns) == Step(s, t);
      OneMoreRead(s, t);
    }
  }

  lemma FirstTurn(now: int, t: Turn)
    ensures Ran(now, [t]) == Poll(Begin(now, 0), t)
  {
    var begin := Begin(now, 0);
    assert [t][..0] == [] && [t][..1] == [t];
    AfterSnoc(begin, [t], 0);
    NothingBeforePoll(begin, t);
  }

  /** A first turn that reads a status request is answered with a snapshot, while the switch requests queued for that
      turn are dropped. */
  lemma StatusBeforeHandshake(now: int, t: Turn)
    requires t.read == Message(RequestStatus, true)
    ensures Ran(now, [t]).exit == Open && !Ran(now, [t]).handshake && Ran(now, [t]).pending == map[]
    ensures Ran(now, [t]).log == [StatusSent(Snapshot(t.readWorld, NO_OVERRIDES), t.readAt)]
  {
    var begin := Begin(now, 0);
    FirstTurn(now, t);
    assert Poll(begin, t) == Report(begin, t.readWorld, true, t.readAt);
  }

  /** A first turn that reads a setting sets it. */
  lemma SettingBeforeHandshake(now: int, t: Turn, key: string, value: bool)
    requires t.read == Message(SetSetting(key, value), true) && Supported(key)
    ensures Ran(now, [t]).exit == Open && !Ran(now, [t]).handshake
    ensures var overrides := Overrides(None, map[key := value]);
      && Ran(now, [t]).overrides == overrides
      && Ran(now, [t]).log == [StatusSent(Snapshot(t.readWorld, overrides), t.readAt)]
  {
    var begin := Begin(now, 0);
    FirstTurn(now, t);
    var changed := begin.(overrides := Overrides(None, map[key := value]));
    assert Poll(begin, t) == Report(changed, t.readWorld, true, t.readAt);
  }
}
