/** Why a core session ends and when it is greeted, exactly: turn by turn, and over every run. */
module CoreExits {
  import opened Options
  import opened CoreStatus
  import opened CoreSession
  import opened CoreTiming

  // ----- Before the read -----

  lemma {:induction false} SendAllStaysOpen(s: Session, commands: seq<Command>)
    requires s.exit == Open
    ensures SendAll(s, commands).exit == (if s.handshake && exists c :: c in commands && !c.written then IoError else Open)
  {
    if commands != [] {
      var front, c := commands[..|commands| - 1], commands[|commands| - 1];
      SendAllStaysOpen(s, front);
      SendKeepsErrors(s, front);
      assert commands == front + [c];
      if !c.written { assert c in commands; }
    }
  }

  /** A switch request of this turn, or the snapshot that is due, does not go out. */
  predicate WriteFails(s: Session, t: Turn) {
    (exists c :: c in t.commands && !c.written) || (t.pushAt - s.lastPush >= 1000 && !t.pushWritten)
  }

  /** An open session reads in a turn unless it is greeted and a write fails or no ping or hello came for 3500 ms. */
  lemma PrepareIsExact(s: Session, t: Turn)
    requires s.exit == Open
    ensures BeforePoll(s, t).exit ==
      if !s.handshake then Open
      else if WriteFails(s, t) then IoError
      else if t.beatAt - s.lastPing >= 3500 then HeartbeatLost
      else Open
  {
    SendAllStaysOpen(s, t.commands);
    SendKeepsErrors(s, t.commands);
    var sent := SendAll(s, t.commands);
    var expired := Expire(sent, t.expireAt);
    assert expired.exit == sent.exit && expired.handshake == s.handshake && expired.lastPush == s.lastPush;
    assert Push(expired, t).lastPing == s.lastPing && Push(expired, t).handshake == s.handshake;
  }

  // ----- The read -----

  predicate IsMismatch(r: Read) {
    r == OtherVersion(true) || (r.Message? && r.written && r.body.Hello? && r.body.version != 1)
  }

  /** A message that the core answers: not a switch result nor a shutdown, and no request for what is set already. */
  predicate IsAnswered(o: Overrides, body: Body) {
    match body
    case SwitchResult(_, _) => false
    case ShutdownNotice => false
    case SetMode(text) => !(text == "studio" && o.mode == Some(Studio)) && !(text == "irl" && o.mode == Some(Irl))
    case SetSetting(key, value) =>
      !(key in {"auto_scene_switch", "low_quality_fallback", "manual_override", "chat_bot", "alerts"}
        && key in o.settings && o.settings[key] == value)
    case _ => true
  }

  /** What a turn's read makes of a session that reaches it. Resets are the matter of `ResetIsExact`. */
  lemma ReadExitIsExact(s: Session, t: Turn)
    requires BeforePoll(s, t).exit == Open
    ensures Step(s, t).exit == VersionMismatch <==> IsMismatch(t.read)
    ensures Step(s, t).exit == PluginShutdown <==> t.read.Message? && t.read.body.ShutdownNotice?
    ensures Step(s, t).exit == IoError <==>
      || t.read.Broken? || t.read == OtherVersion(false)
      || (t.read.Message? && !t.read.written && IsAnswered(s.overrides, t.read.body))
    ensures Step(s, t).handshake <==> s.handshake || t.read == Message(Hello(1), true)
  {
    BeforePollKeeps(s, t);
    var ready := BeforePoll(s, t);
    if t.read.Message? {
      MessageExits(ready, t.read.body, t.read.written, t.readAt, t.readWorld);
    } else {
      assert Poll(ready, t).handshake == s.handshake;
    }
  }

  lemma MessageExits(s: Session, body: Body, written: bool, at: int, w: World)
    requires s.exit == Open
    ensures var s' := Handle(s, body, written, at, w);
      && (s'.exit == VersionMismatch <==> IsMismatch(Message(body, written)))
      && (s'.exit == PluginShutdown <==> body.ShutdownNotice?)
      && (s'.exit == IoError <==> !written && IsAnswered(s.overrides, body))
      && (s'.handshake <==> s.handshake || (body == Hello(1) && written))
  {
    match body
    case SetMode(text) => ModeExits(s, text, written, at, w);
    case SetSetting(key, value) => SettingExits(s, key, value, written, at, w);
    case _ =>
  }

  lemma ModeExits(s: Session, text: string, written: bool, at: int, w: World)
    requires s.exit == Open
    ensures var s' := Handle(s, SetMode(text), written, at, w);
      && s'.handshake == s.handshake
      && s'.exit == if !written && IsAnswered(s.overrides, SetMode(text)) then IoError else Open
  {
  }

  lemma SettingExits(s: Session, key: string, value: bool, written: bool, at: int, w: World)
    requires s.exit == Open
    ensures var s' := Handle(s, SetSetting(key, value), written, at, w);
      && s'.handshake == s.handshake
      && s'.exit == if !written && IsAnswered(s.overrides, SetSetting(key, value)) then IoError else Open
  {
  }

  // ----- Over whole runs -----

  /** The session is open when turn `n` reads. */
  ghost predicate ReadsIn(now: int, turns: seq<Turn>, n: nat) {
    n < |turns| && BeforePoll(Ran(now, turns[..n]), turns[n]).exit == Open
  }

  /** What a run shows for good once a read of it has brought it about. */
  datatype Mark = Greeting | Mismatch | Shutdown

  predicate Bears(s: Session, mark: Mark) {
    match mark
    case Greeting => s.handshake
    case Mismatch => s.exit == VersionMismatch
    case Shutdown => s.exit == PluginShutdown
  }

  predicate Brings(r: Read, mark: Mark) {
    match mark
    case Greeting => r == Message(Hello(1), true)
    case Mismatch => IsMismatch(r)
    case Shutdown => r.Message? && r.body.ShutdownNotice?
  }

  lemma StepBears(s: Session, t: Turn, mark: Mark)
    ensures Bears(Step(s, t), mark) <==> Bears(s, mark) || (BeforePoll(s, t).exit == Open && Brings(t.read, mark))
  {
    BeforePollKeeps(s, t);
    if s.exit != Open {
      StepClosed(s, t);
    } else {
      PrepareIsExact(s, t);
      if BeforePoll(s, t).exit == Open { ReadExitIsExact(s, t); }
    }
  }

  /** Turn `n` brings it about. */
  ghost predicate BringsIn(now: int, turns: seq<Turn>, n: nat, mark: Mark) {
    ReadsIn(now, turns, n) && Brings(turns[n].read, mark)
  }

  ghost predicate BearsAt(now: int, turns: seq<Turn>, n: nat, mark: Mark)
    requires n <= |turns|
  {
    Bears(Ran(now, turns[..n]), mark)
  }

  lemma TurnBears(now: int, turns: seq<Turn>, n: nat, mark: Mark)
    requires n < |turns|
    ensures BearsAt(now, turns, n + 1, mark) <==> BearsAt(now, turns, n, mark) || BringsIn(now, turns, n, mark)
  {
    AfterSnoc(Begin(now, 0), turns, n);
    StepBears(Ran(now, turns[..n]), turns[n], mark);
  }

  lemma {:induction false} BearsHasTurn(now: int, turns: seq<Turn>, m: nat, mark: Mark) returns (n: nat)
    requires m <= |turns| && BearsAt(now, turns, m, mark)
    ensures n < m && BringsIn(now, turns, n, mark)
  {
    NoTurnBears(now, turns, mark);
    TurnBears(now, turns, m - 1, mark);
    n := m - 1;
    if BearsAt(now, turns, m - 1, mark) {
      n := BearsHasTurn(now, turns, m - 1, mark);
    }
  }

  lemma {:induction false} BearsOn(now: int, turns: seq<Turn>, k: nat, m: nat, mark: Mark)
    requires k <= m <= |turns| && BearsAt(now, turns, k, mark)
    ensures BearsAt(now, turns, m, mark)
  {
    if k < m {
      BearsOn(now, turns, k, m - 1, mark);
      TurnBears(now, turns, m - 1, mark);
    }
  }

  lemma NoTurnBears(now: int, turns: seq<Turn>, mark: Mark)
    ensures !BearsAt(now, turns, 0, mark)
  {
    assert turns[..0] == [];
  }

  /** Open or ended, a run is greeted if and only if some turn that found it open read a hello of version 1 and answered
      it. */
  lemma GreetedExactly(now: int, turns: seq<Turn>)
    ensures Ran(now, turns).handshake <==>
      exists n: nat :: ReadsIn(now, turns, n) && turns[n].read == Message(Hello(1), true)
  {
    assert turns[..|turns|] == turns;
    WholeRunBears(now, turns, Greeting);
    if n: nat :| ReadsIn(now, turns, n) && turns[n].read == Message(Hello(1), true) {
      assert BringsIn(now, turns, n, Greeting);
    }
  }

  /** It ended over the version if and only if such a turn read another version and its notice went out. */
  lemma MismatchExactly(now: int, turns: seq<Turn>)
    ensures Ran(now, turns).exit == VersionMismatch <==>
      exists n: nat :: ReadsIn(now, turns, n) && IsMismatch(turns[n].read)
  {
    assert turns[..|turns|] == turns;
    WholeRunBears(now, turns, Mismatch);
    if n: nat :| ReadsIn(now, turns, n) && IsMismatch(turns[n].read) { assert BringsIn(now, turns, n, Mismatch); }
  }

  /** It ended in a shutdown if and only if such a turn read the plugin's notice of it. */
  lemma ShutdownExactly(now: int, turns: seq<Turn>)
    ensures Ran(now, turns).exit == PluginShutdown <==>
      exists n: nat :: ReadsIn(now, turns, n) && turns[n].read.Message? && turns[n].read.body.ShutdownNotice?
  {
    assert turns[..|turns|] == turns;
    WholeRunBears(now, turns, Shutdown);
    if n: nat :| ReadsIn(now, turns, n) && turns[n].read.Message? && turns[n].read.body.ShutdownNotice? {
      assert BringsIn(now, turns, n, Shutdown);
    }
  }

  lemma WholeRunBears(now: int, turns: seq<Turn>, mark: Mark)
    ensures BearsAt(now, turns, |turns|, mark) <==> exists n: nat :: BringsIn(now, turns, n, mark)
  {
    if BearsAt(now, turns, |turns|, mark) {
      var n := BearsHasTurn(now, turns, |turns|, mark);
    }
    if n: nat :| BringsIn(now, turns, n, mark) {
      TurnBears(now, turns, n, mark);
      BearsOn(now, turns, n + 1, |turns|, mark);
    }
  }
}
