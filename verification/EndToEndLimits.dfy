/** The delays for which a request can come too late: for all others `EndToEnd` proves that it cannot. */
module EndToEndLimits {
  import opened Options
  import opened CoreStatus
  import opened EndToEnd

  // ----- Runs that begin with one request -----

  /** The core is between two turns of a session. */
  ghost predicate BetweenTurns(s: Link) {
    !s.inTurn && exists start: int, turns: seq<C.Turn> :: s.core == C.After(C.Begin(start, 0), turns)
  }

  /** A run that begins at time 0 with a request for `x`, which nothing overrides. */
  ghost predicate Begins(states: seq<Link>, acts: seq<Act>, x: Request, d: Delays) {
    && IsRun(states, acts, d) && acts != [] && acts[0] == Accept("id", x) && states[0].now == 0
    && forall i | 0 < i < |acts| :: Spares(acts[i], x.key)
  }

  /** It is at `s`, and the request still waits. */
  ghost predicate StillWaits(states: seq<Link>, acts: seq<Act>, x: Request, d: Delays, s: Link) {
    Begins(states, acts, x, d) && states[|acts|] == s && OutcomeAt(states, acts, 0, |acts|) == D.Waiting
  }

  lemma {:induction false} BetweenStays(states: seq<Link>, acts: seq<Act>, s: Link, a: Act, n: nat)
    requires 1 <= n <= |acts| && |states| == |acts| + 1
    ensures Between(states + [s], acts + [a], 1, n) == Between(states, acts, 1, n)
  {
    if n > 1 {
      BetweenStays(states, acts, s, a, n - 1);
    }
  }

  lemma Longer(states: seq<Link>, acts: seq<Act>, x: Request, d: Delays, s: Link, a: Act)
    requires Begins(states, acts, x, d) && states[|acts|] == s && Can(s, a, d) && Spares(a, x.key)
    ensures Begins(states + [Next(s, a)], acts + [a], x, d)
    ensures OutcomeAt(states + [Next(s, a)], acts + [a], 0, |acts| + 1) ==
      Outcome("id", Target(x, 0), Between(states, acts, 1, |acts|) + Added(s, a))
  {
    BetweenStays(states, acts, Next(s, a), a, |acts|);
  }

  /** One more act that leaves the request waiting. */
  lemma Extend(states: seq<Link>, acts: seq<Act>, x: Request, d: Delays, s: Link, a: Act)
    returns (states': seq<Link>, acts': seq<Act>)
    requires StillWaits(states, acts, x, d, s) && Can(s, a, d) && !a.Accept? && !a.Tick?
    requires a.Deliver? ==> !Shows(s.toPlugin[0].msg, x)
    ensures StillWaits(states', acts', x, d, Next(s, a))
    ensures states'[0] == states[0]
  {
    states', acts' := states + [Next(s, a)], acts + [a];
    Longer(states, acts, x, d, s, a);
    var later := Between(states, acts, 1, |acts|);
    if a.Deliver? {
      OneMoreEvent("id", Target(x, 0), later, Added(s, a)[0]);
    } else {
      assert later + Added(s, a) == later;
    }
  }

  lemma TooLate(states: seq<Link>, acts: seq<Act>, x: Request, d: Delays, s: Link)
    returns (states': seq<Link>, acts': seq<Act>)
    requires StillWaits(states, acts, x, d, s) && s.now >= D.COMPLETION_TIMEOUT_MS
    ensures Begins(states', acts', x, d) && OutcomeAt(states', acts', 0, |acts'|) == D.Failed
    ensures states'[0] == states[0]
  {
    states', acts' := states + [Next(s, Tick)], acts + [Tick];
    Longer(states, acts, x, d, s, Tick);
    OneMoreEvent("id", Target(x, 0), Between(states, acts, 1, |acts|), D.Tick(s.now));
  }

  // ----- A core that is known to answer -----

  function Checked(at: int): C.Turn {
    C.Turn([], at, at, World(false, None), true, at, at, C.Nothing, at, World(false, None))
  }

  function Reading(body: C.Body, at: int): C.Turn { Checked(at).(read := C.Message(body, true)) }

  /** A plugin with nothing to do, and a core that has just sent a snapshot. */
  function Quiet(core: C.Session): Link { Link(0, Q.Lane([], [], [], []), Q.Lane([], [], [], []), map[], [], core, 0, false, [], []) }

  function BodyOf(x: Request): C.Body {
    match x.key
    case ModeKey => C.SetMode(if x.value.Text? then x.value.mode else "")
    case SettingKey(name) => C.SetSetting(name, x.value == Flag(true))
  }

  /** The request for the other value. */
  function Opposite(x: Request): Request {
    match x.value
    case Text(mode) => Q.Request(x.key, Text(if mode == "irl" then "studio" else "irl"))
    case Flag(on) => Q.Request(x.key, Flag(!on))
  }

  /** The core after a hello and a second turn that reads the request. */
  function Greeted(x: Request): C.Session {
    C.After(C.Begin(0, 0), [Reading(C.Hello(C.IPC_PROTOCOL_VERSION), 0), Reading(BodyOf(x), 0)])
  }

  predicate Open(core: C.Session) { core.exit == C.Open && core.handshake }

  /** After the hello. */
  function Welcomed(): C.Session { C.Step(C.Begin(0, 0), Reading(C.Hello(C.IPC_PROTOCOL_VERSION), 0)) }

  lemma WelcomedIsOpen()
    ensures var core := Welcomed();
      && Open(core) && core.pending == map[] && core.lastPing == 0 && core.lastPush == 0 - C.STATUS_PUSH_INTERVAL
      && core.overrides == NO_OVERRIDES
  {
    NothingToSend(C.Begin(0, 0), Reading(C.Hello(C.IPC_PROTOCOL_VERSION), 0));
  }

  lemma SecondRead(core: C.Session, x: Request)
    requires Askable(x) && Open(core) && core.lastPing == core.lastPush == 0 && core.overrides == NO_OVERRIDES
    ensures var core' := C.Poll(core, Reading(BodyOf(x), 0));
      Open(core') && core'.lastPing == core'.lastPush == 0 && KeptFor(core'.overrides, x.key) == Some(x.value)
  {
  }

  lemma GreetedIsOpen(x: Request)
    requires Askable(x)
    ensures var core := Greeted(x);
      Open(core) && core.lastPing == core.lastPush == 0 && KeptFor(core.overrides, x.key) == Some(x.value)
  {
    var hello, second := Reading(C.Hello(C.IPC_PROTOCOL_VERSION), 0), Reading(BodyOf(x), 0);
    WelcomedIsOpen();
    NothingToSend(Welcomed(), second);
    SecondRead(C.BeforePoll(Welcomed(), second), x);
    assert Greeted(x) == C.Step(Welcomed(), second) by {
      C.AfterSnoc(C.Begin(0, 0), [hello, second], 0);
      C.AfterSnoc(C.Begin(0, 0), [hello, second], 1);
      assert [hello, second][..0] == [] && [hello, second][..2] == [hello, second];
    }
  }

  /** A turn without switch requests, pending or new, of a core that has just read a ping or none at all. */
  lemma NothingToSend(core: C.Session, t: C.Turn)
    requires core.exit == C.Open && core.pending == map[] && t.commands == [] && t.beatAt == core.lastPing
    requires t.pushWritten
    ensures C.BeforePoll(core, t) ==
      if core.handshake && t.pushAt - core.lastPush >= C.STATUS_PUSH_INTERVAL
      then C.Report(core, t.pushWorld, true, t.pushedAt) else core
  {
    assert C.SendAll(core, []) == core;
    assert C.Late(core.pending, t.expireAt) == {};
  }

  /** The request is all that is under way, and has just been queued. */
  predicate Queued(s: Link, x: Request) {
    && s.Lane(QueueOf(x.key)).queued == [x] && s.Lane(QueueOf(x.key)).inFlight == []
    && Left(s.Lane(if x.key.ModeKey? then Settings else Modes)) == [] && s.toCore == []
  }

  predicate NothingWaits(s: Link) { Left(s.modes) == [] && Left(s.settings) == [] }

  lemma Intake(x: Request, d: Delays, core: C.Session) returns (states: seq<Link>, acts: seq<Act>, s: Link)
    requires Open(core) && core.lastPush == 0 && Askable(x)
    ensures StillWaits(states, acts, x, d, s) && states[0] == Quiet(core) && s == Next(Quiet(core), Accept("id", x))
    ensures Queued(s, x)
  {
    s := Next(Quiet(core), Accept("id", x));
    states, acts := [Quiet(core), s], [Accept("id", x)];
    assert Q.Coalesce([], x) == [x];
    assert Between(states, acts, 1, 1) == [];
  }

  // ----- Time passes -----

  /** Between two turns, right after a ping. */
  predicate Idle(s: Link) { Open(s.core) && !s.inTurn && s.core.lastPing == s.now }

  /** And right after a check. */
  predicate Checking(s: Link) { Idle(s) && s.lastCheck == s.now }

  /** In a turn, before its read. */
  predicate InTurn(s: Link) { Open(s.core) && s.inTurn }

  /** Everything that no wait changes: the plugin's queue, the channel to the core and the settings there. */
  predicate SameRequests(s: Link, s': Link) {
    s'.modes == s.modes && s'.settings == s.settings && s'.since == s.since && s'.toCore == s.toCore && s'.core.overrides == s.core.overrides
  }

  lemma ChecksKeepOpen(core: C.Session, at: int)
    requires Open(core) && at - core.lastPing < C.HEARTBEAT_TIMEOUT
    ensures var core' := C.BeforePoll(core, Checked(at)); Open(core') && core'.lastPing == core.lastPing
  {
    assert C.SendAll(core, []) == core;
  }

  /** The core begins a turn at `at`. */
  lemma Checks(states: seq<Link>, acts: seq<Act>, x: Request, d: Delays, s: Link, at: int)
    returns (states': seq<Link>, acts': seq<Act>, s': Link)
    requires StillWaits(states, acts, x, d, s) && Idle(s) && Can(s, Pass(at), d) && at <= s.now + 1
    ensures StillWaits(states', acts', x, d, s') && InTurn(s') && s'.now == s'.lastCheck == at && SameRequests(s, s')
    ensures states'[0] == states[0]
    ensures s'.core.lastPing == s.core.lastPing
    ensures if at - s.core.lastPush < C.STATUS_PUSH_INTERVAL
      then s'.core.lastPush == s.core.lastPush && s'.toPlugin == s.toPlugin
      else s'.toPlugin == s.toPlugin + [Sent(Snapshot(World(false, None), s.core.overrides), at)]
  {
    var passed, check := Next(s, Pass(at)), Checked(at);
    RunStaysTimely(states, acts, d, |acts|);
    states', acts' := Extend(states, acts, x, d, s, Pass(at));
    ChecksKeepOpen(s.core, at);
    states', acts' := Extend(states', acts', x, d, passed, Check(check));
    s' := Next(passed, Check(check));
    ChecksWrite(s.core, at);
  }

  lemma ChecksWrite(core: C.Session, at: int)
    requires Open(core) && at - core.lastPing < C.HEARTBEAT_TIMEOUT
    ensures var core' := C.BeforePoll(core, Checked(at));
      && core'.overrides == core.overrides
      && if at - core.lastPush < C.STATUS_PUSH_INTERVAL
         then core'.lastPush == core.lastPush && Written(core, core') == []
         else Written(core, core') == [Sent(Snapshot(World(false, None), core.overrides), at)]
  {
    ChecksKeepOpen(core, at);
    assert C.SendAll(core, []) == core;
    WrittenByChecks(core, Checked(at));
  }

  /** It reads a ping. */
  lemma Pings(states: seq<Link>, acts: seq<Act>, x: Request, d: Delays, s: Link)
    returns (states': seq<Link>, acts': seq<Act>, s': Link)
    requires StillWaits(states, acts, x, d, s) && InTurn(s)
    ensures StillWaits(states', acts', x, d, s') && Idle(s') && s'.now == s.now && s'.lastCheck == s.lastCheck
    ensures states'[0] == states[0]
    ensures SameRequests(s, s') && s'.core.lastPush == s.core.lastPush && s'.toPlugin == s.toPlugin
  {
    var ping := Poll(Reading(C.Ping, s.now));
    states', acts' := Extend(states, acts, x, d, s, ping);
    s' := Next(s, ping);
  }

  /** One millisecond and one turn. */
  lemma OneMs(states: seq<Link>, acts: seq<Act>, x: Request, d: Delays, s: Link)
    returns (states': seq<Link>, acts': seq<Act>, s': Link)
    requires StillWaits(states, acts, x, d, s) && Checking(s) && Can(s, Pass(s.now + 1), d)
    ensures StillWaits(states', acts', x, d, s') && Checking(s') && s'.now == s.now + 1 && SameRequests(s, s')
    ensures states'[0] == states[0]
    ensures if s'.now - s.core.lastPush < C.STATUS_PUSH_INTERVAL
      then s'.core.lastPush == s.core.lastPush && s'.toPlugin == s.toPlugin
      else s'.toPlugin == s.toPlugin + [Sent(Snapshot(World(false, None), s.core.overrides), s'.now)]
  {
    var begun: Link;
    states', acts', begun := Checks(states, acts, x, d, s, s.now + 1);
    states', acts', s' := Pings(states', acts', x, d, begun);
  }

  /** A turn without a pause before it, up to its read. */
  lemma ChecksAgain(states: seq<Link>, acts: seq<Act>, x: Request, d: Delays, s: Link)
    returns (states': seq<Link>, acts': seq<Act>, s': Link)
    requires StillWaits(states, acts, x, d, s) && Checking(s)
    ensures StillWaits(states', acts', x, d, s') && InTurn(s') && s'.now == s'.lastCheck == s.now && SameRequests(s, s')
    ensures states'[0] == states[0]
    ensures s'.core.lastPush == s.core.lastPush && s'.core.lastPing == s.now && s'.toPlugin == s.toPlugin
  {
    RunStaysTimely(states, acts, d, |acts|);
    states', acts', s' := Checks(states, acts, x, d, s, s.now);
  }

  /** No bound of a request is exceeded before `end`. */
  predicate MayWait(s: Link, d: Delays, end: int) {
    && Drained(s.modes, s.since, d.queue, end) && Drained(s.settings, s.since, d.queue, end)
    && (forall m | m in s.toCore :: end <= m.at + d.channel)
  }

  /** The core has the other value. */
  predicate Lacks(s: Link, x: Request) { KeptFor(s.core.overrides, x.key) == Some(Opposite(x).value) }

  lemma OppositeIsShown(w: World, o: Overrides, x: Request)
    requires Askable(x) && KeptFor(o, x.key) == Some(Opposite(x).value)
    ensures !Shows(Snapshot(w, o), x)
  {
  }

  /** The core has the other value; its snapshots arrive at once and show that. */
  lemma {:induction false} WaitUnread(states: seq<Link>, acts: seq<Act>, x: Request, d: Delays, s: Link, end: int)
    returns (states': seq<Link>, acts': seq<Act>, s': Link)
    requires StillWaits(states, acts, x, d, s) && Checking(s) && d.pace > 0 && s.now <= end && MayWait(s, d, end)
    requires Askable(x) && Lacks(s, x) && s.toPlugin == []
    ensures StillWaits(states', acts', x, d, s') && Checking(s') && s'.now == end && SameRequests(s, s') && s'.toPlugin == []
    ensures states'[0] == states[0]
    decreases end - s.now
  {
    if s.now == end {
      states', acts', s' := states, acts, s;
    } else {
      var next: Link;
      states', acts', next := OneMs(states, acts, x, d, s);
      if next.toPlugin != [] {
        OppositeIsShown(World(false, None), s.core.overrides, x);
        states', acts' := Extend(states', acts', x, d, next, Deliver);
        next := Next(next, Deliver);
      }
      states', acts', s' := WaitUnread(states', acts', x, d, next, end);
    }
  }

  /** Nothing arrives, for no longer than a snapshot may take. */
  lemma {:induction false} WaitUndelivered(states: seq<Link>, acts: seq<Act>, x: Request, d: Delays, s: Link, end: int)
    returns (states': seq<Link>, acts': seq<Act>, s': Link)
    requires StillWaits(states, acts, x, d, s) && Checking(s) && d.pace > 0 && s.now <= end <= s.now + d.delivery
    requires MayWait(s, d, end) && forall m | m in s.toPlugin :: end <= m.at + d.delivery
    ensures StillWaits(states', acts', x, d, s') && s'.now == end
    ensures states'[0] == states[0]
    decreases end - s.now
  {
    if s.now == end {
      states', acts', s' := states, acts, s;
    } else {
      var next: Link;
      states', acts', next := OneMs(states, acts, x, d, s);
      states', acts', s' := WaitUndelivered(states', acts', x, d, next, end);
    }
  }

  /** Less than a second after its last snapshot the core writes none. */
  lemma {:induction false} WaitUnpushed(states: seq<Link>, acts: seq<Act>, x: Request, d: Delays, s: Link, end: int)
    returns (states': seq<Link>, acts': seq<Act>, s': Link)
    requires StillWaits(states, acts, x, d, s) && Checking(s) && d.pace > 0 && MayWait(s, d, end)
    requires s.now <= end < s.core.lastPush + C.STATUS_PUSH_INTERVAL && s.toPlugin == []
    ensures StillWaits(states', acts', x, d, s') && Checking(s') && s'.now == end
    ensures states'[0] == states[0]
    ensures SameRequests(s, s') && s'.core.lastPush == s.core.lastPush && s'.toPlugin == []
    decreases end - s.now
  {
    if s.now == end {
      states', acts', s' := states, acts, s;
    } else {
      var next: Link;
      states', acts', next := OneMs(states, acts, x, d, s);
      states', acts', s' := WaitUnpushed(states', acts', x, d, next, end);
    }
  }

  // ----- A change that is read late -----

  lemma Sends(states: seq<Link>, acts: seq<Act>, x: Request, d: Delays, s: Link)
    returns (states': seq<Link>, acts': seq<Act>, s': Link)
    requires StillWaits(states, acts, x, d, s) && Queued(s, x)
    ensures StillWaits(states', acts', x, d, s') && NothingWaits(s') && s'.toCore == [Sent(x, s.now)]
    ensures states'[0] == states[0]
    ensures s'.core == s.core && s'.now == s.now && s'.lastCheck == s.lastCheck && s'.inTurn == s.inTurn
    ensures s'.toPlugin == s.toPlugin
  {
    var queue := QueueOf(x.key);
    states', acts' := Extend(states, acts, x, d, s, Swap(queue));
    s' := Next(s, Swap(queue));
    states', acts' := Extend(states', acts', x, d, s', SendOk(queue));
    s' := Next(s', SendOk(queue));
  }

  lemma ReadsChange(states: seq<Link>, acts: seq<Act>, x: Request, d: Delays, s: Link)
    returns (states': seq<Link>, acts': seq<Act>, s': Link)
    requires StillWaits(states, acts, x, d, s) && Checking(s) && Askable(x)
    requires NothingWaits(s) && |s.toCore| == 1 && s.toCore[0].msg == x && s.toPlugin == [] && Lacks(s, x)
    ensures StillWaits(states', acts', x, d, s') && Checking(s') && s'.now == s.now
    ensures states'[0] == states[0]
    ensures NothingWaits(s') && s'.toCore == [] && forall m | m in s'.toPlugin :: m.at == s.now
  {
    var t, begun := Reading(BodyOf(x), s.now), s;
    states', acts', begun := ChecksAgain(states, acts, x, d, s);
    ChangeIsRead(begun, x, d);
    states', acts' := Extend(states', acts', x, d, begun, Poll(t));
    s' := Next(begun, Poll(t));
  }

  lemma ChangeIsRead(s: Link, x: Request, d: Delays)
    requires InTurn(s) && Askable(x) && s.toCore != [] && s.toCore[0].msg == x && s.toPlugin == [] && Lacks(s, x)
    ensures var a := Poll(Reading(BodyOf(x), s.now));
      && Can(s, a, d)
      && var s' := Next(s, a);
      && Open(s'.core) && !s'.inTurn && s'.core.lastPing == s.core.lastPing && s'.toCore == s.toCore[1..]
      && forall m | m in s'.toPlugin :: m.at == s.now
  {
    WrittenByPoll(s.core, Reading(BodyOf(x), s.now));
  }

  lemma ReadsLate(d: Delays, x: Request, core: C.Session) returns (states: seq<Link>, acts: seq<Act>, s: Link)
    requires Askable(x) && d.pace > 0 && Open(core) && core.lastPing == core.lastPush == 0
    requires KeptFor(core.overrides, x.key) == Some(Opposite(x).value)
    ensures StillWaits(states, acts, x, d, s) && states[0] == Quiet(core)
    ensures Checking(s) && s.now == d.queue + d.channel
    ensures NothingWaits(s) && s.toCore == [] && forall m | m in s.toPlugin :: m.at == s.now
  {
    states, acts, s := Intake(x, d, core);
    states, acts, s := WaitUnread(states, acts, x, d, s, d.queue);
    states, acts, s := Sends(states, acts, x, d, s);
    states, acts, s := WaitUnread(states, acts, x, d, s, d.queue + d.channel);
    states, acts, s := ReadsChange(states, acts, x, d, s);
  }

  lemma LateChangeFails(d: Delays, x: Request) returns (states: seq<Link>, acts: seq<Act>)
    requires Askable(x) && d.pace > 0 && d.queue + d.channel + d.delivery >= D.COMPLETION_TIMEOUT_MS
    ensures Begins(states, acts, x, d) && OutcomeAt(states, acts, 0, |acts|) == D.Failed
    ensures states[0] == Quiet(Greeted(Opposite(x)))
  {
    var s: Link;
    GreetedIsOpen(Opposite(x));
    states, acts, s := ReadsLate(d, x, Greeted(Opposite(x)));
    states, acts, s := WaitUndelivered(states, acts, x, d, s, d.queue + d.channel + d.delivery);
    states, acts := TooLate(states, acts, x, d, s);
  }

  // ----- A repetition that is reported late -----

  lemma ReadsRepetition(states: seq<Link>, acts: seq<Act>, x: Request, d: Delays, s: Link)
    returns (states': seq<Link>, acts': seq<Act>, s': Link)
    requires StillWaits(states, acts, x, d, s) && Checking(s) && Askable(x)
    requires NothingWaits(s) && |s.toCore| == 1 && s.toCore[0].msg == x && KeptFor(s.core.overrides, x.key) == Some(x.value)
    ensures StillWaits(states', acts', x, d, s') && Checking(s') && NothingWaits(s') && s'.toCore == []
    ensures states'[0] == states[0]
    ensures s'.now == s.now && s'.core.lastPush == s.core.lastPush && s'.toPlugin == s.toPlugin
  {
    var t, begun := Reading(BodyOf(x), s.now), s;
    states', acts', begun := ChecksAgain(states, acts, x, d, s);
    RepetitionIsRead(begun, x, d);
    states', acts' := Extend(states', acts', x, d, begun, Poll(t));
    s' := Next(begun, Poll(t));
  }

  lemma RepetitionIsRead(s: Link, x: Request, d: Delays)
    requires InTurn(s) && Askable(x) && s.toCore != [] && s.toCore[0].msg == x && KeptFor(s.core.overrides, x.key) == Some(x.value)
    ensures var a := Poll(Reading(BodyOf(x), s.now));
      && Can(s, a, d)
      && var s' := Next(s, a);
      && s'.core == s.core && !s'.inTurn && s'.toCore == s.toCore[1..] && s'.toPlugin == s.toPlugin
  {
    assert C.Poll(s.core, Reading(BodyOf(x), s.now)) == s.core;
  }

  /** A check comes one millisecond too early to push, and the next one as late as it may. */
  lemma PushesLate(states: seq<Link>, acts: seq<Act>, x: Request, d: Delays, s: Link)
    returns (states': seq<Link>, acts': seq<Act>, s': Link)
    requires StillWaits(states, acts, x, d, s) && Checking(s) && d.pace > 0
    requires NothingWaits(s) && s.toCore == [] && s.toPlugin == [] && s.now == s.core.lastPush + C.STATUS_PUSH_INTERVAL - 1
    ensures StillWaits(states', acts', x, d, s') && Checking(s') && s'.now == s.now + d.pace
    ensures states'[0] == states[0]
    ensures NothingWaits(s') && s'.toCore == [] && forall m | m in s'.toPlugin :: m.at == s'.now
  {
    var end, u := s.now + d.pace, s;
    states', acts', u := ChecksAgain(states, acts, x, d, s);
    states', acts' := Extend(states', acts', x, d, u, Pass(end));
    u := Next(u, Pass(end));
    states', acts', u := Pings(states', acts', x, d, u);
    states', acts', u := Checks(states', acts', x, d, u, end);
    states', acts', s' := Pings(states', acts', x, d, u);
  }

  lemma LatePushFails(d: Delays, x: Request) returns (states: seq<Link>, acts: seq<Act>)
    requires Askable(x) && d.pace > 0
    requires C.STATUS_PUSH_INTERVAL - 1 + d.pace + d.delivery >= D.COMPLETION_TIMEOUT_MS
    ensures Begins(states, acts, x, d) && OutcomeAt(states, acts, 0, |acts|) == D.Failed
    ensures states[0] == Quiet(Greeted(x))
  {
    var s: Link;
    GreetedIsOpen(x);
    states, acts, s := Intake(x, d, Greeted(x));
    states, acts, s := Sends(states, acts, x, d, s);
    states, acts, s := ReadsRepetition(states, acts, x, d, s);
    states, acts, s := WaitUnpushed(states, acts, x, d, s, C.STATUS_PUSH_INTERVAL - 1);
    states, acts, s := PushesLate(states, acts, x, d, s);
    states, acts, s := WaitUndelivered(states, acts, x, d, s, s.now + d.delivery);
    states, acts := TooLate(states, acts, x, d, s);
  }

  // ----- Exactly -----

  /** For every delays that are not in time, and every request, there is a run that fails it. */
  lemma SlowRequestFails(d: Delays, x: Request) returns (states: seq<Link>, acts: seq<Act>)
    requires Askable(x) && !InTime(d)
    ensures Begins(states, acts, x, d) && OutcomeAt(states, acts, 0, |acts|) == D.Failed
    ensures BetweenTurns(states[0])
  {
    if d.queue + d.channel + d.delivery >= D.COMPLETION_TIMEOUT_MS {
      states, acts := LateChangeFails(d, x);
    } else {
      states, acts := LatePushFails(d, x);
    }
  }

  /** The run begins between two turns of a session, act `m` takes in the request, and no act before the `n`-th overrides
      it. */
  ghost predicate Unchallenged(states: seq<Link>, acts: seq<Act>, d: Delays, x: Request, m: nat, n: nat) {
    && IsRun(states, acts, d) && BetweenTurns(states[0]) && m < n <= |acts| && acts[m].Accept? && acts[m].x == x
    && forall i | m < i < n :: Spares(acts[i], x.key)
  }

  ghost predicate NeverFails(d: Delays, x: Request) {
    forall states: seq<Link>, acts: seq<Act>, m: nat, n: nat | Unchallenged(states, acts, d, x, m, n) ::
      OutcomeAt(states, acts, m, n) != D.Failed
  }

  /** A set_mode for either mode, and a set_setting for any of the five settings and either value, never fails if and only
      if the slower of a late change and a late push, with the delivery, is below the dock's timeout. */
  lemma NeverFailsExactly(d: Delays, x: Request)
    requires Askable(x)
    ensures NeverFails(d, x) <==> d.pace == 0 || Max(d.queue + d.channel, 999 + d.pace) + d.delivery < 3000
  {
    if InTime(d) {
      forall states: seq<Link>, acts: seq<Act>, m: nat, n: nat | Unchallenged(states, acts, d, x, m, n)
        ensures OutcomeAt(states, acts, m, n) != D.Failed
      {
        RequestAlwaysCompletes(states, acts, d, m, n);
      }
    } else {
      var states, acts := SlowRequestFails(d, x);
      assert Unchallenged(states, acts, d, x, 0, |acts|);
    }
  }
}
