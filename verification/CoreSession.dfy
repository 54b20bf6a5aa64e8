/** One plugin session on the core's side: handshake, heartbeat, periodic snapshots, switch requests in flight and
    protocol errors. One turn of the loop is a step over the state, the clock readings and what the turn reads. */
module CoreSession {
  import opened Options
  import opened CoreStatus

  const IPC_PROTOCOL_VERSION: nat := 1
  const STATUS_PUSH_INTERVAL: int := 1000
  const HEARTBEAT_TIMEOUT: int := 3500

  // ----- What a turn reads -----

  /** A switch request from another part of the core. `id` is the fresh id it is given, `written` whether its frame
      goes out, `at` the time right after that. */
  datatype Command = SwitchScene(id: string, scene: string, deadlineMs: nat, written: bool, at: int)

  /** A message of the protocol's version, its payload decoded when its type is known. */
  datatype Body =
    | Undecodable
    | UnknownType
    | Hello(version: nat)
    | Ping
    | RequestStatus
    | SetMode(mode: string)
    | SetSetting(key: string, value: bool)
    | SwitchResult(id: string, ok: bool)
    | ShutdownNotice

  /** What the poll of the command pipe brings; `written` is whether the reply goes out. */
  datatype Read =
    | Nothing
    | Malformed(written: bool)
    | Broken
    | OtherVersion(written: bool)
    | Message(body: Body, written: bool)

  /** What the broadcast channel hands out: a request, or word that the receiver lags behind and has lost some. */
  datatype Received = Got(command: Command) | Lagged

  /** The requests up to the first such word, which ends the turn's receiving. */
  function UntilLag(received: seq<Received>): seq<Command> {
    if received == [] || received[0].Lagged? then [] else [received[0].command] + UntilLag(received[1..])
  }

  datatype Turn = Turn(
    received: seq<Received>,
    expireAt: int,
    pushAt: int, pushWorld: World, pushWritten: bool, pushedAt: int,
    beatAt: int,
    read: Read, readAt: int, readWorld: World)
  {
    const commands: seq<Command> := UntilLag(received)
  }

  // ----- State -----

  datatype Exit = Open | IoError | HeartbeatLost | TooManyErrors | VersionMismatch | PluginShutdown

  datatype Switch = Switch(scene: string, deadlineAt: int)

  /** What the session did, oldest first. */
  datatype Event =
    | Acknowledged(at: int)
    | SwitchSent(id: string, at: int)
    | TimedOut(ids: set<string>, at: int)
    | Answered(id: string, ok: bool)
    | StatusSent(status: StatusPayload, at: int)
    | Complained(at: int)

  /** `shown` is the number of pending switches that the debug status shows. */
  datatype Session = Session(
    exit: Exit, handshake: bool, pending: map<string, Switch>, shown: nat, overrides: Overrides,
    lastPing: int, lastPush: int, errors: seq<int>, log: seq<Event>)

  function Begin(now: int, shown: nat): Session {
    Session(Open, false, map[], shown, NO_OVERRIDES, now, now, [], [])
  }

  // ----- The sections of a turn -----

  function Send(s: Session, c: Command): Session {
    if s.exit != Open || !s.handshake then s
    else if !c.written then s.(exit := IoError)
    else
      var pending := s.pending[c.id := Switch(c.scene, c.at + c.deadlineMs)];
      s.(pending := pending, shown := |pending|, log := s.log + [SwitchSent(c.id, c.at)])
  }

  function SendAll(s: Session, commands: seq<Command>): Session {
    if commands == [] then s else Send(SendAll(s, commands[..|commands| - 1]), commands[|commands| - 1])
  }

  function Late(pending: map<string, Switch>, now: int): set<string> {
    set id | id in pending && now >= pending[id].deadlineAt
  }

  function Expire(s: Session, now: int): Session {
    var late := Late(s.pending, now);
    if s.exit != Open || late == {} then s
    else s.(pending := s.pending - late, shown := |s.pending - late|, log := s.log + [TimedOut(late, now)])
  }

  function Report(s: Session, w: World, written: bool, at: int): Session {
    if !written then s.(exit := IoError)
    else s.(lastPush := at, log := s.log + [StatusSent(Snapshot(w, s.overrides), at)])
  }

  function Push(s: Session, t: Turn): Session {
    if s.exit == Open && s.handshake && t.pushAt - s.lastPush >= STATUS_PUSH_INTERVAL
    then Report(s, t.pushWorld, t.pushWritten, t.pushedAt)
    else s
  }

  function Beat(s: Session, now: int): Session {
    if s.exit == Open && s.handshake && now - s.lastPing >= HEARTBEAT_TIMEOUT then s.(exit := HeartbeatLost) else s
  }

  function Complain(s: Session, written: bool, at: int): Session {
    if written then s.(log := s.log + [Complained(at)]) else s
  }

  function Record(s: Session, at: int): Session {
    var errors := s.errors + [at];
    s.(errors := errors, exit := if Resets(errors) then TooManyErrors else s.exit)
  }

  function Handle(s: Session, body: Body, written: bool, at: int, w: World): Session {
    match body
    case Undecodable => if !written then s.(exit := IoError) else Record(Complain(s, true, at), at)
    case UnknownType => if !written then s.(exit := IoError) else Record(Complain(s, true, at), at)
    case Hello(version) =>
      if !written then s.(exit := IoError)
      else if version != IPC_PROTOCOL_VERSION then s.(exit := VersionMismatch)
      else s.(handshake := true, lastPing := at, lastPush := at - STATUS_PUSH_INTERVAL, log := s.log + [Acknowledged(at)])
    case Ping => if !written then s.(exit := IoError) else s.(lastPing := at)
    case RequestStatus => Report(s, w, written, at)
    case SetMode(text) =>
      var mode := ParseMode(text);
      if mode.None? then (if written then Complain(s, true, at) else s.(exit := IoError))
      else if s.overrides.mode == mode then s
      else Report(s.(overrides := s.overrides.(mode := mode)), w, written, at)
    case SetSetting(key, value) =>
      if !Supported(key) then (if written then Complain(s, true, at) else s.(exit := IoError))
      else if key in s.overrides.settings && s.overrides.settings[key] == value then s
      else Report(s.(overrides := s.overrides.(settings := s.overrides.settings[key := value])), w, written, at)
    case SwitchResult(id, ok) =>
      if id !in s.pending then s
      else s.(pending := s.pending - {id}, shown := |s.pending - {id}|, log := s.log + [Answered(id, ok)])
    case ShutdownNotice => s.(exit := PluginShutdown)
  }

  function Poll(s: Session, t: Turn): Session {
    if s.exit != Open then s
    else
      match t.read
      case Nothing => s
      case Malformed(written) => Record(Complain(s, written, t.readAt), t.readAt)
      case Broken => s.(exit := IoError)
      case OtherVersion(written) => s.(exit := if written then VersionMismatch else IoError)
      case Message(body, written) => Handle(s, body, written, t.readAt, t.readWorld)
  }

  function BeforePoll(s: Session, t: Turn): Session {
    Beat(Push(Expire(SendAll(s, t.commands), t.expireAt), t), t.beatAt)
  }

  /** One turn of the loop. */
  function Step(s: Session, t: Turn): Session { Poll(BeforePoll(s, t), t) }

  function After(start: Session, turns: seq<Turn>): Session {
    if turns == [] then start else Step(After(start, turns[..|turns| - 1]), turns[|turns| - 1])
  }

  /** The clock never runs backwards between the errors that turns record. */
  ghost predicate Clocked(turns: seq<Turn>) {
    forall i, j | 0 <= i < j < |turns| :: turns[i].readAt <= turns[j].readAt
  }

  // ----- The loop -----

  /** The debug status that outlives a session; of its fields, the number of pending switches. */
  class DebugStatus {
    var pendingSwitchCount: nat

    constructor ()
      ensures pendingSwitchCount == 0
    {
      pendingSwitchCount := 0;
    }
  }

  class SessionIo {
    const debug: DebugStatus
    const protocolErrors: ProtocolErrorTracker
    const sessionOverrides: SessionOverrides
    var exit: Exit
    var handshakeComplete: bool
    var pendingSwitches: map<string, Switch>
    var lastPingAt: int
    var lastStatusPushAt: int
    ghost var log: seq<Event>

    ghost const Repr: set<object>

    ghost predicate Valid() reads this, Repr {
      && Repr == {this, debug, protocolErrors, sessionOverrides}
      && protocolErrors.Valid()
    }

    ghost function View(): Session reads this, debug, protocolErrors, sessionOverrides {
      Session(exit, handshakeComplete, pendingSwitches, debug.pendingSwitchCount, sessionOverrides.View(),
        lastPingAt, lastStatusPushAt, protocolErrors.errors, log)
    }

    constructor (debug: DebugStatus, now: int)
      ensures Valid() && View() == Begin(now, debug.pendingSwitchCount)
      ensures this.debug == debug && fresh(Repr - {debug})
    {
      this.debug := debug;
      var tracker := new ProtocolErrorTracker();
      var overrides := new SessionOverrides();
      protocolErrors, sessionOverrides := tracker, overrides;
      exit, handshakeComplete, pendingSwitches := Open, false, map[];
      lastPingAt, lastStatusPushAt, log := now, now, [];
      Repr := {this, debug, tracker, overrides};
    }

    method SendCommand(c: Command)
      requires Valid() && exit == Open
      modifies this, debug
      ensures Valid() && View() == Send(old(View()), c)
    {
      if !handshakeComplete {
        return;
      }
      if !c.written {
        exit := IoError;
        return;
      }
      pendingSwitches := pendingSwitches[c.id := Switch(c.scene, c.at + c.deadlineMs)];
      log := log + [SwitchSent(c.id, c.at)];
      debug.pendingSwitchCount := |pendingSwitches|;
    }

    method SendCommands(received: seq<Received>)
      requires Valid() && exit == Open
      modifies this, debug
      ensures Valid() && View() == SendAll(old(View()), UntilLag(received))
    {
      var i := 0;
      while i < |received| && received[i].Got?
        invariant i <= |received| && Valid() && exit == Open
        invariant i <= |UntilLag(received)| && UntilLag(received[i..]) == UntilLag(received)[i..]
        invariant View() == SendAll(old(View()), UntilLag(received)[..i])
      {
        ghost var commands := UntilLag(received);
        NextReceived(received, i);
        SendCommand(received[i].command);
        i := i + 1;
        if exit != Open {
          SendAllStops(old(View()), commands, i);
          return;
        }
      }
      assert UntilLag(received)[..i] == UntilLag(received);
    }

    /** Expired ids are collected first and then removed, in whatever order the table yields them. */
    method ExpireSwitches(now: int)
      requires Valid() && exit == Open
      modifies this, debug
      ensures Valid() && View() == Expire(old(View()), now)
    {
      var expired := Late(pendingSwitches, now);
      if expired == {} {
        return;
      }
      RemoveAll(expired);
      log := log + [TimedOut(expired, now)];
    }

    method RemoveAll(ids: set<string>)
      requires ids != {}
      modifies this`pendingSwitches, debug
      ensures pendingSwitches == old(pendingSwitches) - ids && debug.pendingSwitchCount == |pendingSwitches|
    {
      var todo := ids;
      while todo != {}
        invariant todo <= ids && pendingSwitches == old(pendingSwitches) - (ids - todo)
        invariant ids - todo != {} ==> debug.pendingSwitchCount == |pendingSwitches|
        decreases todo
      {
        var id :| id in todo;
        RemoveOne(old(pendingSwitches), ids, todo, id);
        todo := todo - {id};
        pendingSwitches := pendingSwitches - {id};
        debug.pendingSwitchCount := |pendingSwitches|;
      }
    }

    /** Writes a snapshot; a failed write ends the session. */
    method SendStatus(w: World, written: bool, at: int)
      requires Valid() && exit == Open
      modifies this
      ensures Valid() && View() == Report(old(View()), w, written, at)
    {
      if !written {
        exit := IoError;
        return;
      }
      log := log + [StatusSent(Snapshot(w, sessionOverrides.View()), at)];
      lastStatusPushAt := at;
    }

    method RecordError(written: bool, at: int)
      requires Valid() && exit == Open && (protocolErrors.errors != [] ==> Last(protocolErrors.errors) <= at)
      modifies this, protocolErrors
      ensures Valid() && View() == Record(Complain(old(View()), written, at), at)
    {
      if written {
        log := log + [Complained(at)];
      }
      var reset := CountError(at);
      if reset {
        exit := TooManyErrors;
      }
    }

    method CountError(at: int) returns (reset: bool)
      requires Valid() && (protocolErrors.errors != [] ==> Last(protocolErrors.errors) <= at)
      modifies protocolErrors
      ensures Valid() && View() == old(View()).(errors := old(View()).errors + [at])
      ensures reset <==> Resets(View().errors)
    {
      ghost var overrides := sessionOverrides.View();
      reset := protocolErrors.RecordAndShouldReset(at);
      assert sessionOverrides.View() == overrides;
    }

    /** Answers a request that is refused without counting as a protocol error. */
    method Refuse(written: bool, at: int)
      requires Valid() && exit == Open
      modifies this
      ensures Valid()
      ensures View() == if written then Complain(old(View()), true, at) else old(View()).(exit := IoError)
    {
      if !written {
        exit := IoError;
        return;
      }
      log := log + [Complained(at)];
    }

    method HandleHello(version: nat, written: bool, at: int)
      requires Valid() && exit == Open
      modifies this
      ensures Valid() && View() == Handle(old(View()), Hello(version), written, at, World(false, None))
    {
      if version != IPC_PROTOCOL_VERSION {
        exit := if written then VersionMismatch else IoError;
        return;
      }
      if !written {
        exit := IoError;
        return;
      }
      log := log + [Acknowledged(at)];
      handshakeComplete := true;
      lastPingAt := at;
      lastStatusPushAt := at - STATUS_PUSH_INTERVAL;
    }

    method HandleSetMode(text: string, written: bool, at: int, w: World)
      requires Valid() && exit == Open
      modifies this, sessionOverrides
      ensures Valid() && View() == Handle(old(View()), SetMode(text), written, at, w)
    {
      var mode := ParseMode(text);
      if mode.None? {
        Refuse(written, at);
        return;
      }
      var changed := sessionOverrides.SetModeIfChanged(mode.value);
      if !changed {
        return;
      }
      SendStatus(w, written, at);
    }

    method HandleSetSetting(key: string, value: bool, written: bool, at: int, w: World)
      requires Valid() && exit == Open
      modifies this, sessionOverrides
      ensures Valid() && View() == Handle(old(View()), SetSetting(key, value), written, at, w)
    {
      var changed := sessionOverrides.ApplySettingIfChanged(key, value);
      if changed.None? {
        Refuse(written, at);
        return;
      }
      if !changed.value {
        assert sessionOverrides.View().settings == old(sessionOverrides.View()).settings;
        return;
      }
      SendStatus(w, written, at);
    }

    method HandleSwitchResult(id: string, ok: bool)
      requires Valid() && exit == Open
      modifies this, debug
      ensures Valid() && View() == Handle(old(View()), SwitchResult(id, ok), true, 0, World(false, None))
    {
      if id !in pendingSwitches {
        return;
      }
      pendingSwitches := pendingSwitches - {id};
      debug.pendingSwitchCount := |pendingSwitches|;
      log := log + [Answered(id, ok)];
    }

    method HandleMessage(body: Body, written: bool, at: int, w: World)
      requires Valid() && exit == Open && (protocolErrors.errors != [] ==> Last(protocolErrors.errors) <= at)
      modifies Repr
      ensures Valid() && View() == Handle(old(View()), body, written, at, w)
    {
      match body {
        case Undecodable =>
          if written { RecordError(true, at); } else { exit := IoError; }
        case UnknownType =>
          if written { RecordError(true, at); } else { exit := IoError; }
        case Hello(version) => HandleHello(version, written, at);
        case Ping =>
          if written { lastPingAt := at; } else { exit := IoError; }
        case RequestStatus => SendStatus(w, written, at);
        case SetMode(text) => HandleSetMode(text, written, at, w);
        case SetSetting(key, value) => HandleSetSetting(key, value, written, at, w);
        case SwitchResult(id, ok) => HandleSwitchResult(id, ok);
        case ShutdownNotice => exit := PluginShutdown;
      }
    }

    method PollCommandPipe(t: Turn)
      requires Valid() && exit == Open && (protocolErrors.errors != [] ==> Last(protocolErrors.errors) <= t.readAt)
      modifies Repr
      ensures Valid() && View() == Poll(old(View()), t)
    {
      match t.read {
        case Nothing =>
        case Malformed(written) => RecordError(written, t.readAt);
        case Broken => exit := IoError;
        case OtherVersion(written) => exit := if written then VersionMismatch else IoError;
        case Message(body, written) => HandleMessage(body, written, t.readAt, t.readWorld);
      }
    }

    /** The periodic snapshot, when it is due. */
    method PushStatus(t: Turn)
      requires Valid() && exit == Open
      modifies this
      ensures Valid() && View() == Push(old(View()), t)
    {
      if handshakeComplete && t.pushAt - lastStatusPushAt >= STATUS_PUSH_INTERVAL {
        SendStatus(t.pushWorld, t.pushWritten, t.pushedAt);
      }
    }

    /** The loop body up to its read. */
    method PrepareTurn(t: Turn)
      requires Valid() && exit == Open
      modifies this, debug
      ensures Valid() && View() == BeforePoll(old(View()), t)
    {
      SendCommands(t.received);
      if exit != Open {
        return;
      }
      ExpireSwitches(t.expireAt);
      PushStatus(t);
      if exit != Open {
        return;
      }
      if handshakeComplete && t.beatAt - lastPingAt >= HEARTBEAT_TIMEOUT {
        exit := HeartbeatLost;
      }
    }

    /** One pass through the loop body. */
    method OneTurn(t: Turn)
      requires Valid() && exit == Open && (protocolErrors.errors != [] ==> Last(protocolErrors.errors) <= t.readAt)
      modifies Repr
      ensures Valid() && View() == Step(old(View()), t)
    {
      PrepareTurn(t);
      if exit == Open {
        PollCommandPipe(t);
      }
    }

    /** The whole loop: it runs until the session ends or the given turns do. */
    method Run(turns: seq<Turn>)
      requires Valid() && exit == Open && protocolErrors.errors == [] && Clocked(turns)
      modifies Repr
      ensures Valid() && View() == After(old(View()), turns)
    {
      ghost var start := View();
      var i := 0;
      while i < |turns| && exit == Open
        invariant Valid() && 0 <= i <= |turns| && View() == After(start, turns[..i])
      {
        AfterSnoc(start, turns, i);
        ErrorsInOrder(start, turns, i);
        OneTurn(turns[i]);
        i := i + 1;
      }
      RunEnds(start, turns, i);
    }
  }

  lemma NextReceived(received: seq<Received>, i: nat)
    requires i < |received| && received[i].Got? && i <= |UntilLag(received)|
    requires UntilLag(received[i..]) == UntilLag(received)[i..]
    ensures var commands := UntilLag(received);
      && i < |commands| && commands[i] == received[i].command && commands[..i + 1][..i] == commands[..i]
      && UntilLag(received[i + 1..]) == commands[i + 1..]
  {
    var commands := UntilLag(received);
    assert received[i..][1..] == received[i + 1..];
    assert commands[i..][0] == received[i].command;
    assert commands[i..][1..] == commands[i + 1..];
  }

  lemma RemoveOne(m: map<string, Switch>, ids: set<string>, todo: set<string>, id: string)
    requires todo <= ids && id in todo
    ensures m - (ids - todo) - {id} == m - (ids - (todo - {id}))
    ensures ids - (todo - {id}) != {}
  {
    assert id in ids - (todo - {id});
    assert ids - (todo - {id}) == (ids - todo) + {id};
  }

  lemma {:induction false} ClosedStays(s: Session, commands: seq<Command>)
    requires s.exit != Open
    ensures SendAll(s, commands) == s
  {
    if commands != [] {
      ClosedStays(s, commands[..|commands| - 1]);
    }
  }

  lemma {:induction false} SendAllStops(s: Session, commands: seq<Command>, i: nat)
    requires i <= |commands| && SendAll(s, commands[..i]).exit != Open
    ensures SendAll(s, commands) == SendAll(s, commands[..i])
  {
    if i == |commands| {
      assert commands[..i] == commands;
    } else {
      var front := commands[..|commands| - 1];
      assert front[..i] == commands[..i];
      SendAllStops(s, front, i);
    }
  }

  /** Sending touches only the table, the count and the log. */
  lemma {:induction false} SendKeepsErrors(s: Session, commands: seq<Command>)
    ensures var s' := SendAll(s, commands);
      s' == s.(exit := s'.exit, pending := s'.pending, shown := s'.shown, log := s'.log)
  {
    if commands != [] {
      SendKeepsErrors(s, commands[..|commands| - 1]);
    }
  }

  lemma HandleErrors(s: Session, body: Body, written: bool, at: int, w: World)
    ensures var s' := Handle(s, body, written, at, w); s'.errors == s.errors || s'.errors == s.errors + [at]
  {
  }

  lemma BeforePollErrors(s: Session, t: Turn)
    ensures BeforePoll(s, t).errors == s.errors
  {
    SendKeepsErrors(s, t.commands);
  }

  lemma PollAddsErrors(s: Session, t: Turn)
    ensures Poll(s, t).errors == s.errors || Poll(s, t).errors == s.errors + [t.readAt]
  {
    if s.exit == Open && t.read.Message? {
      HandleErrors(s, t.read.body, t.read.written, t.readAt, t.readWorld);
    }
  }

  lemma StepErrors(s: Session, t: Turn)
    ensures Step(s, t).errors == s.errors || Step(s, t).errors == s.errors + [t.readAt]
  {
    BeforePollErrors(s, t);
    PollAddsErrors(BeforePoll(s, t), t);
  }

  lemma AfterSnoc(start: Session, turns: seq<Turn>, i: nat)
    requires i < |turns|
    ensures After(start, turns[..i + 1]) == Step(After(start, turns[..i]), turns[i])
  {
    assert turns[..i + 1][..i] == turns[..i];
  }

  /** Errors are recorded in the order of time. */
  lemma {:induction false} ErrorsInOrder(start: Session, turns: seq<Turn>, i: nat)
    requires start.errors == [] && Clocked(turns) && i < |turns|
    ensures var errors := After(start, turns[..i]).errors; errors != [] ==> Last(errors) <= turns[i].readAt
  {
    if i > 0 {
      var s, t := After(start, turns[..i - 1]), turns[i - 1];
      ErrorsInOrder(start, turns, i - 1);
      StepErrors(s, t);
      assert Step(s, t).errors != [] ==> Last(Step(s, t).errors) <= t.readAt;
      AfterSnoc(start, turns, i - 1);
    }
  }

  lemma RunEnds(start: Session, turns: seq<Turn>, i: nat)
    requires i <= |turns| && (i < |turns| ==> After(start, turns[..i]).exit != Open)
    ensures After(start, turns) == After(start, turns[..i])
  {
    if i < |turns| { StaysClosed(start, turns, i); } else { assert turns[..i] == turns; }
  }

  lemma StepClosed(s: Session, t: Turn)
    requires s.exit != Open
    ensures Step(s, t) == s
  {
    ClosedStays(s, t.commands);
  }

  lemma {:induction false} StaysClosed(start: Session, turns: seq<Turn>, i: nat)
    requires i <= |turns| && After(start, turns[..i]).exit != Open
    ensures After(start, turns) == After(start, turns[..i])
  {
    if i == |turns| {
      assert turns[..i] == turns;
    } else {
      var front := turns[..|turns| - 1];
      assert front[..i] == turns[..i];
      StaysClosed(start, front, i);
      StepClosed(After(start, front), turns[|turns| - 1]);
    }
  }
}
