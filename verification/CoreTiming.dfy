/** When a core session expires requests, pushes snapshots and ends: its state is a function of what was read,
    and its deadlines are met up to the pace of the loop. Times are clock readings in milliseconds. */
module CoreTiming {
  import opened Options
  import opened CoreStatus
  import opened CoreSession
  import opened CoreSwitches

  // ----- What the reads alone say -----

  predicate KeepsAlive(r: Read) { r.Message? && (r.body.Ping? || r.body.Hello?) }

  predicate IsError(r: Read) { r.Malformed? || (r.Message? && (r.body.Undecodable? || r.body.UnknownType?)) }

  function LastAlive(start: int, turns: seq<Turn>): int {
    if turns == [] then start
    else if KeepsAlive(turns[|turns| - 1].read) then turns[|turns| - 1].readAt
    else LastAlive(start, turns[..|turns| - 1])
  }

  /** A hello of the core's version was answered. */
  predicate Greets(r: Read) { r == Message(Hello(1), true) }

  predicate Greeted(turns: seq<Turn>) { exists i :: 0 <= i < |turns| && Greets(turns[i].read) }

  function ErrorTimes(turns: seq<Turn>): seq<int> {
    if turns == [] then []
    else
      var t := turns[|turns| - 1];
      ErrorTimes(turns[..|turns| - 1]) + (if IsError(t.read) then [t.readAt] else [])
  }

  function Asked(o: Overrides, r: Read): Overrides {
    if r.Message? && r.body.SetMode? && ParseMode(r.body.mode).Some? then o.(mode := ParseMode(r.body.mode))
    else if r.Message? && r.body.SetSetting? && Supported(r.body.key)
    then o.(settings := o.settings[r.body.key := r.body.value])
    else o
  }

  /** The latest valid mode and, per supported key, the latest value asked for. */
  function Accepted(turns: seq<Turn>): Overrides {
    if turns == [] then NO_OVERRIDES else Asked(Accepted(turns[..|turns| - 1]), turns[|turns| - 1].read)
  }

  function Ran(now: int, turns: seq<Turn>): Session { After(Begin(now, 0), turns) }

  lemma BeforePollKeeps(s: Session, t: Turn)
    ensures var s' := BeforePoll(s, t);
      && s'.handshake == s.handshake && s'.lastPing == s.lastPing && s'.errors == s.errors && s'.overrides == s.overrides
      && (s'.exit == Open ==> s.exit == Open && SendAll(s, t.commands).exit == Open)
  {
    SendKeepsErrors(s, t.commands);
    if s.exit != Open { ClosedStays(s, t.commands); }
  }

  lemma PollDoes(s: Session, t: Turn)
    requires Poll(s, t).exit == Open
    ensures var s', r := Poll(s, t), t.read;
      && s.exit == Open
      && s'.lastPing == (if KeepsAlive(r) then t.readAt else s.lastPing)
      && s'.handshake == (s.handshake || Greets(r))
  {
  }

  lemma PollErrors(s: Session, t: Turn)
    requires Poll(s, t).exit == Open
    ensures IsError(t.read) ==> Poll(s, t).errors == s.errors + [t.readAt]
    ensures !IsError(t.read) ==> Poll(s, t).errors == s.errors
  {
  }

  lemma PollOverrides(s: Session, t: Turn)
    requires Poll(s, t).exit == Open
    ensures Poll(s, t).overrides == Asked(s.overrides, t.read)
  {
    if t.read.Message? && t.read.body.SetSetting? {
      var key, value, m := t.read.body.key, t.read.body.value, s.overrides.settings;
      if key in m && m[key] == value { assert m[key := value] == m; }
    }
  }

  /** What a turn that leaves the session open does. */
  lemma OpenStepDoes(s: Session, t: Turn)
    requires Step(s, t).exit == Open
    ensures var s', r := Step(s, t), t.read;
      && s.exit == Open
      && s'.lastPing == (if KeepsAlive(r) then t.readAt else s.lastPing)
      && s'.handshake == (s.handshake || Greets(r))
      && s'.errors == s.errors + (if IsError(r) then [t.readAt] else [])
      && s'.overrides == Asked(s.overrides, r)
  {
    BeforePollKeeps(s, t);
    var ready := BeforePoll(s, t);
    PollDoes(ready, t);
    PollErrors(ready, t);
    PollOverrides(ready, t);
  }

  /** As long as a session is open, its state is what its reads say. */
  lemma {:induction false} ReadsDecide(now: int, turns: seq<Turn>)
    requires Ran(now, turns).exit == Open
    ensures var s := Ran(now, turns);
      && s.lastPing == LastAlive(now, turns)
      && (s.handshake <==> Greeted(turns))
      && s.errors == ErrorTimes(turns)
      && s.overrides == Accepted(turns)
    ensures turns != [] ==> Ran(now, turns[..|turns| - 1]).exit == Open
  {
    if turns != [] {
      var front, t := turns[..|turns| - 1], turns[|turns| - 1];
      assert Ran(now, turns) == Step(Ran(now, front), t);
      OpenStepDoes(Ran(now, front), t);
      ReadsDecide(now, front);
      GreetedSnoc(front, t);
      FrontAndLast(turns);
    }
  }

  lemma ErrorTimesSnoc(turns: seq<Turn>, t: Turn)
    ensures ErrorTimes(turns + [t]) == ErrorTimes(turns) + (if IsError(t.read) then [t.readAt] else [])
  {
    assert (turns + [t])[..|turns|] == turns;
  }

  lemma GreetedSnoc(turns: seq<Turn>, t: Turn)
    ensures Greeted(turns + [t]) <==> Greeted(turns) || Greets(t.read)
  {
    assert (turns + [t])[|turns|] == t;
    if Greeted(turns) {
      var i :| 0 <= i < |turns| && Greets(turns[i].read);
      assert (turns + [t])[i] == turns[i];
    }
  }

  // ----- Why a session ends -----

  /** The writes before the heartbeat check of `t` go out. */
  ghost predicate WritesGoOut(now: int, turns: seq<Turn>, t: Turn) {
    Push(Expire(SendAll(Ran(now, turns), t.commands), t.expireAt), t).exit == Open
  }

  /** At the check of `t` the session is greeted and has seen no ping or hello for 3500 ms. */
  ghost predicate Overdue(now: int, turns: seq<Turn>, t: Turn) {
    Greeted(turns) && t.beatAt - LastAlive(now, turns) >= HEARTBEAT_TIMEOUT
  }

  lemma {:induction false} SendAllExits(s: Session, commands: seq<Command>)
    ensures SendAll(s, commands).exit == s.exit || SendAll(s, commands).exit == IoError
  {
    if commands != [] {
      SendAllExits(s, commands[..|commands| - 1]);
    }
  }

  /** An open session ends for lack of pings in a turn exactly when its writes before the check go out and it is greeted
      and no ping or hello was processed for 3500 ms before the check. */
  lemma HeartbeatIsExact(now: int, turns: seq<Turn>, t: Turn)
    requires Ran(now, turns).exit == Open
    ensures Step(Ran(now, turns), t).exit == HeartbeatLost <==> WritesGoOut(now, turns, t) && Overdue(now, turns, t)
  {
    var s := Ran(now, turns);
    ReadsDecide(now, turns);
    SendAllExits(s, t.commands);
    SendKeepsErrors(s, t.commands);
    var pushed := Push(Expire(SendAll(s, t.commands), t.expireAt), t);
    assert pushed.handshake == s.handshake && pushed.lastPing == s.lastPing;
    assert pushed.exit == Open || pushed.exit == IoError;
    if Beat(pushed, t.beatAt).exit == Open { PollExits(Beat(pushed, t.beatAt), t); }
  }

  /** How handling a message may change whether the session is open. */
  lemma HandleExits(s: Session, body: Body, written: bool, at: int, w: World)
    requires s.exit == Open
    ensures var exit := Handle(s, body, written, at, w).exit;
      && exit != HeartbeatLost
      && (exit == TooManyErrors <==> (body.Undecodable? || body.UnknownType?) && written && Resets(s.errors + [at]))
  {
    if body.SetMode? {
      var mode := ParseMode(body.mode);
      assert mode.None? || mode.Some?;
    }
  }

  lemma PollExits(s: Session, t: Turn)
    requires s.exit == Open
    ensures Poll(s, t).exit != HeartbeatLost
    ensures Poll(s, t).exit == TooManyErrors <==>
      IsError(t.read) && (t.read.Message? ==> t.read.written) && Resets(s.errors + [t.readAt])
  {
    if t.read.Message? { HandleExits(s, t.read.body, t.read.written, t.readAt, t.readWorld); }
  }

  /** It is reset exactly when the turn's read counts as an error, the report of it goes out where the loop insists on
      that, and more than five such errors, this one included, lie in the last ten seconds. A request for an unknown mode
      or setting is no such error. */
  lemma ResetIsExact(now: int, turns: seq<Turn>, t: Turn)
    requires BeforePoll(Ran(now, turns), t).exit == Open
    ensures Step(Ran(now, turns), t).exit == TooManyErrors <==>
      && IsError(t.read)
      && (t.read.Message? ==> t.read.written)
      && CountSince(ErrorTimes(turns + [t]), t.readAt - 10_000) > 5
  {
    var s := Ran(now, turns);
    StepResets(s, t);
    ReadsDecide(now, turns);
    if IsError(t.read) { ErrorsMean(turns, t); }
  }

  lemma ErrorsMean(turns: seq<Turn>, t: Turn)
    requires IsError(t.read)
    ensures Resets(ErrorTimes(turns) + [t.readAt]) <==>
      CountSince(ErrorTimes(turns + [t]), t.readAt - PROTOCOL_ERROR_WINDOW) > PROTOCOL_ERROR_RESET_THRESHOLD
  {
    ErrorTimesSnoc(turns, t);
    ResetsMeans(ErrorTimes(turns), t.readAt);
  }

  lemma StepResets(s: Session, t: Turn)
    requires BeforePoll(s, t).exit == Open
    ensures s.exit == Open
    ensures Step(s, t).exit == TooManyErrors <==>
      IsError(t.read) && (t.read.Message? ==> t.read.written) && Resets(s.errors + [t.readAt])
  {
    BeforePollKeeps(s, t);
    PollExits(BeforePoll(s, t), t);
  }

  lemma ResetsMeans(errors: seq<int>, at: int)
    ensures Resets(errors + [at]) <==>
      CountSince(errors + [at], at - PROTOCOL_ERROR_WINDOW) > PROTOCOL_ERROR_RESET_THRESHOLD
  {
    assert (errors + [at])[|errors|] == at;
  }

  // ----- Pace -----

  /** The clock runs forward through a turn. */
  ghost predicate Ordered(t: Turn) {
    t.pushAt <= t.pushedAt <= t.beatAt <= t.readAt && forall c | c in t.commands :: c.at <= t.expireAt
  }

  /** `p` bounds the time between a check and the next turn's same check, and between two points of one turn. */
  ghost predicate Paced(turns: seq<Turn>, p: int) {
    && (forall i | 0 <= i < |turns| :: WithinTurn(turns[i], p))
    && (forall i | 0 < i < |turns| :: NextTurn(turns[i - 1], turns[i], p))
  }

  ghost predicate WithinTurn(t: Turn, p: int) {
    Ordered(t) && t.readAt - t.pushAt <= p && forall c | c in t.commands :: t.expireAt - c.at <= p
  }

  ghost predicate NextTurn(t: Turn, next: Turn, p: int) {
    && t.readAt <= next.pushAt
    && next.expireAt - t.expireAt <= p && next.pushedAt - t.pushAt <= p && next.beatAt - t.beatAt <= p
  }

  lemma PacedFront(turns: seq<Turn>, p: int)
    requires Paced(turns, p) && turns != []
    ensures Paced(turns[..|turns| - 1], p)
  {
    var front := turns[..|turns| - 1];
    forall i | 0 < i < |front| ensures NextTurn(front[i - 1], front[i], p) { assert NextTurn(turns[i - 1], turns[i], p); }
  }

  /** An open, greeted session had a ping or hello less than 3500 ms before its last heartbeat check, or after it. */
  lemma OpenMeansAlive(now: int, turns: seq<Turn>, t: Turn)
    requires Step(Ran(now, turns), t).exit == Open && Greeted(turns + [t]) && Ordered(t)
    ensures t.beatAt - LastAlive(now, turns + [t]) < HEARTBEAT_TIMEOUT
  {
    assert (turns + [t])[..|turns|] == turns;
    if !KeepsAlive(t.read) {
      GreetedSnoc(turns, t);
      OpenWentOut(now, turns, t);
      HeartbeatIsExact(now, turns, t);
    }
  }

  /** A session that ends for lack of pings ends less than 3500 ms plus the pace after the last one. */
  lemma HeartbeatIsPrompt(now: int, turns: seq<Turn>, t: Turn, p: int)
    requires Paced(turns + [t], p) && Ran(now, turns).exit == Open && Step(Ran(now, turns), t).exit == HeartbeatLost
    ensures HEARTBEAT_TIMEOUT <= t.beatAt - LastAlive(now, turns) < HEARTBEAT_TIMEOUT + p
  {
    HeartbeatIsExact(now, turns, t);
    DueIsPrompt(now, turns, t, p);
  }

  lemma DueIsPrompt(now: int, turns: seq<Turn>, t: Turn, p: int)
    requires Paced(turns + [t], p) && Ran(now, turns).exit == Open && Greeted(turns)
    ensures t.beatAt - LastAlive(now, turns) < HEARTBEAT_TIMEOUT + p
  {
    LastPace(turns, t, p);
    var front, last := turns[..|turns| - 1], turns[|turns| - 1];
    FrontAndLast(turns);
    assert last.beatAt - LastAlive(now, turns) < HEARTBEAT_TIMEOUT by { OpenMeansAlive(now, front, last); }
  }

  lemma FrontAndLast(turns: seq<Turn>)
    requires turns != []
    ensures turns == turns[..|turns| - 1] + [turns[|turns| - 1]]
  {
  }

  lemma LastPace(turns: seq<Turn>, t: Turn, p: int)
    requires Paced(turns + [t], p)
    ensures WithinTurn(t, p)
    ensures turns != [] ==> WithinTurn(turns[|turns| - 1], p) && NextTurn(turns[|turns| - 1], t, p)
  {
    var n := |turns|;
    assert WithinTurn((turns + [t])[n], p);
    if n > 0 {
      assert WithinTurn((turns + [t])[n - 1], p);
      assert NextTurn((turns + [t])[n - 1], (turns + [t])[n], p);
    }
  }

  lemma OpenWentOut(now: int, turns: seq<Turn>, t: Turn)
    requires Step(Ran(now, turns), t).exit == Open
    ensures Ran(now, turns).exit == Open && WritesGoOut(now, turns, t)
  {
    BeforePollKeeps(Ran(now, turns), t);
  }

  /** The session is open before turn `n`, and that turn's check ends it for lack of pings. */
  ghost predicate LostAt(now: int, turns: seq<Turn>, n: nat) {
    && n < |turns| && Ran(now, turns[..n]).exit == Open
    && WritesGoOut(now, turns[..n], turns[n]) && Overdue(now, turns[..n], turns[n])
  }

  lemma LostInTurn(now: int, turns: seq<Turn>, n: nat)
    requires n < |turns|
    ensures Ran(now, turns[..n + 1]).exit == HeartbeatLost <==>
      Ran(now, turns[..n]).exit == HeartbeatLost || LostAt(now, turns, n)
  {
    AfterSnoc(Begin(now, 0), turns, n);
    if Ran(now, turns[..n]).exit == Open {
      HeartbeatIsExact(now, turns[..n], turns[n]);
    } else {
      StepClosed(Ran(now, turns[..n]), turns[n]);
    }
  }

  lemma {:induction false} NotLostSoFar(now: int, turns: seq<Turn>, m: nat)
    requires m <= |turns| && forall n: nat | n < m :: !LostAt(now, turns, n)
    ensures Ran(now, turns[..m]).exit != HeartbeatLost
  {
    if m == 0 {
      assert turns[..0] == [];
    } else {
      NotLostSoFar(now, turns, m - 1);
      LostInTurn(now, turns, m - 1);
    }
  }

  lemma TurnLoses(now: int, turns: seq<Turn>, n: nat)
    requires LostAt(now, turns, n)
    ensures Ran(now, turns).exit == HeartbeatLost
  {
    LostInTurn(now, turns, n);
    StaysClosed(Begin(now, 0), turns, n + 1);
  }

  /** Over a whole run: it ended for lack of pings exactly when some turn found it open, had its writes go out and was
      overdue. */
  lemma HeartbeatLostExactly(now: int, turns: seq<Turn>)
    ensures Ran(now, turns).exit == HeartbeatLost <==> exists n: nat :: LostAt(now, turns, n)
  {
    if Ran(now, turns).exit == HeartbeatLost {
      assert turns[..|turns|] == turns;
      if forall n: nat | n < |turns| :: !LostAt(now, turns, n) { NotLostSoFar(now, turns, |turns|); }
    } else {
      forall n: nat ensures !LostAt(now, turns, n) {
        if LostAt(now, turns, n) { TurnLoses(now, turns, n); }
      }
    }
  }

  /** Turn `next` processes a ping or hello after the check of turn `n`, less than 3500 ms after the one before it. */
  ghost predicate PingsAgain(now: int, turns: seq<Turn>, n: nat, next: nat) {
    && n <= next < |turns| && KeepsAlive(turns[next].read) && turns[n].beatAt <= turns[next].readAt
    && turns[next].readAt - LastAlive(now, turns[..n]) < HEARTBEAT_TIMEOUT
  }

  ghost predicate Steady(now: int, turns: seq<Turn>, n: nat) { exists next: nat :: PingsAgain(now, turns, n, next) }

  /** While pings and hellos keep following one another within 3500 ms, no run ends for lack of them. */
  lemma SteadyPingsKeepItOpen(now: int, turns: seq<Turn>, m: nat)
    requires m <= |turns| && forall n | 0 <= n < m :: Steady(now, turns, n)
    ensures Ran(now, turns[..m]).exit != HeartbeatLost
  {
    forall n: nat | n < m ensures !LostAt(now, turns, n) { assert Steady(now, turns, n); }
    NotLostSoFar(now, turns, m);
  }

  // ----- Expiry -----

  /** After the expiry check nothing overdue waits, as long as the session is open. */
  lemma StepLeavesNoneLate(s: Session, t: Turn)
    requires Step(s, t).exit == Open
    ensures forall id | id in Step(s, t).pending :: Step(s, t).pending[id].deadlineAt > t.expireAt
  {
    BeforePollKeeps(s, t);
    var sent := SendAll(s, t.commands);
    var expired := Expire(sent, t.expireAt);
    assert expired.pending == sent.pending - Late(sent.pending, t.expireAt);
    var ready := BeforePoll(s, t);
    assert ready.pending == expired.pending;
    PollOnlyRemoves(ready, t);
  }

  lemma PollOnlyRemoves(s: Session, t: Turn)
    ensures forall id | id in Poll(s, t).pending :: id in s.pending && Poll(s, t).pending[id] == s.pending[id]
  {
  }

  lemma {:induction false} SentInTurn(s: Session, commands: seq<Command>, id: string)
    requires id in SendAll(s, commands).pending
    ensures (id in s.pending && SendAll(s, commands).pending[id] == s.pending[id])
      || exists c :: c in commands && SendAll(s, commands).pending[id].deadlineAt == c.at + c.deadlineMs
  {
    if commands != [] {
      var front, c := commands[..|commands| - 1], commands[|commands| - 1];
      var before := SendAll(s, front);
      if before.exit == Open && before.handshake && c.written && id == c.id {
        assert c in commands;
      } else {
        SentInTurn(s, front, id);
        if id !in s.pending || before.pending[id] != s.pending[id] {
          var c' :| c' in front && before.pending[id].deadlineAt == c'.at + c'.deadlineMs;
          assert c' in commands;
        }
      }
    }
  }

  /** What a turn times out is past its deadline, by the loop's pace at most; what stays pending is not past it. */
  lemma SwitchesExpireOnTime(now: int, turns: seq<Turn>, t: Turn, p: int)
    requires Paced(turns + [t], p) && Ran(now, turns).exit == Open
    ensures var table := SendAll(Ran(now, turns), t.commands).pending;
      forall id | id in Late(table, t.expireAt) :: table[id].deadlineAt <= t.expireAt <= table[id].deadlineAt + p
    ensures Step(Ran(now, turns), t).exit == Open ==>
      forall id | id in Step(Ran(now, turns), t).pending :: Step(Ran(now, turns), t).pending[id].deadlineAt > t.expireAt
  {
    var s := Ran(now, turns);
    var table := SendAll(s, t.commands).pending;
    var n := |turns|;
    LastPace(turns, t, p);
    forall id | id in Late(table, t.expireAt)
      ensures t.expireAt <= table[id].deadlineAt + p
    {
      SentInTurn(s, t.commands, id);
      if id in s.pending && table[id] == s.pending[id] {
        if turns != [] {
          assert Step(Ran(now, turns[..n - 1]), turns[n - 1]) == s;
          StepLeavesNoneLate(Ran(now, turns[..n - 1]), turns[n - 1]);
        }
      }
    }
    if Step(s, t).exit == Open { StepLeavesNoneLate(s, t); }
  }

  // ----- Periodic snapshots -----

  /** When the first handshake was acknowledged. */
  function AckAt(log: seq<Event>): Option<int> {
    if log == [] then None
    else
      var before := AckAt(log[..|log| - 1]);
      if before.None? && log[|log| - 1].Acknowledged? then Some(log[|log| - 1].at) else before
  }

  /** When snapshots were written since then. */
  function StatusTimes(log: seq<Event>): seq<int> {
    if log == [] then []
    else
      var front, e := log[..|log| - 1], log[|log| - 1];
      StatusTimes(front) + (if e.StatusSent? && AckAt(front).Some? then [e.at] else [])
  }

  lemma StatusSnoc(log: seq<Event>, e: Event)
    ensures AckAt(log + [e]) == if AckAt(log).None? && e.Acknowledged? then Some(e.at) else AckAt(log)
    ensures StatusTimes(log + [e]) == StatusTimes(log) + (if e.StatusSent? && AckAt(log).Some? then [e.at] else [])
  {
    assert (log + [e])[..|log|] == log;
  }

  ghost predicate GapsBelow(times: seq<int>, bound: int) {
    forall i | 0 < i < |times| :: times[i] - times[i - 1] < bound
  }

  /** After a turn whose push check was at `check` and whose read was at `read`. */
  ghost predicate Regular(ack: Option<int>, times: seq<int>, handshake: bool, lastPush: int, check: int, read: int, p: int) {
    && (handshake <==> ack.Some?)
    && GapsBelow(times, STATUS_PUSH_INTERVAL + p)
    && (times != [] ==>
        && ack.Some? && times[0] - ack.value <= p
        && check - Last(times) < STATUS_PUSH_INTERVAL
        && (lastPush == Last(times) || lastPush <= read - STATUS_PUSH_INTERVAL))
    && (handshake && times == [] ==> lastPush <= read - STATUS_PUSH_INTERVAL && ack.value >= read)
  }

  ghost predicate RegularSession(s: Session, check: int, read: int, p: int) {
    Regular(AckAt(s.log), StatusTimes(s.log), s.handshake, s.lastPush, check, read, p)
  }

  /** Sending requests and expiring them leaves snapshots alone. */
  lemma {:induction false} SendIsQuiet(s: Session, commands: seq<Command>)
    ensures var s' := SendAll(s, commands);
      AckAt(s'.log) == AckAt(s.log) && StatusTimes(s'.log) == StatusTimes(s.log)
      && s'.handshake == s.handshake && s'.lastPush == s.lastPush
  {
    if commands != [] {
      var front, c := commands[..|commands| - 1], commands[|commands| - 1];
      SendIsQuiet(s, front);
      StatusSnoc(SendAll(s, front).log, SwitchSent(c.id, c.at));
    }
  }

  lemma ExpireIsQuiet(s: Session, now: int)
    ensures var s' := Expire(s, now);
      AckAt(s'.log) == AckAt(s.log) && StatusTimes(s'.log) == StatusTimes(s.log)
      && s'.handshake == s.handshake && s'.lastPush == s.lastPush && s'.exit == s.exit
  {
    StatusSnoc(s.log, TimedOut(Late(s.pending, now), now));
  }

  /** A snapshot at `at`, a check after the earlier one, keeps the gaps. */
  lemma OneMoreSnapshot(ack: Option<int>, times: seq<int>, at: int, check: int, p: int)
    requires ack.Some? && GapsBelow(times, STATUS_PUSH_INTERVAL + p)
    requires times != [] ==> check - Last(times) < STATUS_PUSH_INTERVAL && at - check <= p && times[0] - ack.value <= p
    requires times == [] ==> at - ack.value <= p
    ensures GapsBelow(times + [at], STATUS_PUSH_INTERVAL + p)
    ensures (times + [at])[0] - ack.value <= p && Last(times + [at]) == at
  {
  }

  /** After the push check every greeted session has a snapshot younger than a second. */
  lemma PushIsRegular(s: Session, t: Turn, check: int, read: int, p: int)
    requires RegularSession(s, check, read, p) && s.exit == Open && Push(s, t).exit == Open
    requires Ordered(t) && (s.handshake ==> read <= t.pushAt && t.pushedAt - check <= p && check <= read)
    ensures var s', times := Push(s, t), StatusTimes(Push(s, t).log);
      && AckAt(s'.log) == AckAt(s.log) && s'.handshake == s.handshake
      && GapsBelow(times, STATUS_PUSH_INTERVAL + p)
      && (s.handshake ==>
          times != [] && times[0] - AckAt(s.log).value <= p && t.pushAt - Last(times) < STATUS_PUSH_INTERVAL
          && s'.lastPush == Last(times))
      && (!s.handshake ==> times == [])
  {
    StatusSnoc(s.log, StatusSent(Snapshot(t.pushWorld, s.overrides), t.pushedAt));
    if s.handshake && t.pushAt - s.lastPush >= STATUS_PUSH_INTERVAL {
      OneMoreSnapshot(AckAt(s.log), StatusTimes(s.log), t.pushedAt, check, p);
    }
  }

  /** The reads that leave no trace in the log of a session that stays open. */
  predicate Silent(s: Session, r: Read) {
    match r
    case Malformed(written) => !written
    case Message(Ping, _) => true
    case Message(SetMode(mode), _) => ParseMode(mode).Some? && s.overrides.mode == ParseMode(mode)
    case Message(SetSetting(key, value), _) =>
      Supported(key) && key in s.overrides.settings && s.overrides.settings[key] == value
    case Message(SwitchResult(id, _), _) => id !in s.pending
    case Message(_, _) => false
    case _ => true
  }

  /** What the read adds to the log: nothing, or the event `e`. */
  ghost predicate Logs(s: Session, s': Session, silent: bool, e: Event, at: int) {
    if silent then s'.log == s.log && s'.handshake == s.handshake && s'.lastPush == s.lastPush
    else
      && s'.log == s.log + [e]
      && s'.handshake == (s.handshake || e.Acknowledged?)
      && s'.lastPush == (if e.Acknowledged? then at - STATUS_PUSH_INTERVAL else if e.StatusSent? then at else s.lastPush)
      && (e.Acknowledged? || e.StatusSent? ==> e.at == at)
  }

  lemma SetModeLogs(s: Session, t: Turn)
    requires t.read.Message? && t.read.body.SetMode? && Poll(s, t).exit == Open
    ensures Logs(s, Poll(s, t), Silent(s, t.read), Noted(s, t.read.body, t.readAt, t.readWorld), t.readAt)
  {
  }

  lemma SetSettingLogs(s: Session, t: Turn)
    requires t.read.Message? && t.read.body.SetSetting? && Poll(s, t).exit == Open
    ensures Logs(s, Poll(s, t), Silent(s, t.read), Noted(s, t.read.body, t.readAt, t.readWorld), t.readAt)
  {
  }

  lemma OtherMessageLogs(s: Session, t: Turn)
    requires t.read.Message? && !t.read.body.SetMode? && !t.read.body.SetSetting? && Poll(s, t).exit == Open
    ensures Logs(s, Poll(s, t), Silent(s, t.read), Noted(s, t.read.body, t.readAt, t.readWorld), t.readAt)
  {
  }

  lemma PollLogs(s: Session, t: Turn) returns (e: Event)
    requires Poll(s, t).exit == Open
    ensures Logs(s, Poll(s, t), Silent(s, t.read), e, t.readAt)
  {
    if !t.read.Message? {
      e := Complained(t.readAt);
    } else {
      e := Noted(s, t.read.body, t.readAt, t.readWorld);
      if t.read.body.SetMode? {
        SetModeLogs(s, t);
      } else if t.read.body.SetSetting? {
        SetSettingLogs(s, t);
      } else {
        OtherMessageLogs(s, t);
      }
    }
  }

  lemma PollIsRegular(s: Session, t: Turn, p: int)
    requires Poll(s, t).exit == Open && Ordered(t) && t.readAt - t.pushAt <= p
    requires var times := StatusTimes(s.log);
      && (s.handshake <==> AckAt(s.log).Some?)
      && GapsBelow(times, STATUS_PUSH_INTERVAL + p)
      && (s.handshake ==>
          times != [] && times[0] - AckAt(s.log).value <= p && t.pushAt - Last(times) < STATUS_PUSH_INTERVAL
          && s.lastPush == Last(times))
      && (!s.handshake ==> times == [])
    ensures RegularSession(Poll(s, t), t.pushAt, t.readAt, p)
    ensures s.handshake ==> StatusTimes(Poll(s, t).log) != []
  {
    var e := PollLogs(s, t);
    if !Silent(s, t.read) {
      StatusSnoc(s.log, e);
      if e.StatusSent? && s.handshake {
        OneMoreSnapshot(AckAt(s.log), StatusTimes(s.log), t.readAt, t.pushAt, p);
      }
    }
  }

  lemma StepIsRegular(s: Session, t: Turn, check: int, read: int, p: int)
    requires RegularSession(s, check, read, p) && Step(s, t).exit == Open && WithinTurn(t, p)
    requires s.handshake ==> read <= t.pushAt && t.pushedAt - check <= p && check <= read
    ensures RegularSession(Step(s, t), t.pushAt, t.readAt, p)
    ensures s.handshake ==> StatusTimes(Step(s, t).log) != []
  {
    BeforePollKeeps(s, t);
    var sent := SendAll(s, t.commands);
    SendIsQuiet(s, t.commands);
    var expired := Expire(sent, t.expireAt);
    ExpireIsQuiet(sent, t.expireAt);
    var pushed := Push(expired, t);
    PushIsRegular(expired, t, check, read, p);
    assert Beat(pushed, t.beatAt) == pushed;
    PollIsRegular(pushed, t, p);
  }

  lemma {:induction false} RunIsRegular(now: int, turns: seq<Turn>, p: int)
    requires Paced(turns, p) && Ran(now, turns).exit == Open && turns != []
    ensures var t := turns[|turns| - 1]; RegularSession(Ran(now, turns), t.pushAt, t.readAt, p)
    ensures Greeted(turns[..|turns| - 1]) ==> StatusTimes(Ran(now, turns).log) != []
  {
    var front, t := turns[..|turns| - 1], turns[|turns| - 1];
    ReadsDecide(now, turns);
    ReadsDecide(now, front);
    PacedFront(turns, p);
    assert WithinTurn(t, p);
    if front == [] {
      StepIsRegular(Begin(now, 0), t, now, now, p);
    } else {
      var last := front[|front| - 1];
      assert WithinTurn(turns[|turns| - 2], p) && NextTurn(turns[|turns| - 2], turns[|turns| - 1], p);
      RunIsRegular(now, front, p);
      StepIsRegular(Ran(now, front), t, last.pushAt, last.readAt, p);
    }
  }

  /** After the handshake the first snapshot comes within the pace, and further ones at gaps below 1000 ms plus the pace;
      at every push check since, the latest one was less than 1000 ms old. */
  lemma SnapshotsKeepComing(now: int, turns: seq<Turn>, p: int)
    requires Paced(turns, p) && Ran(now, turns).exit == Open && turns != []
    requires Greeted(turns[..|turns| - 1])
    ensures var log := Ran(now, turns).log;
      && AckAt(log).Some? && StatusTimes(log) != []
      && StatusTimes(log)[0] - AckAt(log).value <= p
      && GapsBelow(StatusTimes(log), STATUS_PUSH_INTERVAL + p)
      && turns[|turns| - 1].pushAt - Last(StatusTimes(log)) < STATUS_PUSH_INTERVAL
  {
    RunIsRegular(now, turns, p);
  }
}
