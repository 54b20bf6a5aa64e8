/** Plugin and core together: what becomes of a dock's set_mode or set_setting on a connected session, for given bounds on
    the plugin's loop, the two channels and the core's loop. The core's part is the session of `CoreSession`, the plugin's
    parts are the queues of `OutboundQueues` and the ledger of `DockActions`. */
module EndToEnd {
  import opened Options
  import opened CoreStatus
  import Q = OutboundQueues
  import D = DockActions
  import C = CoreSession

  /** What a request is for: the mode, or one of the settings. */
  datatype Key = ModeKey | SettingKey(name: string)

  datatype Value = Text(mode: string) | Flag(on: bool)

  type Request = Q.Request<Key, Value>

  /** What the dock's intake lets through: one of the two modes, or a flag for one of the five settings. */
  predicate Askable(x: Request) {
    match x.key
    case ModeKey => x.value == Text("studio") || x.value == Text("irl")
    case SettingKey(name) =>
      && x.value.Flag?
      && name in {"auto_scene_switch", "low_quality_fallback", "manual_override", "chat_bot", "alerts"}
  }

  /** Each kind of request has its queue. */
  datatype Queue = Modes | Settings

  function QueueOf(key: Key): Queue { if key.ModeKey? then Modes else Settings }

  datatype Sent<T> = Sent(msg: T, at: int)

  /** `since` is when each key was last queued, `lastCheck` when the core last looked whether to push, `inTurn` whether it
      has yet to read in its turn. The dock actions taken in, the snapshots that arrived and the ticks are `events`. */
  datatype Link = Link(
    now: int, modes: Q.Lane<Request>, settings: Q.Lane<Request>, since: map<Key, int>, toCore: seq<Sent<Request>>,
    core: C.Session, lastCheck: int, inTurn: bool, toPlugin: seq<Sent<StatusPayload>>, events: seq<D.Event>)
  {
    function Lane(queue: Queue): Q.Lane<Request> { if queue.Modes? then modes else settings }

    function With(queue: Queue, lane: Q.Lane<Request>): Link {
      if queue.Modes? then this.(modes := lane) else this.(settings := lane)
    }
  }

  /** How long a queued request waits for the drain, a written one for the core, a snapshot for the plugin's main
      thread, and how far the core's push checks are apart. */
  datatype Delays = Delays(queue: nat, channel: nat, pace: nat, delivery: nat)

  /** The core takes its turns in two acts: everything up to the read, and the read. */
  datatype Act =
    | Accept(id: string, x: Request)
    | Swap(queue: Queue)
    | SendOk(queue: Queue)
    | Check(t: C.Turn)
    | Poll(t: C.Turn)
    | Deliver
    | Tick
    | Pass(to: int)

  /** What the plugin reads off a snapshot. */
  function Projected(p: StatusPayload): D.StatusSnapshot {
    D.StatusSnapshot(Some(if p.mode == Studio then "studio" else "irl"), if p.settings.Some? then p.settings.value else map[])
  }

  function Wanted(x: Request): D.Want {
    match x.key
    case ModeKey => D.WantMode(if x.value.Text? then x.value.mode else "")
    case SettingKey(name) => D.WantSetting(name, x.value == Flag(true))
  }

  predicate Shows(p: StatusPayload, x: Request) { D.Shows(Projected(p), Wanted(x)) }

  /** What the core wrote between two of its states, if that is a snapshot. */
  function Written(before: C.Session, after: C.Session): seq<Sent<StatusPayload>> {
    if |after.log| > |before.log| && after.log[|after.log| - 1].StatusSent?
    then [Sent(after.log[|after.log| - 1].status, after.log[|after.log| - 1].at)]
    else []
  }

  function Left(lane: Q.Lane<Request>): seq<Request> { lane.inFlight + lane.queued }

  function Waiting(s: Link, queue: Queue): seq<Request> { Left(s.Lane(queue)) }

  /** At `now` nothing has waited longer than the bound. */
  predicate Drained(lane: Q.Lane<Request>, since: map<Key, int>, bound: nat, now: int) {
    forall x | x in Left(lane) :: x.key in since && now <= since[x.key] + bound
  }

  /** The request that a message is, if it is one. */
  function RequestOf(r: C.Read): Option<Request> {
    if r.Message? && r.body.SetMode? then Some(Q.Request(ModeKey, Text(r.body.mode)))
    else if r.Message? && r.body.SetSetting? then Some(Q.Request(SettingKey(r.body.key), Flag(r.body.value)))
    else None
  }

  /** The core's read is what the channel holds next, or another message; the plugin says hello once per connection. */
  predicate Reads(s: Link, r: C.Read) {
    && (r.Message? ==> !r.body.Hello?)
    && (RequestOf(r).Some? ==> s.toCore != [] && s.toCore[0].msg == RequestOf(r).value)
  }

  /** Writes succeed and the session stays open; time passes only as far as every bound allows. */
  predicate Can(s: Link, a: Act, d: Delays) {
    match a
    case Accept(id, x) => id != "" && Askable(x)
    case Swap(queue) => s.Lane(queue).inFlight == []
    case SendOk(queue) => s.Lane(queue).inFlight != []
    case Check(t) =>
      && !s.inTurn && s.lastCheck <= t.pushAt <= t.pushedAt == t.beatAt == s.now <= t.pushAt + d.pace
      && C.BeforePoll(s.core, t).exit == C.Open
    case Poll(t) => s.inTurn && t.readAt == s.now && Reads(s, t.read) && C.Poll(s.core, t).exit == C.Open
    case Deliver => s.toPlugin != []
    case Tick => true
    case Pass(to) =>
      && s.now <= to <= s.lastCheck + d.pace
      && Drained(s.modes, s.since, d.queue, to) && Drained(s.settings, s.since, d.queue, to)
      && (forall m | m in s.toCore :: to <= m.at + d.channel)
      && (forall m | m in s.toPlugin :: to <= m.at + d.delivery)
  }

  function Next(s: Link, a: Act): Link
    requires (a.Swap? ==> s.Lane(a.queue).inFlight == []) && (a.SendOk? ==> s.Lane(a.queue).inFlight != [])
    requires (a.Deliver? ==> s.toPlugin != []) && (a.Poll? ==> Reads(s, a.t.read))
  {
    match a
    case Accept(id, x) =>
      var queued := if x.key.ModeKey? then Q.Apply(Q.Latest, s.modes, Q.Enqueue(x))
                    else Q.Apply(Q.Coalesce, s.settings, Q.Enqueue(x));
      s.With(QueueOf(x.key), queued).(
        since := s.since[x.key := s.now],
        events := s.events + [D.Track(D.Pending(id, Wanted(x), s.now))])
    case Swap(queue) => s.With(queue, Q.Apply(Q.Append, s.Lane(queue), Q.Swap))
    case SendOk(queue) =>
      s.With(queue, Q.Apply(Q.Append, s.Lane(queue), Q.SendOk)).(
        toCore := s.toCore + [Sent(s.Lane(queue).inFlight[0], s.now)])
    case Check(t) =>
      var core := C.BeforePoll(s.core, t);
      s.(core := core, lastCheck := t.pushAt, inTurn := true, toPlugin := s.toPlugin + Written(s.core, core))
    case Poll(t) =>
      var core := C.Poll(s.core, t);
      s.(core := core, inTurn := false, toPlugin := s.toPlugin + Written(s.core, core),
         toCore := if RequestOf(t.read).Some? then s.toCore[1..] else s.toCore)
    case Deliver =>
      s.(toPlugin := s.toPlugin[1..], events := s.events + [D.Snapshot(Projected(s.toPlugin[0].msg))])
    case Tick => s.(events := s.events + [D.Tick(s.now)])
    case Pass(to) => s.(now := to)
  }

  // ----- Invariants of a connected session -----

  /** Every request in the lane was let through by the intake, and is of its kind. */
  predicate LaneAskable(lane: Q.Lane<Request>, queue: Queue) {
    forall x | x in Left(lane) :: QueueOf(x.key) == queue && Askable(x)
  }

  predicate AllAskable(s: Link) {
    && LaneAskable(s.modes, Modes) && LaneAskable(s.settings, Settings)
    && forall m | m in s.toCore :: Askable(m.msg)
  }

  /** Connected and greeted; at the last check the last snapshot was less than a second old; no send has failed. */
  ghost predicate Running(s: Link) {
    && s.core.exit == C.Open && s.core.handshake
    && s.lastCheck - s.core.lastPush < C.STATUS_PUSH_INTERVAL
    && s.lastCheck <= s.now && s.core.lastPush <= s.now
    && Q.UniqueKeys(s.settings.queued) && AllAskable(s)
  }

  /** No bound has been exceeded. */
  predicate Timely(s: Link, d: Delays) {
    && s.now <= s.lastCheck + d.pace
    && Drained(s.modes, s.since, d.queue, s.now) && Drained(s.settings, s.since, d.queue, s.now)
    && (forall m | m in s.toCore :: s.now <= m.at + d.channel)
    && (forall m | m in s.toPlugin :: s.now <= m.at + d.delivery)
  }

  /** Sending switch requests and expiring them ends no log in a snapshot. */
  lemma {:induction false} SendAllWritesNone(core: C.Session, commands: seq<C.Command>)
    ensures var log, log' := core.log, C.SendAll(core, commands).log;
      log' == log || (|log'| > |log| && !log'[|log'| - 1].StatusSent?)
  {
    if commands != [] {
      SendAllWritesNone(core, commands[..|commands| - 1]);
    }
  }

  lemma WrittenByPush(core: C.Session, ready: C.Session, t: C.Turn)
    requires C.Push(ready, t).exit == ready.exit == C.Open && ready.handshake && t.pushAt <= t.pushedAt
    requires ready.log == core.log || (|ready.log| > |core.log| && !ready.log[|ready.log| - 1].StatusSent?)
    ensures var core', w := C.Push(ready, t), Written(core, C.Push(ready, t));
      && core'.overrides == ready.overrides && core'.handshake && t.pushAt - core'.lastPush < C.STATUS_PUSH_INTERVAL
      && (w == [] ==> core'.lastPush == ready.lastPush)
      && (w != [] ==> core'.lastPush == t.pushedAt && w == [Sent(Snapshot(t.pushWorld, ready.overrides), t.pushedAt)])
  {
  }

  lemma WrittenByChecks(core: C.Session, t: C.Turn)
    requires C.BeforePoll(core, t).exit == core.exit == C.Open && core.handshake && t.pushAt <= t.pushedAt
    ensures var core', w := C.BeforePoll(core, t), Written(core, C.BeforePoll(core, t));
      && core'.overrides == core.overrides && core'.handshake && t.pushAt - core'.lastPush < C.STATUS_PUSH_INTERVAL
      && (w == [] ==> core'.lastPush == core.lastPush)
      && (w != [] ==> core'.lastPush == t.pushedAt && w == [Sent(Snapshot(t.pushWorld, core.overrides), t.pushedAt)])
  {
    C.SendKeepsErrors(core, t.commands);
    SendAllWritesNone(core, t.commands);
    var ready := C.Expire(C.SendAll(core, t.commands), t.expireAt);
    assert C.BeforePoll(core, t) == C.Push(ready, t);
    WrittenByPush(core, ready, t);
  }

  /** What the overrides hold for a key. */
  function KeptFor(o: Overrides, key: Key): Option<Value> {
    match key
    case ModeKey => if o.mode.None? then None else Some(Text(if o.mode.value == Studio then "studio" else "irl"))
    case SettingKey(name) => if name in o.settings then Some(Flag(o.settings[name])) else None
  }

  /** What they hold for it after a read. */
  function KeptAfter(core: C.Session, r: C.Read, key: Key): Option<Value> {
    var x := RequestOf(r);
    if x.Some? && x.value.key == key && Askable(x.value) then Some(x.value.value) else KeptFor(core.overrides, key)
  }

  /** A read sets what it asks for; a change is answered with a snapshot, and any snapshot is one of the new overrides. */
  ghost predicate Answers(core: C.Session, core': C.Session, t: C.Turn) {
    var w := Written(core, core');
    && core'.handshake
    && (forall key :: KeptFor(core'.overrides, key) == KeptAfter(core, t.read, key))
    && (core'.overrides != core.overrides ==> w != [])
    && (w == [] ==> core'.lastPush == core.lastPush)
    && (w != [] ==> core'.lastPush == t.readAt && w == [Sent(Snapshot(t.readWorld, core'.overrides), t.readAt)])
  }

  lemma WrittenBySetSetting(core: C.Session, t: C.Turn)
    requires C.Poll(core, t).exit == core.exit == C.Open && core.handshake
    requires t.read.Message? && t.read.body.SetSetting?
    ensures Answers(core, C.Poll(core, t), t)
  {
    var m, key, value := core.overrides.settings, t.read.body.key, t.read.body.value;
    if key in m && m[key] == value { assert m[key := value] == m; }
  }

  lemma WrittenBySetMode(core: C.Session, t: C.Turn)
    requires C.Poll(core, t).exit == core.exit == C.Open && core.handshake
    requires t.read.Message? && t.read.body.SetMode?
    ensures Answers(core, C.Poll(core, t), t)
  {
  }

  lemma WrittenByOther(core: C.Session, t: C.Turn)
    requires C.Poll(core, t).exit == core.exit == C.Open && core.handshake
    requires t.read.Message? ==> !t.read.body.Hello? && !t.read.body.SetSetting? && !t.read.body.SetMode?
    ensures Answers(core, C.Poll(core, t), t)
  {
    var core' := C.Poll(core, t);
    assert core'.overrides == core.overrides && core'.handshake;
    if t.read.Message? && t.read.body.RequestStatus? {
      assert Written(core, core') == [Sent(Snapshot(t.readWorld, core'.overrides), t.readAt)];
    } else {
      assert Written(core, core') == [] && core'.lastPush == core.lastPush;
    }
  }

  lemma WrittenByPoll(core: C.Session, t: C.Turn)
    requires C.Poll(core, t).exit == core.exit == C.Open && core.handshake
    requires t.read.Message? ==> !t.read.body.Hello?
    ensures Answers(core, C.Poll(core, t), t)
  {
    if t.read.Message? && t.read.body.SetSetting? {
      WrittenBySetSetting(core, t);
    } else if t.read.Message? && t.read.body.SetMode? {
      WrittenBySetMode(core, t);
    } else {
      WrittenByOther(core, t);
    }
  }

  lemma StaysRunning(s: Link, a: Act, d: Delays)
    requires Running(s) && Timely(s, d) && Can(s, a, d)
    ensures Running(Next(s, a)) && Timely(Next(s, a), d)
  {
    match a
    case Accept(_, _) => AcceptStaysRunning(s, a, d);
    case Swap(queue) => assert Waiting(Next(s, a), queue) == Waiting(s, queue);
    case SendOk(queue) => DrainStaysRunning(s, a, d);
    case Check(t) => WrittenByChecks(s.core, t);
    case Poll(t) => WrittenByPoll(s.core, t);
    case _ =>
  }

  lemma AcceptStaysRunning(s: Link, a: Act, d: Delays)
    requires Running(s) && Timely(s, d) && Can(s, a, d) && a.Accept?
    ensures Running(Next(s, a)) && Timely(Next(s, a), d)
  {
    if a.x.key.SettingKey? {
      CoalesceKeepsUnique(s.settings.queued, a.x);
      CoalesceMembers(s.settings.queued, a.x);
    }
    assert forall y | y in Waiting(Next(s, a), QueueOf(a.x.key)) :: y == a.x || y in Waiting(s, QueueOf(a.x.key));
  }

  lemma CoalesceKeepsUnique(q: seq<Request>, x: Request)
    requires Q.UniqueKeys(q)
    ensures Q.UniqueKeys(Q.Coalesce(q, x))
  {
    forall key ensures Q.Count(Q.Coalesce(q, x), key) <= 1 { Q.CoalesceCounts(q, x, key); }
  }

  lemma DrainStaysRunning(s: Link, a: Act, d: Delays)
    requires Running(s) && Timely(s, d) && Can(s, a, d) && a.SendOk?
    ensures Running(Next(s, a)) && Timely(Next(s, a), d)
  {
    assert s.Lane(a.queue).inFlight[0] in Waiting(s, a.queue);
    assert forall y | y in Waiting(Next(s, a), a.queue) :: y in Waiting(s, a.queue);
  }

  lemma {:induction false} CoalesceMembers(q: seq<Request>, x: Request)
    ensures forall y | y in Q.Coalesce(q, x) :: y == x || y in q
  {
    if q != [] && q[0].key != x.key {
      CoalesceMembers(q[1..], x);
    }
  }

  // ----- Where a request is -----

  /** A request for `x` that was taken in at `at`. */
  datatype Target = Target(x: Request, at: int)

  function Max(a: nat, b: nat): nat { if a >= b then a else b }

  /** The longest time until a snapshot that shows a request is written: a change is reported when the core reads it,
      a repetition by the next periodic push. */
  function Reporting(d: Delays): nat { Max(d.queue + d.channel, C.STATUS_PUSH_INTERVAL - 1 + d.pace) }

  /** The longest time until such a snapshot has arrived. */
  function WorstCase(d: Delays): nat { Reporting(d) + d.delivery }

  /** Still in the plugin: the last request that waits for its key. */
  predicate InPlugin(s: Link, g: Target, d: Delays) {
    && Q.LastFor(Waiting(s, QueueOf(g.x.key)), g.x.key) == Some(g.x.value)
    && g.x.key in s.since && s.since[g.x.key] == g.at
  }

  predicate NoneWaits(s: Link, key: Key) { Q.LastFor(Waiting(s, QueueOf(key)), key).None? }

  /** The `j`-th message in the channel, nothing for its key behind it. */
  predicate IsAt(s: Link, g: Target, d: Delays, j: nat) {
    && j < |s.toCore| && s.toCore[j].msg == g.x && s.toCore[j].at <= g.at + d.queue
    && forall i | j < i < |s.toCore| :: s.toCore[i].msg.key != g.x.key
  }

  ghost predicate InChannel(s: Link, g: Target, d: Delays) {
    NoneWaits(s, g.x.key) && exists j: nat :: IsAt(s, g, d, j)
  }

  /** Not read by the core yet. */
  ghost predicate Ongoing(s: Link, g: Target, d: Delays) { InPlugin(s, g, d) || InChannel(s, g, d) }

  /** The core has the value, and every request for the key that is still on its way asks for it too. */
  predicate Alike(s: Link, g: Target) {
    && (forall x | x in Waiting(s, QueueOf(g.x.key)) && x.key == g.x.key :: x.value == g.x.value)
    && (forall m | m in s.toCore && m.msg.key == g.x.key :: m.msg.value == g.x.value)
    && KeptFor(s.core.overrides, g.x.key) == Some(g.x.value)
  }

  predicate IsReport(m: Sent<StatusPayload>, g: Target, d: Delays) {
    Shows(m.msg, g.x) && m.at <= g.at + Reporting(d)
  }

  predicate ReportUnderWay(s: Link, g: Target, d: Delays) { exists m :: m in s.toPlugin && IsReport(m, g, d) }

  /** The value is still to come to the core, or it is there and no snapshot was written since the intake, or one that
      shows it is under way. */
  ghost predicate UnderWay(s: Link, g: Target, d: Delays) {
    if Alike(s, g) then s.core.lastPush <= g.at || ReportUnderWay(s, g, d) else Ongoing(s, g, d)
  }

  lemma HasWaiting(q: seq<Request>, key: Key)
    requires Q.LastFor(q, key).Some?
    ensures exists x :: x in q && x.key == key
  {
    var i :| 0 <= i < |q| && q[i].key == key;
    assert q[i] in q;
  }

  lemma OngoingIsYoung(s: Link, g: Target, d: Delays)
    requires Timely(s, d) && Ongoing(s, g, d)
    ensures s.now <= g.at + d.queue + d.channel
  {
    if InPlugin(s, g, d) { HasWaiting(Waiting(s, QueueOf(g.x.key)), g.x.key); }
  }

  /** A request under way is no older than the worst case. */
  lemma UnderWayIsYoung(s: Link, g: Target, d: Delays)
    requires Running(s) && Timely(s, d) && UnderWay(s, g, d)
    ensures s.now <= g.at + WorstCase(d)
  {
    if !Alike(s, g) { OngoingIsYoung(s, g, d); }
  }

  // ----- Each step moves it on -----

  lemma SnapshotShows(w: World, o: Overrides, x: Request)
    requires Askable(x) && KeptFor(o, x.key) == Some(x.value)
    ensures Shows(Snapshot(w, o), x)
  {
  }

  lemma ChannelStays(s: Link, s': Link, g: Target, d: Delays)
    requires InChannel(s, g, d) && s'.toCore == s.toCore && NoneWaits(s', g.x.key)
    ensures InChannel(s', g, d)
  {
    var j: nat :| IsAt(s, g, d, j);
    assert IsAt(s', g, d, j);
  }

  /** Nothing that a request under way depends on changes. */
  lemma SameStays(s: Link, s': Link, g: Target, d: Delays)
    requires UnderWay(s, g, d) && Waiting(s', QueueOf(g.x.key)) == Waiting(s, QueueOf(g.x.key))
    requires s'.since == s.since || (g.x.key in s.since && g.x.key in s'.since && s'.since[g.x.key] == s.since[g.x.key])
    requires s'.toCore == s.toCore && s'.core == s.core && s'.toPlugin == s.toPlugin
    ensures UnderWay(s', g, d)
  {
    if !Alike(s, g) && InChannel(s, g, d) { ChannelStays(s, s', g, d); }
  }

  lemma {:induction false} CoalesceSpares(q: seq<Request>, x: Request, y: Request)
    requires y.key != x.key
    ensures y in Q.Coalesce(q, x) <==> y in q
  {
    if q != [] && q[0].key != x.key {
      CoalesceSpares(q[1..], x, y);
      assert q == [q[0]] + q[1..];
    }
  }

  /** Another request joins the other queue, or that of the settings. */
  lemma AcceptMoves(s: Link, a: Act, g: Target, d: Delays)
    requires Running(s) && UnderWay(s, g, d) && a.Accept? && a.x.key != g.x.key
    ensures UnderWay(Next(s, a), g, d)
  {
    var s' := Next(s, a);
    if QueueOf(a.x.key) == QueueOf(g.x.key) { AcceptSpares(s, a, g.x.key); }
    assert Alike(s', g) <==> Alike(s, g);
    if !Alike(s, g) && InChannel(s, g, d) { ChannelStays(s, s', g, d); }
  }

  lemma AcceptSpares(s: Link, a: Act, key: Key)
    requires a.Accept? && a.x.key != key && a.x.key.SettingKey? && key.SettingKey?
    ensures var q, q' := Waiting(s, Settings), Waiting(Next(s, a), Settings);
      Q.LastFor(q', key) == Q.LastFor(q, key) && forall y: Request | y.key == key :: y in q' <==> y in q
  {
    var lane := s.settings;
    Q.CoalesceLast(lane.queued, a.x, key);
    Q.LastForAppend(lane.inFlight, lane.queued, key);
    Q.LastForAppend(lane.inFlight, Q.Coalesce(lane.queued, a.x), key);
    forall y: Request | y.key == key ensures y in Q.Coalesce(lane.queued, a.x) <==> y in lane.queued {
      CoalesceSpares(lane.queued, a.x, y);
    }
  }

  lemma KeyAbsent(q: seq<Request>, key: Key)
    requires Q.LastFor(q, key).None?
    ensures forall x | x in q :: x.key != key
  {
  }

  lemma SendKeepsInPlugin(s: Link, g: Target, d: Delays)
    requires Timely(s, d) && InPlugin(s, g, d) && s.Lane(QueueOf(g.x.key)).inFlight != []
    ensures Ongoing(Next(s, SendOk(QueueOf(g.x.key))), g, d)
  {
    var queue := QueueOf(g.x.key);
    var s', head := Next(s, SendOk(queue)), s.Lane(queue).inFlight[0];
    assert Waiting(s, queue) == [head] + Waiting(s', queue);
    Q.LastForCons(head, Waiting(s', queue), g.x.key);
    HasWaiting(Waiting(s, queue), g.x.key);
    if !InPlugin(s', g, d) {
      assert s'.toCore[|s.toCore|] == Sent(g.x, s.now);
      assert IsAt(s', g, d, |s.toCore|);
    }
  }

  lemma SendKeepsInChannel(s: Link, g: Target, d: Delays)
    requires InChannel(s, g, d) && s.Lane(QueueOf(g.x.key)).inFlight != []
    ensures InChannel(Next(s, SendOk(QueueOf(g.x.key))), g, d)
  {
    var queue := QueueOf(g.x.key);
    var s', head := Next(s, SendOk(queue)), s.Lane(queue).inFlight[0];
    assert Waiting(s, queue) == [head] + Waiting(s', queue);
    Q.LastForCons(head, Waiting(s', queue), g.x.key);
    assert head in Waiting(s, queue);
    KeyAbsent(Waiting(s, queue), g.x.key);
    var j: nat :| IsAt(s, g, d, j);
    assert IsAt(s', g, d, j);
  }

  /** A request leaves its queue: this one, one before it, or one for another key. */
  lemma SendMoves(s: Link, g: Target, d: Delays)
    requires Timely(s, d) && UnderWay(s, g, d) && s.Lane(QueueOf(g.x.key)).inFlight != []
    ensures UnderWay(Next(s, SendOk(QueueOf(g.x.key))), g, d)
  {
    var queue := QueueOf(g.x.key);
    var s', head := Next(s, SendOk(queue)), s.Lane(queue).inFlight[0];
    assert Waiting(s, queue) == [head] + Waiting(s', queue);
    assert s'.toCore == s.toCore + [Sent(head, s.now)];
    SentAlike(s, s', head, s.now, g);
    if !Alike(s, g) {
      if InPlugin(s, g, d) { SendKeepsInPlugin(s, g, d); } else { SendKeepsInChannel(s, g, d); }
    }
  }

  lemma SentAlike(s: Link, s': Link, head: Request, at: int, g: Target)
    requires Waiting(s, QueueOf(g.x.key)) == [head] + Waiting(s', QueueOf(g.x.key))
    requires s'.toCore == s.toCore + [Sent(head, at)] && s'.core == s.core
    ensures Alike(s', g) <==> Alike(s, g)
  {
    assert head in Waiting(s, QueueOf(g.x.key)) && Sent(head, at) in s'.toCore;
    assert forall m | m in s.toCore :: m in s'.toCore;
    assert forall x | x in Waiting(s', QueueOf(g.x.key)) :: x in Waiting(s, QueueOf(g.x.key));
  }

  /** A request leaves the other queue. */
  lemma OtherSendMoves(s: Link, queue: Queue, g: Target, d: Delays)
    requires Running(s) && UnderWay(s, g, d) && s.Lane(queue).inFlight != [] && queue != QueueOf(g.x.key)
    ensures UnderWay(Next(s, SendOk(queue)), g, d)
  {
    var s', head := Next(s, SendOk(queue)), s.Lane(queue).inFlight[0];
    assert head in Waiting(s, queue) && head.key != g.x.key;
    assert Waiting(s', QueueOf(g.x.key)) == Waiting(s, QueueOf(g.x.key));
    assert s'.toCore == s.toCore + [Sent(head, s.now)];
    assert forall m | m in s.toCore :: m in s'.toCore;
    assert Alike(s', g) <==> Alike(s, g);
    if !Alike(s, g) && InChannel(s, g, d) {
      var j: nat :| IsAt(s, g, d, j);
      assert IsAt(s', g, d, j);
    }
  }

  /** The core has the value: it writes nothing, or a snapshot that shows it. */
  lemma CoreWrites(s: Link, s': Link, w: World, g: Target, d: Delays)
    requires Running(s) && Timely(s, d) && UnderWay(s, g, d) && Alike(s, g) && Alike(s', g) && Askable(g.x)
    requires s'.now == s.now
    requires var written := Written(s.core, s'.core);
      && s'.toPlugin == s.toPlugin + written
      && (written == [] ==> s'.core.lastPush == s.core.lastPush)
      && (written != [] ==> written == [Sent(Snapshot(w, s'.core.overrides), s.now)])
    ensures UnderWay(s', g, d)
  {
    if ReportUnderWay(s, g, d) {
      var m :| m in s.toPlugin && IsReport(m, g, d);
      assert m in s'.toPlugin;
    } else if Written(s.core, s'.core) != [] {
      JustReported(s', w, g, d);
    }
  }

  lemma JustReported(s: Link, w: World, g: Target, d: Delays)
    requires Alike(s, g) && Askable(g.x) && s.now <= g.at + Reporting(d)
    requires s.toPlugin != [] && s.toPlugin[|s.toPlugin| - 1] == Sent(Snapshot(w, s.core.overrides), s.now)
    ensures ReportUnderWay(s, g, d)
  {
    SnapshotShows(w, s.core.overrides, g.x);
    assert s.toPlugin[|s.toPlugin| - 1] in s.toPlugin;
  }

  lemma CheckMoves(s: Link, a: Act, g: Target, d: Delays)
    requires Running(s) && Timely(s, d) && UnderWay(s, g, d) && Askable(g.x) && a.Check? && Can(s, a, d)
    ensures UnderWay(Next(s, a), g, d)
  {
    var s' := Next(s, a);
    WrittenByChecks(s.core, a.t);
    if Alike(s, g) {
      CoreWrites(s, s', a.t.pushWorld, g, d);
    } else if InChannel(s, g, d) {
      ChannelStays(s, s', g, d);
    }
  }

  /** A read that leaves the channel as it is, or takes a request for another key. */
  lemma OtherReadMoves(s: Link, a: Act, g: Target, d: Delays)
    requires Running(s) && Timely(s, d) && UnderWay(s, g, d) && Askable(g.x) && a.Poll? && Can(s, a, d)
    requires RequestOf(a.t.read).Some? ==> RequestOf(a.t.read).value.key != g.x.key
    ensures UnderWay(Next(s, a), g, d)
  {
    var s' := Next(s, a);
    WrittenByPoll(s.core, a.t);
    OtherReadAlike(s, s', g);
    if Alike(s, g) {
      CoreWrites(s, s', a.t.readWorld, g, d);
    } else if InChannel(s, g, d) {
      OtherReadStays(s, s', g, d);
    }
  }

  /** The channel is the same, or without a first request for another key. */
  predicate OtherTaken(s: Link, s': Link, key: Key) {
    s'.toCore == s.toCore || (s.toCore != [] && s.toCore[0].msg.key != key && s'.toCore == s.toCore[1..])
  }

  lemma OtherReadAlike(s: Link, s': Link, g: Target)
    requires OtherTaken(s, s', g.x.key) && Waiting(s', QueueOf(g.x.key)) == Waiting(s, QueueOf(g.x.key))
    requires KeptFor(s'.core.overrides, g.x.key) == KeptFor(s.core.overrides, g.x.key)
    ensures Alike(s', g) <==> Alike(s, g)
  {
    assert forall m | m in s'.toCore :: m in s.toCore;
    assert forall m | m in s.toCore && m.msg.key == g.x.key :: m in s'.toCore;
  }

  lemma OtherReadStays(s: Link, s': Link, g: Target, d: Delays)
    requires OtherTaken(s, s', g.x.key) && InChannel(s, g, d) && NoneWaits(s', g.x.key)
    ensures InChannel(s', g, d)
  {
    var j: nat :| IsAt(s, g, d, j);
    if s'.toCore == s.toCore { assert IsAt(s', g, d, j); } else { assert IsAt(s', g, d, j - 1); }
  }

  /** The channel is without a first request for the key, which leaves nothing but the value: the core did not have it. */
  lemma ReadWasChange(s: Link, s': Link, g: Target)
    requires s.toCore != [] && s'.toCore == s.toCore[1..] && s.toCore[0].msg.key == g.x.key
    requires Waiting(s', QueueOf(g.x.key)) == Waiting(s, QueueOf(g.x.key))
    requires KeptFor(s'.core.overrides, g.x.key) == Some(s.toCore[0].msg.value)
    requires !Alike(s, g) && Alike(s', g)
    ensures KeptFor(s.core.overrides, g.x.key) != Some(g.x.value)
  {
    assert forall m | m in s.toCore :: m == s.toCore[0] || m in s'.toCore;
  }

  /** The core reads a request for the key. If that leaves nothing but the value, it was a change, and is reported. */
  lemma ReadMoves(s: Link, a: Act, g: Target, d: Delays)
    requires Running(s) && Timely(s, d) && UnderWay(s, g, d) && Askable(g.x) && a.Poll? && Can(s, a, d)
    requires RequestOf(a.t.read).Some? && RequestOf(a.t.read).value.key == g.x.key
    ensures UnderWay(Next(s, a), g, d)
  {
    var s' := Next(s, a);
    WrittenByPoll(s.core, a.t);
    assert s.toCore[0] in s.toCore && forall m | m in s'.toCore :: m in s.toCore;
    if Alike(s, g) {
      CoreWrites(s, s', a.t.readWorld, g, d);
    } else {
      OngoingIsYoung(s, g, d);
      if Alike(s', g) {
        ReadWasChange(s, s', g);
        JustReported(s', a.t.readWorld, g, d);
      } else if InChannel(s, g, d) {
        ReadStays(s, s', g, d);
      }
    }
  }

  lemma ReadStays(s: Link, s': Link, g: Target, d: Delays)
    requires InChannel(s, g, d) && !Alike(s', g) && s.toCore != [] && s'.toCore == s.toCore[1..]
    requires Waiting(s', QueueOf(g.x.key)) == Waiting(s, QueueOf(g.x.key))
    requires KeptFor(s'.core.overrides, g.x.key) == Some(s.toCore[0].msg.value)
    ensures InChannel(s', g, d)
  {
    var j: nat :| IsAt(s, g, d, j);
    if j == 0 { LastOneRead(s, s', g, d); } else { assert IsAt(s', g, d, j - 1); }
  }

  lemma LastOneRead(s: Link, s': Link, g: Target, d: Delays)
    requires IsAt(s, g, d, 0) && NoneWaits(s, g.x.key) && s'.toCore == s.toCore[1..]
    requires Waiting(s', QueueOf(g.x.key)) == Waiting(s, QueueOf(g.x.key))
    requires KeptFor(s'.core.overrides, g.x.key) == Some(g.x.value)
    ensures Alike(s', g)
  {
    KeyAbsent(Waiting(s, QueueOf(g.x.key)), g.x.key);
  }

  lemma PollMoves(s: Link, a: Act, g: Target, d: Delays)
    requires Running(s) && Timely(s, d) && UnderWay(s, g, d) && Askable(g.x) && a.Poll? && Can(s, a, d)
    ensures UnderWay(Next(s, a), g, d)
  {
    if RequestOf(a.t.read).Some? && RequestOf(a.t.read).value.key == g.x.key {
      ReadMoves(s, a, g, d);
    } else {
      OtherReadMoves(s, a, g, d);
    }
  }

  // ----- What the dock is told -----

  function Action(id: string, g: Target): D.Pending { D.Pending(id, Wanted(g.x), g.at) }

  function Outcome(id: string, g: Target, later: seq<D.Event>): D.Outcome {
    D.OutcomeOf(Action(id, g), later, 0, |later|)
  }

  /** Not failed, and if not completed then under way. `later` is what happened since the intake. */
  ghost predicate Promised(s: Link, id: string, g: Target, d: Delays, later: seq<D.Event>) {
    match Outcome(id, g, later)
    case Completed => true
    case Waiting => UnderWay(s, g, d)
    case Failed => false
  }

  lemma OneMoreEvent(id: string, g: Target, later: seq<D.Event>, e: D.Event)
    ensures Outcome(id, g, later + [e]) ==
      if Outcome(id, g, later) != D.Waiting then Outcome(id, g, later)
      else
        match e
        case Track(_) => D.Waiting
        case Snapshot(status) => if D.Shows(status, Wanted(g.x)) then D.Completed else D.Waiting
        case Tick(now) => if now - g.at >= D.COMPLETION_TIMEOUT_MS then D.Failed else D.Waiting
  {
    D.OutcomeOfPrefix(Action(id, g), later, [e], 0, |later|);
  }

  /** A snapshot arrives: it completes the request, or the one that will is still to come. */
  lemma DeliverMoves(s: Link, id: string, g: Target, d: Delays, later: seq<D.Event>)
    requires UnderWay(s, g, d) && s.toPlugin != [] && Outcome(id, g, later) == D.Waiting
    ensures Promised(Next(s, Deliver), id, g, d, later + [D.Snapshot(Projected(s.toPlugin[0].msg))])
  {
    var s', head := Next(s, Deliver), s.toPlugin[0];
    OneMoreEvent(id, g, later, D.Snapshot(Projected(head.msg)));
    if !Shows(head.msg, g.x) {
      assert Alike(s', g) <==> Alike(s, g);
      if !Alike(s, g) {
        if InChannel(s, g, d) { ChannelStays(s, s', g, d); }
      } else if ReportUnderWay(s, g, d) {
        var m :| m in s.toPlugin && IsReport(m, g, d);
        assert m in s'.toPlugin;
      }
    }
  }

  /** What an act adds to the plugin's events. */
  function Added(s: Link, a: Act): seq<D.Event> {
    match a
    case Accept(id, x) => [D.Track(D.Pending(id, Wanted(x), s.now))]
    case Deliver => if s.toPlugin == [] then [] else [D.Snapshot(Projected(s.toPlugin[0].msg))]
    case Tick => [D.Tick(s.now)]
    case _ => []
  }

  /** The acts other than another request for the same key. */
  predicate Spares(a: Act, key: Key) { a.Accept? ==> a.x.key != key }

  /** Every step keeps a request under way or completes it, as long as no tick finds it too old. */
  lemma StepKeepsPromise(s: Link, a: Act, id: string, g: Target, d: Delays, later: seq<D.Event>)
    requires Running(s) && Timely(s, d) && Can(s, a, d) && Spares(a, g.x.key) && Askable(g.x)
    requires a.Tick? ==> s.now - g.at < D.COMPLETION_TIMEOUT_MS
    requires Promised(s, id, g, d, later)
    ensures Promised(Next(s, a), id, g, d, later + Added(s, a))
  {
    if Added(s, a) == [] {
      assert later + Added(s, a) == later;
    } else {
      OneMoreEvent(id, g, later, Added(s, a)[0]);
    }
    if Outcome(id, g, later) == D.Waiting {
      if a.Deliver? { DeliverMoves(s, id, g, d, later); } else { StepMoves(s, a, g, d); }
    }
  }

  lemma StepMoves(s: Link, a: Act, g: Target, d: Delays)
    requires Running(s) && Timely(s, d) && Can(s, a, d) && Spares(a, g.x.key) && Askable(g.x) && !a.Deliver?
    requires UnderWay(s, g, d)
    ensures UnderWay(Next(s, a), g, d)
  {
    if a.Accept? {
      AcceptMoves(s, a, g, d);
    } else if a.SendOk? {
      if a.queue == QueueOf(g.x.key) { SendMoves(s, g, d); } else { OtherSendMoves(s, a.queue, g, d); }
    } else if a.Check? {
      CheckMoves(s, a, g, d);
    } else if a.Poll? {
      PollMoves(s, a, g, d);
    } else {
      QuietMoves(s, a, g, d);
    }
  }

  lemma QuietMoves(s: Link, a: Act, g: Target, d: Delays)
    requires UnderWay(s, g, d) && Can(s, a, d) && (a.Swap? || a.Tick? || a.Pass?)
    ensures UnderWay(Next(s, a), g, d)
  {
    assert Waiting(Next(s, a), QueueOf(g.x.key)) == Waiting(s, QueueOf(g.x.key));
    SameStays(s, Next(s, a), g, d);
  }

  lemma AcceptPromises(s: Link, a: Act, d: Delays)
    requires Running(s) && a.Accept?
    ensures UnderWay(Next(s, a), Target(a.x, s.now), d)
  {
    var lane := s.Lane(QueueOf(a.x.key));
    var queued := if a.x.key.ModeKey? then [a.x] else Q.Coalesce(lane.queued, a.x);
    if a.x.key.ModeKey? {
      assert [a.x][..0] == [];
    } else {
      Q.CoalesceLast(lane.queued, a.x, a.x.key);
    }
    Q.LastForAppend(lane.inFlight, queued, a.x.key);
    assert InPlugin(Next(s, a), Target(a.x, s.now), d);
  }

  /** A run of the whole, from any connected state on. */
  ghost predicate IsRun(states: seq<Link>, acts: seq<Act>, d: Delays) {
    && |states| == |acts| + 1 && Running(states[0]) && Timely(states[0], d)
    && forall i | 0 <= i < |acts| :: Can(states[i], acts[i], d) && states[i + 1] == Next(states[i], acts[i])
  }

  /** What happened on the plugin's side in acts `m` to `n`. */
  function Between(states: seq<Link>, acts: seq<Act>, m: nat, n: nat): seq<D.Event>
    requires m <= n <= |acts| <= |states|
  {
    if m == n then [] else Between(states, acts, m, n - 1) + Added(states[n - 1], acts[n - 1])
  }

  lemma {:induction false} RunStaysTimely(states: seq<Link>, acts: seq<Act>, d: Delays, n: nat)
    requires IsRun(states, acts, d) && n <= |acts|
    ensures Running(states[n]) && Timely(states[n], d)
  {
    if n > 0 {
      RunStaysTimely(states, acts, d, n - 1);
      StaysRunning(states[n - 1], acts[n - 1], d);
    }
  }

  // ----- The core's part of a run is a run of its loop -----

  /** The turn with another's read. */
  function Joined(t: C.Turn, r: C.Turn): C.Turn { t.(read := r.read, readAt := r.readAt, readWorld := r.readWorld) }

  /** The turn that the core is in or was in last. */
  function Begun(acts: seq<Act>, n: nat): (t: Option<C.Turn>)
    requires n <= |acts|
  {
    if n == 0 then None else if acts[n - 1].Check? then Some(acts[n - 1].t) else Begun(acts, n - 1)
  }

  /** The turns that the core has completed. */
  function Turns(acts: seq<Act>, n: nat): seq<C.Turn>
    requires n <= |acts|
  {
    if n == 0 then []
    else if acts[n - 1].Poll? && Begun(acts, n - 1).Some?
    then Turns(acts, n - 1) + [Joined(Begun(acts, n - 1).value, acts[n - 1].t)]
    else Turns(acts, n - 1)
  }

  /** In a run that begins between two turns, the core is where its loop is after the completed turns, or in the next one
      before its read. */
  lemma {:induction false} CoreRunsItsLoop(states: seq<Link>, acts: seq<Act>, d: Delays, n: nat)
    requires IsRun(states, acts, d) && n <= |acts| && !states[0].inTurn
    ensures var core := C.After(states[0].core, Turns(acts, n));
      if states[n].inTurn then Begun(acts, n).Some? && states[n].core == C.BeforePoll(core, Begun(acts, n).value)
      else states[n].core == core
  {
    if n > 0 {
      CoreRunsItsLoop(states, acts, d, n - 1);
      var s, a := states[n - 1], acts[n - 1];
      assert Can(s, a, d) && states[n] == Next(s, a);
      CoreMoves(s, a, d);
      if a.Poll? {
        var turns, t := Turns(acts, n - 1), Joined(Begun(acts, n - 1).value, a.t);
        assert (turns + [t])[..|turns|] == turns;
        JoinedTurn(C.After(states[0].core, turns), Begun(acts, n - 1).value, a.t);
      }
    }
  }

  /** What an act does to the core. */
  lemma CoreMoves(s: Link, a: Act, d: Delays)
    requires Can(s, a, d)
    ensures var s' := Next(s, a);
      if a.Check? then !s.inTurn && s'.inTurn && s'.core == C.BeforePoll(s.core, a.t)
      else if a.Poll? then s.inTurn && !s'.inTurn && s'.core == C.Poll(s.core, a.t)
      else s'.inTurn == s.inTurn && s'.core == s.core
  {
  }

  lemma JoinedPush(s: C.Session, t: C.Turn, r: C.Turn)
    ensures C.Push(s, Joined(t, r)) == C.Push(s, t)
  {
  }

  lemma JoinedPoll(s: C.Session, t: C.Turn, r: C.Turn)
    ensures C.Poll(s, Joined(t, r)) == C.Poll(s, r)
  {
  }

  lemma JoinedTurn(core: C.Session, t: C.Turn, r: C.Turn)
    ensures C.Step(core, Joined(t, r)) == C.Poll(C.BeforePoll(core, t), r)
  {
    JoinedPush(C.Expire(C.SendAll(core, t.commands), t.expireAt), t, r);
    assert C.BeforePoll(core, Joined(t, r)) == C.BeforePoll(core, t);
    JoinedPoll(C.BeforePoll(core, t), t, r);
  }

  // ----- Whole runs -----

  /** A core whose checks are no time apart lets no time pass. */
  lemma {:induction false} NoPaceNoTime(states: seq<Link>, acts: seq<Act>, d: Delays, m: nat, n: nat)
    requires IsRun(states, acts, d) && m <= n <= |acts| && d.pace == 0
    ensures states[n].now == states[m].now
  {
    if m < n {
      NoPaceNoTime(states, acts, d, m, n - 1);
      RunStaysTimely(states, acts, d, n - 1);
      NoPaceStep(states[n - 1], acts[n - 1], d);
    }
  }

  lemma NoPaceStep(s: Link, a: Act, d: Delays)
    requires Running(s) && Timely(s, d) && Can(s, a, d) && d.pace == 0
    ensures Next(s, a).now == s.now
  {
  }

  /** The delays for which a request that nothing overrides is always confirmed in time. */
  predicate InTime(d: Delays) { d.pace == 0 || WorstCase(d) < D.COMPLETION_TIMEOUT_MS }

  lemma {:induction false} RunKeepsPromise(states: seq<Link>, acts: seq<Act>, d: Delays, m: nat, n: nat)
    requires IsRun(states, acts, d) && m < n <= |acts| && acts[m].Accept? && InTime(d)
    requires forall i | m < i < n :: Spares(acts[i], acts[m].x.key)
    ensures Promised(states[n], acts[m].id, Target(acts[m].x, states[m].now), d, Between(states, acts, m + 1, n))
  {
    if n == m + 1 {
      RunStaysTimely(states, acts, d, m);
      assert Between(states, acts, m + 1, n) == [];
      AcceptPromises(states[m], acts[m], d);
    } else {
      var s, a, g, later := states[n - 1], acts[n - 1], Target(acts[m].x, states[m].now), Between(states, acts, m + 1, n - 1);
      assert Promised(s, acts[m].id, g, d, later) by { RunKeepsPromise(states, acts, d, m, n - 1); }
      assert Running(s) && Timely(s, d) by { RunStaysTimely(states, acts, d, n - 1); }
      assert Can(s, a, d) && Spares(a, g.x.key);
      if d.pace == 0 { NoPaceNoTime(states, acts, d, m, n - 1); }
      PromisedStep(s, a, acts[m].id, g, d, later);
    }
  }

  lemma PromisedStep(s: Link, a: Act, id: string, g: Target, d: Delays, later: seq<D.Event>)
    requires Running(s) && Timely(s, d) && Can(s, a, d) && Spares(a, g.x.key) && Askable(g.x)
    requires d.pace == 0 ==> s.now == g.at
    requires InTime(d) && Promised(s, id, g, d, later)
    ensures Promised(Next(s, a), id, g, d, later + Added(s, a))
  {
    if Outcome(id, g, later) == D.Waiting {
      UnderWayIsYoung(s, g, d);
      StepKeepsPromise(s, a, id, g, d, later);
    } else if Added(s, a) == [] {
      assert later + Added(s, a) == later;
    } else {
      OneMoreEvent(id, g, later, Added(s, a)[0]);
    }
  }

  /** What has become by act `n` of the request taken in by act `m`. */
  function OutcomeAt(states: seq<Link>, acts: seq<Act>, m: nat, n: nat): D.Outcome
    requires m < n <= |acts| < |states| && acts[m].Accept?
  {
    Outcome(acts[m].id, Target(acts[m].x, states[m].now), Between(states, acts, m + 1, n))
  }

  lemma PromiseMeans(s: Link, id: string, g: Target, d: Delays, later: seq<D.Event>)
    requires Running(s) && Timely(s, d) && Promised(s, id, g, d, later)
    ensures Outcome(id, g, later) != D.Failed
    ensures s.now > g.at + WorstCase(d) ==> Outcome(id, g, later) == D.Completed
  {
    if UnderWay(s, g, d) { UnderWayIsYoung(s, g, d); }
  }

  /** For such delays a set_mode that no later set_mode overrides, or a set_setting that no later one for the same key
      overrides, is never failed, and it is completed once the worst case has passed, whether or not it changes anything
      in the core. */
  lemma RequestAlwaysCompletes(states: seq<Link>, acts: seq<Act>, d: Delays, m: nat, n: nat)
    requires IsRun(states, acts, d) && m < n <= |acts| && acts[m].Accept? && InTime(d)
    requires forall i | m < i < n :: Spares(acts[i], acts[m].x.key)
    ensures OutcomeAt(states, acts, m, n) != D.Failed
    ensures states[n].now > states[m].now + WorstCase(d) ==> OutcomeAt(states, acts, m, n) == D.Completed
  {
    RunKeepsPromise(states, acts, d, m, n);
    RunStaysTimely(states, acts, d, n);
    PromiseMeans(states[n], acts[m].id, Target(acts[m].x, states[m].now), d, Between(states, acts, m + 1, n));
  }
}
