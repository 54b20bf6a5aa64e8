/** Scene-switch requests of a core session: each written request is pending, answered or timed out, exactly once. */
module CoreSwitches {
  import opened CoreStatus
  import opened CoreSession

  // ----- Bookkeeping read off the log -----

  function SentIds(log: seq<Event>): multiset<string> {
    if log == [] then multiset{}
    else
      var e := log[|log| - 1];
      SentIds(log[..|log| - 1]) + (if e.SwitchSent? then multiset{e.id} else multiset{})
  }

  function AnsweredIds(log: seq<Event>): multiset<string> {
    if log == [] then multiset{}
    else
      var e := log[|log| - 1];
      AnsweredIds(log[..|log| - 1]) + (if e.Answered? then multiset{e.id} else multiset{})
  }

  function TimedOutIds(log: seq<Event>): multiset<string> {
    if log == [] then multiset{}
    else
      var e := log[|log| - 1];
      TimedOutIds(log[..|log| - 1]) + (if e.TimedOut? then multiset(e.ids) else multiset{})
  }

  predicate HasAck(log: seq<Event>) {
    log != [] && (log[|log| - 1].Acknowledged? || HasAck(log[..|log| - 1]))
  }

  /** No switch request is written before the handshake is acknowledged. */
  predicate AckComesFirst(log: seq<Event>) {
    log == [] || (AckComesFirst(log[..|log| - 1]) && (log[|log| - 1].SwitchSent? ==> HasAck(log[..|log| - 1])))
  }

  lemma LogSnoc(log: seq<Event>, e: Event)
    ensures SentIds(log + [e]) == SentIds(log) + (if e.SwitchSent? then multiset{e.id} else multiset{})
    ensures AnsweredIds(log + [e]) == AnsweredIds(log) + (if e.Answered? then multiset{e.id} else multiset{})
    ensures TimedOutIds(log + [e]) == TimedOutIds(log) + (if e.TimedOut? then multiset(e.ids) else multiset{})
    ensures HasAck(log + [e]) <==> e.Acknowledged? || HasAck(log)
    ensures AckComesFirst(log + [e]) <==> AckComesFirst(log) && (e.SwitchSent? ==> HasAck(log))
  {
    assert (log + [e])[..|log|] == log;
  }

  function IdsOf(commands: seq<Command>): multiset<string> {
    if commands == [] then multiset{}
    else IdsOf(commands[..|commands| - 1]) + multiset{commands[|commands| - 1].id}
  }

  function CommandIds(turns: seq<Turn>): multiset<string> {
    if turns == [] then multiset{}
    else CommandIds(turns[..|turns| - 1]) + IdsOf(turns[|turns| - 1].commands)
  }

  /** The ids given to switch requests are all different. */
  ghost predicate Distinct(ids: multiset<string>) { forall id :: ids[id] <= 1 }

  // ----- Conservation -----

  /** What conservation speaks of: the ids in the table, the count shown, the handshake and the log. */
  datatype Books = Books(waiting: set<string>, shown: nat, handshake: bool, log: seq<Event>)

  function BooksOf(s: Session): Books { Books(s.pending.Keys, s.shown, s.handshake, s.log) }

  predicate Allowed(b: Books, e: Event) {
    match e
    case SwitchSent(_, _) => b.handshake
    case TimedOut(ids, _) => ids <= b.waiting
    case Answered(id, _) => id in b.waiting
    case _ => true
  }

  /** What an event makes of the books. */
  function Note(b: Books, e: Event): Books {
    var waiting := match e
      case SwitchSent(id, _) => b.waiting + {id}
      case TimedOut(ids, _) => b.waiting - ids
      case Answered(id, _) => b.waiting - {id}
      case _ => b.waiting;
    Books(waiting, if waiting == b.waiting then b.shown else |waiting|, b.handshake || e.Acknowledged?, b.log + [e])
  }

  /** `used` holds every id given out so far. */
  ghost predicate Conserved(b: Books, used: multiset<string>) {
    && SentIds(b.log) == multiset(b.waiting) + AnsweredIds(b.log) + TimedOutIds(b.log)
    && SentIds(b.log) <= used
    && b.shown == |b.waiting|
    && (b.handshake <==> HasAck(b.log))
    && AckComesFirst(b.log)
  }

  lemma NoteConserves(b: Books, e: Event, used: multiset<string>)
    requires Conserved(b, used) && Allowed(b, e) && !e.SwitchSent?
    ensures Conserved(Note(b, e), used)
  {
    LogSnoc(b.log, e);
    match e
    case TimedOut(ids, _) => Moved(b.waiting, ids, AnsweredIds(b.log), TimedOutIds(b.log));
    case Answered(id, _) => Moved(b.waiting, {id}, AnsweredIds(b.log), TimedOutIds(b.log));
    case _ =>
  }

  lemma Moved(waiting: set<string>, gone: set<string>, answered: multiset<string>, late: multiset<string>)
    requires gone <= waiting
    ensures var all, left := multiset(waiting) + answered + late, multiset(waiting - gone);
      all == left + (answered + multiset(gone)) + late == left + answered + (late + multiset(gone))
  {
    Removed(waiting, gone);
  }

  lemma NoteSentConserves(b: Books, e: Event, used: multiset<string>)
    requires Conserved(b, used) && Allowed(b, e) && e.SwitchSent? && used[e.id] == 0
    ensures Conserved(Note(b, e), used + multiset{e.id})
  {
    LogSnoc(b.log, e);
    assert multiset(b.waiting)[e.id] <= SentIds(b.log)[e.id];
    Added(b.waiting, e.id);
  }

  lemma Added(ids: set<string>, id: string)
    requires id !in ids
    ensures multiset(ids + {id}) == multiset(ids) + multiset{id}
  {
  }

  lemma Removed(ids: set<string>, gone: set<string>)
    requires gone <= ids
    ensures multiset(ids) == multiset(ids - gone) + multiset(gone)
  {
  }

  // ----- Every section of a turn notes at most one event -----

  lemma SendNotes(s: Session, c: Command)
    requires BooksOf(s).shown == |s.pending|
    ensures var b, b' := BooksOf(s), BooksOf(Send(s, c));
      b' == b || (Allowed(b, SwitchSent(c.id, c.at)) && b' == Note(b, SwitchSent(c.id, c.at)))
  {
    if s.exit == Open && s.handshake && c.written {
      assert Send(s, c).pending.Keys == s.pending.Keys + {c.id};
      SizeOfKeys(s.pending);
      SizeOfKeys(Send(s, c).pending);
    }
  }

  lemma SizeOfKeys(m: map<string, Switch>)
    ensures |m| == |m.Keys|
  {
  }

  lemma ExpireNotes(s: Session, now: int)
    ensures var b, b', e := BooksOf(s), BooksOf(Expire(s, now)), TimedOut(Late(s.pending, now), now);
      b' == b || (Allowed(b, e) && b' == Note(b, e))
  {
    var late := Late(s.pending, now);
    assert (s.pending - late).Keys == s.pending.Keys - late;
    SizeOfKeys(s.pending - late);
    if late != {} {
      var id :| id in late;
      assert id !in s.pending.Keys - late;
    }
  }

  lemma ReportNotes(s: Session, w: World, written: bool, at: int)
    ensures var b, b', e := BooksOf(s), BooksOf(Report(s, w, written, at)), StatusSent(Snapshot(w, s.overrides), at);
      b' == b || b' == Note(b, e)
  {
  }

  lemma RefusalNotes(s: Session, written: bool, at: int)
    ensures BooksOf(Record(Complain(s, written, at), at)) == BooksOf(Complain(s, written, at))
    ensures var b, b' := BooksOf(s), BooksOf(Complain(s, written, at)); b' == b || b' == Note(b, Complained(at))
  {
  }

  lemma AnswerNotes(s: Session, id: string, ok: bool, at: int, w: World)
    ensures var b, b' := BooksOf(s), BooksOf(Handle(s, SwitchResult(id, ok), true, at, w));
      b' == b || (Allowed(b, Answered(id, ok)) && b' == Note(b, Answered(id, ok)))
  {
    if id in s.pending {
      assert (s.pending - {id}).Keys == s.pending.Keys - {id};
      SizeOfKeys(s.pending - {id});
      assert id !in s.pending.Keys - {id};
    }
  }

  /** The event that handling a message may note. */
  function Noted(s: Session, body: Body, at: int, w: World): Event {
    match body
    case Hello(_) => Acknowledged(at)
    case RequestStatus => StatusSent(Snapshot(w, s.overrides), at)
    case SetMode(text) =>
      if ParseMode(text).None? then Complained(at)
      else StatusSent(Snapshot(w, s.overrides.(mode := ParseMode(text))), at)
    case SetSetting(key, value) =>
      if !Supported(key) then Complained(at)
      else StatusSent(Snapshot(w, s.overrides.(settings := s.overrides.settings[key := value])), at)
    case SwitchResult(id, ok) => Answered(id, ok)
    case _ => Complained(at)
  }

  lemma HandleNotes(s: Session, body: Body, written: bool, at: int, w: World)
    ensures var b, b', e := BooksOf(s), BooksOf(Handle(s, body, written, at, w)), Noted(s, body, at, w);
      b' == b || (Allowed(b, e) && b' == Note(b, e))
  {
    if body.SwitchResult? {
      AnswerNotes(s, body.id, body.ok, at, w);
    } else if body.Undecodable? || body.UnknownType? {
      RefusalNotes(s, true, at);
    }
  }

  // ----- Over whole runs -----

  lemma {:induction false} SendAllConserves(s: Session, commands: seq<Command>, used: multiset<string>)
    requires Conserved(BooksOf(s), used) && Distinct(used + IdsOf(commands))
    ensures Conserved(BooksOf(SendAll(s, commands)), used + IdsOf(commands))
  {
    if commands == [] {
      assert used + IdsOf(commands) == used;
    } else {
      var front, c := commands[..|commands| - 1], commands[|commands| - 1];
      var before, ids := SendAll(s, front), used + IdsOf(front);
      assert used + IdsOf(commands) == ids + multiset{c.id};
      FirstUse(ids, c.id);
      SendAllConserves(s, front, used);
      SizeOfKeys(before.pending);
      SendNotes(before, c);
      if BooksOf(Send(before, c)) == BooksOf(before) {
        UsedGrows(BooksOf(before), ids, multiset{c.id});
      } else {
        NoteSentConserves(BooksOf(before), SwitchSent(c.id, c.at), ids);
      }
    }
  }

  lemma FirstUse(used: multiset<string>, id: string)
    requires Distinct(used + multiset{id})
    ensures Distinct(used) && used[id] == 0
  {
    assert (used + multiset{id})[id] <= 1;
    forall other ensures used[other] <= 1 { assert (used + multiset{id})[other] <= 1; }
  }

  lemma UsedGrows(b: Books, used: multiset<string>, more: multiset<string>)
    requires Conserved(b, used)
    ensures Conserved(b, used + more)
  {
  }

  lemma ExpireConserves(s: Session, now: int, used: multiset<string>)
    requires Conserved(BooksOf(s), used)
    ensures Conserved(BooksOf(Expire(s, now)), used)
  {
    ExpireNotes(s, now);
    if BooksOf(Expire(s, now)) != BooksOf(s) {
      NoteConserves(BooksOf(s), TimedOut(Late(s.pending, now), now), used);
    }
  }

  lemma PushConserves(s: Session, t: Turn, used: multiset<string>)
    requires Conserved(BooksOf(s), used)
    ensures Conserved(BooksOf(Push(s, t)), used)
  {
    ReportNotes(s, t.pushWorld, t.pushWritten, t.pushedAt);
    if BooksOf(Push(s, t)) != BooksOf(s) {
      NoteConserves(BooksOf(s), StatusSent(Snapshot(t.pushWorld, s.overrides), t.pushedAt), used);
    }
  }

  lemma BeforePollConserves(s: Session, t: Turn, used: multiset<string>)
    requires Conserved(BooksOf(s), used) && Distinct(used + IdsOf(t.commands))
    ensures Conserved(BooksOf(BeforePoll(s, t)), used + IdsOf(t.commands))
  {
    var all, sent := used + IdsOf(t.commands), SendAll(s, t.commands);
    SendAllConserves(s, t.commands, used);
    ExpireConserves(sent, t.expireAt, all);
    var expired := Expire(sent, t.expireAt);
    PushConserves(expired, t, all);
    assert BooksOf(Beat(Push(expired, t), t.beatAt)) == BooksOf(Push(expired, t));
  }

  lemma PollConserves(s: Session, t: Turn, used: multiset<string>)
    requires Conserved(BooksOf(s), used)
    ensures Conserved(BooksOf(Poll(s, t)), used)
  {
    if BooksOf(Poll(s, t)) != BooksOf(s) {
      if t.read.Message? {
        HandleNotes(s, t.read.body, t.read.written, t.readAt, t.readWorld);
        NoteConserves(BooksOf(s), Noted(s, t.read.body, t.readAt, t.readWorld), used);
      } else {
        RefusalNotes(s, t.read.written, t.readAt);
        NoteConserves(BooksOf(s), Complained(t.readAt), used);
      }
    }
  }

  lemma {:induction false} RunConserves(now: int, turns: seq<Turn>)
    requires Distinct(CommandIds(turns))
    ensures Conserved(BooksOf(After(Begin(now, 0), turns)), CommandIds(turns))
  {
    if turns != [] {
      var front, t := turns[..|turns| - 1], turns[|turns| - 1];
      assert Distinct(CommandIds(front)) by {
        forall id ensures CommandIds(front)[id] <= 1 { assert CommandIds(turns)[id] <= 1; }
      }
      RunConserves(now, front);
      var s := After(Begin(now, 0), front);
      BeforePollConserves(s, t, CommandIds(front));
      PollConserves(BeforePoll(s, t), t, CommandIds(turns));
    }
  }

  /** At every loop head of every run: the written requests are the disjoint union of the pending, the answered and the
      timed-out ones, each resolved at most once, none written before the handshake; the count shown is the table's size. */
  lemma SwitchesAreConserved(now: int, turns: seq<Turn>)
    requires Distinct(CommandIds(turns))
    ensures var s := After(Begin(now, 0), turns);
      && SentIds(s.log) == multiset(s.pending.Keys) + AnsweredIds(s.log) + TimedOutIds(s.log)
      && Distinct(SentIds(s.log))
      && AckComesFirst(s.log)
      && s.shown == |s.pending|
  {
    RunConserves(now, turns);
    var s := After(Begin(now, 0), turns);
    SizeOfKeys(s.pending);
    forall id ensures SentIds(s.log)[id] <= 1 { assert CommandIds(turns)[id] <= 1; }
  }

  /** A result changes something exactly when its request is written and neither answered nor timed out yet. */
  lemma LateResultsChangeNothing(now: int, turns: seq<Turn>, id: string, ok: bool, at: int, w: World)
    requires Distinct(CommandIds(turns))
    ensures var s := After(Begin(now, 0), turns);
      Handle(s, SwitchResult(id, ok), true, at, w) == s <==>
      (id !in SentIds(s.log) || id in AnsweredIds(s.log) || id in TimedOutIds(s.log))
  {
    SwitchesAreConserved(now, turns);
    var s := After(Begin(now, 0), turns);
    assert SentIds(s.log)[id] <= 1;
    assert id in s.pending <==> multiset(s.pending.Keys)[id] == 1;
  }

  // ----- One turn's requests -----

  /** What a turn receives are the requests up to the first sign of a lag. */
  lemma {:induction false} UntilLagIs(received: seq<Received>)
    ensures var commands := UntilLag(received);
      && |commands| <= |received| && (forall i | 0 <= i < |commands| :: received[i] == Got(commands[i]))
      && (|commands| < |received| ==> received[|commands|] == Lagged)
  {
    if received != [] && received[0].Got? {
      UntilLagIs(received[1..]);
    }
  }

  lemma {:induction false} AllSent(s: Session, commands: seq<Command>)
    requires s.exit == Open && s.handshake && forall c | c in commands :: c.written
    ensures var s' := SendAll(s, commands);
      && s'.exit == Open && s'.handshake && |s'.log| == |s.log| + |commands| && s.log <= s'.log
      && forall i | 0 <= i < |commands| :: s'.log[|s.log| + i] == SwitchSent(commands[i].id, commands[i].at)
  {
    if commands != [] {
      var front, c := commands[..|commands| - 1], commands[|commands| - 1];
      assert c in commands && forall d | d in front :: d in commands;
      AllSent(s, front);
    }
  }

  /** The last request with the id has its scene and deadline in the table. */
  lemma {:induction false} InTable(s: Session, commands: seq<Command>, i: nat)
    requires s.exit == Open && s.handshake && forall c | c in commands :: c.written
    requires i < |commands| && forall j | i < j < |commands| :: commands[j].id != commands[i].id
    ensures var pending, c := SendAll(s, commands).pending, commands[i];
      c.id in pending && pending[c.id] == Switch(c.scene, c.at + c.deadlineMs)
  {
    var front, last := commands[..|commands| - 1], commands[|commands| - 1];
    assert last in commands && forall d | d in front :: d in commands;
    AllSent(s, front);
    if i < |front| { InTable(s, front, i); }
  }

  /** A greeted session whose writes go out sends all of them in order; the table has each with its own scene and
      deadline. */
  lemma SentInOrder(s: Session, commands: seq<Command>)
    requires s.exit == Open && s.handshake && forall c | c in commands :: c.written
    ensures var s' := SendAll(s, commands);
      && s'.exit == Open && |s'.log| == |s.log| + |commands| && s.log <= s'.log
      && forall i | 0 <= i < |commands| :: s'.log[|s.log| + i] == SwitchSent(commands[i].id, commands[i].at)
    ensures Distinct(IdsOf(commands)) ==> forall c | c in commands ::
      c.id in SendAll(s, commands).pending && SendAll(s, commands).pending[c.id] == Switch(c.scene, c.at + c.deadlineMs)
  {
    AllSent(s, commands);
    if Distinct(IdsOf(commands)) {
      forall c | c in commands
        ensures c.id in SendAll(s, commands).pending
        ensures SendAll(s, commands).pending[c.id] == Switch(c.scene, c.at + c.deadlineMs)
      {
        var i :| 0 <= i < |commands| && commands[i] == c;
        forall j | i < j < |commands| ensures commands[j].id != c.id { TwoIds(commands, i, j); }
        InTable(s, commands, i);
      }
    }
  }

  lemma {:induction false} IdCounted(commands: seq<Command>, i: nat)
    requires i < |commands|
    ensures IdsOf(commands)[commands[i].id] >= 1
  {
    if i < |commands| - 1 {
      IdCounted(commands[..|commands| - 1], i);
    }
  }

  lemma {:induction false} TwoIds(commands: seq<Command>, i: nat, j: nat)
    requires i < j < |commands| && Distinct(IdsOf(commands))
    ensures commands[j].id != commands[i].id
  {
    var front := commands[..|commands| - 1];
    assert IdsOf(commands)[commands[i].id] <= 1;
    if j == |commands| - 1 {
      IdCounted(front, i);
    } else {
      forall id ensures IdsOf(front)[id] <= 1 { assert IdsOf(commands)[id] <= 1; }
      TwoIds(front, i, j);
    }
  }

  // ----- Across sessions -----

  datatype Visit = Visit(startedAt: int, turns: seq<Turn>)

  function EndOf(v: Visit): Session { After(Begin(v.startedAt, 0), v.turns) }

  /** One client; the count is reset when its session ends, so the next session starts with none shown. */
  method ServeClient(debug: DebugStatus, visit: Visit) returns (ghost end: Session)
    requires debug.pendingSwitchCount == 0 && Clocked(visit.turns)
    modifies debug
    ensures debug.pendingSwitchCount == 0 && end == EndOf(visit)
  {
    var session := new SessionIo(debug, visit.startedAt);
    session.Run(visit.turns);
    end := session.View();
    debug.pendingSwitchCount := 0;
  }

  method ServeClients(debug: DebugStatus, visits: seq<Visit>) returns (ghost ends: seq<Session>)
    requires debug.pendingSwitchCount == 0
    requires forall v | v in visits :: Clocked(v.turns)
    modifies debug
    ensures debug.pendingSwitchCount == 0
    ensures |ends| == |visits| && forall i | 0 <= i < |visits| :: ends[i] == EndOf(visits[i])
  {
    ends := [];
    for i := 0 to |visits|
      invariant debug.pendingSwitchCount == 0 && |ends| == i
      invariant forall j | 0 <= j < i :: ends[j] == EndOf(visits[j])
    {
      ghost var end := ServeClient(debug, visits[i]);
      ends := ends + [end];
    }
  }
}
