/** The plugin's other dock bookkeeping: deduplication at intake, status requests in order of arrival,
    the replay cache, and what a status snapshot shows. */
module DockIntake {
  import opened Wire
  import opened JsonText
  import opened DockActions

  // ----- Deduplication -----

  /** A request let through: its key, the clock reading of its call, and how many calls read the clock before its turn. */
  datatype Pass = Pass(key: string, at: int, turn: nat)

  function ActionKey(actionType: string, requestId: string): string { actionType + "|" + requestId }

  /** Another type and id, neither empty, with the same key. */
  predicate Collides(actionType: string, id: string, t: string, i: string) {
    t != "" && i != "" && (t, i) != (actionType, id) && ActionKey(t, i) == ActionKey(actionType, id)
  }

  lemma CollisionHasBar(actionType: string, id: string, t: string, i: string)
    requires actionType != "" && id != "" && Collides(actionType, id, t, i)
    ensures '|' in actionType[1..] || '|' in id[..|id| - 1]
  {
    var key, n := ActionKey(actionType, id), |actionType|;
    assert key[|t|] == '|';
    assert t == key[..|t|] && i == key[|t| + 1..] && actionType == key[..n] && id == key[n + 1..];
    if |t| < n {
      assert actionType[1..][|t| - 1] == '|';
    } else {
      assert |t| > n;
      assert id[..|id| - 1][|t| - n - 1] == '|';
    }
  }

  lemma BarCollides(actionType: string, id: string, p: nat)
    requires actionType != "" && id != "" && p != |actionType|
    requires var key := ActionKey(actionType, id); 0 < p < |key| - 1 && key[p] == '|'
    ensures exists t, i :: Collides(actionType, id, t, i)
  {
    var key := ActionKey(actionType, id);
    assert ActionKey(key[..p], key[p + 1..]) == key;
    assert Collides(actionType, id, key[..p], key[p + 1..]);
  }

  /** A type and an id share their key with another type or id exactly when the type has a bar behind its first
      character or the id one before its last. */
  lemma ActionKeyIsSharedExactly(actionType: string, id: string)
    requires actionType != "" && id != ""
    ensures (exists t, i :: Collides(actionType, id, t, i)) <==> '|' in actionType[1..] || '|' in id[..|id| - 1]
  {
    if '|' in actionType[1..] {
      var p :| 0 <= p < |actionType| - 1 && actionType[1..][p] == '|';
      BarCollides(actionType, id, p + 1);
    } else if '|' in id[..|id| - 1] {
      var p :| 0 <= p < |id| - 1 && id[..|id| - 1][p] == '|';
      BarCollides(actionType, id, |actionType| + 1 + p);
    } else {
      forall t, i ensures !Collides(actionType, id, t, i) {
        if Collides(actionType, id, t, i) { CollisionHasBar(actionType, id, t, i); }
      }
    }
  }

  /** No call since, nor its own, read the clock more than the window after it. */
  ghost predicate Remembered(p: Pass, readings: seq<int>) {
    forall j | p.turn <= j < |readings| :: readings[j] - p.at <= DUPLICATE_WINDOW_MS
  }

  /** Some call up to the given turn, and not before it, read the clock more than the window after it. */
  ghost predicate ForgottenBy(p: Pass, readings: seq<int>, turn: nat) {
    exists j :: p.turn <= j <= turn < |readings| && readings[j] - p.at > DUPLICATE_WINDOW_MS
  }

  ghost predicate PassesApart(passed: seq<Pass>, readings: seq<int>) {
    forall i, j | 0 <= i < j < |passed| && passed[i].key == passed[j].key :: ForgottenBy(passed[i], readings, passed[j].turn)
  }

  /** The map holds exactly the remembered requests, and a key was let through again only when it was forgotten. */
  ghost predicate WindowKept(recent: map<string, int>, passed: seq<Pass>, readings: seq<int>) {
    && PassesApart(passed, readings)
    && (forall k | k in recent :: exists i :: 0 <= i < |passed| && passed[i].key == k && Remembered(passed[i], readings))
    && (forall i | 0 <= i < |passed| && Remembered(passed[i], readings) ::
        passed[i].key in recent && recent[passed[i].key] == passed[i].at)
    && (forall i | 0 <= i < |passed| :: passed[i].turn < |readings| && readings[passed[i].turn] == passed[i].at)
  }

  function Fresh(recent: map<string, int>, now: int): map<string, int> {
    map k | k in recent && now - recent[k] <= DUPLICATE_WINDOW_MS :: recent[k]
  }

  lemma OneMoreReading(p: Pass, readings: seq<int>, now: int)
    requires p.turn <= |readings|
    ensures Remembered(p, readings + [now]) <==> Remembered(p, readings) && now - p.at <= DUPLICATE_WINDOW_MS
  {
    var longer := readings + [now];
    if Remembered(p, longer) {
      assert longer[|readings|] == now;
      forall j | p.turn <= j < |readings| ensures readings[j] - p.at <= DUPLICATE_WINDOW_MS {
        assert longer[j] == readings[j];
      }
    }
  }

  lemma StillForgotten(p: Pass, readings: seq<int>, now: int, turn: nat)
    requires ForgottenBy(p, readings, turn)
    ensures ForgottenBy(p, readings + [now], turn)
  {
    var j :| p.turn <= j <= turn < |readings| && readings[j] - p.at > DUPLICATE_WINDOW_MS;
    assert (readings + [now])[j] == readings[j];
  }

  lemma PassesStayApart(passed: seq<Pass>, readings: seq<int>, now: int)
    requires PassesApart(passed, readings)
    ensures PassesApart(passed, readings + [now])
  {
    forall i, j | 0 <= i < j < |passed| && passed[i].key == passed[j].key
      ensures ForgottenBy(passed[i], readings + [now], passed[j].turn)
    {
      StillForgotten(passed[i], readings, now, passed[j].turn);
    }
  }

  lemma OneMorePassApart(passed: seq<Pass>, readings: seq<int>, p: Pass)
    requires PassesApart(passed, readings) && p.turn == |readings| - 1
    requires forall i | 0 <= i < |passed| && passed[i].key == p.key :: !Remembered(passed[i], readings)
    ensures PassesApart(passed + [p], readings)
  {
    forall i, j | 0 <= i < j < |passed + [p]| && (passed + [p])[i].key == (passed + [p])[j].key
      ensures ForgottenBy((passed + [p])[i], readings, (passed + [p])[j].turn)
    {
      if j < |passed| { assert ForgottenBy(passed[i], readings, passed[j].turn); }
    }
  }

  lemma EraseKeeps(recent: map<string, int>, passed: seq<Pass>, readings: seq<int>, now: int)
    requires WindowKept(recent, passed, readings)
    ensures WindowKept(Fresh(recent, now), passed, readings + [now])
  {
    var kept, longer := Fresh(recent, now), readings + [now];
    PassesStayApart(passed, readings, now);
    forall i | 0 <= i < |passed|
      ensures Remembered(passed[i], longer) <==>
        Remembered(passed[i], readings) && now - passed[i].at <= DUPLICATE_WINDOW_MS
    {
      OneMoreReading(passed[i], readings, now);
    }
    forall k | k in kept
      ensures exists i :: 0 <= i < |passed| && passed[i].key == k && Remembered(passed[i], longer)
    {
      var i :| 0 <= i < |passed| && passed[i].key == k && Remembered(passed[i], readings);
      assert Remembered(passed[i], longer);
    }
  }

  lemma RecordKeeps(recent: map<string, int>, passed: seq<Pass>, readings: seq<int>, key: string, now: int)
    requires WindowKept(recent, passed, readings + [now]) && key !in recent
    ensures WindowKept(recent[key := now], passed + [Pass(key, now, |readings|)], readings + [now])
  {
    var p, longer := Pass(key, now, |readings|), readings + [now];
    var passed', recent' := passed + [p], recent[key := now];
    assert passed'[|passed|] == p && Remembered(p, longer);
    OneMorePassApart(passed, longer, p);
    forall k | k in recent'
      ensures exists i :: 0 <= i < |passed'| && passed'[i].key == k && Remembered(passed'[i], longer)
    {
      if k != key {
        var i :| 0 <= i < |passed| && passed[i].key == k && Remembered(passed[i], longer);
        assert passed'[i] == passed[i];
      }
    }
  }

  /** When the calls get their turns in the order of their clock readings, remembered means let through within the
      window. */
  lemma RememberedInOrder(p: Pass, readings: seq<int>)
    requires p.turn < |readings| && forall i, j | 0 <= i <= j < |readings| :: readings[i] <= readings[j]
    ensures Remembered(p, readings) <==> readings[|readings| - 1] - p.at <= 1500
  {
  }

  /** Then two requests let through with the same key lie more than the window apart. */
  lemma ApartInOrder(recent: map<string, int>, passed: seq<Pass>, readings: seq<int>, i: nat, j: nat)
    requires WindowKept(recent, passed, readings) && i < j < |passed| && passed[i].key == passed[j].key
    requires forall k, l | 0 <= k <= l < |readings| :: readings[k] <= readings[l]
    ensures passed[j].at - passed[i].at > 1500
  {
    assert ForgottenBy(passed[i], readings, passed[j].turn);
  }

  lemma LateReading(a: string)
    ensures !Remembered(Pass(a, 0, 0), [0, DUPLICATE_WINDOW_MS + 1, 1])
  {
    assert [0, DUPLICATE_WINDOW_MS + 1, 1][1] - 0 > DUPLICATE_WINDOW_MS;
  }

  method CallsThrough(recent: RecentActions, id: string, now: int) returns (duplicate: bool)
    requires recent.Valid() && id != ""
    requires forall p | p in recent.passed && p.key == ActionKey("set_mode", id) ::
      !Remembered(p, recent.readings + [now])
    modifies recent
    ensures recent.Valid() && !duplicate && recent.readings == old(recent.readings) + [now]
    ensures recent.passed == old(recent.passed) + [Pass(ActionKey("set_mode", id), now, |old(recent.readings)|)]
  {
    duplicate := recent.ShouldDeduplicate("set_mode", id, now);
  }

  /** Otherwise they need not: a call that reads the clock early and gets the lock late passes after one millisecond. */
  method LateCallerPasses() returns (first: bool, other: bool, again: bool)
    ensures !first && !other && !again
  {
    ghost var a, b := ActionKey("set_mode", "a"), ActionKey("set_mode", "b");
    assert a[9] != b[9];
    LateReading(a);
    var recent := new RecentActions();
    first := CallsThrough(recent, "a", 0);
    other := CallsThrough(recent, "b", DUPLICATE_WINDOW_MS + 1);
    assert recent.readings + [1] == [0, DUPLICATE_WINDOW_MS + 1, 1];
    again := CallsThrough(recent, "a", 1);
  }

  /** Rejects a request whose type and id were let through less than the window ago. */
  class RecentActions {
    var recent: map<string, int>
    /** Everything let through so far, and the clock readings of all calls with a type and an id, in the order in which
        the calls got the lock. */
    ghost var passed: seq<Pass>
    ghost var readings: seq<int>

    ghost predicate Valid() reads this { WindowKept(recent, passed, readings) }

    constructor ()
      ensures Valid() && passed == [] && readings == []
    {
      recent, passed, readings := map[], [], [];
    }

    method ShouldDeduplicate(actionType: string, requestId: string, now: int) returns (duplicate: bool)
      requires Valid()
      modifies this
      ensures Valid()
      ensures actionType == "" || requestId == "" ==>
        !duplicate && passed == old(passed) && readings == old(readings)
      ensures actionType != "" && requestId != "" ==>
        var key := ActionKey(actionType, requestId);
        && readings == old(readings) + [now]
        && (duplicate <==>
            exists i :: 0 <= i < |old(passed)| && old(passed)[i].key == key && Remembered(old(passed)[i], readings))
        && passed == if duplicate then old(passed) else old(passed) + [Pass(key, now, |old(readings)|)]
    {
      if requestId == "" || actionType == "" {
        return false;
      }
      var key := ActionKey(actionType, requestId);
      EraseOld(now);
      EraseKeeps(old(recent), passed, readings, now);
      if key in recent {
        readings := readings + [now];
        return true;
      }
      RecordKeeps(recent, passed, readings, key, now);
      recent := recent[key := now];
      passed, readings := passed + [Pass(key, now, |readings|)], readings + [now];
      return false;
    }

    /** The erase loop over the map, in whatever order its keys come. */
    method EraseOld(now: int)
      modifies this`recent
      ensures recent == Fresh(old(recent), now)
    {
      var todo := recent.Keys;
      while todo != {}
        invariant todo <= recent.Keys
        invariant recent == map k | k in old(recent) && (k in todo || now - old(recent)[k] <= DUPLICATE_WINDOW_MS) :: old(recent)[k]
        decreases todo
      {
        var k :| k in todo;
        todo := todo - {k};
        if now - recent[k] > DUPLICATE_WINDOW_MS {
          recent := recent - {k};
        }
      }
    }
  }

  // ----- Status requests -----

  /** Ids of status requests, completed one per snapshot in the order in which they arrived. */
  class StatusRequests {
    var ids: seq<string>
    ghost var tracked: seq<string>
    ghost var completed: seq<string>

    ghost predicate Valid() reads this { completed + ids == tracked && "" !in ids }

    constructor ()
      ensures Valid() && tracked == []
    {
      ids, tracked, completed := [], [], [];
    }

    method TrackRequest(id: string)
      requires Valid()
      modifies this
      ensures Valid() && completed == old(completed)
      ensures tracked == old(tracked) + (if id == "" then [] else [id])
    {
      if id == "" {
        return;
      }
      ids := ids + [id];
      tracked := tracked + [id];
    }

    /** Called once per status snapshot; an empty result means nothing was waiting. */
    method Consume() returns (id: string)
      requires Valid()
      modifies this
      ensures Valid() && tracked == old(tracked)
      ensures completed == old(completed) + (if id == "" then [] else [id])
      ensures id == "" <==> old(completed) == tracked
    {
      if ids == [] {
        return "";
      }
      id := ids[0];
      ids := ids[1..];
      completed := completed + [id];
    }
  }

  // ----- Replay -----

  const RECENT_EVENT_LIMIT: nat := 8

  function LastUpTo<T>(s: seq<T>, n: nat): seq<T> {
    if |s| <= n then s else s[|s| - n..]
  }

  /** Where an envelope is kept, by its type. */
  datatype Slot = HelloAckSlot | PongSlot | StatusSlot | EventSlot | NoSlot

  function SlotOf(json: bytes): Slot {
    var kind := EnvelopeType(json);
    if kind == Ascii("hello_ack") then HelloAckSlot
    else if kind == Ascii("pong") then PongSlot
    else if kind == Ascii("status_snapshot") then StatusSlot
    else if kind == Ascii("user_notice") || kind == Ascii("protocol_error") || kind == Ascii("switch_scene") then EventSlot
    else NoSlot
  }

  function Mapped<T>(f: bytes -> T, seen: seq<bytes>): seq<T> {
    seq(|seen|, i requires 0 <= i < |seen| => f(seen[i]))
  }

  lemma MappedAppend<T>(f: bytes -> T, seen: seq<bytes>, more: seq<bytes>)
    ensures Mapped(f, seen + more) == Mapped(f, seen) + Mapped(f, more)
  {
  }

  function Slots(seen: seq<bytes>): seq<Slot> { Mapped(SlotOf, seen) }

  /** The last envelope of a slot. */
  function LastOf(seen: seq<bytes>, slots: seq<Slot>, slot: Slot): bytes
    requires |slots| == |seen|
  {
    if seen == [] then []
    else if slots[|slots| - 1] == slot then seen[|seen| - 1]
    else LastOf(seen[..|seen| - 1], slots[..|slots| - 1], slot)
  }

  function Events(seen: seq<bytes>, slots: seq<Slot>): seq<bytes>
    requires |slots| == |seen|
  {
    if seen == [] then []
    else
      Events(seen[..|seen| - 1], slots[..|slots| - 1]) +
      (if slots[|slots| - 1] == EventSlot then [seen[|seen| - 1]] else [])
  }

  datatype Kept = Kept(helloAck: bytes, pong: bytes, statusSnapshot: bytes, recentEvents: seq<bytes>)

  /** What is kept of the envelopes seen: the last one of each status kind, the last eight events. */
  function KeptOf(seen: seq<bytes>): Kept {
    var slots := Slots(seen);
    Kept(LastOf(seen, slots, HelloAckSlot), LastOf(seen, slots, PongSlot), LastOf(seen, slots, StatusSlot),
      LastUpTo(Events(seen, slots), RECENT_EVENT_LIMIT))
  }

  /** The envelopes kept for a dock page that is not ready yet. */
  class ReplayCache {
    var helloAck: bytes
    var pong: bytes
    var statusSnapshot: bytes
    var recentEvents: seq<bytes>

    ghost function View(): Kept reads this { Kept(helloAck, pong, statusSnapshot, recentEvents) }

    constructor ()
      ensures View() == KeptOf([])
    {
      helloAck, pong, statusSnapshot, recentEvents := [], [], [], [];
    }

    method CacheEnvelope(json: bytes, ghost seen: seq<bytes>)
      requires View() == KeptOf(seen)
      modifies this
      ensures View() == KeptOf(seen + [json])
    {
      var slot := SlotOf(json);
      KeptOneMore(seen, json, slot);
      NoTypeNoSlot();
      if json == [] {
        return;
      }
      Keep(json, slot);
    }

    method Keep(json: bytes, slot: Slot)
      modifies this
      ensures View() == With(old(View()), json, slot)
    {
      match slot
      case HelloAckSlot => helloAck := json;
      case PongSlot => pong := json;
      case StatusSlot => statusSnapshot := json;
      case EventSlot =>
        recentEvents := recentEvents + [json];
        if |recentEvents| > RECENT_EVENT_LIMIT {
          recentEvents := recentEvents[|recentEvents| - RECENT_EVENT_LIMIT..];
        }
      case NoSlot =>
    }
  }

  /** One more envelope replaces the kept one of its kind, or joins the events. */
  function With(kept: Kept, json: bytes, slot: Slot): Kept {
    match slot
    case HelloAckSlot => kept.(helloAck := json)
    case PongSlot => kept.(pong := json)
    case StatusSlot => kept.(statusSnapshot := json)
    case EventSlot => kept.(recentEvents := LastUpTo(kept.recentEvents + [json], RECENT_EVENT_LIMIT))
    case NoSlot => kept
  }

  lemma KeptOneMore(seen: seq<bytes>, json: bytes, slot: Slot)
    requires slot == SlotOf(json)
    ensures KeptOf(seen + [json]) == With(KeptOf(seen), json, slot)
  {
    var slots := Slots(seen);
    assert Slots(seen + [json]) == slots + [slot];
    SeenOneMore(seen, slots, json, slot);
    LastUpToSnoc(Events(seen, slots), json, RECENT_EVENT_LIMIT);
    assert Events(seen, slots) + [] == Events(seen, slots);
  }

  lemma NoTypeNoSlot()
    ensures SlotOf([]) == NoSlot
  {
  }

  lemma SeenOneMore(seen: seq<bytes>, slots: seq<Slot>, json: bytes, slot: Slot)
    requires |slots| == |seen|
    ensures forall s :: LastOf(seen + [json], slots + [slot], s) == if slot == s then json else LastOf(seen, slots, s)
    ensures Events(seen + [json], slots + [slot]) == Events(seen, slots) + (if slot == EventSlot then [json] else [])
  {
    assert (seen + [json])[..|seen|] == seen && (slots + [slot])[..|slots|] == slots;
  }

  lemma LastUpToSnoc<T>(s: seq<T>, x: T, n: nat)
    requires n > 0
    ensures LastUpTo(LastUpTo(s, n) + [x], n) == LastUpTo(s + [x], n)
  {
  }

  // ----- What is kept, by the types of what was seen -----

  const HELLO_ACK: bytes := Ascii("hello_ack")
  const PONG: bytes := Ascii("pong")
  const STATUS_SNAPSHOT: bytes := Ascii("status_snapshot")

  predicate IsEventType(kind: bytes) {
    kind == Ascii("user_notice") || kind == Ascii("protocol_error") || kind == Ascii("switch_scene")
  }

  lemma StatusSlots(json: bytes)
    ensures SlotOf(json) == HelloAckSlot <==> EnvelopeType(json) == HELLO_ACK
    ensures SlotOf(json) == PongSlot <==> EnvelopeType(json) == PONG
    ensures SlotOf(json) == StatusSlot <==> EnvelopeType(json) == STATUS_SNAPSHOT
  {
  }

  lemma EventSlots(json: bytes)
    ensures SlotOf(json) == EventSlot <==> IsEventType(EnvelopeType(json))
  {
  }

  function Types(seen: seq<bytes>): seq<bytes> { Mapped(EnvelopeType, seen) }

  /** The last envelope of the type, or nothing if there is none. */
  ghost predicate IsLastOf(kept: bytes, seen: seq<bytes>, types: seq<bytes>, kind: bytes)
    requires |types| == |seen|
  {
    if kind in types then
      exists i | 0 <= i < |seen| :: types[i] == kind && kept == seen[i] && kind !in types[i + 1..]
    else kept == []
  }

  lemma OneMoreLast(kept: bytes, seen: seq<bytes>, types: seq<bytes>, kind: bytes, x: bytes, t: bytes)
    requires |types| == |seen| && IsLastOf(kept, seen, types, kind)
    ensures IsLastOf(if t == kind then x else kept, seen + [x], types + [t], kind)
  {
    var n := |seen|;
    if t == kind {
      assert (types + [t])[n] == kind && (seen + [x])[n] == x;
    } else if kind in types {
      var i :| 0 <= i < n && types[i] == kind && kept == seen[i] && kind !in types[i + 1..];
      assert (types + [t])[i + 1..] == types[i + 1..] + [t];
      assert (types + [t])[i] == kind && (seen + [x])[i] == kept;
    }
  }

  lemma {:induction false} LastOfIsLast(seen: seq<bytes>, slots: seq<Slot>, types: seq<bytes>, slot: Slot, kind: bytes)
    requires |types| == |slots| == |seen|
    requires forall i | 0 <= i < |seen| :: slots[i] == slot <==> types[i] == kind
    ensures IsLastOf(LastOf(seen, slots, slot), seen, types, kind)
  {
    if seen != [] {
      var n := |seen| - 1;
      var front, before, kinds := seen[..n], slots[..n], types[..n];
      LastOfIsLast(front, before, kinds, slot, kind);
      OneMoreLast(LastOf(front, before, slot), front, kinds, kind, seen[n], types[n]);
      assert seen == front + [seen[n]] && types == kinds + [types[n]];
      assert slots[n] == slot <==> types[n] == kind;
    }
  }

  /** The events among the envelopes, in their order. */
  lemma {:induction false} EventsAppend(seen: seq<bytes>, slots: seq<Slot>, more: seq<bytes>, slots': seq<Slot>)
    requires |slots| == |seen| && |slots'| == |more|
    ensures Events(seen + more, slots + slots') == Events(seen, slots) + Events(more, slots')
  {
    if more == [] {
      assert seen + more == seen && slots + slots' == slots;
    } else {
      var n := |more| - 1;
      EventsAppend(seen, slots, more[..n], slots'[..n]);
      assert seen + more == (seen + more[..n]) + [more[n]] && slots + slots' == (slots + slots'[..n]) + [slots'[n]];
      SeenOneMore(seen + more[..n], slots + slots'[..n], more[n], slots'[n]);
    }
  }

  function EventsOf(seen: seq<bytes>): seq<bytes> { Events(seen, Slots(seen)) }

  /** The events stay in the order in which they were seen. */
  lemma EventsInOrder(seen: seq<bytes>, more: seq<bytes>)
    ensures EventsOf(seen + more) == EventsOf(seen) + EventsOf(more)
  {
    MappedAppend(SlotOf, seen, more);
    EventsAppend(seen, Slots(seen), more, Slots(more));
  }

  /** User notices, protocol errors and scene switches are events. */
  lemma OneEvent(x: bytes)
    ensures EventsOf([x]) == if IsEventType(EnvelopeType(x)) then [x] else []
  {
    var slot := SlotOf(x);
    EventSlots(x);
    assert Slots([x]) == [slot];
    SeenOneMore([], [], x, slot);
  }

  lemma LastUpToIsSuffix<T>(all: seq<T>, n: nat) returns (dropped: seq<T>)
    ensures all == dropped + LastUpTo(all, n)
    ensures |LastUpTo(all, n)| <= n && (dropped != [] ==> |LastUpTo(all, n)| == n)
  {
    dropped := all[..if |all| <= n then 0 else |all| - n];
  }

  /** Kept are the last hello_ack, pong and status_snapshot seen, and the last eight events. */
  lemma KeptByType(seen: seq<bytes>) returns (dropped: seq<bytes>)
    ensures IsLastOf(KeptOf(seen).helloAck, seen, Types(seen), HELLO_ACK)
    ensures IsLastOf(KeptOf(seen).pong, seen, Types(seen), PONG)
    ensures IsLastOf(KeptOf(seen).statusSnapshot, seen, Types(seen), STATUS_SNAPSHOT)
    ensures EventsOf(seen) == dropped + KeptOf(seen).recentEvents
    ensures |KeptOf(seen).recentEvents| <= 8 && (dropped != [] ==> |KeptOf(seen).recentEvents| == 8)
  {
    LastByType(seen, HelloAckSlot, HELLO_ACK);
    LastByType(seen, PongSlot, PONG);
    LastByType(seen, StatusSlot, STATUS_SNAPSHOT);
    dropped := LastUpToIsSuffix(EventsOf(seen), 8);
  }

  lemma LastByType(seen: seq<bytes>, slot: Slot, kind: bytes)
    requires
      || (slot == HelloAckSlot && kind == HELLO_ACK)
      || (slot == PongSlot && kind == PONG)
      || (slot == StatusSlot && kind == STATUS_SNAPSHOT)
    ensures IsLastOf(LastOf(seen, Slots(seen), slot), seen, Types(seen), kind)
  {
    forall i | 0 <= i < |seen| ensures Slots(seen)[i] == slot <==> Types(seen)[i] == kind { StatusSlots(seen[i]); }
    LastOfIsLast(seen, Slots(seen), Types(seen), slot, kind);
  }
}
