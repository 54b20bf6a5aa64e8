/** The life of a dock action in the plugin: deduplicated at intake, tracked until a status snapshot confirms it
    or a tick gives up on it. Times are clock readings in milliseconds. */
module DockActions {
  import opened Options

  const COMPLETION_TIMEOUT_MS: int := 3000
  const DUPLICATE_WINDOW_MS: int := 1500

  // ----- Pending set_mode and set_setting actions -----

  datatype Want = WantMode(mode: string) | WantSetting(key: string, value: bool)

  /** A status snapshot as the plugin projects it: the mode, and the settings that the core reports. */
  datatype StatusSnapshot = StatusSnapshot(mode: Option<string>, settings: map<string, bool>)

  predicate Recognized(key: string) {
    key == "auto_scene_switch" || key == "low_quality_fallback" || key == "manual_override" ||
    key == "chat_bot" || key == "alerts"
  }

  predicate Shows(s: StatusSnapshot, w: Want) {
    match w
    case WantMode(mode) => s.mode == Some(mode)
    case WantSetting(key, value) => Recognized(key) && key in s.settings && s.settings[key] == value
  }

  /** An action waiting for its effect; `want` is the mode or the setting it asked for. */
  datatype Pending = Pending(id: string, want: Want, queuedAt: int)

  /** An id and a mode or a key are there. */
  predicate Complete(a: Pending) {
    a.id != "" && match a.want case WantMode(mode) => mode != "" case WantSetting(key, _) => key != ""
  }

  /** The state behind one lock, what was tracked, and what results were decided so far. */
  datatype Ledger = Ledger(
    pending: seq<Pending>, tracked: seq<Pending>, completed: seq<Pending>, failed: seq<Pending>)

  function Ids(s: seq<Pending>): seq<string> {
    seq(|s|, i requires 0 <= i < |s| => s[i].id)
  }

  datatype Event =
    | Track(action: Pending)
    | Snapshot(status: StatusSnapshot)
    | Tick(now: int)

  /** Whether the event resolves the waiting action. */
  predicate Hits(e: Event, a: Pending) {
    match e
    case Track(_) => false
    case Snapshot(status) => Shows(status, a.want)
    case Tick(now) => now - a.queuedAt >= COMPLETION_TIMEOUT_MS
  }

  /** The waiting actions that the event resolves, or those that it does not. */
  function Pick(e: Event, hit: bool, s: seq<Pending>): seq<Pending> {
    if s == [] then []
    else if Hits(e, s[|s| - 1]) == hit then Pick(e, hit, s[..|s| - 1]) + [s[|s| - 1]]
    else Pick(e, hit, s[..|s| - 1])
  }

  function Apply(l: Ledger, e: Event): Ledger {
    match e
    case Track(a) =>
      if !Complete(a) then l else l.(pending := l.pending + [a], tracked := l.tracked + [a])
    case Snapshot(_) =>
      l.(pending := Pick(e, false, l.pending), completed := l.completed + Pick(e, true, l.pending))
    case Tick(_) =>
      l.(pending := Pick(e, false, l.pending), failed := l.failed + Pick(e, true, l.pending))
  }

  /** The ledger after the first `n` events. */
  function Run(events: seq<Event>, n: nat): Ledger
    requires n <= |events|
  {
    if n == 0 then Ledger([], [], [], []) else Apply(Run(events, n - 1), events[n - 1])
  }

  class PendingActions {
    var pending: seq<Pending>
    ghost var ledger: Ledger

    ghost predicate Valid() reads this { ledger.pending == pending }

    constructor ()
      ensures Valid() && ledger == Run([], 0)
    {
      pending, ledger := [], Ledger([], [], [], []);
    }

    method TrackAction(id: string, want: Want, now: int)
      requires Valid()
      modifies this
      ensures pending == old(pending) +
        if id == "" || want == WantMode("") || (want.WantSetting? && want.key == "") then []
        else [Pending(id, want, now)]
      ensures Valid() && ledger == Apply(old(ledger), Track(Pending(id, want, now)))
    {
      if id == "" || (want.WantMode? && want.mode == "") || (want.WantSetting? && want.key == "") {
        return;
      }
      pending := pending + [Pending(id, want, now)];
      ledger := Apply(ledger, Track(Pending(id, want, now)));
    }

    /** The erase loop shared by completion and expiry: walks the vector, erases hits in place, collects their ids. */
    method EraseHits(e: Event) returns (ids: seq<string>)
      modifies this`pending
      ensures pending == Pick(e, false, old(pending))
      ensures ids == Ids(Pick(e, true, old(pending)))
    {
      ids := [];
      var i := 0;
      ghost var before, done := pending, 0;
      while i < |pending|
        invariant i <= |pending| && done <= |before|
        invariant pending[i..] == before[done..]
        invariant pending[..i] == Pick(e, false, before[..done])
        invariant ids == Ids(Pick(e, true, before[..done]))
        decreases |pending| - i
      {
        Walk(pending, i, before, done);
        PickSnoc(e, before, done);
        if Hits(e, pending[i]) {
          ids := ids + [pending[i].id];
          pending := pending[..i] + pending[i + 1..];
        } else {
          i := i + 1;
        }
        done := done + 1;
      }
      assert before[..done] == before && pending[..i] == pending;
    }

    /** A status snapshot completes a set_mode if and only if it has that mode, and a set_setting if and only if it has that
        value for one of the five settings. */
    method ResolveFromSnapshot(status: StatusSnapshot) returns (ids: seq<string>)
      requires Valid()
      modifies this
      ensures forall a | a in old(pending) && a.want.WantMode? :: a !in pending <==> status.mode == Some(a.want.mode)
      ensures forall a | a in old(pending) && a.want.WantSetting? :: a !in pending <==>
        && a.want.key in {"auto_scene_switch", "low_quality_fallback", "manual_override", "chat_bot", "alerts"}
        && a.want.key in status.settings && status.settings[a.want.key] == a.want.value
      ensures forall a | a in pending :: a in old(pending)
      ensures Valid() && ledger == Apply(old(ledger), Snapshot(status))
      ensures exists done ::
        && ledger.completed == old(ledger).completed + done && ids == Ids(done)
        && forall a :: a in done <==> a in old(pending) && a !in pending
    {
      ids := EraseHits(Snapshot(status));
      PickIsExact(Snapshot(status), true, old(pending));
      PickIsExact(Snapshot(status), false, old(pending));
      ledger := Apply(ledger, Snapshot(status));
    }

    /** A tick fails whatever is three seconds old, and nothing else. */
    method DrainExpired(now: int) returns (ids: seq<string>)
      requires Valid()
      modifies this
      ensures forall a :: a in pending <==> a in old(pending) && now - a.queuedAt < 3000
      ensures Valid() && ledger == Apply(old(ledger), Tick(now))
      ensures exists late ::
        && ledger.failed == old(ledger).failed + late && ids == Ids(late)
        && forall a :: a in late <==> a in old(pending) && now - a.queuedAt >= 3000
    {
      ids := EraseHits(Tick(now));
      PickIsExact(Tick(now), true, old(pending));
      PickIsExact(Tick(now), false, old(pending));
      ledger := Apply(ledger, Tick(now));
    }
  }

  /** One place further in the vector, with or without erasing. */
  lemma Walk(s: seq<Pending>, i: nat, before: seq<Pending>, done: nat)
    requires i < |s| && done < |before| && s[i..] == before[done..]
    ensures s[i] == before[done] && s[i + 1..] == before[done + 1..] && s[..i + 1] == s[..i] + [s[i]]
    ensures (s[..i] + s[i + 1..])[..i] == s[..i] && (s[..i] + s[i + 1..])[i..] == before[done + 1..]
  {
    assert s[i] == s[i..][0] && before[done] == before[done..][0];
    assert s[i + 1..] == s[i..][1..] && before[done + 1..] == before[done..][1..];
  }

  lemma {:induction false} PickIsExact(e: Event, hit: bool, s: seq<Pending>)
    ensures forall a :: a in Pick(e, hit, s) <==> a in s && Hits(e, a) == hit
  {
    if s != [] {
      PickIsExact(e, hit, s[..|s| - 1]);
      assert s == s[..|s| - 1] + [s[|s| - 1]];
    }
  }

  /** The actions keep their order, in the list as in the results. */
  lemma {:induction false} PickKeepsOrder(e: Event, hit: bool, s: seq<Pending>, t: seq<Pending>)
    ensures Pick(e, hit, s + t) == Pick(e, hit, s) + Pick(e, hit, t)
    ensures |t| == 1 ==> Pick(e, hit, t) == if Hits(e, t[0]) == hit then t else []
  {
    if t == [] {
      assert s + t == s;
    } else {
      assert (s + t)[..|s + t| - 1] == s + t[..|t| - 1];
      PickKeepsOrder(e, hit, s, t[..|t| - 1]);
    }
  }

  lemma PickSnoc(e: Event, s: seq<Pending>, i: nat)
    requires i < |s|
    ensures Hits(e, s[i]) ==> Pick(e, true, s[..i + 1]) == Pick(e, true, s[..i]) + [s[i]]
    ensures Hits(e, s[i]) ==> Pick(e, false, s[..i + 1]) == Pick(e, false, s[..i])
    ensures !Hits(e, s[i]) ==> Pick(e, true, s[..i + 1]) == Pick(e, true, s[..i])
    ensures !Hits(e, s[i]) ==> Pick(e, false, s[..i + 1]) == Pick(e, false, s[..i]) + [s[i]]
  {
    assert s[..i + 1][..i] == s[..i];
  }

  // ----- Exactly one result -----

  /** How many times an action is in a list. */
  function Count(s: seq<Pending>, a: Pending): nat {
    if s == [] then 0 else Count(s[..|s| - 1], a) + (if s[|s| - 1] == a then 1 else 0)
  }

  lemma {:induction false} CountAppend(s: seq<Pending>, t: seq<Pending>, a: Pending)
    ensures Count(s + t, a) == Count(s, a) + Count(t, a)
  {
    if t == [] {
      assert s + t == s;
    } else {
      assert (s + t)[..|s + t| - 1] == s + t[..|t| - 1];
      CountAppend(s, t[..|t| - 1], a);
    }
  }

  lemma CountOne(b: Pending, a: Pending)
    ensures Count([b], a) == if a == b then 1 else 0
  {
    assert [b][..0] == [];
  }

  lemma {:induction false} CountPicked(e: Event, hit: bool, s: seq<Pending>, a: Pending)
    ensures Count(Pick(e, hit, s), a) == if Hits(e, a) == hit then Count(s, a) else 0
  {
    if s != [] {
      var t, b := s[..|s| - 1], s[|s| - 1];
      CountPicked(e, hit, t, a);
      if Hits(e, b) == hit {
        CountAppend(Pick(e, hit, t), [b], a);
        CountOne(b, a);
      }
    }
  }

  function Taken(e: Event, a: Pending): nat { if e == Track(a) && Complete(a) then 1 else 0 }

  function HitBy(e: Event, a: Pending, n: nat): nat { if Hits(e, a) then n else 0 }

  lemma PendingAfter(l: Ledger, e: Event, a: Pending)
    ensures Count(Apply(l, e).pending, a) == Count(l.pending, a) - HitBy(e, a, Count(l.pending, a)) + Taken(e, a)
  {
    if e.Track? {
      CountAppend(l.pending, [e.action], a);
      CountOne(e.action, a);
    } else {
      CountPicked(e, false, l.pending, a);
    }
  }

  lemma TrackedAfter(l: Ledger, e: Event, a: Pending)
    ensures Count(Apply(l, e).tracked, a) == Count(l.tracked, a) + Taken(e, a)
  {
    if e.Track? {
      CountAppend(l.tracked, [e.action], a);
      CountOne(e.action, a);
    }
  }

  lemma CompletedAfter(l: Ledger, e: Event, a: Pending)
    ensures Count(Apply(l, e).completed, a) ==
      Count(l.completed, a) + (if e.Snapshot? then HitBy(e, a, Count(l.pending, a)) else 0)
  {
    if e.Snapshot? {
      CountPicked(e, true, l.pending, a);
      CountAppend(l.completed, Pick(e, true, l.pending), a);
    }
  }

  lemma FailedAfter(l: Ledger, e: Event, a: Pending)
    ensures Count(Apply(l, e).failed, a) == Count(l.failed, a) + (if e.Tick? then HitBy(e, a, Count(l.pending, a)) else 0)
  {
    if e.Tick? {
      CountPicked(e, true, l.pending, a);
      CountAppend(l.failed, Pick(e, true, l.pending), a);
    }
  }

  predicate Balanced(l: Ledger, a: Pending) {
    Count(l.tracked, a) == Count(l.pending, a) + Count(l.completed, a) + Count(l.failed, a)
  }

  /** Over every interleaving of intake, snapshots and ticks: tracked = pending + completed + failed, action by action. */
  lemma {:induction false} RunBalances(events: seq<Event>, n: nat, a: Pending)
    requires n <= |events|
    ensures Balanced(Run(events, n), a)
  {
    if n > 0 {
      RunBalances(events, n - 1, a);
      BalancesAfter(Run(events, n - 1), events[n - 1], a);
    }
  }

  lemma BalancesAfter(l: Ledger, e: Event, a: Pending)
    requires Balanced(l, a)
    ensures Balanced(Apply(l, e), a)
  {
    TrackedAfter(l, e, a);
    PendingAfter(l, e, a);
    CompletedAfter(l, e, a);
    FailedAfter(l, e, a);
  }

  datatype Outcome = Waiting | Completed | Failed

  /** What the events `from` up to `to` make of an action: the first snapshot that shows it completes it, the first tick
      3000 ms or more after its intake fails it, whichever comes first. */
  function OutcomeOf(a: Pending, events: seq<Event>, from: nat, to: nat): Outcome
    requires from <= to <= |events|
  {
    if from == to then Waiting
    else
      var before := OutcomeOf(a, events, from, to - 1);
      if before != Waiting then before
      else
        match events[to - 1]
        case Track(_) => Waiting
        case Snapshot(status) => if Shows(status, a.want) then Completed else Waiting
        case Tick(now) => if now - a.queuedAt >= COMPLETION_TIMEOUT_MS then Failed else Waiting
  }

  lemma {:induction false} OutcomeOfPrefix(a: Pending, events: seq<Event>, more: seq<Event>, from: nat, to: nat)
    requires from <= to <= |events|
    ensures OutcomeOf(a, events + more, from, to) == OutcomeOf(a, events, from, to)
  {
    if from < to {
      OutcomeOfPrefix(a, events, more, from, to - 1);
    }
  }

  /** How often the action was taken in by the first `k` events and has outcome `o` after `n` events. */
  function Tally(events: seq<Event>, k: nat, n: nat, o: Outcome, a: Pending): nat
    requires k <= n <= |events|
  {
    if k == 0 then 0
    else
      Tally(events, k - 1, n, o, a) +
      (if events[k - 1] == Track(a) && Complete(a) && OutcomeOf(a, events, k, n) == o then 1 else 0)
  }

  /** One more event moves an action exactly when the action waits and the event hits it. */
  lemma {:induction false} OneMoreEvent(events: seq<Event>, k: nat, n: nat, a: Pending)
    requires k <= n < |events|
    ensures var e, waiting := events[n], Tally(events, k, n, Waiting, a);
      && Tally(events, k, n + 1, Waiting, a) == waiting - HitBy(e, a, waiting)
      && Tally(events, k, n + 1, Completed, a) ==
         Tally(events, k, n, Completed, a) + (if e.Snapshot? then HitBy(e, a, waiting) else 0)
      && Tally(events, k, n + 1, Failed, a) ==
         Tally(events, k, n, Failed, a) + (if e.Tick? then HitBy(e, a, waiting) else 0)
  {
    if k > 0 {
      OneMoreEvent(events, k - 1, n, a);
    }
  }

  /** The latest event's own action waits. */
  lemma NewcomerWaits(events: seq<Event>, n: nat, o: Outcome, a: Pending)
    requires 0 < n <= |events|
    ensures Tally(events, n, n, o, a) == Tally(events, n - 1, n, o, a) + (if o == Waiting then Taken(events[n - 1], a) else 0)
  {
  }

  lemma {:induction false} PendingIsWaiting(events: seq<Event>, n: nat, a: Pending)
    requires n <= |events|
    ensures Count(Run(events, n).pending, a) == Tally(events, n, n, Waiting, a)
  {
    if n > 0 {
      PendingIsWaiting(events, n - 1, a);
      OneMoreEvent(events, n - 1, n - 1, a);
      NewcomerWaits(events, n, Waiting, a);
      var before := Run(events, n - 1);
      PendingAfter(before, events[n - 1], a);
      assert Run(events, n) == Apply(before, events[n - 1]);
    }
  }

  lemma {:induction false} CompletedIsCompleted(events: seq<Event>, n: nat, a: Pending)
    requires n <= |events|
    ensures Count(Run(events, n).completed, a) == Tally(events, n, n, Completed, a)
  {
    if n > 0 {
      PendingIsWaiting(events, n - 1, a);
      CompletedIsCompleted(events, n - 1, a);
      OneMoreEvent(events, n - 1, n - 1, a);
      NewcomerWaits(events, n, Completed, a);
      CompletedAfter(Run(events, n - 1), events[n - 1], a);
    }
  }

  lemma {:induction false} FailedIsFailed(events: seq<Event>, n: nat, a: Pending)
    requires n <= |events|
    ensures Count(Run(events, n).failed, a) == Tally(events, n, n, Failed, a)
  {
    if n > 0 {
      PendingIsWaiting(events, n - 1, a);
      FailedIsFailed(events, n - 1, a);
      OneMoreEvent(events, n - 1, n - 1, a);
      NewcomerWaits(events, n, Failed, a);
      FailedAfter(Run(events, n - 1), events[n - 1], a);
    }
  }

  /** Of every action, the pending list and the results hold exactly what its own outcomes say. */
  lemma ResultsAreOutcomes(events: seq<Event>, n: nat, a: Pending)
    requires n <= |events|
    ensures Count(Run(events, n).pending, a) == Tally(events, n, n, Waiting, a)
    ensures Count(Run(events, n).completed, a) == Tally(events, n, n, Completed, a)
    ensures Count(Run(events, n).failed, a) == Tally(events, n, n, Failed, a)
  {
    PendingIsWaiting(events, n, a);
    CompletedIsCompleted(events, n, a);
    FailedIsFailed(events, n, a);
  }
}
