/** The plugin's outbound queues: producers enqueue under a lock; the session loop swaps the queue out,
    sends item by item, and on a failed send puts the unsent rest back in front. */
module OutboundQueues {
  import opened Options

  // ----- One queue as a state machine over its lock-protected sections -----

  /** `sent` went out, `inFlight` is the drain's local copy, `queued` the shared vector, `history` all that was enqueued. */
  datatype Lane<T> = Lane(sent: seq<T>, inFlight: seq<T>, queued: seq<T>, history: seq<T>)
  {
    function All(): seq<T> { sent + inFlight + queued }
  }

  datatype Op<T> = Enqueue(item: T) | Swap | SendOk | SendFailed

  /** How an enqueue changes the shared vector. */
  type Policy<!T> = (seq<T>, T) -> seq<T>

  predicate Enabled<T>(l: Lane<T>, op: Op<T>) {
    match op
    case Enqueue(_) => true
    case Swap => l.inFlight == []
    case SendOk => l.inFlight != []
    case SendFailed => l.inFlight != []
  }

  function Apply<T>(f: Policy<T>, l: Lane<T>, op: Op<T>): Lane<T>
    requires Enabled(l, op)
  {
    match op
    case Enqueue(x) => l.(queued := f(l.queued, x), history := l.history + [x])
    case Swap => l.(inFlight := l.queued, queued := [])
    case SendOk => l.(sent := l.sent + [l.inFlight[0]], inFlight := l.inFlight[1..])
    case SendFailed => l.(inFlight := [], queued := l.inFlight + l.queued)
  }

  /** `states` is a run: it starts empty and each state follows from the one before by an enabled operation. */
  ghost predicate IsRun<T(!new)>(f: Policy<T>, states: seq<Lane<T>>, ops: seq<Op<T>>) {
    && |states| == |ops| + 1
    && states[0] == Lane([], [], [], [])
    && forall i | 0 <= i < |ops| :: Enabled(states[i], ops[i]) && states[i + 1] == Apply(f, states[i], ops[i])
  }

  ghost predicate Reachable<T(!new)>(f: Policy<T>, l: Lane<T>) {
    exists states, ops :: IsRun(f, states, ops) && states[|ops|] == l
  }

  lemma ReachableStep<T(!new)>(f: Policy<T>, l: Lane<T>, op: Op<T>)
    requires Reachable(f, l) && Enabled(l, op)
    ensures Reachable(f, Apply(f, l, op))
  {
    var states, ops :| IsRun(f, states, ops) && states[|ops|] == l;
    var next := states + [Apply(f, l, op)];
    assert IsRun(f, next, ops + [op]) && next[|ops + [op]|] == Apply(f, l, op);
  }

  // ----- The three enqueue policies -----

  /** Scene results and shutdown notices: appended. */
  function Append<T>(q: seq<T>, x: T): seq<T> { q + [x] }

  /** Mode requests: the newest replaces whatever waits. */
  function Latest<T>(q: seq<T>, x: T): seq<T> { [x] }

  datatype Request<K, V> = Request(key: K, value: V)

  type Setting = Request<string, bool>

  /** Settings: the first waiting request for the key is updated in place; otherwise the request is appended. */
  function Coalesce<K(==), V>(q: seq<Request<K, V>>, x: Request<K, V>): seq<Request<K, V>> {
    if q == [] then [x]
    else if q[0].key == x.key then [x] + q[1..]
    else [q[0]] + Coalesce(q[1..], x)
  }

  // ----- The drain -----

  function EnqueueAll<T>(f: Policy<T>, q: seq<T>, xs: seq<T>): seq<T> {
    if xs == [] then q else f(EnqueueAll(f, q, xs[..|xs| - 1]), xs[|xs| - 1])
  }

  /** What other threads enqueue in the first `n` gaps between a drain's lock sections. */
  function Arrived<T>(arrivals: nat -> seq<T>, n: nat): seq<T> {
    if n == 0 then [] else Arrived(arrivals, n - 1) + arrivals(n - 1)
  }

  class OutboundQueue<T(==, !new)> {
    const policy: Policy<T>
    var queued: seq<T>
    ghost var lane: Lane<T>

    ghost predicate Valid() reads this { lane.queued == queued && Reachable(policy, lane) }

    constructor (policy: Policy<T>)
      ensures Valid() && this.policy == policy && lane == Lane([], [], [], [])
    {
      this.policy, queued, lane := policy, [], Lane([], [], [], []);
      new;
      assert IsRun(policy, [lane], []);
    }

    ghost method Advance(op: Op<T>)
      requires Reachable(policy, lane) && Enabled(lane, op)
      modifies this`lane
      ensures lane == Apply(policy, old(lane), op) && Reachable(policy, lane)
    {
      ReachableStep(policy, lane, op);
      lane := Apply(policy, lane, op);
    }

    /** A producer's critical section. */
    method Put(item: T)
      requires Valid()
      modifies this
      ensures Valid() && lane == Apply(policy, old(lane), Enqueue(item))
    {
      queued := policy(queued, item);
      Advance(Enqueue(item));
    }

    /** Other threads between two of the drain's critical sections. */
    method Others(items: seq<T>)
      requires Valid()
      modifies this
      ensures Valid() && queued == EnqueueAll(policy, old(queued), items)
      ensures lane == old(lane).(queued := queued, history := old(lane).history + items)
    {
      for i := 0 to |items|
        invariant Valid() && queued == EnqueueAll(policy, old(queued), items[..i])
        invariant lane == old(lane).(queued := queued, history := old(lane).history + items[..i])
      {
        assert items[..i + 1][..i] == items[..i];
        assert items[..i + 1] == items[..i] + [items[i]];
        Put(items[i]);
      }
      assert items[..|items|] == items;
    }

    /** One drain, with sends failing from the `failing`-th on and other threads enqueueing in every gap. */
    method DrainPending(handshakeSent: bool, failing: nat, arrivals: nat -> seq<T>)
      requires Valid() && lane.inFlight == []
      modifies this
      ensures Valid() && lane.inFlight == []
      ensures !handshakeSent || old(queued) == [] ==> lane == old(lane)
      ensures handshakeSent && old(queued) != [] ==>
        var n := if failing < |old(queued)| then failing else |old(queued)|;
        var arrived := Arrived(arrivals, n + 1);
        && lane.sent == old(lane).sent + old(queued)[..n]
        && lane.history == old(lane).history + arrived
        && queued == old(queued)[n..] + EnqueueAll(policy, [], arrived)
    {
      if !handshakeSent || queued == [] {
        return;
      }
      var pending := queued;
      queued := [];
      Advance(Swap);
      GapBehind(lane.history, arrivals, 0);
      Others(arrivals(0));
      for i := 0 to |pending|
        invariant Valid() && i <= failing
        invariant lane.sent == old(lane).sent + pending[..i] && lane.inFlight == pending[i..]
        invariant lane.history == old(lane).history + Arrived(arrivals, i + 1)
        invariant queued == EnqueueAll(policy, [], Arrived(arrivals, i + 1))
      {
        if i == failing {
          queued := pending[i..] + queued;
          Advance(SendFailed);
          return;
        }
        Advance(SendOk);
        OneMoreSent(old(lane).sent, pending, i);
        GapBehind(old(lane).history, arrivals, i + 1);
        Others(arrivals(i + 1));
      }
      assert pending[..|pending|] == pending && pending[|pending|..] == [];
    }

    lemma OneMoreSent(sent: seq<T>, pending: seq<T>, i: nat)
      requires i < |pending|
      ensures sent + pending[..i] + [pending[i]] == sent + pending[..i + 1]
      ensures pending[i..][1..] == pending[i + 1..] && pending[i..][0] == pending[i]
    {
    }

    lemma GapBehind(history: seq<T>, arrivals: nat -> seq<T>, n: nat)
      ensures EnqueueAll(policy, [], Arrived(arrivals, n + 1)) ==
        EnqueueAll(policy, EnqueueAll(policy, [], Arrived(arrivals, n)), arrivals(n))
      ensures history + Arrived(arrivals, n + 1) == history + Arrived(arrivals, n) + arrivals(n)
    {
      var xs, ys := Arrived(arrivals, n), arrivals(n);
      assert Arrived(arrivals, n + 1) == xs + ys;
      EnqueueAllAppend(policy, [], xs, ys);
      assert history + (xs + ys) == history + xs + ys;
    }
  }

  lemma {:induction false} EnqueueAllAppend<T>(f: Policy<T>, q: seq<T>, xs: seq<T>, ys: seq<T>)
    ensures EnqueueAll(f, q, xs + ys) == EnqueueAll(f, EnqueueAll(f, q, xs), ys)
  {
    if ys == [] {
      assert xs + ys == xs;
    } else {
      assert (xs + ys)[..|xs + ys| - 1] == xs + ys[..|ys| - 1];
      EnqueueAllAppend(f, q, xs, ys[..|ys| - 1]);
    }
  }

  /** A mode replaces whatever waits; an empty one is ignored. */
  method QueueSetMode(pending: seq<string>, mode: string) returns (next: seq<string>, replaced: bool)
    ensures next == if mode == "" then pending else [mode]
    ensures replaced <==> mode != "" && pending != []
    ensures mode != "" ==> next == Latest(pending, mode)
  {
    next, replaced := pending, false;
    if mode == "" {
      return;
    }
    if next != [] {
      replaced := true;
      next := [];
    }
    next := next + [mode];
  }

  /** The loop that coalesces a setting: scan for the key, update the first request for it in place, append when there is
      none. An empty key is ignored. */
  method QueueSetSetting(pending: seq<Setting>, key: string, value: bool) returns (next: seq<Setting>, replaced: bool)
    ensures key == "" ==> next == pending && !replaced
    ensures key != "" ==> (replaced <==> exists i :: 0 <= i < |pending| && pending[i].key == key)
    ensures key != "" && !replaced ==> next == pending + [Request(key, value)]
    ensures replaced ==> exists i ::
      && 0 <= i < |pending| && pending[i].key == key && (forall j | 0 <= j < i :: pending[j].key != key)
      && next == pending[i := Request(key, value)]
    ensures key != "" ==> next == Coalesce(pending, Request(key, value))
  {
    next, replaced := pending, false;
    if key == "" {
      return;
    }
    for i := 0 to |pending|
      invariant !replaced && next == pending
      invariant forall j | 0 <= j < i :: pending[j].key != key
    {
      if next[i].key == key {
        next := next[i := Request(key, value)];
        replaced := true;
        CoalesceAtFirst(pending, Request(key, value), i);
        return;
      }
    }
    CoalesceAtFirst(pending, Request(key, value), |pending|);
    next := next + [Request(key, value)];
  }

  lemma {:induction false} CoalesceAtFirst<K, V>(q: seq<Request<K, V>>, x: Request<K, V>, i: nat)
    requires i <= |q| && (i < |q| ==> q[i].key == x.key)
    requires forall j | 0 <= j < i :: q[j].key != x.key
    ensures Coalesce(q, x) == if i < |q| then q[i := x] else q + [x]
  {
    if i > 0 {
      var rest := q[1..];
      CoalesceAtFirst(rest, x, i - 1);
      assert q == [q[0]] + rest && Coalesce(q, x) == [q[0]] + Coalesce(rest, x);
    }
  }

  // ----- Scene results: nothing lost, duplicated or reordered -----

  ghost predicate Conserved<T>(l: Lane<T>) { l.All() == l.history }

  lemma {:induction false} ResultsAreConserved<T(!new)>(states: seq<Lane<T>>, ops: seq<Op<T>>, n: nat)
    requires IsRun(Append, states, ops) && n <= |ops|
    ensures Conserved(states[n])
  {
    if n > 0 {
      ResultsAreConserved(states, ops, n - 1);
      var l := states[n - 1];
      if ops[n - 1].SendOk? { assert l.inFlight == [l.inFlight[0]] + l.inFlight[1..]; }
      assert states[n].All() == if ops[n - 1].Enqueue? then l.All() + [ops[n - 1].item] else l.All();
    }
  }

  // ----- Modes: a subsequence of the history that always ends in the latest request -----

  predicate SubSeq<T(==)>(a: seq<T>, h: seq<T>) {
    if a == [] then true
    else if h == [] then false
    else if a[|a| - 1] == h[|h| - 1] then SubSeq(a[..|a| - 1], h[..|h| - 1])
    else SubSeq(a, h[..|h| - 1])
  }

  lemma {:induction false} SubSeqDropLast<T>(a: seq<T>, h: seq<T>)
    requires SubSeq(a, h) && a != []
    ensures SubSeq(a[..|a| - 1], h)
    decreases |h|
  {
    var m := |h| - 1;
    if a[|a| - 1] == h[m] {
      SubSeqLonger(a[..|a| - 1], h[..m], h[m]);
      assert h[..m] + [h[m]] == h;
    } else {
      SubSeqDropLast(a, h[..m]);
      SubSeqLonger(a[..|a| - 1], h[..m], h[m]);
      assert h[..m] + [h[m]] == h;
    }
  }

  lemma {:induction false} SubSeqLonger<T>(a: seq<T>, h: seq<T>, x: T)
    requires SubSeq(a, h)
    ensures SubSeq(a, h + [x])
    decreases |h|, 1
  {
    assert (h + [x])[..|h|] == h;
    if a != [] && a[|a| - 1] == x {
      var m := |h| - 1;
      assert h[..m] + [h[m]] == h;
      if a[|a| - 1] == h[m] {
        SubSeqLonger(a[..|a| - 1], h[..m], h[m]);
      } else {
        SubSeqDropLast(a, h[..m]);
        SubSeqLonger(a[..|a| - 1], h[..m], h[m]);
      }
    }
  }

  lemma {:induction false} SubSeqPrefix<T>(a: seq<T>, b: seq<T>, h: seq<T>)
    requires SubSeq(a + b, h)
    ensures SubSeq(a, h)
    decreases |b|
  {
    if b == [] {
      assert a + b == a;
    } else {
      SubSeqDropLast(a + b, h);
      assert (a + b)[..|a + b| - 1] == a + b[..|b| - 1];
      SubSeqPrefix(a, b[..|b| - 1], h);
    }
  }

  ghost predicate EndsInLatest<T>(l: Lane<T>) {
    && SubSeq(l.All(), l.history)
    && (l.history != [] ==> l.All() != [] && l.All()[|l.All()| - 1] == l.history[|l.history| - 1])
  }

  lemma ModeStep<T>(l: Lane<T>, op: Op<T>)
    requires EndsInLatest(l) && Enabled(l, op)
    ensures EndsInLatest(Apply(Latest, l, op))
  {
    var l' := Apply(Latest, l, op);
    match op
    case Enqueue(x) =>
      SubSeqPrefix(l.sent + l.inFlight, l.queued, l.history);
      assert l'.All()[..|l'.All()| - 1] == l.sent + l.inFlight;
      assert l'.history[..|l'.history| - 1] == l.history;
    case SendOk =>
      SameAll(l);
    case _ =>
      assert l'.All() == l.All();
  }

  lemma SameAll<T>(l: Lane<T>)
    requires l.inFlight != []
    ensures l.sent + [l.inFlight[0]] + l.inFlight[1..] + l.queued == l.All()
  {
    assert l.inFlight == [l.inFlight[0]] + l.inFlight[1..];
  }

  /** What went out or waits is a subsequence of the requests, and its last element is always the latest request; right
      after a request nothing else is queued. */
  lemma {:induction false} ModesEndInLatest<T(!new)>(states: seq<Lane<T>>, ops: seq<Op<T>>, n: nat)
    requires IsRun(Latest, states, ops) && n <= |ops|
    ensures EndsInLatest(states[n])
    ensures n > 0 && ops[n - 1].Enqueue? ==> states[n].queued == [ops[n - 1].item]
  {
    if n > 0 {
      ModesEndInLatest(states, ops, n - 1);
      ModeStep(states[n - 1], ops[n - 1]);
    }
  }

  // ----- Settings: the last value per key -----

  /** The value of the last request for `key`. */
  function LastFor<K(==), V>(s: seq<Request<K, V>>, key: K): (r: Option<V>)
    ensures r.Some? <==> exists i :: 0 <= i < |s| && s[i].key == key
  {
    if s == [] then None
    else if s[|s| - 1].key == key then Some(s[|s| - 1].value)
    else LastFor(s[..|s| - 1], key)
  }

  lemma {:induction false} LastForAppend<K, V>(a: seq<Request<K, V>>, b: seq<Request<K, V>>, key: K)
    ensures LastFor(a + b, key) == if LastFor(b, key).Some? then LastFor(b, key) else LastFor(a, key)
  {
    if b == [] {
      assert a + b == a;
    } else {
      assert (a + b)[..|a + b| - 1] == a + b[..|b| - 1];
      LastForAppend(a, b[..|b| - 1], key);
    }
  }

  function Count<K(==), V>(s: seq<Request<K, V>>, key: K): nat {
    if s == [] then 0 else (if s[0].key == key then 1 else 0) + Count(s[1..], key)
  }

  lemma {:induction false} CountAppend<K, V>(a: seq<Request<K, V>>, b: seq<Request<K, V>>, key: K)
    ensures Count(a + b, key) == Count(a, key) + Count(b, key)
  {
    if a == [] {
      assert a + b == b;
    } else {
      assert (a + b)[1..] == a[1..] + b;
      CountAppend(a[1..], b, key);
    }
  }

  lemma {:induction false} CountIsPresence<K, V>(s: seq<Request<K, V>>, key: K)
    ensures Count(s, key) > 0 <==> LastFor(s, key).Some?
  {
    if s != [] {
      CountIsPresence(s[1..], key);
      assert s == s[..1] + s[1..];
      LastForAppend(s[..1], s[1..], key);
    }
  }

  /** An enqueue never adds a second request for its key. */
  lemma {:induction false} CoalesceCounts<K, V>(q: seq<Request<K, V>>, x: Request<K, V>, key: K)
    ensures Count(Coalesce(q, x), key) == if key == x.key && Count(q, key) == 0 then 1 else Count(q, key)
  {
    if q != [] && q[0].key != x.key {
      CoalesceCounts(q[1..], x, key);
      assert Coalesce(q, x)[1..] == Coalesce(q[1..], x);
    }
  }

  /** It touches its own key only, and decides that key's last value unless two requests for it were waiting. */
  lemma {:induction false} CoalesceLast<K, V>(q: seq<Request<K, V>>, x: Request<K, V>, key: K)
    ensures key != x.key ==> LastFor(Coalesce(q, x), key) == LastFor(q, key)
    ensures key == x.key ==>
      LastFor(Coalesce(q, x), key) == (if Count(q, key) > 1 then LastFor(q, key) else Some(x.value))
  {
    LastForCons(x, [], key);
    if q == [] {
      assert [x] + [] == [x];
    } else {
      var y, tl := q[0], q[1..];
      assert q == [y] + tl;
      CountIsPresence(tl, key);
      LastForCons(y, tl, key);
      if y.key == x.key {
        LastForCons(x, tl, key);
      } else {
        CoalesceLast(tl, x, key);
        LastForCons(y, Coalesce(tl, x), key);
      }
    }
  }

  lemma LastForCons<K, V>(y: Request<K, V>, tl: seq<Request<K, V>>, key: K)
    ensures LastFor([y] + tl, key) ==
      if LastFor(tl, key).Some? then LastFor(tl, key) else if y.key == key then Some(y.value) else None
  {
    LastForAppend([y], tl, key);
    assert [y][..0] == [];
  }

  /** For every key, the last value sent or still to be sent is the last value enqueued. */
  ghost predicate LastWins(l: Lane<Setting>) {
    forall key :: LastFor(l.All(), key) == LastFor(l.history, key)
  }

  /** The enqueue that goes wrong: two requests for the key are waiting, it updates the first,
      and the second carries another value. */
  predicate Stale(l: Lane<Setting>, op: Op<Setting>) {
    op.Enqueue? && Count(l.queued, op.item.key) > 1 && LastFor(l.queued, op.item.key) != Some(op.item.value)
  }

  /** One step keeps the last values exactly when it is not such an enqueue. */
  lemma StepKeepsLast(l: Lane<Setting>, op: Op<Setting>)
    requires LastWins(l) && Enabled(l, op)
    ensures LastWins(Apply(Coalesce, l, op)) <==> !Stale(l, op)
  {
    var l' := Apply(Coalesce, l, op);
    match op
    case Enqueue(x) =>
      forall key
        ensures key != x.key ==> LastFor(l'.All(), key) == LastFor(l'.history, key)
        ensures key == x.key ==> (LastFor(l'.All(), key) == LastFor(l'.history, key) <==> !Stale(l, op))
      {
        EnqueueEffect(l, x, key);
      }
      assert LastFor(l'.All(), x.key) == LastFor(l'.history, x.key) <==> !Stale(l, op);
    case SendOk =>
      assert l.inFlight == [l.inFlight[0]] + l.inFlight[1..];
      assert l'.All() == l.All();
    case _ =>
      assert l'.All() == l.All();
  }

  ghost predicate Right(l: Lane<Setting>, key: string) { LastFor(l.All(), key) == LastFor(l.history, key) }

  /** An enqueue decides its own key, whatever was right before, and leaves the others alone. */
  lemma EnqueueEffect(l: Lane<Setting>, x: Setting, key: string)
    ensures var l' := Apply(Coalesce, l, Enqueue(x));
      && (key != x.key ==>
          LastFor(l'.All(), key) == LastFor(l.All(), key) && LastFor(l'.history, key) == LastFor(l.history, key))
      && (key == x.key ==> (Right(l', key) <==> !Stale(l, Enqueue(x))))
  {
    CoalesceLast(l.queued, x, key);
    LastForAppend(l.sent + l.inFlight, l.queued, key);
    LastForAppend(l.sent + l.inFlight, Coalesce(l.queued, x), key);
    LastForAppend(l.history, [x], key);
    assert [x][..0] == [];
    CountIsPresence(l.queued, key);
  }

  /** Over a whole run the last value always wins exactly when no step is such an enqueue. */
  lemma {:induction false} LastWinsThroughout(states: seq<Lane<Setting>>, ops: seq<Op<Setting>>, n: nat)
    requires IsRun(Coalesce, states, ops) && n <= |ops|
    ensures (forall i | 0 <= i <= n :: LastWins(states[i])) <==> (forall i | 0 <= i < n :: !Stale(states[i], ops[i]))
  {
    if n == 0 {
      assert states[0].All() == states[0].history;
    } else {
      LastWinsThroughout(states, ops, n - 1);
      if forall i | 0 <= i <= n - 1 :: LastWins(states[i]) {
        assert LastWins(states[n - 1]);
        StepKeepsLast(states[n - 1], ops[n - 1]);
        assert LastWins(states[n]) <==> !Stale(states[n - 1], ops[n - 1]);
      } else {
        var i :| 0 <= i <= n - 1 && !LastWins(states[i]);
        var j :| 0 <= j < n - 1 && Stale(states[j], ops[j]);
      }
    }
  }

  /** The step before `n` that enqueued `key` last; -1 when there is none. */
  function LastEnqueue(ops: seq<Op<Setting>>, n: nat, key: string): (j: int)
    requires n <= |ops|
    ensures -1 <= j < n
    ensures j >= 0 ==> ops[j].Enqueue? && ops[j].item.key == key
    ensures forall i | j < i < n :: !(ops[i].Enqueue? && ops[i].item.key == key)
  {
    if n == 0 then -1
    else if ops[n - 1].Enqueue? && ops[n - 1].item.key == key then n - 1
    else LastEnqueue(ops, n - 1, key)
  }

  lemma StepKeepsKey(l: Lane<Setting>, op: Op<Setting>, key: string)
    requires Enabled(l, op) && !(op.Enqueue? && op.item.key == key)
    ensures Right(Apply(Coalesce, l, op), key) <==> Right(l, key)
  {
    var l' := Apply(Coalesce, l, op);
    match op
    case Enqueue(x) => EnqueueEffect(l, x, key);
    case SendOk =>
      SameAll(l);
      assert l'.All() == l.All();
    case _ =>
      assert l'.All() == l.All();
  }

  /** At any point of any run a key's last value is right if and only if the last enqueue for the key was not such a one:
      a later enqueue repairs what a stale one spoilt. */
  lemma {:induction false} LastValueIsRightExactly(
    states: seq<Lane<Setting>>, ops: seq<Op<Setting>>, n: nat, key: string)
    requires IsRun(Coalesce, states, ops) && n <= |ops|
    ensures var j := LastEnqueue(ops, n, key); Right(states[n], key) <==> (j < 0 || !Stale(states[j], ops[j]))
  {
    if n == 0 {
      assert states[0].All() == states[0].history;
    } else {
      var l, op := states[n - 1], ops[n - 1];
      if op.Enqueue? && op.item.key == key {
        EnqueueEffect(l, op.item, key);
      } else {
        LastValueIsRightExactly(states, ops, n - 1, key);
        StepKeepsKey(l, op, key);
      }
    }
  }

  /** So when everything has been sent, the last value sent for a key is the last one enqueued for it exactly then. */
  lemma DeliversLastValueExactly(states: seq<Lane<Setting>>, ops: seq<Op<Setting>>, key: string)
    requires IsRun(Coalesce, states, ops) && states[|ops|].inFlight == states[|ops|].queued == []
    ensures var j, l := LastEnqueue(ops, |ops|, key), states[|ops|];
      LastFor(l.sent, key) == LastFor(l.history, key) <==> (j < 0 || !Stale(states[j], ops[j]))
  {
    LastValueIsRightExactly(states, ops, |ops|, key);
    assert states[|ops|].All() == states[|ops|].sent;
  }

  /** A failed send whose unsent keys were not enqueued again meanwhile. */
  predicate CleanRequeue(l: Lane<Setting>, op: Op<Setting>) {
    op.SendFailed? ==> forall x | x in l.inFlight :: Count(l.queued, x.key) == 0
  }

  ghost predicate UniqueKeys<K(!new), V>(s: seq<Request<K, V>>) { forall key :: Count(s, key) <= 1 }

  lemma {:induction false} KeysStayUnique(states: seq<Lane<Setting>>, ops: seq<Op<Setting>>, n: nat)
    requires IsRun(Coalesce, states, ops) && n <= |ops|
    requires forall i | 0 <= i < n :: CleanRequeue(states[i], ops[i])
    ensures UniqueKeys(states[n].queued) && UniqueKeys(states[n].inFlight)
    ensures forall i | 0 <= i < n :: !Stale(states[i], ops[i])
  {
    if n > 0 {
      KeysStayUnique(states, ops, n - 1);
      var l, op := states[n - 1], ops[n - 1];
      forall key
        ensures Count(states[n].queued, key) <= 1 && Count(states[n].inFlight, key) <= 1
      {
        match op
        case Enqueue(x) => CoalesceCounts(l.queued, x, key);
        case Swap =>
        case SendOk =>
        case SendFailed =>
          CountAppend(l.inFlight, l.queued, key);
          CountIsPresence(l.inFlight, key);
      }
    }
  }

  /** In runs where no key still unsent is enqueued again before a failed send's requeue, keys stay unique, and whenever
      everything has been sent the last value sent for each key is the last value enqueued for it, whatever the number
      of failures. */
  lemma SettingsDeliverLastValue(states: seq<Lane<Setting>>, ops: seq<Op<Setting>>, key: string)
    requires IsRun(Coalesce, states, ops)
    requires forall i | 0 <= i < |ops| :: CleanRequeue(states[i], ops[i])
    ensures UniqueKeys(states[|ops|].queued)
    ensures states[|ops|].inFlight == states[|ops|].queued == [] ==>
      LastFor(states[|ops|].sent, key) == LastFor(states[|ops|].history, key)
  {
    var l := states[|ops|];
    KeysStayUnique(states, ops, |ops|);
    LastWinsThroughout(states, ops, |ops|);
    if l.inFlight == l.queued == [] { assert l.All() == l.sent; }
  }

  /** Without the hypothesis it fails: an enqueue during a drain, then a failed send, then another enqueue. */
  lemma StaleSettingWins() returns (states: seq<Lane<Setting>>, ops: seq<Op<Setting>>)
    ensures IsRun(Coalesce, states, ops)
    ensures states[|ops|].inFlight == states[|ops|].queued == []
    ensures LastFor(states[|ops|].history, "k") == Some(false)
    ensures LastFor(states[|ops|].sent, "k") == Some(true)
  {
    var off, on := Request("k", false), Request("k", true);
    ops := [Enqueue(off), Swap, Enqueue(on), SendFailed, Enqueue(off), Swap, SendOk, SendOk];
    states := [
      Lane([], [], [], []),
      Lane([], [], [off], [off]),
      Lane([], [off], [], [off]),
      Lane([], [off], [on], [off, on]),
      Lane([], [], [off, on], [off, on]),
      Lane([], [], [off, on], [off, on, off]),
      Lane([], [off, on], [], [off, on, off]),
      Lane([off], [on], [], [off, on, off]),
      Lane([off, on], [], [], [off, on, off])];
    assert Coalesce([off, on], off) == [off] + [on];
    assert Coalesce([], off) == [off] && Coalesce([], on) == [on];
  }
}
