// Replay protection as a timed protocol: requests, clock ticks and cleanups
// interleave, and each request reads the clock twice, for its timestamp window
// and for the expiry of its nonce.
module Replay {
  import opened Text
  import opened AgentAuth

  // `window` and the clock of the window check are in whole units of `grain`
  // ticks; `lifetime` and `delay` are in ticks. At most `delay` ticks pass
  // between a request's window check and its use of the nonce cache.
  datatype Params = Params(window: nat, lifetime: nat, grain: nat, delay: nat)

  // What is signed: agent, nonce, timestamp, and method and body.
  datatype Message = Message(agentID: string, nonce: string, ts: int, rest: string)

  function KeyOf(m: Message): string { CacheKey(m.agentID, m.nonce) }

  // A request past the window check, and the expiry it has computed since.
  datatype Pending = Pending(msg: Message, checkedAt: nat, expiry: Option<int>)

  datatype State = State(
    now: nat,
    entries: Entries,
    pending: map<nat, Pending>,
    cleaning: map<nat, nat>,     // cleanups that have read the clock
    accepted: seq<Message>)

  const START := State(0, map[], map[], map[], [])

  datatype Action =
    | Tick(ticks: nat)
    | Check(id: nat, msg: Message)   // window check of a correctly signed request
    | Stamp(id: nat)                 // expiry := time.Now() + lifetime
    | Use(id: nat)                   // the locked part of nonceCache.use
    | CleanRead(cid: nat)
    | CleanRun(cid: nat)             // the locked part of nonceCache.cleanup

  // The window check, in the code's 64-bit arithmetic.
  predicate Fresh(p: Params, now: nat, ts: int)
    requires p.grain > 0
  {
    Within(p.window, now / p.grain, ts)
  }

  // The clock is this side of the end of its 64-bit seconds.
  predicate OnClock(p: Params, now: nat)
    requires p.grain > 0
  {
    now / p.grain < TWO_63 - p.window
  }

  predicate Enabled(p: Params, s: State, a: Action)
    requires p.grain > 0
  {
    match a
    case Tick(ticks) => OnClock(p, s.now + ticks)
    case Check(id, msg) => id !in s.pending && IsInt64(msg.ts)
    case Stamp(id) => id in s.pending && s.pending[id].expiry.None?
    case Use(id) => id in s.pending && s.pending[id].expiry.Some? && s.now <= s.pending[id].checkedAt + p.delay
    case CleanRead(cid) => cid !in s.cleaning
    case CleanRun(cid) => cid in s.cleaning
  }

  function Next(p: Params, s: State, a: Action): State
    requires p.grain > 0 && Enabled(p, s, a)
  {
    match a
    case Tick(ticks) => s.(now := s.now + ticks)
    case Check(id, msg) =>
      if Fresh(p, s.now, msg.ts) then s.(pending := s.pending[id := Pending(msg, s.now, None)]) else s
    case Stamp(id) =>
      s.(pending := s.pending[id := s.pending[id].(expiry := Some(s.now + p.lifetime))])
    case Use(id) =>
      var q := s.pending[id];
      var key := KeyOf(q.msg);
      s.(pending := s.pending - {id},
         entries := UseStep(s.entries, key, q.expiry.value),
         accepted := if key in s.entries then s.accepted else s.accepted + [q.msg])
    case CleanRead(cid) => s.(cleaning := s.cleaning[cid := s.now])
    case CleanRun(cid) =>
      s.(cleaning := s.cleaning - {cid}, entries := CleanStep(s.entries, s.cleaning[cid]))
  }

  // ----- runs -----

  predicate IsRun(p: Params, s: State, actions: seq<Action>)
    requires p.grain > 0
    decreases |actions|
  {
    actions == [] || (Enabled(p, s, actions[0]) && IsRun(p, Next(p, s, actions[0]), actions[1..]))
  }

  function After(p: Params, s: State, actions: seq<Action>): State
    requires p.grain > 0 && IsRun(p, s, actions)
    decreases |actions|
  {
    if actions == [] then s else After(p, Next(p, s, actions[0]), actions[1..])
  }

  predicate NoReplay(s: State) {
    forall i, j :: 0 <= i < j < |s.accepted| ==> s.accepted[i] != s.accepted[j]
  }

  // No run of any length accepts one signed message twice.
  ghost predicate ReplaySafe(p: Params)
    requires p.grain > 0
  {
    forall actions :: IsRun(p, START, actions) ==> NoReplay(After(p, START, actions))
  }

  // ----- the invariant -----

  function LongEnough(p: Params): int { 2 * p.window * p.grain + p.grain - 1 + p.delay }

  // No accepted copy of `m` expires before this.
  function EarliestExpiry(p: Params, m: Message): int { FirstSecond(p.window, m.ts) * p.grain + p.lifetime }

  // An accepted message still has its nonce in the cache, or its expiry is past.
  predicate Guarded(p: Params, s: State, m: Message) {
    || (KeyOf(m) in s.entries && s.entries[KeyOf(m)] >= EarliestExpiry(p, m))
    || s.now > EarliestExpiry(p, m)
  }

  ghost predicate PendingOk(p: Params, s: State, q: Pending)
    requires p.grain > 0
  {
    && q.checkedAt <= s.now && OnClock(p, q.checkedAt) && IsInt64(q.msg.ts) && Fresh(p, q.checkedAt, q.msg.ts)
    && (q.expiry.Some? ==> q.checkedAt + p.lifetime <= q.expiry.value)
  }

  ghost predicate Inv(p: Params, s: State)
    requires p.grain > 0
  {
    && NoReplay(s) && OnClock(p, s.now)
    && (forall m :: m in s.accepted ==> Guarded(p, s, m))
    && (forall id :: id in s.pending ==> PendingOk(p, s, s.pending[id]))
    && (forall cid :: cid in s.cleaning ==> s.cleaning[cid] <= s.now)
  }

  // Bounds on the moment a message passes the window check.
  lemma CheckTimes(p: Params, now: nat, ts: int)
    requires p.grain > 0 && OnClock(p, now) && IsInt64(ts) && Fresh(p, now, ts)
    ensures var first := FirstSecond(p.window, ts);
            first * p.grain <= now <= first * p.grain + 2 * p.window * p.grain + p.grain - 1
  {
    var u, first := now / p.grain, FirstSecond(p.window, ts);
    WindowSpread(p.window, u, ts);
    hide *;
    UnitBounds(now, first, 2 * p.window, p.grain);
  }

  lemma UnitBounds(now: nat, first: int, n: nat, g: nat)
    requires g > 0 && first <= now / g <= first + n
    ensures first * g <= now <= first * g + n * g + g - 1
  {
    var u := now / g;
    assert u * g <= now <= u * g + g - 1;
    MulMonotone(g, first, u);
    MulMonotone(g, u, first + n);
    assert (first + n) * g == first * g + n * g;
  }

  lemma MulMonotone(k: nat, a: int, b: int)
    requires a <= b
    ensures a * k <= b * k
  {
  }

  // A second copy that reaches the cache finds the nonce still there.
  lemma UseOfAcceptedIsRefused(p: Params, s: State, id: nat)
    requires p.grain > 0 && p.lifetime >= LongEnough(p) && Inv(p, s) && Enabled(p, s, Use(id))
    requires s.pending[id].msg in s.accepted
    ensures KeyOf(s.pending[id].msg) in s.entries
  {
    var q := s.pending[id];
    CheckTimes(p, q.checkedAt, q.msg.ts);
    assert Guarded(p, s, q.msg);
  }

  lemma UseKeepsInv(p: Params, s: State, id: nat)
    requires p.grain > 0 && p.lifetime >= LongEnough(p) && Inv(p, s) && Enabled(p, s, Use(id))
    ensures Inv(p, Next(p, s, Use(id)))
  {
    var q, s' := s.pending[id], Next(p, s, Use(id));
    var key := KeyOf(q.msg);
    assert PendingOk(p, s, q);
    if q.msg in s.accepted {
      UseOfAcceptedIsRefused(p, s, id);
    }
    CheckTimes(p, q.checkedAt, q.msg.ts);
    forall m | m in s'.accepted
      ensures Guarded(p, s', m)
    {
      if m in s.accepted {
        assert Guarded(p, s, m);
      } else {
        assert m == q.msg;
      }
    }
    forall i | i in s'.pending
      ensures PendingOk(p, s', s'.pending[i])
    {
      assert PendingOk(p, s, s.pending[i]);
    }
  }

  lemma CleanKeepsInv(p: Params, s: State, cid: nat)
    requires p.grain > 0 && Inv(p, s) && Enabled(p, s, CleanRun(cid))
    ensures Inv(p, Next(p, s, CleanRun(cid)))
  {
    var s' := Next(p, s, CleanRun(cid));
    forall m | m in s'.accepted
      ensures Guarded(p, s', m)
    {
      assert Guarded(p, s, m);
    }
    forall i | i in s'.pending
      ensures PendingOk(p, s', s'.pending[i])
    {
      assert PendingOk(p, s, s.pending[i]);
    }
  }

  lemma OtherStepsKeepInv(p: Params, s: State, a: Action)
    requires p.grain > 0 && Inv(p, s) && Enabled(p, s, a) && !a.Use? && !a.CleanRun?
    ensures Inv(p, Next(p, s, a))
  {
    var s' := Next(p, s, a);
    forall m | m in s'.accepted
      ensures Guarded(p, s', m)
    {
      assert Guarded(p, s, m);
    }
    forall i | i in s'.pending
      ensures PendingOk(p, s', s'.pending[i])
    {
      assert i in s.pending ==> PendingOk(p, s, s.pending[i]);
    }
  }

  lemma StepKeepsInv(p: Params, s: State, a: Action)
    requires p.grain > 0 && p.lifetime >= LongEnough(p) && Inv(p, s) && Enabled(p, s, a)
    ensures Inv(p, Next(p, s, a))
  {
    match a {
      case Use(id) => UseKeepsInv(p, s, id);
      case CleanRun(cid) => CleanKeepsInv(p, s, cid);
      case _ => OtherStepsKeepInv(p, s, a);
    }
  }

  lemma {:induction false} RunKeepsInv(p: Params, s: State, actions: seq<Action>)
    requires p.grain > 0 && p.lifetime >= LongEnough(p) && Inv(p, s) && IsRun(p, s, actions)
    ensures Inv(p, After(p, s, actions))
    decreases |actions|
  {
    if actions != [] {
      StepKeepsInv(p, s, actions[0]);
      RunKeepsInv(p, Next(p, s, actions[0]), actions[1..]);
    }
  }

  // ----- the run that decides it -----

  // One message, first checked at tick 0 and again at the last tick of its
  // window; its nonce is cleaned up just before the second use.
  const AGENT := Message("agent", "nonce", 0, "")

  function Edge(p: Params): Message { AGENT.(ts := p.window) }

  function LastTick(p: Params): nat
    requires p.grain > 0
  {
    2 * p.window * p.grain + p.grain - 1
  }

  function FirstHalf(p: Params): seq<Action> {
    [Check(0, Edge(p))] + ([Stamp(0)] + [Use(0)])
  }

  function SecondHalf(p: Params): seq<Action>
    requires p.grain > 0
  {
    [Tick(LastTick(p))] + ([Check(1, Edge(p))] + ([Stamp(1)] + ([Tick(p.delay)] +
    ([CleanRead(0)] + ([CleanRun(0)] + ([Use(1)] + []))))))
  }

  function EdgeRun(p: Params): seq<Action>
    requires p.grain > 0
  {
    FirstHalf(p) + SecondHalf(p)
  }

  lemma OneStep(p: Params, s: State, a: Action, rest: seq<Action>)
    requires p.grain > 0
    ensures IsRun(p, s, [a] + rest) <==> Enabled(p, s, a) && IsRun(p, Next(p, s, a), rest)
    ensures IsRun(p, s, [a] + rest) ==> After(p, s, [a] + rest) == After(p, Next(p, s, a), rest)
  {
    assert ([a] + rest)[1..] == rest;
  }

  lemma FirstAccept(p: Params, rest: seq<Action>) returns (s: State)
    requires p.grain > 0 && OnClock(p, 0)
    ensures s == State(0, map[KeyOf(Edge(p)) := p.lifetime], map[], map[], [Edge(p)])
    ensures IsRun(p, START, FirstHalf(p) + rest) <==> IsRun(p, s, rest)
    ensures IsRun(p, s, rest) ==>
              After(p, START, FirstHalf(p) + rest) == After(p, s, rest)
  {
    var m := Edge(p);
    assert 0 / p.grain == 0;
    EdgeIsFresh(p, 0, 0);
    var s1 := Next(p, START, Check(0, m));
    var s2 := Next(p, s1, Stamp(0));
    s := Next(p, s2, Use(0));
    assert s.pending == map[];
    OneStep(p, s2, Use(0), rest);
    OneStep(p, s1, Stamp(0), [Use(0)] + rest);
    OneStep(p, START, Check(0, m), [Stamp(0)] + ([Use(0)] + rest));
    assert FirstHalf(p) + rest == [Check(0, m)] + ([Stamp(0)] + ([Use(0)] + rest));
  }

  lemma LastTickIsInWindow(p: Params)
    requires p.grain > 0
    ensures LastTick(p) / p.grain == 2 * p.window
  {
    var q, g := 2 * p.window, p.grain;
    assert LastTick(p) == q * g + (g - 1);
    DivOf(LastTick(p), q, g);
  }

  // The edge message passes the check in the first and in the last second.
  lemma EdgeIsFresh(p: Params, now: nat, u: nat)
    requires p.grain > 0 && OnClock(p, now) && now / p.grain == u && (u == 0 || u == 2 * p.window)
    ensures IsInt64(Edge(p).ts) && Fresh(p, now, Edge(p).ts)
  {
    WindowMeans(p.window, u, p.window);
  }

  // The clock lasts until the edge message's window and the delay have passed.
  predicate ClockLasts(p: Params)
    requires p.grain > 0
  {
    OnClock(p, LastTick(p) + p.delay)
  }

  lemma EarlierIsOnClock(p: Params, now: nat, later: nat)
    requires p.grain > 0 && now <= later && OnClock(p, later)
    ensures OnClock(p, now)
  {
    if now / p.grain > later / p.grain {
      MulMonotone(p.grain, later / p.grain + 1, now / p.grain);
    }
  }

  lemma DivOf(n: nat, q: nat, g: nat)
    requires g > 0 && q * g <= n < q * g + g
    ensures n / g == q
  {
    var r := n / g;
    assert r * g <= n < r * g + g;
    if r < q {
      MulMonotone(g, r + 1, q);
    } else if r > q {
      MulMonotone(g, q + 1, r);
    }
  }

  lemma SecondAccept(p: Params, s: State) returns (s': State)
    requires p.grain > 0 && p.lifetime < LongEnough(p) && ClockLasts(p)
    requires s == State(0, map[KeyOf(Edge(p)) := p.lifetime], map[], map[], [Edge(p)])
    ensures IsRun(p, s, SecondHalf(p)) && After(p, s, SecondHalf(p)) == s'
    ensures s'.accepted == [Edge(p), Edge(p)]
  {
    var m := Edge(p);
    LastTickIsInWindow(p);
    EarlierIsOnClock(p, LastTick(p), LastTick(p) + p.delay);
    EdgeIsFresh(p, LastTick(p), 2 * p.window);
    hide Within, OnClock, Fresh;
    assert OnClock(p, LastTick(p)) && Fresh(p, LastTick(p), m.ts);
    var s1 := Next(p, s, Tick(LastTick(p)));
    var s2 := Next(p, s1, Check(1, m));
    assert s2.pending == map[1 := Pending(m, LastTick(p), None)];
    var s3 := Next(p, s2, Stamp(1));
    var s4 := Next(p, s3, Tick(p.delay));
    var s5 := Next(p, s4, CleanRead(0));
    var s6 := Next(p, s5, CleanRun(0));
    assert s6.entries == map[];
    assert Enabled(p, s6, Use(1));
    s' := Next(p, s6, Use(1));
    assert s'.accepted == [m] + [m];
    assert IsRun(p, s', []);
    hide Next, Enabled;
    OneStep(p, s6, Use(1), []);
    OneStep(p, s5, CleanRun(0), [Use(1)] + []);
    hide IsRun, After;
    var r5 := [CleanRun(0)] + ([Use(1)] + []);
    OneStep(p, s4, CleanRead(0), r5);
    OneStep(p, s3, Tick(p.delay), [CleanRead(0)] + r5);
    OneStep(p, s2, Stamp(1), [Tick(p.delay)] + ([CleanRead(0)] + r5));
    OneStep(p, s1, Check(1, m), [Stamp(1)] + ([Tick(p.delay)] + ([CleanRead(0)] + r5)));
    OneStep(p, s, Tick(LastTick(p)), [Check(1, m)] + ([Stamp(1)] + ([Tick(p.delay)] + ([CleanRead(0)] + r5))));
  }

  lemma EdgeRunReplays(p: Params)
    requires p.grain > 0 && p.lifetime < LongEnough(p) && ClockLasts(p)
    ensures IsRun(p, START, EdgeRun(p)) && !NoReplay(After(p, START, EdgeRun(p)))
  {
    EarlierIsOnClock(p, 0, LastTick(p) + p.delay);
    var s := FirstAccept(p, SecondHalf(p));
    var s' := SecondAccept(p, s);
    assert s'.accepted[0] == s'.accepted[1];
  }

  // ----- the result -----

  // Exactly the lifetimes for which no signed message is ever accepted twice.
  lemma ReplaySafeExactlyWhen(p: Params)
    requires p.grain > 0 && ClockLasts(p)
    ensures ReplaySafe(p) <==> p.lifetime >= 2 * p.window * p.grain + p.grain - 1 + p.delay
  {
    if p.lifetime >= LongEnough(p) {
      forall actions | IsRun(p, START, actions)
        ensures NoReplay(After(p, START, actions))
      {
        EarlierIsOnClock(p, 0, LastTick(p) + p.delay);
        assert Inv(p, START);
        RunKeepsInv(p, START, actions);
      }
    } else {
      EdgeRunReplays(p);
    }
  }

  // The code's ten minutes are the exact boundary: enough for a window of five
  // minutes either way on a clock of whole seconds with no delay, and short by
  // the rest of a second on the nanosecond clock the cache reads.
  lemma TenMinutesIsTheBoundary(delay: nat)
    requires delay < TWO_63 - 2000
    ensures ReplaySafe(Params(300, 600, 1, 0))
    ensures delay > 0 ==> !ReplaySafe(Params(300, 600, 1, delay))
    ensures !ReplaySafe(Params(300, TEN_MINUTES, 1_000_000_000, delay))
    ensures ReplaySafe(Params(300, TEN_MINUTES + 1_000_000_000 - 1 + delay, 1_000_000_000, delay))
  {
    ReplaySafeExactlyWhen(Params(300, 600, 1, 0));
    ReplaySafeExactlyWhen(Params(300, 600, 1, delay));
    ReplaySafeExactlyWhen(Params(300, TEN_MINUTES, 1_000_000_000, delay));
    ReplaySafeExactlyWhen(Params(300, TEN_MINUTES + 1_000_000_000 - 1 + delay, 1_000_000_000, delay));
  }
}
