// middleware.WebhookRateLimiter: token buckets kept in a map, refilled on use
// and evicted in the background. Times are whole nanoseconds.
module RateLimiter {

  const TEN_MINUTES := 600_000_000_000

  // ----- what Allow and one round of cleanup do to the buckets -----

  datatype Bucket = Bucket(tokens: int, lastSeen: int, nextRefill: int)

  type Buckets = map<string, Bucket>

  datatype Config = Config(limit: int, window: int)

  datatype Outcome = Outcome(ok: bool, buckets: Buckets)

  // A bucket that is there: refilled when due, then asked for one token.
  function Seen(c: Config, b: Bucket, now: int): Bucket {
    if now > b.nextRefill then Bucket(c.limit, now, now + c.window) else Bucket(b.tokens, now, b.nextRefill)
  }

  function AllowStep(c: Config, st: Buckets, key: string, now: int): Outcome {
    if key !in st then Outcome(true, st[key := Bucket(c.limit - 1, now, now + c.window)])
    else
      var b := Seen(c, st[key], now);
      if b.tokens <= 0 then Outcome(false, st[key := b])
      else Outcome(true, st[key := b.(tokens := b.tokens - 1)])
  }

  // `read` is the clock reading taken before the lock.
  function EvictStep(st: Buckets, read: int): Buckets {
    map k | k in st && !(st[k].lastSeen < read - TEN_MINUTES) :: st[k]
  }

  // ----- the class -----

  class TokenBucket {
    var tokens: int
    var lastSeen: int
    var nextRefill: int

    constructor (tokens: int, lastSeen: int, nextRefill: int)
      ensures this.tokens == tokens && this.lastSeen == lastSeen && this.nextRefill == nextRefill
    {
      this.tokens, this.lastSeen, this.nextRefill := tokens, lastSeen, nextRefill;
    }

    ghost function View(): Bucket
      reads this
    {
      Bucket(tokens, lastSeen, nextRefill)
    }

    method Take(c: Config, now: int) returns (ok: bool)
      modifies this
      ensures var b := Seen(c, old(View()), now);
              ok == (b.tokens > 0) && View() == if ok then b.(tokens := b.tokens - 1) else b
    {
      lastSeen := now;
      if now > nextRefill {
        tokens := c.limit;
        nextRefill := now + c.window;
      }
      if tokens <= 0 {
        return false;
      }
      tokens := tokens - 1;
      return true;
    }
  }

  class WebhookRateLimiter {
    var buckets: map<string, TokenBucket>
    const config: Config

    // Every key has a bucket of its own.
    ghost predicate Valid()
      reads this
    {
      forall k, l :: k in buckets && l in buckets && k != l ==> buckets[k] != buckets[l]
    }

    ghost function View(): Buckets
      reads this, buckets.Values
    {
      map k | k in buckets :: buckets[k].View()
    }

    constructor (limit: int, window: int)
      ensures Valid() && View() == map[] && config == Config(limit, window)
    {
      buckets := map[];
      config := Config(limit, window);
    }

    method Allow(key: string, now: int) returns (ok: bool)
      requires Valid()
      modifies this, buckets.Values
      ensures Valid() && fresh(buckets.Values - old(buckets.Values))
      ensures Outcome(ok, View()) == AllowStep(config, old(View()), key, now)
    {
      if key !in buckets {
        var b := new TokenBucket(config.limit - 1, now, now + config.window);
        buckets := buckets[key := b];
        return true;
      }
      ok := buckets[key].Take(config, now);
    }

    // One tick of the cleanup loop; the map is walked in any order.
    method Cleanup(read: int)
      requires Valid()
      modifies this
      ensures Valid() && buckets.Values <= old(buckets.Values)
      ensures View() == EvictStep(old(View()), read)
      ensures forall k ::
                && (k in View() <==> k in old(View()) && old(View())[k].lastSeen >= read - 600_000_000_000)
                && (k in View() ==> View()[k] == old(View())[k])
    {
      var cutoff := read - TEN_MINUTES;
      var todo := buckets.Keys;
      ghost var before := buckets;
      while todo != {}
        invariant todo <= before.Keys
        invariant forall k :: k in buckets <==> k in before && (k in todo || !(before[k].lastSeen < cutoff))
        invariant forall k :: k in buckets ==> buckets[k] == before[k]
        decreases todo
      {
        hide *;
        var k :| k in todo;
        todo := todo - {k};
        if buckets[k].lastSeen < cutoff {
          buckets := buckets - {k};
        }
      }
    }
  }

  // ----- runs -----

  // Allow reads the clock under the lock; an eviction may read it earlier.
  datatype Event = Allow(key: string, now: int) | Evict(read: int)

  function TimeOf(e: Event): int { if e.Allow? then e.now else e.read }

  // The clock does not go back: whatever was read before a call of Allow is
  // not later than what that call reads.
  ghost predicate InOrder(es: seq<Event>) {
    forall i, j :: 0 <= i < j < |es| && es[j].Allow? ==> TimeOf(es[i]) <= es[j].now
  }

  function Step(c: Config, st: Buckets, e: Event): Buckets {
    match e
    case Allow(key, now) => AllowStep(c, st, key, now).buckets
    case Evict(read) => EvictStep(st, read)
  }

  function After(c: Config, st: Buckets, es: seq<Event>): Buckets
    decreases |es|
  {
    if es == [] then st else After(c, Step(c, st, es[0]), es[1..])
  }

  // The answers the callers get, in order.
  function Answers(c: Config, st: Buckets, es: seq<Event>): seq<bool>
    decreases |es|
  {
    if es == [] then []
    else (if es[0].Allow? then [AllowStep(c, st, es[0].key, es[0].now).ok] else [])
         + Answers(c, Step(c, st, es[0]), es[1..])
  }

  function WithoutEvictions(es: seq<Event>): (r: seq<Event>)
    ensures forall e :: e in r ==> e in es && e.Allow?
  {
    if es == [] then []
    else if es[0].Allow? then [es[0]] + WithoutEvictions(es[1..])
    else WithoutEvictions(es[1..])
  }

  lemma InOrderTail(es: seq<Event>)
    requires InOrder(es) && es != []
    ensures InOrder(es[1..])
    ensures forall e :: e in es[1..] && e.Allow? ==> TimeOf(es[0]) <= e.now
  {
  }

  // ----- eviction is invisible -----

  predicate RefillSoon(c: Config, st: Buckets) {
    forall k :: k in st ==> st[k].nextRefill <= st[k].lastSeen + c.window
  }

  // The limiter that evicts agrees with the one that does not, except that it
  // may have forgotten buckets whose refill is due before any call to come.
  ghost predicate Simulates(c: Config, evicting: Buckets, keeping: Buckets, es: seq<Event>) {
    && RefillSoon(c, keeping)
    && (forall k :: k in evicting ==> k in keeping && evicting[k] == keeping[k])
    && (forall k, e :: k in keeping && e in es && e.Allow? ==> keeping[k].lastSeen <= e.now)
    && (forall k, e :: k in keeping && k !in evicting && e in es && e.Allow? ==> keeping[k].nextRefill < e.now)
  }

  lemma AllowKeepsSimulation(c: Config, evicting: Buckets, keeping: Buckets, es: seq<Event>)
    requires c.limit >= 1 && es != [] && es[0].Allow? && InOrder(es)
    requires Simulates(c, evicting, keeping, es)
    ensures var Allow(key, now) := es[0];
            var x, y := AllowStep(c, evicting, key, now), AllowStep(c, keeping, key, now);
            x.ok == y.ok && Simulates(c, x.buckets, y.buckets, es[1..])
  {
    assert es[0] in es;
    assert forall e :: e in es[1..] ==> e in es;
  }

  lemma EvictKeepsSimulation(c: Config, evicting: Buckets, keeping: Buckets, es: seq<Event>)
    requires c.window <= TEN_MINUTES && es != [] && es[0].Evict? && InOrder(es)
    requires Simulates(c, evicting, keeping, es)
    ensures Simulates(c, EvictStep(evicting, es[0].read), keeping, es[1..])
  {
    assert forall e :: e in es[1..] ==> e in es;
    InOrderTail(es);
  }

  lemma {:induction false} SimulatedAnswers(c: Config, evicting: Buckets, keeping: Buckets, es: seq<Event>)
    requires c.limit >= 1 && c.window <= TEN_MINUTES && InOrder(es)
    requires Simulates(c, evicting, keeping, es)
    ensures Answers(c, evicting, es) == Answers(c, keeping, WithoutEvictions(es))
    decreases |es|
  {
    if es != [] {
      InOrderTail(es);
      if es[0].Allow? {
        var Allow(key, now) := es[0];
        AllowKeepsSimulation(c, evicting, keeping, es);
        SimulatedAnswers(c, AllowStep(c, evicting, key, now).buckets, AllowStep(c, keeping, key, now).buckets, es[1..]);
        assert WithoutEvictions(es)[1..] == WithoutEvictions(es[1..]);
      } else {
        EvictKeepsSimulation(c, evicting, keeping, es);
        SimulatedAnswers(c, EvictStep(evicting, es[0].read), keeping, es[1..]);
        assert [] + Answers(c, EvictStep(evicting, es[0].read), es[1..]) == Answers(c, evicting, es);
      }
    }
  }

  // In every run, whenever the evictions happen, every caller gets the answer
  // a limiter that never evicts would give.
  ghost predicate EvictionIsInvisible(c: Config) {
    forall es :: InOrder(es) ==> Answers(c, map[], es) == Answers(c, map[], WithoutEvictions(es))
  }

  // ----- repeated calls -----

  function Calls(key: string, now: int, n: nat): (es: seq<Event>)
    ensures |es| == n && forall e :: e in es ==> e == Allow(key, now)
  {
    seq(n, _ => Allow(key, now))
  }

  function Yes(n: nat): seq<bool> { seq(n, _ => true) }

  // As long as there are tokens and no refill is due, each call takes one.
  lemma {:induction false} CallsTakeTokens(c: Config, st: Buckets, key: string, now: int, n: nat)
    requires key in st && n <= st[key].tokens && now <= st[key].nextRefill
    ensures Answers(c, st, Calls(key, now, n)) == Yes(n)
    ensures n > 0 ==> After(c, st, Calls(key, now, n)) == st[key := Bucket(st[key].tokens - n, now, st[key].nextRefill)]
    decreases n
  {
    var es := Calls(key, now, n);
    if n > 0 {
      var next := AllowStep(c, st, key, now).buckets;
      assert es[1..] == Calls(key, now, n - 1);
      CallsTakeTokens(c, next, key, now, n - 1);
      assert Yes(n) == [true] + Yes(n - 1);
      if n > 1 {
        assert After(c, st, es) == After(c, next, es[1..]);
      } else {
        assert es[1..] == [];
      }
    }
  }

  lemma ConcatTail(xs: seq<Event>, ys: seq<Event>)
    requires xs != []
    ensures (xs + ys)[0] == xs[0] && (xs + ys)[1..] == xs[1..] + ys
  {
  }

  lemma {:induction false} AfterInTwoParts(c: Config, st: Buckets, xs: seq<Event>, ys: seq<Event>)
    ensures After(c, st, xs + ys) == After(c, After(c, st, xs), ys)
    decreases |xs|
  {
    hide Step;
    if xs == [] {
      assert xs + ys == ys;
    } else {
      ConcatTail(xs, ys);
      AfterInTwoParts(c, Step(c, st, xs[0]), xs[1..], ys);
    }
  }

  lemma {:induction false} AnswersInTwoParts(c: Config, st: Buckets, xs: seq<Event>, ys: seq<Event>)
    ensures Answers(c, st, xs + ys) == Answers(c, st, xs) + Answers(c, After(c, st, xs), ys)
    decreases |xs|
  {
    hide AllowStep, Step;
    if xs == [] {
      assert xs + ys == ys;
    } else {
      ConcatTail(xs, ys);
      AnswersInTwoParts(c, Step(c, st, xs[0]), xs[1..], ys);
    }
  }

  lemma {:induction false} CallsInTwoParts(xs: seq<Event>, ys: seq<Event>)
    ensures WithoutEvictions(xs + ys) == WithoutEvictions(xs) + WithoutEvictions(ys)
    decreases |xs|
  {
    if xs == [] {
      assert xs + ys == ys;
    } else {
      ConcatTail(xs, ys);
      CallsInTwoParts(xs[1..], ys);
    }
  }

  lemma AllCallsKept(es: seq<Event>)
    requires forall e :: e in es ==> e.Allow?
    ensures WithoutEvictions(es) == es
  {
  }

  // The run that shows an eviction: use the quota up at time 0, evict as soon
  // as the bucket has been idle for more than ten minutes, and call again.
  function IdleRun(c: Config, key: string): seq<Event> {
    Calls(key, 0, if c.limit >= 1 then c.limit else 1) + [Evict(TEN_MINUTES + 1), Allow(key, TEN_MINUTES + 1)]
  }

  lemma IdleRunInOrder(c: Config, key: string)
    ensures InOrder(IdleRun(c, key))
  {
    var es := Calls(key, 0, if c.limit >= 1 then c.limit else 1);
    assert forall i :: 0 <= i < |es| ==> es[i] in es;
  }

  lemma QuotaUsedUp(c: Config, key: string)
    requires c.limit >= 1 ==> c.window >= 0
    ensures var n: nat := if c.limit >= 1 then c.limit else 1;
            After(c, map[], Calls(key, 0, n)) == map[key := Bucket(c.limit - n, 0, c.window)]
  {
    var n: nat := if c.limit >= 1 then c.limit else 1;
    var es := Calls(key, 0, n);
    var st := AllowStep(c, map[], key, 0).buckets;
    assert es[1..] == Calls(key, 0, n - 1);
    assert After(c, map[], es) == After(c, st, es[1..]);
    if n > 1 {
      CallsTakeTokens(c, st, key, 0, n - 1);
    } else {
      assert es[1..] == [];
    }
  }

  // The call after the idle time: allowed on a forgotten bucket, refused on
  // one that has no tokens and no refill due.
  lemma LastCall(c: Config, st: Buckets, key: string, t: int)
    ensures Answers(c, st, [Allow(key, t)]) == [AllowStep(c, st, key, t).ok]
    ensures Answers(c, st, [Evict(t), Allow(key, t)]) == [AllowStep(c, EvictStep(st, t), key, t).ok]
    ensures WithoutEvictions([Evict(t), Allow(key, t)]) == [Allow(key, t)]
  {
    var tail := [Evict(t), Allow(key, t)];
    assert tail[1..] == [Allow(key, t)] && tail[1..][1..] == [];
    assert [Allow(key, t)][1..] == [];
    assert Answers(c, EvictStep(st, t), [Allow(key, t)]) == [AllowStep(c, EvictStep(st, t), key, t).ok] + [];
    assert Answers(c, st, tail) == [] + Answers(c, EvictStep(st, t), [Allow(key, t)]);
    assert WithoutEvictions(tail) == WithoutEvictions([Allow(key, t)]) == [Allow(key, t)] + [];
  }

  lemma IdleRunTellsThemApart(c: Config, key: string)
    requires c.limit < 1 || c.window > TEN_MINUTES
    ensures Answers(c, map[], IdleRun(c, key)) != Answers(c, map[], WithoutEvictions(IdleRun(c, key)))
  {
    var n: nat := if c.limit >= 1 then c.limit else 1;
    var es, t := Calls(key, 0, n), TEN_MINUTES + 1;
    QuotaUsedUp(c, key);
    var st := After(c, map[], es);
    assert EvictStep(st, t) == map[];
    assert AllowStep(c, EvictStep(st, t), key, t).ok && !AllowStep(c, st, key, t).ok;
    LastCall(c, st, key, t);
    hide AllowStep, EvictStep, Answers, After;
    AnswersInTwoParts(c, map[], es, [Evict(t), Allow(key, t)]);
    AnswersInTwoParts(c, map[], es, [Allow(key, t)]);
    CallsInTwoParts(es, [Evict(t), Allow(key, t)]);
    AllCallsKept(es);
    var sofar := Answers(c, map[], es);
    assert (sofar + [true])[|sofar|] != (sofar + [false])[|sofar|];
  }

  // Eviction is invisible exactly for a positive limit and a window of at most
  // the ten minutes a bucket may be idle.
  lemma EvictionIsInvisibleExactlyWhen(c: Config)
    ensures EvictionIsInvisible(c) <==> c.limit >= 1 && c.window <= TEN_MINUTES
  {
    if c.limit >= 1 && c.window <= TEN_MINUTES {
      forall es | InOrder(es)
        ensures Answers(c, map[], es) == Answers(c, map[], WithoutEvictions(es))
      {
        SimulatedAnswers(c, map[], map[], es);
      }
    } else {
      IdleRunInOrder(c, "k");
      IdleRunTellsThemApart(c, "k");
    }
  }

  // ----- the bound on allowed calls -----

  // How many calls for `key` made between `lo` and `hi` (both included) are
  // allowed in a run.
  function Allowed(c: Config, st: Buckets, es: seq<Event>, key: string, lo: int, hi: int): nat
    decreases |es|
  {
    if es == [] then 0
    else
      (if es[0].Allow? && es[0].key == key && lo <= es[0].now <= hi && AllowStep(c, st, key, es[0].now).ok
       then 1 else 0)
      + Allowed(c, Step(c, st, es[0]), es[1..], key, lo, hi)
  }

  // The same count, read off the list of answers.
  function CountYes(es: seq<Event>, answers: seq<bool>, key: string, lo: int, hi: int): nat
    decreases |es|
  {
    if es == [] || answers == [] then 0
    else if es[0].Evict? then CountYes(es[1..], answers, key, lo, hi)
    else (if es[0].key == key && lo <= es[0].now <= hi && answers[0] then 1 else 0)
         + CountYes(es[1..], answers[1..], key, lo, hi)
  }

  lemma {:induction false} AllowedCountsAnswers(c: Config, st: Buckets, es: seq<Event>, key: string, lo: int, hi: int)
    ensures Allowed(c, st, es, key, lo, hi) == CountYes(es, Answers(c, st, es), key, lo, hi)
    decreases |es|
  {
    if es != [] {
      var next := Step(c, st, es[0]);
      AllowedCountsAnswers(c, next, es[1..], key, lo, hi);
      var rest := Answers(c, next, es[1..]);
      if es[0].Allow? {
        assert Answers(c, st, es) == [AllowStep(c, st, es[0].key, es[0].now).ok] + rest;
        assert Answers(c, st, es)[1..] == rest;
      } else {
        assert Answers(c, st, es) == [] + rest == rest;
      }
    }
  }

  lemma {:induction false} EvictionsDoNotCount(es: seq<Event>, answers: seq<bool>, key: string, lo: int, hi: int)
    ensures CountYes(es, answers, key, lo, hi) == CountYes(WithoutEvictions(es), answers, key, lo, hi)
    decreases |es|
  {
    if es != [] {
      if es[0].Evict? {
        EvictionsDoNotCount(es[1..], answers, key, lo, hi);
      } else {
        if answers != [] {
          EvictionsDoNotCount(es[1..], answers[1..], key, lo, hi);
        }
        assert WithoutEvictions(es)[1..] == WithoutEvictions(es[1..]);
      }
    }
  }

  // At most this many refills, each more than a window after the one before,
  // fit into `span` nanoseconds.
  function Starts(span: int, window: nat): nat
    decreases if span <= 0 then 0 else span
  {
    if span <= 0 then 0 else 1 + Starts(span - window - 1, window)
  }

  lemma {:induction false} StartsMonotone(a: int, b: int, window: nat)
    requires a <= b
    ensures Starts(a, window) <= Starts(b, window)
    decreases if b <= 0 then 0 else b
  {
    if a > 0 {
      StartsMonotone(a - window - 1, b - window - 1, window);
    }
  }

  lemma {:induction false} StartsInWindows(n: nat, window: nat)
    ensures Starts(n * window, window) <= n
    decreases n
  {
    if n * window > 0 {
      assert n * window - window == (n - 1) * window;
      StartsMonotone(n * window - window - 1, (n - 1) * window, window);
      StartsInWindows(n - 1, window);
    }
  }

  function MaxOf(a: int, b: int): int { if a >= b then a else b }

  // What can still be allowed up to `hi`: the tokens left, and a full quota for
  // each refill that fits in after the one due and after `lo`.
  function Potential(c: Config, st: Buckets, key: string, lo: int, hi: int): int
    requires c.window >= 0
  {
    if key in st then
      MaxOf(st[key].tokens, 0) + c.limit * Starts(hi - MaxOf(st[key].nextRefill, lo - 1), c.window)
    else
      c.limit * Starts(hi - (lo - 1), c.window)
  }

  ghost predicate CallsFrom(es: seq<Event>, from: int) {
    forall e :: e in es ==> e.Allow? && from <= e.now
  }

  lemma {:induction false} LaterCallsDoNotCount(c: Config, st: Buckets, es: seq<Event>, key: string, lo: int, hi: int)
    requires CallsFrom(es, hi + 1)
    ensures Allowed(c, st, es, key, lo, hi) == 0
    decreases |es|
  {
    if es != [] {
      assert es[0] in es;
      LaterCallsDoNotCount(c, Step(c, st, es[0]), es[1..], key, lo, hi);
    }
  }

  lemma TimesMonotone(k: int, a: int, b: int)
    requires k >= 0 && a <= b
    ensures k * a <= k * b
  {
  }

  // A refill spends one of the starts that fit.
  lemma RefillSpendsAStart(c: Config, from: int, now: int, hi: int)
    requires c.limit >= 0 && c.window >= 0 && from < now <= hi
    ensures c.limit + c.limit * Starts(hi - (now + c.window), c.window) <= c.limit * Starts(hi - from, c.window)
  {
    var later, all := Starts(hi - (now + c.window), c.window), Starts(hi - from, c.window);
    StartsMonotone(hi - (now + c.window), hi - from - c.window - 1, c.window);
    assert all == 1 + Starts(hi - from - c.window - 1, c.window);
    TimesMonotone(c.limit, 1 + later, all);
    assert c.limit * (1 + later) == c.limit + c.limit * later;
  }

  // One call inside the interval: what it takes comes out of the potential.
  lemma CallSpendsPotential(c: Config, st: Buckets, key: string, now: int, lo: int, hi: int)
    requires c.limit >= 1 && c.window >= 0 && lo <= now <= hi
    ensures var o := AllowStep(c, st, key, now);
            (if o.ok then 1 else 0) + Potential(c, o.buckets, key, lo, hi) <= Potential(c, st, key, lo, hi)
  {
    if key !in st {
      RefillSpendsAStart(c, lo - 1, now, hi);
    } else if now > st[key].nextRefill {
      RefillSpendsAStart(c, MaxOf(st[key].nextRefill, lo - 1), now, hi);
    }
  }

  // From a moment not before `lo` on, allowed calls are paid for by potential.
  lemma {:induction false} PotentialBoundsCalls(c: Config, st: Buckets, es: seq<Event>, key: string, lo: int, hi: int)
    requires c.limit >= 1 && c.window >= 0 && InOrder(es) && CallsFrom(es, lo)
    ensures Allowed(c, st, es, key, lo, hi) <= Potential(c, st, key, lo, hi)
    decreases |es|
  {
    PotentialIsNonNegative(c, st, key, lo, hi);
    if es != [] {
      var e, rest := es[0], es[1..];
      assert e in es;
      InOrderTail(es);
      var next := Step(c, st, e);
      if e.now > hi {
        LaterCallsDoNotCount(c, st, es, key, lo, hi);
      } else {
        PotentialBoundsCalls(c, next, rest, key, lo, hi);
        if e.key == key {
          CallSpendsPotential(c, st, key, e.now, lo, hi);
        }
      }
    }
  }

  lemma PotentialIsNonNegative(c: Config, st: Buckets, key: string, lo: int, hi: int)
    requires c.limit >= 1 && c.window >= 0
    ensures Potential(c, st, key, lo, hi) >= 0
  {
    TimesMonotone(c.limit, 0, Starts(hi - (lo - 1), c.window));
    if key in st {
      TimesMonotone(c.limit, 0, Starts(hi - MaxOf(st[key].nextRefill, lo - 1), c.window));
    }
  }

  // Every bucket has spent at least one token since its last refill.
  predicate Spent(c: Config, st: Buckets) {
    forall k :: k in st ==> st[k].tokens < c.limit
  }

  // Over n windows at most n refills fit, and what is left from before them is
  // less than a quota.
  lemma PotentialOverWindows(c: Config, st: Buckets, key: string, lo: int, n: nat)
    requires c.limit >= 1 && c.window >= 0 && n >= 1 && Spent(c, st)
    ensures Potential(c, st, key, lo, lo + n * c.window) <= (n + 1) * c.limit - 1
  {
    var hi := lo + n * c.window;
    var span := hi - (lo - 1);
    assert span - c.window - 1 == (n - 1) * c.window;
    StartsInWindows(n - 1, c.window);
    assert Starts(span, c.window) <= n;
    TimesMonotone(c.limit, Starts(span, c.window), n);
    if key in st {
      var s := hi - MaxOf(st[key].nextRefill, lo - 1);
      StartsMonotone(s, span, c.window);
      TimesMonotone(c.limit, Starts(s, c.window), n);
    }
    assert (n + 1) * c.limit == c.limit * n + c.limit;
  }

  // Calls before the interval are walked over; from its first call on the
  // potential of the state reached there bounds the count.
  lemma {:induction false} BoundWithoutEvictions(c: Config, st: Buckets, es: seq<Event>, key: string, lo: int, n: nat)
    requires c.limit >= 1 && c.window >= 0 && n >= 1 && Spent(c, st)
    requires InOrder(es) && forall e :: e in es ==> e.Allow?
    ensures Allowed(c, st, es, key, lo, lo + n * c.window) <= (n + 1) * c.limit - 1
    decreases |es|
  {
    if es == [] || es[0].now >= lo {
      if es != [] {
        InOrderTail(es);
      }
      assert CallsFrom(es, lo);
      PotentialBoundsCalls(c, st, es, key, lo, lo + n * c.window);
      PotentialOverWindows(c, st, key, lo, n);
    } else {
      assert es[0] in es;
      InOrderTail(es);
      BoundWithoutEvictions(c, Step(c, st, es[0]), es[1..], key, lo, n);
    }
  }

  lemma InOrderCons(e: Event, rest: seq<Event>)
    requires InOrder(rest) && forall x :: x in rest && x.Allow? ==> TimeOf(e) <= x.now
    ensures InOrder([e] + rest)
  {
    var es := [e] + rest;
    forall i, j | 0 <= i < j < |es| && es[j].Allow?
      ensures TimeOf(es[i]) <= es[j].now
    {
      assert es[j] == rest[j - 1] && rest[j - 1] in rest;
      assert i > 0 ==> es[i] == rest[i - 1];
    }
  }

  lemma {:induction false} WithoutEvictionsInOrder(es: seq<Event>)
    requires InOrder(es)
    ensures InOrder(WithoutEvictions(es))
    decreases |es|
  {
    if es != [] {
      InOrderTail(es);
      WithoutEvictionsInOrder(es[1..]);
      if es[0].Allow? {
        InOrderCons(es[0], WithoutEvictions(es[1..]));
      }
    }
  }

  // In any run of calls and evictions on any keys, in any closed interval of n
  // windows, fewer than (n + 1) * limit calls for one key are allowed.
  lemma RateBound(c: Config, es: seq<Event>, key: string, lo: int, n: nat)
    requires c.limit >= 1 && c.window <= TEN_MINUTES && n >= 1 && InOrder(es)
    ensures Allowed(c, map[], es, key, lo, lo + n * c.window) <= (n + 1) * c.limit - 1
  {
    var hi := lo + n * c.window;
    AllowedCountsAnswers(c, map[], es, key, lo, hi);
    TimesMonotone(c.limit, 2, n + 1);
    if c.window < 0 {
      assert hi < lo;
      NothingInEmptyInterval(c, map[], es, key, lo, hi);
    } else {
      var kept := WithoutEvictions(es);
      SimulatedAnswers(c, map[], map[], es);
      EvictionsDoNotCount(es, Answers(c, map[], es), key, lo, hi);
      AllowedCountsAnswers(c, map[], kept, key, lo, hi);
      WithoutEvictionsInOrder(es);
      BoundWithoutEvictions(c, map[], kept, key, lo, n);
    }
  }

  lemma {:induction false} NothingInEmptyInterval(c: Config, st: Buckets, es: seq<Event>, key: string, lo: int, hi: int)
    requires hi < lo
    ensures Allowed(c, st, es, key, lo, hi) == 0
    decreases |es|
  {
    if es != [] {
      NothingInEmptyInterval(c, Step(c, st, es[0]), es[1..], key, lo, hi);
    }
  }

  function AllowedInWindows(c: Config, es: seq<Event>, key: string, lo: int, n: nat): nat {
    Allowed(c, map[], es, key, lo, lo + n * c.window)
  }

  ghost predicate Bounded(c: Config) {
    forall es, key, lo, n: nat :: InOrder(es) && n >= 1 ==> AllowedInWindows(c, es, key, lo, n) <= (n + 1) * c.limit - 1
  }

  // ----- the bound is reached -----

  lemma {:induction false} AllowedInTwoParts(c: Config, st: Buckets, xs: seq<Event>, ys: seq<Event>, key: string, lo: int, hi: int)
    ensures Allowed(c, st, xs + ys, key, lo, hi) ==
            Allowed(c, st, xs, key, lo, hi) + Allowed(c, After(c, st, xs), ys, key, lo, hi)
    decreases |xs|
  {
    if xs == [] {
      assert xs + ys == ys;
    } else {
      assert (xs + ys)[0] == xs[0] && (xs + ys)[1..] == xs[1..] + ys;
      AllowedInTwoParts(c, Step(c, st, xs[0]), xs[1..], ys, key, lo, hi);
    }
  }

  // ----- the bound on refused calls -----

  lemma LastEvent(c: Config, es: seq<Event>, key: string, lo: int, hi: int)
    requires es != []
    ensures var front, e := es[..|es| - 1], es[|es| - 1];
            var st := After(c, map[], front);
            && After(c, map[], es) == Step(c, st, e)
            && Allowed(c, map[], es, key, lo, hi) ==
               Allowed(c, map[], front, key, lo, hi)
               + if e.Allow? && e.key == key && lo <= e.now <= hi && AllowStep(c, st, key, e.now).ok then 1 else 0
  {
    var front, e := es[..|es| - 1], es[|es| - 1];
    assert es == front + [e] && [e][1..] == [];
    AfterInTwoParts(c, map[], front, [e]);
    AllowedInTwoParts(c, map[], front, [e], key, lo, hi);
    assert After(c, After(c, map[], front), [e]) == Step(c, After(c, map[], front), e);
    hide AllowStep, Step;
  }

  lemma BeforeLast(es: seq<Event>)
    requires es != [] && InOrder(es)
    ensures InOrder(es[..|es| - 1])
    ensures forall x :: x in es[..|es| - 1] ==> x in es
    ensures es[|es| - 1].Allow? ==> forall x :: x in es[..|es| - 1] && x.Allow? ==> x.now <= es[|es| - 1].now
  {
  }

  // A bucket was last seen by a call of the run, not before its last refill.
  lemma {:induction false} SeenByThen(c: Config, es: seq<Event>, key: string, latest: int)
    requires InOrder(es) && key in After(c, map[], es)
    requires forall e :: e in es && e.Allow? ==> e.now <= latest
    ensures var b := After(c, map[], es)[key]; b.nextRefill - c.window <= b.lastSeen <= latest
    decreases |es|
  {
    if es != [] {
      var front, e := es[..|es| - 1], es[|es| - 1];
      LastEvent(c, es, key, 0, 0);
      BeforeLast(es);
      assert e in es;
      if key in After(c, map[], front) {
        SeenByThen(c, front, key, if e.Allow? then e.now else latest);
      }
      hide After, InOrder;
    }
  }

  // What a bucket lacks of a whole quota was allowed since its last refill.
  lemma {:induction false} LackWasAllowed(c: Config, es: seq<Event>, key: string, lo: int, hi: int)
    requires c.limit >= 1 && InOrder(es) && key in After(c, map[], es)
    requires var b := After(c, map[], es)[key]; lo <= b.nextRefill - c.window && b.lastSeen <= hi
    ensures Allowed(c, map[], es, key, lo, hi) >= c.limit - After(c, map[], es)[key].tokens
    decreases |es|
  {
    var front, e := es[..|es| - 1], es[|es| - 1];
    var st := After(c, map[], front);
    LastEvent(c, es, key, lo, hi);
    BeforeLast(es);
    if key in st {
      if e.Allow? && e.key == key {
        SeenByThen(c, front, key, e.now);
      }
      if st[key].lastSeen <= hi && lo <= st[key].nextRefill - c.window {
        LackWasAllowed(c, front, key, lo, hi);
      }
    }
    hide After, Allowed;
  }

  // Nobody is refused who has not had a whole quota within one window, however
  // often he asks and whatever is evicted.
  lemma RefusedMeansQuotaUsed(c: Config, es: seq<Event>, key: string, now: int)
    requires InOrder(es + [Allow(key, now)])
    requires Answers(c, map[], es + [Allow(key, now)]) == Answers(c, map[], es) + [false]
    ensures Allowed(c, map[], es, key, now - c.window, now) >= c.limit
  {
    var st, all := After(c, map[], es), es + [Allow(key, now)];
    assert !AllowStep(c, st, key, now).ok by {
      AnswersInTwoParts(c, map[], es, [Allow(key, now)]);
      LastCall(c, st, key, now);
      assert (Answers(c, map[], es) + [AllowStep(c, st, key, now).ok])[|Answers(c, map[], es)|] == false;
    }
    assert key in st;
    assert all[..|all| - 1] == es;
    BeforeLast(all);
    hide After, Allowed, Answers;
    if c.limit >= 1 {
      SeenByThen(c, es, key, now);
      LackWasAllowed(c, es, key, now - c.window, now);
    }
  }

  lemma {:induction false} CallsAreAllowed(c: Config, st: Buckets, key: string, now: int, n: nat, lo: int, hi: int)
    requires key in st && n <= Seen(c, st[key], now).tokens && lo <= now <= hi && c.window >= 0
    ensures Allowed(c, st, Calls(key, now, n), key, lo, hi) == n
    ensures n > 0 ==> var b := Seen(c, st[key], now);
                      After(c, st, Calls(key, now, n)) == st[key := b.(tokens := b.tokens - n)]
    decreases n
  {
    if n > 0 {
      var next := AllowStep(c, st, key, now).buckets;
      assert Calls(key, now, n)[1..] == Calls(key, now, n - 1);
      CallsAreAllowed(c, next, key, now, n - 1, lo, hi);
      assert After(c, st, Calls(key, now, n)) == After(c, next, Calls(key, now, n - 1));
      if n == 1 {
        assert Calls(key, now, 0) == [];
      }
    }
  }

  lemma InOrderConcat(xs: seq<Event>, ys: seq<Event>, at: int)
    requires InOrder(xs) && InOrder(ys)
    requires (forall e :: e in xs ==> TimeOf(e) <= at) && (forall e :: e in ys ==> at <= TimeOf(e))
    ensures InOrder(xs + ys)
  {
    var es := xs + ys;
    forall i, j | 0 <= i < j < |es| && es[j].Allow?
      ensures TimeOf(es[i]) <= es[j].now
    {
      if i < |xs| <= j {
        assert es[i] in xs && es[j] in ys;
      }
    }
  }

  lemma CallsInOrder(key: string, now: int, n: nat)
    ensures InOrder(Calls(key, now, n))
  {
    var es := Calls(key, now, n);
    assert forall i :: 0 <= i < |es| ==> es[i] in es;
  }

  // `m` quotas, each used up at once right after its refill is due.
  function Bursts(c: Config, key: string, t: int, m: nat): seq<Event>
    requires c.limit >= 1
    decreases m
  {
    if m == 0 then [] else Calls(key, t, c.limit) + Bursts(c, key, t + c.window + 1, m - 1)
  }

  lemma {:induction false} BurstsInOrder(c: Config, key: string, t: int, m: nat)
    requires c.limit >= 1 && c.window >= 1
    ensures InOrder(Bursts(c, key, t, m)) && forall e :: e in Bursts(c, key, t, m) ==> t <= TimeOf(e)
    decreases m
  {
    if m > 0 {
      BurstsInOrder(c, key, t + c.window + 1, m - 1);
      CallsInOrder(key, t, c.limit);
      InOrderConcat(Calls(key, t, c.limit), Bursts(c, key, t + c.window + 1, m - 1), t);
    }
  }

  lemma {:induction false} BurstsAreAllowed(c: Config, st: Buckets, key: string, t: int, m: nat, lo: int, hi: int)
    requires c.limit >= 1 && c.window >= 1 && key in st && st[key].nextRefill < t && lo <= t
    requires m > 0 ==> t + (m - 1) * (c.window + 1) <= hi
    ensures Allowed(c, st, Bursts(c, key, t, m), key, lo, hi) == m * c.limit
    decreases m
  {
    if m > 0 {
      var next := t + c.window + 1;
      assert (m - 1) * (c.window + 1) >= 0;
      assert m > 1 ==> (m - 1) * (c.window + 1) == (m - 2) * (c.window + 1) + c.window + 1;
      CallsAreAllowed(c, st, key, t, c.limit, lo, hi);
      var s1 := After(c, st, Calls(key, t, c.limit));
      assert key in s1 && s1[key].nextRefill == t + c.window;
      hide Allowed, AllowStep, After;
      BurstsAreAllowed(c, s1, key, next, m - 1, lo, hi);
      AllowedInTwoParts(c, st, Calls(key, t, c.limit), Bursts(c, key, next, m - 1), key, lo, hi);
      assert m * c.limit == c.limit + (m - 1) * c.limit;
    }
  }

  // One call opens a window, the rest of the quota is used in its last
  // nanosecond, and then a whole quota each time the refill is due.
  function BurstRun(c: Config, key: string, n: nat): seq<Event>
    requires c.limit >= 1
  {
    [Allow(key, 0)] + (Calls(key, c.window, c.limit - 1) + Bursts(c, key, c.window + 1, n))
  }

  lemma BurstRunInOrder(c: Config, key: string, n: nat)
    requires c.limit >= 1 && c.window >= 1
    ensures InOrder(BurstRun(c, key, n))
  {
    var w := c.window;
    BurstsInOrder(c, key, w + 1, n);
    CallsInOrder(key, w, c.limit - 1);
    InOrderConcat(Calls(key, w, c.limit - 1), Bursts(c, key, w + 1, n), w);
    InOrderCons(Allow(key, 0), Calls(key, w, c.limit - 1) + Bursts(c, key, w + 1, n));
  }

  // Up to the last nanosecond of the first window.
  lemma OpeningCalls(c: Config, key: string, hi: int) returns (st: Buckets)
    requires c.limit >= 1 && c.window >= 1 && c.window <= hi
    ensures var opening := [Allow(key, 0)] + Calls(key, c.window, c.limit - 1);
            Allowed(c, map[], opening, key, c.window, hi) == c.limit - 1 && After(c, map[], opening) == st
    ensures key in st && st[key].nextRefill == c.window
  {
    var w := c.window;
    var xs, ys := [Allow(key, 0)], Calls(key, w, c.limit - 1);
    var s1 := AllowStep(c, map[], key, 0).buckets;
    assert xs[1..] == [];
    assert After(c, map[], xs) == s1;
    assert Allowed(c, map[], xs, key, w, hi) == 0;
    CallsAreAllowed(c, s1, key, w, c.limit - 1, w, hi);
    st := After(c, s1, ys);
    if c.limit == 1 {
      assert ys == [];
    }
    hide AllowStep, Allowed, After, Calls;
    AllowedInTwoParts(c, map[], xs, ys, key, w, hi);
    AfterInTwoParts(c, map[], xs, ys);
  }

  lemma TimesNext(k: int, a: int)
    ensures (k + 1) * a == k * a + a
  {
  }

  lemma BurstCount(c: Config, key: string, n: nat)
    requires c.limit >= 1 && 1 <= n <= c.window
    ensures Allowed(c, map[], BurstRun(c, key, n), key, c.window, c.window + n * c.window) == (n + 1) * c.limit - 1
  {
    var w := c.window;
    var hi := w + n * w;
    TimesNext(n - 1, w + 1);
    TimesNext(n, c.limit);
    TimesMonotone(n, 0, w);
    assert n * (w + 1) == n * w + n;
    var xs, ys, zs := [Allow(key, 0)], Calls(key, w, c.limit - 1), Bursts(c, key, w + 1, n);
    assert BurstRun(c, key, n) == xs + ys + zs;
    hide *;
    var st := OpeningCalls(c, key, hi);
    BurstsAreAllowed(c, st, key, w + 1, n, w, hi);
    AllowedInTwoParts(c, map[], xs + ys, zs, key, w, hi);
  }

  // The bound cannot be improved, for any number of windows up to the window's
  // length in nanoseconds.
  lemma BoundIsReached(c: Config, key: string, n: nat)
    requires c.limit >= 1 && 1 <= n <= c.window
    ensures InOrder(BurstRun(c, key, n))
    ensures AllowedInWindows(c, BurstRun(c, key, n), key, c.window, n) == (n + 1) * c.limit - 1
  {
    BurstRunInOrder(c, key, n);
    BurstCount(c, key, n);
    hide BurstRun, Allowed, InOrder;
  }

  lemma TwiceNonPositive(limit: int)
    requires limit < 1
    ensures (1 + 1) * limit - 1 < 0
  {
  }

  // With a longer window a quota, an eviction and a quota again fit into one.
  function EvictedRun(c: Config, key: string): seq<Event>
    requires c.limit >= 1
  {
    Calls(key, 0, c.limit) + ([Evict(TEN_MINUTES + 1)] + Calls(key, TEN_MINUTES + 1, c.limit))
  }

  lemma EvictedRunInOrder(c: Config, key: string)
    requires c.limit >= 1
    ensures InOrder(EvictedRun(c, key))
  {
    var ys, zs := Calls(key, 0, c.limit), Calls(key, TEN_MINUTES + 1, c.limit);
    assert forall i :: 0 <= i < |ys| ==> ys[i] in ys;
    assert forall i :: 0 <= i < |zs| ==> zs[i] in zs;
  }

  // A key without a bucket gets a whole quota at once.
  lemma QuotaFromNothing(c: Config, key: string, now: int, lo: int, hi: int)
    requires c.limit >= 1 && c.window >= 0 && lo <= now <= hi
    ensures Allowed(c, map[], Calls(key, now, c.limit), key, lo, hi) == c.limit
  {
    var st := AllowStep(c, map[], key, now).buckets;
    assert Calls(key, now, c.limit)[1..] == Calls(key, now, c.limit - 1);
    CallsAreAllowed(c, st, key, now, c.limit - 1, lo, hi);
  }

  lemma EvictedRunCount(c: Config, key: string)
    requires c.limit >= 1 && c.window > TEN_MINUTES
    ensures Allowed(c, map[], EvictedRun(c, key), key, 0, c.window) == 2 * c.limit
  {
    var t := TEN_MINUTES + 1;
    var xs, ys := Calls(key, 0, c.limit), Calls(key, t, c.limit);
    QuotaUsedUp(c, key);
    var st := After(c, map[], xs);
    assert EvictStep(st, t) == map[];
    assert ([Evict(t)] + ys)[1..] == ys;
    assert Allowed(c, st, [Evict(t)] + ys, key, 0, c.window) == Allowed(c, map[], ys, key, 0, c.window);
    QuotaFromNothing(c, key, 0, 0, c.window);
    QuotaFromNothing(c, key, t, 0, c.window);
    AllowedInTwoParts(c, map[], xs, [Evict(t)] + ys, key, 0, c.window);
  }

  lemma UnboundedWhenEvicted(c: Config)
    requires c.limit >= 1 && c.window > TEN_MINUTES
    ensures !Bounded(c)
  {
    var es, one: nat := EvictedRun(c, "k"), 1;
    EvictedRunInOrder(c, "k");
    EvictedRunCount(c, "k");
    hide EvictedRun, Allowed, InOrder;
    assert 0 + one * c.window == c.window && (one + 1) * c.limit - 1 == 2 * c.limit - 1;
    assert AllowedInWindows(c, es, "k", 0, one) == 2 * c.limit;
  }

  // The bound holds for all runs exactly with a positive limit and a window of
  // at most the ten minutes a bucket may be idle: a limit of zero or less still
  // lets a first call through, and an eviction inside a longer window refills
  // a bucket early.
  lemma BoundedExactlyWhen(c: Config)
    ensures Bounded(c) <==> c.limit >= 1 && c.window <= TEN_MINUTES
  {
    if c.limit < 1 {
      var one: nat := 1;
      TwiceNonPositive(c.limit);
      assert InOrder([]) && AllowedInWindows(c, [], "k", 0, one) >= 0;
    } else if c.window > TEN_MINUTES {
      UnboundedWhenEvicted(c);
    } else {
      forall es, key, lo, n: nat | InOrder(es) && n >= 1
        ensures AllowedInWindows(c, es, key, lo, n) <= (n + 1) * c.limit - 1
      {
        RateBound(c, es, key, lo, n);
      }
    }
  }

  // ... and with a limit of zero or less the first call of a key is allowed.
  lemma FirstCallIsAllowed(c: Config, key: string, now: int)
    ensures Answers(c, map[], [Allow(key, now)]) == [true]
  {
    LastCall(c, map[], key, now);
  }
}
