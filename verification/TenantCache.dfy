// middleware.TenantIsolation: tenant lifecycle state read through a cache whose
// entries live for 30 seconds. Times are whole nanoseconds.
module TenantCache {
  import opened Text

  const TTL: nat := 30_000_000_000

  // ----- the class, each call taken as one step -----

  type Store = map<string, string>

  // What GetState says: "active" for a tenant the store does not know.
  function Lookup(store: Store, tenant: string): string {
    if tenant in store then store[tenant] else "active"
  }

  datatype Entry = Entry(state: string, expiresAt: int)

  type Cache = map<string, Entry>

  predicate IsHit(cache: Cache, tenant: string, now: int) {
    tenant in cache && now < cache[tenant].expiresAt
  }

  function StateSeen(cache: Cache, store: Store, tenant: string, now: int): string {
    if IsHit(cache, tenant, now) then cache[tenant].state else Lookup(store, tenant)
  }

  function CacheAfter(cache: Cache, store: Store, tenant: string, now: int): Cache {
    if IsHit(cache, tenant, now) then cache else cache[tenant := Entry(Lookup(store, tenant), now + TTL)]
  }

  // A state read and cached at one moment is gone by for exactly 30 seconds.
  lemma CachedFor30Seconds(cache: Cache, store: Store, later: Store, tenant: string, at: int, now: int)
    requires !IsHit(cache, tenant, at)
    ensures var filled := CacheAfter(cache, store, tenant, at);
            StateSeen(filled, later, tenant, now) ==
            if now < at + 30_000_000_000 then Lookup(store, tenant) else Lookup(later, tenant)
  {
  }

  datatype Decision = Next | Suspended | Disabled

  function Decide(state: string): Decision {
    if state == "suspended" then Suspended else if state == "disabled" then Disabled else Next
  }

  class TenantIsolation {
    var cache: map<string, Entry>

    constructor ()
      ensures cache == map[]
    {
      cache := map[];
    }

    method InvalidateCache(tenant: string)
      modifies this
      ensures cache == old(cache) - {tenant}
    {
      cache := cache - {tenant};
    }

    method CachedState(store: Store, tenant: string, now: int) returns (state: string)
      modifies this
      ensures state == StateSeen(old(cache), store, tenant, now)
      ensures cache == CacheAfter(old(cache), store, tenant, now)
    {
      if tenant in cache {
        var cs := cache[tenant];
        if now < cs.expiresAt {
          return cs.state;
        }
      }
      state := Lookup(store, tenant);
      cache := cache[tenant := Entry(state, now + TTL)];
    }

    // Requests without a tenant claim pass.
    method Enforce(store: Store, claim: Option<string>, now: int) returns (d: Decision)
      modifies this
      ensures claim.None? || claim.value == "" ==> d == Next && cache == old(cache)
      ensures claim.Some? && claim.value != "" ==>
                (d == Suspended <==> StateSeen(old(cache), store, claim.value, now) == "suspended") &&
                (d == Disabled <==> StateSeen(old(cache), store, claim.value, now) == "disabled") &&
                cache == CacheAfter(old(cache), store, claim.value, now)
      // a tenant the store does not know passes
      ensures claim.Some? && claim.value !in store && claim.value !in old(cache) ==> d == Next
      ensures claim.Some? && claim.value != "" && claim.value in store && claim.value !in old(cache) ==>
                cache == old(cache)[claim.value := Entry(store[claim.value], now + 30_000_000_000)]
    {
      if claim.None? || claim.value == "" {
        return Next;
      }
      var state := CachedState(store, claim.value, now);
      return Decide(state);
    }
  }

  // ----- runs of whole calls -----

  datatype CallEvent = SetState(tenant: string, state: string) | Invalidate(tenant: string) | Check(tenant: string, now: int)

  datatype World = World(store: Store, cache: Cache)

  function CallStep(w: World, e: CallEvent): World {
    match e
    case SetState(tenant, state) => w.(store := w.store[tenant := state])
    case Invalidate(tenant) => w.(cache := w.cache - {tenant})
    case Check(tenant, now) => w.(cache := CacheAfter(w.cache, w.store, tenant, now))
  }

  function CallsAfter(w: World, es: seq<CallEvent>): World
    decreases |es|
  {
    if es == [] then w else CallsAfter(CallStep(w, es[0]), es[1..])
  }

  // Nothing is cached for the tenant but what the store says.
  predicate Coherent(w: World, tenant: string) {
    tenant in w.cache ==> w.cache[tenant].state == Lookup(w.store, tenant)
  }

  lemma {:induction false} CoherenceIsKept(w: World, es: seq<CallEvent>, tenant: string)
    requires Coherent(w, tenant) && forall e :: e in es && e.SetState? ==> e.tenant != tenant
    ensures Coherent(CallsAfter(w, es), tenant)
    ensures Lookup(CallsAfter(w, es).store, tenant) == Lookup(w.store, tenant)
    decreases |es|
  {
    if es != [] {
      assert es[0] in es && forall e :: e in es[1..] ==> e in es;
      CoherenceIsKept(CallStep(w, es[0]), es[1..], tenant);
    }
  }

  // After a change of state followed by the invalidation, every check sees the
  // new state until it changes again, whatever other calls come between and
  // whatever the clock says.
  lemma FreshAfterInvalidate(w: World, tenant: string, state: string, between: seq<CallEvent>, es: seq<CallEvent>, now: int)
    requires forall e :: e in between + es && e.SetState? ==> e.tenant != tenant
    ensures var w1 := CallsAfter(CallStep(w, SetState(tenant, state)), between);
            var w2 := CallsAfter(CallStep(w1, Invalidate(tenant)), es);
            StateSeen(w2.cache, w2.store, tenant, now) == state
  {
    assert forall e :: e in between ==> e in between + es;
    assert forall e :: e in es ==> e in between + es;
    var w0 := CallStep(w, SetState(tenant, state));
    StoreIsKept(w0, between, tenant);
    var w1 := CallsAfter(w0, between);
    CoherenceIsKept(CallStep(w1, Invalidate(tenant)), es, tenant);
  }

  lemma {:induction false} StoreIsKept(w: World, es: seq<CallEvent>, tenant: string)
    requires forall e :: e in es && e.SetState? ==> e.tenant != tenant
    ensures Lookup(CallsAfter(w, es).store, tenant) == Lookup(w.store, tenant)
    decreases |es|
  {
    if es != [] {
      assert es[0] in es && forall e :: e in es[1..] ==> e in es;
      StoreIsKept(CallStep(w, es[0]), es[1..], tenant);
    }
  }

  // ----- interleaved steps of the calls -----

  // The store's content since `at`.
  datatype Snapshot = Snapshot(at: nat, store: Store)

  // A cache entry together with the moment its state was read (not kept by the
  // program; here to say what is proved).
  datatype Cached = Cached(state: string, expiresAt: int, readAt: nat)

  // Where a call of cachedState has got to.
  datatype Thread =
    | Loaded(tenant: string, found: Option<Cached>)
    | MustRead(tenant: string)
    | HasRead(tenant: string, state: string, readAt: nat)
    | Stamped(tenant: string, state: string, readAt: nat, expiresAt: int)

  // A state that Enforce went by, and when.
  datatype Act = Act(tenant: string, state: string, at: nat)

  datatype Timed = Timed(
    now: nat, log: seq<Snapshot>, cache: map<string, Cached>, threads: map<nat, Thread>, acts: seq<Act>)

  datatype Action =
    | Tick(nanos: nat)
    | Set(setTenant: string, state: string)
    | Drop(dropTenant: string)          // InvalidateCache
    | Load(id: nat, tenant: string)     // cache.Load
    | Compare(id: nat)                  // time.Now().Before(expiresAt)
    | Read(id: nat)                     // GetState
    | Stamp(id: nat)                    // time.Now().Add(TTL)
    | Fill(id: nat)                     // cache.Store, and return

  function Current(s: Timed): Store
    requires s.log != []
  {
    s.log[|s.log| - 1].store
  }

  // At most `delay` passes between a fill's read and its store.
  predicate Enabled(s: Timed, a: Action, delay: nat) {
    s.log != [] &&
    match a
    case Tick(_) | Set(_, _) | Drop(_) => true
    case Load(id, _) => id !in s.threads
    case Compare(id) => id in s.threads && s.threads[id].Loaded?
    case Read(id) => id in s.threads && s.threads[id].MustRead?
    case Stamp(id) => id in s.threads && s.threads[id].HasRead?
    case Fill(id) => id in s.threads && s.threads[id].Stamped? && s.now <= s.threads[id].readAt + delay
  }

  function Apply(s: Timed, a: Action, delay: nat): Timed
    requires Enabled(s, a, delay)
  {
    match a
    case Tick(nanos) => s.(now := s.now + nanos)
    case Set(tenant, state) => s.(log := s.log + [Snapshot(s.now, Current(s)[tenant := state])])
    case Drop(tenant) => s.(cache := s.cache - {tenant})
    case Load(id, tenant) =>
      s.(threads := s.threads[id := Loaded(tenant, if tenant in s.cache then Some(s.cache[tenant]) else None)])
    case Compare(id) =>
      var Loaded(tenant, found) := s.threads[id];
      if found.Some? && s.now < found.value.expiresAt then
        s.(threads := s.threads - {id}, acts := s.acts + [Act(tenant, found.value.state, s.now)])
      else
        s.(threads := s.threads[id := MustRead(tenant)])
    case Read(id) =>
      var t := s.threads[id].tenant;
      s.(threads := s.threads[id := HasRead(t, Lookup(Current(s), t), s.now)])
    case Stamp(id) =>
      var HasRead(tenant, state, readAt) := s.threads[id];
      s.(threads := s.threads[id := Stamped(tenant, state, readAt, s.now + TTL)])
    case Fill(id) =>
      var Stamped(tenant, state, readAt, expiresAt) := s.threads[id];
      s.(threads := s.threads - {id},
         cache := s.cache[tenant := Cached(state, expiresAt, readAt)],
         acts := s.acts + [Act(tenant, state, s.now)])
  }

  function Begin(store: Store): Timed { Timed(0, [Snapshot(0, store)], map[], map[], []) }

  predicate IsRun(s: Timed, actions: seq<Action>, delay: nat)
    decreases |actions|
  {
    actions == [] || (Enabled(s, actions[0], delay) && IsRun(Apply(s, actions[0], delay), actions[1..], delay))
  }

  function After(s: Timed, actions: seq<Action>, delay: nat): Timed
    requires IsRun(s, actions, delay)
    decreases |actions|
  {
    if actions == [] then s else After(Apply(s, actions[0], delay), actions[1..], delay)
  }

  // The store said `state` for the tenant at the moment `u`: in the snapshot
  // that began by then and was not replaced before.
  predicate Holds(s: Timed, k: int, tenant: string, state: string, u: nat) {
    && 0 <= k < |s.log| && s.log[k].at <= u <= s.now
    && (k + 1 < |s.log| ==> u <= s.log[k + 1].at)
    && Lookup(s.log[k].store, tenant) == state
  }

  ghost predicate WasState(s: Timed, tenant: string, state: string, u: nat) {
    exists k :: Holds(s, k, tenant, state, u)
  }

  // ----- the invariant -----

  ghost predicate EntryOk(s: Timed, tenant: string, c: Cached, delay: nat) {
    WasState(s, tenant, c.state, c.readAt) && c.expiresAt <= c.readAt + delay + TTL
  }

  ghost predicate ThreadOk(s: Timed, t: Thread, delay: nat) {
    match t
    case Loaded(tenant, found) => found.Some? ==> EntryOk(s, tenant, found.value, delay)
    case MustRead(_) => true
    case HasRead(tenant, state, readAt) => WasState(s, tenant, state, readAt)
    case Stamped(tenant, state, readAt, expiresAt) => WasState(s, tenant, state, readAt) && expiresAt <= s.now + TTL
  }

  // The state acted on was the store's at a moment less than the lifetime and
  // the fill's delay before.
  ghost predicate ActOk(s: Timed, a: Act, delay: nat) {
    exists u: nat :: WasState(s, a.tenant, a.state, u) && u <= a.at < u + TTL + delay
  }

  ghost predicate Inv(s: Timed, delay: nat) {
    && s.log != [] && s.log[|s.log| - 1].at <= s.now
    && (forall t :: t in s.cache ==> EntryOk(s, t, s.cache[t], delay))
    && (forall id :: id in s.threads ==> ThreadOk(s, s.threads[id], delay))
    && (forall a :: a in s.acts ==> ActOk(s, a, delay))
  }

  // What was the store's state stays so.
  ghost predicate Extends(s: Timed, s': Timed) {
    s.now <= s'.now && forall tenant, state, u :: WasState(s, tenant, state, u) ==> WasState(s', tenant, state, u)
  }

  lemma StepExtends(s: Timed, a: Action, delay: nat)
    requires Inv(s, delay) && Enabled(s, a, delay)
    ensures Extends(s, Apply(s, a, delay))
  {
    var s' := Apply(s, a, delay);
    forall tenant, state, u | WasState(s, tenant, state, u)
      ensures WasState(s', tenant, state, u)
    {
      var k :| Holds(s, k, tenant, state, u);
      assert s'.log[k] == s.log[k];
      assert Holds(s', k, tenant, state, u);
    }
  }

  lemma PartsStayOk(s: Timed, s': Timed, delay: nat)
    requires Inv(s, delay) && Extends(s, s')
    ensures forall t :: t in s.cache ==> EntryOk(s', t, s.cache[t], delay)
    ensures forall id :: id in s.threads ==> ThreadOk(s', s.threads[id], delay)
    ensures forall a :: a in s.acts ==> ActOk(s', a, delay)
  {
    hide WasState;
    forall t | t in s.cache
      ensures EntryOk(s', t, s.cache[t], delay)
    {
      assert EntryOk(s, t, s.cache[t], delay);
    }
    forall id | id in s.threads
      ensures ThreadOk(s', s.threads[id], delay)
    {
      assert ThreadOk(s, s.threads[id], delay);
    }
    forall a | a in s.acts
      ensures ActOk(s', a, delay)
    {
      assert ActOk(s, a, delay);
      var u: nat :| WasState(s, a.tenant, a.state, u) && u <= a.at < u + TTL + delay;
      assert WasState(s', a.tenant, a.state, u);
    }
  }

  lemma ReadIsCurrent(s: Timed, tenant: string)
    requires s.log != [] && s.log[|s.log| - 1].at <= s.now
    ensures WasState(s, tenant, Lookup(Current(s), tenant), s.now)
  {
    assert Holds(s, |s.log| - 1, tenant, Lookup(Current(s), tenant), s.now);
  }

  lemma CompareKeepsInv(s: Timed, id: nat, delay: nat)
    requires Inv(s, delay) && Enabled(s, Compare(id), delay)
    ensures Inv(Apply(s, Compare(id), delay), delay)
  {
    var s' := Apply(s, Compare(id), delay);
    StepExtends(s, Compare(id), delay);
    PartsStayOk(s, s', delay);
    hide WasState, Extends;
    var Loaded(tenant, found) := s.threads[id];
    if found.Some? && s.now < found.value.expiresAt {
      assert ThreadOk(s', s.threads[id], delay) && ThreadOk(s, s.threads[id], delay);
      ReadBefore(s, tenant, found.value.state, found.value.readAt);
      assert ActOk(s', Act(tenant, found.value.state, s.now), delay);
    }
  }

  lemma FillKeepsInv(s: Timed, id: nat, delay: nat)
    requires Inv(s, delay) && Enabled(s, Fill(id), delay)
    ensures Inv(Apply(s, Fill(id), delay), delay)
  {
    var s' := Apply(s, Fill(id), delay);
    StepExtends(s, Fill(id), delay);
    PartsStayOk(s, s', delay);
    hide WasState, Extends;
    var Stamped(tenant, state, readAt, expiresAt) := s.threads[id];
    assert ThreadOk(s', s.threads[id], delay) && ThreadOk(s, s.threads[id], delay);
    ReadBefore(s, tenant, state, readAt);
    assert ActOk(s', Act(tenant, state, s.now), delay);
    assert EntryOk(s', tenant, Cached(state, expiresAt, readAt), delay);
  }

  lemma ThreadStepsKeepInv(s: Timed, a: Action, delay: nat)
    requires Inv(s, delay) && Enabled(s, a, delay) && (a.Load? || a.Read? || a.Stamp?)
    ensures Inv(Apply(s, a, delay), delay)
  {
    var s' := Apply(s, a, delay);
    StepExtends(s, a, delay);
    PartsStayOk(s, s', delay);
    if a.Read? {
      ReadIsCurrent(s', s.threads[a.id].tenant);
    }
    hide WasState, Extends, Lookup, EntryOk, ActOk;
  }

  lemma StoreStepsKeepInv(s: Timed, a: Action, delay: nat)
    requires Inv(s, delay) && Enabled(s, a, delay) && (a.Tick? || a.Set? || a.Drop?)
    ensures Inv(Apply(s, a, delay), delay)
  {
    StepExtends(s, a, delay);
    PartsStayOk(s, Apply(s, a, delay), delay);
    hide WasState, Extends, Lookup, EntryOk, ActOk, ThreadOk;
  }

  lemma StepKeepsInv(s: Timed, a: Action, delay: nat)
    requires Inv(s, delay) && Enabled(s, a, delay)
    ensures Inv(Apply(s, a, delay), delay)
  {
    hide Inv, Apply;
    match a {
      case Compare(id) => CompareKeepsInv(s, id, delay);
      case Fill(id) => FillKeepsInv(s, id, delay);
      case Load(_, _) | Read(_) | Stamp(_) => ThreadStepsKeepInv(s, a, delay);
      case _ => StoreStepsKeepInv(s, a, delay);
    }
  }

  lemma ReadBefore(s: Timed, tenant: string, state: string, u: nat)
    requires WasState(s, tenant, state, u)
    ensures u <= s.now
  {
  }

  lemma {:induction false} RunKeepsInv(s: Timed, actions: seq<Action>, delay: nat)
    requires Inv(s, delay) && IsRun(s, actions, delay)
    ensures Inv(After(s, actions, delay), delay)
    decreases |actions|
  {
    if actions != [] {
      StepKeepsInv(s, actions[0], delay);
      hide Inv, Enabled, Apply;
      RunKeepsInv(Apply(s, actions[0], delay), actions[1..], delay);
    }
  }

  // Whatever the interleaving of calls, store updates, invalidations and the
  // clock: every state Enforce goes by was the store's at a moment less than
  // 30 seconds and the fill's delay ago.
  lemma BoundedStaleness(store: Store, actions: seq<Action>, delay: nat, a: Act)
    requires IsRun(Begin(store), actions, delay) && a in After(Begin(store), actions, delay).acts
    ensures exists u: nat ::
              WasState(After(Begin(store), actions, delay), a.tenant, a.state, u) && u <= a.at < u + 30_000_000_000 + delay
  {
    assert Inv(Begin(store), delay);
    RunKeepsInv(Begin(store), actions, delay);
    hide WasState, IsRun, After;
    assert ActOk(After(Begin(store), actions, delay), a, delay);
  }

  // ----- what interleaving costs -----

  lemma OneStep(s: Timed, a: Action, rest: seq<Action>, delay: nat)
    requires Enabled(s, a, delay)
    ensures IsRun(s, [a] + rest, delay) <==> IsRun(Apply(s, a, delay), rest, delay)
    ensures IsRun(s, [a] + rest, delay) ==> After(s, [a] + rest, delay) == After(Apply(s, a, delay), rest, delay)
  {
    assert ([a] + rest)[1..] == rest;
  }

  // A fill that read before a change and stores after the invalidation puts
  // the old state back.
  function LateFill(tenant: string, state: string): seq<Action> {
    [Load(0, tenant)] + ([Compare(0)] + ([Read(0)] + ([Set(tenant, state)] + ([Drop(tenant)] +
    ([Stamp(0)] + ([Fill(0)] + []))))))
  }

  lemma LateFillRestoresOldState(store: Store, tenant: string, state: string)
    ensures IsRun(Begin(store), LateFill(tenant, state), 0)
    ensures var s := After(Begin(store), LateFill(tenant, state), 0);
            && s.log != [] && Lookup(Current(s), tenant) == state
            && s.cache == map[tenant := Cached(Lookup(store, tenant), TTL, 0)]
            && s.acts == [Act(tenant, Lookup(store, tenant), 0)]
  {
    var s0 := Begin(store);
    var s1 := Apply(s0, Load(0, tenant), 0);
    var s2 := Apply(s1, Compare(0), 0);
    var s3 := Apply(s2, Read(0), 0);
    var s4 := Apply(s3, Set(tenant, state), 0);
    var s5 := Apply(s4, Drop(tenant), 0);
    var s6 := Apply(s5, Stamp(0), 0);
    var s7 := Apply(s6, Fill(0), 0);
    assert IsRun(s7, [], 0) && After(s7, [], 0) == s7;
    assert Lookup(Current(s7), tenant) == state && s7.acts == [] + [Act(tenant, Lookup(store, tenant), 0)];
    hide Apply, Enabled, IsRun, After;
    OneStep(s6, Fill(0), [], 0);
    var r6 := [Fill(0)] + [];
    OneStep(s5, Stamp(0), r6, 0);
    OneStep(s4, Drop(tenant), [Stamp(0)] + r6, 0);
    OneStep(s3, Set(tenant, state), [Drop(tenant)] + ([Stamp(0)] + r6), 0);
    var r3 := [Set(tenant, state)] + ([Drop(tenant)] + ([Stamp(0)] + r6));
    OneStep(s2, Read(0), r3, 0);
    OneStep(s1, Compare(0), [Read(0)] + r3, 0);
    OneStep(s0, Load(0, tenant), [Compare(0)] + ([Read(0)] + r3), 0);
  }

  // ----- exactly when every later check is fresh -----

  predicate IsCurrent(s: Timed, tenant: string, state: string)
    requires s.log != []
  {
    state == Lookup(Current(s), tenant)
  }

  // A cached state that is no longer the store's is harmless once expired, a
  // read one once its fill comes too late.
  predicate HarmlessEntry(s: Timed, tenant: string, c: Cached)
    requires s.log != []
  {
    IsCurrent(s, tenant, c.state) || c.expiresAt <= s.now
  }

  predicate HarmlessThread(s: Timed, t: Thread, delay: nat)
    requires s.log != []
  {
    match t
    case Loaded(tenant, found) => found.Some? ==> HarmlessEntry(s, tenant, found.value)
    case MustRead(_) => true
    case HasRead(tenant, state, readAt) => IsCurrent(s, tenant, state) || s.now > readAt + delay
    case Stamped(tenant, state, readAt, _) => IsCurrent(s, tenant, state) || s.now > readAt + delay
  }

  predicate Settled(s: Timed, tenant: string, delay: nat)
    requires s.log != []
  {
    && (tenant in s.cache ==> HarmlessEntry(s, tenant, s.cache[tenant]))
    && forall id :: id in s.threads && s.threads[id].tenant == tenant ==> HarmlessThread(s, s.threads[id], delay)
  }

  // Every act for the tenant between `s` and the later `s'` goes by what the
  // store says in `s`.
  predicate FreshActs(s: Timed, s': Timed, tenant: string)
    requires s.log != []
  {
    && s.acts <= s'.acts
    && forall k :: |s.acts| <= k < |s'.acts| && s'.acts[k].tenant == tenant ==> IsCurrent(s, tenant, s'.acts[k].state)
  }

  predicate LeavesState(a: Action, tenant: string) { a.Set? ==> a.setTenant != tenant }

  // Whatever happens after `s`, until the tenant's state is set again.
  ghost predicate FreshFrom(s: Timed, tenant: string, delay: nat)
    requires s.log != []
  {
    forall actions :: IsRun(s, actions, delay) && (forall a :: a in actions ==> LeavesState(a, tenant)) ==>
      FreshActs(s, After(s, actions, delay), tenant)
  }

  lemma StepStaysSettled(s: Timed, a: Action, tenant: string, delay: nat)
    requires s.log != [] && Enabled(s, a, delay) && LeavesState(a, tenant) && Settled(s, tenant, delay)
    ensures var s' := Apply(s, a, delay);
            && s'.log != [] && Lookup(Current(s'), tenant) == Lookup(Current(s), tenant)
            && Settled(s', tenant, delay) && FreshActs(s, s', tenant)
  {
    var s' := Apply(s, a, delay);
    assert Lookup(Current(s'), tenant) == Lookup(Current(s), tenant);
    hide Lookup;
    if a.Compare? || a.Read? || a.Stamp? || a.Fill? {
      assert s.threads[a.id].tenant == tenant ==> HarmlessThread(s, s.threads[a.id], delay);
    }
    forall id | id in s'.threads && s'.threads[id].tenant == tenant
      ensures HarmlessThread(s', s'.threads[id], delay)
    {
      if id in s.threads && s'.threads[id] == s.threads[id] {
        assert HarmlessThread(s, s.threads[id], delay);
      }
    }
  }

  lemma {:induction false} SettledRunIsFresh(s: Timed, actions: seq<Action>, tenant: string, delay: nat)
    requires s.log != [] && IsRun(s, actions, delay) && Settled(s, tenant, delay)
    requires forall a :: a in actions ==> LeavesState(a, tenant)
    ensures FreshActs(s, After(s, actions, delay), tenant)
    decreases |actions|
  {
    if actions != [] {
      assert actions[0] in actions && forall a :: a in actions[1..] ==> a in actions;
      StepStaysSettled(s, actions[0], tenant, delay);
      hide Settled, Lookup, Enabled, Apply, LeavesState;
      SettledRunIsFresh(Apply(s, actions[0], delay), actions[1..], tenant, delay);
    }
  }

  lemma UnusedID(threads: map<nat, Thread>) returns (id: nat)
    ensures id !in threads
  {
    var ids := threads.Keys;
    id := 0;
    while ids != {}
      invariant forall i :: i in threads && i !in ids ==> i < id
      decreases ids
    {
      var i :| i in ids;
      ids := ids - {i};
      id := if i < id then id else i + 1;
    }
  }

  // What is left to do to act on an old state that is still held.
  function ActOn(id: nat, t: Thread): seq<Action> {
    match t
    case HasRead(_, _, _) => [Stamp(id)] + ([Fill(id)] + [])
    case Stamped(_, _, _, _) => [Fill(id)] + []
    case _ => [Compare(id)] + []
  }

  lemma HarmfulThreadActs(s: Timed, id: nat, tenant: string, delay: nat)
    requires s.log != [] && id in s.threads && s.threads[id].tenant == tenant
    requires !HarmlessThread(s, s.threads[id], delay)
    ensures !FreshFrom(s, tenant, delay)
  {
    var t := s.threads[id];
    var actions := ActOn(id, t);
    assert forall a :: a in actions ==> LeavesState(a, tenant);
    var s' := s;
    if t.HasRead? {
      var s1 := Apply(s, Stamp(id), delay);
      s' := Apply(s1, Fill(id), delay);
      assert IsRun(s', [], delay) && After(s', [], delay) == s';
      OneStep(s1, Fill(id), [], delay);
      OneStep(s, Stamp(id), [Fill(id)] + [], delay);
    } else if t.Stamped? {
      s' := Apply(s, Fill(id), delay);
      assert IsRun(s', [], delay) && After(s', [], delay) == s';
      OneStep(s, Fill(id), [], delay);
    } else if t.Loaded? {
      s' := Apply(s, Compare(id), delay);
      assert IsRun(s', [], delay) && After(s', [], delay) == s';
      OneStep(s, Compare(id), [], delay);
    }
    assert s'.acts[|s.acts|].tenant == tenant && !IsCurrent(s, tenant, s'.acts[|s.acts|].state);
    assert !FreshActs(s, After(s, actions, delay), tenant);
  }

  lemma HarmfulEntryActs(s: Timed, tenant: string, delay: nat)
    requires s.log != [] && tenant in s.cache && !HarmlessEntry(s, tenant, s.cache[tenant])
    ensures !FreshFrom(s, tenant, delay)
  {
    var id := UnusedID(s.threads);
    var s1 := Apply(s, Load(id, tenant), delay);
    var s2 := Apply(s1, Compare(id), delay);
    var actions := [Load(id, tenant)] + ([Compare(id)] + []);
    assert IsRun(s2, [], delay) && After(s2, [], delay) == s2;
    OneStep(s1, Compare(id), [], delay);
    OneStep(s, Load(id, tenant), [Compare(id)] + [], delay);
    assert s2.acts[|s.acts|] == Act(tenant, s.cache[tenant].state, s.now);
    assert forall a :: a in actions ==> LeavesState(a, tenant);
    assert !FreshActs(s, After(s, actions, delay), tenant);
  }

  // From any state on, right after an invalidation or at any other moment:
  // every later check of the tenant sees its current state until that is set
  // again, exactly when neither the cache nor a call under way still holds an
  // old state that can be gone by.
  lemma FreshFromExactlyWhen(s: Timed, tenant: string, delay: nat)
    requires s.log != []
    ensures FreshFrom(s, tenant, delay) <==> Settled(s, tenant, delay)
  {
    if Settled(s, tenant, delay) {
      forall actions | IsRun(s, actions, delay) && forall a :: a in actions ==> LeavesState(a, tenant)
        ensures FreshActs(s, After(s, actions, delay), tenant)
      {
        SettledRunIsFresh(s, actions, tenant, delay);
      }
    } else if tenant in s.cache && !HarmlessEntry(s, tenant, s.cache[tenant]) {
      HarmfulEntryActs(s, tenant, delay);
    } else {
      var id :| id in s.threads && s.threads[id].tenant == tenant && !HarmlessThread(s, s.threads[id], delay);
      HarmfulThreadActs(s, id, tenant, delay);
    }
  }

  // The bound cannot be improved: a fill that reads just before a change and
  // takes all of its delay is still gone by in its entry's last nanosecond.
  function SlowFillThen(tenant: string, state: string, delay: nat, rest: seq<Action>): seq<Action> {
    [Load(0, tenant)] + ([Compare(0)] + ([Read(0)] + ([Set(tenant, state)] + ([Tick(delay)] +
    ([Stamp(0)] + ([Fill(0)] + rest))))))
  }

  function LastHit(tenant: string): seq<Action> {
    [Tick(TTL - 1)] + ([Load(1, tenant)] + ([Compare(1)] + []))
  }

  function Filled(store: Store, tenant: string, state: string, delay: nat): Timed {
    var was := Lookup(store, tenant);
    Timed(delay, [Snapshot(0, store), Snapshot(0, store[tenant := state])],
          map[tenant := Cached(was, delay + TTL, 0)], map[], [Act(tenant, was, delay)])
  }

  lemma SlowFillRuns(store: Store, tenant: string, state: string, delay: nat, rest: seq<Action>)
    requires IsRun(Filled(store, tenant, state, delay), rest, delay)
    ensures IsRun(Begin(store), SlowFillThen(tenant, state, delay, rest), delay)
    ensures After(Begin(store), SlowFillThen(tenant, state, delay, rest), delay)
         == After(Filled(store, tenant, state, delay), rest, delay)
  {
    var s0 := Begin(store);
    var s1 := Apply(s0, Load(0, tenant), delay);
    var s2 := Apply(s1, Compare(0), delay);
    var s3 := Apply(s2, Read(0), delay);
    var s4 := Apply(s3, Set(tenant, state), delay);
    var s5 := Apply(s4, Tick(delay), delay);
    var s6 := Apply(s5, Stamp(0), delay);
    var s7 := Apply(s6, Fill(0), delay);
    assert s7.threads == map[] && s7 == Filled(store, tenant, state, delay);
    hide *;
    OneStep(s6, Fill(0), rest, delay);
    OneStep(s5, Stamp(0), [Fill(0)] + rest, delay);
    var r5 := [Stamp(0)] + ([Fill(0)] + rest);
    OneStep(s4, Tick(delay), r5, delay);
    OneStep(s3, Set(tenant, state), [Tick(delay)] + r5, delay);
    var r3 := [Set(tenant, state)] + ([Tick(delay)] + r5);
    OneStep(s2, Read(0), r3, delay);
    OneStep(s1, Compare(0), [Read(0)] + r3, delay);
    OneStep(s0, Load(0, tenant), [Compare(0)] + ([Read(0)] + r3), delay);
    SlowFillShape(tenant, state, delay, rest);
  }

  lemma SlowFillShape(tenant: string, state: string, delay: nat, rest: seq<Action>)
    ensures SlowFillThen(tenant, state, delay, rest) ==
            [Load(0, tenant)] + ([Compare(0)] + ([Read(0)] + ([Set(tenant, state)] + ([Tick(delay)] +
            ([Stamp(0)] + ([Fill(0)] + rest))))))
  {
  }

  lemma LastHitRuns(s: Timed, tenant: string, delay: nat) returns (s': Timed)
    requires s.log != [] && s.threads == map[] && tenant in s.cache && s.cache[tenant].expiresAt == s.now + TTL
    ensures IsRun(s, LastHit(tenant), delay) && After(s, LastHit(tenant), delay) == s'
    ensures s'.log == s.log && s'.acts == s.acts + [Act(tenant, s.cache[tenant].state, s.now + TTL - 1)]
  {
    var s1 := Apply(s, Tick(TTL - 1), delay);
    var s2 := Apply(s1, Load(1, tenant), delay);
    s' := Apply(s2, Compare(1), delay);
    assert IsRun(s', [], delay) && After(s', [], delay) == s';
    hide Apply, Enabled;
    OneStep(s2, Compare(1), [], delay);
    OneStep(s1, Load(1, tenant), [Compare(1)] + [], delay);
    OneStep(s, Tick(TTL - 1), [Load(1, tenant)] + ([Compare(1)] + []), delay);
  }

  lemma StalenessIsReached(store: Store, tenant: string, state: string, delay: nat)
    requires state != Lookup(store, tenant)
    ensures var run := SlowFillThen(tenant, state, delay, LastHit(tenant));
            && IsRun(Begin(store), run, delay)
            && Act(tenant, Lookup(store, tenant), TTL + delay - 1) in After(Begin(store), run, delay).acts
            && forall u :: WasState(After(Begin(store), run, delay), tenant, Lookup(store, tenant), u) ==> u == 0
  {
    var s := Filled(store, tenant, state, delay);
    var s' := LastHitRuns(s, tenant, delay);
    SlowFillRuns(store, tenant, state, delay, LastHit(tenant));
    hide IsRun, After, SlowFillThen, LastHit;
    assert s'.acts[1] == Act(tenant, Lookup(store, tenant), TTL + delay - 1);
    assert Lookup(s'.log[1].store, tenant) == state && s'.log[1].at == 0;
  }
}
