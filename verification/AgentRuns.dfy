// Whole runs of the agent authenticator: what its verdicts amount to when
// requests and cleanups come in any order.
module AgentRuns {
  import opened Text
  import opened AgentAuth
  import Replay

  // A request or a cleanup, in the order in which they get the lock of the
  // nonce cache, each with the clock readings it took before. Units and limits
  // are those of `p`; its window is the code's five minutes.
  datatype Call =
    | Ask(r: Request, checkRead: nat, useRead: nat, at: nat)
    | Clean(read: nat, at: nat)

  predicate IsTimedCall(p: Replay.Params, from: nat, c: Call)
    requires p.grain > 0
  {
    && from <= c.at && Replay.OnClock(p, c.at)
    && (c.Ask? ==> c.checkRead <= c.useRead <= c.at <= c.checkRead + p.delay)
    && (c.Clean? ==> c.read <= c.at)
  }

  predicate IsTimed(p: Replay.Params, from: nat, calls: seq<Call>)
    requires p.grain > 0
    decreases |calls|
  {
    calls == [] || (IsTimedCall(p, from, calls[0]) && IsTimed(p, calls[0].at, calls[1..]))
  }

  function JudgeAsk(su: Setup, p: Replay.Params, entries: Entries, c: Call): Judgement
    requires p.grain > 0 && c.Ask?
  {
    Judge(su, entries, c.r, c.checkRead / p.grain, c.useRead + p.lifetime)
  }

  function EntriesAfter(su: Setup, p: Replay.Params, entries: Entries, c: Call): Entries
    requires p.grain > 0
  {
    if c.Ask? then JudgeAsk(su, p, entries, c).entries else CleanStep(entries, c.read)
  }

  function VerifiedBy(su: Setup, p: Replay.Params, entries: Entries, c: Call): seq<Signed>
    requires p.grain > 0
  {
    if c.Ask? && JudgeAsk(su, p, entries, c).verdict.Verified? then [SignedOf(su, c.r)] else []
  }

  // The messages whose requests are verified, in order.
  function VerifiedIn(su: Setup, p: Replay.Params, entries: Entries, calls: seq<Call>): seq<Signed>
    requires p.grain > 0
    decreases |calls|
  {
    if calls == [] then []
    else VerifiedBy(su, p, entries, calls[0]) + VerifiedIn(su, p, EntriesAfter(su, p, entries, calls[0]), calls[1..])
  }

  predicate NoneTwice(ms: seq<Signed>) { forall i, j :: 0 <= i < j < |ms| ==> ms[i] != ms[j] }

  // ----- each call is a step of the timed protocol -----

  function MessageOf(s: Signed): Replay.Message {
    var ts := ParseInt64(s.timestamp);
    Replay.Message(s.agentID, s.nonce, if ts.Some? then ts.value else 0, SignedText(s))
  }

  function Messages(ms: seq<Signed>): (r: seq<Replay.Message>)
    ensures |r| == |ms| && forall i :: 0 <= i < |ms| ==> r[i] == MessageOf(ms[i])
  {
    seq(|ms|, i requires 0 <= i < |ms| => MessageOf(ms[i]))
  }

  // Nothing is under way: the protocol between two calls.
  function Idle(now: nat, entries: Entries, ms: seq<Signed>): Replay.State {
    Replay.State(now, entries, map[], map[], Messages(ms))
  }

  lemma TimePasses(p: Replay.Params, s: Replay.State, at: nat)
    requires p.grain > 0 && Replay.Inv(p, s) && s.now <= at && Replay.OnClock(p, at)
    ensures Replay.Inv(p, s.(now := at))
  {
    var s' := s.(now := at);
    forall m | m in s'.accepted
      ensures Replay.Guarded(p, s', m)
    {
      assert Replay.Guarded(p, s, m);
    }
    forall id | id in s'.pending
      ensures Replay.PendingOk(p, s', s'.pending[id])
    {
      assert Replay.PendingOk(p, s, s.pending[id]);
    }
  }

  lemma MessagesAppend(ms: seq<Signed>, s: Signed)
    ensures Messages(ms + [s]) == Messages(ms) + [MessageOf(s)]
  {
  }

  // What passing the screen comes to for the nonce cache.
  lemma AskCases(su: Setup, p: Replay.Params, entries: Entries, c: Call)
    requires p.grain > 0 && c.Ask?
    ensures var asked, key := Screen(su, c.r, c.checkRead / p.grain) == None, CacheKey(c.r.agentID, c.r.nonce);
            && (asked ==> c.r.body.Some? && ParseInt64(c.r.timestamp).Some?)
            && (asked ==> InWindow(c.checkRead / p.grain, ParseInt64(c.r.timestamp).value))
            && EntriesAfter(su, p, entries, c) == (if asked then UseStep(entries, key, c.useRead + p.lifetime) else entries)
            && VerifiedBy(su, p, entries, c) == (if asked && key !in entries then [SignedOf(su, c.r)] else [])
  {
    hide ParseInt64, InWindow, CacheKey, ExpectedSignature;
  }

  // A request that gets as far as the nonce cache uses it as the protocol's
  // request does that was checked and stamped at its readings.
  lemma AskIsUse(su: Setup, p: Replay.Params, now: nat, entries: Entries, ms: seq<Signed>, c: Call)
    requires p.grain > 0 && p.window == 300 && p.lifetime >= Replay.LongEnough(p)
    requires Replay.Inv(p, Idle(now, entries, ms)) && IsTimedCall(p, now, c)
    requires c.Ask? && Screen(su, c.r, c.checkRead / p.grain) == None
    ensures var q := Replay.Pending(MessageOf(SignedOf(su, c.r)), c.checkRead, Some(c.useRead + p.lifetime));
            var s := Idle(now, entries, ms).(now := c.at, pending := map[0 := q]);
            Replay.Enabled(p, s, Replay.Use(0)) &&
            Replay.Next(p, s, Replay.Use(0)) == Idle(c.at, EntriesAfter(su, p, entries, c), ms + VerifiedBy(su, p, entries, c))
    ensures Replay.Inv(p, Idle(c.at, EntriesAfter(su, p, entries, c), ms + VerifiedBy(su, p, entries, c)))
  {
    AskCases(su, p, entries, c);
    var next, more := EntriesAfter(su, p, entries, c), VerifiedBy(su, p, entries, c);
    var signed := SignedOf(su, c.r);
    var q := Replay.Pending(MessageOf(signed), c.checkRead, Some(c.useRead + p.lifetime));
    var s := Idle(now, entries, ms).(now := c.at);
    TimePasses(p, Idle(now, entries, ms), c.at);
    Replay.EarlierIsOnClock(p, c.checkRead, c.at);
    hide Screen, ParseInt64, Within, SignedText, EntriesAfter, VerifiedBy;
    assert Replay.PendingOk(p, s, q);
    PendingArrives(p, s, q);
    var s1 := s.(pending := map[0 := q]);
    Replay.UseKeepsInv(p, s1, 0);
    MessagesAppend(ms, signed);
    assert ms + [] == ms && s1.pending - {0} == map[];
    assert Replay.Next(p, s1, Replay.Use(0)) == Idle(c.at, next, ms + more);
  }

  lemma PendingArrives(p: Replay.Params, s: Replay.State, q: Replay.Pending)
    requires p.grain > 0 && Replay.Inv(p, s) && s.pending == map[] && Replay.PendingOk(p, s, q)
    ensures Replay.Inv(p, s.(pending := map[0 := q]))
  {
    hide Replay.Fresh, Replay.EarliestExpiry;
    var s1 := s.(pending := map[0 := q]);
    assert forall x :: x in s1.accepted ==> Replay.Guarded(p, s, x) && Replay.Guarded(p, s1, x);
  }

  lemma CleanIsCleanRun(p: Replay.Params, s: Replay.State, read: nat)
    requires p.grain > 0 && Replay.Inv(p, s) && s.cleaning == map[] && read <= s.now
    ensures Replay.Inv(p, s.(entries := CleanStep(s.entries, read)))
  {
    hide Replay.Fresh, Replay.EarliestExpiry;
    var s1 := s.(cleaning := map[0 := read]);
    assert forall x :: x in s1.accepted ==> Replay.Guarded(p, s, x) && Replay.Guarded(p, s1, x);
    assert forall id :: id in s1.pending ==> Replay.PendingOk(p, s, s1.pending[id]);
    Replay.CleanKeepsInv(p, s1, 0);
    assert s1.cleaning - {0} == map[];
  }

  lemma CallKeepsInv(su: Setup, p: Replay.Params, now: nat, entries: Entries, ms: seq<Signed>, c: Call)
    requires p.grain > 0 && p.window == 300 && p.lifetime >= Replay.LongEnough(p)
    requires Replay.Inv(p, Idle(now, entries, ms)) && IsTimedCall(p, now, c)
    ensures Replay.Inv(p, Idle(c.at, EntriesAfter(su, p, entries, c), ms + VerifiedBy(su, p, entries, c)))
  {
    hide Screen, Replay.Inv, JudgeAsk;
    if c.Ask? && Screen(su, c.r, c.checkRead / p.grain) == None {
      AskIsUse(su, p, now, entries, ms, c);
    } else {
      TimePasses(p, Idle(now, entries, ms), c.at);
      if c.Ask? {
        AskCases(su, p, entries, c);
      } else {
        CleanIsCleanRun(p, Idle(c.at, entries, ms), c.read);
      }
      hide CleanStep;
      assert ms + [] == ms;
    }
  }

  lemma DistinctMessages(p: Replay.Params, now: nat, entries: Entries, ms: seq<Signed>)
    requires p.grain > 0 && Replay.Inv(p, Idle(now, entries, ms))
    ensures NoneTwice(ms)
  {
    forall i, j | 0 <= i < j < |ms|
      ensures ms[i] != ms[j]
    {
      assert Messages(ms)[i] != Messages(ms)[j];
    }
  }

  lemma {:induction false} RunKeepsInv(
      su: Setup, p: Replay.Params, now: nat, entries: Entries, ms: seq<Signed>, calls: seq<Call>)
    requires p.grain > 0 && p.window == 300 && p.lifetime >= Replay.LongEnough(p)
    requires Replay.Inv(p, Idle(now, entries, ms)) && IsTimed(p, now, calls)
    ensures NoneTwice(ms + VerifiedIn(su, p, entries, calls))
    decreases |calls|
  {
    hide Replay.Inv, Replay.OnClock, JudgeAsk, EntriesAfter, VerifiedBy, Idle;
    if calls == [] {
      DistinctMessages(p, now, entries, ms);
      assert ms + [] == ms;
    } else {
      var c, rest := calls[0], calls[1..];
      CallKeepsInv(su, p, now, entries, ms, c);
      var more, next := VerifiedBy(su, p, entries, c), EntriesAfter(su, p, entries, c);
      RunKeepsInv(su, p, c.at, next, ms + more, rest);
      assert ms + VerifiedIn(su, p, entries, calls) == ms + more + VerifiedIn(su, p, next, rest);
    }
  }

  // ----- the result -----

  ghost predicate VerifiesOnce(su: Setup, p: Replay.Params)
    requires p.grain > 0
  {
    forall calls :: IsTimed(p, 0, calls) ==> NoneTwice(VerifiedIn(su, p, map[], calls))
  }

  // The same request at second 0 and, after a cleanup, at second 600.
  lemma TwoAsks(su: Setup, p: Replay.Params, r: Request)
    requires p.grain > 0 && p.window == 300 && p.lifetime < Replay.LongEnough(p) && Replay.ClockLasts(p)
    requires Screen(su, r, 0) == None && Screen(su, r, 600) == None
    ensures !VerifiesOnce(su, p)
  {
    var last := Replay.LastTick(p);
    Replay.LastTickIsInWindow(p);
    Replay.EarlierIsOnClock(p, 0, last + p.delay);
    assert 0 / p.grain == 0;
    var c0, c1, c2 := Ask(r, 0, 0, 0), Clean(last + p.delay, last + p.delay), Ask(r, last, last, last + p.delay);
    var key := CacheKey(r.agentID, r.nonce);
    var e1 := map[key := p.lifetime];
    AskCases(su, p, map[], c0);
    AskCases(su, p, map[], c2);
    assert EntriesAfter(su, p, e1, c1) == map[];
    assert IsTimedCall(p, 0, c0) && IsTimedCall(p, 0, c1) && IsTimedCall(p, last + p.delay, c2);
    hide *;
    ThreeCalls(su, p, c0, c1, c2, SignedOf(su, r), e1);
  }

  lemma ThreeCalls(su: Setup, p: Replay.Params, c0: Call, c1: Call, c2: Call, s: Signed, e1: Entries)
    requires p.grain > 0 && IsTimedCall(p, 0, c0) && IsTimedCall(p, c0.at, c1) && IsTimedCall(p, c1.at, c2)
    requires EntriesAfter(su, p, map[], c0) == e1 && EntriesAfter(su, p, e1, c1) == map[] && c1.Clean?
    requires VerifiedBy(su, p, map[], c0) == [s] && VerifiedBy(su, p, map[], c2) == [s]
    ensures !VerifiesOnce(su, p)
  {
    hide JudgeAsk, EntriesAfter, IsTimedCall;
    var calls := [c0, c1, c2];
    assert [c2][1..] == [] && IsTimed(p, c1.at, [c2]);
    assert [c1, c2][1..] == [c2] && IsTimed(p, c0.at, [c1, c2]);
    assert calls[1..] == [c1, c2] && IsTimed(p, 0, calls);
    assert VerifiedBy(su, p, e1, c1) == [];
    hide VerifiedBy;
    var v2 := VerifiedIn(su, p, map[], [c2]);
    assert VerifiedIn(su, p, EntriesAfter(su, p, map[], c2), []) == [];
    assert v2 == [s] + [];
    var v1 := VerifiedIn(su, p, e1, [c1, c2]);
    assert v1 == [] + v2;
    assert VerifiedIn(su, p, map[], calls) == [s] + v1 == [s, s];
    assert [s, s][0] == [s, s][1];
  }

  // No message is verified twice, however requests and cleanups interleave,
  // exactly when the lifetime is long enough for the timed protocol. The other
  // direction needs some correctly signed request to repeat, `r`.
  lemma VerifiesOnceExactlyWhen(su: Setup, p: Replay.Params, r: Request)
    requires p.grain > 0 && p.window == 300 && Replay.ClockLasts(p)
    requires Screen(su, r, 0) == None && Screen(su, r, 600) == None
    ensures VerifiesOnce(su, p) <==> Replay.ReplaySafe(p)
  {
    Replay.ReplaySafeExactlyWhen(p);
    if Replay.ReplaySafe(p) {
      forall calls | IsTimed(p, 0, calls)
        ensures NoneTwice(VerifiedIn(su, p, map[], calls))
      {
        EachVerifiedOnce(su, p, calls);
      }
    } else {
      TwoAsks(su, p, r);
    }
  }

  // Such a request exists: an enrolled agent's with the timestamp in between.
  const SETUP := Setup(true, "", map["agent" := Agent("tenant", Raw("key"))], s => s, (k, s) => k + s)

  const REQUEST := Request("POST", "", "agent", "300", seq(32, _ => '0'), SIGNATURE, Some(""))

  const SIGNATURE := "key" + Canonical("POST", "agent", "300", seq(32, _ => '0'), "")

  lemma RepeatableRequest(unix: int)
    requires 0 <= unix <= 600
    ensures Screen(SETUP, REQUEST, unix) == None
  {
    DigitsOf300();
    WindowMeans(300, unix, 300);
    hide Canonical, Within, DecimalValue, Wrap;
  }

  // So the code as it is, on its nanosecond clock, verifies some message twice.
  lemma CodeVerifiesTwice(delay: nat)
    requires delay < TWO_63 - 2000
    ensures !VerifiesOnce(SETUP, Replay.Params(300, TEN_MINUTES, 1_000_000_000, delay))
  {
    var p := Replay.Params(300, TEN_MINUTES, 1_000_000_000, delay);
    Replay.TenMinutesIsTheBoundary(delay);
    RepeatableRequest(0);
    RepeatableRequest(600);
    hide Screen, Replay.ReplaySafe, VerifiesOnce, SETUP, REQUEST;
    VerifiesOnceExactlyWhen(SETUP, p, REQUEST);
  }

  lemma DigitsOf300()
    ensures ParseInt64("300") == Some(300)
  {
    assert "300"[..2] == "30" && "30"[..1] == "3" && "3"[..0] == "";
    assert DecimalValue("3") == 3 && DecimalValue("30") == 30 && DecimalValue("300") == 300;
    assert AllDigits("300") && "300"[0] == '3';
  }

  lemma EachVerifiedOnce(su: Setup, p: Replay.Params, calls: seq<Call>)
    requires p.grain > 0 && p.window == 300 && p.lifetime >= Replay.LongEnough(p) && Replay.ClockLasts(p)
    requires IsTimed(p, 0, calls)
    ensures NoneTwice(VerifiedIn(su, p, map[], calls))
  {
    Replay.EarlierIsOnClock(p, 0, Replay.LastTick(p) + p.delay);
    assert Replay.Inv(p, Idle(0, map[], []));
    RunKeepsInv(su, p, 0, map[], [], calls);
    assert [] + VerifiedIn(su, p, map[], calls) == VerifiedIn(su, p, map[], calls);
  }

  ghost predicate OnlySigned(su: Setup, calls: seq<Call>, signed: set<Signed>) {
    && (forall s :: s in signed ==> OneLine(s))
    && forall c :: c in calls && c.Ask? && c.r.body.Some? ==> OneLine(SignedOf(su, c.r)) && Unforged(su, c.r, signed)
  }

  lemma {:induction false} AllVerifiedAreSigned(
      su: Setup, p: Replay.Params, entries: Entries, calls: seq<Call>, signed: set<Signed>)
    requires p.grain > 0 && OnlySigned(su, calls, signed)
    ensures forall s :: s in VerifiedIn(su, p, entries, calls) ==> s in signed
    decreases |calls|
  {
    if calls != [] {
      var c := calls[0];
      assert c in calls && forall x :: x in calls[1..] ==> x in calls;
      if c.Ask? && JudgeAsk(su, p, entries, c).verdict.Verified? {
        ScreenedIsSigned(su, c.r, c.checkRead / p.grain, signed);
      }
      AllVerifiedAreSigned(su, p, EntriesAfter(su, p, entries, c), calls[1..], signed);
    }
  }

  lemma {:induction false} DistinctFit(ms: seq<Signed>, signed: set<Signed>)
    requires NoneTwice(ms) && forall s :: s in ms ==> s in signed
    ensures |ms| <= |signed|
    decreases |ms|
  {
    if ms != [] {
      assert ms[0] in ms;
      DistinctFit(ms[1..], signed - {ms[0]});
    }
  }

  // If nothing but the messages of `signed` was ever signed, every verified
  // request is one of them and each of them is verified at most once.
  lemma VerifiedAreSignedOnce(su: Setup, p: Replay.Params, calls: seq<Call>, signed: set<Signed>)
    requires p.grain > 0 && p.window == 300 && Replay.ClockLasts(p) && Replay.ReplaySafe(p)
    requires IsTimed(p, 0, calls) && OnlySigned(su, calls, signed)
    ensures var ms := VerifiedIn(su, p, map[], calls);
            NoneTwice(ms) && (forall s :: s in ms ==> s in signed) && |ms| <= |signed|
  {
    Replay.ReplaySafeExactlyWhen(p);
    EachVerifiedOnce(su, p, calls);
    AllVerifiedAreSigned(su, p, map[], calls, signed);
    DistinctFit(VerifiedIn(su, p, map[], calls), signed);
  }
}
