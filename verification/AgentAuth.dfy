// middleware.AgentAuthenticator: the nonce cache and the decision made on a
// signed request.
module AgentAuth {
  import opened Text

  // ----- the nonce cache -----

  type Entries = map<string, int>

  function CacheKey(agentID: string, nonce: string): string { agentID + ":" + nonce }

  // First use records the expiry and says true; a replay changes nothing.
  function UseStep(entries: Entries, key: string, expiry: int): Entries {
    if key in entries then entries else entries[key := expiry]
  }

  function CleanStep(entries: Entries, read: int): Entries {
    map k | k in entries && !(read > entries[k]) :: entries[k]
  }

  const TEN_MINUTES := 600_000_000_000

  class NonceCache {
    var entries: map<string, int>

    constructor ()
      ensures entries == map[]
    {
      entries := map[];
    }

    // `read` is the clock reading taken before the lock.
    method Use(agentID: string, nonce: string, read: int) returns (ok: bool)
      modifies this
      ensures ok == (CacheKey(agentID, nonce) !in old(entries))
      ensures entries == UseStep(old(entries), CacheKey(agentID, nonce), read + TEN_MINUTES)
    {
      var key := agentID + ":" + nonce;
      var expiry := read + TEN_MINUTES;
      if key in entries {
        return false;
      }
      entries := entries[key := expiry];
      return true;
    }

    method Cleanup(read: int)
      modifies this
      ensures entries == CleanStep(old(entries), read)
    {
      var todo := entries.Keys;
      ghost var before := entries;
      while todo != {}
        invariant todo <= before.Keys
        invariant forall k :: k in entries <==> k in before && (k in todo || !(read > before[k]))
        invariant forall k :: k in entries ==> entries[k] == before[k]
        decreases todo
      {
        var k :| k in todo;
        todo := todo - {k};
        if read > entries[k] {
          entries := entries - {k};
        }
      }
    }
  }

  // ----- the timestamp window, in 64-bit arithmetic -----

  const TWO_63 := 0x8000_0000_0000_0000
  const TWO_64 := 0x1_0000_0000_0000_0000

  predicate IsInt64(n: int) { -TWO_63 <= n < TWO_63 }

  function Wrap(n: int): (r: int)
    ensures IsInt64(r)
    ensures (n - r) % TWO_64 == 0
  {
    var m := n % TWO_64;
    if m < TWO_63 then m else m - TWO_64
  }

  // absInt(unix - ts) > window is false
  predicate Within(window: int, unix: int, ts: int) {
    var d := Wrap(unix - ts);
    (if d < 0 then Wrap(-d) else d) <= window
  }

  predicate InWindow(unix: int, ts: int) { Within(300, unix, ts) }

  // The check says what it should except for one timestamp per second, whose
  // distance has no positive 64-bit value.
  lemma WindowMeans(window: int, unix: int, ts: int)
    requires 0 <= window && 0 <= unix < TWO_63 - window && IsInt64(ts)
    ensures Within(window, unix, ts) <==> (-window <= unix - ts <= window || unix - ts == TWO_63)
  {
    var d := unix - ts;
    assert -TWO_63 < d < TWO_64;
    if d < TWO_63 {
      assert Wrap(d) == d;
    } else {
      assert Wrap(d) == d - TWO_64;
      assert d > TWO_63 ==> Wrap(-(d - TWO_64)) == TWO_64 - d;
    }
  }

  // The first second in which a timestamp is accepted.
  function FirstSecond(window: int, ts: int): int { if ts >= -window then ts - window else ts + TWO_63 }

  // One timestamp is accepted over at most twice the window, wrap-around
  // included.
  lemma WindowSpread(window: int, unix: int, ts: int)
    requires 0 <= window && 0 <= unix < TWO_63 - window && IsInt64(ts) && Within(window, unix, ts)
    ensures FirstSecond(window, ts) <= unix <= FirstSecond(window, ts) + 2 * window
  {
    WindowMeans(window, unix, ts);
  }

  // strconv.ParseInt(s, 10, 64)
  function ParseInt64(s: string): (r: Option<int>)
    ensures r.Some? ==> IsInt64(r.value)
  {
    var signed := s != "" && (s[0] == '-' || s[0] == '+');
    var digits := if signed then s[1..] else s;
    if !AllDigits(digits) then None
    else
      var n := if s[0] == '-' then -DecimalValue(digits) else DecimalValue(digits);
      if IsInt64(n) then Some(n) else None
  }

  // A number is decimal digits with at most one sign, within 64 bits.
  lemma ParsedAre(d: string)
    requires AllDigits(d)
    ensures ParseInt64(d) == ParseInt64("+" + d)
         == if DecimalValue(d) < 0x8000_0000_0000_0000 then Some(DecimalValue(d)) else None
    ensures ParseInt64("-" + d) == if DecimalValue(d) <= 0x8000_0000_0000_0000 then Some(-DecimalValue(d)) else None
  {
    var plus, minus := "+" + d, "-" + d;
    assert plus[1..] == d && minus[1..] == d;
    assert IsDigit(d[0]);
    DecimalIsNatural(d);
    hide DecimalValue, AllDigits;
  }

  lemma DecimalIsNatural(d: string)
    requires AllDigits(d)
    ensures DecimalValue(d) >= 0
  {
    DecimalValueOfConcat("", d);
  }

  lemma OnlyNumbersParse(s: string)
    ensures ParseInt64(s).Some? ==> AllDigits(s) || (s != "" && (s[0] == '-' || s[0] == '+') && AllDigits(s[1..]))
  {
  }

  // ----- the decision -----

  datatype Request = Request(
    httpMethod: string, agentToken: string, agentID: string, timestamp: string, nonce: string, signature: string,
    body: Option<string>)

  // What the store and DecryptAgentSecret give for an agent.
  datatype Secret = NotEnrolled | Undecryptable | Raw(key: string)

  datatype Agent = Agent(tenantID: string, secret: Secret)

  // What the authenticator is set up with.
  datatype Setup = Setup(
    isProd: bool, devToken: string, agents: map<string, Agent>,
    hexSum: string -> string, hexMac: (string, string) -> string)

  datatype Reason =
    | MissingHeaders | BadTimestamp | ShortNonce | UnreadableBody | UnknownAgent
    | NoSecret | BadSecret | BadSignature | Replayed

  datatype Verdict = PassedThrough | Verified(agentID: string, tenantID: string) | Rejected(reason: Reason)

  function Canonical(httpMethod: string, agentID: string, timestamp: string, nonce: string, bodySum: string): string {
    httpMethod + "\n" + (agentID + "\n" + (timestamp + "\n" + (nonce + "\n" + bodySum)))
  }

  // Everything before the nonce cache is asked: None means ask it.
  function Screen(su: Setup, r: Request, unix: int): Option<Verdict> {
    if !su.isProd && su.devToken == "" then Some(PassedThrough)
    else if su.devToken != "" && r.agentToken == su.devToken then Some(PassedThrough)
    else if r.agentID == "" || r.timestamp == "" || r.nonce == "" || r.signature == "" then
      Some(Rejected(MissingHeaders))
    else if ParseInt64(r.timestamp).None? || !InWindow(unix, ParseInt64(r.timestamp).value) then
      Some(Rejected(BadTimestamp))
    else if |r.nonce| < 32 then Some(Rejected(ShortNonce))
    else if r.body.None? then Some(Rejected(UnreadableBody))
    else if r.agentID !in su.agents then Some(Rejected(UnknownAgent))
    else if su.agents[r.agentID].secret.NotEnrolled? then Some(Rejected(NoSecret))
    else if su.agents[r.agentID].secret.Undecryptable? then Some(Rejected(BadSecret))
    else if r.signature != ExpectedSignature(su, r) then Some(Rejected(BadSignature))
    else None
  }

  function ExpectedSignature(su: Setup, r: Request): string
    requires r.body.Some? && r.agentID in su.agents && su.agents[r.agentID].secret.Raw?
  {
    su.hexMac(su.agents[r.agentID].secret.key, SignedText(SignedOf(su, r)))
  }

  // What an agent signs.
  datatype Signed = Signed(httpMethod: string, agentID: string, timestamp: string, nonce: string, bodySum: string)

  function SignedText(s: Signed): string { Canonical(s.httpMethod, s.agentID, s.timestamp, s.nonce, s.bodySum) }

  function SignedOf(su: Setup, r: Request): Signed
    requires r.body.Some?
  {
    Signed(r.httpMethod, r.agentID, r.timestamp, r.nonce, su.hexSum(r.body.value))
  }

  datatype Judgement = Judgement(verdict: Verdict, entries: Entries)

  // The whole decision: `unix` is the second of the window check.
  function Judge(su: Setup, entries: Entries, r: Request, unix: int, expiry: int): Judgement {
    var screened := Screen(su, r, unix);
    var key := CacheKey(r.agentID, r.nonce);
    if screened.Some? then Judgement(screened.value, entries)
    else
      Judgement(
        if key in entries then Rejected(Replayed) else Verified(r.agentID, su.agents[r.agentID].tenantID),
        UseStep(entries, key, expiry))
  }

  // ----- who is let through -----

  predicate NeedsNoSignature(su: Setup, r: Request) {
    (!su.isProd && su.devToken == "") || (su.devToken != "" && r.agentToken == su.devToken)
  }

  predicate NamesEnrolledAgent(su: Setup, r: Request) {
    r.agentID in su.agents && su.agents[r.agentID].secret.Raw?
  }

  // Signed with the secret of the agent it names.
  predicate IsSigned(su: Setup, r: Request) {
    && NamesEnrolledAgent(su, r) && r.body.Some?
    && r.signature ==
       su.hexMac(su.agents[r.agentID].secret.key,
                 r.httpMethod + "\n" + r.agentID + "\n" + r.timestamp + "\n" + r.nonce + "\n" + su.hexSum(r.body.value))
  }

  // Within five minutes either way, but for the distance that has no positive
  // 64-bit value.
  predicate IsTimely(r: Request, unix: int) {
    && ParseInt64(r.timestamp).Some?
    && var d := unix - ParseInt64(r.timestamp).value;
       -300 <= d <= 300 || d == 0x8000_0000_0000_0000
  }

  // The order in which the faults are looked for.
  function Place(reason: Reason): nat {
    match reason
    case MissingHeaders => 0
    case BadTimestamp => 1
    case ShortNonce => 2
    case UnreadableBody => 3
    case UnknownAgent => 4
    case NoSecret => 5
    case BadSecret => 6
    case BadSignature => 7
    case Replayed => 8
  }

  // What is wrong with a request, each fault by itself.
  predicate HasFault(su: Setup, entries: Entries, r: Request, unix: int, reason: Reason) {
    match reason
    case MissingHeaders => r.agentID == "" || r.timestamp == "" || r.nonce == "" || r.signature == ""
    case BadTimestamp => !IsTimely(r, unix)
    case ShortNonce => |r.nonce| <= 31
    case UnreadableBody => r.body.None?
    case UnknownAgent => r.agentID !in su.agents
    case NoSecret => r.agentID in su.agents && su.agents[r.agentID].secret.NotEnrolled?
    case BadSecret => r.agentID in su.agents && su.agents[r.agentID].secret.Undecryptable?
    case BadSignature => NamesEnrolledAgent(su, r) && r.body.Some? && !IsSigned(su, r)
    case Replayed => r.agentID + ":" + r.nonce in entries
  }

  ghost predicate FaultlessBefore(su: Setup, entries: Entries, r: Request, unix: int, place: nat) {
    forall reason :: Place(reason) < place ==> !HasFault(su, entries, r, unix, reason)
  }

  // Who a request is answered as, and which of its faults it is refused for.
  ghost predicate IsAnswer(su: Setup, entries: Entries, r: Request, unix: int, v: Verdict) {
    && (v.PassedThrough? <==> NeedsNoSignature(su, r))
    && (v.Verified? <==> !NeedsNoSignature(su, r) && FaultlessBefore(su, entries, r, unix, 9))
    && (v.Verified? ==>
          IsSigned(su, r) && v == Verified(agentID := r.agentID, tenantID := su.agents[r.agentID].tenantID))
    && (v.Rejected? ==>
          HasFault(su, entries, r, unix, v.reason) && FaultlessBefore(su, entries, r, unix, Place(v.reason)))
  }

  lemma CanonicalIsJoined(m: string, a: string, t: string, n: string, s: string)
    ensures Canonical(m, a, t, n, s) == m + "\n" + a + "\n" + t + "\n" + n + "\n" + s
  {
  }

  lemma SignedExactlyWhen(su: Setup, r: Request)
    requires NamesEnrolledAgent(su, r) && r.body.Some?
    ensures IsSigned(su, r) <==> r.signature == ExpectedSignature(su, r)
  {
    CanonicalIsJoined(r.httpMethod, r.agentID, r.timestamp, r.nonce, su.hexSum(r.body.value));
    hide Canonical;
  }

  lemma TimelyExactlyWhen(r: Request, unix: int)
    requires 0 <= unix < TWO_63 - 300
    ensures IsTimely(r, unix) <==> ParseInt64(r.timestamp).Some? && InWindow(unix, ParseInt64(r.timestamp).value)
  {
    if ParseInt64(r.timestamp).Some? {
      WindowMeans(300, unix, ParseInt64(r.timestamp).value);
    }
  }

  // A correctly signed, timely request with a long enough fresh nonce is
  // verified as the agent it names, of that agent's tenant; nothing else is, and
  // every other request is refused for its first fault.
  lemma AnswersAre(su: Setup, entries: Entries, r: Request, unix: int, expiry: int)
    requires 0 <= unix < TWO_63 - 300
    ensures IsAnswer(su, entries, r, unix, Judge(su, entries, r, unix, expiry).verdict)
  {
    TimelyExactlyWhen(r, unix);
    if NamesEnrolledAgent(su, r) && r.body.Some? {
      SignedExactlyWhen(su, r);
    }
    hide ParseInt64, InWindow, IsTimely, IsSigned, ExpectedSignature;
    var v := Judge(su, entries, r, unix, expiry).verdict;
    assert v.Rejected? ==> FaultlessBefore(su, entries, r, unix, Place(v.reason));
    assert v.Verified? ==> FaultlessBefore(su, entries, r, unix, 9);
  }

  class Authenticator {
    const setup: Setup
    const nonces: NonceCache

    constructor (setup: Setup)
      ensures this.setup == setup && fresh(nonces) && nonces.entries == map[]
    {
      this.setup := setup;
      nonces := new NonceCache();
    }

    // `checkRead` is the reading for the window, `useRead` the one for the expiry.
    method Authenticate(r: Request, checkRead: nat, useRead: nat) returns (v: Verdict)
      modifies nonces
      ensures Judgement(v, nonces.entries) ==
              Judge(setup, old(nonces.entries), r, checkRead / 1_000_000_000, useRead + TEN_MINUTES)
      // on a 64-bit clock
      ensures checkRead < 0x8000_0000_0000_0000 ==>
                IsAnswer(setup, old(nonces.entries), r, checkRead / 1_000_000_000, v)
      ensures nonces.entries ==
              if v.Verified? then old(nonces.entries)[r.agentID + ":" + r.nonce := useRead + 600_000_000_000]
              else old(nonces.entries)
    {
      if checkRead < 0x8000_0000_0000_0000 {
        AnswersAre(setup, nonces.entries, r, checkRead / 1_000_000_000, useRead + TEN_MINUTES);
      }
      hide IsAnswer;
      var screened := Screen(setup, r, checkRead / 1_000_000_000);
      if screened.Some? {
        return screened.value;
      }
      var ok := nonces.Use(r.agentID, r.nonce, useRead);
      if !ok {
        return Rejected(Replayed);
      }
      return Verified(r.agentID, setup.agents[r.agentID].tenantID);
    }
  }

  // Header values hold no line feed, so the signed text determines them all.
  lemma CanonicalBinds(
      m1: string, a1: string, t1: string, n1: string, s1: string,
      m2: string, a2: string, t2: string, n2: string, s2: string)
    requires '\n' !in m1 && '\n' !in a1 && '\n' !in t1 && '\n' !in n1
    requires '\n' !in m2 && '\n' !in a2 && '\n' !in t2 && '\n' !in n2
    requires Canonical(m1, a1, t1, n1, s1) == Canonical(m2, a2, t2, n2, s2)
    ensures m1 == m2 && a1 == a2 && t1 == t2 && n1 == n2 && s1 == s2
  {
    var n1s, n2s := n1 + "\n" + s1, n2 + "\n" + s2;
    var t1s, t2s := t1 + "\n" + n1s, t2 + "\n" + n2s;
    var a1s, a2s := a1 + "\n" + t1s, a2 + "\n" + t2s;
    assert m1 + "\n" + a1s == m2 + "\n" + a2s;
    hide *;
    HeadBeforeSeparator(m1, a1s, m2, a2s, '\n');
    HeadBeforeSeparator(a1, t1s, a2, t2s, '\n');
    HeadBeforeSeparator(t1, n1s, t2, n2s, '\n');
    HeadBeforeSeparator(n1, s1, n2, s2, '\n');
  }

  lemma TextBinds(x: Signed, y: Signed)
    requires OneLine(x) && OneLine(y) && SignedText(x) == SignedText(y)
    ensures x == y
  {
    CanonicalBinds(x.httpMethod, x.agentID, x.timestamp, x.nonce, x.bodySum,
                   y.httpMethod, y.agentID, y.timestamp, y.nonce, y.bodySum);
  }

  // net/http lets no line feed into a method or header value.
  predicate OneLine(s: Signed) {
    '\n' !in s.httpMethod && '\n' !in s.agentID && '\n' !in s.timestamp && '\n' !in s.nonce
  }

  // A signature that verifies for some text was made for a message of `signed`.
  ghost predicate Unforged(su: Setup, r: Request, signed: set<Signed>) {
    forall text :: r.agentID in su.agents && su.agents[r.agentID].secret.Raw?
                   && r.signature == su.hexMac(su.agents[r.agentID].secret.key, text) ==>
      exists s :: s in signed && SignedText(s) == text
  }

  // What the screening buys: if nothing but these messages was ever signed, a
  // request that gets as far as the nonce cache is, in every field and in its
  // body's hash, one of them.
  lemma ScreenedIsSigned(su: Setup, r: Request, unix: int, signed: set<Signed>)
    requires Screen(su, r, unix) == None && Unforged(su, r, signed)
    requires OneLine(SignedOf(su, r)) && forall s :: s in signed ==> OneLine(s)
    ensures SignedOf(su, r) in signed
  {
    var s :| s in signed && SignedText(s) == SignedText(SignedOf(su, r));
    TextBinds(s, SignedOf(su, r));
  }
}
