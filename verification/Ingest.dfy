// handlers.IngestHandler: the Alertmanager, Grafana and Zabbix webhooks, saving
// to the event store and calling correlation.
module Ingest {
  import opened Text
  import opened EventIds
  import opened EventStore

  // What the correlation service is asked to do.
  datatype Call = ProcessEvent(e: Event) | ProcessResolved(e: Event)

  datatype Rejection = NoAlerts | TooManyAlerts | ZabbixTest | FieldsMissing | NotStored

  const MAX_ALERTS := 1000

  // strings.EqualFold(strings.TrimSpace(s), "resolved")
  predicate SaysResolved(s: string) { ToLower(TrimSpace(s)) == "resolved" }

  function StatusOf(s: string): string { if SaysResolved(s) then "resolved" else "firing" }

  // ----- messages -----

  datatype AmAlert = AmAlert(status: string, fingerprint: string)

  datatype GfAlert = GfAlert(
    status: string, alertname: string, ruleUID: string, orgID: Option<int>, fingerprint: string)

  datatype ZbxPayload = ZbxPayload(
    eventID: string, eventValue: string, eventStatus: string, updateStatus: string, triggerID: string, host: string)

  // One alert of one webhook, with the clock readings used for it.
  datatype Message =
    | Am(tenant: string, am: AmAlert, nanos: nat)
    | Gf(tenant: string, gf: GfAlert, nanos: nat, index: nat)
    | Zbx(tenant: string, zbx: ZbxPayload)

  predicate IsGrafanaTest(a: GfAlert) { a.alertname == "TestAlert" && TrimSpace(a.ruleUID) == "" }

  function KeyOf(m: Message): AlertKey {
    match m
    case Am(tenant, a, nanos) =>
      if TrimSpace(a.fingerprint) != "" then Alertmanager(tenant, TrimSpace(a.fingerprint)) else AlertmanagerClock(nanos)
    case Gf(tenant, a, nanos, index) =>
      if IsGrafanaTest(a) then GrafanaTest(tenant, nanos + index)
      else if TrimSpace(a.fingerprint) != "" then
        Grafana(tenant, if a.orgID.Some? then a.orgID.value else 0, TrimSpace(a.fingerprint))
      else GrafanaClock(tenant, nanos + index)
    case Zbx(tenant, p) => Zabbix(tenant, TrimSpace(p.eventID))
  }

  predicate UnexpandedMacro(v: string) {
    var t := TrimSpace(v);
    t == "" || (t[0] == '{' && t[|t| - 1] == '}')
  }

  datatype ZbxKind = Problem | Recovery | Update

  function ZbxKindOf(p: ZbxPayload): ZbxKind {
    if TrimSpace(p.updateStatus) == "1" then Update
    else if TrimSpace(p.eventValue) == "0" || SaysResolved(p.eventStatus) then Recovery
    else Problem
  }

  // The event a message is turned into, before it is saved.
  function EventOf(m: Message): Event {
    match m
    case Am(tenant, a, nanos) => Event(EventID(KeyOf(m)), tenant, "prometheus", a.fingerprint, StatusOf(a.status))
    case Gf(tenant, a, nanos, index) =>
      if IsGrafanaTest(a) then
        Event(EventID(KeyOf(m)), tenant, "grafana",
              "grafana-test:" + tenant + ":" + Decimal(nanos + index), "firing")
      else Event(EventID(KeyOf(m)), tenant, "grafana", TrimSpace(a.fingerprint), StatusOf(a.status))
    case Zbx(tenant, p) =>
      Event(EventID(KeyOf(m)), tenant, "zabbix",
            "zbx:" + TrimSpace(p.triggerID) + ":" + TrimSpace(p.host),
            if ZbxKindOf(p) == Recovery then "resolved" else "firing")
  }

  // ----- what the three tools are promised -----

  // "resolved" in any case, with or without blanks around it
  predicate SpellsResolved(s: string) {
    var t := TrimSpace(s);
    |t| == 8 && forall i :: 0 <= i < 8 ==> t[i] == "resolved"[i] || t[i] == "RESOLVED"[i]
  }

  lemma ResolvedInAnyCase(s: string)
    ensures SaysResolved(s) <==> SpellsResolved(s)
    ensures StatusOf(s) == if SpellsResolved(s) then "resolved" else "firing"
  {
    var t, low := TrimSpace(s), "resolved";
    LettersOfResolved();
    assert low[0] == 'r' && |ToLower(t)| == |t|;
    if SpellsResolved(s) {
      forall i | 0 <= i < 8
        ensures ToLower(t)[i] == low[i]
      {
        assert LowerChar(low[i]) == low[i] && LowerChar("RESOLVED"[i]) == low[i];
      }
      assert ToLower(t) == low;
    }
    if ToLower(t) == low {
      forall i | 0 <= i < 8
        ensures t[i] == low[i] || t[i] == "RESOLVED"[i]
      {
        assert LowerChar(t[i]) == ToLower(t)[i] == low[i];
      }
    }
  }

  lemma LettersOfResolved()
    ensures forall i, c :: 0 <= i < 8 ==> (LowerChar(c) == "resolved"[i] <==> c == "resolved"[i] || c == "RESOLVED"[i])
  {
  }

  function AmEvent(tenant: string, a: AmAlert, nanos: nat, status: string): Event {
    var fp := TrimSpace(a.fingerprint);
    Event(
      id := if fp == "" then "prom-" + Decimal(nanos) else "am-" + tenant + "-" + fp,
      tenantID := tenant, source := "prometheus", fingerprint := a.fingerprint, alertStatus := status)
  }

  function GfEvent(tenant: string, a: GfAlert, nanos: nat, status: string): Event {
    var fp := TrimSpace(a.fingerprint);
    var org := if a.orgID.None? then "0" else FormatInt(a.orgID.value);
    Event(
      id := if fp == "" then "gf-" + tenant + "-" + Decimal(nanos) else "gf-" + tenant + "-" + org + "-" + fp,
      tenantID := tenant, source := "grafana", fingerprint := fp, alertStatus := status)
  }

  function GfTestEvent(tenant: string, nanos: nat, status: string): Event {
    Event(
      id := "gf-" + tenant + "-test-" + Decimal(nanos),
      tenantID := tenant, source := "grafana", fingerprint := "grafana-test:" + tenant + ":" + Decimal(nanos),
      alertStatus := status)
  }

  function ZbxEvent(tenant: string, p: ZbxPayload, status: string): Event {
    Event(
      id := "zbx-" + tenant + "-" + TrimSpace(p.eventID),
      tenantID := tenant, source := "zabbix",
      fingerprint := "zbx:" + TrimSpace(p.triggerID) + ":" + TrimSpace(p.host), alertStatus := status)
  }

  lemma AmEventIs(tenant: string, a: AmAlert, nanos: nat)
    ensures EventOf(Am(tenant, a, nanos)) ==
            AmEvent(tenant, a, nanos, if SpellsResolved(a.status) then "resolved" else "firing")
  {
    hide TrimSpace, SaysResolved, SpellsResolved, StatusOf, Decimal;
    ResolvedInAnyCase(a.status);
    Joined3("am-", tenant, TrimSpace(a.fingerprint));
  }

  lemma GfIDIs(tenant: string, a: GfAlert, nanos: nat, index: nat)
    requires !IsGrafanaTest(a)
    ensures EventID(KeyOf(Gf(tenant, a, nanos, index))) == GfEvent(tenant, a, nanos + index, "").id
  {
    var org := if a.orgID.Some? then a.orgID.value else 0;
    assert FormatInt(0) == Decimal(0) == "0";
    hide TrimSpace, Decimal, FormatInt, IsGrafanaTest;
    if TrimSpace(a.fingerprint) == "" {
      Joined3("gf-", tenant, Decimal(nanos + index));
    } else {
      Joined4("gf-", tenant, FormatInt(org), TrimSpace(a.fingerprint));
    }
  }

  lemma GfEventIs(tenant: string, a: GfAlert, nanos: nat, index: nat)
    requires !IsGrafanaTest(a)
    ensures EventOf(Gf(tenant, a, nanos, index)) ==
            GfEvent(tenant, a, nanos + index, if SpellsResolved(a.status) then "resolved" else "firing")
  {
    hide TrimSpace, SaysResolved, SpellsResolved, StatusOf, Decimal, FormatInt, IsGrafanaTest, KeyOf, EventID;
    ResolvedInAnyCase(a.status);
    GfIDIs(tenant, a, nanos, index);
  }

  lemma GfTestEventIs(tenant: string, a: GfAlert, nanos: nat, index: nat)
    requires IsGrafanaTest(a)
    ensures EventOf(Gf(tenant, a, nanos, index)) == GfTestEvent(tenant, nanos + index, "firing")
  {
    var digits := Decimal(nanos + index);
    hide Decimal, IsGrafanaTest;
    JoinedTest(tenant, digits);
  }

  lemma ZbxEventIs(tenant: string, p: ZbxPayload)
    ensures EventOf(Zbx(tenant, p)) == ZbxEvent(tenant, p, if ZbxKindOf(p) == Recovery then "resolved" else "firing")
  {
    hide TrimSpace, ZbxKindOf;
    Joined3("zbx-", tenant, TrimSpace(p.eventID));
  }

  lemma JoinedTest(tenant: string, digits: string)
    ensures "gf-" + (tenant + "-" + "test" + "-" + digits) == "gf-" + tenant + "-test-" + digits
  {
    var l, r := "gf-" + (tenant + "-" + "test" + "-" + digits), "gf-" + tenant + "-test-" + digits;
    assert "-" + "test" + "-" == "-test-";
    assert tenant + "-" + "test" + "-" == tenant + "-test-" by {
      assert tenant + "-" + "test" + "-" == tenant + ("-" + "test" + "-");
    }
    assert l == "gf-" + (tenant + "-test-" + digits) == r;
  }

  lemma Joined3(kind: string, tenant: string, rest: string)
    ensures kind + (tenant + "-" + rest) == kind + tenant + "-" + rest
  {
  }

  lemma Joined4(kind: string, tenant: string, middle: string, rest: string)
    ensures kind + (tenant + "-" + middle + "-" + rest) == kind + tenant + "-" + middle + "-" + rest
  {
  }

  // ----- saves and calls -----

  predicate IsTest(m: Message) { m.Gf? && IsGrafanaTest(m.gf) }

  // Whether the first and, for a Grafana test, the second save succeeded.
  datatype Saves = Saves(first: bool, second: bool)

  // The rows one message writes, in order.
  function Saved(m: Message, s: Saves): seq<Event> {
    if !s.first then []
    else if IsTest(m) && s.second then [EventOf(m), EventOf(m).(alertStatus := "resolved")]
    else [EventOf(m)]
  }

  function Calls(m: Message, s: Saves): seq<Call> {
    var e := EventOf(m);
    if !s.first then []
    else if IsTest(m) then
      [ProcessEvent(e)] + (if s.second then [ProcessResolved(e.(alertStatus := "resolved"))] else [])
    else if e.alertStatus == "resolved" then [ProcessResolved(e)]
    else [ProcessEvent(e)]
  }

  function AllSaved(ms: seq<Message>, ss: seq<Saves>): seq<Event>
    requires |ms| == |ss|
  {
    if ms == [] then [] else Saved(ms[0], ss[0]) + AllSaved(ms[1..], ss[1..])
  }

  function AllCalls(ms: seq<Message>, ss: seq<Saves>): seq<Call>
    requires |ms| == |ss|
  {
    if ms == [] then [] else Calls(ms[0], ss[0]) + AllCalls(ms[1..], ss[1..])
  }

  function CountSaved(ss: seq<Saves>): nat {
    if ss == [] then 0 else (if ss[0].first then 1 else 0) + CountSaved(ss[1..])
  }

  // One message more, looked at from the front.
  lemma OneMoreTail<T>(xs: seq<T>, x: T)
    requires xs != []
    ensures (xs + [x])[0] == xs[0] && (xs + [x])[1..] == xs[1..] + [x]
  {
  }

  lemma {:induction false} OneMoreSaved(ms: seq<Message>, ss: seq<Saves>, m: Message, s: Saves)
    requires |ms| == |ss|
    ensures AllSaved(ms + [m], ss + [s]) == AllSaved(ms, ss) + Saved(m, s)
    decreases |ms|
  {
    hide Saved;
    if ms == [] {
      assert [m][1..] == [] && [s][1..] == [] && ms + [m] == [m] && ss + [s] == [s];
      assert AllSaved([m], [s]) == Saved(m, s) + [];
    } else {
      OneMoreTail(ms, m);
      OneMoreTail(ss, s);
      OneMoreSaved(ms[1..], ss[1..], m, s);
    }
  }

  lemma {:induction false} OneMoreCall(ms: seq<Message>, ss: seq<Saves>, m: Message, s: Saves)
    requires |ms| == |ss|
    ensures AllCalls(ms + [m], ss + [s]) == AllCalls(ms, ss) + Calls(m, s)
    decreases |ms|
  {
    hide Calls;
    if ms == [] {
      assert [m][1..] == [] && [s][1..] == [] && ms + [m] == [m] && ss + [s] == [s];
      assert AllCalls([m], [s]) == Calls(m, s) + [];
    } else {
      OneMoreTail(ms, m);
      OneMoreTail(ss, s);
      OneMoreCall(ms[1..], ss[1..], m, s);
    }
  }

  lemma {:induction false} OneMoreCounted(ss: seq<Saves>, s: Saves)
    ensures CountSaved(ss + [s]) == CountSaved(ss) + if s.first then 1 else 0
    decreases |ss|
  {
    if ss == [] {
      assert ss + [s] == [s] && [s][1..] == [];
    } else {
      OneMoreTail(ss, s);
      OneMoreCounted(ss[1..], s);
    }
  }

  // How far a run has got: rows and calls it began with, and those it is at.
  ghost predicate HasRun(
    rows: Rows, calls: seq<Call>, rows': Rows, calls': seq<Call>, count: nat, ms: seq<Message>, ss: seq<Saves>)
  {
    && |ms| == |ss| && count == CountSaved(ss)
    && rows' == SaveAll(rows, AllSaved(ms, ss)) && calls' == calls + AllCalls(ms, ss)
  }

  lemma RunsOneMore(
      rows: Rows, calls: seq<Call>, rows': Rows, calls': seq<Call>, count: nat, ms: seq<Message>, ss: seq<Saves>, i: nat)
    requires i < |ms| == |ss| && HasRun(rows, calls, rows', calls', count, ms[..i], ss[..i])
    ensures HasRun(rows, calls, SaveAll(rows', Saved(ms[i], ss[i])), calls' + Calls(ms[i], ss[i]),
                   count + (if ss[i].first then 1 else 0), ms[..i + 1], ss[..i + 1])
  {
    hide SaveAll, AllSaved, AllCalls, CountSaved, Saved, Calls;
    assert ms[..i + 1] == ms[..i] + [ms[i]] && ss[..i + 1] == ss[..i] + [ss[i]];
    OneMoreSaved(ms[..i], ss[..i], ms[i], ss[i]);
    OneMoreCall(ms[..i], ss[..i], ms[i], ss[i]);
    OneMoreCounted(ss[..i], ss[i]);
    SaveAllAppend(rows, AllSaved(ms[..i], ss[..i]), Saved(ms[i], ss[i]));
  }

  lemma RunIsDone(
      rows: Rows, calls: seq<Call>, rows': Rows, calls': seq<Call>, count: nat, ms: seq<Message>, ss: seq<Saves>)
    requires |ms| == |ss| && HasRun(rows, calls, rows', calls', count, ms[..|ms|], ss[..|ms|])
    ensures count == CountSaved(ss) && rows' == SaveAll(rows, AllSaved(ms, ss)) && calls' == calls + AllCalls(ms, ss)
  {
    hide SaveAll, AllSaved, AllCalls, CountSaved;
    assert ms[..|ms|] == ms && ss[..|ms|] == ss;
  }

  // The event a saved message was last saved as.
  function Left(m: Message, s: Saves): Event {
    if IsTest(m) && s.second then EventOf(m).(alertStatus := "resolved") else EventOf(m)
  }

  lemma OneMessageSaved(rows: Rows, m: Message, s: Saves)
    ensures SaveAll(rows, Saved(m, s)) == if s.first then SaveRow(rows, Left(m, s)) else rows
  {
    var e := EventOf(m);
    hide EventOf, IsTest, SaveRow;
    OneOrTwoSaved(rows, e, e.(alertStatus := "resolved"));
    SavedTwice(rows, e, "resolved");
  }

  lemma OneOrTwoSaved(rows: Rows, e: Event, r: Event)
    ensures SaveAll(rows, []) == rows
    ensures SaveAll(rows, [e]) == SaveRow(rows, e)
    ensures SaveAll(rows, [e, r]) == SaveRow(SaveRow(rows, e), r)
  {
    hide SaveRow;
    assert [e, r][1..] == [r] && [r][1..] == [] && [e][1..] == [];
    assert SaveAll(rows, [e, r]) == SaveAll(SaveRow(rows, e), [r]) == SaveAll(SaveRow(SaveRow(rows, e), r), []);
  }

  // ----- the webhooks -----

  function AmMessages(tenant: string, alerts: seq<AmAlert>, clocks: seq<nat>): (ms: seq<Message>)
    requires |clocks| == |alerts|
    ensures |ms| == |alerts|
  {
    seq(|alerts|, i requires 0 <= i < |alerts| => Am(tenant, alerts[i], clocks[i]))
  }

  function GfMessages(tenant: string, alerts: seq<GfAlert>, now: nat): (ms: seq<Message>)
    ensures |ms| == |alerts|
  {
    seq(|alerts|, i requires 0 <= i < |alerts| => Gf(tenant, alerts[i], now, i))
  }

  predicate Fits(n: nat) { 0 < n <= MAX_ALERTS }

  datatype Verdict = Accepted(kind: ZbxKind) | Refused(reason: Rejection)

  // What zabbixToEvent makes of a payload.
  function ZbxVerdict(p: ZbxPayload): Verdict {
    if UnexpandedMacro(p.eventID) then Refused(ZabbixTest)
    else if UnexpandedMacro(p.triggerID) || UnexpandedMacro(p.host) then Refused(FieldsMissing)
    else Accepted(ZbxKindOf(p))
  }

  // Empty, or a macro that Zabbix left as it stands: text in braces.
  predicate LeftBlank(v: string) {
    var t := TrimSpace(v);
    |t| == 0 || (t[0] == '{' && t[|t| - 1] == '}')
  }

  // A test button's message is told apart by its event ID; an update comes
  // before anything else, and what does not say it is over is a problem.
  lemma VerdictIs(p: ZbxPayload)
    ensures LeftBlank(p.eventID) ==> ZbxVerdict(p) == Refused(ZabbixTest)
    ensures !LeftBlank(p.eventID) && (LeftBlank(p.triggerID) || LeftBlank(p.host)) ==>
              ZbxVerdict(p) == Refused(FieldsMissing)
    ensures !LeftBlank(p.eventID) && !LeftBlank(p.triggerID) && !LeftBlank(p.host) ==>
              ZbxVerdict(p) == Accepted(
                if TrimSpace(p.updateStatus) == "1" then Update
                else if TrimSpace(p.eventValue) == "0" || SpellsResolved(p.eventStatus) then Recovery
                else Problem)
  {
    ResolvedInAnyCase(p.eventStatus);
    hide TrimSpace, SaysResolved, SpellsResolved;
  }

  // What correlation is told of a Zabbix message that was saved.
  lemma ZbxCallsAre(tenant: string, p: ZbxPayload)
    ensures Calls(Zbx(tenant, p), Saves(true, false)) ==
            if ZbxKindOf(p) == Recovery then [ProcessResolved(ZbxEvent(tenant, p, "resolved"))]
            else [ProcessEvent(ZbxEvent(tenant, p, "firing"))]
  {
    ZbxEventIs(tenant, p);
    hide EventOf, ZbxKindOf, TrimSpace;
  }

  // One call of a webhook: its tenant and payload, with the clock readings
  // taken and the saves that succeeded.
  datatype Webhook =
    | AmCall(tenant: string, alerts: seq<AmAlert>, clocks: seq<nat>, ss: seq<Saves>)
    | GfCall(tenant: string, gfAlerts: seq<GfAlert>, now: nat, ss: seq<Saves>)
    | ZbxCall(tenant: string, zbx: ZbxPayload, saved: bool)

  predicate IsWebhook(w: Webhook) {
    match w
    case AmCall(_, alerts, clocks, ss) => |clocks| == |alerts| == |ss|
    case GfCall(_, alerts, _, ss) => |alerts| == |ss|
    case ZbxCall(_, _, _) => true
  }

  // The messages a webhook tries to save: none of a body that is rejected, and
  // none of a Zabbix update.
  function MessagesOf(w: Webhook): seq<Message>
    requires IsWebhook(w)
  {
    match w
    case AmCall(tenant, alerts, clocks, _) =>
      if Fits(|alerts|) then AmMessages(tenant, alerts, clocks) else []
    case GfCall(tenant, alerts, now, _) =>
      if Fits(|alerts|) then GfMessages(tenant, alerts, now) else []
    case ZbxCall(tenant, p, _) =>
      if ZbxVerdict(p).Accepted? && ZbxKindOf(p) != Update then [Zbx(tenant, p)] else []
  }

  function SavesOf(w: Webhook): (ss: seq<Saves>)
    requires IsWebhook(w)
    ensures |ss| == |MessagesOf(w)|
  {
    match w
    case AmCall(_, alerts, _, ss) => if Fits(|alerts|) then ss else []
    case GfCall(_, alerts, _, ss) => if Fits(|alerts|) then ss else []
    case ZbxCall(_, p, saved) => if ZbxVerdict(p).Accepted? && ZbxKindOf(p) != Update then [Saves(saved, false)] else []
  }

  // The rows after one webhook.
  function RowsAfter(rows: Rows, w: Webhook): Rows
    requires IsWebhook(w)
  {
    SaveAll(rows, AllSaved(MessagesOf(w), SavesOf(w)))
  }

  class IngestHandler {
    var rows: map<string, Event>
    var calls: seq<Call>
    var successes: seq<(string, nat)>   // what the source registry is told
    var notes: seq<string>              // event IDs a Zabbix update is noted for

    constructor ()
      ensures rows == map[] && calls == [] && successes == [] && notes == []
    {
      rows, calls, successes, notes := map[], [], [], [];
    }

    // The INSERT ... ON CONFLICT of the store.
    method SaveEvent(e: Event)
      modifies this`rows
      ensures rows == SaveRow(old(rows), e)
      ensures LeavesRow(old(rows), rows, e)
    {
      var owner := OwnerOf(e.tenantID);
      if e.id !in rows {
        rows := rows[e.id := e.(tenantID := owner)];
      } else if rows[e.id].tenantID == owner {
        var row := rows[e.id].(fingerprint := e.fingerprint);
        if e.alertStatus != "" {
          row := row.(alertStatus := e.alertStatus);
        }
        rows := rows[e.id := row];
      }
    }

    // One alert: save it and hand it to correlation; a Grafana test is opened
    // and resolved at once.
    method Store(m: Message, s: Saves)
      modifies this`rows, this`calls
      ensures rows == SaveAll(old(rows), Saved(m, s))
      ensures calls == old(calls) + Calls(m, s)
    {
      var e := EventOf(m);
      OneOrTwoSaved(rows, e, e.(alertStatus := "resolved"));
      hide SaveAll, SaveRow, EventOf;
      if !s.first {
        return;
      }
      SaveEvent(e);
      if IsTest(m) {
        calls := calls + [ProcessEvent(e)];
        if s.second {
          var r := e.(alertStatus := "resolved");
          SaveEvent(r);
          calls := calls + [ProcessResolved(r)];
        }
      } else if e.alertStatus == "resolved" {
        calls := calls + [ProcessResolved(e)];
      } else {
        calls := calls + [ProcessEvent(e)];
      }
    }

    method StoreAll(ms: seq<Message>, ss: seq<Saves>) returns (count: nat)
      requires |ms| == |ss|
      modifies this`rows, this`calls
      ensures count == CountSaved(ss)
      ensures rows == SaveAll(old(rows), AllSaved(ms, ss))
      ensures calls == old(calls) + AllCalls(ms, ss)
    {
      count := 0;
      var i := 0;
      assert HasRun(rows, calls, rows, calls, 0, ms[..0], ss[..0]);
      hide Saved, Calls, AllSaved, AllCalls, CountSaved, SaveAll, HasRun;
      while i < |ms|
        invariant 0 <= i <= |ms|
        invariant HasRun(old(rows), old(calls), rows, calls, count, ms[..i], ss[..i])
      {
        RunsOneMore(old(rows), old(calls), rows, calls, count, ms, ss, i);
        Store(ms[i], ss[i]);
        if ss[i].first {
          count := count + 1;
        }
        i := i + 1;
      }
      RunIsDone(old(rows), old(calls), rows, calls, count, ms, ss);
    }

    method RecordSuccess(sourceID: string, count: nat)
      modifies this`successes
      ensures successes == old(successes) + if sourceID == "" then [] else [(sourceID, count)]
    {
      if sourceID != "" {
        successes := successes + [(sourceID, count)];
      }
    }

    method IngestAlertmanager(
        alerts: seq<AmAlert>, tenant: string, sourceID: string, clocks: seq<nat>, ss: seq<Saves>)
      returns (r: Result<nat, Rejection>)
      requires |clocks| == |alerts| == |ss|
      modifies this
      ensures notes == old(notes)
      ensures r == if alerts == [] then Err(NoAlerts) else if |alerts| > MAX_ALERTS then Err(TooManyAlerts)
                   else Ok(CountSaved(ss))
      ensures rows == RowsAfter(old(rows), AmCall(tenant, alerts, clocks, ss))
      ensures r.Ok? <==> 1 <= |alerts| <= 1000
      ensures r.Err? ==> rows == old(rows) && calls == old(calls) && successes == old(successes)
      ensures r.Ok? ==> calls == old(calls) + AllCalls(AmMessages(tenant, alerts, clocks), ss)
      ensures r.Ok? ==> successes == old(successes) + if sourceID == "" then [] else [(sourceID, CountSaved(ss))]
    {
      BodyRows(rows, AmCall(tenant, alerts, clocks, ss));
      hide *;
      if |alerts| == 0 {
        return Err(NoAlerts);
      }
      if |alerts| > MAX_ALERTS {
        return Err(TooManyAlerts);
      }
      var count := StoreAll(AmMessages(tenant, alerts, clocks), ss);
      RecordSuccess(sourceID, count);
      return Ok(count);
    }

    method IngestGrafana(alerts: seq<GfAlert>, tenant: string, sourceID: string, now: nat, ss: seq<Saves>)
      returns (r: Result<nat, Rejection>)
      requires |alerts| == |ss|
      modifies this
      ensures notes == old(notes)
      ensures r == if alerts == [] then Err(NoAlerts) else if |alerts| > MAX_ALERTS then Err(TooManyAlerts)
                   else Ok(CountSaved(ss))
      ensures rows == RowsAfter(old(rows), GfCall(tenant, alerts, now, ss))
      ensures r.Ok? <==> 1 <= |alerts| <= 1000
      ensures r.Err? ==> rows == old(rows) && calls == old(calls) && successes == old(successes)
      ensures r.Ok? ==> calls == old(calls) + AllCalls(GfMessages(tenant, alerts, now), ss)
      ensures r.Ok? ==> successes == old(successes) + if sourceID == "" then [] else [(sourceID, CountSaved(ss))]
    {
      BodyRows(rows, GfCall(tenant, alerts, now, ss));
      hide *;
      if |alerts| == 0 {
        return Err(NoAlerts);
      }
      if |alerts| > MAX_ALERTS {
        return Err(TooManyAlerts);
      }
      var count := StoreAll(GfMessages(tenant, alerts, now), ss);
      RecordSuccess(sourceID, count);
      return Ok(count);
    }

    method ZabbixToEvent(p: ZbxPayload) returns (r: Verdict)
      ensures r == ZbxVerdict(p)
    {
      if UnexpandedMacro(p.eventID) {
        return Refused(ZabbixTest);
      }
      if UnexpandedMacro(p.triggerID) || UnexpandedMacro(p.host) {
        return Refused(FieldsMissing);
      }
      return Accepted(ZbxKindOf(p));
    }

    // `noter` says whether an incident noter is wired.
    method NoteUpdate(m: Message, noter: bool)
      modifies this`notes
      ensures notes == if noter then old(notes) + [EventID(KeyOf(m))] else old(notes)
    {
      if noter {
        notes := notes + [EventID(KeyOf(m))];
      }
    }

    // A problem or recovery is saved and handed to correlation.
    method StoreZabbix(p: ZbxPayload, tenant: string, saved: bool) returns (stored: bool)
      requires ZbxVerdict(p).Accepted? && ZbxVerdict(p).kind != Update
      modifies this`rows, this`calls
      ensures stored == saved
      ensures rows == RowsAfter(old(rows), ZbxCall(tenant, p, saved))
      ensures calls == if saved then old(calls) + Calls(Zbx(tenant, p), Saves(true, false)) else old(calls)
    {
      var m := Zbx(tenant, p);
      ZabbixRows(rows, ZbxCall(tenant, p, saved));
      assert ZbxVerdict(p).kind == ZbxKindOf(p);
      hide *;
      if saved {
        Store(m, Saves(true, false));
      }
      return saved;
    }

    // An acknowledgement or comment is noted and changes nothing else; a problem
    // or recovery is stored.
    method RouteZabbix(p: ZbxPayload, tenant: string, saved: bool, noter: bool) returns (r: Verdict)
      requires ZbxVerdict(p).Accepted?
      modifies this`rows, this`calls, this`notes
      ensures r == if ZbxVerdict(p).kind != Update && !saved then Refused(NotStored) else ZbxVerdict(p)
      ensures rows == RowsAfter(old(rows), ZbxCall(tenant, p, saved))
      ensures calls == if r.Accepted? && r.kind != Update then old(calls) + Calls(Zbx(tenant, p), Saves(true, false))
                       else old(calls)
      ensures notes == if r == Accepted(Update) && noter then old(notes) + [EventID(KeyOf(Zbx(tenant, p)))] else old(notes)
    {
      NothingToStore(rows, ZbxCall(tenant, p, saved));
      r := ZbxVerdict(p);
      hide *;
      if r.kind == Update {
        NoteUpdate(Zbx(tenant, p), noter);
      } else {
        var stored := StoreZabbix(p, tenant, saved);
        if !stored {
          r := Refused(NotStored);
        }
      }
    }

    method IngestZabbix(p: ZbxPayload, tenant: string, sourceID: string, saved: bool, noter: bool) returns (r: Verdict)
      modifies this
      ensures r == if ZbxVerdict(p).Accepted? && ZbxVerdict(p).kind != Update && !saved then Refused(NotStored)
                   else ZbxVerdict(p)
      ensures rows == RowsAfter(old(rows), ZbxCall(tenant, p, saved))
      ensures calls == if r.Accepted? && r.kind != Update then old(calls) + Calls(Zbx(tenant, p), Saves(true, false))
                       else old(calls)
      ensures notes == if r == Accepted(Update) && noter then old(notes) + [EventID(KeyOf(Zbx(tenant, p)))] else old(notes)
      ensures successes == old(successes) + if r.Refused? || sourceID == "" then []
                                            else [(sourceID, if r.kind == Update then 0 else 1)]
      ensures r == Accepted(Problem) ==>
                && calls == old(calls) + [ProcessEvent(ZbxEvent(tenant, p, "firing"))]
                && LeavesRow(old(rows), rows, ZbxEvent(tenant, p, "firing"))
      ensures r == Accepted(Recovery) ==>
                && calls == old(calls) + [ProcessResolved(ZbxEvent(tenant, p, "resolved"))]
                && LeavesRow(old(rows), rows, ZbxEvent(tenant, p, "resolved"))
      ensures r.Refused? || r.kind == Update ==> calls == old(calls) && rows == old(rows)
      ensures notes == if r == Accepted(Update) && noter then old(notes) + ["zbx-" + tenant + "-" + TrimSpace(p.eventID)]
                       else old(notes)
    {
      NothingToStore(rows, ZbxCall(tenant, p, saved));
      if !saved {
        NotStoredNoRow(rows, ZbxCall(tenant, p, saved));
      }
      ZbxDelivery(rows, tenant, p);
      hide *;
      r := ZabbixToEvent(p);
      if r.Accepted? {
        r := RouteZabbix(p, tenant, saved, noter);
      }
      if r.Accepted? {
        RecordSuccess(sourceID, if r.kind == Update then 0 else 1);
      }
    }
  }

  lemma BodyRows(rows: Rows, w: Webhook)
    requires IsWebhook(w) && !w.ZbxCall?
    ensures var n := if w.AmCall? then |w.alerts| else |w.gfAlerts|;
            RowsAfter(rows, w) ==
            if n == 0 || n > MAX_ALERTS then rows
            else if w.AmCall? then SaveAll(rows, AllSaved(AmMessages(w.tenant, w.alerts, w.clocks), w.ss))
            else SaveAll(rows, AllSaved(GfMessages(w.tenant, w.gfAlerts, w.now), w.ss))
  {
  }

  lemma NotStoredNoRow(rows: Rows, w: Webhook)
    requires w.ZbxCall? && !w.saved
    ensures RowsAfter(rows, w) == rows
  {
    ZabbixRows(rows, w);
  }

  // What an accepted Zabbix message leaves in the store and tells correlation.
  lemma ZbxDelivery(rows: Rows, tenant: string, p: ZbxPayload)
    ensures EventID(KeyOf(Zbx(tenant, p))) == "zbx-" + tenant + "-" + TrimSpace(p.eventID)
    ensures ZbxVerdict(p).Accepted? && ZbxVerdict(p).kind != Update ==>
              var over := ZbxVerdict(p).kind == Recovery;
              var e := ZbxEvent(tenant, p, if over then "resolved" else "firing");
              && LeavesRow(rows, RowsAfter(rows, ZbxCall(tenant, p, true)), e)
              && Calls(Zbx(tenant, p), Saves(true, false)) == [if over then ProcessResolved(e) else ProcessEvent(e)]
  {
    var m := Zbx(tenant, p);
    Joined3("zbx-", tenant, TrimSpace(p.eventID));
    ZbxEventIs(tenant, p);
    ZbxCallsAre(tenant, p);
    ZabbixRows(rows, ZbxCall(tenant, p, true));
    OneMessageSaved(rows, m, Saves(true, false));
    SaveLeavesRow(rows, EventOf(m));
    assert ZbxVerdict(p).Accepted? ==> ZbxVerdict(p).kind == ZbxKindOf(p);
    assert Left(m, Saves(true, false)) == EventOf(m);
    hide LeavesRow, SaveAll, SaveRow, EventOf, Calls, RowsAfter, ZbxKindOf, ZbxVerdict, ZbxEvent, TrimSpace;
  }

  lemma NothingToStore(rows: Rows, w: Webhook)
    requires w.ZbxCall?
    ensures ZbxVerdict(w.zbx).Refused? || ZbxVerdict(w.zbx).kind == Update ==> RowsAfter(rows, w) == rows
  {
    ZabbixRows(rows, w);
  }

  lemma ZabbixRows(rows: Rows, w: Webhook)
    requires w.ZbxCall?
    ensures RowsAfter(rows, w) ==
            if ZbxVerdict(w.zbx).Accepted? && ZbxKindOf(w.zbx) != Update && w.saved
            then SaveAll(rows, Saved(Zbx(w.tenant, w.zbx), Saves(true, false))) else rows
  {
    var m := Zbx(w.tenant, w.zbx);
    hide ZbxVerdict, ZbxKindOf, KeyOf, EventOf;
    if ZbxVerdict(w.zbx).Accepted? && ZbxKindOf(w.zbx) != Update {
      var s := Saves(w.saved, false);
      assert [m][1..] == [] && [s][1..] == [];
      assert AllSaved([m], [s]) == Saved(m, s) + AllSaved([], []) == Saved(m, s);
    }
  }
}
