// What each alert of a webhook leaves in the store and tells correlation, in
// the tools' own terms.
module Delivery {
  import opened Text
  import opened EventIds
  import opened EventStore
  import opened Ingest

  // ----- one message among the others -----

  lemma {:induction false} SavedSplit(ms: seq<Message>, ss: seq<Saves>, i: nat)
    requires i < |ms| == |ss|
    ensures AllSaved(ms, ss) == AllSaved(ms[..i], ss[..i]) + Saved(ms[i], ss[i]) + AllSaved(ms[i + 1..], ss[i + 1..])
    decreases i
  {
    hide Saved;
    if i == 0 {
      assert AllSaved(ms[..0], ss[..0]) == [];
    } else {
      SavedSplit(ms[1..], ss[1..], i - 1);
      assert ms[1..][..i - 1] == ms[..i][1..] && ss[1..][..i - 1] == ss[..i][1..];
      assert ms[1..][i..] == ms[i + 1..] && ss[1..][i..] == ss[i + 1..];
      Concat3(Saved(ms[0], ss[0]), AllSaved(ms[..i][1..], ss[..i][1..]), Saved(ms[i], ss[i]),
              AllSaved(ms[i + 1..], ss[i + 1..]));
    }
  }

  lemma Concat3<T>(a: seq<T>, b: seq<T>, c: seq<T>, d: seq<T>)
    ensures a + (b + c + d) == a + b + c + d
  {
  }

  lemma {:induction false} CallsSplit(ms: seq<Message>, ss: seq<Saves>, i: nat)
    requires i < |ms| == |ss|
    ensures AllCalls(ms, ss) == AllCalls(ms[..i], ss[..i]) + Calls(ms[i], ss[i]) + AllCalls(ms[i + 1..], ss[i + 1..])
    decreases i
  {
    hide Calls;
    if i == 0 {
      assert AllCalls(ms[..0], ss[..0]) == [];
    } else {
      CallsSplit(ms[1..], ss[1..], i - 1);
      assert ms[1..][..i - 1] == ms[..i][1..] && ss[1..][..i - 1] == ss[..i][1..];
      assert ms[1..][i..] == ms[i + 1..] && ss[1..][i..] == ss[i + 1..];
      Concat3(Calls(ms[0], ss[0]), AllCalls(ms[..i][1..], ss[..i][1..]), Calls(ms[i], ss[i]),
              AllCalls(ms[i + 1..], ss[i + 1..]));
    }
  }

  // Message i writes `es`, and correlation is told `cs` about it, between what
  // the messages before and behind it give.
  ghost predicate Contributes(ms: seq<Message>, ss: seq<Saves>, i: nat, es: seq<Event>, cs: seq<Call>)
    requires i < |ms| == |ss|
  {
    && AllSaved(ms, ss) == AllSaved(ms[..i], ss[..i]) + es + AllSaved(ms[i + 1..], ss[i + 1..])
    && AllCalls(ms, ss) == AllCalls(ms[..i], ss[..i]) + cs + AllCalls(ms[i + 1..], ss[i + 1..])
  }

  lemma EachContributes(ms: seq<Message>, ss: seq<Saves>, i: nat)
    requires i < |ms| == |ss|
    ensures Contributes(ms, ss, i, Saved(ms[i], ss[i]), Calls(ms[i], ss[i]))
  {
    hide AllSaved, AllCalls, Saved, Calls;
    SavedSplit(ms, ss, i);
    CallsSplit(ms, ss, i);
  }

  // ----- what an alert gives -----

  // An Alertmanager alert that is saved is saved once, as resolved and with one
  // ProcessResolved if its status says so in any case, and otherwise as firing
  // and with one ProcessEvent. One that is not saved is not heard of.
  lemma AlertmanagerAlert(tenant: string, alerts: seq<AmAlert>, clocks: seq<nat>, ss: seq<Saves>, i: nat)
    requires i < |alerts| == |clocks| == |ss|
    ensures var a := alerts[i];
            var over := SpellsResolved(a.status);
            var e := AmEvent(tenant, a, clocks[i], if over then "resolved" else "firing");
            Contributes(AmMessages(tenant, alerts, clocks), ss, i,
                        if ss[i].first then [e] else [],
                        if !ss[i].first then [] else if over then [ProcessResolved(e)] else [ProcessEvent(e)])
  {
    EachContributes(AmMessages(tenant, alerts, clocks), ss, i);
    AmEventIs(tenant, alerts[i], clocks[i]);
    hide AllSaved, AllCalls, EventOf, SpellsResolved, Contributes;
  }

  // Grafana's alerts likewise. The one its test button sends has the name
  // "TestAlert" and no rule, and is opened and resolved, whatever its status.
  lemma GrafanaAlert(tenant: string, alerts: seq<GfAlert>, now: nat, ss: seq<Saves>, i: nat)
    requires i < |alerts| == |ss|
    requires alerts[i].alertname != "TestAlert" || TrimSpace(alerts[i].ruleUID) != ""
    ensures var a := alerts[i];
            var over := SpellsResolved(a.status);
            var e := GfEvent(tenant, a, now + i, if over then "resolved" else "firing");
            Contributes(GfMessages(tenant, alerts, now), ss, i,
                        if ss[i].first then [e] else [],
                        if !ss[i].first then [] else if over then [ProcessResolved(e)] else [ProcessEvent(e)])
  {
    EachContributes(GfMessages(tenant, alerts, now), ss, i);
    GfEventIs(tenant, alerts[i], now, i);
    hide AllSaved, AllCalls, EventOf, SpellsResolved, Contributes, TrimSpace;
  }

  lemma GrafanaTestAlert(tenant: string, alerts: seq<GfAlert>, now: nat, ss: seq<Saves>, i: nat)
    requires i < |alerts| == |ss|
    requires alerts[i].alertname == "TestAlert" && TrimSpace(alerts[i].ruleUID) == ""
    ensures var first, last := GfTestEvent(tenant, now + i, "firing"), GfTestEvent(tenant, now + i, "resolved");
            Contributes(GfMessages(tenant, alerts, now), ss, i,
                        if !ss[i].first then [] else if ss[i].second then [first, last] else [first],
                        if !ss[i].first then []
                        else if ss[i].second then [ProcessEvent(first), ProcessResolved(last)]
                        else [ProcessEvent(first)])
  {
    EachContributes(GfMessages(tenant, alerts, now), ss, i);
    TestGives(tenant, alerts[i], now, i, ss[i]);
    hide AllSaved, AllCalls, Saved, Calls, Contributes, TrimSpace, GfTestEvent;
  }

  lemma TestGives(tenant: string, a: GfAlert, now: nat, i: nat, s: Saves)
    requires a.alertname == "TestAlert" && TrimSpace(a.ruleUID) == ""
    ensures var first, last := GfTestEvent(tenant, now + i, "firing"), GfTestEvent(tenant, now + i, "resolved");
            var m := Gf(tenant, a, now, i);
            && Saved(m, s) == (if !s.first then [] else if s.second then [first, last] else [first])
            && Calls(m, s) ==
               (if !s.first then []
                else if s.second then [ProcessEvent(first), ProcessResolved(last)]
                else [ProcessEvent(first)])
  {
    GfTestEventIs(tenant, a, now, i);
    hide EventOf, TrimSpace;
  }

  // ----- one alert by itself -----

  lemma AloneGives(ms: seq<Message>, ss: seq<Saves>, es: seq<Event>, cs: seq<Call>)
    requires |ms| == |ss| == 1 && Contributes(ms, ss, 0, es, cs)
    ensures AllSaved(ms, ss) == es && AllCalls(ms, ss) == cs
  {
    assert ms[..0] == [] && ms[1..] == [] && ss[..0] == [] && ss[1..] == [];
    NoMessages();
    hide AllSaved, AllCalls;
    assert [] + es + [] == es && [] + cs + [] == cs;
  }

  lemma NoMessages()
    ensures AllSaved([], []) == [] && AllCalls([], []) == []
  {
  }

  // A webhook with one alert, whatever is stored: the row the alert leaves, and
  // the one call it makes.
  lemma OneAlertmanagerAlert(rows: Rows, tenant: string, a: AmAlert, nanos: nat, s: Saves)
    requires s.first
    ensures var over := SpellsResolved(a.status);
            var e := AmEvent(tenant, a, nanos, if over then "resolved" else "firing");
            && LeavesRow(rows, RowsAfter(rows, AmCall(tenant, [a], [nanos], [s])), e)
            && AllCalls(AmMessages(tenant, [a], [nanos]), [s]) == [if over then ProcessResolved(e) else ProcessEvent(e)]
  {
    var over := SpellsResolved(a.status);
    var e := AmEvent(tenant, a, nanos, if over then "resolved" else "firing");
    AlertmanagerAlert(tenant, [a], [nanos], [s], 0);
    AloneGives(AmMessages(tenant, [a], [nanos]), [s], [e], [if over then ProcessResolved(e) else ProcessEvent(e)]);
    OneOrTwoSaved(rows, e, e);
    SaveLeavesRow(rows, e);
    BodyRows(rows, AmCall(tenant, [a], [nanos], [s]));
    hide LeavesRow, AmEvent, AllSaved, AllCalls, SaveAll, SaveRow, SpellsResolved, RowsAfter, Contributes;
  }

  function SavedAt(ss: seq<Saves>): set<int> { set i | 0 <= i < |ss| && ss[i].first }

  // The count that is answered is the number of alerts whose save succeeded.
  lemma {:induction false} CountsTheSaved(ss: seq<Saves>)
    ensures CountSaved(ss) == |SavedAt(ss)|
    decreases |ss|
  {
    if ss != [] {
      var n := |ss| - 1;
      CountsTheSaved(ss[..n]);
      assert ss == ss[..n] + [ss[n]];
      OneMoreCounted(ss[..n], ss[n]);
      OneMoreSavedAt(ss);
      hide CountSaved, SavedAt;
    }
  }

  lemma OneMoreSavedAt(ss: seq<Saves>)
    requires ss != []
    ensures var n := |ss| - 1; |SavedAt(ss)| == |SavedAt(ss[..n])| + if ss[n].first then 1 else 0
  {
    var n := |ss| - 1;
    assert n !in SavedAt(ss[..n]);
    assert SavedAt(ss) == SavedAt(ss[..n]) + if ss[n].first then {n} else {};
  }
}
