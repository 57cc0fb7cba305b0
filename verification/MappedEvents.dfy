// What a mapping's author is promised: which value each field of the event
// has, and what a token stands for in a title. Said of every outcome of Map.
module MappedEvents {
  import opened Text
  import opened Template
  import opened CustomMapper

  // ----- a template that is one token -----

  lemma NoDollarStays(s: string, t: string, v: string)
    requires '$' !in s && IsMarked(t)
    ensures ReplaceAll(s, t, v) == s
  {
    assert forall j :: 0 <= j < |s| ==> s[j..][0] != '$';
    assert forall j :: 0 <= j <= |s| ==> !(t <= s[j..]);
    ReplaceAllAbsent(s, t, v);
  }

  lemma OtherTokenStays(g: string, t: string, v: string)
    requires IsToken(g) && IsMarked(t) && !(t <= g)
    ensures ReplaceAll(g, t, v) == g
  {
    assert g == [g[0]] + g[1..];
    NoDollarStays(g[1..], t, v);
  }

  lemma OwnTokenGoes(g: string, v: string)
    requires g != ""
    ensures ReplaceAll(g, g, v) == v
  {
    assert g[|g|..] == "" && v + "" == v;
  }

  lemma {:induction false} NoDollarPasses(s: string, order: seq<string>, env: map<string, string>)
    requires '$' !in s && forall t :: t in order ==> t in env && IsMarked(t)
    ensures Chain(s, order, env) == s
    decreases |order|
  {
    if order != [] {
      NoDollarStays(s, order[0], env[order[0]]);
      NoDollarPasses(s, order[1..], env);
    }
  }

  lemma {:induction false} TokenBecomesValue(g: string, order: seq<string>, env: map<string, string>)
    requires IsToken(g) && forall t :: t in order ==> t in env && IsMarked(t) && (t <= g ==> t == g)
    requires g in env && '$' !in env[g]
    ensures Chain(g, order, env) == if g in order then env[g] else g
    decreases |order|
  {
    if order != [] {
      var t, rest := order[0], order[1..];
      assert order == [t] + rest;
      if t == g {
        OwnTokenGoes(g, env[g]);
        NoDollarPasses(env[g], rest, env);
      } else {
        OtherTokenStays(g, t, env[t]);
        TokenBecomesValue(g, rest, env);
      }
    }
  }

  lemma {:induction false} UnknownTokenStays(g: string, order: seq<string>, env: map<string, string>)
    requires IsToken(g) && forall t :: t in order ==> t in env && IsMarked(t) && !(t <= g)
    ensures Chain(g, order, env) == g
    decreases |order|
  {
    if order != [] {
      OtherTokenStays(g, order[0], env[order[0]]);
      UnknownTokenStays(g, order[1..], env);
    }
  }

  // ----- the canonical tokens -----

  // Three letters behind the '$' tell the eight apart.
  lemma NamesDiffer(f: Fields, t: string, u: string)
    requires t in Replacements(f) && u in Replacements(f) && u <= t
    ensures u == t
  {
    Letters(f, t);
    Letters(f, u);
    assert t[1] == u[1] && t[2] == u[2] && t[3] == u[3];
    hide Replacements;
  }

  lemma Letters(f: Fields, t: string)
    requires t in Replacements(f)
    ensures |t| >= 4 && t == LetteredAs(t[1], t[2], t[3])
  {
  }

  function LetteredAs(a: char, b: char, c: char): string {
    if a == 's' && b == 'e' && c == 'r' then "$service"
    else if a == 's' && b == 'e' then "$severity"
    else if a == 's' then "$signal_type"
    else if a == 'r' then "$resource"
    else if a == 'e' && b == 'n' then "$environment"
    else if a == 'e' then "$external_id"
    else if a == 't' then "$title"
    else "$message"
  }

  // A template that is one canonical token.
  lemma TokenIsField(f: Fields, raw: Payload, t: string, title: string)
    requires t in Replacements(f) && '$' !in Replacements(f)[t] && IsTitle(t, f, raw, title)
    ensures title == Replacements(f)[t]
  {
    CanonicalTokens(f);
    PayloadMarked(raw);
    var first, order1, order2 :|
      IsChain(t, order1, Replacements(f), first) && IsChain(first, order2, RawReplacements(raw), title);
    AllListed(order1, Replacements(f).Keys);
    forall u | u in order1 && u <= t
      ensures u == t
    {
      NamesDiffer(f, t, u);
    }
    hide Replacements, RawReplacements, Lists, IsToken, Chain;
    TokenBecomesValue(t, order1, Replacements(f));
    NoDollarPasses(first, order2, RawReplacements(raw));
  }

  lemma EightTokens(f: Fields, raw: Payload, tmpl: string, title: string)
    requires IsTitle(tmpl, f, raw, title)
    ensures tmpl == "$service" && '$' !in f.service ==> title == f.service
    ensures tmpl == "$resource" && '$' !in f.resource ==> title == f.resource
    ensures tmpl == "$environment" && '$' !in f.environment ==> title == f.environment
    ensures tmpl == "$severity" && '$' !in f.severity ==> title == f.severity
    ensures tmpl == "$signal_type" && '$' !in f.signalType ==> title == f.signalType
    ensures tmpl == "$title" && '$' !in f.title ==> title == f.title
    ensures tmpl == "$message" && '$' !in f.message ==> title == f.message
    ensures tmpl == "$external_id" && '$' !in f.externalID ==> title == f.externalID
  {
    TokensOf(f);
    hide Replacements, IsTitle;
    if tmpl in Replacements(f) && '$' !in Replacements(f)[tmpl] {
      TokenIsField(f, raw, tmpl, title);
    }
  }

  lemma TokensOf(f: Fields)
    ensures var r := Replacements(f);
            && "$service" in r && r["$service"] == f.service && "$resource" in r && r["$resource"] == f.resource
            && "$environment" in r && r["$environment"] == f.environment
            && "$severity" in r && r["$severity"] == f.severity
            && "$signal_type" in r && r["$signal_type"] == f.signalType && "$title" in r && r["$title"] == f.title
            && "$message" in r && r["$message"] == f.message
            && "$external_id" in r && r["$external_id"] == f.externalID
  {
  }

  // ----- a token that is a payload key -----

  // What a JSON value reads as: nothing for null, the text itself for a text.
  predicate ShownAs(v: Json, s: string) {
    match v
    case Null => s == ""
    case Str(text) => s == text
    case Number(shown) => s == shown
    case Boolean(b) => (b && s == "true") || (!b && s == "false")
    case Composite(encoded) => s == encoded
  }

  lemma ShownIsStringVal(v: Json, s: string)
    ensures ShownAs(v, s) <==> s == StringVal(v)
  {
  }

  predicate BeginsWithName(k: string) {
    || "service" <= k || "resource" <= k || "environment" <= k || "severity" <= k
    || "signal_type" <= k || "title" <= k || "message" <= k || "external_id" <= k
  }

  lemma NoNameBegins(f: Fields, k: string, t: string)
    requires !BeginsWithName(k) && t in Replacements(f)
    ensures !(t <= "$" + k)
  {
    Unmarked("service", k);
    Unmarked("resource", k);
    Unmarked("environment", k);
    Unmarked("severity", k);
    Unmarked("signal_type", k);
    Unmarked("title", k);
    Unmarked("message", k);
    Unmarked("external_id", k);
    JoinedNames();
  }

  lemma JoinedNames()
    ensures "$" + "service" == "$service" && "$" + "resource" == "$resource" && "$" + "environment" == "$environment"
    ensures "$" + "severity" == "$severity" && "$" + "signal_type" == "$signal_type" && "$" + "title" == "$title"
    ensures "$" + "message" == "$message" && "$" + "external_id" == "$external_id"
  {
  }

  lemma Unmarked(j: string, k: string)
    ensures "$" + j <= "$" + k <==> j <= k
    ensures "$" + j == "$" + k <==> j == k
  {
    assert ("$" + j)[1..] == j && ("$" + k)[1..] == k;
    if "$" + j <= "$" + k {
      assert ("$" + k)[..|j| + 1][1..] == k[..|j|];
    }
    if j <= k {
      assert ("$" + k)[..|j| + 1] == "$" + k[..|j|];
    }
  }

  // A key that neither a canonical name nor another key begins stands for its
  // value.
  lemma KeyIsValue(f: Fields, raw: Payload, k: string, title: string)
    requires IsTitle("$" + k, f, raw, title)
    requires k in raw && '$' !in k && !BeginsWithName(k) && forall j :: j in raw && j <= k ==> j == k
    requires '$' !in StringVal(raw[k])
    ensures title == StringVal(raw[k])
  {
    var t, env := "$" + k, RawReplacements(raw);
    assert IsToken(t) by {
      assert t[1..] == k;
    }
    CanonicalTokens(f);
    var first, order1, order2 :| IsChain(t, order1, Replacements(f), first) && IsChain(first, order2, env, title);
    AllListed(order1, Replacements(f).Keys);
    AllListed(order2, env.Keys);
    forall u | u in order1
      ensures !(u <= t)
    {
      NoNameBegins(f, k, u);
    }
    forall u | u in order2
      ensures IsMarked(u) && (u <= t ==> u == t)
    {
      KeysBegin(raw, k, u);
    }
    hide Replacements, RawReplacements, Lists, Chain, BeginsWithName, StringVal;
    UnknownTokenStays(t, order1, Replacements(f));
    TokenBecomesValue(t, order2, env);
  }

  lemma KeysBegin(raw: Payload, k: string, u: string)
    requires u in RawReplacements(raw) && forall j :: j in raw && j <= k ==> j == k
    ensures IsMarked(u) && (u <= "$" + k ==> u == "$" + k)
  {
    var j :| j in raw && u == "$" + j;
    Unmarked(j, k);
  }

  // ----- of every outcome -----

  // A template that is one canonical token gives that field, whatever the
  // orders, if there is no '$' in it; "$title" the title it had before.
  lemma TitleIsField(m: Mapping, raw: Payload, parse: string -> Option<string>, now: string, ie: Event)
    requires Outcome(m, raw, parse, now, ie)
    ensures var f, tmpl := ie.fields, m.titleTemplate;
            && (tmpl == "$service" && '$' !in f.service ==> f.title == f.service)
            && (tmpl == "$resource" && '$' !in f.resource ==> f.title == f.resource)
            && (tmpl == "$environment" && '$' !in f.environment ==> f.title == f.environment)
            && (tmpl == "$severity" && '$' !in f.severity ==> f.title == f.severity)
            && (tmpl == "$signal_type" && '$' !in f.signalType ==> f.title == f.signalType)
            && (tmpl == "$message" && '$' !in f.message ==> f.title == f.message)
            && (tmpl == "$external_id" && '$' !in f.externalID ==> f.title == f.externalID)
    ensures m.titleTemplate == "$title" ==>
              exists f :: Resolved(m, raw, parse, now, f) && ie.fields == f.(title := ie.fields.title)
                          && ('$' !in f.title ==> ie.fields.title == f.title)
  {
    hide Resolved, IsTitle, Labels;
    var f :| Resolved(m, raw, parse, now, f) && WithTitle(m, raw, f, ie.fields);
    if m.titleTemplate != "" {
      EightTokens(f, raw, m.titleTemplate, ie.fields.title);
    }
  }

  lemma TitleIsValue(m: Mapping, raw: Payload, parse: string -> Option<string>, now: string, ie: Event, k: string, v: string)
    requires Outcome(m, raw, parse, now, ie) && m.titleTemplate == "$" + k
    requires k in raw && '$' !in k && !BeginsWithName(k) && forall j :: j in raw && j <= k ==> j == k
    requires ShownAs(raw[k], v) && '$' !in v
    ensures ie.fields.title == v
  {
    ShownIsStringVal(raw[k], v);
    hide Resolved, IsTitle, Labels, ShownAs, StringVal, BeginsWithName;
    var f :| Resolved(m, raw, parse, now, f) && WithTitle(m, raw, f, ie.fields);
    KeyIsValue(f, raw, k, ie.fields.title);
  }

  // ----- where the fields come from -----

  // The mapping sends a payload field that reads as `v` to `dst`.
  ghost predicate Sends(m: Mapping, raw: Payload, dst: string, v: string) {
    exists src :: src in m.fieldMap && m.fieldMap[src] == dst && src in raw && ShownAs(raw[src], v) && v != ""
  }

  // One of the values sent, or nothing when none is.
  ghost predicate IsSent(m: Mapping, raw: Payload, dst: string, v: string) {
    Sends(m, raw, dst, v) || (v == "" && forall w :: !Sends(m, raw, dst, w))
  }

  // The time is one that was sent and parses, or else the reading of the clock.
  ghost predicate IsSentTime(m: Mapping, raw: Payload, parse: string -> Option<string>, now: string, v: string) {
    || (exists w :: Sends(m, raw, "timestamp", w) && parse(w) == Some(v))
    || (v == now && forall w :: Sends(m, raw, "timestamp", w) ==> parse(w) == None)
  }

  lemma WritersSend(m: Mapping, raw: Payload, parse: string -> Option<string>, src: string, dst: string, v: string)
    requires src in m.fieldMap && dst in DESTINATIONS && dst != "timestamp"
    ensures Writes(m, raw, parse, src) == Some((dst, v)) <==>
            m.fieldMap[src] == dst && src in raw && ShownAs(raw[src], v) && v != ""
  {
    if src in raw {
      ShownIsStringVal(raw[src], v);
    }
    hide ShownAs, StringVal;
  }

  lemma FieldIsSent(m: Mapping, raw: Payload, parse: string -> Option<string>, order: seq<string>, now: string, dst: string)
    requires Lists(order, m.fieldMap.Keys) && forall src :: src in order ==> src in m.fieldMap
    requires dst in DESTINATIONS && dst != "timestamp"
    ensures IsSent(m, raw, dst, Get(FieldFold(m, raw, parse, BLANK.(timestamp := now), order), dst))
  {
    var f := BLANK.(timestamp := now);
    assert Get(f, dst) == "";
    FoldValue(m, raw, parse, f, order, dst);
    AllListed(order, m.fieldMap.Keys);
    forall v
      ensures WrittenBy(m, raw, parse, order, dst, v) <==> Sends(m, raw, dst, v)
    {
      forall src | src in m.fieldMap
        ensures Writes(m, raw, parse, src) == Some((dst, v)) <==>
                m.fieldMap[src] == dst && src in raw && ShownAs(raw[src], v) && v != ""
      {
        WritersSend(m, raw, parse, src, dst, v);
      }
    }
    hide Writes, FieldFold, Get, ShownAs, Lists, DESTINATIONS;
  }

  lemma TimeIsSent(m: Mapping, raw: Payload, parse: string -> Option<string>, order: seq<string>, now: string)
    requires Lists(order, m.fieldMap.Keys) && forall src :: src in order ==> src in m.fieldMap
    ensures IsSentTime(m, raw, parse, now, FieldFold(m, raw, parse, BLANK.(timestamp := now), order).timestamp)
  {
    var f := BLANK.(timestamp := now);
    assert Get(f, "timestamp") == now;
    var v := FieldFold(m, raw, parse, f, order).timestamp;
    FoldValue(m, raw, parse, f, order, "timestamp");
    AllListed(order, m.fieldMap.Keys);
    hide FieldFold, Lists;
    forall w
      ensures WrittenBy(m, raw, parse, order, "timestamp", w) <==>
              exists sent :: Sends(m, raw, "timestamp", sent) && parse(sent) == Some(w)
    {
      TimesWritten(m, raw, parse, order, w);
    }
    hide Writes, WrittenBy, Sends;
    forall sent | Sends(m, raw, "timestamp", sent)
      ensures parse(sent).Some? ==> WrittenBy(m, raw, parse, order, "timestamp", parse(sent).value)
    {
    }
  }

  lemma TimesWritten(m: Mapping, raw: Payload, parse: string -> Option<string>, order: seq<string>, w: string)
    requires forall x :: x in order <==> x in m.fieldMap
    ensures WrittenBy(m, raw, parse, order, "timestamp", w) <==>
            exists sent :: Sends(m, raw, "timestamp", sent) && parse(sent) == Some(w)
  {
    if WrittenBy(m, raw, parse, order, "timestamp", w) {
      var src :| src in order && src in m.fieldMap && Writes(m, raw, parse, src) == Some(("timestamp", w));
      var sent := RawValue(raw, src);
      if src in raw {
        ShownIsStringVal(raw[src], sent);
      }
      assert Sends(m, raw, "timestamp", sent) && parse(sent) == Some(w);
    }
    if sent :| Sends(m, raw, "timestamp", sent) && parse(sent) == Some(w) {
      var src :| src in m.fieldMap && m.fieldMap[src] == "timestamp" && src in raw && ShownAs(raw[src], sent) && sent != "";
      ShownIsStringVal(raw[src], sent);
      assert Writes(m, raw, parse, src) == Some(("timestamp", w));
    }
  }

  // The severity map is asked for a severity in lower case; the defaults fill
  // what is empty.
  function Severity(m: Mapping, sent: string): string {
    var known := sent != "" && ToLower(sent) in m.severityMap;
    var s := if known then m.severityMap[ToLower(sent)] else sent;
    if s == "" then m.defaultSeverity else s
  }

  // Every field of every outcome, by its name in the mapping.
  lemma FieldsAreSent(m: Mapping, raw: Payload, parse: string -> Option<string>, now: string, ie: Event)
    requires Outcome(m, raw, parse, now, ie)
    ensures IsSent(m, raw, "service", ie.fields.service) && IsSent(m, raw, "resource", ie.fields.resource)
    ensures IsSent(m, raw, "environment", ie.fields.environment) && IsSent(m, raw, "message", ie.fields.message)
    ensures IsSent(m, raw, "external_id", ie.fields.externalID)
    ensures m.titleTemplate == "" ==> IsSent(m, raw, "title", ie.fields.title)
    ensures IsSentTime(m, raw, parse, now, ie.fields.timestamp)
    ensures exists sent :: IsSent(m, raw, "severity", sent) && ie.fields.severity == Severity(m, sent)
    ensures exists sent :: IsSent(m, raw, "signal_type", sent)
                           && ie.fields.signalType == if sent == "" then m.defaultSignalType else sent
  {
    var f :| Resolved(m, raw, parse, now, f) && WithTitle(m, raw, f, ie.fields);
    var order, g :| IsFold(m, raw, parse, BLANK.(timestamp := now), order, g) && f == Finish(m, g);
    AllSent(m, raw, parse, order, now, g);
    FinishIs(m, g);
    hide IsFold, IsTitle, Finish, IsSent, IsSentTime, Severity;
  }

  lemma FinishIs(m: Mapping, g: Fields)
    ensures Finish(m, g) == g.(severity := Severity(m, g.severity),
                               signalType := if g.signalType == "" then m.defaultSignalType else g.signalType)
  {
  }

  lemma AllSent(
      m: Mapping, raw: Payload, parse: string -> Option<string>, order: seq<string>, now: string, g: Fields)
    requires IsFold(m, raw, parse, BLANK.(timestamp := now), order, g)
    ensures IsSent(m, raw, "service", g.service) && IsSent(m, raw, "resource", g.resource)
    ensures IsSent(m, raw, "environment", g.environment) && IsSent(m, raw, "message", g.message)
    ensures IsSent(m, raw, "external_id", g.externalID) && IsSent(m, raw, "title", g.title)
    ensures IsSent(m, raw, "severity", g.severity) && IsSent(m, raw, "signal_type", g.signalType)
    ensures IsSentTime(m, raw, parse, now, g.timestamp)
  {
    TimeIsSent(m, raw, parse, order, now);
    FieldIsSent(m, raw, parse, order, now, "service");
    FieldIsSent(m, raw, parse, order, now, "resource");
    FieldIsSent(m, raw, parse, order, now, "environment");
    FieldIsSent(m, raw, parse, order, now, "message");
    FieldIsSent(m, raw, parse, order, now, "external_id");
    FieldIsSent(m, raw, parse, order, now, "title");
    FieldIsSent(m, raw, parse, order, now, "severity");
    FieldIsSent(m, raw, parse, order, now, "signal_type");
    hide FieldFold, Lists, IsSent, IsSentTime;
  }

  // The labels are the payload as it reads, without what reads as nothing.
  lemma LabelsAre(m: Mapping, raw: Payload, parse: string -> Option<string>, now: string, ie: Event)
    requires Outcome(m, raw, parse, now, ie)
    ensures forall k, v :: k in ie.labels && ie.labels[k] == v <==> k in raw && ShownAs(raw[k], v) && v != ""
  {
    forall k, v
      ensures k in ie.labels && ie.labels[k] == v <==> k in raw && ShownAs(raw[k], v) && v != ""
    {
      if k in raw {
        ShownIsStringVal(raw[k], v);
      }
    }
    hide ShownAs, StringVal;
  }
}
