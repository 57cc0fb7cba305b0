// ingest.CustomMapper.Map: a JSON payload turned into an event by a
// user-defined mapping, with Go's map order as a parameter of every run.
module CustomMapper {
  import opened Text
  import opened Template
  import opened Substitution
  import opened MapOrder

  // A decoded JSON value; numbers and composites come with the text that
  // fmt and json print for them.
  datatype Json = Null | Str(s: string) | Number(shown: string) | Boolean(b: bool) | Composite(encoded: string)

  function StringVal(v: Json): string {
    match v
    case Null => ""
    case Str(s) => s
    case Number(shown) => shown
    case Boolean(b) => if b then "true" else "false"
    case Composite(encoded) => encoded
  }

  type Payload = map<string, Json>

  // raw[k] for any k: a missing key reads as nil
  function RawValue(raw: Payload, k: string): string {
    if k in raw then StringVal(raw[k]) else ""
  }

  datatype Fields = Fields(
    service: string, resource: string, environment: string, severity: string, signalType: string,
    title: string, message: string, externalID: string, timestamp: string)

  datatype Mapping = Mapping(
    fieldMap: map<string, string>, severityMap: map<string, string>, titleTemplate: string,
    defaultSeverity: string, defaultSignalType: string)

  datatype Event = Event(fields: Fields, labels: map<string, string>)

  // ----- FieldMap -----

  const DESTINATIONS: set<string> := {
    "service", "resource", "environment", "severity", "signal_type", "title", "message", "external_id", "timestamp"
  }

  function Get(f: Fields, dst: string): string {
    if dst == "service" then f.service
    else if dst == "resource" then f.resource
    else if dst == "environment" then f.environment
    else if dst == "severity" then f.severity
    else if dst == "signal_type" then f.signalType
    else if dst == "title" then f.title
    else if dst == "message" then f.message
    else if dst == "external_id" then f.externalID
    else if dst == "timestamp" then f.timestamp
    else ""
  }

  function Put(f: Fields, dst: string, v: string): (r: Fields)
    ensures dst !in DESTINATIONS ==> r == f
    ensures forall d :: d in DESTINATIONS ==> Get(r, d) == if d == dst then v else Get(f, d)
  {
    if dst == "service" then f.(service := v)
    else if dst == "resource" then f.(resource := v)
    else if dst == "environment" then f.(environment := v)
    else if dst == "severity" then f.(severity := v)
    else if dst == "signal_type" then f.(signalType := v)
    else if dst == "title" then f.(title := v)
    else if dst == "message" then f.(message := v)
    else if dst == "external_id" then f.(externalID := v)
    else if dst == "timestamp" then f.(timestamp := v)
    else f
  }

  // What one entry of the field map writes: nothing when the value is empty,
  // the destination unknown, or a timestamp does not parse.
  function Writes(m: Mapping, raw: Payload, parse: string -> Option<string>, src: string): Option<(string, string)>
    requires src in m.fieldMap
  {
    var val, dst := RawValue(raw, src), m.fieldMap[src];
    if val == "" || dst !in DESTINATIONS then None
    else if dst == "timestamp" then
      match parse(val)
      case Some(t) => Some((dst, t))
      case None => None
    else Some((dst, val))
  }

  function PutEntry(f: Fields, w: Option<(string, string)>): Fields {
    if w.Some? then Put(f, w.value.0, w.value.1) else f
  }

  function FieldFold(m: Mapping, raw: Payload, parse: string -> Option<string>, f: Fields, order: seq<string>): Fields
    requires forall src :: src in order ==> src in m.fieldMap
    decreases |order|
  {
    if order == [] then f
    else FieldFold(m, raw, parse, PutEntry(f, Writes(m, raw, parse, order[0])), order[1..])
  }

  // ----- severity, defaults, labels -----

  function Finish(m: Mapping, f: Fields): Fields {
    var mapped :=
      if f.severity != "" && ToLower(f.severity) in m.severityMap
      then f.(severity := m.severityMap[ToLower(f.severity)]) else f;
    var s := if mapped.severity == "" then mapped.(severity := m.defaultSeverity) else mapped;
    if s.signalType == "" then s.(signalType := m.defaultSignalType) else s
  }

  function Labels(raw: Payload): map<string, string> {
    map k | k in raw && StringVal(raw[k]) != "" :: StringVal(raw[k])
  }

  // ----- the title -----

  function Replacements(f: Fields): map<string, string> {
    map["$service" := f.service, "$resource" := f.resource, "$environment" := f.environment,
        "$severity" := f.severity, "$signal_type" := f.signalType, "$title" := f.title,
        "$message" := f.message, "$external_id" := f.externalID]
  }

  function RawTokens(raw: Payload): set<string> { set k | k in raw :: "$" + k }

  function RawReplacements(raw: Payload): (r: map<string, string>)
    ensures forall k :: k in raw ==> "$" + k in r && r["$" + k] == StringVal(raw[k])
  {
    var r := map t | t in RawTokens(raw) :: StringVal(raw[t[1..]]);
    assert forall k :: k in raw ==> "$" + k in r && r["$" + k] == StringVal(raw[k]) by {
      forall k | k in raw
        ensures "$" + k in r && r["$" + k] == StringVal(raw[k])
      {
        assert ("$" + k)[1..] == k;
      }
    }
    r
  }

  lemma {:induction false} ChainOneMore(s: string, order: seq<string>, t: string, env: map<string, string>)
    requires t in env && forall x :: x in order ==> x in env
    ensures Chain(s, order + [t], env) == ReplaceAll(Chain(s, order, env), t, env[t])
    decreases |order|
  {
    if order == [] {
      assert ([] + [t])[1..] == [] && ([] + [t])[0] == t;
      assert Chain(s, [] + [t], env) == Chain(ReplaceAll(s, t, env[t]), [], env);
    } else {
      assert (order + [t])[1..] == order[1..] + [t];
      ChainOneMore(ReplaceAll(s, order[0], env[order[0]]), order[1..], t, env);
    }
  }

  // The keys of `env`, gone through in this order, turn `s` into `result`.
  ghost predicate IsChain(s: string, order: seq<string>, env: map<string, string>, result: string) {
    && Lists(order, env.Keys) && (forall t :: t in order ==> t in env)
    && result == Chain(s, order, env)
  }

  // One of the two replacement loops, in an order the map picks; a token that
  // does not occur may be skipped.
  method ReplaceEach(s: string, env: map<string, string>) returns (result: string)
    ensures exists order :: IsChain(s, order, env, result)
  {
    result := s;
    ghost var order: seq<string> := [];
    var todo := env.Keys;
    while todo != {}
      invariant todo <= env.Keys && Lists(order, env.Keys - todo)
      invariant forall t :: t in order ==> t in env
      invariant result == Chain(s, order, env)
      decreases todo
    {
      var t :| t in todo;
      ListsOneMore(order, env.Keys - todo, t);
      ChainOneMore(s, order, t, env);
      assert env.Keys - (todo - {t}) == env.Keys - todo + {t};
      todo := todo - {t};
      if Index(result, t) >= 0 {
        result := ReplaceAll(result, t, env[t]);
      } else {
        ReplaceAllAbsent(result, t, env[t]);
      }
      order := order + [t];
    }
    assert env.Keys - todo == env.Keys;
    assert IsChain(s, order, env, result);
  }

  method ApplyTitleTemplate(tmpl: string, f: Fields, raw: Payload)
    returns (result: string)
    ensures IsTitle(tmpl, f, raw, result)
  {
    var first := ReplaceEach(tmpl, Replacements(f));
    result := ReplaceEach(first, RawReplacements(raw));
  }

  // A possible title: the canonical tokens replaced in some order, then the
  // payload's in some order.
  ghost predicate IsTitle(tmpl: string, f: Fields, raw: Payload, title: string) {
    exists first, order1, order2 ::
      IsChain(tmpl, order1, Replacements(f), first) && IsChain(first, order2, RawReplacements(raw), title)
  }

  method MapFields(m: Mapping, raw: Payload, parse: string -> Option<string>, f: Fields)
    returns (r: Fields)
    ensures exists order :: IsFold(m, raw, parse, f, order, r)
  {
    r := f;
    ghost var order: seq<string> := [];
    var todo := m.fieldMap.Keys;
    while todo != {}
      invariant todo <= m.fieldMap.Keys && Lists(order, m.fieldMap.Keys - todo)
      invariant forall src :: src in order ==> src in m.fieldMap
      invariant r == FieldFold(m, raw, parse, f, order)
      decreases todo
    {
      var src :| src in todo;
      ListsOneMore(order, m.fieldMap.Keys - todo, src);
      FoldOneMore(m, raw, parse, f, order, src);
      assert m.fieldMap.Keys - (todo - {src}) == m.fieldMap.Keys - todo + {src};
      todo := todo - {src};
      r := PutEntry(r, Writes(m, raw, parse, src));
      order := order + [src];
    }
    assert m.fieldMap.Keys - todo == m.fieldMap.Keys;
    assert IsFold(m, raw, parse, f, order, r);
  }

  // The entries of the field map, gone through in this order, turn `f` into `r`.
  ghost predicate IsFold(
    m: Mapping, raw: Payload, parse: string -> Option<string>, f: Fields, order: seq<string>, r: Fields)
  {
    && Lists(order, m.fieldMap.Keys) && (forall src :: src in order ==> src in m.fieldMap)
    && r == FieldFold(m, raw, parse, f, order)
  }

  lemma {:induction false} FoldOneMore(
      m: Mapping, raw: Payload, parse: string -> Option<string>, f: Fields, order: seq<string>, src: string)
    requires src in m.fieldMap && forall x :: x in order ==> x in m.fieldMap
    ensures FieldFold(m, raw, parse, f, order + [src])
         == PutEntry(FieldFold(m, raw, parse, f, order), Writes(m, raw, parse, src))
    decreases |order|
  {
    hide Writes, PutEntry;
    if order == [] {
      assert ([] + [src])[1..] == [] && ([] + [src])[0] == src;
      assert FieldFold(m, raw, parse, f, [] + [src]) == FieldFold(m, raw, parse, PutEntry(f, Writes(m, raw, parse, src)), []);
    } else {
      assert (order + [src])[1..] == order[1..] + [src];
      FoldOneMore(m, raw, parse, PutEntry(f, Writes(m, raw, parse, order[0])), order[1..], src);
    }
  }

  const BLANK := Fields("", "", "", "", "", "", "", "", "")

  // The fields as they can be when the title is made.
  ghost predicate Resolved(m: Mapping, raw: Payload, parse: string -> Option<string>, now: string, f: Fields) {
    exists order, g :: IsFold(m, raw, parse, BLANK.(timestamp := now), order, g) && f == Finish(m, g)
  }

  // A possible outcome of Map: for some order of the field map and some orders
  // of the two replacement loops.
  ghost predicate Outcome(m: Mapping, raw: Payload, parse: string -> Option<string>, now: string, ie: Event) {
    && ie.labels == Labels(raw)
    && exists f :: Resolved(m, raw, parse, now, f) && WithTitle(m, raw, f, ie.fields)
  }

  ghost predicate WithTitle(m: Mapping, raw: Payload, f: Fields, r: Fields) {
    if m.titleTemplate == "" then r == f
    else r == f.(title := r.title) && IsTitle(m.titleTemplate, f, raw, r.title)
  }

  method Map(m: Mapping, raw: Payload, parse: string -> Option<string>, now: string) returns (ie: Event)
    ensures Outcome(m, raw, parse, now, ie)
  {
    var g := MapFields(m, raw, parse, BLANK.(timestamp := now));
    var f := Finish(m, g);
    assert Resolved(m, raw, parse, now, f);
    var r := f;
    if m.titleTemplate != "" {
      var title := ApplyTitleTemplate(m.titleTemplate, f, raw);
      r := f.(title := title);
    }
    ie := Event(r, Labels(raw));
    hide Resolved, IsTitle, Finish, Labels;
    assert WithTitle(m, raw, f, r);
  }

  // Severity and signal type end empty only when their defaults are; a severity
  // the map knows is replaced, and no other field is touched.
  lemma FinishFills(m: Mapping, f: Fields)
    ensures var r := Finish(m, f);
            && (r.severity == "" ==> m.defaultSeverity == "")
            && (r.signalType == if f.signalType == "" then m.defaultSignalType else f.signalType)
            && (f.severity != "" && ToLower(f.severity) in m.severityMap && m.severityMap[ToLower(f.severity)] != "" ==>
                  r.severity == m.severityMap[ToLower(f.severity)])
            && (f.severity != "" && ToLower(f.severity) !in m.severityMap ==> r.severity == f.severity)
            && r == f.(severity := r.severity, signalType := r.signalType)
  {
  }

  // Whatever the orders and the title, an event leaves Map without severity or
  // signal type only when that default is empty, and its severity is the
  // default, an entry of the severity map or a severity the map does not know.
  lemma EventIsFilled(m: Mapping, raw: Payload, parse: string -> Option<string>, now: string, ie: Event)
    requires Outcome(m, raw, parse, now, ie)
    ensures ie.fields.severity == "" ==> m.defaultSeverity == ""
    ensures ie.fields.signalType == "" ==> m.defaultSignalType == ""
    ensures var s := ie.fields.severity;
            s == m.defaultSeverity || s in m.severityMap.Values || ToLower(s) !in m.severityMap
  {
    hide IsFold, IsTitle, Labels, Finish;
    var f :| Resolved(m, raw, parse, now, f) && WithTitle(m, raw, f, ie.fields);
    var order, g :| IsFold(m, raw, parse, BLANK.(timestamp := now), order, g) && f == Finish(m, g);
    FinishFills(m, g);
    assert ToLower(g.severity) in m.severityMap ==> m.severityMap[ToLower(g.severity)] in m.severityMap.Values;
    SeverityOf(m, g);
  }

  lemma SeverityOf(m: Mapping, f: Fields)
    ensures var k, s := ToLower(f.severity), Finish(m, f).severity;
            if f.severity != "" && k !in m.severityMap then s == f.severity
            else s == m.defaultSeverity || (k in m.severityMap && s == m.severityMap[k])
  {
  }

  // ----- when the field map's order does not matter -----

  // Entries that write the same field write the same value.
  ghost predicate WritersAgree(m: Mapping, raw: Payload, parse: string -> Option<string>) {
    forall a, b :: a in m.fieldMap && b in m.fieldMap ==>
      var x, y := Writes(m, raw, parse, a), Writes(m, raw, parse, b);
      x.Some? && y.Some? && x.value.0 == y.value.0 ==> x.value.1 == y.value.1
  }

  ghost predicate WrittenBy(
    m: Mapping, raw: Payload, parse: string -> Option<string>, order: seq<string>, dst: string, v: string)
  {
    exists src :: src in order && src in m.fieldMap && Writes(m, raw, parse, src) == Some((dst, v))
  }

  // A field ends with a value written by one of the entries gone through, or
  // keeps what it had when none of them writes it.
  lemma {:induction false} FoldValue(
      m: Mapping, raw: Payload, parse: string -> Option<string>, f: Fields, order: seq<string>, dst: string)
    requires dst in DESTINATIONS && forall src :: src in order ==> src in m.fieldMap
    ensures var v := Get(FieldFold(m, raw, parse, f, order), dst);
            WrittenBy(m, raw, parse, order, dst, v)
            || (v == Get(f, dst) && forall w :: !WrittenBy(m, raw, parse, order, dst, w))
    decreases |order|
  {
    hide Writes, Get;
    if order != [] {
      var src := order[0];
      var w, rest := Writes(m, raw, parse, src), order[1..];
      var g := PutEntry(f, w);
      FoldValue(m, raw, parse, g, rest, dst);
      assert order == [src] + rest;
      var v := Get(FieldFold(m, raw, parse, f, order), dst);
      if WrittenBy(m, raw, parse, rest, dst, v) {
        assert WrittenBy(m, raw, parse, order, dst, v);
      } else if w.Some? && w.value.0 == dst {
        assert v == w.value.1 && w == Some((dst, v));
        assert WrittenBy(m, raw, parse, order, dst, v);
      } else {
        forall u
          ensures !WrittenBy(m, raw, parse, order, dst, u)
        {
          assert !WrittenBy(m, raw, parse, rest, dst, u);
        }
      }
    }
  }

  lemma SameFields(f: Fields, g: Fields)
    requires forall d :: d in DESTINATIONS ==> Get(f, d) == Get(g, d)
    ensures f == g
  {
    assert Get(f, "service") == Get(g, "service") && Get(f, "resource") == Get(g, "resource");
    assert Get(f, "environment") == Get(g, "environment") && Get(f, "severity") == Get(g, "severity");
    assert Get(f, "signal_type") == Get(g, "signal_type") && Get(f, "title") == Get(g, "title");
    assert Get(f, "message") == Get(g, "message") && Get(f, "external_id") == Get(g, "external_id");
    assert Get(f, "timestamp") == Get(g, "timestamp");
  }

  ghost predicate OneResult(m: Mapping, raw: Payload, parse: string -> Option<string>, f: Fields) {
    forall xs, ys :: Lists(xs, m.fieldMap.Keys) && Lists(ys, m.fieldMap.Keys) ==> SameFold(m, raw, parse, f, xs, ys)
  }

  ghost predicate SameFold(
    m: Mapping, raw: Payload, parse: string -> Option<string>, f: Fields, xs: seq<string>, ys: seq<string>)
  {
    && (forall src :: src in xs ==> src in m.fieldMap) && (forall src :: src in ys ==> src in m.fieldMap)
    && FieldFold(m, raw, parse, f, xs) == FieldFold(m, raw, parse, f, ys)
  }

  lemma AgreeingWritersCommute(
      m: Mapping, raw: Payload, parse: string -> Option<string>, f: Fields, xs: seq<string>, ys: seq<string>)
    requires WritersAgree(m, raw, parse) && Lists(xs, m.fieldMap.Keys) && Lists(ys, m.fieldMap.Keys)
    ensures SameFold(m, raw, parse, f, xs, ys)
  {
    AllListed(xs, m.fieldMap.Keys);
    AllListed(ys, m.fieldMap.Keys);
    var g, h := FieldFold(m, raw, parse, f, xs), FieldFold(m, raw, parse, f, ys);
    hide Writes, Get, Lists, FieldFold;
    forall d | d in DESTINATIONS
      ensures Get(g, d) == Get(h, d)
    {
      FoldValue(m, raw, parse, f, xs, d);
      FoldValue(m, raw, parse, f, ys, d);
      assert forall w :: WrittenBy(m, raw, parse, xs, d, w) <==> WrittenBy(m, raw, parse, ys, d, w);
    }
    SameFields(g, h);
  }

  // Gone through last, an entry decides its field.
  lemma LastWriterWins(
      m: Mapping, raw: Payload, parse: string -> Option<string>, f: Fields, src: string) returns (order: seq<string>)
    requires src in m.fieldMap && Writes(m, raw, parse, src).Some?
    ensures Lists(order, m.fieldMap.Keys) && forall x :: x in order ==> x in m.fieldMap
    ensures var w := Writes(m, raw, parse, src).value;
            w.0 in DESTINATIONS && Get(FieldFold(m, raw, parse, f, order), w.0) == w.1
  {
    var keys := m.fieldMap.Keys;
    ListingExists(keys - {src});
    var front :| Lists(front, keys - {src});
    ListsOneMore(front, keys - {src}, src);
    assert keys - {src} + {src} == keys;
    order := front + [src];
    AllListed(order, keys);
    FoldOneMore(m, raw, parse, f, front, src);
  }

  // Every order of the field map gives the same fields exactly when the
  // entries that write one field agree on its value.
  lemma OneResultExactlyWhen(m: Mapping, raw: Payload, parse: string -> Option<string>, f: Fields)
    ensures OneResult(m, raw, parse, f) <==> WritersAgree(m, raw, parse)
  {
    hide Writes, Lists, FieldFold, Get, DESTINATIONS;
    if WritersAgree(m, raw, parse) {
      forall xs, ys | Lists(xs, m.fieldMap.Keys) && Lists(ys, m.fieldMap.Keys)
        ensures SameFold(m, raw, parse, f, xs, ys)
      {
        AgreeingWritersCommute(m, raw, parse, f, xs, ys);
      }
    } else {
      var a, b :| a in m.fieldMap && b in m.fieldMap &&
        (var x, y := Writes(m, raw, parse, a), Writes(m, raw, parse, b);
         x.Some? && y.Some? && x.value.0 == y.value.0 && x.value.1 != y.value.1);
      var xs := LastWriterWins(m, raw, parse, f, a);
      var ys := LastWriterWins(m, raw, parse, f, b);
      assert !SameFold(m, raw, parse, f, xs, ys);
    }
  }

  // ----- when the whole event is well defined -----

  lemma NameIsToken(name: string, t: string)
    requires '$' !in name && t == "$" + name
    ensures IsToken(t)
  {
    assert t[1..] == name;
  }

  lemma CanonicalTokens1()
    ensures IsToken("$service") && IsToken("$resource") && IsToken("$severity") && IsToken("$title")
  {
    NameIsToken("service", "$service");
    NameIsToken("resource", "$resource");
    NameIsToken("severity", "$severity");
    NameIsToken("title", "$title");
  }

  lemma CanonicalTokens2()
    ensures IsToken("$environment") && IsToken("$message")
  {
    NameIsToken("environment", "$environment");
    NameIsToken("message", "$message");
  }

  lemma CanonicalTokens3()
    ensures IsToken("$signal_type") && IsToken("$external_id")
  {
    NameIsToken("signal_type", "$signal_type");
    NameIsToken("external_id", "$external_id");
  }

  lemma CanonicalTokens(f: Fields)
    ensures AreTokens(Replacements(f).Keys)
  {
    hide IsToken;
    CanonicalTokens1();
    CanonicalTokens2();
    CanonicalTokens3();
  }

  lemma PayloadMarked(raw: Payload)
    ensures AreMarked(RawReplacements(raw).Keys)
  {
  }

  // What the title needs: a template decided for both loops, and no token in
  // the values of the tokens that occur in it ("cost $5" is fine where there is
  // no payload key "5"). A payload key that holds a '$' must not be one the
  // template can grow into.
  ghost predicate TitleOk(m: Mapping, f: Fields, raw: Payload) {
    var segs, canon, payload := SegmentsOf(m.titleTemplate), Replacements(f), RawReplacements(raw);
    && AllFit(payload.Keys, segs) && BothDecided(segs, canon.Keys, payload.Keys)
    && IsClean(segs, canon, payload, canon.Keys + payload.Keys)
  }

  // When the writers agree and the title can be read in one pass, every run of
  // Map on a payload gives one and the same event, whose title is the
  // simultaneous substitution with canonical fields before payload keys.
  lemma MapIsWellDefined(
      m: Mapping, raw: Payload, parse: string -> Option<string>, now: string, f: Fields, ie: Event)
    requires WritersAgree(m, raw, parse) && Resolved(m, raw, parse, now, f)
    requires m.titleTemplate != "" ==> TitleOk(m, f, raw)
    requires Outcome(m, raw, parse, now, ie)
    ensures ie.labels == Labels(raw)
    ensures m.titleTemplate == "" ==> ie.fields == f
    ensures AreMarked(Replacements(f).Keys) && AreMarked(RawReplacements(raw).Keys)
    ensures m.titleTemplate != "" ==>
              ie.fields == f.(title := OnePass(m.titleTemplate, Replacements(f), RawReplacements(raw)))
  {
    var g :| Resolved(m, raw, parse, now, g) && WithTitle(m, raw, g, ie.fields);
    ResolvedIsUnique(m, raw, parse, now, f, g);
    CanonicalTokens(f);
    PayloadMarked(raw);
    if m.titleTemplate != "" {
      TitleIsOnePass(m, f, raw, ie.fields.title);
    }
  }

  lemma ResolvedIsUnique(
      m: Mapping, raw: Payload, parse: string -> Option<string>, now: string, f: Fields, g: Fields)
    requires WritersAgree(m, raw, parse) && Resolved(m, raw, parse, now, f) && Resolved(m, raw, parse, now, g)
    ensures f == g
  {
    hide Finish, FieldFold, Writes;
    var start := BLANK.(timestamp := now);
    var xs, x :| IsFold(m, raw, parse, start, xs, x) && f == Finish(m, x);
    var ys, y :| IsFold(m, raw, parse, start, ys, y) && g == Finish(m, y);
    AgreeingWritersCommute(m, raw, parse, start, xs, ys);
  }

  lemma TitleIsOnePass(m: Mapping, f: Fields, raw: Payload, title: string)
    requires TitleOk(m, f, raw) && IsTitle(m.titleTemplate, f, raw, title)
    requires AreTokens(Replacements(f).Keys) && AreMarked(Replacements(f).Keys) && AreMarked(RawReplacements(raw).Keys)
    ensures title == OnePass(m.titleTemplate, Replacements(f), RawReplacements(raw))
  {
    var segs := SegmentsOf(m.titleTemplate);
    TokensFit(Replacements(f).Keys, segs);
    hide Replacements, RawReplacements, Chain, OnePass, AreTokens, BothDecided, IsClean, AllFit, SegmentsOf;
    var first, order1, order2 :|
      IsChain(m.titleTemplate, order1, Replacements(f), first) && IsChain(first, order2, RawReplacements(raw), title);
    ChainsAreOnePass(m.titleTemplate, order1, Replacements(f), order2, RawReplacements(raw));
  }

  // ----- a mapping and a payload with two titles -----

  lemma NoHitsDecided(segs: seq<string>, env: map<string, string>)
    requires forall i :: 0 <= i < |segs| ==> !Hits(segs[i], env.Keys)
    ensures Decided(segs, env.Keys) && IsClean(segs, env, map[], env.Keys)
  {
  }

  lemma {:induction false} NothingHit(segs: seq<string>, env: map<string, string>)
    requires forall i :: 0 <= i < |segs| ==> !Hits(segs[i], env.Keys)
    ensures Subst(segs, env, map[]) == Parts("", segs)
    decreases |segs|
  {
    if segs != [] {
      assert forall i :: 0 <= i < |segs| - 1 ==> segs[1..][i] == segs[i + 1];
      NothingHit(segs[1..], env);
      assert !Hits(segs[0], {});
      assert segs[0] + "" == segs[0] && [segs[0]] + segs[1..] == segs;
    }
  }

  lemma CanonicalAreLong(f: Fields, g: string)
    requires |g| <= 5
    ensures !Hits(g, Replacements(f).Keys)
  {
  }

  // Canonical tokens are longer than these segments, so the first loop leaves
  // such a template alone.
  lemma CanonicalPass(segs: seq<string>, f: Fields) returns (order: seq<string>)
    requires AreSegments(segs) && forall i :: 0 <= i < |segs| ==> |segs[i]| <= 5
    ensures IsChain(TextOf("", Parts("", segs)), order, Replacements(f), TextOf("", Parts("", segs)))
  {
    hide *;
    CanonicalTokens(f);
    forall i | 0 <= i < |segs|
      ensures !Hits(segs[i], Replacements(f).Keys)
    {
      CanonicalAreLong(f, segs[i]);
    }
    order := LeavesAlone(segs, Replacements(f));
  }

  lemma LeavesAlone(segs: seq<string>, env: map<string, string>) returns (order: seq<string>)
    requires AreSegments(segs) && AreTokens(env.Keys) && forall i :: 0 <= i < |segs| ==> !Hits(segs[i], env.Keys)
    ensures IsChain(TextOf("", Parts("", segs)), order, env, TextOf("", Parts("", segs)))
  {
    ListingExists(env.Keys);
    order :| Lists(order, env.Keys);
    AllListed(order, env.Keys);
    TokensFit(env.Keys, segs);
    hide Lists, AreTokens, AreSegments, Hits;
    NoHitsDecided(segs, env);
    NothingHit(segs, env);
    NoDollarIsInert("", env.Keys);
    SegmentsAreOpen(segs, env.Keys);
    LoopIsSubst("", segs, order, env);
  }

  // A title by the canonical loop passing and the raw one in the order `ys`.
  lemma TitleByPlay(segs: seq<string>, f: Fields, raw: Payload, ys: seq<string>, title: string)
    requires AreSegments(segs) && forall i :: 0 <= i < |segs| ==> |segs[i]| <= 5
    requires AreTokens(RawReplacements(raw).Keys) && NoDollar(RawReplacements(raw)) && Lists(ys, RawReplacements(raw).Keys)
    requires forall t :: t in ys ==> t in RawReplacements(raw)
    requires Play(Parts("", segs), ys, RawReplacements(raw)) == Parts(title, [])
    ensures IsTitle(TextOf("", Parts("", segs)), f, raw, title)
  {
    var p, env := Parts("", segs), RawReplacements(raw);
    assert AreParts(p);
    hide *;
    var order := CanonicalPass(segs, f);
    PlayIsChain("", p, ys, env);
    LeadOnly(title);
    TitleFrom(TextOf("", p), f, raw, order, ys, title);
  }

  lemma LeadOnly(x: string)
    ensures TextOf("", Parts(x, [])) == x
  {
  }

  lemma TitleFrom(tmpl: string, f: Fields, raw: Payload, order: seq<string>, ys: seq<string>, title: string)
    requires IsChain(tmpl, order, Replacements(f), tmpl) && Lists(ys, RawReplacements(raw).Keys)
    requires (forall t :: t in ys ==> t in RawReplacements(raw)) && Chain(tmpl, ys, RawReplacements(raw)) == title
    ensures IsTitle(tmpl, f, raw, title)
  {
    assert IsChain(tmpl, ys, RawReplacements(raw), title);
  }

  // "$host" may be read as "$hostname" once the next token stands for "name".
  const GROWING := ["$host", "$x"]

  function GrowingPayload(a: string, b: string): Payload {
    map["host" := Str(a), "hostname" := Str(b), "x" := Str("name")]
  }

  lemma GrowingTokens(a: string, b: string)
    ensures RawReplacements(GrowingPayload(a, b)) == map["$host" := a, "$hostname" := b, "$x" := "name"]
  {
    var raw := GrowingPayload(a, b);
    assert "$" + "host" == "$host" && "$" + "hostname" == "$hostname" && "$" + "x" == "$x";
    assert RawTokens(raw) == {"$host", "$hostname", "$x"};
  }

  lemma GrowingIsTokens()
    ensures AreSegments(GROWING) && IsToken("$host") && IsToken("$hostname") && IsToken("$x")
    ensures !("$x" <= "$host") && !("$hostname" <= "$host") && !("$host" <= "$x") && "$host" + "name" == "$hostname"
  {
    NameIsToken("host", "$host");
    NameIsToken("hostname", "$hostname");
    NameIsToken("x", "$x");
    assert "$x"[1] != "$host"[1];
  }

  lemma GrowingText()
    ensures TextOf("", Parts("", GROWING)) == "$host$x"
  {
    assert GROWING[1..] == ["$x"] && ["$x"][1..] == [];
    assert Flat([]) == "" && Flat(["$x"]) == "$x" + "" == "$x";
  }

  lemma GrowingOrders(a: string, b: string, x: string)
    ensures var env := map["$host" := a, "$hostname" := b, "$x" := x];
            Lists(["$host", "$x", "$hostname"], env.Keys) && Lists(["$x", "$hostname", "$host"], env.Keys)
  {
    assert |"$host"| == 5 && |"$x"| == 2 && |"$hostname"| == 9;
  }

  // Values without '$', one mapping, one payload, and two titles.
  lemma TitleDependsOnOrder(f: Fields, a: string, b: string)
    requires '$' !in a && '$' !in b
    ensures IsTitle("$host$x", f, GrowingPayload(a, b), a + "name") && IsTitle("$host$x", f, GrowingPayload(a, b), b)
  {
    hide *;
    var xs, ys := ["$host", "$x", "$hostname"], ["$x", "$hostname", "$host"];
    GrowingText();
    GrowingFacts(a, b);
    GrowingTokens(a, b);
    GrowingOrders(a, b, "name");
    HostFirst(a, b);
    HostLast(a, b);
    TitleByPlay(GROWING, f, GrowingPayload(a, b), xs, a + "name");
    TitleByPlay(GROWING, f, GrowingPayload(a, b), ys, b);
  }

  lemma GrowingFacts(a: string, b: string)
    requires '$' !in a && '$' !in b
    ensures AreSegments(GROWING) && forall i :: 0 <= i < |GROWING| ==> |GROWING[i]| <= 5
    ensures var env := map["$host" := a, "$hostname" := b, "$x" := "name"]; AreTokens(env.Keys) && NoDollar(env)
  {
    GrowingIsTokens();
    hide IsToken;
    assert |"$host"| == 5 && |"$x"| == 2;
  }

  lemma HostFirst(a: string, b: string)
    ensures var env := map["$host" := a, "$hostname" := b, "$x" := "name"];
            Play(Parts("", GROWING), ["$host", "$x", "$hostname"], env) == Parts(a + "name", [])
  {
    GrowingIsTokens();
    assert GROWING[1..] == ["$x"];
    assert ["$x"][1..] == [] && "$x" + "" == "$x" && ["$x"] + [] == ["$x"];
    assert Swap(["$x"], "$host", a) == Parts("", ["$x"]);
    assert a + "" + "" == a && Swap(GROWING, "$host", a) == Parts(a, ["$x"]);
    assert Swap(["$x"], "$x", "name") == Parts("name", []);
  }

  lemma HostLast(a: string, b: string)
    ensures var env := map["$host" := a, "$hostname" := b, "$x" := "name"];
            Play(Parts("", GROWING), ["$x", "$hostname", "$host"], env) == Parts(b, [])
  {
    GrowingIsTokens();
    assert GROWING[1..] == ["$x"];
    assert Swap(["$x"], "$x", "name") == Parts("name", []);
    var g := GROWING[0];
    assert !("$x" <= g) && Swap(GROWING[1..], "$x", "name").lead == "name" && Swap(GROWING[1..], "$x", "name").segs == [];
    assert Swap(GROWING, "$x", "name") == Parts("", [g + "name"] + []);
    assert [g + "name"] + [] == ["$hostname"];
    assert Swap(["$hostname"], "$hostname", b) == Parts(b, []);
  }

  // So do values with a '$' in them: "$a" standing for "$b".
  function DollarPayload(v: string): Payload { map["a" := Str("$b"), "b" := Str(v)] }

  lemma DollarTokens(v: string)
    ensures RawReplacements(DollarPayload(v)) == map["$a" := "$b", "$b" := v]
    ensures IsToken("$a") && IsToken("$b") && !("$a" <= "$b") && !("$b" <= "$a")
  {
    assert "$" + "a" == "$a" && "$" + "b" == "$b";
    assert RawTokens(DollarPayload(v)) == {"$a", "$b"};
    NameIsToken("a", "$a");
    NameIsToken("b", "$b");
    assert "$a"[1] != "$b"[1];
  }

  lemma ReplaceAlone(g: string, t: string, v: string)
    requires IsToken(g) && IsToken(t)
    ensures ReplaceAll(g, t, v) == if t <= g then v + g[|t|..] else g
  {
    var p := Parts("", [g]);
    assert Flat([g][1..]) == "" && TextOf("", p) == g;
    assert Fits(t, p.segs);
    ReplaceInParts("", p, t, v);
    assert Swap([g][1..], t, v) == Parts("", []);
    if t <= g {
      assert Then(p, t, v) == Parts(v + g[|t|..], []);
    } else {
      assert g + "" == g && Then(p, t, v) == p;
    }
  }

  lemma TwoInChain(s: string, t: string, u: string, env: map<string, string>)
    requires t in env && u in env
    ensures Chain(s, [t, u], env) == ReplaceAll(ReplaceAll(s, t, env[t]), u, env[u])
  {
    var x := ReplaceAll(s, t, env[t]);
    assert [t, u][1..] == [u] && [u][1..] == [];
    assert Chain(s, [t, u], env) == Chain(x, [u], env) == Chain(ReplaceAll(x, u, env[u]), [], env);
  }

  lemma DollarText()
    ensures TextOf("", Parts("", ["$a"])) == "$a"
  {
    assert ["$a"][1..] == [] && Flat([]) == "" && Flat(["$a"]) == "$a" + "" == "$a";
  }

  lemma DollarOrders(v: string)
    ensures var env := map["$a" := "$b", "$b" := v];
            Lists(["$a", "$b"], env.Keys) && Lists(["$b", "$a"], env.Keys)
  {
    assert "$a"[1] != "$b"[1];
  }

  lemma DollarInValueMatters(f: Fields, v: string)
    ensures IsTitle("$a", f, DollarPayload(v), "$b") && IsTitle("$a", f, DollarPayload(v), v)
  {
    var a, b, raw := "$a", "$b", DollarPayload(v);
    var env := map[a := b, b := v];
    DollarTokens(v);
    DollarText();
    DollarOrders(v);
    var order := CanonicalPass([a], f);
    DollarChains(a, b, v);
    TitleFrom(a, f, raw, order, [b, a], b);
    TitleFrom(a, f, raw, order, [a, b], v);
  }

  lemma DollarChains(a: string, b: string, v: string)
    requires IsToken(a) && IsToken(b) && !(a <= b) && !(b <= a)
    ensures var env := map[a := b, b := v]; Chain(a, [b, a], env) == b && Chain(a, [a, b], env) == v
  {
    var env := map[a := b, b := v];
    assert a != b && env[a] == b && env[b] == v && b + "" == b && v + "" == v;
    hide *;
    TwoInChain(a, a, b, env);
    TwoInChain(a, b, a, env);
    ReplaceAlone(a, a, b);
    ReplaceAlone(a, b, v);
    ReplaceAlone(b, b, v);
  }
}
