// ingest.applyTitleTemplate: "$name" tokens replaced one after another with
// strings.ReplaceAll, in whatever order Go walks the two maps.
module Template {
  import opened Text

  // strings.ReplaceAll; an empty `sub` is found around every character
  function ReplaceAll(s: string, sub: string, with: string): string
    decreases |s|
  {
    if sub == "" then with + (if s == "" then "" else [s[0]] + ReplaceAll(s[1..], sub, with))
    else if sub <= s then with + ReplaceAll(s[|sub|..], sub, with)
    else if s == "" then ""
    else [s[0]] + ReplaceAll(s[1..], sub, with)
  }

  lemma {:induction false} ReplaceAllAbsent(s: string, sub: string, with: string)
    requires Index(s, sub) < 0
    ensures ReplaceAll(s, sub, with) == s
    decreases |s|
  {
    assert s[0..] == s;
    if s != "" {
      assert forall j :: 1 <= j <= |s| ==> s[j..] == s[1..][j - 1..];
      ReplaceAllAbsent(s[1..], sub, with);
      assert s == [s[0]] + s[1..];
    }
  }

  // '$' and any name, as the replacement loops build it.
  predicate IsMarked(t: string) { t != "" && t[0] == '$' }

  // '$' and a name without another '$'.
  predicate IsToken(t: string) { IsMarked(t) && '$' !in t[1..] }

  ghost predicate AreMarked(tokens: set<string>) { forall t :: t in tokens ==> IsMarked(t) }

  ghost predicate AreTokens(tokens: set<string>) { forall t :: t in tokens ==> IsToken(t) }

  predicate NoDollar(env: map<string, string>) { forall t :: t in env ==> '$' !in env[t] }

  // ----- one replacement after another -----

  function Chain(s: string, order: seq<string>, env: map<string, string>): string
    requires forall t :: t in order ==> t in env
    decreases |order|
  {
    if order == [] then s else Chain(ReplaceAll(s, order[0], env[order[0]]), order[1..], env)
  }

  // An order in which a map may be walked.
  ghost predicate Lists(order: seq<string>, keys: set<string>) {
    (set x | x in order) == keys && forall i, j :: 0 <= i < j < |order| ==> order[i] != order[j]
  }

  lemma ListedKeys(order: seq<string>, keys: set<string>, x: string)
    requires Lists(order, keys)
    ensures x in order <==> x in keys
  {
    assert x in order <==> x in (set y | y in order);
  }

  lemma AllListed(order: seq<string>, keys: set<string>)
    requires Lists(order, keys)
    ensures forall x :: x in order <==> x in keys
  {
    forall x
      ensures x in order <==> x in keys
    {
      ListedKeys(order, keys, x);
    }
  }

  lemma ListsOneMore(order: seq<string>, keys: set<string>, k: string)
    requires Lists(order, keys) && k !in keys
    ensures Lists(order + [k], keys + {k})
    ensures Lists([k] + order, keys + {k})
  {
    assert forall i :: 0 <= i < |order| ==> order[i] in (set x | x in order);
  }

  lemma {:induction false} ListingExists(keys: set<string>)
    ensures exists order :: Lists(order, keys)
    decreases keys
  {
    if keys == {} {
      assert Lists([], keys);
    } else {
      var k :| k in keys;
      ListingExists(keys - {k});
      var order :| Lists(order, keys - {k});
      ListsOneMore(order, keys - {k}, k);
      assert keys - {k} + {k} == keys;
    }
  }

  // ----- all at once -----

  ghost predicate Hits(s: string, tokens: set<string>) { exists t :: t in tokens && t <= s }

  ghost function TokenOf(s: string, env: map<string, string>): (r: Option<string>)
    ensures r.Some? <==> Hits(s, env.Keys)
    ensures r.Some? ==> r.value in env && r.value <= s
  {
    if Hits(s, env.Keys) then
      var t :| t in env.Keys && t <= s;
      Some(t)
    else None
  }

  // At each '$' that begins a canonical token, or else a raw one, the token is
  // replaced; what is put in is not looked at again.
  ghost function OnePass(s: string, canon: map<string, string>, raw: map<string, string>): string
    requires AreMarked(canon.Keys) && AreMarked(raw.Keys)
    decreases |s|
  {
    if s == "" then ""
    else
      var t, u := TokenOf(s, canon), TokenOf(s, raw);
      if t.Some? then canon[t.value] + OnePass(s[|t.value|..], canon, raw)
      else if u.Some? then raw[u.value] + OnePass(s[|u.value|..], canon, raw)
      else [s[0]] + OnePass(s[1..], canon, raw)
  }

  // ----- a text as segments, each from one '$' to the next -----

  // Text up to the next '$'.
  function Literal(s: string): (r: string)
    ensures r <= s && '$' !in r
    ensures |r| < |s| ==> s[|r|] == '$'
  {
    var i := IndexByte(s, '$');
    if i < 0 then s else s[..i]
  }

  // From a '$' up to the next one.
  function Segment(s: string): (r: string)
    requires s != ""
    ensures r <= s && r != ""
    ensures |r| < |s| ==> s[|r|] == '$'
    ensures IsMarked(s) ==> IsToken(r)
  {
    var lit := Literal(s[1..]);
    var r := s[..1 + |lit|];
    assert r[1..] == lit;
    r
  }

  function Segments(s: string): seq<string>
    requires s == "" || s[0] == '$'
    decreases |s|
  {
    if s == "" then [] else [Segment(s)] + Segments(s[|Segment(s)|..])
  }

  function SegmentsOf(tmpl: string): seq<string> { Segments(tmpl[|Literal(tmpl)|..]) }

  ghost predicate AreSegments(segs: seq<string>) { forall i :: 0 <= i < |segs| ==> IsToken(segs[i]) }

  function Flat(segs: seq<string>): (r: string)
  {
    if segs == [] then "" else segs[0] + Flat(segs[1..])
  }

  lemma ConsFlat(g: string, segs: seq<string>)
    ensures Flat([g] + segs) == g + Flat(segs)
    ensures AreSegments([g] + segs) <==> IsToken(g) && AreSegments(segs)
  {
    assert ([g] + segs)[1..] == segs;
    assert forall i :: 0 <= i < |segs| ==> ([g] + segs)[i + 1] == segs[i];
  }

  lemma ConsSegments(s: string)
    requires s != "" && s[0] == '$'
    ensures var g, rest := Segment(s), s[|Segment(s)|..];
            && s == g + rest && |rest| < |s| && IsToken(g) && (rest == "" || rest[0] == '$')
            && Segments(s) == [g] + Segments(rest)
  {
  }

  lemma {:induction false} SegmentsAreFlat(s: string)
    requires s == "" || s[0] == '$'
    ensures AreSegments(Segments(s)) && Flat(Segments(s)) == s
    decreases |s|
  {
    if s != "" {
      ConsSegments(s);
      hide Segment, Segments, AreSegments, Flat;
      var g, rest := Segment(s), s[|Segment(s)|..];
      SegmentsAreFlat(rest);
      ConsFlat(g, Segments(rest));
    }
  }

  lemma FlatStart(segs: seq<string>)
    requires AreSegments(segs)
    ensures Flat(segs) == "" || Flat(segs)[0] == '$'
  {
    if segs != [] {
      assert IsToken(segs[0]);
    }
  }

  // Where a text without '$' ends, and a token.
  lemma LiteralOf(head: string, rest: string)
    requires '$' !in head && (rest == "" || rest[0] == '$')
    ensures Literal(head + rest) == head
  {
    var s := head + rest;
    assert forall j :: 0 <= j < |head| ==> s[j] == head[j] && head[j] in head;
    if rest == "" {
      assert s == head;
    } else {
      assert s[|head|] == '$';
      assert forall j :: |head| < j <= |s| ==> s[..j][|head|] == '$';
      assert s[..|head|] == head;
    }
  }

  lemma SegmentOf(g: string, rest: string)
    requires IsToken(g) && (rest == "" || rest[0] == '$')
    ensures Segment(g + rest) == g
  {
    var s := g + rest;
    LiteralOf(g[1..], rest);
    assert s[1..] == g[1..] + rest;
    assert s[..|g|] == g;
  }

  lemma {:induction false} FlatIsCut(segs: seq<string>)
    requires AreSegments(segs)
    ensures (Flat(segs) == "" || Flat(segs)[0] == '$') && Segments(Flat(segs)) == segs
    decreases |segs|
  {
    FlatStart(segs);
    if segs != [] {
      var g, rest := segs[0], Flat(segs[1..]);
      assert IsToken(g);
      FlatIsCut(segs[1..]);
      SegmentOf(g, rest);
      ConsSegments(g + rest);
      hide Segment, Segments, IsToken;
      assert (g + rest)[|g|..] == rest;
    }
  }

  // ----- a text that is partly replaced -----

  // Text without '$', and the segments still there.
  datatype Parts = Parts(lead: string, segs: seq<string>)

  function TextOf(head: string, p: Parts): string { head + p.lead + Flat(p.segs) }

  ghost predicate AreParts(p: Parts) { '$' !in p.lead && AreSegments(p.segs) }

  lemma Concat3(a: string, b: string, c: string)
    ensures (a + b) + c == a + (b + c)
  {
  }

  lemma TextOfParts(head: string, p: Parts)
    ensures TextOf(head, p) == head + (p.lead + Flat(p.segs)) == head + TextOf("", p)
    ensures TextOf(head, p) == (head + p.lead) + Flat(p.segs)
  {
    hide Flat;
    Concat3(head, p.lead, Flat(p.segs));
    assert "" + p.lead == p.lead;
  }

  lemma BodyOf(tmpl: string) returns (body: string)
    ensures tmpl == Literal(tmpl) + body && (body == "" || body[0] == '$') && SegmentsOf(tmpl) == Segments(body)
  {
    hide Segments;
    body := tmpl[|Literal(tmpl)|..];
  }

  lemma PartsOf(tmpl: string) returns (head: string, p: Parts)
    ensures '$' !in head && AreParts(p) && p == Parts("", SegmentsOf(tmpl)) && tmpl == TextOf(head, p)
  {
    var body := BodyOf(tmpl);
    head, p := Literal(tmpl), Parts("", SegmentsOf(tmpl));
    hide Literal, SegmentsOf, Segments, Flat, TextOf, AreSegments;
    SegmentsAreFlat(body);
    TextOfParts(head, p);
    NoLead(body);
  }

  lemma SegmentsOfText(head: string, p: Parts)
    requires '$' !in head && AreParts(p)
    ensures SegmentsOf(TextOf(head, p)) == p.segs
  {
    FlatIsCut(p.segs);
    LiteralOf(head + p.lead, Flat(p.segs));
    assert TextOf(head, p)[|head + p.lead|..] == Flat(p.segs);
  }

  // One token replaced in every segment that begins with it; what is put in and
  // the rest of the segment join the text before.
  function Swap(segs: seq<string>, t: string, v: string): Parts {
    if segs == [] then Parts("", [])
    else
      var p := Swap(segs[1..], t, v);
      if t <= segs[0] then Parts(v + segs[0][|t|..] + p.lead, p.segs)
      else Parts("", [segs[0] + p.lead] + p.segs)
  }

  function Then(p: Parts, t: string, v: string): Parts {
    var q := Swap(p.segs, t, v);
    Parts(p.lead + q.lead, q.segs)
  }

  // All tokens at once, each segment looked at as it was in the beginning.
  ghost function Subst(segs: seq<string>, canon: map<string, string>, raw: map<string, string>): Parts {
    if segs == [] then Parts("", [])
    else
      var p := Subst(segs[1..], canon, raw);
      var x := Replaced(segs[0], canon, raw);
      if x.Some? then Parts(x.value + p.lead, p.segs) else Parts("", [segs[0] + p.lead] + p.segs)
  }

  ghost function Replaced(g: string, canon: map<string, string>, raw: map<string, string>): Option<string> {
    var t, u := TokenOf(g, canon), TokenOf(g, raw);
    if t.Some? then Some(canon[t.value] + g[|t.value|..])
    else if u.Some? then Some(raw[u.value] + g[|u.value|..])
    else None
  }

  // No segment can grow into the start of this name, which holds a '$' itself.
  ghost predicate IsAbsent(t: string, segs: seq<string>)
    requires t != ""
  {
    forall i :: 0 <= i < |segs| ==> segs[i] != "" && !(Segment(segs[i]) <= Segment(t))
  }

  ghost predicate Fits(t: string, segs: seq<string>) { IsMarked(t) && (IsToken(t) || IsAbsent(t, segs)) }

  ghost predicate AllFit(tokens: set<string>, segs: seq<string>) { forall t :: t in tokens ==> Fits(t, segs) }

  // ----- text that no token is found in -----

  // At no '$' in `x` the token is found, whatever follows `x`.
  predicate IsInert(x: string, t: string) {
    forall i :: 0 <= i < |x| && x[i] == '$' ==> !(t <= x[i..]) && !(x[i..] <= t)
  }

  ghost predicate AllInert(x: string, tokens: set<string>) { forall t :: t in tokens ==> IsInert(x, t) }

  // Segments that tokens are found at in front only.
  ghost predicate AreOpen(segs: seq<string>, tokens: set<string>) {
    forall i :: 0 <= i < |segs| ==> IsMarked(segs[i]) && AllInert(segs[i][1..], tokens)
  }

  lemma NoDollarIsInert(x: string, tokens: set<string>)
    requires '$' !in x
    ensures AllInert(x, tokens)
  {
  }

  lemma InertConcat(x: string, y: string, t: string)
    requires IsInert(x, t) && IsInert(y, t)
    ensures IsInert(x + y, t)
  {
    var s := x + y;
    forall i | 0 <= i < |s| && s[i] == '$'
      ensures !(t <= s[i..]) && !(s[i..] <= t)
    {
      if i < |x| {
        assert s[i..] == x[i..] + y;
        IncomparableLonger(t, x[i..], y);
      } else {
        assert s[i..] == y[i - |x|..];
      }
    }
  }

  lemma IncomparableLonger(t: string, u: string, y: string)
    requires !(t <= u) && !(u <= t)
    ensures !(t <= u + y) && !(u + y <= t)
  {
    assert u == (u + y)[..|u|];
    ComparablePrefixes(t, u, u + y);
  }

  lemma InertSuffix(x: string, k: nat, t: string)
    requires IsInert(x, t) && k <= |x|
    ensures IsInert(x[k..], t)
  {
    var y := x[k..];
    assert forall i :: 0 <= i < |y| ==> y[i..] == x[k + i..];
  }

  lemma AllInertConcat(x: string, y: string, tokens: set<string>)
    requires AllInert(x, tokens) && AllInert(y, tokens)
    ensures AllInert(x + y, tokens)
  {
    forall t | t in tokens
      ensures IsInert(x + y, t)
    {
      InertConcat(x, y, t);
    }
  }

  lemma AllInertSuffix(x: string, k: nat, tokens: set<string>)
    requires AllInert(x, tokens) && k <= |x|
    ensures AllInert(x[k..], tokens)
  {
    forall t | t in tokens
      ensures IsInert(x[k..], t)
    {
      InertSuffix(x, k, t);
    }
  }

  lemma SegmentsAreOpen(segs: seq<string>, tokens: set<string>)
    requires AreSegments(segs)
    ensures AreOpen(segs, tokens)
  {
    forall i | 0 <= i < |segs|
      ensures IsMarked(segs[i]) && AllInert(segs[i][1..], tokens)
    {
      NoDollarIsInert(segs[i][1..], tokens);
    }
  }

  // ----- one replacement on such a text -----

  lemma ReplaceMiss(c: char, rest: string, t: string, v: string)
    requires t != "" && !(t <= [c] + rest)
    ensures ReplaceAll([c] + rest, t, v) == [c] + ReplaceAll(rest, t, v)
  {
    assert ([c] + rest)[1..] == rest;
  }

  lemma ReplaceHit(t: string, rest: string, v: string)
    requires t != ""
    ensures ReplaceAll(t + rest, t, v) == v + ReplaceAll(rest, t, v)
  {
    assert (t + rest)[|t|..] == rest;
  }

  // Such text is passed over.
  lemma {:induction false} PassesText(x: string, rest: string, t: string, v: string)
    requires IsMarked(t) && IsInert(x, t)
    ensures ReplaceAll(x + rest, t, v) == x + ReplaceAll(rest, t, v)
    decreases |x|
  {
    hide ReplaceAll;
    if x == "" {
      assert x + rest == rest;
    } else {
      var c, y := x[0], x[1..];
      assert x == [c] + y && x[0..] == x;
      assert x + rest == [c] + (y + rest);
      NotFoundInFront(x, rest, t);
      InertSuffix(x, 1, t);
      PassesText(y, rest, t, v);
      ReplaceMiss(c, y + rest, t, v);
      assert x + ReplaceAll(rest, t, v) == [c] + (y + ReplaceAll(rest, t, v));
    }
  }

  lemma NotFoundInFront(x: string, rest: string, t: string)
    requires IsMarked(t) && IsInert(x, t) && x != ""
    ensures !(t <= x + rest)
  {
    if x[0] == '$' {
      assert x[0..] == x;
      IncomparableLonger(t, x, rest);
    }
  }

  // A segment that does not begin with `t` is passed over ...
  lemma PassesSegment(g: string, rest: string, t: string, v: string)
    requires IsMarked(t) && IsMarked(g) && IsInert(g[1..], t) && !(t <= g + rest)
    ensures ReplaceAll(g + rest, t, v) == g + ReplaceAll(rest, t, v)
  {
    hide ReplaceAll;
    var x, r := g[1..], ReplaceAll(rest, t, v);
    assert g == ['$'] + x;
    PassesText(x, rest, t, v);
    assert g + rest == ['$'] + (x + rest);
    ReplaceMiss('$', x + rest, t, v);
    assert g + r == ['$'] + (x + r);
  }

  // ... and one that does is replaced.
  lemma ReplacesSegment(g: string, rest: string, t: string, v: string)
    requires IsMarked(t) && IsMarked(g) && IsInert(g[1..], t) && t <= g
    ensures ReplaceAll(g + rest, t, v) == v + g[|t|..] + ReplaceAll(rest, t, v)
  {
    hide ReplaceAll;
    var tail, r := g[|t|..], ReplaceAll(rest, t, v);
    assert g == t + tail && tail == g[1..][|t| - 1..];
    InertSuffix(g[1..], |t| - 1, t);
    PassesText(tail, rest, t, v);
    ReplaceHit(t, tail + rest, v);
    assert g + rest == t + (tail + rest);
    assert v + tail + r == v + (tail + r);
  }

  lemma PrefixChain(b: string, t: string, s: string)
    requires b <= t
    ensures t <= s ==> b <= s && (|b| < |t| ==> s[|b|] == t[|b|])
  {
  }

  // Two texts whose first segments are not one the start of the other.
  lemma FirstSegmentsDiffer(t: string, s: string, g: string)
    requires IsMarked(t) && !IsToken(t) && IsMarked(g) && g <= s && !(Segment(g) <= Segment(t))
    ensures !(t <= s)
  {
    var a, b := Segment(g), Segment(t);
    hide Segment;
    assert a == s[..|a|];
    assert forall i :: 1 <= i < |a| ==> a[i] == a[1..][i - 1] && a[i] in a[1..];
    assert |b| == |t| ==> b == t;
    PrefixChain(b, t, s);
    ComparablePrefixes(b, a, s);
  }

  lemma TokenEndsInSegment(g: string, rest: string, t: string)
    requires IsMarked(g) && (rest == "" || rest[0] == '$') && IsToken(t)
    ensures t <= g + rest ==> |t| <= |g|
  {
    if |t| > |g| && rest != "" {
      assert t[|g|] == t[1..][|g| - 1] && t[|g|] in t[1..];
      assert (g + rest)[|g|] == rest[0];
    }
  }

  // A token does not reach past the segment it begins in.
  lemma StaysInSegment(g: string, rest: string, t: string)
    requires IsMarked(g) && (rest == "" || rest[0] == '$')
    requires IsMarked(t) && (IsToken(t) || !(Segment(g) <= Segment(t)))
    ensures t <= g + rest <==> t <= g
  {
    hide Segment;
    assert g == (g + rest)[..|g|];
    ComparablePrefixes(t, g, g + rest);
    if IsToken(t) {
      TokenEndsInSegment(g, rest, t);
    } else {
      FirstSegmentsDiffer(t, g + rest, g);
      FirstSegmentsDiffer(t, g, g);
    }
  }

  lemma SwapCons(segs: seq<string>, t: string, v: string)
    requires segs != []
    ensures TextOf("", Swap(segs, t, v)) ==
            (if t <= segs[0] then v + segs[0][|t|..] else segs[0]) + TextOf("", Swap(segs[1..], t, v))
  {
    var g, q, p := segs[0], Swap(segs[1..], t, v), Swap(segs, t, v);
    var x := if t <= g then v + g[|t|..] else g;
    assert p == if t <= g then Parts(x + q.lead, q.segs) else Parts("", [x + q.lead] + q.segs);
    hide *;
    TextOfParts("", p);
    TextOfParts("", q);
    ConsFlat(x + q.lead, q.segs);
    Concat3(x, q.lead, Flat(q.segs));
    NoLead(p.lead + Flat(p.segs));
    NoLead(q.lead + Flat(q.segs));
    NoLead((x + q.lead) + Flat(q.segs));
  }

  lemma NoLead(s: string)
    ensures "" + s == s
  {
  }

  lemma OpenStart(segs: seq<string>, tokens: set<string>)
    requires AreOpen(segs, tokens)
    ensures Flat(segs) == "" || Flat(segs)[0] == '$'
  {
    if segs != [] {
      assert IsMarked(segs[0]);
    }
  }

  lemma {:induction false} ReplaceInSegments(segs: seq<string>, t: string, v: string)
    requires AreOpen(segs, {t}) && Fits(t, segs)
    ensures ReplaceAll(Flat(segs), t, v) == TextOf("", Swap(segs, t, v))
    decreases |segs|
  {
    if segs != [] {
      var g, rest := segs[0], Flat(segs[1..]);
      assert IsMarked(g) && AllInert(g[1..], {t}) && IsInert(g[1..], t);
      assert forall i :: 0 <= i < |segs| - 1 ==> segs[1..][i] == segs[i + 1];
      assert AreOpen(segs[1..], {t}) && Fits(t, segs[1..]);
      OpenStart(segs[1..], {t});
      ReplaceInSegments(segs[1..], t, v);
      SwapCons(segs, t, v);
      StaysInSegment(g, rest, t);
      assert Flat(segs) == g + rest && IsMarked(t);
      hide *;
      if t <= g {
        ReplacesSegment(g, rest, t, v);
      } else {
        PassesSegment(g, rest, t, v);
      }
    }
  }

  lemma ReplaceInOpen(head: string, p: Parts, t: string, v: string)
    requires IsInert(head, t) && IsInert(p.lead, t) && AreOpen(p.segs, {t}) && Fits(t, p.segs)
    ensures ReplaceAll(TextOf(head, p), t, v) == TextOf(head, Then(p, t, v))
  {
    var x, q := head + p.lead, Swap(p.segs, t, v);
    assert IsMarked(t);
    InertConcat(head, p.lead, t);
    ReplaceInSegments(p.segs, t, v);
    assert Then(p, t, v) == Parts(p.lead + q.lead, q.segs);
    hide *;
    PassesText(x, Flat(p.segs), t, v);
    TextOfParts(head, p);
    TextOfParts(head, Then(p, t, v));
    TextOfParts("", q);
    NoLead(q.lead + Flat(q.segs));
    Concat3(head, p.lead, q.lead);
    Concat3(x, q.lead, Flat(q.segs));
  }

  // Replacing all copies of one token touches exactly the segments that begin
  // with it.
  lemma ReplaceInParts(head: string, p: Parts, t: string, v: string)
    requires '$' !in head && AreParts(p) && Fits(t, p.segs)
    ensures ReplaceAll(TextOf(head, p), t, v) == TextOf(head, Then(p, t, v))
  {
    SegmentsAreOpen(p.segs, {t});
    hide AreSegments, AreOpen, Then, TextOf, Fits;
    ReplaceInOpen(head, p, t, v);
  }
}
