// When the replacement loops of a title template amount to one substitution,
// whatever the order of the maps.
module Substitution {
  import opened Text
  import opened Template

  // ----- the condition for one loop -----

  // At most one token is found at the segment's '$'.
  ghost predicate IsUnambiguous(g: string, tokens: set<string>) {
    forall t, u :: t in tokens && u in tokens && t <= g && u <= g ==> t == u
  }

  // A token may be completed by what the next segment is replaced with only if
  // it is the very token replaced there, or if that one replaces this segment
  // as well.
  ghost predicate Stays(g: string, next: string, tokens: set<string>) {
    forall t, u :: t in tokens && u in tokens && g < t && u <= next ==> t == u || u <= g
  }

  ghost predicate Decided(segs: seq<string>, tokens: set<string>) {
    && (forall i :: 0 <= i < |segs| ==> IsUnambiguous(segs[i], tokens))
    && (forall i :: 0 <= i < |segs| - 1 ==> Stays(segs[i], segs[i + 1], tokens))
  }

  // In the values that are put in no token is found.
  ghost predicate IsClean(segs: seq<string>, canon: map<string, string>, raw: map<string, string>, tokens: set<string>) {
    && (forall i, t :: 0 <= i < |segs| && t in canon && t <= segs[i] ==> AllInert(canon[t], tokens))
    && (forall i, t :: 0 <= i < |segs| && !Hits(segs[i], canon.Keys) && t in raw && t <= segs[i] ==>
          AllInert(raw[t], tokens))
  }

  // ... as when they hold no '$'.
  lemma NoDollarIsClean(segs: seq<string>, canon: map<string, string>, raw: map<string, string>, tokens: set<string>)
    requires NoDollar(canon) && NoDollar(raw)
    ensures IsClean(segs, canon, raw, tokens)
  {
    forall t | t in canon
      ensures AllInert(canon[t], tokens)
    {
      NoDollarIsInert(canon[t], tokens);
    }
    forall t | t in raw
      ensures AllInert(raw[t], tokens)
    {
      NoDollarIsInert(raw[t], tokens);
    }
  }

  lemma FewerTokensAreClean(
      segs: seq<string>, canon: map<string, string>, raw: map<string, string>, tokens: set<string>, fewer: set<string>)
    requires IsClean(segs, canon, raw, tokens) && fewer <= tokens
    ensures IsClean(segs, canon, raw, fewer)
  {
    hide IsInert;
  }

  lemma DecidedTail(segs: seq<string>, tokens: set<string>)
    requires Decided(segs, tokens) && segs != []
    ensures Decided(segs[1..], tokens)
    ensures IsUnambiguous(segs[0], tokens)
    ensures |segs| > 1 ==> Stays(segs[0], segs[1], tokens)
  {
    hide IsUnambiguous, Stays;
    var rest := segs[1..];
    assert forall i :: 0 <= i < |rest| ==> rest[i] == segs[i + 1];
  }

  lemma CleanTail(segs: seq<string>, canon: map<string, string>, raw: map<string, string>, tokens: set<string>)
    requires IsClean(segs, canon, raw, tokens) && segs != []
    ensures IsClean(segs[1..], canon, raw, tokens)
  {
    hide Hits, AllInert;
    var rest := segs[1..];
    assert forall i :: 0 <= i < |rest| ==> rest[i] == segs[i + 1];
  }

  lemma TokenIs(g: string, env: map<string, string>, t: string)
    requires IsUnambiguous(g, env.Keys) && t in env && t <= g
    ensures TokenOf(g, env) == Some(t)
  {
  }

  // ----- one step on a partly replaced text -----

  lemma ThenDead(x: string, p: Parts, t: string, v: string)
    ensures Then(Parts(x + p.lead, p.segs), t, v) == Parts(x + Then(p, t, v).lead, Then(p, t, v).segs)
  {
    Concat3(x, p.lead, Swap(p.segs, t, v).lead);
  }

  lemma ThenAlive(g: string, p: Parts, t: string, v: string)
    requires t <= g + p.lead ==> t <= g
    ensures var q := Then(p, t, v);
            Then(Parts("", [g + p.lead] + p.segs), t, v) ==
            if t <= g then Parts(v + g[|t|..] + q.lead, q.segs) else Parts("", [g + q.lead] + q.segs)
  {
    var r, segs := Swap(p.segs, t, v), [g + p.lead] + p.segs;
    assert segs[1..] == p.segs && segs[0] == g + p.lead;
    assert g == (g + p.lead)[..|g|];
    var q := Swap(segs, t, v);
    assert Then(Parts("", segs), t, v) == Parts("" + q.lead, q.segs);
    NoLead(q.lead);
    if t <= g {
      var tail := g[|t|..];
      assert (g + p.lead)[|t|..] == tail + p.lead;
      Concat3(v, tail, p.lead);
      Concat3(v + tail, p.lead, r.lead);
      assert q == Parts(v + (tail + p.lead) + r.lead, r.segs);
    } else {
      Concat3(g, p.lead, r.lead);
    }
  }

  lemma LeadNeedsHit(segs: seq<string>, canon: map<string, string>, raw: map<string, string>)
    requires Subst(segs, canon, raw).lead != ""
    ensures segs != [] && Replaced(segs[0], canon, raw).Some?
  {
  }

  // What is done already cannot have completed another token.
  lemma NotCompleted(segs: seq<string>, done: map<string, string>, t: string, tokens: set<string>)
    requires Decided(segs, tokens) && segs != [] && done.Keys <= tokens && t in tokens && t !in done
    requires !Hits(segs[0], done.Keys)
    ensures t <= segs[0] + Subst(segs[1..], done, map[]).lead ==> t <= segs[0]
  {
    var g, lead := segs[0], Subst(segs[1..], done, map[]).lead;
    DecidedTail(segs, tokens);
    if t <= g + lead && lead != "" {
      LeadNeedsHit(segs[1..], done, map[]);
      assert segs[1..][0] == segs[1];
      var u := TokenOf(segs[1], done).value;
      assert u in tokens && u != t && !(u <= g);
      hide Decided, Subst, Hits;
      assert !(g < t);
      assert g == (g + lead)[..|g|];
      ComparablePrefixes(t, g, g + lead);
    } else {
      assert lead == "" ==> g + lead == g;
    }
  }

  // One more token after those that are done is the substitution with one more
  // token.
  lemma {:induction false} SubstThen(segs: seq<string>, done: map<string, string>, t: string, v: string, tokens: set<string>)
    requires Decided(segs, tokens) && done.Keys <= tokens && t in tokens && t !in done
    ensures Then(Subst(segs, done, map[]), t, v) == Subst(segs, done[t := v], map[])
    decreases |segs|
  {
    if segs != [] {
      var g, p, more := segs[0], Subst(segs[1..], done, map[]), done[t := v];
      DecidedTail(segs, tokens);
      SubstThen(segs[1..], done, t, v, tokens);
      var x := Replaced(g, done, map[]);
      if x.Some? {
        var u := TokenOf(g, done).value;
        TokenIs(g, more, u);
        hide Then, TokenOf, Hits, IsUnambiguous, Decided;
        ThenDead(x.value, p, t, v);
      } else {
        NotCompleted(segs, done, t, tokens);
        ThenAlive(g, p, t, v);
        if t <= g {
          TokenIs(g, more, t);
        } else {
          assert !Hits(g, more.Keys);
        }
        hide Then, Hits, IsUnambiguous, Decided;
      }
    }
  }

  // ----- a whole loop -----

  lemma {:induction false} NothingDone(segs: seq<string>)
    ensures Subst(segs, map[], map[]) == Parts("", segs)
    decreases |segs|
  {
    if segs != [] {
      NothingDone(segs[1..]);
      assert segs[0] + "" == segs[0] && [segs[0]] + segs[1..] == segs;
      assert !Hits(segs[0], {});
    }
  }

  lemma {:induction false} SubstIsOpen(
      segs: seq<string>, canon: map<string, string>, raw: map<string, string>, tokens: set<string>)
    requires AreOpen(segs, tokens) && IsClean(segs, canon, raw, tokens) && AreMarked(canon.Keys) && AreMarked(raw.Keys)
    ensures AllInert(Subst(segs, canon, raw).lead, tokens) && AreOpen(Subst(segs, canon, raw).segs, tokens)
    decreases |segs|
  {
    hide IsInert;
    if segs == [] {
      NoDollarIsInert("", tokens);
    } else {
      var g, p := segs[0], Subst(segs[1..], canon, raw);
      CleanTail(segs, canon, raw, tokens);
      assert IsMarked(g) && AllInert(g[1..], tokens) && AreOpen(segs[1..], tokens);
      SubstIsOpen(segs[1..], canon, raw, tokens);
      var x := Replaced(g, canon, raw);
      if x.Some? {
        ReplacedIsInert(segs, canon, raw, tokens);
        AllInertConcat(x.value, p.lead, tokens);
      } else {
        OpenGrows(g, p.lead, p.segs, tokens);
        NoDollarIsInert("", tokens);
      }
    }
  }

  lemma OpenGrows(g: string, lead: string, segs: seq<string>, tokens: set<string>)
    requires IsMarked(g) && AllInert(g[1..], tokens) && AllInert(lead, tokens) && AreOpen(segs, tokens)
    ensures AreOpen([g + lead] + segs, tokens)
  {
    AllInertConcat(g[1..], lead, tokens);
    assert (g + lead)[1..] == g[1..] + lead;
    hide AllInert;
  }

  lemma ReplacedIsInert(segs: seq<string>, canon: map<string, string>, raw: map<string, string>, tokens: set<string>)
    requires segs != [] && IsMarked(segs[0]) && AllInert(segs[0][1..], tokens)
    requires IsClean(segs, canon, raw, tokens) && AreMarked(canon.Keys) && AreMarked(raw.Keys)
    requires Replaced(segs[0], canon, raw).Some?
    ensures AllInert(Replaced(segs[0], canon, raw).value, tokens)
  {
    var g := segs[0];
    var t, u := TokenOf(g, canon), TokenOf(g, raw);
    var k, v := if t.Some? then t.value else u.value, if t.Some? then canon[t.value] else raw[u.value];
    assert IsMarked(k) && AllInert(v, tokens);
    hide AllInert;
    AllInertSuffix(g[1..], |k| - 1, tokens);
    assert g[1..][|k| - 1..] == g[|k|..];
    AllInertConcat(v, g[|k|..], tokens);
  }

  lemma {:induction false} SubstIsParts(segs: seq<string>, canon: map<string, string>, raw: map<string, string>)
    requires AreSegments(segs) && NoDollar(canon) && NoDollar(raw) && AreMarked(canon.Keys) && AreMarked(raw.Keys)
    ensures AreParts(Subst(segs, canon, raw))
    decreases |segs|
  {
    if segs != [] {
      var g, p := segs[0], Subst(segs[1..], canon, raw);
      assert IsToken(g) && AreSegments(segs[1..]);
      SubstIsParts(segs[1..], canon, raw);
      if !Replaced(g, canon, raw).Some? {
        assert (g + p.lead)[1..] == g[1..] + p.lead;
      }
    }
  }

  lemma ShorterPrefix(g: string, lead: string, t: string)
    ensures g + lead <= t ==> g <= t
    ensures g + lead < t ==> g < t
  {
    assert g == (g + lead)[..|g|];
  }

  lemma ShorterPrefixOf(g: string, grown: string, t: string)
    requires g <= grown
    ensures grown <= t ==> g <= t
  {
    assert g == grown[..|g|];
  }

  lemma SegmentGrows(g: string, lead: string)
    requires g != ""
    ensures Segment(g) <= Segment(g + lead)
  {
    var x := g[1..];
    assert (g + lead)[1..] == x + lead;
    assert g[..1 + |Literal(x)|] == (g + lead)[..1 + |Literal(x)|];
    LiteralGrows(x, lead);
  }

  lemma LiteralGrows(x: string, y: string)
    ensures |Literal(x)| <= |Literal(x + y)|
  {
    var a, b := Literal(x), Literal(x + y);
    hide Literal;
    assert forall i :: 0 <= i < |a| ==> (x + y)[i] == a[i] && a[i] in a;
  }

  lemma AbsentCons(g: string, segs: seq<string>, t: string)
    requires t != ""
    ensures IsAbsent(t, [g] + segs) <==> g != "" && !(Segment(g) <= Segment(t)) && IsAbsent(t, segs)
  {
    hide Segment;
    var all := [g] + segs;
    assert all[0] == g && forall i :: 0 <= i < |segs| ==> all[i + 1] == segs[i];
  }

  lemma {:induction false} SubstKeepsAbsent(segs: seq<string>, canon: map<string, string>, raw: map<string, string>, t: string)
    requires t != "" && IsAbsent(t, segs)
    ensures IsAbsent(t, Subst(segs, canon, raw).segs)
    decreases |segs|
  {
    hide IsAbsent, Replaced, Segment;
    if segs == [] {
      NothingAbsent(t);
    } else {
      var g, p := segs[0], Subst(segs[1..], canon, raw);
      assert segs == [g] + segs[1..];
      AbsentCons(g, segs[1..], t);
      SubstKeepsAbsent(segs[1..], canon, raw, t);
      SegmentGrows(g, p.lead);
      ShorterPrefixOf(Segment(g), Segment(g + p.lead), Segment(t));
      AbsentCons(g + p.lead, p.segs, t);
    }
  }

  lemma NothingAbsent(t: string)
    requires t != ""
    ensures IsAbsent(t, [])
  {
  }

  // What has been replaced after the tokens of `order`.
  function Done(done: map<string, string>, order: seq<string>, env: map<string, string>): map<string, string>
    requires forall t :: t in order ==> t in env
  {
    map t | t in done.Keys + (set x | x in order) :: if t in done then done[t] else env[t]
  }

  lemma DoneStep(done: map<string, string>, order: seq<string>, env: map<string, string>)
    requires order != [] && (forall t :: t in order ==> t in env) && order[0] !in done
    ensures Done(done, order, env) == Done(done[order[0] := env[order[0]]], order[1..], env)
  {
    assert order == [order[0]] + order[1..];
  }

  ghost predicate IsPartOf(done: map<string, string>, env: map<string, string>) {
    forall t :: t in done ==> t in env && done[t] == env[t]
  }

  lemma StepOfLoop(head: string, segs: seq<string>, done: map<string, string>, t: string, env: map<string, string>)
    requires AllInert(head, env.Keys) && AreOpen(segs, env.Keys) && AllFit(env.Keys, segs)
    requires Decided(segs, env.Keys) && IsClean(segs, env, map[], env.Keys) && IsPartOf(done, env) && t in env && t !in done
    ensures ReplaceAll(TextOf(head, Subst(segs, done, map[])), t, env[t]) == TextOf(head, Subst(segs, done[t := env[t]], map[]))
  {
    var p := Subst(segs, done, map[]);
    assert Fits(t, segs) && AreMarked(done.Keys) by {
      assert forall u :: u in done ==> Fits(u, segs);
    }
    assert IsClean(segs, done, map[], env.Keys);
    assert done.Keys <= env.Keys;
    SubstIsOpen(segs, done, map[], env.Keys);
    OneTokenOpen(p, t, env.Keys);
    assert IsInert(head, t);
    hide *;
    FitsLater(segs, done, t);
    ReplaceInOpen(head, p, t, env[t]);
    SubstThen(segs, done, t, env[t], env.Keys);
  }

  lemma OneTokenOpen(p: Parts, t: string, tokens: set<string>)
    requires AllInert(p.lead, tokens) && AreOpen(p.segs, tokens) && t in tokens
    ensures IsInert(p.lead, t) && AreOpen(p.segs, {t})
  {
    hide IsInert;
  }

  lemma FitsLater(segs: seq<string>, done: map<string, string>, t: string)
    requires Fits(t, segs)
    ensures Fits(t, Subst(segs, done, map[]).segs)
  {
    if !IsToken(t) {
      SubstKeepsAbsent(segs, done, map[], t);
    }
  }

  lemma {:induction false} LoopFrom(
      head: string, segs: seq<string>, done: map<string, string>, order: seq<string>, env: map<string, string>)
    requires AllInert(head, env.Keys) && AreOpen(segs, env.Keys) && AllFit(env.Keys, segs)
    requires Decided(segs, env.Keys) && IsClean(segs, env, map[], env.Keys) && IsPartOf(done, env)
    requires forall t :: t in order ==> t in env && t !in done
    requires forall i, j :: 0 <= i < j < |order| ==> order[i] != order[j]
    ensures Chain(TextOf(head, Subst(segs, done, map[])), order, env) == TextOf(head, Subst(segs, Done(done, order, env), map[]))
    decreases |order|
  {
    if order == [] {
      assert Done(done, order, env) == done;
    } else {
      var t, rest := order[0], order[1..];
      var more := done[t := env[t]];
      assert forall u :: u in rest ==> u in order && u != t;
      assert IsPartOf(more, env);
      hide AllFit, AreOpen, AllInert, Decided, IsClean, IsPartOf, TextOf;
      StepOfLoop(head, segs, done, t, env);
      DoneStep(done, order, env);
      hide Done;
      LoopFrom(head, segs, more, rest, env);
    }
  }

  // In every order of its map the loop is the substitution.
  lemma LoopIsSubst(head: string, segs: seq<string>, order: seq<string>, env: map<string, string>)
    requires AllInert(head, env.Keys) && AreOpen(segs, env.Keys) && AllFit(env.Keys, segs)
    requires Decided(segs, env.Keys) && IsClean(segs, env, map[], env.Keys) && Lists(order, env.Keys)
    ensures forall t :: t in order ==> t in env
    ensures Chain(TextOf(head, Parts("", segs)), order, env) == TextOf(head, Subst(segs, env, map[]))
  {
    AllListed(order, env.Keys);
    NothingDone(segs);
    assert Done(map[], order, env) == env;
    assert IsPartOf(map[], env);
    hide Done, Subst, AllFit, AreOpen, AllInert, Decided, IsClean, IsPartOf, TextOf;
    LoopFrom(head, segs, map[], order, env);
  }

  // ----- the condition for both loops -----

  // The raw tokens count only where no canonical one is found. They must not be
  // completed by a segment that the first loop replaces.
  ghost predicate StaysRaw(g: string, next: string, canon: set<string>, raw: set<string>) {
    if Hits(next, canon) then forall t :: t in raw ==> !(g < t) else Stays(g, next, raw)
  }

  ghost predicate BothDecided(segs: seq<string>, canon: set<string>, raw: set<string>) {
    && Decided(segs, canon)
    && (forall i :: 0 <= i < |segs| && !Hits(segs[i], canon) ==> IsUnambiguous(segs[i], raw))
    && (forall i :: 0 <= i < |segs| - 1 && !Hits(segs[i], canon) ==> StaysRaw(segs[i], segs[i + 1], canon, raw))
  }

  lemma BothDecidedTail(segs: seq<string>, canon: set<string>, raw: set<string>)
    requires BothDecided(segs, canon, raw) && segs != []
    ensures BothDecided(segs[1..], canon, raw) && IsUnambiguous(segs[0], canon)
    ensures !Hits(segs[0], canon) ==> IsUnambiguous(segs[0], raw)
    ensures !Hits(segs[0], canon) && |segs| > 1 ==> StaysRaw(segs[0], segs[1], canon, raw)
  {
    DecidedTail(segs, canon);
    hide IsUnambiguous, StaysRaw, Decided, Hits;
    var rest := segs[1..];
    assert forall i :: 0 <= i < |rest| ==> rest[i] == segs[i + 1];
  }

  // The same raw tokens are found at the grown segment as before.
  ghost predicate SameTokens(g: string, grown: string, tokens: set<string>) {
    g <= grown && forall t :: t in tokens ==> (t <= g <==> t <= grown)
  }

  lemma GrownHasSameTokens(g: string, lead: string, tokens: set<string>)
    requires lead != "" ==> forall t :: t in tokens ==> !(g < t)
    ensures SameTokens(g, g + lead, tokens)
  {
    var s := g + lead;
    assert g == s[..|g|] && (lead == "" ==> s == g);
    forall t | t in tokens
      ensures t <= g <==> t <= s
    {
      ComparablePrefixes(t, g, s);
      assert t <= g ==> t == s[..|t|];
    }
  }

  // The first loop leaves the first segment, which no canonical token hits,
  // open to the same raw tokens as before.
  lemma FirstLeft(segs: seq<string>, canon: map<string, string>, raw: set<string>)
    requires BothDecided(segs, canon.Keys, raw) && segs != [] && !Hits(segs[0], canon.Keys)
    ensures var p := Subst(segs, canon, map[]);
            p.lead == "" && p.segs != [] && SameTokens(segs[0], p.segs[0], raw)
    ensures Subst(segs, canon, map[]) ==
            Parts("", [segs[0] + Subst(segs[1..], canon, map[]).lead] + Subst(segs[1..], canon, map[]).segs)
    ensures Subst(segs[1..], canon, map[]).lead != "" ==> |segs| > 1 && Hits(segs[1], canon.Keys)
  {
    var g, lead := segs[0], Subst(segs[1..], canon, map[]).lead;
    assert !Hits(g, {});
    BothDecidedTail(segs, canon.Keys, raw);
    if lead != "" {
      LeadNeedsHit(segs[1..], canon, map[]);
      assert segs[1..][0] == segs[1];
      assert !Hits(segs[1], {});
    }
    hide Hits, BothDecided;
    GrownHasSameTokens(g, lead, raw);
  }

  lemma ConsDecided(g: string, segs: seq<string>, tokens: set<string>)
    requires Decided(segs, tokens) && IsUnambiguous(g, tokens) && (segs != [] ==> Stays(g, segs[0], tokens))
    ensures Decided([g] + segs, tokens)
  {
    hide IsUnambiguous, Stays;
    var all := [g] + segs;
    assert forall i :: 0 < i < |all| ==> all[i] == segs[i - 1];
  }

  lemma GrownStays(segs: seq<string>, canon: map<string, string>, raw: set<string>)
    requires BothDecided(segs, canon.Keys, raw) && segs != [] && !Hits(segs[0], canon.Keys)
    ensures var p := Subst(segs[1..], canon, map[]);
            IsUnambiguous(segs[0] + p.lead, raw) && (p.segs != [] ==> Stays(segs[0] + p.lead, p.segs[0], raw))
  {
    var g, p := segs[0], Subst(segs[1..], canon, map[]);
    BothDecidedTail(segs, canon.Keys, raw);
    FirstLeft(segs, canon, raw);
    GrownOf(g, p.lead, segs, canon, raw);
    var grown := g + p.lead;
    assert SameTokens(g, grown, raw);
    if p.segs != [] && |segs| > 1 && !Hits(segs[1], canon.Keys) {
      assert segs[1..][0] == segs[1];
      FirstLeft(segs[1..], canon, raw);
      assert grown == g;
    } else if p.segs != [] {
      assert segs[1..] == [] ==> p.segs == [];
      forall t | t in raw
        ensures !(grown < t)
      {
        ShorterPrefix(g, p.lead, t);
      }
    }
  }

  lemma GrownOf(g: string, lead: string, segs: seq<string>, canon: map<string, string>, raw: set<string>)
    requires segs != [] && g == segs[0] && lead == Subst(segs[1..], canon, map[]).lead
    requires Subst(segs, canon, map[]) == Parts("", [g + lead] + Subst(segs[1..], canon, map[]).segs)
    requires SameTokens(g, Subst(segs, canon, map[]).segs[0], raw)
    ensures SameTokens(g, g + lead, raw)
  {
  }

  // The first loop leaves the second one a decided text.
  lemma {:induction false} SecondIsDecided(segs: seq<string>, canon: map<string, string>, raw: set<string>)
    requires BothDecided(segs, canon.Keys, raw)
    ensures Decided(Subst(segs, canon, map[]).segs, raw)
    decreases |segs|
  {
    if segs != [] {
      var g, p := segs[0], Subst(segs[1..], canon, map[]);
      BothDecidedTail(segs, canon.Keys, raw);
      SecondIsDecided(segs[1..], canon, raw);
      if !Hits(g, canon.Keys) {
        FirstLeft(segs, canon, raw);
        GrownStays(segs, canon, raw);
        hide Subst, BothDecided, Decided, Hits, Stays, IsUnambiguous;
        ConsDecided(g + p.lead, p.segs, raw);
      }
    }
  }

  // The raw tokens put into what the first loop leaves.
  ghost function Second(p: Parts, raw: map<string, string>): Parts {
    var q := Subst(p.segs, raw, map[]);
    Parts(p.lead + q.lead, q.segs)
  }

  lemma SameReplaced(g: string, lead: string, canon: map<string, string>, raw: map<string, string>)
    requires !Hits(g, canon.Keys) && SameTokens(g, g + lead, raw.Keys) && IsUnambiguous(g, raw.Keys)
    ensures var x, y := Replaced(g, canon, raw), Replaced(g + lead, raw, map[]);
            x.Some? == y.Some? && (x.Some? ==> y.value == x.value + lead)
  {
    assert IsUnambiguous(g + lead, raw.Keys);
    assert !Hits(g + lead, {});
    if Hits(g, raw.Keys) {
      var t := TokenOf(g, raw).value;
      TokenIs(g, raw, t);
      TokenIs(g + lead, raw, t);
      hide Hits, TokenOf, SameTokens, IsUnambiguous;
      assert (g + lead)[|t|..] == g[|t|..] + lead;
      Concat3(raw[t], g[|t|..], lead);
    } else {
      assert !Hits(g + lead, raw.Keys);
    }
  }

  // Both loops together are the substitution in which canonical tokens win.
  lemma {:induction false} BothAreSubst(segs: seq<string>, canon: map<string, string>, raw: map<string, string>)
    requires BothDecided(segs, canon.Keys, raw.Keys)
    ensures Second(Subst(segs, canon, map[]), raw) == Subst(segs, canon, raw)
    decreases |segs|
  {
    if segs != [] {
      var g, p := segs[0], Subst(segs[1..], canon, map[]);
      var q := Subst(p.segs, raw, map[]);
      BothDecidedTail(segs, canon.Keys, raw.Keys);
      BothAreSubst(segs[1..], canon, raw);
      if Hits(g, canon.Keys) {
        var x := Replaced(g, canon, map[]).value;
        Concat3(x, p.lead, q.lead);
      } else {
        FirstLeft(segs, canon, raw.Keys);
        GrownOf(g, p.lead, segs, canon, raw.Keys);
        SameReplaced(g, p.lead, canon, raw);
        SecondOfAlive(g, p, canon, raw);
      }
    }
  }

  lemma SecondOfAlive(g: string, p: Parts, canon: map<string, string>, raw: map<string, string>)
    requires var x, y := Replaced(g, canon, raw), Replaced(g + p.lead, raw, map[]);
             x.Some? == y.Some? && (x.Some? ==> y.value == x.value + p.lead)
    ensures var x, q := Replaced(g, canon, raw), Second(p, raw);
            Second(Parts("", [g + p.lead] + p.segs), raw) ==
            if x.Some? then Parts(x.value + q.lead, q.segs) else Parts("", [g + q.lead] + q.segs)
  {
    hide Replaced;
    var x, q := Replaced(g, canon, raw), Subst(p.segs, raw, map[]);
    var segs := [g + p.lead] + p.segs;
    assert segs[1..] == p.segs && segs[0] == g + p.lead;
    var r := Subst(segs, raw, map[]);
    NoLead(r.lead);
    if x.Some? {
      Concat3(x.value, p.lead, q.lead);
    } else {
      Concat3(g, p.lead, q.lead);
    }
  }

  lemma {:induction false} SecondIsClean(
      segs: seq<string>, canon: map<string, string>, raw: map<string, string>, tokens: set<string>)
    requires BothDecided(segs, canon.Keys, raw.Keys) && IsClean(segs, canon, raw, tokens)
    ensures IsClean(Subst(segs, canon, map[]).segs, raw, map[], tokens)
    decreases |segs|
  {
    if segs != [] {
      var g, p := segs[0], Subst(segs[1..], canon, map[]);
      BothDecidedTail(segs, canon.Keys, raw.Keys);
      CleanTail(segs, canon, raw, tokens);
      SecondIsClean(segs[1..], canon, raw, tokens);
      hide AllInert;
      if !Hits(g, canon.Keys) {
        FirstLeft(segs, canon, raw.Keys);
        var all := Subst(segs, canon, map[]).segs;
        assert all[0] == g + p.lead && all[1..] == p.segs;
        assert forall i :: 0 < i < |all| ==> all[i] == p.segs[i - 1];
      }
    }
  }

  lemma LaterFit(segs: seq<string>, canon: map<string, string>, tokens: set<string>)
    requires AllFit(tokens, segs)
    ensures AllFit(tokens, Subst(segs, canon, map[]).segs)
  {
    forall t | t in tokens
      ensures Fits(t, Subst(segs, canon, map[]).segs)
    {
      assert Fits(t, segs);
      FitsLater(segs, canon, t);
    }
  }

  // ----- the substitution on the text -----

  lemma {:induction false} OnePassText(x: string, s: string, canon: map<string, string>, raw: map<string, string>)
    requires AreMarked(canon.Keys) && AreMarked(raw.Keys) && '$' !in x
    ensures OnePass(x + s, canon, raw) == x + OnePass(s, canon, raw)
    decreases |x|
  {
    if x == "" {
      assert x + s == s;
    } else {
      var c, y := x[0], x[1..];
      assert x == [c] + y && c in x;
      assert (x + s)[0] == c && (x + s)[1..] == y + s;
      assert !Hits(x + s, canon.Keys) && !Hits(x + s, raw.Keys);
      OnePassText(y, s, canon, raw);
      Concat3([c], y, OnePass(s, canon, raw));
    }
  }

  lemma SameHits(g: string, rest: string, env: map<string, string>)
    requires IsToken(g) && (rest == "" || rest[0] == '$')
    requires forall t :: t in env ==> IsMarked(t) && (IsToken(t) || !(Segment(g) <= Segment(t)))
    ensures Hits(g + rest, env.Keys) == Hits(g, env.Keys)
    ensures IsUnambiguous(g, env.Keys) ==> TokenOf(g + rest, env) == TokenOf(g, env)
  {
    forall t | t in env
      ensures t <= g + rest <==> t <= g
    {
      StaysInSegment(g, rest, t);
    }
  }

  lemma SubstCons(segs: seq<string>, canon: map<string, string>, raw: map<string, string>)
    requires segs != []
    ensures var x := Replaced(segs[0], canon, raw);
            TextOf("", Subst(segs, canon, raw)) ==
            (if x.Some? then x.value else segs[0]) + TextOf("", Subst(segs[1..], canon, raw))
  {
    hide Replaced;
    var g, q, p := segs[0], Subst(segs[1..], canon, raw), Subst(segs, canon, raw);
    var x := if Replaced(g, canon, raw).Some? then Replaced(g, canon, raw).value else g;
    assert p == if Replaced(g, canon, raw).Some? then Parts(x + q.lead, q.segs) else Parts("", [x + q.lead] + q.segs);
    hide *;
    TextOfParts("", p);
    TextOfParts("", q);
    ConsFlat(x + q.lead, q.segs);
    Concat3(x, q.lead, Flat(q.segs));
    NoLead(p.lead + Flat(p.segs));
    NoLead(q.lead + Flat(q.segs));
    NoLead((x + q.lead) + Flat(q.segs));
  }

  lemma OnePassAtSegment(g: string, rest: string, canon: map<string, string>, raw: map<string, string>)
    requires AreMarked(canon.Keys) && AreMarked(raw.Keys) && IsToken(g)
    requires TokenOf(g + rest, canon) == TokenOf(g, canon)
    requires TokenOf(g, canon).None? ==> TokenOf(g + rest, raw) == TokenOf(g, raw)
    ensures var x := Replaced(g, canon, raw);
            OnePass(g + rest, canon, raw) == (if x.Some? then x.value else g) + OnePass(rest, canon, raw)
  {
    var s, t, u := g + rest, TokenOf(g, canon), TokenOf(g, raw);
    var r := OnePass(rest, canon, raw);
    if t.Some? || u.Some? {
      var k, v := if t.Some? then t.value else u.value, if t.Some? then canon[t.value] else raw[u.value];
      assert IsMarked(k);
      var tail := g[|k|..];
      assert s[|k|..] == tail + rest && forall c :: c in tail ==> c in g[1..];
      OnePassText(tail, rest, canon, raw);
      Concat3(v, tail, r);
    } else {
      assert s[1..] == g[1..] + rest && g == ['$'] + g[1..];
      OnePassText(g[1..], rest, canon, raw);
      Concat3(['$'], g[1..], r);
    }
  }

  ghost predicate AllUnambiguous(segs: seq<string>, canon: set<string>, raw: set<string>) {
    forall i :: 0 <= i < |segs| ==>
      IsUnambiguous(segs[i], canon) && (!Hits(segs[i], canon) ==> IsUnambiguous(segs[i], raw))
  }

  lemma FitHead(tokens: set<string>, segs: seq<string>)
    requires AllFit(tokens, segs) && segs != []
    ensures AllFit(tokens, segs[1..]) && AreMarked(tokens)
    ensures forall t :: t in tokens ==> IsToken(t) || (segs[0] != "" && !(Segment(segs[0]) <= Segment(t)))
  {
    assert forall i :: 0 <= i < |segs| - 1 ==> segs[1..][i] == segs[i + 1];
    forall t | t in tokens
      ensures Fits(t, segs[1..]) && IsMarked(t)
      ensures IsToken(t) || (segs[0] != "" && !(Segment(segs[0]) <= Segment(t)))
    {
      assert Fits(t, segs);
    }
  }

  lemma {:induction false} OnePassIsSubst(segs: seq<string>, canon: map<string, string>, raw: map<string, string>)
    requires AreSegments(segs) && AllFit(canon.Keys, segs) && AllFit(raw.Keys, segs)
    requires AreMarked(canon.Keys) && AreMarked(raw.Keys) && AllUnambiguous(segs, canon.Keys, raw.Keys)
    ensures OnePass(Flat(segs), canon, raw) == TextOf("", Subst(segs, canon, raw))
    decreases |segs|
  {
    if segs != [] {
      var g, rest := segs[0], Flat(segs[1..]);
      assert IsToken(g) && AreSegments(segs[1..]);
      assert forall i :: 0 <= i < |segs| - 1 ==> segs[1..][i] == segs[i + 1];
      assert AllUnambiguous(segs[1..], canon.Keys, raw.Keys);
      assert Flat(segs) == g + rest;
      FitHead(canon.Keys, segs);
      FitHead(raw.Keys, segs);
      FlatStart(segs[1..]);
      OnePassIsSubst(segs[1..], canon, raw);
      SameHits(g, rest, canon);
      SameHits(g, rest, raw);
      hide IsToken, Fits, Segment, Flat, TextOf, Subst, OnePass, AllFit, AreMarked;
      OnePassAtSegment(g, rest, canon, raw);
      SubstCons(segs, canon, raw);
    }
  }

  // ----- the result -----

  // Both loops, in any order of their maps, are the simultaneous substitution
  // in which canonical tokens win, when the template is decided and no token is
  // found in the values of the tokens that occur.
  lemma ChainsAreOnePass(
      tmpl: string, order1: seq<string>, canon: map<string, string>, order2: seq<string>, raw: map<string, string>)
    requires AllFit(canon.Keys, SegmentsOf(tmpl)) && AllFit(raw.Keys, SegmentsOf(tmpl))
    requires BothDecided(SegmentsOf(tmpl), canon.Keys, raw.Keys) 
    requires IsClean(SegmentsOf(tmpl), canon, raw, canon.Keys + raw.Keys)
    requires Lists(order1, canon.Keys) && Lists(order2, raw.Keys)
    ensures AreMarked(canon.Keys) && AreMarked(raw.Keys)
    ensures (forall t :: t in order1 ==> t in canon) && (forall t :: t in order2 ==> t in raw)
    ensures Chain(Chain(tmpl, order1, canon), order2, raw) == OnePass(tmpl, canon, raw)
  {
    var head, p := PartsOf(tmpl);
    var segs := p.segs;
    assert AreMarked(canon.Keys) by {
      assert forall t :: t in canon ==> Fits(t, segs);
    }
    assert AreMarked(raw.Keys) by {
      assert forall t :: t in raw ==> Fits(t, segs);
    }
    assert Decided(segs, canon.Keys) && AllUnambiguous(segs, canon.Keys, raw.Keys);
    assert IsClean(segs, canon, map[], canon.Keys + raw.Keys) && AreParts(p) && AreSegments(segs);
    hide *;
    FewerTokensAreClean(segs, canon, map[], canon.Keys + raw.Keys, canon.Keys);
    FewerTokensAreClean(segs, canon, map[], canon.Keys + raw.Keys, raw.Keys);
    FewerTokensAreClean(segs, canon, raw, canon.Keys + raw.Keys, raw.Keys);
    SegmentsAreOpen(segs, canon.Keys);
    SegmentsAreOpen(segs, raw.Keys);
    NoDollarIsInert(head, canon.Keys);
    NoDollarIsInert(head, raw.Keys);
    LoopIsSubst(head, segs, order1, canon);
    SecondIsDecided(segs, canon, raw.Keys);
    SecondIsClean(segs, canon, raw, raw.Keys);
    SecondLoop(head, segs, canon, order2, raw);
    BothAreSubst(segs, canon, raw);
    OnePassOfParts(head, segs, canon, raw);
  }

  lemma OnePassOfParts(head: string, segs: seq<string>, canon: map<string, string>, raw: map<string, string>)
    requires '$' !in head && AreSegments(segs) && AllFit(canon.Keys, segs) && AllFit(raw.Keys, segs)
    requires AreMarked(canon.Keys) && AreMarked(raw.Keys) && AllUnambiguous(segs, canon.Keys, raw.Keys)
    ensures OnePass(TextOf(head, Parts("", segs)), canon, raw) == TextOf(head, Subst(segs, canon, raw))
  {
    hide *;
    OnePassIsSubst(segs, canon, raw);
    OnePassText(head, Flat(segs), canon, raw);
    TextOfParts(head, Parts("", segs));
    TextOfParts(head, Subst(segs, canon, raw));
    NoLead(Flat(segs));
  }

  lemma SecondLoop(head: string, segs: seq<string>, canon: map<string, string>, order: seq<string>, raw: map<string, string>)
    requires AllInert(head, raw.Keys) && AreOpen(segs, raw.Keys) && AreMarked(canon.Keys) && AllFit(raw.Keys, segs)
    requires IsClean(segs, canon, map[], raw.Keys) && IsClean(Subst(segs, canon, map[]).segs, raw, map[], raw.Keys)
    requires Decided(Subst(segs, canon, map[]).segs, raw.Keys) && Lists(order, raw.Keys)
    ensures forall t :: t in order ==> t in raw
    ensures Chain(TextOf(head, Subst(segs, canon, map[])), order, raw) == TextOf(head, Second(Subst(segs, canon, map[]), raw))
  {
    var p := Subst(segs, canon, map[]);
    var q := Subst(p.segs, raw, map[]);
    assert Second(p, raw) == Parts(p.lead + q.lead, q.segs);
    SubstIsOpen(segs, canon, map[], raw.Keys);
    hide *;
    AllInertConcat(head, p.lead, raw.Keys);
    LaterFit(segs, canon, raw.Keys);
    LoopIsSubst(head + p.lead, p.segs, order, raw);
    LeadMoved(head, p.lead, Parts("", p.segs));
    LeadMoved(head, p.lead, q);
    assert p.lead + "" == p.lead;
  }

  lemma LeadMoved(head: string, lead: string, p: Parts)
    ensures TextOf(head + lead, p) == TextOf(head, Parts(lead + p.lead, p.segs))
  {
    Concat3(head, lead, p.lead);
  }

  // No token is found at the segment, nor can be completed there.
  ghost predicate IsUnknown(g: string, tokens: set<string>) {
    forall t :: t in tokens ==> !(t <= g) && !(g <= t)
  }

  // Prefix-free tokens leave every template decided in which each '$' begins a
  // token or nothing like one.
  lemma PrefixFreeIsDecided(segs: seq<string>, canon: set<string>, raw: set<string>)
    requires forall t, u :: t in canon + raw && u in canon + raw && t != u ==> !(t <= u)
    requires forall i :: 0 <= i < |segs| ==> Hits(segs[i], canon + raw) || IsUnknown(segs[i], canon + raw)
    ensures BothDecided(segs, canon, raw)
  {
    var tokens := canon + raw;
    forall i | 0 <= i < |segs|
      ensures IsUnambiguous(segs[i], tokens) && forall t :: t in tokens ==> !(segs[i] < t)
    {
      if Hits(segs[i], tokens) {
        AloneAtSegment(segs[i], tokens);
      }
    }
    forall i | 0 <= i < |segs|
      ensures IsUnambiguous(segs[i], canon) && IsUnambiguous(segs[i], raw)
    {
      assert IsUnambiguous(segs[i], tokens);
    }
  }

  lemma AloneAtSegment(g: string, tokens: set<string>)
    requires forall t, u :: t in tokens && u in tokens && t != u ==> !(t <= u)
    requires Hits(g, tokens)
    ensures IsUnambiguous(g, tokens) && forall t :: t in tokens ==> !(g < t)
  {
    var k :| k in tokens && k <= g;
    forall t, u | t in tokens && u in tokens && t <= g && u <= g
      ensures t == u
    {
      ComparablePrefixes(t, u, g);
    }
    forall t | t in tokens
      ensures !(g < t)
    {
      assert g < t ==> k <= t && k != t;
    }
  }
}
