// When a title depends on the order in which Go walks the maps: the conditions
// of Substitution are not only enough, they are needed.
module MapOrder {
  import opened Text
  import opened Template
  import opened Substitution

  // ----- how long a text gets -----

  // How many segments begin with the token.
  function Count(segs: seq<string>, t: string): nat {
    if segs == [] then 0 else (if t <= segs[0] then 1 else 0) + Count(segs[1..], t)
  }

  function Size(p: Parts): nat { |p.lead| + |Flat(p.segs)| }

  // No replacement of or by at most `m` characters gets below or above these.
  function Low(p: Parts, m: nat): int { Size(p) - m * |p.segs| }

  function High(p: Parts, m: nat): int { Size(p) + m * |p.segs| }

  lemma {:induction false} SwapSize(segs: seq<string>, t: string, v: string)
    ensures Size(Swap(segs, t, v)) == |Flat(segs)| + Count(segs, t) * (|v| - |t|)
    ensures |Swap(segs, t, v).segs| == |segs| - Count(segs, t)
    decreases |segs|
  {
    if segs != [] {
      var g, p, d := segs[0], Swap(segs[1..], t, v), |v| - |t|;
      SwapSize(segs[1..], t, v);
      if t <= g {
        assert (1 + Count(segs[1..], t)) * d == d + Count(segs[1..], t) * d;
      } else {
        ConsFlat(g + p.lead, p.segs);
      }
    }
  }

  lemma ThenSize(p: Parts, t: string, v: string)
    ensures Size(Then(p, t, v)) == Size(p) + Count(p.segs, t) * (|v| - |t|)
    ensures |Then(p, t, v).segs| == |p.segs| - Count(p.segs, t)
  {
    SwapSize(p.segs, t, v);
    hide Swap, Flat, Count;
  }

  // A replaced token brings its value once for each segment it is found at.
  lemma StepBounds(p: Parts, t: string, v: string, m: nat)
    requires |t| <= m
    ensures var k, q := Count(p.segs, t), Then(p, t, v);
            Low(q, m) >= Low(p, m) + k * |v| && High(q, m) <= High(p, m) + k * |v|
    ensures |v| <= m ==> High(Then(p, t, v), m) <= High(p, m)
    ensures Low(Then(p, t, v), m) >= Low(p, m)
  {
    ThenSize(p, t, v);
    hide Then, Size, Count;
    Bounds(Size(p), |p.segs|, Count(p.segs, t), |t|, |v|, m);
  }

  lemma Bounds(size: int, n: int, k: nat, t: nat, v: nat, m: nat)
    requires t <= m
    ensures size + k * (v - t) - m * (n - k) >= size - m * n + k * v
    ensures size + k * (v - t) + m * (n - k) <= size + m * n + k * v
    ensures v <= m ==> size + k * (v - t) + m * (n - k) <= size + m * n
    ensures size - m * n + k * v >= size - m * n
  {
    assert k * (m - t) >= 0 && k * t >= 0 && k * m >= 0 && k * v >= 0;
    assert k * (v - t) == k * v - k * t && m * (n - k) == m * n - k * m && k * (m - t) == k * m - k * t;
    assert v <= m ==> k * (m - v) >= 0 && k * (m - v) == k * m - k * v;
  }

  // ----- a loop as steps on parts -----

  function Play(p: Parts, order: seq<string>, env: map<string, string>): Parts
    requires forall t :: t in order ==> t in env
    decreases |order|
  {
    if order == [] then p else Play(Then(p, order[0], env[order[0]]), order[1..], env)
  }

  lemma ThenIsParts(p: Parts, t: string, v: string)
    requires AreParts(p) && IsToken(t) && '$' !in v
    ensures AreParts(Then(p, t, v))
  {
    SwapIsParts(p.segs, t, v);
  }

  lemma {:induction false} SwapIsParts(segs: seq<string>, t: string, v: string)
    requires AreSegments(segs) && IsToken(t) && '$' !in v
    ensures AreParts(Swap(segs, t, v))
    decreases |segs|
  {
    if segs != [] {
      var g, p := segs[0], Swap(segs[1..], t, v);
      assert IsToken(g) && AreSegments(segs[1..]);
      SwapIsParts(segs[1..], t, v);
      if t <= g {
        assert forall c :: c in g[|t|..] ==> c in g[1..];
      } else {
        assert (g + p.lead)[1..] == g[1..] + p.lead;
        ConsFlat(g + p.lead, p.segs);
      }
    }
  }

  lemma {:induction false} PlayIsChain(head: string, p: Parts, order: seq<string>, env: map<string, string>)
    requires '$' !in head && AreParts(p) && AreTokens(env.Keys) && NoDollar(env)
    requires forall t :: t in order ==> t in env
    ensures Chain(TextOf(head, p), order, env) == TextOf(head, Play(p, order, env)) && AreParts(Play(p, order, env))
    decreases |order|
  {
    if order != [] {
      var t := order[0];
      assert IsToken(t) && '$' !in env[t] && Fits(t, p.segs);
      ReplaceInParts(head, p, t, env[t]);
      ThenIsParts(p, t, env[t]);
      hide AreParts, AreTokens, NoDollar, IsToken, TextOf, Then;
      PlayIsChain(head, Then(p, t, env[t]), order[1..], env);
    }
  }

  ghost predicate IsSmall(order: seq<string>, env: map<string, string>, m: nat) {
    forall t :: t in order ==> t in env && |t| <= m && |env[t]| <= m
  }

  lemma {:induction false} PlayBounds(p: Parts, order: seq<string>, env: map<string, string>, m: nat)
    requires IsSmall(order, env, m)
    ensures var q := Play(p, order, env); Low(q, m) >= Low(p, m) && High(q, m) <= High(p, m)
    decreases |order|
  {
    if order != [] {
      var t := order[0];
      StepBounds(p, t, env[t], m);
      hide Then, Low, High, Count;
      PlayBounds(Then(p, t, env[t]), order[1..], env, m);
    }
  }

  // ----- two orders of one loop -----

  lemma Apart(low: int, high: int, a: int, b: int, k: nat, l: nat, v: nat)
    requires low + k * v <= a <= high + k * v && low + l * v <= b <= high + l * v && k < l && v > high - low
    ensures a < b
  {
    OneMoreTime(k, l, v);
  }

  lemma OneMoreTime(k: nat, l: nat, v: nat)
    requires k < l
    ensures l * v >= k * v + v
  {
    var d: nat := l - k - 1;
    TimesIsNat(d, v);
    assert l == k + 1 + d;
  }

  lemma TimesIsNat(a: nat, b: nat)
    ensures a * b >= 0
  {
  }

  lemma SizeIsBetween(p: Parts, m: nat)
    ensures Low(p, m) <= Size(p) <= High(p, m) && High(p, m) - Low(p, m) == 2 * (m * |p.segs|)
  {
  }

  // One token has a long value and everything else is small: the size tells
  // how often that token was replaced.
  lemma SizeTells(from: Parts, p: Parts, q: Parts, k: nat, l: nat, v: nat, m: nat)
    requires Low(from, m) + k * v <= Low(p, m) && High(p, m) <= High(from, m) + k * v
    requires Low(from, m) + l * v <= Low(q, m) && High(q, m) <= High(from, m) + l * v
    requires k != l && v > 2 * (m * |from.segs|)
    ensures Size(p) != Size(q)
  {
    SizeIsBetween(p, m);
    SizeIsBetween(q, m);
    SizeIsBetween(from, m);
    hide *;
    if k < l {
      Apart(Low(from, m), High(from, m), Size(p), Size(q), k, l, v);
    } else {
      Apart(Low(from, m), High(from, m), Size(q), Size(p), l, k, v);
    }
  }

  lemma PlayTwo(p: Parts, t: string, u: string, rest: seq<string>, env: map<string, string>)
    requires t in env && u in env && forall x :: x in rest ==> x in env
    ensures forall x :: x in [t] + ([u] + rest) ==> x in env
    ensures Play(p, [t] + ([u] + rest), env) == Play(Then(Then(p, t, env[t]), u, env[u]), rest, env)
  {
    assert ([t] + ([u] + rest))[1..] == [u] + rest && ([u] + rest)[1..] == rest;
    assert Play(p, [t] + ([u] + rest), env) == Play(Then(p, t, env[t]), [u] + rest, env);
  }

  lemma BoundsOfTwo(p: Parts, t: string, u: string, rest: seq<string>, env: map<string, string>, m: nat)
    requires t in env && u in env && |t| <= m && |u| <= m && |env[u]| <= m && IsSmall(rest, env, m)
    ensures forall x :: x in [t] + ([u] + rest) || x in [u] + ([t] + rest) ==> x in env
    ensures var q, k := Play(p, [t] + ([u] + rest), env), Count(p.segs, t);
            Low(q, m) >= Low(p, m) + k * |env[t]| && High(q, m) <= High(p, m) + k * |env[t]|
    ensures var q, k := Play(p, [u] + ([t] + rest), env), Count(Then(p, u, env[u]).segs, t);
            Low(q, m) >= Low(p, m) + k * |env[t]| && High(q, m) <= High(p, m) + k * |env[t]|
  {
    PlayTwo(p, t, u, rest, env);
    PlayTwo(p, u, t, rest, env);
    hide Then, Play, Low, High, Count;
    StepBounds(p, t, env[t], m);
    StepBounds(Then(p, t, env[t]), u, env[u], m);
    PlayBounds(Then(Then(p, t, env[t]), u, env[u]), rest, env, m);
    StepBounds(p, u, env[u], m);
    StepBounds(Then(p, u, env[u]), t, env[t], m);
    PlayBounds(Then(Then(p, u, env[u]), t, env[t]), rest, env, m);
  }

  // ----- an undecided text has two tokens whose order tells -----

  lemma {:induction false} CountFound(segs: seq<string>, t: string, i: nat)
    requires i < |segs| && t <= segs[i]
    ensures Count(segs, t) > 0
    decreases |segs|
  {
    if i > 0 {
      CountFound(segs[1..], t, i - 1);
    }
  }

  lemma {:induction false} LeadOfSwap(segs: seq<string>, t: string, v: string)
    ensures Swap(segs, t, v).lead == "" || v <= Swap(segs, t, v).lead
    ensures segs != [] && t <= segs[0] ==> v <= Swap(segs, t, v).lead
  {
    if segs != [] && t <= segs[0] {
      var x := segs[0][|t|..] + Swap(segs[1..], t, v).lead;
      Concat3(v, segs[0][|t|..], Swap(segs[1..], t, v).lead);
      assert v <= v + x;
    }
  }

  // A run of one character completes no token that ends in another.
  lemma PadCompletesNothing(g: string, lead: string, t: string, w: string, c: char)
    requires t != "" && t[|t| - 1] != c && |w| >= |t| && forall i :: 0 <= i < |w| ==> w[i] == c
    requires lead == "" || w <= lead
    ensures t <= g + lead <==> t <= g
  {
    var s := g + lead;
    assert g == s[..|g|];
    ComparablePrefixes(t, g, s);
    assert t <= g ==> t <= s;
    if |t| > |g| && lead != "" {
      assert s[|t| - 1] == lead[|t| - 1 - |g|] == w[|t| - 1 - |g|];
    }
    assert lead == "" ==> s == g;
  }

  lemma {:induction false} PaddedCount(segs: seq<string>, t: string, u: string, w: string, c: char)
    requires t != "" && t <= u && t[|t| - 1] != c && |w| >= |t| && forall i :: 0 <= i < |w| ==> w[i] == c
    ensures Count(Swap(segs, u, w).segs, t) == Count(segs, t) - Count(segs, u)
    decreases |segs|
  {
    if segs != [] {
      var g, p := segs[0], Swap(segs[1..], u, w);
      PaddedCount(segs[1..], t, u, w, c);
      LeadOfSwap(segs[1..], u, w);
      PadCompletesNothing(g, p.lead, t, w, c);
      if u <= g {
        assert t <= g;
      } else {
        assert ([g + p.lead] + p.segs)[1..] == p.segs;
      }
    }
  }

  lemma AmbiguityTells(segs: seq<string>, tokens: set<string>, i: nat) returns (t: string, u: string, w: string)
    requires AreTokens(tokens) && i < |segs| && !IsUnambiguous(segs[i], tokens)
    ensures t in tokens && u in tokens && t != u && '$' !in w
    ensures Count(Swap(segs, u, w).segs, t) != Count(segs, t)
  {
    t, u :| t in tokens && u in tokens && t <= segs[i] && u <= segs[i] && t != u;
    ComparablePrefixes(t, u, segs[i]);
    if u <= t {
      t, u := u, t;
    }
    assert IsToken(t);
    var c := if t[|t| - 1] == 'x' then 'y' else 'x';
    w := seq(|t|, _ => c);
    hide IsUnambiguous, AreTokens;
    PaddedCount(segs, t, u, w, c);
    CountFound(segs, u, i);
  }

  lemma {:induction false} NoneLost(segs: seq<string>, t: string, u: string, w: string)
    requires forall i :: 0 <= i < |segs| ==> !(t <= segs[i] && u <= segs[i])
    ensures Count(Swap(segs, u, w).segs, t) >= Count(segs, t)
    decreases |segs|
  {
    if segs != [] {
      var g, p := segs[0], Swap(segs[1..], u, w);
      NoneLost(segs[1..], t, u, w);
      if !(u <= g) {
        assert ([g + p.lead] + p.segs)[1..] == p.segs;
        assert t <= g ==> t <= g + p.lead;
      }
    }
  }

  lemma {:induction false} OneGained(segs: seq<string>, t: string, u: string, w: string, i: nat)
    requires forall j :: 0 <= j < |segs| ==> !(t <= segs[j] && u <= segs[j])
    requires i + 1 < |segs| && t == segs[i] + w && w != "" && u <= segs[i + 1] && !(u <= segs[i])
    ensures Count(Swap(segs, u, w).segs, t) > Count(segs, t)
    decreases |segs|
  {
    var g, p := segs[0], Swap(segs[1..], u, w);
    assert ([g + p.lead] + p.segs)[1..] == p.segs;
    assert t <= g ==> t <= g + p.lead;
    if i > 0 {
      OneGained(segs[1..], t, u, w, i - 1);
    } else {
      NoneLost(segs[1..], t, u, w);
      LeadOfSwap(segs[1..], u, w);
      assert segs[1..][0] == segs[1];
      assert t == (g + p.lead)[..|t|];
    }
  }

  lemma GrowthTells(segs: seq<string>, tokens: set<string>, i: nat) returns (t: string, u: string, w: string)
    requires AreTokens(tokens) && AreSegments(segs) && i + 1 < |segs|
    requires (forall j :: 0 <= j < |segs| ==> IsUnambiguous(segs[j], tokens)) && !Stays(segs[i], segs[i + 1], tokens)
    ensures t in tokens && u in tokens && t != u && '$' !in w
    ensures Count(Swap(segs, u, w).segs, t) != Count(segs, t)
  {
    t, u :| t in tokens && u in tokens && segs[i] < t && u <= segs[i + 1] && t != u && !(u <= segs[i]);
    w := t[|segs[i]|..];
    assert t == segs[i] + w;
    assert IsToken(t) && IsToken(segs[i]) && forall c :: c in w ==> c in t[1..];
    forall j | 0 <= j < |segs|
      ensures !(t <= segs[j] && u <= segs[j])
    {
      assert IsUnambiguous(segs[j], tokens);
    }
    hide IsUnambiguous, Stays, AreTokens, AreSegments;
    OneGained(segs, t, u, w, i);
  }

  lemma OrderTells(segs: seq<string>, tokens: set<string>) returns (t: string, u: string, w: string)
    requires AreTokens(tokens) && AreSegments(segs) && !Decided(segs, tokens)
    ensures t in tokens && u in tokens && t != u && '$' !in w
    ensures Count(Swap(segs, u, w).segs, t) != Count(segs, t)
  {
    hide IsUnambiguous, Stays;
    if i: nat :| i < |segs| && !IsUnambiguous(segs[i], tokens) {
      t, u, w := AmbiguityTells(segs, tokens, i);
    } else {
      var i: nat :| i < |segs| - 1 && !Stays(segs[i], segs[i + 1], tokens);
      t, u, w := GrowthTells(segs, tokens, i);
    }
  }

  // ----- a loop that depends on the order -----

  // One way a loop over these tokens may go.
  ghost predicate IsLoop(order: seq<string>, env: map<string, string>, tokens: set<string>) {
    && env.Keys == tokens && Lists(order, tokens) && (forall t :: t in order ==> t in env) && NoDollar(env)
  }

  lemma {:induction false} LongestToken(tokens: set<string>) returns (m: nat)
    ensures forall t :: t in tokens ==> |t| <= m
    decreases tokens
  {
    if tokens == {} {
      m := 0;
    } else {
      var t :| t in tokens;
      var n := LongestToken(tokens - {t});
      m := if |t| <= n then n else |t|;
    }
  }

  // The values that make the order tell: one token's long, one's as given, all
  // other ones empty.
  function Telling(tokens: set<string>, t: string, v: string, u: string, w: string): map<string, string> {
    map x | x in tokens :: if x == t then v else if x == u then w else ""
  }

  lemma TwoListings(tokens: set<string>, t: string, u: string) returns (rest: seq<string>)
    requires t in tokens && u in tokens && t != u
    ensures Lists(rest, tokens - {t, u}) && Lists([t] + ([u] + rest), tokens) && Lists([u] + ([t] + rest), tokens)
  {
    var others := tokens - {t, u};
    ListingExists(others);
    rest :| Lists(rest, others);
    ListsOneMore(rest, others, u);
    ListsOneMore(rest, others, t);
    ListsOneMore([u] + rest, others + {u}, t);
    ListsOneMore([t] + rest, others + {t}, u);
    assert others + {u} + {t} == tokens == others + {t} + {u};
  }

  lemma TellingIsLoop(tokens: set<string>, t: string, v: string, u: string, w: string, order: seq<string>)
    requires Lists(order, tokens) && '$' !in v && '$' !in w
    ensures IsLoop(order, Telling(tokens, t, v, u, w), tokens)
  {
    AllListed(order, tokens);
  }

  // On an undecided text some values make two orders end in texts of different
  // sizes, and no further loop with empty values can make up for it.
  lemma LoopSplits(
      head: string, p: Parts, tokens: set<string>, later: seq<string>, raw: map<string, string>)
    returns (env: map<string, string>, xs: seq<string>, ys: seq<string>)
    requires '$' !in head && AreParts(p) && AreTokens(tokens) && AreTokens(raw.Keys) && !Decided(p.segs, tokens)
    requires IsLoop(later, raw, raw.Keys) && forall t :: t in raw ==> raw[t] == ""
    ensures IsLoop(xs, env, tokens) && IsLoop(ys, env, tokens)
    ensures Chain(Chain(TextOf(head, p), xs, env), later, raw) != Chain(Chain(TextOf(head, p), ys, env), later, raw)
  {
    assert AreSegments(p.segs);
    hide *;
    var t, u, w := OrderTells(p.segs, tokens);
    var longest := LongestToken(tokens + raw.Keys);
    EmptyIsSmall(later, raw, longest + |w|);
    LoopParts(later, raw, raw.Keys);
    env, xs, ys := SplitBy(head, p, t, u, w, longest + |w|, tokens, later, raw);
  }

  function LongValue(m: nat, n: nat): (v: string)
    ensures |v| > 2 * (m * n) && '$' !in v
  {
    seq(2 * (m * n) + 1, _ => 'x')
  }

  lemma SplitBy(
      head: string, p: Parts, t: string, u: string, w: string, m: nat, tokens: set<string>,
      later: seq<string>, raw: map<string, string>)
    returns (env: map<string, string>, xs: seq<string>, ys: seq<string>)
    requires '$' !in head && AreParts(p) && AreTokens(tokens) && AreTokens(raw.Keys) && NoDollar(raw)
    requires t in tokens && u in tokens && t != u && '$' !in w && Count(Swap(p.segs, u, w).segs, t) != Count(p.segs, t)
    requires |w| <= m && (forall x :: x in tokens ==> |x| <= m) && IsSmall(later, raw, m) && forall x :: x in later ==> x in raw
    ensures IsLoop(xs, env, tokens) && IsLoop(ys, env, tokens)
    ensures Chain(Chain(TextOf(head, p), xs, env), later, raw) != Chain(Chain(TextOf(head, p), ys, env), later, raw)
  {
    hide *;
    var v := LongValue(m, |p.segs|);
    env := Telling(tokens, t, v, u, w);
    var rest := TwoListings(tokens, t, u);
    xs, ys := [t] + ([u] + rest), [u] + ([t] + rest);
    TellingIsLoop(tokens, t, v, u, w, xs);
    TellingIsLoop(tokens, t, v, u, w, ys);
    TellingIsSmall(tokens, t, v, u, w, rest, m);
    LoopParts(xs, env, tokens);
    ThenIsSwap(p, u, w);
    TextsDiffer(head, p, t, u, rest, env, later, raw, m);
  }

  lemma TextsDiffer(
      head: string, p: Parts, t: string, u: string, rest: seq<string>, env: map<string, string>,
      later: seq<string>, raw: map<string, string>, m: nat)
    requires '$' !in head && AreParts(p) && AreTokens(env.Keys) && AreTokens(raw.Keys) && NoDollar(env) && NoDollar(raw)
    requires t in env && u in env && |t| <= m && |u| <= m && |env[u]| <= m && IsSmall(rest, env, m) && IsSmall(later, raw, m)
    requires Count(Then(p, u, env[u]).segs, t) != Count(p.segs, t) && |env[t]| > 2 * (m * |p.segs|)
    requires forall x :: x in later ==> x in raw
    ensures forall x :: x in [t] + ([u] + rest) || x in [u] + ([t] + rest) ==> x in env
    ensures Chain(Chain(TextOf(head, p), [t] + ([u] + rest), env), later, raw) !=
            Chain(Chain(TextOf(head, p), [u] + ([t] + rest), env), later, raw)
  {
    hide *;
    SizesDiffer(p, t, u, rest, env, later, raw, m);
    var xs, ys := [t] + ([u] + rest), [u] + ([t] + rest);
    if Chain(Chain(TextOf(head, p), xs, env), later, raw) == Chain(Chain(TextOf(head, p), ys, env), later, raw) {
      SameTextSameSize(head, p, xs, ys, env, later, raw);
    }
  }

  lemma ThenIsSwap(p: Parts, t: string, v: string)
    ensures Then(p, t, v).segs == Swap(p.segs, t, v).segs
  {
  }

  lemma LoopParts(order: seq<string>, env: map<string, string>, tokens: set<string>)
    requires IsLoop(order, env, tokens)
    ensures env.Keys == tokens && NoDollar(env) && forall t :: t in order ==> t in env
  {
  }

  lemma TellingIsSmall(tokens: set<string>, t: string, v: string, u: string, w: string, rest: seq<string>, m: nat)
    requires t in tokens && u in tokens && t != u && Lists(rest, tokens - {t, u})
    requires |w| <= m && forall x :: x in tokens ==> |x| <= m
    ensures var env := Telling(tokens, t, v, u, w); env[t] == v && env[u] == w && IsSmall(rest, env, m)
  {
    AllListed(rest, tokens - {t, u});
  }

  lemma EmptyIsSmall(order: seq<string>, env: map<string, string>, m: nat)
    requires IsLoop(order, env, env.Keys) && forall t :: t in env ==> env[t] == "" && |t| <= m
    ensures IsSmall(order, env, m)
  {
  }

  lemma SizesDiffer(
      p: Parts, t: string, u: string, rest: seq<string>, env: map<string, string>,
      later: seq<string>, raw: map<string, string>, m: nat)
    requires t in env && u in env && |t| <= m && |u| <= m && |env[u]| <= m && IsSmall(rest, env, m) && IsSmall(later, raw, m)
    requires Count(Then(p, u, env[u]).segs, t) != Count(p.segs, t) && |env[t]| > 2 * (m * |p.segs|)
    ensures forall x :: x in [t] + ([u] + rest) || x in [u] + ([t] + rest) ==> x in env
    ensures Size(Play(Play(p, [t] + ([u] + rest), env), later, raw)) !=
            Size(Play(Play(p, [u] + ([t] + rest), env), later, raw))
  {
    BoundsOfTwo(p, t, u, rest, env, m);
    var x, y := Play(p, [t] + ([u] + rest), env), Play(p, [u] + ([t] + rest), env);
    PlayBounds(x, later, raw, m);
    PlayBounds(y, later, raw, m);
    hide Play, Then, Low, High, Size;
    SizeTells(p, Play(x, later, raw), Play(y, later, raw), Count(p.segs, t), Count(Then(p, u, env[u]).segs, t), |env[t]|, m);
  }

  lemma TextSize(head: string, p: Parts)
    ensures |TextOf(head, p)| == |head| + Size(p)
  {
  }

  lemma SameTextSameSize(
      head: string, p: Parts, xs: seq<string>, ys: seq<string>, env: map<string, string>,
      later: seq<string>, raw: map<string, string>)
    requires '$' !in head && AreParts(p) && AreTokens(env.Keys) && AreTokens(raw.Keys) && NoDollar(env) && NoDollar(raw)
    requires (forall t :: t in xs ==> t in env) && (forall t :: t in ys ==> t in env) && forall t :: t in later ==> t in raw
    requires Chain(Chain(TextOf(head, p), xs, env), later, raw) == Chain(Chain(TextOf(head, p), ys, env), later, raw)
    ensures Size(Play(Play(p, xs, env), later, raw)) == Size(Play(Play(p, ys, env), later, raw))
  {
    PlayIsChain(head, p, xs, env);
    PlayIsChain(head, p, ys, env);
    PlayIsChain(head, Play(p, xs, env), later, raw);
    PlayIsChain(head, Play(p, ys, env), later, raw);
    TextSize(head, Play(Play(p, xs, env), later, raw));
    TextSize(head, Play(Play(p, ys, env), later, raw));
  }

  // ----- one loop: exactly when the order does not matter -----

  ghost predicate OrderFree(tmpl: string, tokens: set<string>) {
    forall xs, ys, env :: IsLoop(xs, env, tokens) && IsLoop(ys, env, tokens) ==>
      Chain(tmpl, xs, env) == Chain(tmpl, ys, env)
  }

  lemma TokensFit(tokens: set<string>, segs: seq<string>)
    requires AreTokens(tokens)
    ensures AllFit(tokens, segs) && AreMarked(tokens)
  {
    assert forall t :: t in tokens ==> IsToken(t) && Fits(t, segs);
  }

  // On a decided text every order of a loop gives the substitution.
  lemma LoopOnDecided(head: string, segs: seq<string>, order: seq<string>, env: map<string, string>, tokens: set<string>)
    requires '$' !in head && AreSegments(segs) && AreTokens(tokens) && Decided(segs, tokens) && IsLoop(order, env, tokens)
    ensures Chain(TextOf(head, Parts("", segs)), order, env) == TextOf(head, Subst(segs, env, map[]))
    ensures AreParts(Subst(segs, env, map[]))
  {
    TokensFit(tokens, segs);
    hide *;
    LoopParts(order, env, tokens);
    LoopIsListing(order, env, tokens);
    NoDollarIsClean(segs, env, map[], tokens);
    NoDollarIsInert(head, tokens);
    SegmentsAreOpen(segs, tokens);
    EmptyIsPlain();
    LoopIsSubst(head, segs, order, env);
    SubstIsParts(segs, env, map[]);
  }

  lemma EmptyIsPlain()
    ensures NoDollar(map[]) && AreMarked({})
  {
  }

  lemma LoopIsListing(order: seq<string>, env: map<string, string>, tokens: set<string>)
    requires IsLoop(order, env, tokens)
    ensures Lists(order, env.Keys)
  {
  }

  lemma EmptyLoop()
    ensures IsLoop([], map[], {}) && AreTokens({})
  {
  }

  // For all values without '$', all orders of one loop agree exactly on decided
  // texts.
  lemma OrderFreeExactlyWhen(tmpl: string, tokens: set<string>)
    requires AreTokens(tokens)
    ensures OrderFree(tmpl, tokens) <==> Decided(SegmentsOf(tmpl), tokens)
  {
    var head, p := PartsOf(tmpl);
    assert AreSegments(p.segs);
    hide Decided, IsLoop, TextOf, Subst, AreTokens, AreParts, AreSegments;
    if Decided(p.segs, tokens) {
      forall xs, ys, env | IsLoop(xs, env, tokens) && IsLoop(ys, env, tokens)
        ensures (forall t :: t in xs ==> t in env) && (forall t :: t in ys ==> t in env)
        ensures Chain(tmpl, xs, env) == Chain(tmpl, ys, env)
      {
        LoopParts(xs, env, tokens);
        LoopParts(ys, env, tokens);
        LoopOnDecided(head, p.segs, xs, env, tokens);
        LoopOnDecided(head, p.segs, ys, env, tokens);
      }
    } else {
      EmptyLoop();
      var env, xs, ys := LoopSplits(head, p, tokens, [], map[]);
      LoopParts(xs, env, tokens);
      LoopParts(ys, env, tokens);
    }
  }

  // ----- both loops -----

  // The title some pair of orders gives.
  ghost predicate IsTitleBy(
    tmpl: string, xs: seq<string>, canon: map<string, string>, ys: seq<string>, raw: map<string, string>, title: string)
  {
    && (forall t :: t in xs ==> t in canon) && (forall t :: t in ys ==> t in raw)
    && title == Chain(Chain(tmpl, xs, canon), ys, raw)
  }

  // For all values without '$', all pairs of orders give one title.
  ghost predicate BothOrderFree(tmpl: string, canon: set<string>, raw: set<string>) {
    forall xs, ys, env, zs, ws, payload, a, b ::
      IsLoop(xs, env, canon) && IsLoop(ys, env, canon) && IsLoop(zs, payload, raw) && IsLoop(ws, payload, raw)
      && IsTitleBy(tmpl, xs, env, zs, payload, a) && IsTitleBy(tmpl, ys, env, ws, payload, b)
      ==> a == b
  }

  // For all values without '$', all pairs of orders give the simultaneous
  // substitution.
  ghost predicate AlwaysOnePass(tmpl: string, canon: set<string>, raw: set<string>)
    requires AreMarked(canon) && AreMarked(raw)
  {
    forall xs, env, zs, payload, a ::
      IsLoop(xs, env, canon) && IsLoop(zs, payload, raw) && IsTitleBy(tmpl, xs, env, zs, payload, a)
      ==> a == OnePass(tmpl, env, payload)
  }

  // What the first loop leaves is decided for the second, for all values of up
  // to `m` characters.
  ghost predicate LeavesDecided(segs: seq<string>, canon: set<string>, raw: set<string>, m: nat) {
    forall env: map<string, string> :: env.Keys == canon && NoDollar(env) && AreShort(env, m) ==>
      Decided(Subst(segs, env, map[]).segs, raw)
  }

  ghost predicate AreShort(env: map<string, string>, m: nat) { forall t :: t in env ==> |env[t]| <= m }

  // ----- longer values change nothing for tokens of up to `m` characters -----

  ghost predicate Agree(x: string, y: string, m: nat) {
    x == y || (|x| >= m && |y| >= m && x[..m] == y[..m])
  }

  function CutTo(v: string, m: nat): string { if |v| <= m then v else v[..m] }

  function AllCut(env: map<string, string>, m: nat): map<string, string> { map t | t in env :: CutTo(env[t], m) }

  lemma AgreeBehind(a: string, x: string, y: string, m: nat)
    requires Agree(x, y, m)
    ensures Agree(a + x, a + y, m)
  {
    if x != y {
      assert (a + x)[..m] == (a + x[..m])[..m] && (a + y)[..m] == (a + y[..m])[..m];
    }
  }

  lemma CutAgrees(v: string, tail: string, x: string, y: string, m: nat)
    requires Agree(x, y, m)
    ensures Agree(v + tail + x, CutTo(v, m) + tail + y, m)
  {
    if |v| <= m {
      AgreeBehind(v + tail, x, y, m);
    } else {
      assert (v + tail + x)[..m] == v[..m] == (v[..m] + tail + y)[..m];
    }
  }

  // Agreeing texts begin with the same short tokens, and are the start of the
  // same ones.
  lemma AgreeingSee(x: string, y: string, t: string, m: nat)
    requires Agree(x, y, m) && |t| <= m
    ensures (t <= x <==> t <= y) && (x < t <==> y < t)
  {
    if x != y {
      assert t <= x ==> t == x[..m][..|t|];
      assert t <= y ==> t == y[..m][..|t|];
      assert x[..|t|] == x[..m][..|t|] && y[..|t|] == y[..m][..|t|];
    }
  }

  ghost predicate AllAgree(xs: seq<string>, ys: seq<string>, m: nat) {
    |xs| == |ys| && forall i :: 0 <= i < |xs| ==> Agree(xs[i], ys[i], m)
  }

  lemma AllAgreeCons(x: string, y: string, xs: seq<string>, ys: seq<string>, m: nat)
    requires Agree(x, y, m) && AllAgree(xs, ys, m)
    ensures AllAgree([x] + xs, [y] + ys, m)
  {
    hide Agree;
  }

  lemma {:induction false} CutValuesAgree(segs: seq<string>, env: map<string, string>, m: nat)
    requires Decided(segs, env.Keys)
    ensures var p, q := Subst(segs, env, map[]), Subst(segs, AllCut(env, m), map[]);
            Agree(p.lead, q.lead, m) && AllAgree(p.segs, q.segs, m)
    decreases |segs|
  {
    if segs != [] {
      var g, cut := segs[0], AllCut(env, m);
      var p, q := Subst(segs[1..], env, map[]), Subst(segs[1..], cut, map[]);
      DecidedTail(segs, env.Keys);
      CutValuesAgree(segs[1..], env, m);
      assert cut.Keys == env.Keys && !Hits(g, {});
      if Hits(g, env.Keys) {
        var t := TokenOf(g, env).value;
        TokenIs(g, cut, t);
        CutAgrees(env[t], g[|t|..], p.lead, q.lead, m);
      } else {
        AgreeBehind(g, p.lead, q.lead, m);
        AllAgreeCons(g + p.lead, g + q.lead, p.segs, q.segs, m);
      }
    }
  }

  lemma AgreeingDecided(xs: seq<string>, ys: seq<string>, tokens: set<string>, m: nat)
    requires AllAgree(xs, ys, m) && Decided(ys, tokens) && forall t :: t in tokens ==> |t| <= m
    ensures Decided(xs, tokens)
  {
    hide Agree;
    forall i, t | 0 <= i < |xs| && t in tokens
      ensures (t <= xs[i] <==> t <= ys[i]) && (xs[i] < t <==> ys[i] < t)
    {
      AgreeingSee(xs[i], ys[i], t, m);
    }
    forall i | 0 <= i < |xs|
      ensures IsUnambiguous(xs[i], tokens)
    {
      assert IsUnambiguous(ys[i], tokens);
    }
    forall i | 0 <= i < |xs| - 1
      ensures Stays(xs[i], xs[i + 1], tokens)
    {
      assert Stays(ys[i], ys[i + 1], tokens);
    }
  }

  lemma ShortValuesSuffice(segs: seq<string>, env: map<string, string>, canon: set<string>, raw: set<string>, m: nat)
    requires Decided(segs, canon) && LeavesDecided(segs, canon, raw, m) && forall t :: t in raw ==> |t| <= m
    requires env.Keys == canon && NoDollar(env)
    ensures Decided(Subst(segs, env, map[]).segs, raw)
  {
    var cut := AllCut(env, m);
    assert cut.Keys == canon && NoDollar(cut) && AreShort(cut, m);
    hide Subst, Decided, NoDollar;
    CutValuesAgree(segs, env, m);
    AgreeingDecided(Subst(segs, env, map[]).segs, Subst(segs, cut, map[]).segs, raw, m);
  }

  // ----- two titles -----

  lemma TwoLoopsOnDecided(
      head: string, segs: seq<string>, xs: seq<string>, env: map<string, string>, canon: set<string>,
      zs: seq<string>, payload: map<string, string>, raw: set<string>)
    requires '$' !in head && AreSegments(segs) && AreTokens(canon) && AreTokens(raw)
    requires Decided(segs, canon) && Decided(Subst(segs, env, map[]).segs, raw)
    requires IsLoop(xs, env, canon) && IsLoop(zs, payload, raw)
    ensures var q := Second(Subst(segs, env, map[]), payload);
            AreParts(q) && IsTitleBy(TextOf(head, Parts("", segs)), xs, env, zs, payload, TextOf(head, q))
  {
    var p := Subst(segs, env, map[]);
    LoopOnDecided(head, segs, xs, env, canon);
    assert '$' !in head + p.lead && AreSegments(p.segs);
    assert Second(p, payload) == Parts(p.lead + Subst(p.segs, payload, map[]).lead, Subst(p.segs, payload, map[]).segs);
    LoopParts(xs, env, canon);
    LoopParts(zs, payload, raw);
    hide IsLoop, Decided, Subst, AreTokens, Chain, TextOf, Second;
    LoopOnDecided(head + p.lead, p.segs, zs, payload, raw);
    LeadMoved(head, p.lead, Parts("", p.segs));
    LeadMoved(head, p.lead, Subst(p.segs, payload, map[]));
    assert p.lead + "" == p.lead;
  }

  // Two titles of the same values.
  ghost predicate HasTwoTitles(
    tmpl: string, env: map<string, string>, canon: set<string>, payload: map<string, string>, raw: set<string>)
  {
    exists xs, ys, zs, ws, a, b ::
      IsLoop(xs, env, canon) && IsLoop(ys, env, canon) && IsLoop(zs, payload, raw) && IsLoop(ws, payload, raw)
      && IsTitleBy(tmpl, xs, env, zs, payload, a) && IsTitleBy(tmpl, ys, env, ws, payload, b) && a != b
  }

  function Blank(tokens: set<string>): map<string, string> { map t | t in tokens :: "" }

  lemma BlankLoop(tokens: set<string>) returns (order: seq<string>)
    ensures IsLoop(order, Blank(tokens), tokens)
  {
    ListingExists(tokens);
    order :| Lists(order, tokens);
    AllListed(order, tokens);
  }

  lemma FirstLoopSplits(head: string, p: Parts, canon: set<string>, raw: set<string>) returns (env: map<string, string>)
    requires '$' !in head && AreParts(p) && AreTokens(canon) && AreTokens(raw) && !Decided(p.segs, canon)
    ensures HasTwoTitles(TextOf(head, p), env, canon, Blank(raw), raw)
  {
    var zs := BlankLoop(raw);
    assert Blank(raw).Keys == raw && forall t :: t in raw ==> Blank(raw)[t] == "";
    hide *;
    var xs, ys;
    env, xs, ys := LoopSplits(head, p, canon, zs, Blank(raw));
    LoopParts(xs, env, canon);
    LoopParts(ys, env, canon);
    LoopParts(zs, Blank(raw), raw);
    TwoTitles(TextOf(head, p), env, canon, Blank(raw), raw, xs, ys, zs, zs);
  }

  lemma TwoTitles(
      tmpl: string, env: map<string, string>, canon: set<string>, payload: map<string, string>, raw: set<string>,
      xs: seq<string>, ys: seq<string>, zs: seq<string>, ws: seq<string>)
    requires IsLoop(xs, env, canon) && IsLoop(ys, env, canon) && IsLoop(zs, payload, raw) && IsLoop(ws, payload, raw)
    requires Chain(Chain(tmpl, xs, env), zs, payload) != Chain(Chain(tmpl, ys, env), ws, payload)
    ensures HasTwoTitles(tmpl, env, canon, payload, raw)
  {
    var a, b := Chain(Chain(tmpl, xs, env), zs, payload), Chain(Chain(tmpl, ys, env), ws, payload);
    assert IsTitleBy(tmpl, xs, env, zs, payload, a) && IsTitleBy(tmpl, ys, env, ws, payload, b);
  }

  lemma SecondLoopSplits(head: string, segs: seq<string>, env: map<string, string>, canon: set<string>, raw: set<string>)
      returns (payload: map<string, string>)
    requires '$' !in head && AreSegments(segs) && AreTokens(canon) && AreTokens(raw) && Decided(segs, canon)
    requires env.Keys == canon && NoDollar(env) && !Decided(Subst(segs, env, map[]).segs, raw)
    ensures HasTwoTitles(TextOf(head, Parts("", segs)), env, canon, payload, raw)
  {
    var p := Subst(segs, env, map[]);
    ListingExists(canon);
    var xs :| Lists(xs, canon);
    AllListed(xs, canon);
    assert IsLoop(xs, env, canon);
    LoopOnDecided(head, segs, xs, env, canon);
    EmptyLoop();
    hide *;
    var zs, ws;
    payload, zs, ws := LoopSplits(head, p, raw, [], map[]);
    LoopParts(zs, payload, raw);
    LoopParts(ws, payload, raw);
    LoopParts(xs, env, canon);
    NoLoop(Chain(TextOf(head, p), zs, payload));
    NoLoop(Chain(TextOf(head, p), ws, payload));
    TwoTitles(TextOf(head, Parts("", segs)), env, canon, payload, raw, xs, xs, zs, ws);
  }

  lemma NoLoop(s: string)
    ensures Chain(s, [], map[]) == s
  {
  }

  // All pairs of orders agree exactly when the template is decided for the
  // canonical tokens and the first loop, whatever values no longer than the
  // longest raw token it puts in, leaves a text decided for the raw ones.
  lemma BothOrderFreeExactlyWhen(tmpl: string, canon: set<string>, raw: set<string>, m: nat)
    requires AreTokens(canon) && AreTokens(raw) && forall t :: t in raw ==> |t| <= m
    ensures BothOrderFree(tmpl, canon, raw) <==>
            Decided(SegmentsOf(tmpl), canon) && LeavesDecided(SegmentsOf(tmpl), canon, raw, m)
  {
    var head, p := PartsOf(tmpl);
    var segs := p.segs;
    assert AreSegments(segs);
    hide Decided, IsLoop, TextOf, Subst, AreTokens, AreParts, AreSegments, IsTitleBy;
    if !Decided(segs, canon) {
      var env := FirstLoopSplits(head, p, canon, raw);
      assert !BothOrderFree(tmpl, canon, raw);
    } else if !LeavesDecided(segs, canon, raw, m) {
      var env: map<string, string> :| env.Keys == canon && NoDollar(env) && !Decided(Subst(segs, env, map[]).segs, raw);
      var payload := SecondLoopSplits(head, segs, env, canon, raw);
      assert !BothOrderFree(tmpl, canon, raw);
    } else {
      forall xs, ys, env, zs, ws, payload, a, b |
        IsLoop(xs, env, canon) && IsLoop(ys, env, canon) && IsLoop(zs, payload, raw) && IsLoop(ws, payload, raw)
        && IsTitleBy(tmpl, xs, env, zs, payload, a) && IsTitleBy(tmpl, ys, env, ws, payload, b)
        ensures a == b
      {
        LoopParts(xs, env, canon);
        ShortValuesSuffice(segs, env, canon, raw, m);
        TwoLoopsOnDecided(head, segs, xs, env, canon, zs, payload, raw);
        TwoLoopsOnDecided(head, segs, ys, env, canon, ws, payload, raw);
        OneTitle(tmpl, xs, env, zs, payload, a, TextOf(head, Second(Subst(segs, env, map[]), payload)));
        OneTitle(tmpl, ys, env, ws, payload, b, TextOf(head, Second(Subst(segs, env, map[]), payload)));
      }
    }
  }

  lemma OneTitle(
      tmpl: string, xs: seq<string>, canon: map<string, string>, ys: seq<string>, raw: map<string, string>, a: string, b: string)
    requires IsTitleBy(tmpl, xs, canon, ys, raw, a) && IsTitleBy(tmpl, xs, canon, ys, raw, b)
    ensures a == b
  {
  }

  // ----- both loops: exactly when they are one substitution -----

  lemma UndecidedLater(segs: seq<string>, env: map<string, string>, raw: set<string>)
    requires segs != [] && !Decided(Subst(segs[1..], env, map[]).segs, raw)
    ensures !Decided(Subst(segs, env, map[]).segs, raw)
  {
    var p, q := Subst(segs[1..], env, map[]), Subst(segs, env, map[]);
    if q.segs != p.segs && Decided(q.segs, raw) {
      assert q.segs[1..] == p.segs;
      DecidedTail(q.segs, raw);
    }
  }

  lemma AliveCons(segs: seq<string>, env: map<string, string>)
    requires segs != [] && !Hits(segs[0], env.Keys)
    ensures var p := Subst(segs[1..], env, map[]);
            Subst(segs, env, map[]) == Parts("", [segs[0] + p.lead] + p.segs)
  {
    assert !Hits(segs[0], {});
  }

  // A segment two raw tokens begin, or can come to begin, stays so behind the
  // first loop.
  lemma {:induction false} StillAmbiguous(segs: seq<string>, env: map<string, string>, raw: set<string>, i: nat)
    requires i < |segs| && !Hits(segs[i], env.Keys) && !IsUnambiguous(segs[i], raw)
    ensures !Decided(Subst(segs, env, map[]).segs, raw)
    decreases i
  {
    if i > 0 {
      StillAmbiguous(segs[1..], env, raw, i - 1);
      UndecidedLater(segs, env, raw);
    } else {
      AliveCons(segs, env);
      var p, q := Subst(segs[1..], env, map[]), Subst(segs, env, map[]);
      var t, u :| t in raw && u in raw && t <= segs[0] && u <= segs[0] && t != u;
      assert t <= q.segs[0] && u <= q.segs[0];
      assert !IsUnambiguous(q.segs[0], raw);
    }
  }

  lemma {:induction false} StillGrows(segs: seq<string>, env: map<string, string>, raw: set<string>, i: nat)
    requires i + 1 < |segs| && !Hits(segs[i], env.Keys) && !Hits(segs[i + 1], env.Keys)
    requires !Stays(segs[i], segs[i + 1], raw)
    ensures !Decided(Subst(segs, env, map[]).segs, raw)
    decreases i
  {
    if i > 0 {
      StillGrows(segs[1..], env, raw, i - 1);
      UndecidedLater(segs, env, raw);
    } else {
      AliveCons(segs, env);
      assert segs[1..][0] == segs[1];
      AliveCons(segs[1..], env);
      var p, q := Subst(segs[1..], env, map[]), Subst(segs, env, map[]);
      assert q.segs[0] == segs[0] + "" == segs[0] && q.segs[1] == p.segs[0] && segs[1] <= p.segs[0];
      var t, u :| t in raw && u in raw && segs[0] < t && u <= segs[1] && t != u && !(u <= segs[0]);
      assert u <= q.segs[1];
      assert !Stays(q.segs[0], q.segs[1], raw);
    }
  }

  // What the first loop leaves has the raw tokens it had, and maybe more: the
  // loops leave no more segments than the substitution.
  lemma {:induction false} LeavesNoMore(segs: seq<string>, env: map<string, string>, payload: map<string, string>)
    ensures |Subst(Subst(segs, env, map[]).segs, payload, map[]).segs| <= |Subst(segs, env, payload).segs|
    decreases |segs|
  {
    if segs != [] {
      var g, p := segs[0], Subst(segs[1..], env, map[]);
      LeavesNoMore(segs[1..], env, payload);
      if !Hits(g, env.Keys) {
        AliveCons(segs, env);
        assert ([g + p.lead] + p.segs)[1..] == p.segs;
        if Hits(g, payload.Keys) {
          var t := TokenOf(g, payload).value;
          assert t <= g + p.lead;
          assert Hits(g + p.lead, payload.Keys);
        }
      }
    }
  }

  // A raw token that the first loop completes is replaced by the second, but
  // is none in the template: one segment less is left.
  lemma {:induction false} LeavesLess(
      segs: seq<string>, env: map<string, string>, payload: map<string, string>, i: nat, t: string)
    requires i + 1 < |segs| && !Hits(segs[i], env.Keys) && t in payload && segs[i] < t
    requires TokenOf(segs[i + 1], env).Some? && t == segs[i] + env[TokenOf(segs[i + 1], env).value]
    requires Decided(Subst(segs, env, map[]).segs, payload.Keys)
    ensures |Subst(Subst(segs, env, map[]).segs, payload, map[]).segs| < |Subst(segs, env, payload).segs|
    decreases i
  {
    var g, p, q := segs[0], Subst(segs[1..], env, map[]), Subst(segs, env, map[]);
    LeavesNoMore(segs[1..], env, payload);
    if i > 0 {
      if !Decided(p.segs, payload.Keys) {
        UndecidedLater(segs, env, payload.Keys);
      }
      LeavesLess(segs[1..], env, payload, i - 1, t);
      if !Hits(g, env.Keys) {
        AliveCons(segs, env);
        assert q.segs[1..] == p.segs;
        if Hits(g, payload.Keys) {
          var u := TokenOf(g, payload).value;
          assert u <= g + p.lead;
          assert Hits(g + p.lead, payload.Keys);
        }
      }
    } else {
      AliveCons(segs, env);
      CompletedBy(segs, env, t);
      assert q.segs[0] == g + p.lead && q.segs[1..] == p.segs;
      assert Hits(q.segs[0], payload.Keys);
      assert IsUnambiguous(q.segs[0], payload.Keys);
      forall u | u in payload
        ensures !(u <= g)
      {
        PrefixOfGrown(u, g, p.lead);
      }
      assert !Hits(g, payload.Keys);
    }
  }

  lemma PrefixOfGrown(t: string, g: string, lead: string)
    ensures t <= g ==> t <= g + lead
  {
  }

  lemma CompletedBy(segs: seq<string>, env: map<string, string>, t: string)
    requires |segs| > 1 && TokenOf(segs[1], env).Some? && t == segs[0] + env[TokenOf(segs[1], env).value]
    ensures t <= segs[0] + Subst(segs[1..], env, map[]).lead
  {
    var rest := segs[1..];
    assert rest[0] == segs[1];
    var x, v, l := Replaced(segs[1], env, map[]).value, env[TokenOf(segs[1], env).value], Subst(rest[1..], env, map[]).lead;
    assert Subst(rest, env, map[]).lead == x + l;
    var tail := segs[1][|TokenOf(segs[1], env).value|..];
    Concat3(v, tail, l);
    Concat3(segs[0], v, tail + l);
  }

  lemma TwoTitlesRefute(
      tmpl: string, env: map<string, string>, canon: set<string>, payload: map<string, string>, raw: set<string>)
    requires AreMarked(canon) && AreMarked(raw) && HasTwoTitles(tmpl, env, canon, payload, raw)
    ensures !AlwaysOnePass(tmpl, canon, raw)
  {
    hide IsLoop, IsTitleBy;
    var xs, ys, zs, ws, a, b :|
      IsLoop(xs, env, canon) && IsLoop(ys, env, canon) && IsLoop(zs, payload, raw) && IsLoop(ws, payload, raw)
      && IsTitleBy(tmpl, xs, env, zs, payload, a) && IsTitleBy(tmpl, ys, env, ws, payload, b) && a != b;
    LoopParts(xs, env, canon);
    LoopParts(zs, payload, raw);
    hide OnePass;
    if a == OnePass(tmpl, env, payload) {
      NotThisTitle(tmpl, canon, raw, ys, env, ws, payload, b);
    } else {
      NotThisTitle(tmpl, canon, raw, xs, env, zs, payload, a);
    }
  }

  // Values for which the second loop has work that the template has not.
  lemma CompletedTokenRefutes(head: string, segs: seq<string>, canon: set<string>, raw: set<string>, i: nat, t: string)
    requires '$' !in head && AreSegments(segs) && AreTokens(canon) && AreTokens(raw) && AreMarked(canon) && AreMarked(raw)
    requires Decided(segs, canon) && AllUnambiguous(segs, canon, raw)
    requires i + 1 < |segs| && !Hits(segs[i], canon) && Hits(segs[i + 1], canon) && t in raw && segs[i] < t
    ensures !AlwaysOnePass(TextOf(head, Parts("", segs)), canon, raw)
  {
    var w := t[|segs[i]|..];
    assert IsToken(t) && IsToken(segs[i]) && forall c :: c in w ==> c in t[1..];
    var u :| u in canon && u <= segs[i + 1];
    var env := Blank(canon)[u := w];
    assert env.Keys == canon && NoDollar(env);
    assert IsUnambiguous(segs[i + 1], env.Keys);
    TokenIs(segs[i + 1], env, u);
    assert t == segs[i] + w;
    hide IsToken, IsUnambiguous, Hits, Subst, AreTokens, AreSegments, AllUnambiguous, TextOf, Blank;
    if Decided(Subst(segs, env, map[]).segs, raw) {
      assert Blank(raw).Keys == raw by {
        hide *;
        BlankKeys(raw);
      }
      LeavesLess(segs, env, Blank(raw), i, t);
      FewerSegmentsRefute(head, segs, env, canon, raw);
    } else {
      var payload := SecondLoopSplits(head, segs, env, canon, raw);
      TwoTitlesRefute(TextOf(head, Parts("", segs)), env, canon, payload, raw);
    }
  }

  lemma BlankIsPlain(tokens: set<string>)
    ensures NoDollar(Blank(tokens))
  {
  }

  lemma BlankKeys(tokens: set<string>)
    ensures Blank(tokens).Keys == tokens
  {
  }

  lemma FewerSegmentsRefute(head: string, segs: seq<string>, env: map<string, string>, canon: set<string>, raw: set<string>)
    requires '$' !in head && AreSegments(segs) && AreTokens(canon) && AreTokens(raw) && AreMarked(canon) && AreMarked(raw)
    requires env.Keys == canon && NoDollar(env) && AllUnambiguous(segs, canon, raw)
    requires Decided(segs, canon) && Decided(Subst(segs, env, map[]).segs, raw)
    requires |Second(Subst(segs, env, map[]), Blank(raw)).segs| < |Subst(segs, env, Blank(raw)).segs|
    ensures !AlwaysOnePass(TextOf(head, Parts("", segs)), canon, raw)
  {
    var tmpl, payload := TextOf(head, Parts("", segs)), Blank(raw);
    BlankKeys(raw);
    var zs := BlankLoop(raw);
    ListingExists(canon);
    var xs :| Lists(xs, canon);
    AllListed(xs, canon);
    assert IsLoop(xs, env, canon);
    TokensFit(canon, segs);
    TokensFit(raw, segs);
    LoopParts(zs, payload, raw);
    BlankIsPlain(raw);
    var p, q := Subst(segs, env, payload), Second(Subst(segs, env, map[]), payload);
    hide *;
    TwoLoopsOnDecided(head, segs, xs, env, canon, zs, payload, raw);
    OnePassOfParts(head, segs, env, payload);
    SubstIsParts(segs, env, payload);
    SegmentsOfText(head, p);
    SegmentsOfText(head, q);
    NotThisTitle(tmpl, canon, raw, xs, env, zs, payload, TextOf(head, q));
  }

  lemma NotThisTitle(
      tmpl: string, canon: set<string>, raw: set<string>,
      xs: seq<string>, env: map<string, string>, zs: seq<string>, payload: map<string, string>, a: string)
    requires AreMarked(canon) && AreMarked(raw) && env.Keys == canon && payload.Keys == raw
    requires IsLoop(xs, env, canon) && IsLoop(zs, payload, raw) && IsTitleBy(tmpl, xs, env, zs, payload, a)
    requires a != OnePass(tmpl, env, payload)
    ensures !AlwaysOnePass(tmpl, canon, raw)
  {
    hide IsLoop, IsTitleBy, OnePass;
  }

  lemma NotBothDecided(segs: seq<string>, canon: set<string>, raw: set<string>) returns (i: nat)
    requires Decided(segs, canon) && !BothDecided(segs, canon, raw)
    ensures i < |segs| && !Hits(segs[i], canon)
    ensures IsUnambiguous(segs[i], raw) ==>
              AllUnambiguous(segs, canon, raw) && i + 1 < |segs| && !StaysRaw(segs[i], segs[i + 1], canon, raw)
  {
    hide IsUnambiguous, Stays, StaysRaw, Hits;
    if j: nat :| j < |segs| && !Hits(segs[j], canon) && !IsUnambiguous(segs[j], raw) {
      i := j;
    } else {
      i :| i < |segs| - 1 && !Hits(segs[i], canon) && !StaysRaw(segs[i], segs[i + 1], canon, raw);
    }
  }

  // For all values without '$', all pairs of orders give the simultaneous
  // substitution exactly on templates decided for both loops. A caller can
  // check that on the template and the two sets of names.
  lemma AlwaysOnePassExactlyWhen(tmpl: string, canon: set<string>, raw: set<string>)
    requires AreTokens(canon) && AreTokens(raw)
    ensures AreMarked(canon) && AreMarked(raw)
    ensures AlwaysOnePass(tmpl, canon, raw) <==> BothDecided(SegmentsOf(tmpl), canon, raw)
  {
    var head, p := PartsOf(tmpl);
    var segs := p.segs;
    TokensFit(canon, segs);
    TokensFit(raw, segs);
    assert AreSegments(segs);
    hide BothDecided, IsLoop, IsTitleBy, TextOf, AreTokens, AreParts, AreSegments, AllFit;
    if BothDecided(segs, canon, raw) {
      forall xs, env, zs, payload, a |
        IsLoop(xs, env, canon) && IsLoop(zs, payload, raw) && IsTitleBy(tmpl, xs, env, zs, payload, a)
        ensures env.Keys == canon && payload.Keys == raw && a == OnePass(tmpl, env, payload)
      {
        DecidedTitle(tmpl, canon, raw, xs, env, zs, payload, a);
      }
    } else {
      UndecidedRefutes(head, p, canon, raw);
    }
  }

  lemma DecidedTitle(
      tmpl: string, canon: set<string>, raw: set<string>,
      xs: seq<string>, env: map<string, string>, zs: seq<string>, payload: map<string, string>, a: string)
    requires BothDecided(SegmentsOf(tmpl), canon, raw) && AllFit(canon, SegmentsOf(tmpl)) && AllFit(raw, SegmentsOf(tmpl))
    requires IsLoop(xs, env, canon) && IsLoop(zs, payload, raw) && IsTitleBy(tmpl, xs, env, zs, payload, a)
    ensures env.Keys == canon && payload.Keys == raw && AreMarked(canon) && AreMarked(raw)
    ensures a == OnePass(tmpl, env, payload)
  {
    LoopParts(xs, env, canon);
    LoopParts(zs, payload, raw);
    LoopIsListing(xs, env, canon);
    LoopIsListing(zs, payload, raw);
    NoDollarIsClean(SegmentsOf(tmpl), env, payload, canon + raw);
    hide BothDecided, IsClean, AllFit, SegmentsOf, IsLoop, Chain;
    ChainsAreOnePass(tmpl, xs, env, zs, payload);
  }

  lemma UndecidedRefutes(head: string, p: Parts, canon: set<string>, raw: set<string>)
    requires '$' !in head && AreParts(p) && p.lead == ""
    requires AreTokens(canon) && AreTokens(raw) && AreMarked(canon) && AreMarked(raw)
    requires !BothDecided(p.segs, canon, raw)
    ensures !AlwaysOnePass(TextOf(head, p), canon, raw)
  {
    var segs := p.segs;
    assert p == Parts("", segs) && AreSegments(segs);
    BlankKeys(canon);
    assert NoDollar(Blank(canon));
    hide BothDecided, Decided, IsUnambiguous, AlwaysOnePass, AreTokens, AreParts, AreSegments, TextOf, Subst, HasTwoTitles, Blank;
    if !Decided(segs, canon) {
      var env := FirstLoopSplits(head, p, canon, raw);
      TwoTitlesRefute(TextOf(head, p), env, canon, Blank(raw), raw);
    } else {
      var i := NotBothDecided(segs, canon, raw);
      if IsUnambiguous(segs[i], raw) && Hits(segs[i + 1], canon) {
        var t :| t in raw && segs[i] < t;
        CompletedTokenRefutes(head, segs, canon, raw, i, t);
      } else {
        if !IsUnambiguous(segs[i], raw) {
          StillAmbiguous(segs, Blank(canon), raw, i);
        } else {
          StillGrows(segs, Blank(canon), raw, i);
        }
        var payload := SecondLoopSplits(head, segs, Blank(canon), canon, raw);
        TwoTitlesRefute(TextOf(head, p), Blank(canon), canon, payload, raw);
      }
    }
  }
}
