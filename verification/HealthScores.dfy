// handlers: the in-place sort of tenant health scores and the dashboard
// summary over them.
module HealthScores {

  datatype TenantHealth = TenantHealth(tenantID: string, score: int, churnRisk: string)

  // ----- sortHealthScores -----

  predicate Ordered(s: seq<TenantHealth>) {
    forall p, q :: 0 <= p < q < |s| ==> s[p].score <= s[q].score
  }

  // The entries with one score, in the order they stand.
  function Group(s: seq<TenantHealth>, score: int): (r: seq<TenantHealth>)
    ensures forall x :: x in r ==> x in s && x.score == score
  {
    if s == [] then [] else (if s[0].score == score then [s[0]] else []) + Group(s[1..], score)
  }

  ghost predicate SameGroups(s: seq<TenantHealth>, t: seq<TenantHealth>) {
    forall score :: Group(s, score) == Group(t, score)
  }

  function Swapped(s: seq<TenantHealth>, j: nat): seq<TenantHealth>
    requires 0 < j < |s|
  {
    s[j - 1 := s[j]][j := s[j - 1]]
  }

  lemma {:induction false} GroupOfConcat(s: seq<TenantHealth>, t: seq<TenantHealth>, score: int)
    ensures Group(s + t, score) == Group(s, score) + Group(t, score)
    decreases |s|
  {
    if s == [] {
      assert s + t == t;
    } else {
      assert (s + t)[1..] == s[1..] + t;
      GroupOfConcat(s[1..], t, score);
    }
  }

  lemma GroupOfTwo(x: TenantHealth, y: TenantHealth, score: int)
    requires x.score != y.score
    ensures Group([x, y], score) == Group([y, x], score)
  {
    assert [x, y][1..] == [y] && [y, x][1..] == [x] && [x][1..] == [] && [y][1..] == [];
  }

  // Exchanging neighbours with different scores moves nothing within a group.
  lemma SwapKeepsGroups(s: seq<TenantHealth>, j: nat)
    requires 0 < j < |s| && s[j - 1].score != s[j].score
    ensures SameGroups(Swapped(s, j), s)
  {
    var before, x, y, after := s[..j - 1], s[j - 1], s[j], s[j + 1..];
    assert s == before + ([x, y] + after);
    assert Swapped(s, j) == before + ([y, x] + after);
    forall score
      ensures Group(Swapped(s, j), score) == Group(s, score)
    {
      GroupOfConcat(before, [x, y] + after, score);
      GroupOfConcat([x, y], after, score);
      GroupOfConcat(before, [y, x] + after, score);
      GroupOfConcat([y, x], after, score);
      GroupOfTwo(x, y, score);
    }
  }

  // Ordered up to `i`, except that the entry at `j` may belong further left.
  ghost predicate OrderedBut(s: seq<TenantHealth>, i: int, j: int) {
    0 <= j <= i < |s| && forall p, q :: 0 <= p < q <= i && q != j ==> s[p].score <= s[q].score
  }

  method SortHealthScores(scores: array<TenantHealth>)
    modifies scores
    ensures Ordered(scores[..])
    ensures forall p, q :: 0 <= p < q < scores.Length ==> scores[p].score <= scores[q].score
    ensures SameGroups(scores[..], old(scores[..]))
  {
    if scores.Length == 0 {
      return;
    }
    var i := 1;
    while i < scores.Length
      invariant 1 <= i <= scores.Length
      invariant Ordered(scores[..i])
      invariant SameGroups(scores[..], old(scores[..]))
    {
      hide Group;
      var j := i;
      while j > 0 && scores[j].score < scores[j - 1].score
        invariant OrderedBut(scores[..], i, j)
        invariant SameGroups(scores[..], old(scores[..]))
      {
        ghost var s := scores[..];
        SwapKeepsGroups(s, j);
        SwapKeepsOrder(s, i, j);
        scores[j], scores[j - 1] := scores[j - 1], scores[j];
        assert scores[..] == Swapped(s, j);
        j := j - 1;
      }
      i := i + 1;
    }
    assert scores[..i] == scores[..];
  }

  lemma SwapKeepsOrder(s: seq<TenantHealth>, i: int, j: int)
    requires OrderedBut(s, i, j) && j > 0 && s[j].score < s[j - 1].score
    ensures OrderedBut(Swapped(s, j), i, j - 1)
  {
  }

  // ----- what those two properties pin down -----

  lemma {:induction false} CountInGroup(s: seq<TenantHealth>, x: TenantHealth)
    ensures multiset(s)[x] == multiset(Group(s, x.score))[x]
    decreases |s|
  {
    if s != [] {
      CountInGroup(s[1..], x);
      assert s == [s[0]] + s[1..];
      assert multiset(s) == multiset{s[0]} + multiset(s[1..]);
      assert Group(s, x.score) == (if s[0].score == x.score then [s[0]] else []) + Group(s[1..], x.score);
    }
  }

  // The groups together are the whole slice: nothing is lost or invented.
  lemma GroupsGivePermutation(s: seq<TenantHealth>, t: seq<TenantHealth>)
    requires SameGroups(s, t)
    ensures multiset(s) == multiset(t)
  {
    forall x
      ensures multiset(s)[x] == multiset(t)[x]
    {
      CountInGroup(s, x);
      CountInGroup(t, x);
      assert Group(s, x.score) == Group(t, x.score);
    }
  }

  lemma GroupOfTail(s: seq<TenantHealth>, score: int)
    requires s != []
    ensures s[0].score == score ==> |Group(s, score)| > 0 && Group(s, score)[0] == s[0]
    ensures Group(s[1..], score) == if s[0].score == score then Group(s, score)[1..] else Group(s, score)
  {
  }

  // The least score comes first in both.
  lemma SameFirstScore(s: seq<TenantHealth>, t: seq<TenantHealth>)
    requires Ordered(s) && Ordered(t) && multiset(s) == multiset(t)
    ensures |s| == |t|
    ensures s != [] ==> s[0].score == t[0].score
  {
    assert |s| == |multiset(s)| && |t| == |multiset(t)|;
    if s != [] {
      assert s[0] in multiset(s) && t[0] in multiset(t);
      assert s[0] in t && t[0] in s;
    }
  }

  // There is one ordered arrangement that keeps the groups, so the sort is the
  // stable sort.
  lemma {:induction false} StableSortIsUnique(s: seq<TenantHealth>, t: seq<TenantHealth>)
    requires Ordered(s) && Ordered(t) && SameGroups(s, t)
    ensures s == t
    decreases |s|
  {
    GroupsGivePermutation(s, t);
    SameFirstScore(s, t);
    if s != [] {
      assert Group(s, s[0].score) == Group(t, s[0].score);
      GroupOfTail(s, s[0].score);
      GroupOfTail(t, s[0].score);
      assert s[0] == t[0];
      SameGroupsOfTails(s, t);
      StableSortIsUnique(s[1..], t[1..]);
      assert s == [s[0]] + s[1..] && t == [t[0]] + t[1..];
    }
  }

  lemma SameGroupsOfTails(s: seq<TenantHealth>, t: seq<TenantHealth>)
    requires s != [] && t != [] && s[0] == t[0] && SameGroups(s, t)
    ensures SameGroups(s[1..], t[1..])
  {
    forall score
      ensures Group(s[1..], score) == Group(t[1..], score)
    {
      assert Group(s, score) == Group(t, score);
      GroupOfTail(s, score);
      GroupOfTail(t, score);
    }
  }

  // ----- buildSummary -----

  datatype Summary = Summary(critical: nat, high: nat, medium: nat, low: nat, avgScore: int)

  function CountRisk(s: seq<TenantHealth>, risk: string): nat {
    if s == [] then 0 else (if s[0].churnRisk == risk then 1 else 0) + CountRisk(s[1..], risk)
  }

  function Total(s: seq<TenantHealth>): int {
    if s == [] then 0 else s[0].score + Total(s[1..])
  }

  // Go's integer division, towards zero
  function Quot(a: int, n: nat): int
    requires n > 0
  {
    if a >= 0 then a / n else -(-a / n)
  }

  lemma {:induction false} OneMoreScore(s: seq<TenantHealth>, x: TenantHealth, risk: string)
    ensures CountRisk(s + [x], risk) == CountRisk(s, risk) + if x.churnRisk == risk then 1 else 0
    ensures Total(s + [x]) == Total(s) + x.score
    decreases |s|
  {
    if s == [] {
      assert (s + [x])[1..] == [];
    } else {
      assert (s + [x])[1..] == s[1..] + [x];
      OneMoreScore(s[1..], x, risk);
    }
  }

  method BuildSummary(scores: seq<TenantHealth>) returns (r: Summary)
    ensures r.critical == CountRisk(scores, "critical") && r.high == CountRisk(scores, "high")
    ensures r.medium == CountRisk(scores, "medium") && r.low == CountRisk(scores, "low")
    ensures r.avgScore == if scores == [] then 0 else Quot(Total(scores), |scores|)
  {
    var critical, high, medium, low, total := 0, 0, 0, 0, 0;
    if |scores| == 0 {
      return Summary(0, 0, 0, 0, 0);
    }
    for i := 0 to |scores|
      invariant total == Total(scores[..i])
      invariant critical == CountRisk(scores[..i], "critical") && high == CountRisk(scores[..i], "high")
      invariant medium == CountRisk(scores[..i], "medium") && low == CountRisk(scores[..i], "low")
    {
      var sc := scores[i];
      assert scores[..i + 1] == scores[..i] + [sc];
      OneMoreScore(scores[..i], sc, "critical");
      OneMoreScore(scores[..i], sc, "high");
      OneMoreScore(scores[..i], sc, "medium");
      OneMoreScore(scores[..i], sc, "low");
      total := total + sc.score;
      if sc.churnRisk == "critical" {
        critical := critical + 1;
      } else if sc.churnRisk == "high" {
        high := high + 1;
      } else if sc.churnRisk == "medium" {
        medium := medium + 1;
      } else if sc.churnRisk == "low" {
        low := low + 1;
      }
    }
    assert scores[..|scores|] == scores;
    r := Summary(critical, high, medium, low, Quot(total, |scores|));
  }

  predicate KnownRisk(x: TenantHealth) {
    x.churnRisk == "critical" || x.churnRisk == "high" || x.churnRisk == "medium" || x.churnRisk == "low"
  }

  function CountAll(s: seq<TenantHealth>): nat {
    CountRisk(s, "critical") + CountRisk(s, "high") + CountRisk(s, "medium") + CountRisk(s, "low")
  }

  function WithRisk(s: seq<TenantHealth>, risk: string): set<int> { set i | 0 <= i < |s| && s[i].churnRisk == risk }

  // A count is the number of tenants whose risk is spelled so.
  lemma {:induction false} CountRiskIs(s: seq<TenantHealth>, risk: string)
    ensures CountRisk(s, risk) == |WithRisk(s, risk)|
    decreases |s|
  {
    if s != [] {
      var n := |s| - 1;
      CountRiskIs(s[..n], risk);
      assert s == s[..n] + [s[n]];
      OneMoreScore(s[..n], s[n], risk);
      OneMoreWithRisk(s, risk);
      hide CountRisk, WithRisk;
    }
  }

  lemma OneMoreWithRisk(s: seq<TenantHealth>, risk: string)
    requires s != []
    ensures var n := |s| - 1;
            |WithRisk(s, risk)| == |WithRisk(s[..n], risk)| + if s[n].churnRisk == risk then 1 else 0
  {
    var n := |s| - 1;
    assert n !in WithRisk(s[..n], risk);
    assert WithRisk(s, risk) == WithRisk(s[..n], risk) + if s[n].churnRisk == risk then {n} else {};
  }

  // The four counts add up to the number of tenants exactly when every tenant's
  // risk is one of the four.
  lemma {:induction false} CountsAddUpExactlyWhen(s: seq<TenantHealth>)
    ensures CountAll(s) <= |s|
    ensures CountAll(s) == |s| <==> forall x :: x in s ==> KnownRisk(x)
    decreases |s|
  {
    if s != [] {
      CountsAddUpExactlyWhen(s[1..]);
      assert CountAll(s) == (if KnownRisk(s[0]) then 1 else 0) + CountAll(s[1..]);
      assert s == [s[0]] + s[1..];
      assert (forall x :: x in s ==> KnownRisk(x)) <==> KnownRisk(s[0]) && forall x :: x in s[1..] ==> KnownRisk(x);
    }
  }

  lemma TimesOneMore(k: int, n: nat)
    ensures k * (n + 1) == k * n + k
  {
  }

  lemma {:induction false} TotalBounds(s: seq<TenantHealth>, lo: int, hi: int)
    requires forall x :: x in s ==> lo <= x.score <= hi
    ensures lo * |s| <= Total(s) <= hi * |s|
    decreases |s|
  {
    if s != [] {
      assert s[0] in s && forall x :: x in s[1..] ==> x in s;
      TotalBounds(s[1..], lo, hi);
      TimesOneMore(lo, |s[1..]|);
      TimesOneMore(hi, |s[1..]|);
    }
  }

  // Rounded towards zero, the average still lies between the least and the
  // greatest score, negative scores included.
  lemma AverageIsBetween(s: seq<TenantHealth>, lo: int, hi: int)
    requires s != [] && forall x :: x in s ==> lo <= x.score <= hi
    ensures lo <= Quot(Total(s), |s|) <= hi
  {
    TotalBounds(s, lo, hi);
    QuotBetween(Total(s), |s|, lo, hi);
  }

  // ... and is the exact average without its fraction.
  lemma AverageIsTruncated(s: seq<TenantHealth>)
    requires s != []
    ensures var a, n := Total(s), |s|;
            var rest := a - Quot(a, n) * n;
            if a >= 0 then 0 <= rest < n else -n < rest <= 0
  {
    var a, n := Total(s), |s|;
    if a >= 0 {
      DivTimes(a, n);
    } else {
      DivTimes(-a, n);
      TimesNegated(-a / n, n);
    }
  }

  lemma TimesNegated(q: int, n: int)
    ensures (-q) * n == -(q * n)
  {
  }

  lemma QuotBetween(a: int, n: nat, lo: int, hi: int)
    requires n > 0 && lo * n <= a <= hi * n
    ensures lo <= Quot(a, n) <= hi
  {
    var q := Quot(a, n);
    if a >= 0 {
      DivTimes(a, n);
    } else {
      DivTimes(-a, n);
      TimesNegated(-a / n, n);
    }
    hide Quot;
    if q < lo {
      MulStep(q + 1, lo, n);
      OneMoreTimes(q, n);
    }
    if q > hi {
      MulStep(hi + 1, q, n);
      OneMoreTimes(hi, n);
    }
  }

  lemma DivTimes(a: nat, n: nat)
    requires n > 0
    ensures a / n * n <= a < a / n * n + n
  {
  }

  lemma OneMoreTimes(k: int, n: int)
    ensures (k + 1) * n == k * n + n
  {
  }

  lemma MulStep(a: int, b: int, n: nat)
    requires a <= b
    ensures a * n <= b * n
  {
  }
}
