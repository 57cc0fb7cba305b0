// The two implementations of "strip what Kubernetes appends to a pod name":
// the hand-written one of the fingerprint and the regular expressions of the
// ingest path, each compared with patterns and then with one another.
module PodSuffix {
  import opened Text
  import opened Regex

  // ----- fingerprint.stripPodSuffix -----

  predicate IsK8sSuffix(s: string) { AllIn(s, K8s) }

  method ScanK8sSuffix(s: string) returns (ok: bool)
    ensures ok == IsK8sSuffix(s)
  {
    var i := 0;
    while i < |s|
      invariant 0 <= i <= |s|
      invariant IsK8sSuffix(s[..i])
    {
      if !IsK8sChar(s[i]) {
        return false;
      }
      i := i + 1;
    }
    return true;
  }

  method ScanDigits(s: string) returns (ok: bool)
    ensures ok == AllDigits(s)
  {
    if s == "" {
      return false;
    }
    var i := 0;
    while i < |s|
      invariant 0 <= i <= |s|
      invariant forall j :: 0 <= j < i ==> IsDigit(s[j])
    {
      if s[i] < '0' || s[i] > '9' {
        return false;
      }
      i := i + 1;
    }
    return true;
  }

  predicate Mixed(s: string) { HasDigit(s) && HasLetter(s) }

  function StripPodSuffix(t: string): (r: string)
    ensures r <= t
    ensures t != "" ==> r != ""
  {
    var i := LastIndexByte(t, '-');
    if i <= 0 then t else
    var rest, last := t[..i], t[i + 1..];
    if |last| == 5 && IsK8sSuffix(last) then
      var j := LastIndexByte(rest, '-');
      if j > 0 && (var mid := rest[j + 1..];
                   (|mid| >= 8 && AllDigits(mid)) || (6 <= |mid| <= 10 && IsK8sSuffix(mid))) then rest[..j]
      else if Mixed(last) then rest
      else t
    else if 6 <= |last| <= 10 && IsK8sSuffix(last) && Mixed(last) then rest
    else t
  }

  // ----- names as dash-separated segments -----

  predicate NoDash(s: string) { '-' !in s }

  datatype Cut = Cut(rest: string, last: string)

  function CutLast(t: string): (r: Option<Cut>)
    ensures r.Some? ==> t == r.value.rest + "-" + r.value.last && NoDash(r.value.last)
    ensures r.None? <==> NoDash(t)
  {
    var i := LastIndexByte(t, '-');
    if i < 0 then None else Some(Cut(t[..i], t[i + 1..]))
  }

  lemma CutOf(rest: string, last: string)
    requires NoDash(last)
    ensures CutLast(rest + "-" + last) == Some(Cut(rest, last))
  {
    var t := rest + "-" + last;
    assert rest + ['-'] + last == t;
    LastIndexAt(rest, '-', last);
    assert t[..|rest|] == rest && t[|rest| + 1..] == last;
  }

  predicate IsShort(last: string) { |last| == 5 && IsK8sSuffix(last) }

  predicate IsHash(mid: string) { 6 <= |mid| <= 10 && IsK8sSuffix(mid) }

  predicate IsMinute(mid: string) { |mid| >= 8 && AllDigits(mid) }

  predicate IsPodMid(mid: string) { IsMinute(mid) || IsHash(mid) }

  lemma SegmentsLackDash(s: string)
    requires IsK8sSuffix(s) || AllDigits(s)
    ensures NoDash(s)
  {
  }

  // The stripper, read on segments instead of indices.
  lemma StripOnSegments(t: string)
    ensures StripPodSuffix(t) ==
            match CutLast(t)
            case None => t
            case Some(Cut(rest, last)) =>
              if rest == "" then t
              else if IsShort(last) then
                match CutLast(rest)
                case Some(Cut(base, mid)) =>
                  if base != "" && IsPodMid(mid) then base else if Mixed(last) then rest else t
                case None => if Mixed(last) then rest else t
              else if IsHash(last) && Mixed(last) then rest
              else t
  {
    hide Mixed, IsK8sSuffix, AllDigits;
  }

  // A non-empty base before a hash or minute.
  function PodBase(rest: string): Option<string> {
    match CutLast(rest)
    case None => None
    case Some(Cut(base, mid)) => if base != "" && IsPodMid(mid) then Some(base) else None
  }

  // The name without its generated suffix, if it ends in one.
  function SuffixBase(t: string): Option<string> {
    match CutLast(t)
    case None => None
    case Some(Cut(rest, last)) =>
      if rest == "" then None
      else if IsShort(last) && PodBase(rest).Some? then PodBase(rest)
      else if (IsShort(last) || IsHash(last)) && Mixed(last) then Some(rest)
      else None
  }

  lemma CutsAreShorter(t: string)
    ensures CutLast(t).Some? ==> |CutLast(t).value.rest| < |t|
  {
  }

  lemma ShortIsNoHash(l: string)
    ensures IsShort(l) ==> !IsHash(l)
  {
  }

  lemma BaseIsShorter(t: string)
    ensures SuffixBase(t).Some? ==> |SuffixBase(t).value| < |t|
  {
    CutsAreShorter(t);
    if CutLast(t).Some? {
      CutsAreShorter(CutLast(t).value.rest);
    }
    hide CutLast, IsPodMid, IsShort, IsHash, Mixed;
  }

  lemma StripsToBase(t: string)
    ensures StripPodSuffix(t) == if SuffixBase(t).Some? then SuffixBase(t).value else t
    ensures SuffixBase(t).Some? ==> |SuffixBase(t).value| < |t|
  {
    BaseIsShorter(t);
    StripOnSegments(t);
    hide StripPodSuffix, CutLast, IsPodMid, IsShort, IsHash, Mixed;
    if CutLast(t).Some? {
      ShortIsNoHash(CutLast(t).value.last);
    }
  }

  // ----- the patterns it stands for -----

  const HASH := Run(K8s, 6, Max(10))
  const MINUTE := Run(Digit, 8, Unbounded)

  // -S{5}
  const SHORT := Cat(Lit('-'), Times(K8s, 5))
  // -S{6,10}
  const LONG := Cat(Lit('-'), HASH)
  // -(\d{8,}|S{6,10})-S{5}
  const POD := Cat(Lit('-'), Cat(Alt(MINUTE, HASH), SHORT))

  // `t` is a non-empty base followed by text that matches the pattern.
  predicate EndsIn(t: string, base: string, re: Regex) {
    base != "" && base <= t && Matches(re, t[|base|..])
  }

  // A bare suffix also has to mix letters and digits.
  predicate EndsInMixed(t: string, base: string, re: Regex) {
    EndsIn(t, base, re) && |base| < |t| && Mixed(t[|base| + 1..])
  }

  predicate IsPod(t: string, base: string) { EndsIn(t, base, POD) }

  predicate IsBare(t: string, base: string) {
    EndsInMixed(t, base, SHORT) || EndsInMixed(t, base, LONG)
  }

  // ----- reading the patterns segment by segment -----

  lemma DashFirst(re: Regex, x: string, y: string)
    requires x == "-" + y
    ensures Matches(Cat(Lit('-'), re), x) <==> Matches(re, y)
  {
    LitFirst('-', re, x);
    assert x[1..] == y;
  }

  lemma DashForm(re: Regex, x: string) returns (y: string)
    requires Matches(Cat(Lit('-'), re), x)
    ensures x == "-" + y && Matches(re, y)
  {
    LitFirst('-', re, x);
    y := x[1..];
  }

  lemma BareMatches(x: string, last: string)
    requires x == "-" + last
    ensures Matches(SHORT, x) <==> IsShort(last)
    ensures Matches(LONG, x) <==> IsHash(last)
  {
    DashFirst(Times(K8s, 5), x, last);
    DashFirst(HASH, x, last);
  }

  lemma ShortForm(x: string) returns (last: string)
    requires Matches(SHORT, x)
    ensures x == "-" + last && IsShort(last)
  {
    last := DashForm(Times(K8s, 5), x);
  }

  lemma LongForm(x: string) returns (last: string)
    requires Matches(LONG, x)
    ensures x == "-" + last && IsHash(last)
  {
    last := DashForm(HASH, x);
  }

  // Two segments, the middle one given by its own pattern.
  lemma TwoSegments(midRe: Regex, mid: string, last: string)
    ensures Matches(midRe, mid) && IsShort(last) ==> Matches(Cat(Lit('-'), Cat(midRe, SHORT)), "-" + mid + "-" + last)
  {
    if Matches(midRe, mid) && IsShort(last) {
      hide *;
      BareMatches("-" + last, last);
      CatBuild(midRe, SHORT, mid, "-" + last);
      var y := mid + ("-" + last);
      assert "-" + mid + "-" + last == "-" + y;
      DashFirst(Cat(midRe, SHORT), "-" + y, y);
    }
  }

  lemma TwoSegmentForm(midRe: Regex, x: string) returns (mid: string, last: string)
    requires Matches(Cat(Lit('-'), Cat(midRe, SHORT)), x)
    ensures x == "-" + mid + "-" + last && Matches(midRe, mid) && IsShort(last)
  {
    hide *;
    var y := DashForm(Cat(midRe, SHORT), x);
    var z;
    mid, z := CatForm(midRe, SHORT, y);
    last := ShortForm(z);
    assert "-" + (mid + ("-" + last)) == "-" + mid + "-" + last;
  }

  lemma MidMatches(m: string)
    ensures Matches(Alt(MINUTE, HASH), m) <==> IsPodMid(m)
  {
    assert Matches(MINUTE, m) <==> IsMinute(m);
    assert Matches(HASH, m) <==> IsHash(m);
  }

  // ----- the hand-written stripper meets the prioritised patterns -----

  lemma TwoCuts(t: string, base: string, mid: string, last: string)
    requires IsPodMid(mid) && IsShort(last)
    requires t == base + ("-" + mid + "-" + last)
    ensures t == base + "-" + mid + "-" + last
    ensures CutLast(t) == Some(Cut(base + "-" + mid, last))
    ensures CutLast(base + "-" + mid) == Some(Cut(base, mid))
  {
    SegmentsLackDash(mid);
    SegmentsLackDash(last);
    hide *;
    assert t == base + "-" + mid + "-" + last;
    CutOf(base + "-" + mid, last);
    CutOf(base, mid);
  }

  lemma PodCuts(t: string, base: string) returns (mid: string, last: string)
    requires IsPod(t, base)
    ensures IsPodMid(mid) && IsShort(last)
    ensures t == base + "-" + mid + "-" + last
    ensures CutLast(t) == Some(Cut(base + "-" + mid, last))
    ensures CutLast(base + "-" + mid) == Some(Cut(base, mid))
  {
    mid, last := TwoSegmentForm(Alt(MINUTE, HASH), t[|base|..]);
    MidMatches(mid);
    assert t == base + t[|base|..];
    TwoCuts(t, base, mid, last);
  }

  lemma PodIsStripped(t: string, base: string)
    requires IsPod(t, base)
    ensures StripPodSuffix(t) == base
  {
    var mid, last := PodCuts(t, base);
    StripOnSegments(t);
  }

  lemma BareCuts(t: string, base: string) returns (last: string)
    requires IsBare(t, base)
    ensures Mixed(last) && (IsShort(last) || IsHash(last))
    ensures CutLast(t) == Some(Cut(base, last))
  {
    var x := t[|base|..];
    if Matches(SHORT, x) {
      last := ShortForm(x);
    } else {
      last := LongForm(x);
    }
    assert t == base + x;
    assert t == base + "-" + last;
    assert t[|base| + 1..] == last;
    SegmentsLackDash(last);
    CutOf(base, last);
  }

  // Built the way Kubernetes builds it, a name is a pod of its base.
  lemma BuiltPodIsPod(base: string, mid: string, suffix: string)
    requires base != "" && IsPodMid(mid) && IsShort(suffix)
    ensures IsPod(base + "-" + mid + "-" + suffix, base)
  {
    var t := base + "-" + mid + "-" + suffix;
    assert t[|base|..] == "-" + mid + "-" + suffix;
    MidMatches(mid);
    TwoSegments(Alt(MINUTE, HASH), mid, suffix);
  }

  lemma BareIsStripped(t: string, base: string)
    requires IsBare(t, base)
    requires forall b :: !IsPod(t, b)
    ensures StripPodSuffix(t) == base
  {
    var last := BareCuts(t, base);
    StripOnSegments(t);
    match CutLast(base)
    case None =>
    case Some(Cut(b, mid)) =>
      if b != "" && IsPodMid(mid) && IsShort(last) {
        BuiltPodIsPod(b, mid, last);
      }
  }

  lemma BuiltBareIsBare(base: string, last: string)
    requires base != "" && Mixed(last) && (IsShort(last) || IsHash(last))
    ensures IsBare(base + "-" + last, base)
  {
    hide Mixed, StripPodSuffix, CutLast;
    var t := base + "-" + last;
    assert t[|base|..] == "-" + last && t[|base| + 1..] == last;
    BareMatches(t[|base|..], last);
  }

  lemma PodBaseIsShorter(t: string, base: string)
    requires IsPod(t, base)
    ensures CutLast(t).Some? && base != CutLast(t).value.rest
  {
    var mid, last := PodCuts(t, base);
    assert |base + "-" + mid| > |base|;
  }

  // Whatever the code strips is one of the patterns, and it strips the pod
  // pattern in preference to a bare suffix.
  lemma StrippedIsPattern(t: string)
    requires StripPodSuffix(t) != t
    ensures var r := StripPodSuffix(t); IsPod(t, r) || (IsBare(t, r) && forall b :: !IsPod(t, b))
  {
    StripOnSegments(t);
    hide StripPodSuffix, CutLast, EndsIn;
    var r := StripPodSuffix(t);
    var Cut(rest, last) := CutLast(t).value;
    if r != rest {
      BuiltPodIsPod(r, CutLast(rest).value.last, last);
    } else {
      BuiltBareIsBare(rest, last);
      forall b | IsPod(t, b)
        ensures false
      {
        PodIsStripped(t, b);
        PodBaseIsShorter(t, b);
      }
    }
  }

  // The stripper is the prioritised choice: pod pattern, else mixed bare
  // suffix, else nothing. Each pattern names at most one base.
  lemma StripMeetsPatterns(t: string, base: string)
    ensures IsPod(t, base) ==> StripPodSuffix(t) == base
    ensures IsBare(t, base) && (forall b :: !IsPod(t, b)) ==> StripPodSuffix(t) == base
    ensures (forall b :: !IsPod(t, b) && !IsBare(t, b)) ==> StripPodSuffix(t) == t
    ensures StripPodSuffix(t) == base && base != t ==>
              IsPod(t, base) || (IsBare(t, base) && forall b :: !IsPod(t, b))
  {
    if IsPod(t, base) {
      PodIsStripped(t, base);
    }
    if IsBare(t, base) && forall b :: !IsPod(t, b) {
      BareIsStripped(t, base);
    }
    if StripPodSuffix(t) != t {
      StrippedIsPattern(t);
    }
  }

  // A name ends in a generated suffix exactly when one of the patterns says so.
  lemma SuffixBaseMeetsPatterns(t: string, base: string)
    ensures SuffixBase(t) == Some(base) <==> IsPod(t, base) || (IsBare(t, base) && forall b :: !IsPod(t, b))
  {
    StripMeetsPatterns(t, base);
    StripsToBase(t);
    if IsPod(t, base) {
      var mid, last := PodCuts(t, base);
      assert |t| > |base|;
    } else if IsBare(t, base) {
      var last := BareCuts(t, base);
      assert |t| > |base|;
    }
    hide StripPodSuffix, SuffixBase, IsPod, IsBare;
  }

  lemma SuffixTail(t: string)
    requires SuffixBase(t).Some?
    ensures CutLast(t).Some? && CutLast(t).value.rest != "" && 5 <= |CutLast(t).value.last| <= 10
  {
    hide IsK8sSuffix, Mixed, IsPodMid;
  }

  // ----- ingest.stripPodSuffix -----

  // -S{6,10}-S{5}$
  const REPLICA_SET := Cat(Lit('-'), Cat(HASH, SHORT))

  function IngestStripPodSuffix(pod: string): string {
    if MatchesAtEnd(REPLICA_SET, pod) then CutAtEnd(REPLICA_SET, pod) else CutAtEnd(SHORT, pod)
  }

  lemma ReplicaSetPlace(t: string, i: nat)
    requires i <= |t| && Matches(REPLICA_SET, t[i..])
    ensures CutLast(t).Some? && IsShort(CutLast(t).value.last)
    ensures var inner := CutLast(CutLast(t).value.rest);
            inner.Some? && IsHash(inner.value.last) && inner.value.rest == t[..i]
  {
    var mid, last := TwoSegmentForm(HASH, t[i..]);
    assert IsHash(mid) && IsPodMid(mid);
    hide *;
    assert t == t[..i] + t[i..];
    TwoCuts(t, t[..i], mid, last);
  }

  lemma ShortPlace(t: string, i: nat)
    requires i <= |t| && Matches(SHORT, t[i..])
    ensures CutLast(t).Some? && IsShort(CutLast(t).value.last) && CutLast(t).value.rest == t[..i]
  {
    var last := ShortForm(t[i..]);
    assert t == t[..i] + "-" + last;
    SegmentsLackDash(last);
    CutOf(t[..i], last);
  }

  lemma ReplicaSetFound(base: string, mid: string, last: string)
    requires IsHash(mid) && IsShort(last)
    ensures MatchesAtEnd(REPLICA_SET, base + "-" + mid + "-" + last)
  {
    var t := base + "-" + mid + "-" + last;
    assert t[|base|..] == "-" + mid + "-" + last;
    TwoSegments(HASH, mid, last);
  }

  lemma ShortFound(rest: string, last: string)
    requires IsShort(last)
    ensures MatchesAtEnd(SHORT, rest + "-" + last)
  {
    var t := rest + "-" + last;
    assert t[|rest|..] == "-" + last;
    BareMatches(t[|rest|..], last);
  }

  // The ingest stripper, read on segments.
  lemma IngestOnSegments(t: string)
    ensures IngestStripPodSuffix(t) ==
            match CutLast(t)
            case None => t
            case Some(Cut(rest, last)) =>
              if IsShort(last) then
                match CutLast(rest)
                case Some(Cut(base, mid)) => if IsHash(mid) then base else rest
                case None => rest
              else t
  {
    if MatchesAtEnd(REPLICA_SET, t) {
      var r := CutAtEnd(REPLICA_SET, t);
      ReplicaSetPlace(t, |r|);
    } else if MatchesAtEnd(SHORT, t) {
      var r := CutAtEnd(SHORT, t);
      ShortPlace(t, |r|);
      IngestHashFound(t);
    } else {
      IngestHashFound(t);
    }
  }

  lemma IngestHashFound(t: string)
    ensures CutLast(t).Some? && IsShort(CutLast(t).value.last) ==>
              MatchesAtEnd(SHORT, t) &&
              var inner := CutLast(CutLast(t).value.rest);
              inner.Some? && IsHash(inner.value.last) ==> MatchesAtEnd(REPLICA_SET, t)
  {
    if CutLast(t).Some? && IsShort(CutLast(t).value.last) {
      var Cut(rest, last) := CutLast(t).value;
      ShortFound(rest, last);
      var inner := CutLast(rest);
      if inner.Some? && IsHash(inner.value.last) {
        ReplicaSetFound(inner.value.rest, inner.value.last, last);
      }
    }
  }

  // ----- the two implementations side by side -----

  // Exactly where the two agree: on a pod of a non-empty workload with a
  // template hash, on a bare mixed suffix whose preceding segment is neither a
  // hash nor a minute, and on names with no generated suffix at all.
  predicate SameStrip(t: string) {
    match CutLast(t)
    case None => true
    case Some(Cut(rest, last)) =>
      if IsShort(last) then
        match CutLast(rest)
        case Some(Cut(base, mid)) =>
          if IsHash(mid) then base != "" else (base == "" || !IsMinute(mid)) && Mixed(last)
        case None => rest != "" && Mixed(last)
      else rest == "" || !IsHash(last) || !Mixed(last)
  }

  lemma StrippersAgreeExactlyWhen(t: string)
    ensures StripPodSuffix(t) == IngestStripPodSuffix(t) <==> SameStrip(t)
  {
    StripOnSegments(t);
    IngestOnSegments(t);
  }

  // Deployment and DaemonSet pods meet the condition, so both name the same
  // workload; StatefulSet ordinals are kept by both.
  lemma DeploymentPodsAgree(base: string, hash: string, suffix: string)
    requires base != "" && IsHash(hash) && IsShort(suffix)
    ensures var pod := base + "-" + hash + "-" + suffix;
            StripPodSuffix(pod) == IngestStripPodSuffix(pod) == base
  {
    var pod := base + "-" + hash + "-" + suffix;
    SegmentsLackDash(hash);
    SegmentsLackDash(suffix);
    CutOf(base + "-" + hash, suffix);
    CutOf(base, hash);
    StripOnSegments(pod);
    IngestOnSegments(pod);
  }

  lemma DaemonSetPodsAgree(base: string, suffix: string)
    requires base != "" && IsShort(suffix) && Mixed(suffix)
    requires CutLast(base).Some? ==> !IsPodMid(CutLast(base).value.last)
    ensures var pod := base + "-" + suffix;
            StripPodSuffix(pod) == IngestStripPodSuffix(pod) == base
  {
    var pod := base + "-" + suffix;
    SegmentsLackDash(suffix);
    CutOf(base, suffix);
    StripOnSegments(pod);
    IngestOnSegments(pod);
  }

  lemma OrdinalIsKept(base: string, ordinal: string)
    requires AllDigits(ordinal) && |ordinal| < 5
    ensures var name := base + "-" + ordinal;
            StripPodSuffix(name) == IngestStripPodSuffix(name) == name
  {
    var name := base + "-" + ordinal;
    SegmentsLackDash(ordinal);
    CutOf(base, ordinal);
    StripOnSegments(name);
    IngestOnSegments(name);
  }

  // The two ways a CronJob pod and a word that only looks like a suffix miss
  // the condition.
  lemma CronJobPodsDiffer(base: string, minute: string, suffix: string)
    requires base != "" && IsMinute(minute) && !IsHash(minute) && IsShort(suffix)
    ensures var pod := base + "-" + minute + "-" + suffix;
            StripPodSuffix(pod) == base && IngestStripPodSuffix(pod) == base + "-" + minute
  {
    var pod := base + "-" + minute + "-" + suffix;
    SegmentsLackDash(minute);
    SegmentsLackDash(suffix);
    CutOf(base + "-" + minute, suffix);
    CutOf(base, minute);
    StripOnSegments(pod);
    IngestOnSegments(pod);
  }

  lemma PlainWordsDiffer(base: string, word: string)
    requires base != "" && IsShort(word) && !Mixed(word)
    requires CutLast(base).Some? ==> !IsPodMid(CutLast(base).value.last)
    ensures var name := base + "-" + word;
            StripPodSuffix(name) == name && IngestStripPodSuffix(name) == base
  {
    var name := base + "-" + word;
    SegmentsLackDash(word);
    CutOf(base, word);
    StripOnSegments(name);
    IngestOnSegments(name);
  }

  // A last part without a digit, or without a letter, is no generated suffix
  // unless a template hash or a scheduled minute stands in front of it: plain
  // words and ordinals survive.
  lemma OnlyMixedIsCut(base: string, last: string)
    requires '-' !in base && '-' !in last
    requires (forall i :: 0 <= i < |last| ==> !('0' <= last[i] <= '9'))
             || (forall i :: 0 <= i < |last| ==> !('a' <= last[i] <= 'z'))
    ensures StripPodSuffix(base + "-" + last) == base + "-" + last
  {
    CutOf(base, last);
    StripOnSegments(base + "-" + last);
    assert !Mixed(last);
    hide IsK8sSuffix;
  }
}
