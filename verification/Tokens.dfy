// fingerprint.normalizeToken: one word of a label value, rewritten to a
// placeholder or stripped of the parts that change between occurrences.
module Tokens {
  import opened Text
  import opened Regex
  import opened PodSuffix

  // ----- the four patterns -----

  const D2 := Times(Digit, 2)
  const DATE_SEP := Times(OneOf("-."), 1)
  // (\.\d+)?
  const FRACTION := Opt(Cat(Lit('.'), Run(Digit, 1, Unbounded)))
  // (z|[+-]\d{2}:?\d{2})?
  const ZONE := Opt(Alt(Lit('z'), Cat(Times(OneOf("+-"), 1), Cat(D2, Cat(Opt(Lit(':')), D2)))))
  // [t_]\d{2}:\d{2}(:\d{2}(\.\d+)?)?(z|[+-]\d{2}:?\d{2})?
  const DATE_TIME :=
    Cat(Times(OneOf("t_"), 1),
        Cat(D2, Cat(Lit(':'), Cat(D2, Cat(Opt(Cat(Lit(':'), Cat(D2, FRACTION))), ZONE)))))

  const DATE_RE := Cat(Times(Digit, 4), Cat(DATE_SEP, Cat(D2, Cat(DATE_SEP, Cat(D2, Opt(DATE_TIME))))))

  const CLOCK_RE := Cat(D2, Cat(Lit(':'), Cat(D2, Cat(Lit(':'), Cat(D2, Cat(FRACTION, ZONE))))))

  const X4 := Times(HexDigit, 4)
  const UUID_RE :=
    Cat(Times(HexDigit, 8), Cat(Lit('-'), Cat(X4, Cat(Lit('-'), Cat(X4, Cat(Lit('-'),
    Cat(X4, Cat(Lit('-'), Times(HexDigit, 12)))))))))

  const HEX_ID_RE := Run(HexDigit, 12, Unbounded)

  // ----- net.ParseIP and net.SplitHostPort -----

  datatype HostPort = HostPort(host: string, port: string)

  // The two functions of Go's net package, known only by the laws below.
  datatype Net = Net(parseIP: string -> bool, splitHostPort: string -> Option<HostPort>) {
    ghost predicate Lawful() {
      && (forall s :: parseIP(s) ==> '.' in s || ':' in s)
      && (forall s :: splitHostPort(s).Some? ==> ':' in s && |splitHostPort(s).value.host| < |s|)
    }
  }

  function IsIP(s: string, net: Net): bool {
    var i := IndexByte(s, '%');
    net.parseIP(if i > 0 then s[..i] else s)
  }

  // ----- normalizeNumber -----

  function NormalizeNumber(t: string): string {
    if |t| in {10, 13, 16, 19} && 1_000_000_000 <= DecimalValue(t[..10]) < 4_102_444_800 then "<ts>"
    else if |t| >= 6 then "<num>"
    else t
  }

  // ----- normalizeToken -----

  function NormalizeToken(t: string, net: Net): string
    requires net.Lawful()
    decreases |t|
  {
    var n := |t|;
    if n >= 10 && (t[4] == '-' || t[4] == '.') && Matches(DATE_RE, t) then "<ts>"
    else if n >= 8 && t[2] == ':' && Matches(CLOCK_RE, t) then "<ts>"
    else if n == 36 && t[8] == '-' && Matches(UUID_RE, t) then "<uuid>"
    else if ('.' in t || ':' in t) && IsIP(t, net) then "<ip>"
    else if ':' in t && IsHostPort(t, net) then
      var host := net.splitHostPort(t).value.host;
      if IsIP(host, net) then "<ip>" else NormalizeToken(host, net)
    else if AllDigits(t) then NormalizeNumber(t)
    else if n >= 12 && Matches(HEX_ID_RE, t) && HasDigit(t) && HasLetter(t) then "<hex>"
    else StripPodSuffix(t)
  }

  predicate IsHostPort(t: string, net: Net) {
    net.splitHostPort(t).Some? && AllDigits(net.splitHostPort(t).value.port)
  }

  // The same rewriting with every pattern and the IP test tried on every
  // word, and no length or character check in front of them.
  function NormalizeTokenUnguarded(t: string, net: Net): string
    requires net.Lawful()
    decreases |t|
  {
    if Matches(DATE_RE, t) || Matches(CLOCK_RE, t) then "<ts>"
    else if Matches(UUID_RE, t) then "<uuid>"
    else if IsIP(t, net) then "<ip>"
    else if IsHostPort(t, net) then
      var host := net.splitHostPort(t).value.host;
      if IsIP(host, net) then "<ip>" else NormalizeTokenUnguarded(host, net)
    else if AllDigits(t) then NormalizeNumber(t)
    else if Matches(HEX_ID_RE, t) && HasDigit(t) && HasLetter(t) then "<hex>"
    else StripPodSuffix(t)
  }

  // Unix times in seconds, milli-, micro- or nanoseconds between 2001-09-09 and
  // 2100, read in their own unit, are exactly the numbers that become "<ts>".
  lemma TimestampsAre(t: string)
    requires AllDigits(t)
    ensures NormalizeNumber(t) == "<ts>" <==>
            |t| in {10, 13, 16, 19} &&
            1_000_000_000 * Pow10(|t| - 10) <= DecimalValue(t) < 4_102_444_800 * Pow10(|t| - 10)
    ensures NormalizeNumber(t) == t <==> |t| < 6
  {
    if |t| in {10, 13, 16, 19} {
      var head, tail := t[..10], t[10..];
      assert t == head + tail;
      DecimalValueOfConcat(head, tail);
      ScaledBounds(DecimalValue(head), DecimalValue(tail), Pow10(|t| - 10));
    }
    assert |t| >= 6 ==> NormalizeNumber(t)[0] == '<' && IsDigit(t[0]);
  }

  lemma ScaledBounds(v: int, r: int, p: nat)
    requires 0 <= r < p
    ensures 1_000_000_000 <= v <==> 1_000_000_000 * p <= v * p + r
    ensures v < 4_102_444_800 <==> v * p + r < 4_102_444_800 * p
  {
    BoundScales(1_000_000_000, v, r, p);
    BoundScales(4_102_444_800, v, r, p);
  }

  lemma BoundScales(b: int, v: int, r: int, p: nat)
    requires 0 <= r < p
    ensures b <= v <==> b * p <= v * p + r
  {
    if b <= v {
      assert (v - b) * p >= 0;
    } else {
      assert (b - v - 1) * p >= 0;
    }
  }

  // ----- what the patterns force on a word -----

  lemma DateShape(t: string)
    requires Matches(DATE_RE, t)
    ensures |t| >= 10
    ensures t[4] in "-." && t[7] in "-."
    ensures IsDigit(t[8]) && IsDigit(t[9])
    ensures |t| > 10 ==> ':' in t
  {
    hide Matches;
    FixedRunFirst(Digit, 4, Cat(DATE_SEP, Cat(D2, Cat(DATE_SEP, Cat(D2, Opt(DATE_TIME))))), t);
    OneOfFirst("-.", Cat(D2, Cat(DATE_SEP, Cat(D2, Opt(DATE_TIME)))), t[4..]);
    assert t[4..][1..] == t[5..];
    TwoDigitsFirst(Cat(DATE_SEP, Cat(D2, Opt(DATE_TIME))), t[5..]);
    assert t[5..][2..] == t[7..];
    OneOfFirst("-.", Cat(D2, Opt(DATE_TIME)), t[7..]);
    assert t[7..][1..] == t[8..];
    TwoDigitsFirst(Opt(DATE_TIME), t[8..]);
    assert t[8..][2..] == t[10..];
    if |t| > 10 {
      OptForm(DATE_TIME, t[10..]);
      DateTimeHasColon(t[10..]);
      assert forall c :: c in t[10..] ==> c in t;
    }
  }

  lemma OptForm(re: Regex, s: string)
    requires Matches(Opt(re), s) && s != ""
    ensures Matches(re, s)
  {
  }

  lemma DateTimeHasColon(y: string)
    requires Matches(DATE_TIME, y)
    ensures ':' in y
  {
    var rest := Cat(Lit(':'), Cat(D2, Cat(Opt(Cat(Lit(':'), Cat(D2, FRACTION))), ZONE)));
    hide Matches;
    OneOfFirst("t_", Cat(D2, rest), y);
    TwoDigitsFirst(rest, y[1..]);
    LitFirst(':', Cat(D2, Cat(Opt(Cat(Lit(':'), Cat(D2, FRACTION))), ZONE)), y[1..][2..]);
    assert y[1..][2..][0] == y[3];
  }

  lemma ClockShape(t: string)
    requires Matches(CLOCK_RE, t)
    ensures |t| >= 8 && t[2] == ':'
  {
    MatchIsLongEnough(CLOCK_RE, t);
    hide Matches;
    var rest := Cat(D2, Cat(Lit(':'), Cat(D2, Cat(FRACTION, ZONE))));
    FixedRunFirst(Digit, 2, Cat(Lit(':'), rest), t);
    LitFirst(':', rest, t[2..]);
  }

  lemma HexGroup(n: nat, rest: Regex, t: string)
    requires Matches(Cat(Times(HexDigit, n), Cat(Lit('-'), rest)), t)
    ensures |t| > n && t[n] == '-' && Matches(rest, t[n + 1..])
    ensures NoSeparators(t[n + 1..]) ==> NoSeparators(t)
  {
    FixedRunFirst(HexDigit, n, Cat(Lit('-'), rest), t);
    LitFirst('-', rest, t[n..]);
    assert t[n..][1..] == t[n + 1..];
    hide Matches;
    HexRunHasNoSeparators(t[..n]);
    assert t == t[..n] + ['-'] + t[n + 1..];
  }

  lemma HexRunHasNoSeparators(s: string)
    requires AllIn(s, HexDigit)
    ensures NoSeparators(s)
  {
  }

  lemma UuidShape(t: string)
    requires Matches(UUID_RE, t)
    ensures |t| == 36 && t[8] == '-' && '-' !in t[24..] && NoSeparators(t)
  {
    hide Matches;
    var r4 := Times(HexDigit, 12);
    var r3 := Cat(X4, Cat(Lit('-'), r4));
    var r2 := Cat(X4, Cat(Lit('-'), r3));
    var r1 := Cat(X4, Cat(Lit('-'), r2));
    HexGroup(8, r1, t);
    var t1 := t[9..];
    HexGroup(4, r2, t1);
    var t2 := t1[5..];
    HexGroup(4, r3, t2);
    var t3 := t2[5..];
    HexGroup(4, r4, t3);
    LastHexGroup(12, t3[5..]);
    assert t3[5..] == t[24..];
  }

  lemma LastHexGroup(n: nat, s: string)
    requires Matches(Times(HexDigit, n), s)
    ensures |s| == n && NoSeparators(s) && '-' !in s
  {
  }

  lemma IPHasSeparator(s: string, net: Net)
    requires net.Lawful() && IsIP(s, net)
    ensures '.' in s || ':' in s
  {
    var i := IndexByte(s, '%');
    assert i > 0 ==> forall c :: c in s[..i] ==> c in s;
  }

  // The checks in front of the patterns are pure filters: no word is decided
  // differently with them.
  lemma {:induction false} GuardsAreFilters(t: string, net: Net)
    requires net.Lawful()
    ensures NormalizeToken(t, net) == NormalizeTokenUnguarded(t, net)
    decreases |t|
  {
    if Matches(DATE_RE, t) {
      DateShape(t);
    } else if Matches(CLOCK_RE, t) {
      ClockShape(t);
    } else if Matches(UUID_RE, t) {
      UuidShape(t);
    } else if IsIP(t, net) {
      IPHasSeparator(t, net);
    } else if IsHostPort(t, net) {
      GuardsAreFilters(net.splitHostPort(t).value.host, net);
    }
  }

  // ----- words the rewriting leaves to the suffix stripper -----

  // A word without '.' and ':' is no address, no time and no host:port.
  predicate NoSeparators(t: string) { '.' !in t && ':' !in t }

  lemma PatternsNeed(t: string)
    ensures Matches(DATE_RE, t) ==> HasDigit(t) && (':' in t || (|t| == 10 && t[7] in "-."))
    ensures Matches(CLOCK_RE, t) ==> ':' in t
    ensures Matches(UUID_RE, t) ==> '-' in t && |t| == 36 && '-' !in t[24..]
    ensures AllDigits(t) ==> HasDigit(t)
  {
    if Matches(DATE_RE, t) {
      DateShape(t);
      assert HasDigit(t);
    }
    if Matches(CLOCK_RE, t) {
      ClockShape(t);
      assert t[2] in t;
    }
    if Matches(UUID_RE, t) {
      UuidShape(t);
      assert t[8] in t;
    }
    if AllDigits(t) {
      assert IsDigit(t[0]);
    }
  }

  lemma PlainTokenIsKept(t: string, net: Net)
    requires net.Lawful() && NoSeparators(t) && '-' !in t && !HasDigit(t)
    ensures NormalizeToken(t, net) == t
  {
    GuardsAreFilters(t, net);
    PatternsNeed(t);
    if IsIP(t, net) {
      IPHasSeparator(t, net);
    }
  }

  lemma DashIsNotDigit(t: string)
    requires '-' in t
    ensures !AllDigits(t) && !Matches(HEX_ID_RE, t)
  {
  }

  lemma AfterDash(rest: string, last: string)
    requires NoDash(last) && rest != "" && 5 <= |last| <= 10
    ensures var t := rest + "-" + last;
            && '-' in t && (|t| == 10 ==> t[7] != '-') && (|t| == 36 ==> '-' in t[24..])
  {
    var t := rest + "-" + last;
    assert t[|rest|] == '-';
    assert |t| == 10 ==> t[7] == last[6 - |rest|];
    assert |t| == 36 ==> t[24..][|rest| - 24] == '-';
  }

  // No date, UUID, address or number rule claims a name that ends in a
  // generated suffix: it becomes the name without it.
  lemma SuffixedToken(t: string, net: Net)
    requires net.Lawful() && NoSeparators(t) && SuffixBase(t).Some?
    ensures NormalizeToken(t, net) == SuffixBase(t).value
  {
    SuffixTail(t);
    AfterDash(CutLast(t).value.rest, CutLast(t).value.last);
    GuardsAreFilters(t, net);
    PatternsNeed(t);
    if IsIP(t, net) {
      IPHasSeparator(t, net);
    }
    DashIsNotDigit(t);
    StripsToBase(t);
    assert |t| == 10 ==> t[7] in t;
    hide Matches, StripPodSuffix, SuffixBase, CutLast, IsIP, HasDigit, HasLetter, NormalizeNumber;
  }

  // A Deployment or CronJob pod of any workload named over [a-z0-9-]
  // normalises to that workload.
  lemma PodNormalizesToBase(base: string, mid: string, suffix: string, net: Net)
    requires net.Lawful()
    requires base != "" && NoSeparators(base) && IsPodMid(mid) && IsShort(suffix)
    ensures NormalizeToken(base + "-" + mid + "-" + suffix, net) == base
  {
    var t := base + "-" + mid + "-" + suffix;
    PartsHaveNoSeparators(mid);
    PartsHaveNoSeparators(suffix);
    assert NoSeparators(t);
    hide *;
    BuiltPodIsPod(base, mid, suffix);
    SuffixBaseMeetsPatterns(t, base);
    SuffixedToken(t, net);
  }

  lemma PartsHaveNoSeparators(s: string)
    requires IsPodMid(s) || IsShort(s)
    ensures NoSeparators(s)
  {
  }

  // A mixed bare suffix behind a segment that is no hash or minute.
  lemma BareSuffix(base: string, s: string)
    requires base != "" && IsShort(s) && Mixed(s) && PodBase(base) == None
    ensures SuffixBase(base + "-" + s) == Some(base)
  {
    SegmentsLackDash(s);
    CutOf(base, s);
  }

  // ----- when one pass is enough -----

  predicate IsHexID(t: string) { Matches(HEX_ID_RE, t) && HasDigit(t) && HasLetter(t) }

  predicate IsTime(t: string) { Matches(DATE_RE, t) || Matches(CLOCK_RE, t) }

  // One of the rules applies to the word.
  predicate Claimed(t: string, net: Net) {
    || IsTime(t) || Matches(UUID_RE, t) || IsIP(t, net) || IsHostPort(t, net)
    || (AllDigits(t) && |t| >= 6) || IsHexID(t) || SuffixBase(t).Some?
  }

  predicate IsPlaceholder(r: string) {
    r == "<ts>" || r == "<uuid>" || r == "<ip>" || r == "<num>" || r == "<hex>"
  }

  // A word becomes a placeholder or a part of itself.
  lemma {:induction false} ResultShape(t: string, net: Net)
    requires net.Lawful()
    ensures IsPlaceholder(NormalizeToken(t, net)) || |NormalizeToken(t, net)| <= |t|
    decreases |t|
  {
    GuardsAreFilters(t, net);
    if IsHostPort(t, net) {
      var host := net.splitHostPort(t).value.host;
      ResultShape(host, net);
      GuardsAreFilters(host, net);
    }
    hide Matches, HasDigit, HasLetter, IsIP;
  }

  lemma PlaceholderIsKept(r: string, net: Net)
    requires net.Lawful() && IsPlaceholder(r)
    ensures NoSeparators(r) && NormalizeToken(r, net) == r
  {
    PlainTokenIsKept(r, net);
  }

  lemma ClaimedIsLonger(t: string, net: Net)
    requires net.Lawful()
    ensures IsTime(t) ==> |t| > 4
    ensures Matches(UUID_RE, t) ==> |t| == 36
    ensures IsIP(t, net) || IsHostPort(t, net) ==> !NoSeparators(t)
    ensures IsHexID(t) ==> |t| >= 12
    ensures AllDigits(t) || IsHexID(t) ==> SuffixBase(t) == None
    ensures AllDigits(t) ==> !IsHexID(t)
  {
    if Matches(DATE_RE, t) {
      DateShape(t);
    }
    if Matches(CLOCK_RE, t) {
      ClockShape(t);
    }
    if Matches(UUID_RE, t) {
      UuidShape(t);
    }
    if IsIP(t, net) {
      IPHasSeparator(t, net);
    }
    NumbersHaveNoSuffix(t);
    hide Matches, SuffixBase, AllDigits, IsIP;
  }

  lemma NumbersHaveNoSuffix(t: string)
    ensures IsHexID(t) ==> |t| >= 12
    ensures AllDigits(t) || IsHexID(t) ==> SuffixBase(t) == None
    ensures AllDigits(t) ==> !IsHexID(t)
  {
    hide SuffixBase;
    if AllDigits(t) || IsHexID(t) {
      if '-' in t {
        DashIsNotDigit(t);
      }
      NoDashNoSuffix(t);
    }
  }

  lemma NoDashNoSuffix(t: string)
    requires NoDash(t)
    ensures SuffixBase(t) == None
  {
  }

  lemma PlaceholderShape(r: string)
    requires IsPlaceholder(r)
    ensures |r| <= 6 && NoSeparators(r) && r[0] == '<'
  {
  }

  lemma AddressIsRewritten(t: string, net: Net)
    requires net.Lawful() && !IsTime(t) && !Matches(UUID_RE, t) && (IsIP(t, net) || IsHostPort(t, net))
    ensures NormalizeToken(t, net) != t
  {
    var r := NormalizeToken(t, net);
    GuardsAreFilters(t, net);
    ClaimedIsLonger(t, net);
    hide Matches, StripPodSuffix, AllDigits, HasDigit, HasLetter, NormalizeNumber;
    if IsIP(t, net) {
      PlaceholderShape("<ip>");
    } else {
      var host := net.splitHostPort(t).value.host;
      ResultShape(host, net);
      GuardsAreFilters(host, net);
      if IsPlaceholder(r) {
        PlaceholderShape(r);
      }
    }
  }

  lemma NumberIsRewritten(t: string)
    requires AllDigits(t)
    ensures NormalizeNumber(t) == t <==> |t| < 6
  {
    TimestampsAre(t);
  }

  // The rewriting leaves a word alone exactly when no rule applies to it.
  lemma FixedExactlyWhen(t: string, net: Net)
    requires net.Lawful()
    ensures NormalizeToken(t, net) == t <==> !Claimed(t, net)
  {
    ClaimedIsLonger(t, net);
    if !IsTime(t) && !Matches(UUID_RE, t) && (IsIP(t, net) || IsHostPort(t, net)) {
      AddressIsRewritten(t, net);
    } else {
      GuardsAreFilters(t, net);
      if AllDigits(t) {
        NumberIsRewritten(t);
      }
      StripsToBase(t);
      assert |"<ts>"| == 4 && |"<uuid>"| == 6 && |"<hex>"| == 5;
      hide Matches, StripPodSuffix, SuffixBase, HasDigit, HasLetter, IsIP, IsHostPort, AllDigits, NormalizeNumber;
    }
  }

  // ----- words that stand for the same thing -----

  // An address, with or without a port.
  predicate IsAddress(t: string, net: Net) {
    !IsTime(t) && (IsIP(t, net) || (IsHostPort(t, net) && IsIP(net.splitHostPort(t).value.host, net)))
  }

  // A date, a time of day or a Unix time.
  predicate IsMoment(t: string) { IsTime(t) || (AllDigits(t) && NormalizeNumber(t) == "<ts>") }

  predicate IsLongNumber(t: string) { AllDigits(t) && NormalizeNumber(t) == "<num>" }

  // Two ports of one host.
  predicate IsOfHost(t: string, host: string, net: Net) {
    !IsTime(t) && !IsIP(t, net) && IsHostPort(t, net) && net.splitHostPort(t).value.host == host
  }

  // A pod of any kind or a ReplicaSet of the workload.
  predicate IsOfWorkload(t: string, base: string) { NoSeparators(t) && SuffixBase(t) == Some(base) }

  // They differ only in what changes between occurrences of one problem.
  ghost predicate Interchangeable(a: string, b: string, net: Net) {
    || a == b
    || (IsMoment(a) && IsMoment(b))
    || (Matches(UUID_RE, a) && Matches(UUID_RE, b))
    || (IsAddress(a, net) && IsAddress(b, net))
    || (IsLongNumber(a) && IsLongNumber(b))
    || (IsHexID(a) && IsHexID(b))
    || (exists host :: IsOfHost(a, host, net) && IsOfHost(b, host, net))
    || (exists base :: IsOfWorkload(a, base) && IsOfWorkload(b, base))
  }

  lemma NumbersAreNotClaimedBefore(t: string, net: Net)
    requires net.Lawful() && (AllDigits(t) || IsHexID(t))
    ensures !IsTime(t) && !Matches(UUID_RE, t) && !IsIP(t, net) && !IsHostPort(t, net)
  {
    PatternsNeed(t);
    if IsIP(t, net) {
      IPHasSeparator(t, net);
    }
    if Matches(DATE_RE, t) {
      DateShape(t);
    }
  }

  lemma PlaceholderOf(t: string, net: Net)
    requires net.Lawful()
    ensures IsMoment(t) ==> NormalizeToken(t, net) == "<ts>"
    ensures Matches(UUID_RE, t) ==> NormalizeToken(t, net) == "<uuid>"
    ensures IsAddress(t, net) ==> NormalizeToken(t, net) == "<ip>"
    ensures IsLongNumber(t) ==> NormalizeToken(t, net) == "<num>"
    ensures IsHexID(t) ==> NormalizeToken(t, net) == "<hex>"
  {
    GuardsAreFilters(t, net);
    if AllDigits(t) || IsHexID(t) {
      NumbersAreNotClaimedBefore(t, net);
      ClaimedIsLonger(t, net);
    }
    if Matches(UUID_RE, t) {
      UuidShape(t);
      PatternsNeed(t);
    }
    if IsTime(t) {
      PatternsNeed(t);
    }
    if IsIP(t, net) {
      IPHasSeparator(t, net);
    }
    hide Matches, StripPodSuffix, NormalizeNumber, HasDigit, HasLetter, IsIP;
  }

  // Such words become the same word.
  lemma InterchangeableSameToken(a: string, b: string, net: Net)
    requires net.Lawful() && Interchangeable(a, b, net)
    ensures NormalizeToken(a, net) == NormalizeToken(b, net)
  {
    PlaceholderOf(a, net);
    PlaceholderOf(b, net);
    hide NormalizeToken, Matches, IsIP, SuffixBase, AllDigits, NormalizeNumber, IsHexID, IsAddress, IsMoment;
    if host :| IsOfHost(a, host, net) && IsOfHost(b, host, net) {
      HostOnly(a, host, net);
      HostOnly(b, host, net);
    } else if base :| IsOfWorkload(a, base) && IsOfWorkload(b, base) {
      SuffixedToken(a, net);
      SuffixedToken(b, net);
    }
  }

  lemma HostOnly(t: string, host: string, net: Net)
    requires net.Lawful() && IsOfHost(t, host, net)
    ensures NormalizeToken(t, net) == if IsIP(host, net) then "<ip>" else NormalizeToken(host, net)
  {
    GuardsAreFilters(t, net);
    GuardsAreFilters(host, net);
    if Matches(UUID_RE, t) {
      UuidShape(t);
    }
    hide Matches, StripPodSuffix, IsIP, AllDigits, NormalizeNumber;
  }

  // host:port loses the port: whatever the port, the word becomes what the
  // host alone becomes.
  lemma PortIsDropped(t: string, host: string, net: Net)
    requires net.Lawful() && IsOfHost(t, host, net) && (IsIP(host, net) ==> !IsTime(host))
    ensures NormalizeToken(t, net) == NormalizeToken(host, net)
    ensures IsIP(host, net) ==> NormalizeToken(t, net) == "<ip>"
  {
    HostOnly(t, host, net);
    if IsIP(host, net) {
      PlaceholderOf(host, net);
    }
    hide NormalizeToken, Matches, IsHostPort;
  }

  // What is left when the last rule has cut a suffix off is no further case
  // for any rule.
  predicate OnePassIsEnough(t: string, net: Net)
    requires net.Lawful()
    decreases |t|
  {
    if IsTime(t) || Matches(UUID_RE, t) || IsIP(t, net) then true
    else if IsHostPort(t, net) then
      var host := net.splitHostPort(t).value.host;
      IsIP(host, net) || OnePassIsEnough(host, net)
    else if AllDigits(t) || IsHexID(t) then true
    else SuffixBase(t).Some? ==> !Claimed(SuffixBase(t).value, net)
  }

  // Exactly when a second pass changes nothing more: always, but for a name (or
  // the host before a port) whose base, without its generated suffix, is itself
  // a date, address, number, ID or a name with a generated suffix.
  lemma {:induction false} SecondPassExactlyWhen(t: string, net: Net)
    requires net.Lawful()
    ensures NormalizeToken(NormalizeToken(t, net), net) == NormalizeToken(t, net) <==> OnePassIsEnough(t, net)
    decreases |t|
  {
    var once := NormalizeToken(t, net);
    GuardsAreFilters(t, net);
    if IsPlaceholder(once) {
      PlaceholderIsKept(once, net);
    }
    if !IsTime(t) && !Matches(UUID_RE, t) && !IsIP(t, net) {
      if IsHostPort(t, net) {
        var host := net.splitHostPort(t).value.host;
        SecondPassExactlyWhen(host, net);
        GuardsAreFilters(host, net);
      } else if !AllDigits(t) && !IsHexID(t) {
        StripsToBase(t);
        FixedExactlyWhen(once, net);
        ClaimedIsLonger(t, net);
      }
    }
    hide Matches, StripPodSuffix, SuffixBase, HasDigit, HasLetter, IsIP, AllDigits;
  }

  // One pass is not always enough: the word left by the first pass may itself
  // end in a generated suffix.
  lemma TwoSuffixesTakeTwoPasses(base: string, s1: string, s2: string, net: Net)
    requires net.Lawful() && base != "" && NoDash(base) && NoSeparators(base)
    requires IsShort(s1) && Mixed(s1) && IsShort(s2) && Mixed(s2)
    ensures NormalizeToken(base + "-" + s1 + "-" + s2, net) == base + "-" + s1
    ensures NormalizeToken(base + "-" + s1, net) == base
  {
    var once := base + "-" + s1;
    PartsHaveNoSeparators(s1);
    PartsHaveNoSeparators(s2);
    assert NoSeparators(once) && NoSeparators(once + "-" + s2);
    SegmentsLackDash(s1);
    CutOf(base, s1);
    assert CutLast(base) == None && !IsPodMid(s1) && PodBase(base) == None && PodBase(once) == None;
    hide *;
    BareSuffix(base, s1);
    BareSuffix(once, s2);
    SuffixedToken(once, net);
    SuffixedToken(once + "-" + s2, net);
  }

  lemma NotIdempotent(net: Net)
    requires net.Lawful()
    ensures var once := NormalizeToken("a" + "-" + "x2x4k" + "-" + "x2x4k", net);
            NormalizeToken(once, net) != once
  {
    var s := "x2x4k";
    assert IsLower(s[0]) && IsDigit(s[1]);
    TwoSuffixesTakeTwoPasses("a", s, s, net);
  }
}
