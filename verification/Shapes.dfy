// The texts that the patterns of the fingerprint match, read character by
// character.
module Shapes {
  import opened Text
  import opened Regex
  import opened PodSuffix
  import opened Tokens

  // ----- times -----

  predicate TwoDigitsAt(s: string, i: nat) { i + 2 <= |s| && IsDigit(s[i]) && IsDigit(s[i + 1]) }

  // "", "z", "+hhmm" or "+hh:mm", with either sign
  predicate IsZone(s: string) {
    || s == "" || s == "z"
    || (|s| == 5 && (s[0] == '+' || s[0] == '-') && TwoDigitsAt(s, 1) && TwoDigitsAt(s, 3))
    || (|s| == 6 && (s[0] == '+' || s[0] == '-') && TwoDigitsAt(s, 1) && s[3] == ':' && TwoDigitsAt(s, 4))
  }

  // A zone, with a dot and digits in front of it or not.
  predicate IsFractionAndZone(s: string) {
    IsZone(s) || exists k :: 2 <= k <= |s| && s[0] == '.' && AllDigits(s[1..k]) && IsZone(s[k..])
  }

  // hh:mm:ss, fraction and zone
  predicate IsClock(t: string) {
    && |t| >= 8 && TwoDigitsAt(t, 0) && t[2] == ':' && TwoDigitsAt(t, 3) && t[5] == ':' && TwoDigitsAt(t, 6)
    && IsFractionAndZone(t[8..])
  }

  // hh:mm with a zone, or a clock
  predicate IsTimeOfDay(t: string) {
    || (|t| >= 5 && TwoDigitsAt(t, 0) && t[2] == ':' && TwoDigitsAt(t, 3) && IsZone(t[5..]))
    || IsClock(t)
  }

  // yyyy-mm-dd or yyyy.mm.dd, alone or with 't' or '_' and a time of day
  predicate IsDate(t: string) {
    && |t| >= 10 && TwoDigitsAt(t, 0) && TwoDigitsAt(t, 2) && (t[4] == '-' || t[4] == '.')
    && TwoDigitsAt(t, 5) && (t[7] == '-' || t[7] == '.') && TwoDigitsAt(t, 8)
    && (|t| == 10 || ((t[10] == 't' || t[10] == '_') && IsTimeOfDay(t[11..])))
  }

  lemma OptMatches(re: Regex, s: string)
    ensures Matches(Opt(re), s) <==> s == "" || Matches(re, s)
  {
  }

  lemma AltMatches(l: Regex, r: Regex, s: string)
    ensures Matches(Alt(l, r), s) <==> Matches(l, s) || Matches(r, s)
  {
  }

  lemma TwoDigitsAlone(s: string)
    ensures Matches(D2, s) <==> |s| == 2 && TwoDigitsAt(s, 0)
  {
  }

  lemma OptLitFirst(c: char, rest: Regex, s: string)
    ensures Matches(Cat(Opt(Lit(c)), rest), s) <==>
            Matches(rest, s) || (s != "" && s[0] == c && Matches(rest, s[1..]))
  {
    if Matches(Cat(Opt(Lit(c)), rest), s) {
      var x, y := CatForm(Opt(Lit(c)), rest, s);
      OptMatches(Lit(c), x);
      if x == "" {
        assert s == y;
      } else {
        assert x == [x[0]] && x[0] == c && s[1..] == y;
      }
    }
    if Matches(rest, s) {
      CatBuild(Opt(Lit(c)), rest, "", s);
      assert "" + s == s;
    }
    if s != "" && s[0] == c && Matches(rest, s[1..]) {
      assert Matches(Lit(c), [c]);
      CatBuild(Opt(Lit(c)), rest, [c], s[1..]);
      assert [c] + s[1..] == s;
    }
  }

  // hh and mm of a zone
  lemma MinutesMatch(y: string)
    ensures Matches(Cat(Opt(Lit(':')), D2), y) <==>
            (|y| == 2 && TwoDigitsAt(y, 0)) || (|y| == 3 && y[0] == ':' && TwoDigitsAt(y, 1))
  {
    OptLitFirst(':', D2, y);
    TwoDigitsAlone(y);
    if y != "" {
      TwoDigitsAlone(y[1..]);
    }
    hide Matches;
  }

  lemma OffsetMatches(s: string)
    ensures Matches(Cat(Times(OneOf("+-"), 1), Cat(D2, Cat(Opt(Lit(':')), D2))), s) <==>
            s != "" && (s[0] == '+' || s[0] == '-') && TwoDigitsAt(s, 1) &&
            ((|s| == 5 && TwoDigitsAt(s, 3)) || (|s| == 6 && s[3] == ':' && TwoDigitsAt(s, 4)))
  {
    var minutes := Cat(Opt(Lit(':')), D2);
    hide Matches;
    OneOfFirst("+-", Cat(D2, minutes), s);
    if s != "" {
      TwoDigitsFirst(minutes, s[1..]);
      if |s| >= 3 {
        assert s[1..][2..] == s[3..];
        MinutesMatch(s[3..]);
      }
    }
  }

  lemma ZoneMatches(s: string)
    ensures Matches(ZONE, s) <==> IsZone(s)
  {
    var offset := Cat(Times(OneOf("+-"), 1), Cat(D2, Cat(Opt(Lit(':')), D2)));
    OptMatches(Alt(Lit('z'), offset), s);
    AltMatches(Lit('z'), offset, s);
    LitAlone('z', s);
    OffsetMatches(s);
    hide Matches;
  }

  lemma LitAlone(c: char, s: string)
    ensures Matches(Lit(c), s) <==> s == [c]
  {
  }

  lemma FractionMatches(s: string)
    ensures Matches(Cat(FRACTION, ZONE), s) <==> IsFractionAndZone(s)
  {
    if Matches(Cat(FRACTION, ZONE), s) {
      FractionFound(s);
    }
    if IsZone(s) {
      ZoneMatches(s);
      CatBuild(FRACTION, ZONE, "", s);
      assert "" + s == s;
    } else if k :| 2 <= k <= |s| && s[0] == '.' && AllDigits(s[1..k]) && IsZone(s[k..]) {
      FractionBuilt(s, k);
    }
    hide Matches, IsZone;
  }

  lemma FractionFound(s: string)
    requires Matches(Cat(FRACTION, ZONE), s)
    ensures IsFractionAndZone(s)
  {
    var digits := Run(Digit, 1, Unbounded);
    var x, y := CatForm(FRACTION, ZONE, s);
    OptMatches(Cat(Lit('.'), digits), x);
    ZoneMatches(y);
    if x == "" {
      assert s == y;
    } else {
      LitFirst('.', digits, x);
      assert s[1..|x|] == x[1..] && s[|x|..] == y && s[0] == '.';
    }
  }

  lemma FractionBuilt(s: string, k: nat)
    requires 2 <= k <= |s| && s[0] == '.' && AllDigits(s[1..k]) && IsZone(s[k..])
    ensures Matches(Cat(FRACTION, ZONE), s)
  {
    var digits := Run(Digit, 1, Unbounded);
    var x := s[..k];
    assert x[1..] == s[1..k] && Matches(digits, x[1..]);
    hide Matches, IsZone;
    LitFirst('.', digits, x);
    OptMatches(Cat(Lit('.'), digits), x);
    ZoneMatches(s[k..]);
    CatBuild(FRACTION, ZONE, x, s[k..]);
    assert x + s[k..] == s;
  }

  // The clock pattern matches the clocks, and nothing else.
  lemma ClocksAre(t: string)
    ensures Matches(CLOCK_RE, t) <==> IsClock(t)
  {
    var tail := Cat(FRACTION, ZONE);
    var seconds := Cat(D2, tail);
    var minutes := Cat(D2, Cat(Lit(':'), seconds));
    hide Matches, IsFractionAndZone;
    TwoDigitsFirst(Cat(Lit(':'), minutes), t);
    if |t| >= 2 {
      LitFirst(':', minutes, t[2..]);
      if |t| >= 3 {
        assert t[2..][1..] == t[3..];
        TwoDigitsFirst(Cat(Lit(':'), seconds), t[3..]);
        if |t| >= 5 {
          assert t[3..][2..] == t[5..];
          LitFirst(':', seconds, t[5..]);
          if |t| >= 6 {
            assert t[5..][1..] == t[6..];
            TwoDigitsFirst(tail, t[6..]);
            if |t| >= 8 {
              assert t[6..][2..] == t[8..];
              FractionMatches(t[8..]);
            }
          }
        }
      }
    }
  }

  lemma SecondsMatch(x: string)
    ensures Matches(Cat(Opt(Cat(Lit(':'), Cat(D2, FRACTION))), ZONE), x) <==>
            IsZone(x) || (|x| >= 3 && x[0] == ':' && TwoDigitsAt(x, 1) && IsFractionAndZone(x[3..]))
  {
    var seconds := Cat(Lit(':'), Cat(D2, FRACTION));
    ZoneMatches(x);
    if Matches(Cat(Opt(seconds), ZONE), x) {
      var y, z := CatForm(Opt(seconds), ZONE, x);
      OptMatches(seconds, y);
      if y == "" {
        assert x == z;
      } else {
        SecondsFound(x, y, z);
      }
    }
    if IsZone(x) {
      OptMatches(seconds, "");
      CatBuild(Opt(seconds), ZONE, "", x);
      assert "" + x == x;
    }
    if |x| >= 3 && x[0] == ':' && TwoDigitsAt(x, 1) && IsFractionAndZone(x[3..]) {
      SecondsBuilt(x);
    }
  }

  lemma SecondsFound(x: string, y: string, z: string)
    requires x == y + z && Matches(Cat(Lit(':'), Cat(D2, FRACTION)), y) && Matches(ZONE, z)
    ensures |x| >= 3 && x[0] == ':' && TwoDigitsAt(x, 1) && IsFractionAndZone(x[3..])
  {
    hide Matches;
    LitFirst(':', Cat(D2, FRACTION), y);
    TwoDigitsFirst(FRACTION, y[1..]);
    assert y[1..][2..] == y[3..];
    CatBuild(FRACTION, ZONE, y[3..], z);
    assert y[3..] + z == x[3..];
    FractionMatches(x[3..]);
  }

  lemma SecondsBuilt(x: string)
    requires |x| >= 3 && x[0] == ':' && TwoDigitsAt(x, 1) && IsFractionAndZone(x[3..])
    ensures Matches(Cat(Opt(Cat(Lit(':'), Cat(D2, FRACTION))), ZONE), x)
  {
    hide Matches;
    var seconds := Cat(Lit(':'), Cat(D2, FRACTION));
    FractionMatches(x[3..]);
    var f, z := CatForm(FRACTION, ZONE, x[3..]);
    var y := x[..3] + f;
    assert y[1..][2..] == f;
    TwoDigitsFirst(FRACTION, y[1..]);
    LitFirst(':', Cat(D2, FRACTION), y);
    OptMatches(seconds, y);
    CatBuild(Opt(seconds), ZONE, y, z);
    assert y + z == x;
  }

  lemma TimeMatches(s: string)
    ensures Matches(DATE_TIME, s) <==> s != "" && (s[0] == 't' || s[0] == '_') && IsTimeOfDay(s[1..])
  {
    var tail := Cat(Opt(Cat(Lit(':'), Cat(D2, FRACTION))), ZONE);
    var minutes := Cat(D2, tail);
    hide Matches, IsFractionAndZone, IsZone;
    OneOfFirst("t_", Cat(D2, Cat(Lit(':'), minutes)), s);
    if s != "" {
      var t := s[1..];
      TwoDigitsFirst(Cat(Lit(':'), minutes), t);
      if |t| >= 3 {
        LitFirst(':', minutes, t[2..]);
        assert t[2..][1..] == t[3..];
        TwoDigitsFirst(tail, t[3..]);
        if |t| >= 5 {
          assert t[3..][2..] == t[5..];
          SecondsMatch(t[5..]);
          assert |t| >= 8 ==> t[5..][3..] == t[8..];
        }
      } else if |t| == 2 {
        LitFirst(':', minutes, t[2..]);
      }
    }
  }

  lemma DayMatches(s: string)
    ensures Matches(Cat(D2, Opt(DATE_TIME)), s) <==>
            TwoDigitsAt(s, 0) && (|s| == 2 || ((s[2] == 't' || s[2] == '_') && IsTimeOfDay(s[3..])))
  {
    hide Matches, IsTimeOfDay;
    TwoDigitsFirst(Opt(DATE_TIME), s);
    if |s| >= 2 {
      OptMatches(DATE_TIME, s[2..]);
      TimeMatches(s[2..]);
      assert |s| > 2 ==> s[2..][1..] == s[3..];
    }
  }

  lemma MonthMatches(s: string)
    ensures Matches(Cat(DATE_SEP, Cat(D2, Cat(DATE_SEP, Cat(D2, Opt(DATE_TIME))))), s) <==>
            |s| >= 6 && (s[0] == '-' || s[0] == '.') && TwoDigitsAt(s, 1) && (s[3] == '-' || s[3] == '.')
            && TwoDigitsAt(s, 4) && (|s| == 6 || ((s[6] == 't' || s[6] == '_') && IsTimeOfDay(s[7..])))
  {
    var day := Cat(D2, Opt(DATE_TIME));
    hide Matches, IsTimeOfDay;
    OneOfFirst("-.", Cat(D2, Cat(DATE_SEP, day)), s);
    if s != "" {
      TwoDigitsFirst(Cat(DATE_SEP, day), s[1..]);
      if |s| >= 3 {
        assert s[1..][2..] == s[3..];
        OneOfFirst("-.", day, s[3..]);
        if |s| >= 4 {
          assert s[3..][1..] == s[4..];
          DayMatches(s[4..]);
          assert |s| >= 7 ==> s[4..][3..] == s[7..];
        }
      }
    }
  }

  // The date pattern matches the dates, and nothing else.
  lemma DatesAre(t: string)
    ensures Matches(DATE_RE, t) <==> IsDate(t)
  {
    hide Matches, IsTimeOfDay;
    FixedRunFirst(Digit, 4, Cat(DATE_SEP, Cat(D2, Cat(DATE_SEP, Cat(D2, Opt(DATE_TIME))))), t);
    if |t| >= 4 {
      FourDigits(t);
      MonthMatches(t[4..]);
      assert |t| >= 11 ==> t[4..][7..] == t[11..];
    }
  }

  lemma FourDigits(t: string)
    requires |t| >= 4
    ensures AllIn(t[..4], Digit) <==> TwoDigitsAt(t, 0) && TwoDigitsAt(t, 2)
  {
    assert t[..4][0] == t[0] && t[..4][1] == t[1] && t[..4][2] == t[2] && t[..4][3] == t[3];
  }

  // ----- IDs -----

  predicate IsHexFrom(t: string, i: nat, n: nat) {
    i + n <= |t| && forall k :: i <= k < i + n ==> IsDigit(t[k]) || 'a' <= t[k] <= 'f'
  }

  // 8-4-4-4-12 hexadecimal digits
  predicate IsUuid(t: string) {
    && |t| == 36 && t[8] == '-' && t[13] == '-' && t[18] == '-' && t[23] == '-'
    && IsHexFrom(t, 0, 8) && IsHexFrom(t, 9, 4) && IsHexFrom(t, 14, 4) && IsHexFrom(t, 19, 4) && IsHexFrom(t, 24, 12)
  }

  lemma HexGroupFirst(n: nat, rest: Regex, t: string, i: nat)
    requires i <= |t|
    ensures Matches(Cat(Times(HexDigit, n), Cat(Lit('-'), rest)), t[i..]) <==>
            i + n < |t| && IsHexFrom(t, i, n) && t[i + n] == '-' && Matches(rest, t[i + n + 1..])
  {
    var s := t[i..];
    FixedRunFirst(HexDigit, n, Cat(Lit('-'), rest), s);
    if |s| >= n {
      LitFirst('-', rest, s[n..]);
      HexRun(t, i, n);
      assert |s| > n ==> s[n..][1..] == t[i + n + 1..];
    }
    hide Matches;
  }

  lemma HexRun(t: string, i: nat, n: nat)
    requires i + n <= |t|
    ensures AllIn(t[i..][..n], HexDigit) <==> IsHexFrom(t, i, n)
  {
    var x := t[i..][..n];
    assert forall k :: 0 <= k < n ==> x[k] == t[i + k];
    if AllIn(x, HexDigit) {
      forall k | i <= k < i + n
        ensures IsDigit(t[k]) || 'a' <= t[k] <= 'f'
      {
        assert In(x[k - i], HexDigit);
      }
    }
  }

  lemma LastGroups(t: string)
    ensures |t| >= 14 ==>
              (Matches(LAST_GROUPS, t[14..]) <==>
               |t| == 36 && t[18] == '-' && t[23] == '-'
               && IsHexFrom(t, 14, 4) && IsHexFrom(t, 19, 4) && IsHexFrom(t, 24, 12))
  {
    var r4 := Times(HexDigit, 12);
    LastHexRun(t);
    hide Matches, IsHexFrom;
    if |t| >= 14 {
      HexGroupFirst(4, Cat(X4, Cat(Lit('-'), r4)), t, 14);
    }
    if |t| >= 19 {
      HexGroupFirst(4, r4, t, 19);
    }
  }

  const LAST_GROUPS := Cat(X4, Cat(Lit('-'), Cat(X4, Cat(Lit('-'), Times(HexDigit, 12)))))
  const MIDDLE_GROUPS := Cat(X4, Cat(Lit('-'), LAST_GROUPS))

  lemma MiddleGroups(t: string)
    ensures |t| >= 9 ==>
              (Matches(MIDDLE_GROUPS, t[9..]) <==>
               |t| == 36 && t[13] == '-' && t[18] == '-' && t[23] == '-'
               && IsHexFrom(t, 9, 4) && IsHexFrom(t, 14, 4) && IsHexFrom(t, 19, 4) && IsHexFrom(t, 24, 12))
  {
    assert MIDDLE_GROUPS == Cat(Times(HexDigit, 4), Cat(Lit('-'), LAST_GROUPS));
    hide *;
    if |t| >= 9 {
      HexGroupFirst(4, LAST_GROUPS, t, 9);
      LastGroups(t);
    }
  }

  lemma UuidGroups()
    ensures UUID_RE == Cat(Times(HexDigit, 8), Cat(Lit('-'), MIDDLE_GROUPS))
  {
  }

  lemma FirstGroup(t: string)
    ensures Matches(UUID_RE, t) <==>
            8 < |t| && IsHexFrom(t, 0, 8) && t[8] == '-' && Matches(MIDDLE_GROUPS, t[9..])
  {
    hide *;
    UuidGroups();
    assert t[0..] == t;
    HexGroupFirst(8, MIDDLE_GROUPS, t, 0);
  }

  // The UUID pattern matches those, and nothing else.
  lemma UuidsAre(t: string)
    ensures Matches(UUID_RE, t) <==> IsUuid(t)
  {
    hide Matches, UUID_RE, MIDDLE_GROUPS, IsHexFrom;
    FirstGroup(t);
    MiddleGroups(t);
  }

  lemma LastHexRun(t: string)
    ensures |t| >= 24 ==> (Matches(Times(HexDigit, 12), t[24..]) <==> |t| == 36 && IsHexFrom(t, 24, 12))
  {
    if |t| == 36 {
      assert t[24..][..12] == t[24..];
      HexRun(t, 24, 12);
    }
  }

  // Twelve or more hexadecimal digits, at least one of them a letter and one a
  // decimal digit.
  lemma HexIDsAre(t: string)
    ensures IsHexID(t) <==>
            |t| >= 12 && IsHexFrom(t, 0, |t|)
            && (exists i :: 0 <= i < |t| && '0' <= t[i] <= '9') && exists i :: 0 <= i < |t| && 'a' <= t[i] <= 'f'
  {
    if |t| >= 12 {
      HexRun(t, 0, |t|);
      assert t[0..][..|t|] == t;
    }
  }

  // What is replaced whole, and by what. Short numbers stay.
  lemma PlaceholdersAre(t: string, net: Net)
    requires net.Lawful()
    ensures IsDate(t) || IsClock(t) ==> NormalizeToken(t, net) == "<ts>"
    ensures IsUuid(t) ==> NormalizeToken(t, net) == "<uuid>"
    ensures IsIP(t, net) && !IsDate(t) && !IsClock(t) ==> NormalizeToken(t, net) == "<ip>"
    ensures AllDigits(t) ==>
              NormalizeToken(t, net) ==
              if |t| in {10, 13, 16, 19} && 1_000_000_000 <= DecimalValue(t[..10]) < 4_102_444_800 then "<ts>"
              else if |t| > 5 then "<num>" else t
    ensures IsHexID(t) ==> NormalizeToken(t, net) == "<hex>"
  {
    DatesAre(t);
    ClocksAre(t);
    UuidsAre(t);
    PlaceholderOf(t, net);
    if AllDigits(t) {
      NumberBecomes(t, net);
    }
    hide Matches, NormalizeToken, IsDate, IsClock, IsUuid, DecimalValue;
  }

  lemma NumberBecomes(t: string, net: Net)
    requires net.Lawful() && AllDigits(t)
    ensures NormalizeToken(t, net) == NormalizeNumber(t)
  {
    hide Matches, NormalizeNumber, IsIP;
    NumbersAreNotClaimedBefore(t, net);
    GuardsAreFilters(t, net);
  }

  // A host is read without its port, if the port is a number. Behind any other
  // colon a word is not cut.
  lemma PortsAre(t: string, net: Net)
    requires net.Lawful() && net.splitHostPort(t).Some?
    requires !IsDate(t) && !IsClock(t) && !IsUuid(t) && !IsIP(t, net)
    ensures var HostPort(host, port) := net.splitHostPort(t).value;
            NormalizeToken(t, net) ==
            if port != "" && forall i :: 0 <= i < |port| ==> '0' <= port[i] <= '9'
            then if IsIP(host, net) then "<ip>" else NormalizeToken(host, net)
            else StripPodSuffix(t)
  {
    DatesAre(t);
    ClocksAre(t);
    UuidsAre(t);
    ColonIsNoDigit(t);
    hide Matches, IsDate, IsClock, IsUuid, IsIP, StripPodSuffix, NormalizeNumber;
    GuardsAreFilters(t, net);
    GuardsAreFilters(net.splitHostPort(t).value.host, net);
  }

  lemma ColonIsNoDigit(t: string)
    requires ':' in t
    ensures !AllDigits(t) && !Matches(HEX_ID_RE, t)
  {
    var i :| 0 <= i < |t| && t[i] == ':';
    assert !IsDigit(t[i]) && !In(t[i], HexDigit);
  }

  // An address is one with or without a zone behind a '%'.
  lemma ZonedAddress(addr: string, zone: string, net: Net)
    requires net.parseIP(addr) && addr != "" && '%' !in addr
    ensures IsIP(addr, net) && IsIP(addr + "%" + zone, net)
  {
    var t := addr + "%" + zone;
    assert t[|addr|] == '%';
    var i := IndexByte(t, '%');
    assert forall k :: 0 <= k < |addr| ==> t[k] == addr[k] && addr[k] in addr;
    assert forall j :: |addr| < j <= |t| ==> t[..j][|addr|] == '%';
    assert i == |addr| && t[..i] == addr;
  }
}
