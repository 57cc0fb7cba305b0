// The event IDs of the three webhook paths, and when two of them coincide.
module EventIds {
  import opened Text
  import opened PodSuffix

  // What an event ID is made from: the fingerprint or event ID the tool sends,
  // scoped to the tenant, or a clock reading when there is none.
  datatype AlertKey =
    | Alertmanager(tenant: string, fingerprint: string)
    | AlertmanagerClock(nanos: nat)
    | Grafana(tenant: string, org: int, fingerprint: string)
    | GrafanaClock(tenant: string, nanos: nat)
    | GrafanaTest(tenant: string, nanos: nat)
    | Zabbix(tenant: string, eventID: string)

  // strconv.FormatInt(n, 10)
  function FormatInt(n: int): string { if n < 0 then "-" + Decimal(-n) else Decimal(n) }

  function EventID(k: AlertKey): string {
    match k
    case Alertmanager(tenant, fp) => "am-" + (tenant + "-" + fp)
    case AlertmanagerClock(nanos) => "prom-" + Decimal(nanos)
    case Grafana(tenant, org, fp) => "gf-" + (tenant + "-" + FormatInt(org) + "-" + fp)
    case GrafanaClock(tenant, nanos) => "gf-" + (tenant + "-" + Decimal(nanos))
    case GrafanaTest(tenant, nanos) => "gf-" + (tenant + "-" + "test" + "-" + Decimal(nanos))
    case Zabbix(tenant, eventID) => "zbx-" + (tenant + "-" + eventID)
  }

  // What an ID made for a tenant has behind the tenant's name.
  predicate IsScoped(k: AlertKey) { !k.AlertmanagerClock? }

  function Rest(k: AlertKey): string
    requires IsScoped(k)
  {
    match k
    case Alertmanager(_, fp) => fp
    case Grafana(_, org, fp) => FormatInt(org) + "-" + fp
    case GrafanaClock(_, nanos) => Decimal(nanos)
    case GrafanaTest(_, nanos) => "test" + "-" + Decimal(nanos)
    case Zabbix(_, eventID) => eventID
  }

  function Kind(k: AlertKey): string {
    match k
    case Alertmanager(_, _) => "am-"
    case AlertmanagerClock(_) => "prom-"
    case Zabbix(_, _) => "zbx-"
    case _ => "gf-"
  }

  // The name of one tenant, with a dash behind it, begins the other's, and the
  // ID has the rest of that name where the first tenant's own part begins.
  predicate IsBehind(t: string, r: string, u: string, s: string) {
    t + "-" <= u && r == u[|t| + 1..] + "-" + s
  }

  predicate Overlaps(a: AlertKey, b: AlertKey) {
    IsScoped(a) && IsScoped(b) && Kind(a) == Kind(b) && IsBehind(a.tenant, Rest(a), b.tenant, Rest(b))
  }

  // ----- taking an ID apart -----

  lemma SamePrefix(p: string, x: string, y: string)
    ensures p + x == p + y <==> x == y
  {
    assert (p + x)[|p|..] == x && (p + y)[|p|..] == y;
  }

  lemma IDForm(k: AlertKey)
    ensures IsScoped(k) ==> EventID(k) == Kind(k) + (k.tenant + "-" + Rest(k))
  {
    hide FormatInt, Decimal;
    match k
    case Grafana(tenant, org, fp) => ThreeParts(tenant, FormatInt(org), fp);
    case GrafanaTest(tenant, nanos) => ThreeParts(tenant, "test", Decimal(nanos));
    case _ =>
  }

  lemma ThreeParts(t: string, x: string, y: string)
    ensures t + "-" + x + "-" + y == t + "-" + (x + "-" + y)
  {
  }

  lemma NameSplits(t: string, u: string)
    requires t + "-" <= u
    ensures u == t + "-" + u[|t| + 1..]
  {
    assert u[..|t| + 1] == t + "-";
    assert u == u[..|t| + 1] + u[|t| + 1..];
  }

  lemma BehindIsSame(t: string, r: string, u: string, s: string)
    requires IsBehind(t, r, u, s)
    ensures t + "-" + r == u + "-" + s
  {
    var x := u[|t| + 1..];
    NameSplits(t, u);
    assert t + "-" + (x + "-" + s) == t + "-" + x + "-" + s;
  }

  lemma ShorterIsBehind(t: string, r: string, u: string, s: string)
    requires t + "-" + r == u + "-" + s && |t| < |u|
    ensures IsBehind(t, r, u, s)
  {
    var whole := t + "-" + r;
    assert whole[..|t| + 1] == t + "-" && whole[..|u|] == u;
    var x := u[|t| + 1..];
    assert r == whole[|t| + 1..] == (u + "-" + s)[|t| + 1..] == x + "-" + s;
  }

  // Where a name ends cannot be told from the text alone.
  lemma SplitsBehindName(t: string, r: string, u: string, s: string)
    ensures t + "-" + r == u + "-" + s <==>
            (t == u && r == s) || IsBehind(t, r, u, s) || IsBehind(u, s, t, r)
  {
    if IsBehind(t, r, u, s) {
      BehindIsSame(t, r, u, s);
    } else if IsBehind(u, s, t, r) {
      BehindIsSame(u, s, t, r);
    } else if t + "-" + r == u + "-" + s {
      if |t| < |u| {
        ShorterIsBehind(t, r, u, s);
      } else if |u| < |t| {
        ShorterIsBehind(u, s, t, r);
      } else {
        assert t == (t + "-" + r)[..|t|] && u == (u + "-" + s)[..|u|];
        SamePrefix(t + "-", r, s);
      }
    }
  }

  lemma DigitsLackDash(n: nat)
    ensures NoDash(Decimal(n))
  {
    SegmentsLackDash(Decimal(n));
  }

  lemma DigitsAndRest(k: nat, x: string, l: nat, y: string)
    requires Decimal(k) + "-" + x == Decimal(l) + "-" + y
    ensures k == l && x == y
  {
    DigitsLackDash(k);
    DigitsLackDash(l);
    DecimalInjective(k, l);
    hide Decimal;
    HeadBeforeSeparator(Decimal(k), x, Decimal(l), y, '-');
  }

  lemma SignOfOrg(m: int, x: string)
    ensures var s := FormatInt(m) + "-" + x;
            if m < 0 then s[0] == '-' && s[1..] == Decimal(-m) + "-" + x else IsDigit(s[0]) && s == Decimal(m) + "-" + x
  {
    if m < 0 {
      var d := Decimal(-m);
      assert "-" + d + "-" + x == "-" + (d + "-" + x);
    } else {
      assert IsDigit(Decimal(m)[0]);
    }
  }

  lemma OrgAndFingerprint(m: int, x: string, n: int, y: string)
    requires FormatInt(m) + "-" + x == FormatInt(n) + "-" + y
    ensures m == n && x == y
  {
    SignOfOrg(m, x);
    SignOfOrg(n, y);
    hide FormatInt, Decimal;
    if m < 0 {
      DigitsAndRest(-m, x, -n, y);
    } else {
      DigitsAndRest(m, x, n, y);
    }
  }

  lemma FirstOfRest(k: AlertKey)
    requires Kind(k) == "gf-"
    ensures Rest(k) != ""
    ensures k.GrafanaTest? <==> Rest(k)[0] == 't'
    ensures k.GrafanaClock? ==> NoDash(Rest(k))
    ensures k.Grafana? ==> '-' in Rest(k)
  {
    match k {
      case Grafana(_, org, fp) =>
        assert Rest(k)[0] == FormatInt(org)[0];
        assert Rest(k)[|FormatInt(org)|] == '-';
      case GrafanaClock(_, nanos) => DigitsLackDash(nanos);
      case GrafanaTest(_, _) => assert Rest(k)[0] == "test"[0];
    }
  }

  // One tenant's keys are told apart by their IDs.
  lemma SameRest(a: AlertKey, b: AlertKey)
    requires IsScoped(a) && IsScoped(b) && Kind(a) == Kind(b) && a.tenant == b.tenant && Rest(a) == Rest(b)
    ensures a == b
  {
    assert Kind(a)[0] == if a.Alertmanager? then 'a' else if a.Zabbix? then 'z' else 'g';
    assert Kind(b)[0] == if b.Alertmanager? then 'a' else if b.Zabbix? then 'z' else 'g';
    if Kind(a) == "gf-" {
      FirstOfRest(a);
      FirstOfRest(b);
      if a.Grafana? {
        OrgAndFingerprint(a.org, a.fingerprint, b.org, b.fingerprint);
      } else if a.GrafanaClock? {
        DecimalInjective(a.nanos, b.nanos);
      } else {
        SamePrefix("test" + "-", Decimal(a.nanos), Decimal(b.nanos));
        DecimalInjective(a.nanos, b.nanos);
      }
    }
  }

  lemma KindFirst(k: AlertKey)
    ensures EventID(k) != "" && EventID(k)[0] == Kind(k)[0]
  {
  }

  lemma SameKind(a: AlertKey, b: AlertKey)
    requires EventID(a) == EventID(b)
    ensures Kind(a) == Kind(b)
  {
    KindFirst(a);
    KindFirst(b);
    assert "am-"[0] == 'a' && "prom-"[0] == 'p' && "zbx-"[0] == 'z' && "gf-"[0] == 'g';
    hide EventID;
  }

  lemma SameScopedID(a: AlertKey, b: AlertKey)
    requires IsScoped(a) && IsScoped(b) && Kind(a) == Kind(b)
    ensures EventID(a) == EventID(b) <==> a == b || Overlaps(a, b) || Overlaps(b, a)
  {
    IDForm(a);
    IDForm(b);
    hide EventID, Kind, Rest;
    SamePrefix(Kind(a), a.tenant + "-" + Rest(a), b.tenant + "-" + Rest(b));
    SplitsBehindName(a.tenant, Rest(a), b.tenant, Rest(b));
    if a.tenant == b.tenant && Rest(a) == Rest(b) {
      SameRest(a, b);
    }
  }

  // Exactly when two event IDs are the same, for all keys.
  lemma SameIDExactlyWhen(a: AlertKey, b: AlertKey)
    ensures EventID(a) == EventID(b) <==> a == b || Overlaps(a, b) || Overlaps(b, a)
  {
    if Kind(a) != Kind(b) {
      if EventID(a) == EventID(b) {
        SameKind(a, b);
      }
    } else if IsScoped(a) && IsScoped(b) {
      SameScopedID(a, b);
    } else {
      ClockKinds(a, b);
      SamePrefix("prom-", Decimal(a.nanos), Decimal(b.nanos));
      DecimalInjective(a.nanos, b.nanos);
    }
  }

  lemma ClockKinds(a: AlertKey, b: AlertKey)
    requires Kind(a) == Kind(b) && (a.AlertmanagerClock? || b.AlertmanagerClock?)
    ensures a.AlertmanagerClock? && b.AlertmanagerClock?
  {
    assert |Kind(a)| == |Kind(b)| && |"prom-"| == 5 && |"zbx-"| == 4 && |"am-"| == 3;
  }

  // ----- tenants whose IDs never meet -----

  // A dash in a fingerprint can pass for the end of the tenant's name.
  lemma DashInFingerprint(t: string, x: string, y: string)
    ensures EventID(Alertmanager(t + "-" + x, y)) == EventID(Alertmanager(t, x + "-" + y))
  {
    assert t + "-" + x + "-" + y == t + "-" + (x + "-" + y);
  }

  predicate AreApart(t: string, u: string) { !(t + "-" <= u) && !(u + "-" <= t) }

  ghost predicate NeverMeet(t: string, u: string) {
    forall a, b :: IsScoped(a) && IsScoped(b) && a.tenant == t && b.tenant == u ==> EventID(a) != EventID(b)
  }

  lemma NameBeforeDash(t: string, u: string)
    requires t + "-" <= u
    ensures !NeverMeet(t, u) && !NeverMeet(u, t)
  {
    var x := u[|t| + 1..];
    NameSplits(t, u);
    var a, b := Alertmanager(t, x + "-" + "f"), Alertmanager(u, "f");
    DashInFingerprint(t, x, "f");
    assert EventID(a) == EventID(b);
  }

  // No ID of one tenant is ever an ID of another exactly when neither name,
  // with a dash behind it, begins the other.
  lemma TenantsApartExactlyWhen(t: string, u: string)
    requires t != u
    ensures NeverMeet(t, u) <==> AreApart(t, u)
  {
    if t + "-" <= u {
      NameBeforeDash(t, u);
    } else if u + "-" <= t {
      NameBeforeDash(u, t);
    } else {
      forall a, b | IsScoped(a) && IsScoped(b) && a.tenant == t && b.tenant == u
        ensures EventID(a) != EventID(b)
      {
        SameIDExactlyWhen(a, b);
      }
    }
  }

  // ----- fingerprints without dashes -----

  predicate IsRegular(k: AlertKey) {
    match k
    case Alertmanager(_, fp) => NoDash(fp)
    case Grafana(_, org, fp) => org >= 0 && NoDash(fp)
    case Zabbix(_, eventID) => NoDash(eventID)
    case _ => true
  }

  // What is left of the overlaps then: a Grafana ID made from the clock, for a
  // tenant whose name is another tenant's with "-<org>" or "-test" behind it.
  predicate Clash(a: AlertKey, b: AlertKey) {
    match (a, b)
    case (Grafana(t, org, fp), GrafanaClock(u, nanos)) => u == t + "-" + FormatInt(org) && fp == Decimal(nanos)
    case (GrafanaTest(t, n), GrafanaClock(u, nanos)) => u == t + "-" + "test" && n == nanos
    case _ => false
  }

  lemma LastSegment(a: string, x: string, b: string, y: string)
    requires NoDash(x) && NoDash(y)
    ensures a + "-" + x == b + "-" + y <==> a == b && x == y
  {
    CutOf(a, x);
    CutOf(b, y);
  }

  // A rest of two segments, the second the last of the other key's too.
  lemma TwoSegmentOverlap(head: string, last: string, x: string, b: AlertKey)
    requires NoDash(head) && NoDash(last) && IsRegular(b) && Kind(b) == "gf-"
    ensures head + "-" + last == x + "-" + Rest(b) <==> b.GrafanaClock? && x == head && last == Decimal(b.nanos)
  {
    match b {
      case GrafanaClock(_, nanos) =>
        DigitsLackDash(nanos);
        LastSegment(head, last, x, Decimal(nanos));
      case Grafana(_, org, fp) =>
        NotTwoSegments(head, last, x, FormatInt(org), fp);
      case GrafanaTest(_, nanos) =>
        DigitsLackDash(nanos);
        NotTwoSegments(head, last, x, "test", Decimal(nanos));
    }
  }

  lemma NotTwoSegments(head: string, last: string, x: string, y: string, z: string)
    requires NoDash(head) && NoDash(last) && NoDash(z)
    ensures head + "-" + last != x + "-" + (y + "-" + z)
  {
    assert x + "-" + (y + "-" + z) == (x + "-" + y) + "-" + z;
    LastSegment(head, last, x + "-" + y, z);
    assert (x + "-" + y)[|x|] == '-';
  }

  lemma RegularOverlaps(a: AlertKey, b: AlertKey)
    requires IsRegular(a) && IsRegular(b)
    ensures Overlaps(a, b) <==> Clash(a, b)
  {
    if IsScoped(a) && IsScoped(b) && Kind(a) == Kind(b) && a.tenant + "-" <= b.tenant {
      var x := b.tenant[|a.tenant| + 1..];
      NameSplits(a.tenant, b.tenant);
      SamePrefix(a.tenant + "-", x, if a.Grafana? then FormatInt(a.org) else "test");
      assert (x + "-" + Rest(b))[|x|] == '-';
      match a {
        case Grafana(_, org, fp) =>
          DigitsLackDash(org);
          TwoSegmentOverlap(FormatInt(org), fp, x, b);
        case GrafanaTest(_, n) =>
          DigitsLackDash(n);
          assert NoDash("test");
          TwoSegmentOverlap("test", Decimal(n), x, b);
          if b.GrafanaClock? {
            DecimalInjective(n, b.nanos);
          }
        case GrafanaClock(_, n) => DigitsLackDash(n);
        case _ =>
      }
    } else {
      NoClashApart(a, b);
    }
  }

  lemma NoClashApart(a: AlertKey, b: AlertKey)
    requires !(IsScoped(a) && IsScoped(b) && Kind(a) == Kind(b) && a.tenant + "-" <= b.tenant)
    ensures !Clash(a, b)
  {
  }

  lemma RegularIDsExactlyWhen(a: AlertKey, b: AlertKey)
    requires IsRegular(a) && IsRegular(b)
    ensures EventID(a) == EventID(b) <==> a == b || Clash(a, b) || Clash(b, a)
  {
    SameIDExactlyWhen(a, b);
    RegularOverlaps(a, b);
    RegularOverlaps(b, a);
  }
}
