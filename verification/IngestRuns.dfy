// What the event store holds after any run of the three webhooks.
module IngestRuns {
  import opened Text
  import opened EventIds
  import opened EventStore
  import opened Ingest

  // ----- a run of messages -----

  function IDOf(m: Message): string { EventID(KeyOf(m)) }

  function TenantOf(m: Message): string { OwnerOf(m.tenant) }

  function RowsOf(rows: Rows, ms: seq<Message>, ss: seq<Saves>): Rows
    requires |ms| == |ss|
    decreases |ms|
  {
    if ms == [] then rows
    else RowsOf(if ss[0].first then SaveRow(rows, Left(ms[0], ss[0])) else rows, ms[1..], ss[1..])
  }

  lemma {:induction false} RowsOfSaves(rows: Rows, ms: seq<Message>, ss: seq<Saves>)
    requires |ms| == |ss|
    ensures SaveAll(rows, AllSaved(ms, ss)) == RowsOf(rows, ms, ss)
    decreases |ms|
  {
    hide Saved, SaveRow, Left;
    if ms != [] {
      var more := AllSaved(ms[1..], ss[1..]);
      OneMessageSaved(rows, ms[0], ss[0]);
      SaveAllAppend(rows, Saved(ms[0], ss[0]), more);
      hide SaveAll;
      RowsOfSaves(SaveAll(rows, Saved(ms[0], ss[0])), ms[1..], ss[1..]);
    }
  }

  // ----- whose row it is -----

  // The tenant of the first message saved under the ID.
  function FirstSender(ms: seq<Message>, ss: seq<Saves>, id: string): Option<string>
    requires |ms| == |ss|
  {
    if ms == [] then None
    else if ss[0].first && IDOf(ms[0]) == id then Some(TenantOf(ms[0]))
    else FirstSender(ms[1..], ss[1..], id)
  }

  // The tenant of the row that is there, or else that one.
  function FirstOwner(rows: Rows, ms: seq<Message>, ss: seq<Saves>, id: string): Option<string>
    requires |ms| == |ss|
  {
    if id in rows then Some(rows[id].tenantID) else FirstSender(ms, ss, id)
  }

  lemma LeftIs(m: Message, s: Saves)
    ensures Left(m, s).id == IDOf(m) && Left(m, s).tenantID == m.tenant && Left(m, s).alertStatus != ""
    ensures IsTest(m) && s.second ==> Left(m, s).alertStatus == "resolved"
  {
    hide EventID, KeyOf;
  }

  lemma OwnerAfterOne(rows: Rows, ms: seq<Message>, ss: seq<Saves>, id: string)
    requires |ms| == |ss| && ms != []
    ensures var next := if ss[0].first then SaveRow(rows, Left(ms[0], ss[0])) else rows;
            FirstOwner(next, ms[1..], ss[1..], id) == FirstOwner(rows, ms, ss, id)
  {
    LeftIs(ms[0], ss[0]);
    hide Left, IDOf;
  }

  // Each row belongs to the tenant that had it or saved it first, and there are
  // rows for no other IDs.
  lemma {:induction false} RowBelongsToFirst(rows: Rows, ms: seq<Message>, ss: seq<Saves>, id: string)
    requires |ms| == |ss|
    ensures var after, owner := RowsOf(rows, ms, ss), FirstOwner(rows, ms, ss, id);
            (id in after <==> owner.Some?) && (id in after ==> owner == Some(after[id].tenantID))
    decreases |ms|
  {
    if ms != [] {
      OwnerAfterOne(rows, ms, ss, id);
      hide SaveRow, Left;
      RowBelongsToFirst(if ss[0].first then SaveRow(rows, Left(ms[0], ss[0])) else rows, ms[1..], ss[1..], id);
    }
  }

  // ----- what the row shows -----

  // Whether a message's tenant has the row under its ID.
  predicate HasRow(rows: Rows, m: Message) { IDOf(m) in rows && rows[IDOf(m)].tenantID == TenantOf(m) }

  // The last message of the run that its tenant saved under this ID.
  ghost predicate IsLastOf(ms: seq<Message>, ss: seq<Saves>, i: nat)
    requires |ms| == |ss|
  {
    i < |ms| && ss[i].first &&
    forall j :: i < j < |ms| && ss[j].first && IDOf(ms[j]) == IDOf(ms[i]) ==> TenantOf(ms[j]) != TenantOf(ms[i])
  }

  // Others' messages leave the row alone.
  lemma {:induction false} RowIsLeft(rows: Rows, ms: seq<Message>, ss: seq<Saves>, id: string)
    requires |ms| == |ss| && id in rows
    requires forall j :: 0 <= j < |ms| && ss[j].first && IDOf(ms[j]) == id ==> TenantOf(ms[j]) != rows[id].tenantID
    ensures id in RowsOf(rows, ms, ss) && RowsOf(rows, ms, ss)[id] == rows[id]
    decreases |ms|
  {
    if ms != [] {
      var next := if ss[0].first then SaveRow(rows, Left(ms[0], ss[0])) else rows;
      LeftIs(ms[0], ss[0]);
      assert forall j :: 0 <= j < |ms| - 1 ==> ms[1..][j] == ms[j + 1] && ss[1..][j] == ss[j + 1];
      hide Left, IDOf;
      RowIsLeft(next, ms[1..], ss[1..], id);
    }
  }

  // Messages under one ID come from one tool.
  function ToolOf(id: string): string
    requires id != ""
  {
    if id[0] == 'g' then "grafana" else if id[0] == 'z' then "zabbix" else "prometheus"
  }

  lemma SourceIsTool(m: Message, s: Saves)
    ensures IDOf(m) != "" && Left(m, s).source == ToolOf(IDOf(m))
  {
    KindFirst(KeyOf(m));
    assert "am-"[0] == 'a' && "prom-"[0] == 'p' && "zbx-"[0] == 'z' && "gf-"[0] == 'g';
    hide EventID;
  }

  // The row as the message's save leaves it: the tenant's, with the source the
  // row had, if there was one before the run, or the tool's.
  function Shown(rows: Rows, m: Message, s: Saves): Event {
    var e := Left(m, s);
    e.(tenantID := TenantOf(m), source := if e.id in rows then rows[e.id].source else e.source)
  }

  lemma SavedIsShown(rows: Rows, m: Message, s: Saves)
    requires IDOf(m) in rows ==> rows[IDOf(m)].tenantID == TenantOf(m) && rows[IDOf(m)].id == IDOf(m)
    ensures SaveRow(rows, Left(m, s)) == rows[IDOf(m) := Shown(rows, m, s)]
  {
    LeftIs(m, s);
    hide Left, IDOf;
  }

  ghost predicate IDsMatch(rows: Rows) { forall id :: id in rows ==> rows[id].id == id }

  lemma SameShown(rows: Rows, next: Rows, m: Message, s: Saves, n: Message, t: Saves)
    requires next == (if t.first then SaveRow(rows, Left(n, t)) else rows)
    ensures Shown(next, m, s) == Shown(rows, m, s)
  {
    LeftIs(m, s);
    LeftIs(n, t);
    SourceIsTool(m, s);
    SourceIsTool(n, t);
    hide Left, IDOf;
  }

  lemma SaveKeepsIDs(rows: Rows, m: Message, s: Saves)
    requires IDsMatch(rows)
    ensures IDsMatch(if s.first then SaveRow(rows, Left(m, s)) else rows)
  {
    hide Left;
  }

  lemma TailIsLast(ms: seq<Message>, ss: seq<Saves>, i: nat)
    requires |ms| == |ss| && IsLastOf(ms, ss, i) && i > 0
    ensures IsLastOf(ms[1..], ss[1..], i - 1) && ms[1..][i - 1] == ms[i] && ss[1..][i - 1] == ss[i]
  {
    hide IDOf, TenantOf;
    assert forall j :: 0 <= j < |ms| - 1 ==> ms[1..][j] == ms[j + 1] && ss[1..][j] == ss[j + 1];
  }

  lemma FirstRowStays(rows: Rows, ms: seq<Message>, ss: seq<Saves>)
    requires |ms| == |ss| && IsLastOf(ms, ss, 0) && IDsMatch(rows)
    requires IDOf(ms[0]) in rows ==> rows[IDOf(ms[0])].tenantID == TenantOf(ms[0])
    ensures IDOf(ms[0]) in RowsOf(rows, ms, ss) && RowsOf(rows, ms, ss)[IDOf(ms[0])] == Shown(rows, ms[0], ss[0])
  {
    SavedIsShown(rows, ms[0], ss[0]);
    assert forall j :: 0 <= j < |ms| - 1 ==> ms[1..][j] == ms[j + 1] && ss[1..][j] == ss[j + 1];
    assert Shown(rows, ms[0], ss[0]).tenantID == TenantOf(ms[0]);
    hide Left, IDOf, SaveRow, Shown, TenantOf;
    RowIsLeft(SaveRow(rows, Left(ms[0], ss[0])), ms[1..], ss[1..], IDOf(ms[0]));
  }

  lemma {:induction false} RowOfLast(rows: Rows, ms: seq<Message>, ss: seq<Saves>, i: nat)
    requires |ms| == |ss| && IDsMatch(rows) && IsLastOf(ms, ss, i)
    requires FirstOwner(rows, ms, ss, IDOf(ms[i])) == Some(TenantOf(ms[i]))
    ensures IDOf(ms[i]) in RowsOf(rows, ms, ss) && RowsOf(rows, ms, ss)[IDOf(ms[i])] == Shown(rows, ms[i], ss[i])
    decreases |ms|
  {
    hide Left, IDOf, SaveRow, Shown, TenantOf, IDsMatch;
    if i > 0 {
      var next := if ss[0].first then SaveRow(rows, Left(ms[0], ss[0])) else rows;
      SaveKeepsIDs(rows, ms[0], ss[0]);
      TailIsLast(ms, ss, i);
      OwnerAfterOne(rows, ms, ss, IDOf(ms[i]));
      SameShown(rows, next, ms[i], ss[i], ms[0], ss[0]);
      hide IsLastOf, FirstOwner;
      RowOfLast(next, ms[1..], ss[1..], i - 1);
    } else {
      FirstRowStays(rows, ms, ss);
    }
  }

  // Whatever the run, a tenant's row shows the last message that tenant saved
  // under its ID.
  lemma RowShowsLast(rows: Rows, ms: seq<Message>, ss: seq<Saves>, i: nat)
    requires |ms| == |ss| && IDsMatch(rows) && IsLastOf(ms, ss, i)
    requires HasRow(SaveAll(rows, AllSaved(ms, ss)), ms[i])
    ensures SaveAll(rows, AllSaved(ms, ss))[IDOf(ms[i])] == Shown(rows, ms[i], ss[i])
  {
    RowsOfSaves(rows, ms, ss);
    RowBelongsToFirst(rows, ms, ss, IDOf(ms[i]));
    hide SaveAll, AllSaved, RowsOf, FirstOwner, IsLastOf, Shown, IDOf;
    RowOfLast(rows, ms, ss, i);
  }

  // ----- counted messages without a row -----

  // The ID was another tenant's first: in the store already, or by an earlier
  // message with none before it.
  ghost predicate CameSecond(rows: Rows, ms: seq<Message>, ss: seq<Saves>, i: nat)
    requires |ms| == |ss| && i < |ms|
  {
    var id := IDOf(ms[i]);
    if id in rows then rows[id].tenantID != TenantOf(ms[i])
    else exists j :: 0 <= j < i && IsFirst(ms, ss, j) && IDOf(ms[j]) == id && TenantOf(ms[j]) != TenantOf(ms[i])
  }

  ghost predicate IsFirst(ms: seq<Message>, ss: seq<Saves>, j: nat)
    requires |ms| == |ss|
  {
    j < |ms| && ss[j].first && forall k :: 0 <= k < j && ss[k].first ==> IDOf(ms[k]) != IDOf(ms[j])
  }

  lemma {:induction false} FirstSaved(rows: Rows, ms: seq<Message>, ss: seq<Saves>, i: nat) returns (j: nat)
    requires |ms| == |ss| && i < |ms| && ss[i].first && IDOf(ms[i]) !in rows
    ensures j <= i && IsFirst(ms, ss, j) && IDOf(ms[j]) == IDOf(ms[i])
    ensures FirstOwner(rows, ms, ss, IDOf(ms[i])) == Some(TenantOf(ms[j]))
    decreases |ms|
  {
    hide IDOf;
    assert forall k :: 0 <= k < |ms| - 1 ==> ms[1..][k] == ms[k + 1] && ss[1..][k] == ss[k + 1];
    if ss[0].first && IDOf(ms[0]) == IDOf(ms[i]) {
      j := 0;
    } else {
      var k := FirstSaved(rows, ms[1..], ss[1..], i - 1);
      j := k + 1;
      forall l | 0 <= l < j && ss[l].first
        ensures IDOf(ms[l]) != IDOf(ms[j])
      {
        if l > 0 {
          assert ms[1..][l - 1] == ms[l] && ss[1..][l - 1] == ss[l];
        }
      }
    }
  }

  lemma FirstIsUnique(ms: seq<Message>, ss: seq<Saves>, j: nat, k: nat)
    requires |ms| == |ss| && IsFirst(ms, ss, j) && IsFirst(ms, ss, k) && IDOf(ms[j]) == IDOf(ms[k])
    ensures j == k
  {
  }

  // A message that is saved, counted and correlated has no row of its tenant
  // exactly when its ID was another tenant's first.
  lemma NoRowExactlyWhen(rows: Rows, ms: seq<Message>, ss: seq<Saves>, i: nat)
    requires |ms| == |ss| && i < |ms| && ss[i].first
    ensures !HasRow(SaveAll(rows, AllSaved(ms, ss)), ms[i]) <==> CameSecond(rows, ms, ss, i)
  {
    var id := IDOf(ms[i]);
    RowsOfSaves(rows, ms, ss);
    RowBelongsToFirst(rows, ms, ss, id);
    hide SaveAll, AllSaved, RowsOf, IDOf;
    if id !in rows {
      var j := FirstSaved(rows, ms, ss, i);
      hide IsFirst;
      forall k | 0 <= k < i && IsFirst(ms, ss, k) && IDOf(ms[k]) == id
        ensures k == j
      {
        FirstIsUnique(ms, ss, j, k);
      }
    }
  }

  // Two tenants' alerts without fingerprint, read at the same nanosecond: both
  // are counted, and the row stays the first one's.
  lemma SecondTenantHasNoRow(t: string, a: AmAlert, u: string, b: AmAlert, nanos: nat, s: Saves)
    requires TrimSpace(a.fingerprint) == "" && TrimSpace(b.fingerprint) == "" && OwnerOf(t) != OwnerOf(u) && s.first
    ensures var m, n := Am(t, a, nanos), Am(u, b, nanos);
            && CountSaved([s, s]) == 2
            && SaveAll(map[], AllSaved([m, n], [s, s])) == map[IDOf(m) := Shown(map[], m, s)]
  {
    var m, n := Am(t, a, nanos), Am(u, b, nanos);
    assert KeyOf(m) == KeyOf(n);
    assert [s, s][1..] == [s] && [s][1..] == [] && CountSaved([s]) == 1;
    hide KeyOf, AllSaved;
    RowsOfTwo(map[], m, n, s);
    LeftIs(m, s);
    LeftIs(n, s);
    SavedIsShown(map[], m, s);
    hide Left, EventID;
  }

  lemma RowsOfTwo(rows: Rows, m: Message, n: Message, s: Saves)
    requires s.first
    ensures SaveAll(rows, AllSaved([m, n], [s, s])) == SaveRow(SaveRow(rows, Left(m, s)), Left(n, s))
  {
    RowsOfSaves(rows, [m, n], [s, s]);
    hide AllSaved, SaveAll, SaveRow, Left;
    assert [m, n][1..] == [n] && [n][1..] == [] && [s, s][1..] == [s] && [s][1..] == [];
    var next := SaveRow(rows, Left(m, s));
    assert RowsOf(next, [n], [s]) == RowsOf(SaveRow(next, Left(n, s)), [], []);
  }

  // ----- one ID, one alert, one tenant -----

  // The key says which alert it is; without a fingerprint or event ID it is
  // only a clock reading, and each such message is an alert of its own.
  predicate NamesAlert(k: AlertKey) { k.Alertmanager? || k.Grafana? || k.Zabbix? }

  // Two of the messages of a run are about the same alert of the same tenant.
  predicate SameAlert(ms: seq<Message>, i: nat, j: nat)
    requires i < |ms| && j < |ms|
  {
    i == j || (KeyOf(ms[i]) == KeyOf(ms[j]) && NamesAlert(KeyOf(ms[i])))
  }

  // Saved messages share an ID only if they are about the same alert.
  ghost predicate Separate(ms: seq<Message>, ss: seq<Saves>)
    requires |ms| == |ss|
  {
    forall i, j :: 0 <= i < |ms| && 0 <= j < |ms| && ss[i].first && ss[j].first ==> SameIDSameAlert(ms, i, j)
  }

  predicate SameIDSameAlert(ms: seq<Message>, i: nat, j: nat)
    requires i < |ms| && j < |ms|
  {
    IDOf(ms[i]) == IDOf(ms[j]) ==> SameAlert(ms, i, j)
  }

  // The ways two messages lose that: both take their ID from one clock reading
  // (for Alertmanager of any two tenants), or the name of one tenant begins
  // the other's and the IDs overlap there.
  predicate Collide(m: Message, n: Message) {
    || (KeyOf(m) == KeyOf(n) && !NamesAlert(KeyOf(m)))
    || Overlaps(KeyOf(m), KeyOf(n)) || Overlaps(KeyOf(n), KeyOf(m))
  }

  ghost predicate NoCollision(ms: seq<Message>, ss: seq<Saves>)
    requires |ms| == |ss|
  {
    forall i, j :: 0 <= i < |ms| && 0 <= j < |ms| && i != j && ss[i].first && ss[j].first ==> !Collide(ms[i], ms[j])
  }

  lemma KeyHasTenant(m: Message)
    ensures IsScoped(KeyOf(m)) ==> KeyOf(m).tenant == m.tenant
    ensures NamesAlert(KeyOf(m)) ==> IsScoped(KeyOf(m))
  {
  }

  lemma NoOverlapWithItself(k: AlertKey)
    ensures !Overlaps(k, k)
  {
    if IsScoped(k) {
      assert |k.tenant + "-"| > |k.tenant|;
    }
  }

  lemma SameIDExactlyWhenAlike(ms: seq<Message>, i: nat, j: nat)
    requires i < |ms| && j < |ms| && i != j
    ensures SameIDSameAlert(ms, i, j) <==> !Collide(ms[i], ms[j])
  {
    SameIDExactlyWhen(KeyOf(ms[i]), KeyOf(ms[j]));
    NoOverlapWithItself(KeyOf(ms[i]));
    hide KeyOf, EventID, Overlaps;
  }

  // Exactly when a run keeps alerts and tenants apart, for all messages.
  lemma SeparateExactlyWhen(ms: seq<Message>, ss: seq<Saves>)
    requires |ms| == |ss|
    ensures Separate(ms, ss) <==> NoCollision(ms, ss)
  {
    hide KeyOf, IDOf;
    forall i, j | 0 <= i < |ms| && 0 <= j < |ms| && i != j
      ensures SameIDSameAlert(ms, i, j) <==> !Collide(ms[i], ms[j])
    {
      SameIDExactlyWhenAlike(ms, i, j);
    }
    hide Collide;
  }

  lemma NoPairNoCollision(ms: seq<Message>, ss: seq<Saves>)
    requires |ms| == |ss|
    requires forall m, n :: m in ms && n in ms ==> !Collide(m, n)
    ensures Separate(ms, ss)
  {
    hide Collide;
    forall i, j | 0 <= i < |ms| && 0 <= j < |ms| && i != j
      ensures !Collide(ms[i], ms[j])
    {
      assert ms[i] in ms && ms[j] in ms;
    }
    SeparateExactlyWhen(ms, ss);
  }

  predicate SameOrApart(t: string, u: string) { t == u || AreApart(t, u) }

  lemma ApartDoNotOverlap(m: Message, n: Message)
    requires SameOrApart(m.tenant, n.tenant)
    ensures !Overlaps(KeyOf(m), KeyOf(n))
  {
    KeyHasTenant(m);
    KeyHasTenant(n);
    hide KeyOf, Rest;
    assert |m.tenant + "-"| > |m.tenant|;
  }

  // Messages that carry a fingerprint or event ID, whatever it is, are kept
  // apart when no tenant's name, with a dash behind it, begins another's.
  lemma NamedRunsAreSeparate(ms: seq<Message>, ss: seq<Saves>)
    requires |ms| == |ss| && forall m :: m in ms ==> NamesAlert(KeyOf(m))
    requires forall m, n :: m in ms && n in ms ==> SameOrApart(m.tenant, n.tenant)
    ensures Separate(ms, ss)
  {
    forall m, n | m in ms && n in ms
      ensures !Collide(m, n)
    {
      ApartDoNotOverlap(m, n);
      ApartDoNotOverlap(n, m);
      hide Overlaps, KeyOf;
    }
    hide Collide;
    NoPairNoCollision(ms, ss);
  }

  // ... and whatever the tenants are called when no fingerprint holds a dash.
  lemma DashFreeRunsAreSeparate(ms: seq<Message>, ss: seq<Saves>)
    requires |ms| == |ss| && forall m :: m in ms ==> NamesAlert(KeyOf(m)) && IsRegular(KeyOf(m))
    ensures Separate(ms, ss)
  {
    forall m, n | m in ms && n in ms
      ensures !Collide(m, n)
    {
      RegularOverlaps(KeyOf(m), KeyOf(n));
      RegularOverlaps(KeyOf(n), KeyOf(m));
      hide Overlaps, KeyOf, FormatInt, Decimal;
    }
    hide Collide;
    NoPairNoCollision(ms, ss);
  }

  // The index added to the clock keeps Grafana messages of one tenant apart,
  // tests among them: they collide only when clock and index add up to the
  // same, which within one webhook they never do.
  lemma GrafanaOfOneTenant(m: Message, n: Message)
    requires m.Gf? && n.Gf? && m.tenant == n.tenant
    ensures Collide(m, n) ==> m.nanos + m.index == n.nanos + n.index
  {
    ApartDoNotOverlap(m, n);
    ApartDoNotOverlap(n, m);
    hide Overlaps;
  }

  lemma OneGrafanaWebhookIsSeparate(tenant: string, alerts: seq<GfAlert>, now: nat, ss: seq<Saves>)
    requires |ss| == |alerts|
    ensures Separate(GfMessages(tenant, alerts, now), ss)
  {
    hide KeyOf, Collide;
    var ms := GfMessages(tenant, alerts, now);
    forall i, j | 0 <= i < |ms| && 0 <= j < |ms| && i != j
      ensures !Collide(ms[i], ms[j])
    {
      GrafanaOfOneTenant(ms[i], ms[j]);
    }
    SeparateExactlyWhen(ms, ss);
  }

  // Between webhooks they can: of two tests, or two alerts without fingerprint,
  // the first with index 1 of one webhook, the second with index 0 of the next
  // nanosecond's, the row shows only the second.
  lemma WebhooksCanCollide(tenant: string, a: GfAlert, b: GfAlert, now: nat, s: Saves)
    requires s.first
    requires (IsGrafanaTest(a) && IsGrafanaTest(b)) ||
             (!IsGrafanaTest(a) && !IsGrafanaTest(b) && TrimSpace(a.fingerprint) == "" && TrimSpace(b.fingerprint) == "")
    ensures var m, n := Gf(tenant, a, now, 1), Gf(tenant, b, now + 1, 0);
            Collide(m, n) && SaveAll(map[], AllSaved([m, n], [s, s])) == map[IDOf(n) := Shown(map[], n, s)]
  {
    var m, n := Gf(tenant, a, now, 1), Gf(tenant, b, now + 1, 0);
    assert KeyOf(m) == KeyOf(n) && !NamesAlert(KeyOf(m)) && IDOf(m) == IDOf(n) && TenantOf(m) == TenantOf(n);
    hide *;
    RowsOfTwo(map[], m, n, s);
    SecondIsShown(m, n, s);
  }

  lemma SecondIsShown(m: Message, n: Message, s: Saves)
    requires IDOf(m) == IDOf(n) && TenantOf(m) == TenantOf(n)
    ensures SaveRow(SaveRow(map[], Left(m, s)), Left(n, s)) == map[IDOf(n) := Shown(map[], n, s)]
  {
    LeftIs(m, s);
    LeftIs(n, s);
    SourceIsTool(m, s);
    SourceIsTool(n, s);
    hide Left, IDOf;
  }

  // ----- rows of separate runs -----

  lemma {:induction false} LastSaved(ms: seq<Message>, ss: seq<Saves>, i: nat) returns (j: nat)
    requires |ms| == |ss| && i < |ms| && ss[i].first
    ensures i <= j && IsLastOf(ms, ss, j) && IDOf(ms[j]) == IDOf(ms[i]) && TenantOf(ms[j]) == TenantOf(ms[i])
    decreases |ms| - i
  {
    hide IDOf;
    if k: nat :| i < k < |ms| && ss[k].first && IDOf(ms[k]) == IDOf(ms[i]) && TenantOf(ms[k]) == TenantOf(ms[i]) {
      j := LastSaved(ms, ss, k);
    } else {
      j := i;
    }
  }

  lemma SeparateIsFirst(rows: Rows, ms: seq<Message>, ss: seq<Saves>, i: nat)
    requires |ms| == |ss| && i < |ms| && ss[i].first && Separate(ms, ss)
    ensures CameSecond(rows, ms, ss, i) <==> IDOf(ms[i]) in rows && rows[IDOf(ms[i])].tenantID != TenantOf(ms[i])
  {
    forall j | 0 <= j < i && IsFirst(ms, ss, j) && IDOf(ms[j]) == IDOf(ms[i])
      ensures TenantOf(ms[j]) == TenantOf(ms[i])
    {
      assert SameIDSameAlert(ms, j, i);
      KeyHasTenant(ms[i]);
      KeyHasTenant(ms[j]);
    }
  }

  // In a run that keeps alerts apart a saved message's row is its tenant's
  // unless the store already held the ID for another one, and then it shows
  // the last saved message about that alert; a message without fingerprint or
  // event ID is that last message itself, and a Grafana test ends resolved.
  lemma RowOfAlert(rows: Rows, ms: seq<Message>, ss: seq<Saves>, i: nat) returns (j: nat)
    requires |ms| == |ss| && i < |ms| && ss[i].first && Separate(ms, ss) && IDsMatch(rows)
    ensures i <= j < |ms| && ss[j].first && SameAlert(ms, i, j)
    ensures forall k :: j < k < |ms| && ss[k].first ==> !SameAlert(ms, i, k)
    ensures !NamesAlert(KeyOf(ms[i])) ==> j == i
    ensures var after, id := SaveAll(rows, AllSaved(ms, ss)), IDOf(ms[i]);
            if id in rows && rows[id].tenantID != TenantOf(ms[i]) then !HasRow(after, ms[i])
            else
              && HasRow(after, ms[i]) && after[id] == Shown(rows, ms[j], ss[j])
              && (IsTest(ms[j]) && ss[j].second ==> after[id].alertStatus == "resolved")
  {
    j := LastSaved(ms, ss, i);
    SeparateIsFirst(rows, ms, ss, i);
    NoRowExactlyWhen(rows, ms, ss, i);
    LeftIs(ms[j], ss[j]);
    assert SameIDSameAlert(ms, i, j);
    LastIsLastOfAlert(ms, ss, i, j);
    hide SaveAll, AllSaved, CameSecond, IDOf, KeyOf, Left, IsLastOf, Separate;
    if HasRow(SaveAll(rows, AllSaved(ms, ss)), ms[i]) {
      RowShowsLast(rows, ms, ss, j);
    }
  }

  lemma LastIsLastOfAlert(ms: seq<Message>, ss: seq<Saves>, i: nat, j: nat)
    requires |ms| == |ss| && i <= j < |ms| && IsLastOf(ms, ss, j) && SameAlert(ms, i, j)
    ensures forall k :: j < k < |ms| && ss[k].first ==> !SameAlert(ms, i, k)
  {
    forall k | j < k < |ms| && ss[k].first
      ensures !SameAlert(ms, i, k)
    {
      if SameAlert(ms, i, k) {
        KeyHasTenant(ms[j]);
        KeyHasTenant(ms[k]);
      }
    }
  }

  // ----- runs of webhooks -----

  predicate AreWebhooks(ws: seq<Webhook>) { forall w :: w in ws ==> IsWebhook(w) }

  function RowsAfterAll(rows: Rows, ws: seq<Webhook>): Rows
    requires AreWebhooks(ws)
    decreases |ws|
  {
    if ws == [] then rows else RowsAfterAll(RowsAfter(rows, ws[0]), ws[1..])
  }

  function AllMessages(ws: seq<Webhook>): seq<Message>
    requires AreWebhooks(ws)
  {
    if ws == [] then [] else MessagesOf(ws[0]) + AllMessages(ws[1..])
  }

  function SavesOfAll(ws: seq<Webhook>): (ss: seq<Saves>)
    requires AreWebhooks(ws)
    ensures |ss| == |AllMessages(ws)|
  {
    if ws == [] then [] else SavesOf(ws[0]) + SavesOfAll(ws[1..])
  }

  lemma {:induction false} SavedInTwoParts(ms: seq<Message>, ss: seq<Saves>, ns: seq<Message>, ts: seq<Saves>)
    requires |ms| == |ss| && |ns| == |ts|
    ensures AllSaved(ms + ns, ss + ts) == AllSaved(ms, ss) + AllSaved(ns, ts)
    decreases |ms|
  {
    hide Saved;
    if ms == [] {
      assert ms + ns == ns && ss + ts == ts;
    } else {
      assert (ms + ns)[1..] == ms[1..] + ns && (ss + ts)[1..] == ss[1..] + ts;
      SavedInTwoParts(ms[1..], ss[1..], ns, ts);
    }
  }

  // A run of webhooks writes what one run of all their messages writes.
  lemma {:induction false} RunOfWebhooks(rows: Rows, ws: seq<Webhook>)
    requires AreWebhooks(ws)
    ensures RowsAfterAll(rows, ws) == SaveAll(rows, AllSaved(AllMessages(ws), SavesOfAll(ws)))
    decreases |ws|
  {
    hide MessagesOf, SavesOf;
    if ws != [] {
      var w, rest := ws[0], ws[1..];
      RunOfWebhooks(RowsAfter(rows, w), rest);
      SavedInTwoParts(MessagesOf(w), SavesOf(w), AllMessages(rest), SavesOfAll(rest));
      SaveAllAppend(rows, AllSaved(MessagesOf(w), SavesOf(w)), AllSaved(AllMessages(rest), SavesOfAll(rest)));
    }
  }

  // After any run of the three webhooks, rejected bodies and failed saves
  // included: a message saved on the way has a row of its tenant unless its ID
  // was another tenant's first, and that row shows the last message its tenant
  // saved under the ID.
  lemma WebhookRows(rows: Rows, ws: seq<Webhook>, i: nat) returns (j: nat)
    requires AreWebhooks(ws) && IDsMatch(rows) && i < |AllMessages(ws)| && SavesOfAll(ws)[i].first
    ensures i <= j && IsLastOf(AllMessages(ws), SavesOfAll(ws), j)
    ensures var ms := AllMessages(ws); IDOf(ms[j]) == IDOf(ms[i]) && TenantOf(ms[j]) == TenantOf(ms[i])
    ensures var ms, ss, after := AllMessages(ws), SavesOfAll(ws), RowsAfterAll(rows, ws);
            if CameSecond(rows, ms, ss, i) then !HasRow(after, ms[i])
            else HasRow(after, ms[i]) && after[IDOf(ms[i])] == Shown(rows, ms[j], ss[j])
  {
    var ms, ss := AllMessages(ws), SavesOfAll(ws);
    RunOfWebhooks(rows, ws);
    NoRowExactlyWhen(rows, ms, ss, i);
    j := LastSaved(ms, ss, i);
    hide SaveAll, AllSaved, CameSecond, IDOf, IsLastOf, Shown, RowsAfterAll, AllMessages, SavesOfAll;
    if HasRow(SaveAll(rows, AllSaved(ms, ss)), ms[i]) {
      RowShowsLast(rows, ms, ss, j);
    }
  }

  // With IDs made for the tenant, and tenants whose names keep apart, no tenant
  // ever takes a row from another: every saved message has its row, unless the
  // store held the ID for another tenant before.
  lemma ApartTenantsKeepRows(rows: Rows, ws: seq<Webhook>, i: nat)
    requires AreWebhooks(ws) && IDsMatch(rows) && i < |AllMessages(ws)| && SavesOfAll(ws)[i].first
    requires forall m :: m in AllMessages(ws) ==> IsScoped(KeyOf(m))
    requires forall m, n :: m in AllMessages(ws) && n in AllMessages(ws) ==> SameOrApart(m.tenant, n.tenant)
    ensures var m := AllMessages(ws)[i];
            HasRow(RowsAfterAll(rows, ws), m) <==> (IDOf(m) in rows ==> rows[IDOf(m)].tenantID == TenantOf(m))
  {
    var ms, ss := AllMessages(ws), SavesOfAll(ws);
    var j := WebhookRows(rows, ws, i);
    hide SaveAll, AllSaved, Shown, RowsAfterAll, AllMessages, SavesOfAll, KeyOf, EventID;
    forall k | 0 <= k < i && IDOf(ms[k]) == IDOf(ms[i])
      ensures TenantOf(ms[k]) == TenantOf(ms[i])
    {
      assert ms[k] in ms && ms[i] in ms;
      KeyHasTenant(ms[k]);
      KeyHasTenant(ms[i]);
      SameIDExactlyWhen(KeyOf(ms[k]), KeyOf(ms[i]));
      ApartDoNotOverlap(ms[k], ms[i]);
      ApartDoNotOverlap(ms[i], ms[k]);
    }
  }
}
