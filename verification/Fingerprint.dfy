// fingerprint.Fingerprint: the canonical bytes of an alert, handed to SHA-256.
module Fingerprint {
  import opened Text
  import opened Tokens
  import opened Values

  datatype Alert = Alert(name: string, labels: map<string, string>)

  // ----- step 1: which labels count, and what they become -----

  function Fold(s: string): string { ToLower(TrimSpace(s)) }

  const VOLATILE_KEYS: set<string> := {
    "value", "annotation.value", "grafana.value", "zabbix.item_value", "otel.metric.value",
    "timestamp", "time", "startsat", "endsat",
    "event_id", "request_id", "trace_id", "span_id", "traceid", "spanid", "pod_uid", "uid", "container_id",
    "neuroops_test", "service.original", "service.derived_from"
  }

  predicate IsVolatileKey(k: string) { k in VOLATILE_KEYS || HasSuffix(k, "url") }

  function NormalOf(s: string, net: Net): string
    requires net.Lawful()
  {
    NormalizeValue(Fold(s), net)
  }

  // The key and value under which a label takes part in the fingerprint.
  datatype Entry = Entry(key: string, value: string)

  // None for a label that is dropped: no key, a volatile key, no value.
  function Contribution(raw: string, value: string, net: Net): Option<Entry>
    requires net.Lawful()
  {
    var k := Fold(raw);
    if k == "" || IsVolatileKey(k) then None
    else
      var v := NormalOf(value, net);
      if v == "" then None else Some(Entry(k, v))
  }

  function Contributions(labels: map<string, string>, net: Net): map<string, Entry>
    requires net.Lawful()
  {
    map raw | raw in labels && Contribution(raw, labels[raw], net).Some? ::
      Contribution(raw, labels[raw], net).value
  }

  // The values offered for the key `k` by the labels in `among`.
  function Offers(entries: map<string, Entry>, among: set<string>, k: string): set<string> {
    set raw | raw in among && raw in entries && entries[raw].key == k :: entries[raw].value
  }

  function KeysAmong(entries: map<string, Entry>, among: set<string>): (ks: set<string>)
    ensures forall k :: k in ks <==> Offers(entries, among, k) != {}
  {
    var ks := set raw | raw in among && raw in entries :: entries[raw].key;
    assert forall k :: k in ks <==> Offers(entries, among, k) != {} by {
      forall k
        ensures k in ks <==> Offers(entries, among, k) != {}
      {
        if k in ks {
          var raw :| raw in among && raw in entries && entries[raw].key == k;
          assert entries[raw].value in Offers(entries, among, k);
        }
      }
    }
    ks
  }

  ghost predicate IsLeast(v: string, s: set<string>) {
    v in s && forall x :: x in s ==> AtMost(v, x)
  }

  lemma {:induction false} LeastExists(s: set<string>)
    requires s != {}
    ensures exists v :: IsLeast(v, s)
    decreases s
  {
    var x :| x in s;
    if s == {x} {
      assert IsLeast(x, s);
    } else {
      LeastExists(s - {x});
      var y :| IsLeast(y, s - {x});
      LessTrichotomy(x, y);
      var v := if Less(x, y) then x else y;
      forall z | z in s
        ensures AtMost(v, z)
      {
        if z != x {
          AtMostTransitive(v, y, z);
        }
      }
      assert IsLeast(v, s);
    }
  }

  lemma LeastIsUnique(v: string, w: string, s: set<string>)
    requires IsLeast(v, s) && IsLeast(w, s)
    ensures v == w
  {
    LessTrichotomy(v, w);
  }

  ghost function Least(s: set<string>): (v: string)
    requires s != {}
    ensures IsLeast(v, s)
  {
    LeastExists(s);
    var v :| IsLeast(v, s);
    v
  }

  // For each key the bytewise least of its offers.
  ghost function Merged(entries: map<string, Entry>, among: set<string>): map<string, string> {
    map k | k in KeysAmong(entries, among) :: Least(Offers(entries, among, k))
  }

  // The normalised label map of an alert.
  ghost function NormalLabels(labels: map<string, string>, net: Net): map<string, string>
    requires net.Lawful()
  {
    Merged(Contributions(labels, net), labels.Keys)
  }

  // ----- step 3: sorted keys -----

  predicate Ascending(ks: seq<string>) {
    forall i, j :: 0 <= i < j < |ks| ==> Less(ks[i], ks[j])
  }

  predicate Distinct(ks: seq<string>) {
    forall i, j :: 0 <= i < j < |ks| ==> ks[i] != ks[j]
  }

  function Elements(ks: seq<string>): set<string> { set k | k in ks }

  function InsertKey(k: string, ks: seq<string>): (r: seq<string>)
    requires Ascending(ks) && k !in ks
    ensures Ascending(r)
    ensures Elements(r) == Elements(ks) + {k}
  {
    if ks == [] then [k]
    else if Less(k, ks[0]) then
      assert forall j :: 0 < j < |ks| ==> Less(k, ks[j]) by {
        forall j | 0 < j < |ks|
          ensures Less(k, ks[j])
        {
          LessTransitive(k, ks[0], ks[j]);
        }
      }
      [k] + ks
    else
      LessTrichotomy(k, ks[0]);
      var tail := InsertKey(k, ks[1..]);
      assert forall x :: x in tail ==> x in Elements(ks[1..]) + {k} by {
        assert forall x :: x in tail ==> x in Elements(tail);
      }
      assert forall x :: x in tail ==> Less(ks[0], x);
      assert ks == [ks[0]] + ks[1..];
      [ks[0]] + tail
  }

  // sort.Strings on a list without duplicates
  function SortKeys(ks: seq<string>): (r: seq<string>)
    requires Distinct(ks)
    ensures Ascending(r)
    ensures Elements(r) == Elements(ks)
  {
    if ks == [] then []
    else
      var tail := SortKeys(ks[1..]);
      assert ks[0] !in Elements(ks[1..]);
      assert forall x :: x in tail ==> x in Elements(tail);
      assert ks == [ks[0]] + ks[1..];
      InsertKey(ks[0], tail)
  }

  lemma AscendingHeadIsLeast(ks: seq<string>)
    requires Ascending(ks) && ks != []
    ensures IsLeast(ks[0], Elements(ks))
    ensures Elements(ks[1..]) == Elements(ks) - {ks[0]}
  {
    forall x | x in ks
      ensures AtMost(ks[0], x)
    {
      var i :| 0 <= i < |ks| && ks[i] == x;
    }
    assert ks == [ks[0]] + ks[1..];
    forall i | 0 < i < |ks|
      ensures ks[i] != ks[0]
    {
      LessTrichotomy(ks[0], ks[i]);
    }
  }

  // A set of keys has one ascending listing.
  lemma {:induction false} AscendingListingIsUnique(xs: seq<string>, ys: seq<string>)
    requires Ascending(xs) && Ascending(ys) && Elements(xs) == Elements(ys)
    ensures xs == ys
    decreases |xs|
  {
    assert xs != [] ==> xs[0] in Elements(xs);
    assert ys != [] ==> ys[0] in Elements(ys);
    if xs != [] {
      AscendingHeadIsLeast(xs);
      AscendingHeadIsLeast(ys);
      LeastIsUnique(xs[0], ys[0], Elements(xs));
      AscendingListingIsUnique(xs[1..], ys[1..]);
      assert xs == [xs[0]] + xs[1..] && ys == [ys[0]] + ys[1..];
    }
  }

  // ----- step 4: length-prefixed fields -----

  // What appendField appends for `s`.
  function Field(s: string): string { Decimal(|s|) + ":" + s }

  function Encode(fields: seq<string>): string {
    if fields == [] then "" else Field(fields[0]) + Encode(fields[1..])
  }

  lemma {:induction false} EncodeAppend(xs: seq<string>, ys: seq<string>)
    ensures Encode(xs + ys) == Encode(xs) + Encode(ys)
    decreases |xs|
  {
    if xs == [] {
      assert xs + ys == ys;
    } else {
      EncodeAppend(xs[1..], ys);
      assert (xs + ys)[1..] == xs[1..] + ys;
    }
  }

  // The first field ends where its length says, whatever follows it.
  lemma FieldIsPrefixFree(a: string, x: string, b: string, y: string)
    requires Field(a) + x == Field(b) + y
    ensures a == b && x == y
  {
    var s := Field(a) + x;
    var la, lb := Decimal(|a|), Decimal(|b|);
    assert s == la + [':'] + (a + x);
    assert s == lb + [':'] + (b + y);
    assert ':' !in la && ':' !in lb;
    HeadBeforeSeparator(la, a + x, lb, b + y, ':');
    DecimalInjective(|a|, |b|);
    assert a == (a + x)[..|a|] && b == (b + y)[..|b|];
    assert x == (a + x)[|a|..] && y == (b + y)[|b|..];
  }

  // The length-prefixed encoding is injective on lists of fields.
  lemma {:induction false} EncodeIsInjective(xs: seq<string>, ys: seq<string>)
    requires Encode(xs) == Encode(ys)
    ensures xs == ys
    decreases |xs|
  {
    if xs == [] || ys == [] {
      assert xs == [] && ys == [] by {
        EncodeIsEmptyOnlyFor(xs);
        EncodeIsEmptyOnlyFor(ys);
      }
    } else {
      FieldIsPrefixFree(xs[0], Encode(xs[1..]), ys[0], Encode(ys[1..]));
      EncodeIsInjective(xs[1..], ys[1..]);
      assert xs == [xs[0]] + xs[1..] && ys == [ys[0]] + ys[1..];
    }
  }

  lemma EncodeIsEmptyOnlyFor(xs: seq<string>)
    ensures Encode(xs) == "" <==> xs == []
  {
  }

  // ----- the canonical bytes -----

  function Pairs(ks: seq<string>, m: map<string, string>): (r: seq<string>)
    requires forall k :: k in ks ==> k in m
    ensures |r| == 2 * |ks|
    ensures forall i :: 0 <= i < |ks| ==> r[2 * i] == ks[i] && r[2 * i + 1] == m[ks[i]]
  {
    if ks == [] then [] else [ks[0], m[ks[0]]] + Pairs(ks[1..], m)
  }

  // The bytes for a name and a label map, given its keys in ascending order.
  function Bytes(name: string, ks: seq<string>, m: map<string, string>): string
    requires forall k :: k in ks ==> k in m
  {
    Encode([name] + Pairs(ks, m))
  }

  ghost predicate IsListing(ks: seq<string>, s: set<string>) {
    Ascending(ks) && Elements(ks) == s
  }

  lemma {:induction false} ListingExists(s: set<string>)
    ensures exists ks :: IsListing(ks, s)
    decreases s
  {
    if s == {} {
      assert IsListing([], s);
    } else {
      var x :| x in s;
      ListingExists(s - {x});
      var rest :| IsListing(rest, s - {x});
      assert x !in Elements(rest);
      assert IsListing(InsertKey(x, rest), s);
    }
  }

  ghost function Listing(s: set<string>): (ks: seq<string>)
    ensures IsListing(ks, s)
  {
    ListingExists(s);
    var ks :| IsListing(ks, s);
    ks
  }

  // What the alert's normal form is written as.
  ghost function Canonical(a: Alert, net: Net): string
    requires net.Lawful()
  {
    var m := NormalLabels(a.labels, net);
    var ks := Listing(m.Keys);
    assert forall k :: k in ks ==> k in Elements(ks);
    Bytes(NormalOf(a.name, net), ks, m)
  }

  lemma PairsDetermineMap(ks: seq<string>, m: map<string, string>, ls: seq<string>, n: map<string, string>)
    requires Elements(ks) == m.Keys && Elements(ls) == n.Keys
    requires forall k :: k in ks ==> k in m
    requires forall k :: k in ls ==> k in n
    requires Pairs(ks, m) == Pairs(ls, n)
    ensures ks == ls && m == n
  {
    var r, q := Pairs(ks, m), Pairs(ls, n);
    assert |ks| == |ls|;
    forall i | 0 <= i < |ks|
      ensures ks[i] == ls[i] && m[ks[i]] == n[ls[i]]
    {
      assert r[2 * i] == q[2 * i] && r[2 * i + 1] == q[2 * i + 1];
    }
    assert m.Keys == n.Keys;
    forall k | k in m
      ensures m[k] == n[k]
    {
      assert k in Elements(ks);
      var i :| 0 <= i < |ks| && ks[i] == k;
    }
  }

  // The bytes handed to SHA-256 are a canonical form: two alerts have the same
  // bytes exactly when their normalised names and label maps are the same. No
  // label value can forge another label set.
  lemma CanonicalForm(a: Alert, b: Alert, net: Net)
    requires net.Lawful()
    ensures Canonical(a, net) == Canonical(b, net)
       <==> NormalOf(a.name, net) == NormalOf(b.name, net) && NormalLabels(a.labels, net) == NormalLabels(b.labels, net)
  {
    var m, n := NormalLabels(a.labels, net), NormalLabels(b.labels, net);
    var ks, ls := Listing(m.Keys), Listing(n.Keys);
    assert forall k :: k in ks ==> k in Elements(ks);
    assert forall k :: k in ls ==> k in Elements(ls);
    var x, y := NormalOf(a.name, net), NormalOf(b.name, net);
    if Canonical(a, net) == Canonical(b, net) {
      EncodeIsInjective([x] + Pairs(ks, m), [y] + Pairs(ls, n));
      assert ([x] + Pairs(ks, m))[1..] == Pairs(ks, m) && ([y] + Pairs(ls, n))[1..] == Pairs(ls, n);
      assert ([x] + Pairs(ks, m))[0] == x && ([y] + Pairs(ls, n))[0] == y;
      PairsDetermineMap(ks, m, ls, n);
    }
  }

  // ----- the loops of Fingerprint -----

  method AppendField(buf: string, s: string) returns (r: string)
    ensures r == buf + Field(s)
  {
    r := buf + Decimal(|s|);
    r := r + [':'];
    r := r + s;
  }

  lemma LeastOfOneMore(s: set<string>, v: string)
    ensures Least({v}) == v
    ensures s != {} ==> Least(s + {v}) == if Less(v, Least(s)) then v else Least(s)
  {
    LeastIsUnique(Least({v}), v, {v});
    if s != {} {
      var w := if Less(v, Least(s)) then v else Least(s);
      LessTrichotomy(v, Least(s));
      forall x | x in s + {v}
        ensures AtMost(w, x)
      {
        if x in s {
          AtMostTransitive(w, Least(s), x);
        }
      }
      LeastIsUnique(Least(s + {v}), w, s + {v});
    }
  }

  lemma OneMoreOffer(entries: map<string, Entry>, among: set<string>, raw: string, k: string)
    ensures Offers(entries, among + {raw}, k) ==
            Offers(entries, among, k) +
            (if raw in entries && entries[raw].key == k then {entries[raw].value} else {})
  {
  }

  lemma SkippedLabel(entries: map<string, Entry>, among: set<string>, raw: string)
    requires raw !in entries
    ensures Merged(entries, among + {raw}) == Merged(entries, among)
  {
    forall k
      ensures Offers(entries, among + {raw}, k) == Offers(entries, among, k)
    {
      OneMoreOffer(entries, among, raw, k);
    }
    hide Offers, Less;
    assert Merged(entries, among + {raw}).Keys == Merged(entries, among).Keys;
  }

  function WithEntry(m: map<string, string>, e: Entry): map<string, string> {
    if e.key in m && !Less(e.value, m[e.key]) then m else m[e.key := e.value]
  }

  lemma CountedLabelAt(entries: map<string, Entry>, among: set<string>, raw: string, l: string)
    requires raw in entries
    ensures var after, want := Merged(entries, among + {raw}), WithEntry(Merged(entries, among), entries[raw]);
            (l in after <==> l in want) && (l in after ==> after[l] == want[l])
  {
    var e := entries[raw];
    OneMoreOffer(entries, among, raw, l);
    var s := Offers(entries, among, l);
    if l == e.key {
      LeastOfOneMore(s, e.value);
      if s == {} {
        assert s + {e.value} == {e.value};
      }
    } else {
      assert Offers(entries, among + {raw}, l) == s;
    }
  }

  // A label that counts: its key gets the lesser of its value and the one
  // already there.
  lemma CountedLabel(entries: map<string, Entry>, among: set<string>, raw: string)
    requires raw in entries
    ensures Merged(entries, among + {raw}) == WithEntry(Merged(entries, among), entries[raw])
  {
    var after, want := Merged(entries, among + {raw}), WithEntry(Merged(entries, among), entries[raw]);
    hide *;
    forall l
      ensures (l in after <==> l in want) && (l in after ==> after[l] == want[l])
    {
      CountedLabelAt(entries, among, raw, l);
    }
    assert after.Keys == want.Keys;
  }

  method ReadLabel(raw: string, value: string, net: Net) returns (e: Option<Entry>)
    requires net.Lawful()
    ensures e == Contribution(raw, value, net)
  {
    var k := Fold(raw);
    if k == "" || IsVolatileKey(k) {
      return None;
    }
    var v := RewriteValue(Fold(value), net);
    if v == "" {
      return None;
    }
    return Some(Entry(k, v));
  }

  method MergeEntry(keys: seq<string>, values: map<string, string>, e: Entry)
    returns (keys': seq<string>, values': map<string, string>)
    requires Distinct(keys) && Elements(keys) == values.Keys
    ensures values' == WithEntry(values, e)
    ensures Distinct(keys') && Elements(keys') == values'.Keys
  {
    keys', values' := keys, values;
    if e.key in values {
      if Less(e.value, values[e.key]) {
        values' := values[e.key := e.value];
      }
    } else {
      assert e.key !in Elements(keys);
      keys' := keys + [e.key];
      values' := values[e.key := e.value];
    }
  }

  // The label loop, over the labels in whatever order the map yields them:
  // every order ends with the same values, and with each key listed once.
  method CollectLabels(labels: map<string, string>, net: Net) returns (keys: seq<string>, values: map<string, string>)
    requires net.Lawful()
    ensures values == NormalLabels(labels, net)
    ensures Distinct(keys) && Elements(keys) == values.Keys
  {
    hide Contribution, WithEntry;
    keys, values := [], map[];
    var todo := labels.Keys;
    ghost var entries := Contributions(labels, net);
    ghost var done: set<string> := {};
    while todo != {}
      invariant todo + done == labels.Keys
      invariant values == Merged(entries, done)
      invariant Distinct(keys) && Elements(keys) == values.Keys
      decreases todo
    {
      var raw :| raw in todo;
      todo := todo - {raw};
      var e := ReadLabel(raw, labels[raw], net);
      match e {
        case None =>
          SkippedLabel(entries, done, raw);
        case Some(entry) =>
          CountedLabel(entries, done, raw);
          keys, values := MergeEntry(keys, values, entry);
      }
      done := done + {raw};
    }
    assert done == labels.Keys;
  }

  method WriteFields(name: string, keys: seq<string>, values: map<string, string>) returns (buf: string)
    requires forall k :: k in keys ==> k in values
    ensures buf == Bytes(name, keys, values)
  {
    buf := AppendField("", name);
    ghost var fields := Pairs(keys, values);
    ghost var written := [name];
    TwoMoreFields([], name, name);
    assert buf == Encode(written);
    var i := 0;
    while i < |keys|
      invariant 0 <= i <= |keys|
      invariant written == [name] + fields[..2 * i]
      invariant buf == Encode(written)
    {
      buf := AppendField(buf, keys[i]);
      buf := AppendField(buf, values[keys[i]]);
      TwoMoreFields(written, keys[i], values[keys[i]]);
      written := written + [keys[i], values[keys[i]]];
      i := i + 1;
    }
    assert fields[..2 * i] == fields;
  }

  method CanonicalBytes(a: Alert, net: Net) returns (buf: string)
    requires net.Lawful()
    ensures buf == Canonical(a, net)
  {
    hide NormalizeValue, Fold, NormalLabels, Bytes, Less;
    var name := RewriteValue(Fold(a.name), net);
    var keys, values := CollectLabels(a.labels, net);
    keys := SortKeys(keys);
    AscendingListingIsUnique(keys, Listing(values.Keys));
    assert forall k :: k in keys ==> k in Elements(keys);
    buf := WriteFields(name, keys, values);
  }

  lemma TwoMoreFields(xs: seq<string>, x: string, y: string)
    ensures Encode(xs + [x, y]) == Encode(xs) + Field(x) + Field(y)
    ensures Encode([x]) == Field(x)
  {
    assert [x][1..] == [] && Encode([x]) == Field(x) + "";
    EncodeAppend(xs, [x, y]);
    assert [x, y][1..] == [y] && [y][1..] == [];
    assert Encode([y]) == Field(y) + "";
  }

  // The result: hex of a hash of those bytes, for any hash and any hex.
  method Fingerprint(a: Alert, net: Net, hexSum: string -> string) returns (r: string)
    requires net.Lawful()
    ensures r == hexSum(Canonical(a, net))
  {
    var buf := CanonicalBytes(a, net);
    r := hexSum(buf);
  }

  // ----- same problem, same fingerprint -----

  // With a hash that tells these two alerts' bytes apart, equal fingerprints
  // mean equal normal forms and nothing else.
  lemma FingerprintIdentifies(a: Alert, b: Alert, net: Net, hexSum: string -> string)
    requires net.Lawful()
    requires hexSum(Canonical(a, net)) == hexSum(Canonical(b, net)) ==> Canonical(a, net) == Canonical(b, net)
    ensures hexSum(Canonical(a, net)) == hexSum(Canonical(b, net))
       <==> NormalOf(a.name, net) == NormalOf(b.name, net) && NormalLabels(a.labels, net) == NormalLabels(b.labels, net)
  {
    CanonicalForm(a, b, net);
  }

  // A label that is dropped (volatile key, nothing left of its value) counts
  // as a missing label.
  lemma DroppedLabelIsMissing(labels: map<string, string>, raw: string, value: string, net: Net)
    requires net.Lawful() && raw !in labels && Contribution(raw, value, net) == None
    ensures NormalLabels(labels[raw := value], net) == NormalLabels(labels, net)
  {
    hide Contribution;
    var more := labels[raw := value];
    var entries := Contributions(labels, net);
    assert Contributions(more, net) == entries;
    SkippedLabel(entries, labels.Keys, raw);
    assert more.Keys == labels.Keys + {raw};
  }

  // Alerts whose labels have the same names and the same normalised values are
  // the same alert.
  lemma SameValuesSameBytes(name: string, x: map<string, string>, y: map<string, string>, net: Net)
    requires net.Lawful() && x.Keys == y.Keys
    requires forall raw :: raw in x ==> NormalOf(x[raw], net) == NormalOf(y[raw], net)
    ensures Canonical(Alert(name, x), net) == Canonical(Alert(name, y), net)
  {
    assert Contributions(x, net) == Contributions(y, net) by {
      hide NormalOf, IsVolatileKey, Fold;
      assert forall raw :: raw in x ==> Contribution(raw, x[raw], net) == Contribution(raw, y[raw], net);
    }
    hide NormalOf;
    assert NormalLabels(x, net) == NormalLabels(y, net);
    CanonicalForm(Alert(name, x), Alert(name, y), net);
  }

  // The promise of the fingerprint: alerts that differ, word by word, only in
  // pod, address, port, time, UUID or long number have the same bytes.
  lemma SameProblemSameBytes(a: Alert, b: Alert, net: Net)
    requires net.Lawful() && a.labels.Keys == b.labels.Keys
    requires ValuesAlike(Fold(a.name), Fold(b.name), net)
    requires forall raw :: raw in a.labels ==> ValuesAlike(Fold(a.labels[raw]), Fold(b.labels[raw]), net)
    ensures Canonical(a, net) == Canonical(b, net)
  {
    forall raw | raw in a.labels
      ensures NormalOf(a.labels[raw], net) == NormalOf(b.labels[raw], net)
    {
      ValuesAlikeSameValue(Fold(a.labels[raw]), Fold(b.labels[raw]), net);
    }
    ValuesAlikeSameValue(Fold(a.name), Fold(b.name), net);
    assert NormalOf(a.name, net) == NormalOf(b.name, net);
    hide NormalOf, ValuesAlike, Canonical;
    SameValuesSameBytes(a.name, a.labels, b.labels, net);
    CanonicalForm(Alert(a.name, a.labels), Alert(a.name, b.labels), net);
    CanonicalForm(Alert(a.name, b.labels), b, net);
  }

  lemma NameIsFolded(s: string)
    requires IsName(s)
    ensures Fold(s) == s
  {
    assert s != "" ==> IsNameChar(s[0]) && IsNameChar(s[|s| - 1]);
    TrimKeeps(s, IsSpace);
    assert forall i :: 0 <= i < |s| ==> IsNameChar(s[i]);
  }

  lemma PodNormalOf(pod: string, base: string, net: Net)
    requires net.Lawful() && IsPodOf(pod, base)
    ensures NormalOf(pod, net) == base
  {
    assert IsName(pod);
    hide IsName, IsPodOf, NormalizeValue;
    NameIsFolded(pod);
    PodValue(pod, base, net);
  }

  // An alert keeps its fingerprint when the pod it names is replaced by
  // another pod of the same workload, whatever the other labels are.
  lemma PodsOfOneWorkload(a: Alert, key: string, base: string, pod1: string, pod2: string, net: Net)
    requires net.Lawful() && IsPodOf(pod1, base) && IsPodOf(pod2, base)
    ensures Canonical(Alert(a.name, a.labels[key := pod1]), net) == Canonical(Alert(a.name, a.labels[key := pod2]), net)
  {
    hide *;
    PodNormalOf(pod1, base, net);
    PodNormalOf(pod2, base, net);
    SameValuesSameBytes(a.name, a.labels[key := pod1], a.labels[key := pod2], net);
  }
}
