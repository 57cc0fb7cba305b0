// What makes two alerts the same: which labels count, how their keys are read,
// and how the bytes are laid out. In the fingerprint's own terms.
module Identity {
  import opened Text
  import opened Tokens
  import opened Values
  import opened Fingerprint

  // A key as it is read: without outer blanks, in lower case.
  function KeyRead(raw: string): string { ToLower(TrimSpace(raw)) }

  function ValueRead(v: string, net: Net): string
    requires net.Lawful()
  {
    NormalizeValue(ToLower(TrimSpace(v)), net)
  }

  // No key, a measured value, a time, an ID of one occurrence, a mark the
  // platform adds, or a link.
  predicate SaysNothing(k: string) {
    || k == ""
    || k == "value" || k == "annotation.value" || k == "grafana.value" || k == "zabbix.item_value"
    || k == "otel.metric.value"
    || k == "timestamp" || k == "time" || k == "startsat" || k == "endsat"
    || k == "event_id" || k == "request_id" || k == "trace_id" || k == "span_id" || k == "traceid" || k == "spanid"
    || k == "pod_uid" || k == "uid" || k == "container_id"
    || k == "neuroops_test" || k == "service.original" || k == "service.derived_from"
    || (|k| >= 3 && k[|k| - 3..] == "url")
  }

  lemma VolatileAre(k: string)
    ensures SaysNothing(k) <==> k == "" || IsVolatileKey(k)
  {
  }

  // What a label adds.
  lemma ContributionIs(raw: string, value: string, net: Net)
    requires net.Lawful()
    ensures Contribution(raw, value, net) ==
            if SaysNothing(KeyRead(raw)) || ValueRead(value, net) == "" then None
            else Some(Entry(KeyRead(raw), ValueRead(value, net)))
  {
    VolatileAre(KeyRead(raw));
    hide IsVolatileKey, SaysNothing, NormalizeValue;
  }

  // Some label with that key has that value.
  ghost predicate Offered(labels: map<string, string>, net: Net, k: string, v: string)
    requires net.Lawful()
  {
    exists raw :: raw in labels && KeyRead(raw) == k && ValueRead(labels[raw], net) == v && v != ""
  }

  lemma OffersAre(labels: map<string, string>, net: Net, k: string, v: string)
    requires net.Lawful()
    ensures v in Offers(Contributions(labels, net), labels.Keys, k) <==> !SaysNothing(k) && Offered(labels, net, k, v)
  {
    var entries := Contributions(labels, net);
    forall raw | raw in labels
      ensures raw in entries && entries[raw] == Entry(k, v) <==>
              !SaysNothing(k) && KeyRead(raw) == k && ValueRead(labels[raw], net) == v && v != ""
    {
      ContributionIs(raw, labels[raw], net);
    }
    hide SaysNothing, KeyRead, ValueRead, Contribution;
    if !SaysNothing(k) && Offered(labels, net, k, v) {
      var raw :| raw in labels && KeyRead(raw) == k && ValueRead(labels[raw], net) == v && v != "";
      assert raw in entries && entries[raw] == Entry(k, v);
    }
    if v in Offers(entries, labels.Keys, k) {
      var raw :| raw in labels && raw in entries && entries[raw].key == k && entries[raw].value == v;
      assert entries[raw] == Entry(k, v);
    }
  }

  // The label map that is compared: each key that says something and has a
  // value, with the least of its values.
  lemma NormalLabelsAre(labels: map<string, string>, net: Net, k: string)
    requires net.Lawful()
    ensures k in NormalLabels(labels, net) <==> !SaysNothing(k) && exists v :: Offered(labels, net, k, v)
    ensures k in NormalLabels(labels, net) ==>
              var v := NormalLabels(labels, net)[k];
              Offered(labels, net, k, v) && forall w :: Offered(labels, net, k, w) ==> v == w || Less(v, w)
  {
    hide SaysNothing, Offered, Less, Contributions;
    LeastOffer(labels, net, k);
    var offers := Offers(Contributions(labels, net), labels.Keys, k);
    hide *;
    forall v
      ensures v in offers <==> !SaysNothing(k) && Offered(labels, net, k, v)
    {
      OffersAre(labels, net, k, v);
    }
    if v :| Offered(labels, net, k, v) {
      assert !SaysNothing(k) ==> v in offers;
    }
  }

  lemma LeastOffer(labels: map<string, string>, net: Net, k: string)
    requires net.Lawful()
    ensures var offers := Offers(Contributions(labels, net), labels.Keys, k);
            && (k in NormalLabels(labels, net) <==> offers != {})
            && (k in NormalLabels(labels, net) ==>
                  var v := NormalLabels(labels, net)[k]; v in offers && forall w :: w in offers ==> v == w || Less(v, w))
  {
    hide Offers, Contributions, Less;
    if k in NormalLabels(labels, net) {
      assert IsLeast(NormalLabels(labels, net)[k], Offers(Contributions(labels, net), labels.Keys, k));
    }
  }

  lemma SameOffersSameLabel(x: map<string, string>, y: map<string, string>, k: string, net: Net)
    requires net.Lawful() && forall v :: !SaysNothing(k) ==> (Offered(x, net, k, v) <==> Offered(y, net, k, v))
    ensures var m, n := NormalLabels(x, net), NormalLabels(y, net); (k in m <==> k in n) && (k in m ==> m[k] == n[k])
  {
    hide *;
    NormalLabelsAre(x, net, k);
    NormalLabelsAre(y, net, k);
    var m, n := NormalLabels(x, net), NormalLabels(y, net);
    if k in m && k in n {
      LessTrichotomy(m[k], n[k]);
    }
  }

  // The same offers make the same alert.
  lemma SameOffersSameBytes(name: string, x: map<string, string>, y: map<string, string>, net: Net)
    requires net.Lawful()
    requires forall k, v :: !SaysNothing(k) ==> (Offered(x, net, k, v) <==> Offered(y, net, k, v))
    ensures Canonical(Alert(name, x), net) == Canonical(Alert(name, y), net)
  {
    hide *;
    SameOffersSameLabels(x, y, net);
    CanonicalForm(Alert(name, x), Alert(name, y), net);
  }

  lemma SameOffersSameLabels(x: map<string, string>, y: map<string, string>, net: Net)
    requires net.Lawful()
    requires forall k, v :: !SaysNothing(k) ==> (Offered(x, net, k, v) <==> Offered(y, net, k, v))
    ensures NormalLabels(x, net) == NormalLabels(y, net)
  {
    hide *;
    var m, n := NormalLabels(x, net), NormalLabels(y, net);
    forall k
      ensures (k in m <==> k in n) && (k in m ==> m[k] == n[k])
    {
      SameOffersSameLabel(x, y, k, net);
    }
    assert m == n;
  }

  // A label that says nothing may be there, with any value, or not.
  lemma LabelSaysNothing(name: string, labels: map<string, string>, raw: string, value: string, net: Net)
    requires net.Lawful() && SaysNothing(KeyRead(raw))
    ensures Canonical(Alert(name, labels[raw := value]), net) == Canonical(Alert(name, labels - {raw}), net)
  {
    hide SaysNothing, ValueRead, KeyRead;
    SameOffersSameBytes(name, labels[raw := value], labels - {raw}, net);
  }

  // A key may be written in any case and with blanks around it.
  lemma SpellingsAreOne(name: string, labels: map<string, string>, raw1: string, raw2: string, value: string, net: Net)
    requires net.Lawful() && KeyRead(raw1) == KeyRead(raw2) && raw1 !in labels && raw2 !in labels
    ensures Canonical(Alert(name, labels[raw1 := value]), net) == Canonical(Alert(name, labels[raw2 := value]), net)
    ensures Canonical(Alert(name, labels[raw1 := value][raw2 := value]), net)
         == Canonical(Alert(name, labels[raw1 := value]), net)
  {
    var x, y := labels[raw1 := value], labels[raw2 := value];
    hide SaysNothing, ValueRead, KeyRead;
    assert x[raw1] == value && y[raw2] == value && x[raw2 := value][raw1] == value && x[raw2 := value][raw2] == value;
    SameOffersSameBytes(name, x, y, net);
    SameOffersSameBytes(name, x[raw2 := value], x, net);
  }

  // Any other label counts: another value of it, or none, is another alert. A
  // value that nothing is left of is none.
  lemma LabelCounts(name: string, labels: map<string, string>, raw: string, v: string, w: string, net: Net)
    requires net.Lawful() && !SaysNothing(KeyRead(raw))
    requires forall other :: other in labels && KeyRead(other) == KeyRead(raw) ==> other == raw
    ensures Canonical(Alert(name, labels[raw := v]), net) == Canonical(Alert(name, labels[raw := w]), net)
       <==> ValueRead(v, net) == ValueRead(w, net)
    ensures Canonical(Alert(name, labels[raw := v]), net) == Canonical(Alert(name, labels - {raw}), net)
       <==> ValueRead(v, net) == ""
  {
    var k, x, y, z := KeyRead(raw), labels[raw := v], labels[raw := w], labels - {raw};
    hide *;
    OneOffer(labels, raw, v, net);
    OneOffer(labels, raw, w, net);
    NoOffer(labels, raw, net);
    OnlyOfferIsLabel(x, net, k, ValueRead(v, net));
    OnlyOfferIsLabel(y, net, k, ValueRead(w, net));
    OnlyOfferIsLabel(z, net, k, "");
    CanonicalForm(Alert(name, x), Alert(name, y), net);
    CanonicalForm(Alert(name, x), Alert(name, z), net);
    if ValueRead(v, net) == ValueRead(w, net) {
      SameReading(name, labels, raw, v, w, net);
    }
    if ValueRead(v, net) == "" {
      NoReading(name, labels, raw, v, net);
    }
  }

  lemma SameReading(name: string, labels: map<string, string>, raw: string, v: string, w: string, net: Net)
    requires net.Lawful() && ValueRead(v, net) == ValueRead(w, net)
    ensures Canonical(Alert(name, labels[raw := v]), net) == Canonical(Alert(name, labels[raw := w]), net)
  {
    hide SaysNothing, ValueRead, KeyRead, Canonical;
    assert labels[raw := v][raw] == v && labels[raw := w][raw] == w;
    SameOffersSameBytes(name, labels[raw := v], labels[raw := w], net);
  }

  lemma NoReading(name: string, labels: map<string, string>, raw: string, v: string, net: Net)
    requires net.Lawful() && ValueRead(v, net) == ""
    ensures Canonical(Alert(name, labels[raw := v]), net) == Canonical(Alert(name, labels - {raw}), net)
  {
    hide SaysNothing, ValueRead, KeyRead, Canonical;
    SameOffersSameBytes(name, labels[raw := v], labels - {raw}, net);
  }

  // The one value offered for a key; "" when none is.
  ghost predicate OnlyOffer(labels: map<string, string>, net: Net, k: string, v: string)
    requires net.Lawful()
  {
    forall u :: Offered(labels, net, k, u) <==> u == v && u != ""
  }

  lemma OneOffer(labels: map<string, string>, raw: string, v: string, net: Net)
    requires net.Lawful() && forall other :: other in labels && KeyRead(other) == KeyRead(raw) ==> other == raw
    ensures OnlyOffer(labels[raw := v], net, KeyRead(raw), ValueRead(v, net))
  {
    hide ValueRead, KeyRead;
    assert labels[raw := v][raw] == v;
  }

  lemma NoOffer(labels: map<string, string>, raw: string, net: Net)
    requires net.Lawful() && forall other :: other in labels && KeyRead(other) == KeyRead(raw) ==> other == raw
    ensures OnlyOffer(labels - {raw}, net, KeyRead(raw), "")
  {
    hide ValueRead, KeyRead;
  }

  // Where one value is offered, it is the label; where none is, there is none.
  lemma OnlyOfferIsLabel(labels: map<string, string>, net: Net, k: string, v: string)
    requires net.Lawful() && !SaysNothing(k) && OnlyOffer(labels, net, k, v)
    ensures k in NormalLabels(labels, net) <==> v != ""
    ensures v != "" ==> NormalLabels(labels, net)[k] == v
  {
    NormalLabelsAre(labels, net, k);
    assert Offered(labels, net, k, v) <==> v != "";
    hide Offered, NormalLabels, SaysNothing, Less;
  }

  // ----- the layout -----

  // The name first, then each key with its value behind it, each with its
  // length and a colon in front.
  lemma {:induction false} BytesAre(name: string, ks: seq<string>, k: string, m: map<string, string>)
    requires k in m && forall x :: x in ks ==> x in m
    ensures Bytes(name, [], m) == Decimal(|name|) + ":" + name
    ensures Bytes(name, ks + [k], m) ==
            Bytes(name, ks, m) + (Decimal(|k|) + ":" + k) + (Decimal(|m[k]|) + ":" + m[k])
  {
    TwoMoreFields([], name, name);
    assert [name] + Pairs([], m) == [name];
    PairsAppend(ks, k, m);
    assert [name] + Pairs(ks + [k], m) == ([name] + Pairs(ks, m)) + [k, m[k]];
    TwoMoreFields([name] + Pairs(ks, m), k, m[k]);
    hide Encode, Decimal, Pairs;
  }

  lemma {:induction false} PairsAppend(ks: seq<string>, k: string, m: map<string, string>)
    requires k in m && forall x :: x in ks ==> x in m
    ensures Pairs(ks + [k], m) == Pairs(ks, m) + [k, m[k]]
    decreases |ks|
  {
    if ks == [] {
      assert ks + [k] == [k] && [k][1..] == [];
    } else {
      assert (ks + [k])[1..] == ks[1..] + [k];
      PairsAppend(ks[1..], k, m);
    }
  }
}
