// fingerprint.normalizeValue and normalizeWord: whole label values, rewritten
// word by word.
module Values {
  import opened Text
  import opened PodSuffix
  import opened Tokens

  // ----- normalizeWord -----

  // The cutset ,;()"' around a word; brackets are not in it.
  predicate IsWordPunct(c: char) {
    c == ',' || c == ';' || c == '(' || c == ')' || c == '"' || c == '\''
  }

  function Core(w: string): string { Trim(w, IsWordPunct) }

  function NormalizeWord(w: string, net: Net): string
    requires net.Lawful()
  {
    if Core(w) == "" then w
    else
      var n := NormalizeToken(Core(w), net);
      if n != Core(w) then ReplaceFirst(w, Core(w), n) else w
  }

  lemma CoreIsFirstAt(before: string, core: string, after: string)
    requires core != "" && !IsWordPunct(core[0])
    requires forall c :: c in before ==> IsWordPunct(c)
    ensures Index(before + core + after, core) == |before|
  {
    var w := before + core + after;
    assert w[|before|..] == core + after;
    assert core <= w[|before|..];
    forall i | 0 <= i < |before|
      ensures !(core <= w[i..])
    {
      assert before[i] in before;
      assert w[i..][0] == before[i];
    }
  }

  // The replacement lands on the trimmed core, never on an earlier copy of it:
  // the punctuation around the core stays and the core alone is rewritten.
  lemma WordIsRewrittenAtItsCore(w: string, net: Net) returns (before: string, after: string)
    requires net.Lawful() && Core(w) != ""
    ensures w == before + Core(w) + after
    ensures forall c :: c in before + after ==> IsWordPunct(c)
    ensures NormalizeWord(w, net) == before + NormalizeToken(Core(w), net) + after
  {
    before, after := TrimSplits(w, IsWordPunct);
    CoreIsFirstAt(before, Core(w), after);
    assert w[..|before|] == before && w[|before| + |Core(w)|..] == after;
  }

  // The core is all between the first and the last character outside ,;()"'
  lemma CoreIsBare(w: string)
    requires Core(w) != ""
    ensures Core(w)[0] !in ",;()\"'" && Core(w)[|Core(w)| - 1] !in ",;()\"'"
  {
    PunctuationIs(Core(w)[0]);
    PunctuationIs(Core(w)[|Core(w)| - 1]);
    var before, after := TrimSplits(w, IsWordPunct);
    hide *;
  }

  lemma PunctuationIs(c: char)
    ensures IsWordPunct(c) <==> c in ",;()\"'"
  {
  }

  lemma BareWord(w: string, net: Net)
    requires net.Lawful() && forall c :: c in w ==> !IsWordPunct(c)
    ensures NormalizeWord(w, net) == if w == "" then "" else NormalizeToken(w, net)
  {
    if w != "" {
      assert w[0] in w && w[|w| - 1] in w;
      TrimKeeps(w, IsWordPunct);
      var before, after := WordIsRewrittenAtItsCore(w, net);
      assert before == "" && after == "";
    }
  }

  // ----- normalizeValue -----

  predicate HasMark(v: string) {
    exists i :: 0 <= i < |v| && (IsDigit(v[i]) || v[i] == '-' || v[i] == ':' || v[i] == '.')
  }

  // A path such as namespace/pod, but not a URL.
  predicate IsPath(w: string) { '/' in w && Index(w, "://") < 0 }

  function NormalizeWords(ws: seq<string>, net: Net): (r: seq<string>)
    requires net.Lawful()
    ensures |r| == |ws|
    ensures forall i :: 0 <= i < |ws| ==> r[i] == NormalizeWord(ws[i], net)
  {
    seq(|ws|, i requires 0 <= i < |ws| => NormalizeWord(ws[i], net))
  }

  function NormalizeField(w: string, net: Net): string
    requires net.Lawful()
  {
    if IsPath(w) then Join(NormalizeWords(Split(w, '/'), net), "/") else NormalizeWord(w, net)
  }

  function NormalizeFields(ws: seq<string>, net: Net): (r: seq<string>)
    requires net.Lawful()
    ensures |r| == |ws|
    ensures forall i :: 0 <= i < |ws| ==> r[i] == NormalizeField(ws[i], net)
  {
    seq(|ws|, i requires 0 <= i < |ws| => NormalizeField(ws[i], net))
  }

  // The word-by-word path.
  function WordByWord(v: string, net: Net): string
    requires net.Lawful()
  {
    Join(NormalizeFields(Fields(v), net), " ")
  }

  function NormalizeValue(v: string, net: Net): string
    requires net.Lawful()
  {
    if v == "" || !HasMark(v) then v else WordByWord(v, net)
  }

  // A value without digit, dash, colon or dot is left as it is; any other is
  // read word by word.
  lemma MarksAre(v: string, net: Net)
    requires net.Lawful()
    ensures (forall i :: 0 <= i < |v| ==> v[i] !in "0123456789-:.") ==> NormalizeValue(v, net) == v
    ensures forall i :: 0 <= i < |v| && v[i] in "0123456789-:." ==>
              NormalizeValue(v, net) == Join(NormalizeFields(Fields(v), net), " ")
  {
    forall i | 0 <= i < |v|
      ensures v[i] in "0123456789-:." <==> IsDigit(v[i]) || v[i] == '-' || v[i] == ':' || v[i] == '.'
    {
      MarkIs(v[i]);
    }
    hide NormalizeFields, Fields, Join;
  }

  lemma MarkIs(c: char)
    ensures c in "0123456789-:." <==> IsDigit(c) || c == '-' || c == ':' || c == '.'
  {
    var marks := "0123456789-:.";
    if IsDigit(c) {
      assert marks[c as int - '0' as int] == c;
    } else if c == '-' || c == ':' || c == '.' {
      assert marks[10] == '-' && marks[11] == ':' && marks[12] == '.';
    }
  }

  // A word with a slash is read part by part, but one with "://" in it as it
  // stands.
  lemma PathsAre(w: string, net: Net)
    requires net.Lawful()
    ensures '/' in w && (forall i :: 0 <= i <= |w| ==> !("://" <= w[i..])) ==>
              NormalizeField(w, net) == Join(NormalizeWords(Split(w, '/'), net), "/")
    ensures '/' !in w || (exists i :: 0 <= i <= |w| && "://" <= w[i..]) ==>
              NormalizeField(w, net) == NormalizeWord(w, net)
  {
    hide NormalizeWord, NormalizeWords, Split, Join;
    var r := Index(w, "://");
    assert r >= 0 ==> "://" <= w[r..];
  }

  // The words of a value and the parts of a path are rewritten in place.
  method RewriteParts(w: string, net: Net) returns (r: string)
    requires net.Lawful()
    ensures r == Join(NormalizeWords(Split(w, '/'), net), "/")
  {
    hide *;
    var given := Split(w, '/');
    ghost var want := NormalizeWords(given, net);
    var parts := new string[|given|](i requires 0 <= i < |given| => given[i]);
    var j := 0;
    while j < parts.Length
      invariant 0 <= j <= parts.Length == |given| == |want|
      invariant forall k :: 0 <= k < j ==> parts[k] == want[k]
      invariant forall k :: j <= k < |given| ==> parts[k] == given[k]
    {
      parts[j] := NormalizeWord(parts[j], net);
      j := j + 1;
    }
    assert parts[..] == want;
    r := Join(parts[..], "/");
  }

  method RewriteField(w: string, net: Net) returns (r: string)
    requires net.Lawful()
    ensures r == NormalizeField(w, net)
  {
    if IsPath(w) {
      r := RewriteParts(w, net);
    } else {
      r := NormalizeWord(w, net);
    }
  }

  method RewriteFields(given: seq<string>, net: Net) returns (r: seq<string>)
    requires net.Lawful()
    ensures r == NormalizeFields(given, net)
  {
    hide *;
    ghost var want := NormalizeFields(given, net);
    var words := new string[|given|](i requires 0 <= i < |given| => given[i]);
    var i := 0;
    while i < words.Length
      invariant 0 <= i <= words.Length == |given| == |want|
      invariant forall k :: 0 <= k < i ==> words[k] == want[k]
      invariant forall k :: i <= k < |given| ==> words[k] == given[k]
    {
      var w := RewriteField(words[i], net);
      words[i] := w;
      i := i + 1;
    }
    assert words[..] == want;
    r := words[..];
  }

  method RewriteValue(v: string, net: Net) returns (r: string)
    requires net.Lawful()
    ensures r == NormalizeValue(v, net)
  {
    if v == "" || !HasMark(v) {
      return v;
    }
    var words := RewriteFields(Fields(v), net);
    r := Join(words, " ");
  }

  // ----- the fast path -----

  lemma PlainWordIsKept(w: string, net: Net)
    requires net.Lawful() && !HasMark(w)
    ensures NormalizeWord(w, net) == w
  {
    if Core(w) != "" {
      var before, after := WordIsRewrittenAtItsCore(w, net);
      var core := Core(w);
      assert forall i :: 0 <= i < |core| ==> core[i] == w[|before| + i];
      PlainTokenIsKept(core, net);
    }
  }

  lemma PartIsPlain(v: string, w: string)
    requires !HasMark(v) && forall c :: c in w ==> c in v
    ensures !HasMark(w)
  {
    assert forall k :: 0 <= k < |w| ==> w[k] in v;
  }

  lemma PlainPartsAreKept(w: string, net: Net)
    requires net.Lawful() && !HasMark(w)
    ensures NormalizeWords(Split(w, '/'), net) == Split(w, '/')
  {
    hide *;
    var parts := Split(w, '/');
    SplitPartsLackSep(w, '/');
    forall i | 0 <= i < |parts|
      ensures NormalizeWord(parts[i], net) == parts[i]
    {
      assert parts[i] in parts;
      PartIsPlain(w, parts[i]);
      PlainWordIsKept(parts[i], net);
    }
    assert NormalizeWords(parts, net) == parts;
  }

  lemma PlainFieldIsKept(w: string, net: Net)
    requires net.Lawful() && !HasMark(w)
    ensures NormalizeField(w, net) == w
  {
    hide NormalizeWord;
    PlainWordIsKept(w, net);
    if IsPath(w) {
      PlainPartsAreKept(w, net);
      JoinSplit(w, '/');
    }
  }

  // On a value with nothing to strip the word-by-word path changes no word,
  // so all it can do is normalise the space between them.
  lemma FastPathRefinesSlowPath(v: string, net: Net)
    requires net.Lawful() && !HasMark(v)
    ensures WordByWord(v, net) == Join(Fields(v), " ")
  {
    hide NormalizeField, Fields;
    var ws := Fields(v);
    forall i | 0 <= i < |ws|
      ensures NormalizeField(ws[i], net) == ws[i]
    {
      assert ws[i] in ws;
      PartIsPlain(v, ws[i]);
      PlainFieldIsKept(ws[i], net);
    }
    assert NormalizeFields(ws, net) == ws;
  }

  // Words separated by single blanks, with no space at either end.
  predicate SingleSpaced(v: string) {
    forall i :: 0 <= i < |v| && IsSpace(v[i]) ==> v[i] == ' ' && 0 < i < |v| - 1 && !IsSpace(v[i + 1])
  }

  lemma JoinFieldsNonEmpty(v: string)
    ensures Fields(v) == [] ==> forall i :: 0 <= i < |v| ==> IsSpace(v[i])
    decreases |v|
  {
    if v != "" && IsSpace(v[0]) {
      JoinFieldsNonEmpty(v[1..]);
      assert forall i :: 1 <= i < |v| ==> v[i] == v[1..][i - 1];
    }
  }

  predicate IsWord(w: string) {
    w != "" && forall i :: 0 <= i < |w| ==> !IsSpace(w[i])
  }

  lemma {:induction false} JoinedWordsAreSingleSpaced(ws: seq<string>)
    requires forall i :: 0 <= i < |ws| ==> IsWord(ws[i])
    ensures SingleSpaced(Join(ws, " "))
    ensures ws != [] ==> Join(ws, " ") != "" && !IsSpace(Join(ws, " ")[0])
    decreases |ws|
  {
    if |ws| == 1 {
      assert IsWord(ws[0]);
    } else if |ws| > 1 {
      var head, tail := ws[0], Join(ws[1..], " ");
      assert IsWord(head);
      JoinedWordsAreSingleSpaced(ws[1..]);
      var v := Join(ws, " ");
      assert v == head + " " + tail;
      forall i | 0 <= i < |v| && IsSpace(v[i])
        ensures v[i] == ' ' && 0 < i < |v| - 1 && !IsSpace(v[i + 1])
      {
        if i == |head| {
          assert v[i + 1] == tail[0];
        } else {
          assert i > |head| && v[i] == tail[i - |head| - 1] && i < |v| - 1;
          assert v[i + 1] == tail[i - |head|];
        }
      }
    }
  }

  // The first word of a singly spaced value, and what follows it.
  lemma FirstWord(v: string) returns (n: nat)
    requires SingleSpaced(v) && v != ""
    ensures 0 < n <= |v|
    ensures n == |v| ==> Fields(v) == [v[..n]]
    ensures n < |v| ==> v[n] == ' ' && SingleSpaced(v[n + 1..]) && Fields(v[n + 1..]) != []
    ensures n < |v| ==> Fields(v) == [v[..n]] + Fields(v[n + 1..])
  {
    n := WordLen(v);
    if n < |v| {
      var tail := v[n + 1..];
      assert v[n..][1..] == tail;
      assert forall i :: 0 <= i < |tail| ==> tail[i] == v[n + 1 + i];
      JoinFieldsNonEmpty(tail);
    }
  }

  lemma {:induction false} SingleSpacedIsJoined(v: string)
    requires SingleSpaced(v)
    ensures Join(Fields(v), " ") == v
    decreases |v|
  {
    if v != "" {
      var n := FirstWord(v);
      if n < |v| {
        var tail := v[n + 1..];
        SingleSpacedIsJoined(tail);
        hide *;
        JoinCons(v[..n], Fields(tail), " ");
        assert v == v[..n] + " " + tail;
      } else {
        assert v[..n] == v;
      }
    }
  }

  // Exactly when the fast path gives the word-by-word answer.
  lemma FastPathIsExactWhen(v: string, net: Net)
    requires net.Lawful() && !HasMark(v)
    ensures NormalizeValue(v, net) == WordByWord(v, net) <==> SingleSpaced(v)
  {
    FastPathRefinesSlowPath(v, net);
    var ws := Fields(v);
    forall i | 0 <= i < |ws|
      ensures IsWord(ws[i])
    {
      assert ws[i] in ws;
    }
    JoinedWordsAreSingleSpaced(ws);
    if SingleSpaced(v) {
      SingleSpacedIsJoined(v);
    }
  }

  // ----- values about the same thing -----

  // The value is read word by word, or might as well be.
  predicate TakesWords(v: string) { HasMark(v) || SingleSpaced(v) }

  lemma ReadByWords(v: string, net: Net)
    requires net.Lawful() && TakesWords(v)
    ensures NormalizeValue(v, net) == WordByWord(v, net)
  {
    if !HasMark(v) {
      FastPathIsExactWhen(v, net);
    }
  }

  predicate IsAround(before: string, core: string, after: string, w: string) {
    && w == before + core + after && core != "" && core == Core(w)
    && (forall c :: c in before ==> IsWordPunct(c)) && forall c :: c in after ==> IsWordPunct(c)
  }

  // The same punctuation around cores that stand for the same thing.
  ghost predicate WordsAlike(u: string, v: string, net: Net) {
    || u == v
    || exists before, after ::
         && IsAround(before, Core(u), after, u) && IsAround(before, Core(v), after, v)
         && Interchangeable(Core(u), Core(v), net)
  }

  lemma RewrittenAround(before: string, core: string, after: string, w: string, net: Net)
    requires net.Lawful() && IsAround(before, core, after, w)
    ensures NormalizeWord(w, net) == before + NormalizeToken(core, net) + after
  {
    var b, a := TrimSplits(w, IsWordPunct);
    CoreIsFirstAt(before, core, after);
    assert w[..|before|] == before && w[|before| + |core|..] == after;
  }

  lemma WordsAlikeSameWord(u: string, v: string, net: Net)
    requires net.Lawful() && WordsAlike(u, v, net)
    ensures NormalizeWord(u, net) == NormalizeWord(v, net)
  {
    hide NormalizeWord, Core, Interchangeable;
    if u != v {
      var before, after :|
        && IsAround(before, Core(u), after, u) && IsAround(before, Core(v), after, v)
        && Interchangeable(Core(u), Core(v), net);
      RewrittenAround(before, Core(u), after, u, net);
      RewrittenAround(before, Core(v), after, v, net);
      InterchangeableSameToken(Core(u), Core(v), net);
    }
  }

  ghost predicate FieldsAlike(u: string, v: string, net: Net) {
    if IsPath(u) && IsPath(v) then
      var p, q := Split(u, '/'), Split(v, '/');
      |p| == |q| && forall i :: 0 <= i < |p| ==> WordsAlike(p[i], q[i], net)
    else !IsPath(u) && !IsPath(v) && WordsAlike(u, v, net)
  }

  lemma FieldsAlikeSameField(u: string, v: string, net: Net)
    requires net.Lawful() && FieldsAlike(u, v, net)
    ensures NormalizeField(u, net) == NormalizeField(v, net)
  {
    hide WordsAlike, NormalizeWord, Split, IsPath;
    if IsPath(u) {
      var p, q := Split(u, '/'), Split(v, '/');
      forall i | 0 <= i < |p|
        ensures NormalizeWord(p[i], net) == NormalizeWord(q[i], net)
      {
        WordsAlikeSameWord(p[i], q[i], net);
      }
      assert NormalizeWords(p, net) == NormalizeWords(q, net);
    } else {
      WordsAlikeSameWord(u, v, net);
    }
  }

  // Word by word, path part by path part, the same thing.
  ghost predicate ValuesAlike(x: string, y: string, net: Net) {
    || x == y
    || (&& TakesWords(x) && TakesWords(y) && |Fields(x)| == |Fields(y)|
        && forall i :: 0 <= i < |Fields(x)| ==> FieldsAlike(Fields(x)[i], Fields(y)[i], net))
  }

  lemma ValuesAlikeSameValue(x: string, y: string, net: Net)
    requires net.Lawful() && ValuesAlike(x, y, net)
    ensures NormalizeValue(x, net) == NormalizeValue(y, net)
  {
    hide FieldsAlike, NormalizeField, Fields, TakesWords, NormalizeValue;
    if x != y {
      ReadByWords(x, net);
      ReadByWords(y, net);
      var us, vs := Fields(x), Fields(y);
      forall i | 0 <= i < |us|
        ensures NormalizeField(us[i], net) == NormalizeField(vs[i], net)
      {
        FieldsAlikeSameField(us[i], vs[i], net);
      }
      assert NormalizeFields(us, net) == NormalizeFields(vs, net);
    }
  }

  // ----- pods of one workload -----

  predicate IsNameChar(c: char) { IsLower(c) || IsDigit(c) || c == '-' }

  // Workload names over [a-z0-9-].
  predicate IsName(s: string) { forall i :: 0 <= i < |s| ==> IsNameChar(s[i]) }

  // A pod or ReplicaSet name with its generated suffix, and its workload.
  predicate IsPodOf(pod: string, base: string) { IsName(pod) && SuffixBase(pod) == Some(base) }

  lemma BuiltPodIsPodOf(base: string, mid: string, suffix: string)
    requires base != "" && IsName(base) && IsPodMid(mid) && IsShort(suffix)
    ensures IsPodOf(base + "-" + mid + "-" + suffix, base)
  {
    var pod := base + "-" + mid + "-" + suffix;
    assert IsName(pod);
    hide SuffixBase, IsPod, IsBare, IsPodMid, IsShort;
    BuiltPodIsPod(base, mid, suffix);
    SuffixBaseMeetsPatterns(pod, base);
  }

  lemma BuiltBareIsPodOf(base: string, suffix: string)
    requires base != "" && IsName(base) && (IsShort(suffix) || IsHash(suffix)) && Mixed(suffix)
    requires IsShort(suffix) ==> PodBase(base) == None
    ensures IsPodOf(base + "-" + suffix, base)
  {
    SegmentsLackDash(suffix);
    CutOf(base, suffix);
    hide CutLast, PodBase;
  }

  lemma NameWord(w: string, net: Net)
    requires net.Lawful() && w != "" && IsName(w)
    ensures NormalizeWord(w, net) == NormalizeToken(w, net)
  {
    forall c | c in w
      ensures !IsWordPunct(c)
    {
      assert IsNameChar(c);
    }
    BareWord(w, net);
  }

  lemma NameHasNoSeparators(s: string)
    requires IsName(s)
    ensures NoSeparators(s)
  {
  }

  lemma PodWord(pod: string, base: string, net: Net)
    requires net.Lawful() && IsPodOf(pod, base)
    ensures NormalizeWord(pod, net) == base
    ensures '-' in pod
  {
    SuffixTail(pod);
    NameHasNoSeparators(pod);
    NameWord(pod, net);
    SuffixedToken(pod, net);
    hide SuffixBase, NormalizeWord, NormalizeToken;
    assert pod[|CutLast(pod).value.rest|] == '-';
  }

  // Every pod of a workload has the workload's name as its normal form.
  lemma PodValue(pod: string, base: string, net: Net)
    requires net.Lawful() && IsPodOf(pod, base)
    ensures NormalizeValue(pod, net) == base
  {
    hide SuffixBase, NormalizeWord;
    PodWord(pod, base, net);
    assert HasMark(pod) by {
      var i := IndexByte(pod, '-');
      assert pod[i] == '-';
    }
    forall c | c in pod
      ensures !IsSpace(c) && c != '/'
    {
      assert IsNameChar(c);
    }
    FieldsOfWord(pod);
    assert NormalizeFields([pod], net) == [base];
  }

  // ... and so has a namespace/pod path: the part before the slash is
  // rewritten on its own and the pod becomes its workload.
  lemma PathToPodValue(ns: string, pod: string, base: string, net: Net)
    requires net.Lawful() && IsPodOf(pod, base) && IsName(ns)
    ensures NormalizeValue(ns + "/" + pod, net) == NormalizeWord(ns, net) + "/" + base
  {
    var w := ns + "/" + pod;
    PodWord(pod, base, net);
    var d := IndexByte(pod, '-');
    assert w[|ns| + 1 + d] == '-';
    assert HasMark(w);
    NamePath(ns, pod);
    FieldsOfWord(w);
    PathField(ns, pod, net);
    OneField(w, net);
  }

  lemma OneField(w: string, net: Net)
    requires net.Lawful() && Fields(w) == [w] && HasMark(w)
    ensures NormalizeValue(w, net) == NormalizeField(w, net)
  {
    assert NormalizeFields([w], net) == [NormalizeField(w, net)];
  }

  lemma PathField(a: string, b: string, net: Net)
    requires net.Lawful() && IsName(a) && IsName(b)
    ensures NormalizeField(a + "/" + b, net) == NormalizeWord(a, net) + "/" + NormalizeWord(b, net)
  {
    NamePath(a, b);
    var parts := NormalizeWords([a, b], net);
    assert parts == [NormalizeWord(a, net), NormalizeWord(b, net)];
    JoinCons(parts[0], [parts[1]], "/");
  }

  lemma NamePath(a: string, b: string)
    requires IsName(a) && IsName(b)
    ensures var w := a + "/" + b;
            IsPath(w) && Split(w, '/') == [a, b] && forall c :: c in w ==> !IsSpace(c)
  {
    var w := a + "/" + b;
    forall c | c in w
      ensures !IsSpace(c) && c != ':'
    {
      assert c in a || c == '/' || c in b;
      assert c != '/' ==> IsNameChar(c);
    }
    assert w[|a|] == '/';
    forall i | 0 <= i <= |w|
      ensures !("://" <= w[i..])
    {
      if i < |w| {
        assert w[i..][0] == w[i] && w[i] in w;
        assert "://"[0] == ':';
      }
    }
    assert '/' !in a by {
      assert forall c :: c in a ==> IsNameChar(c);
    }
    assert '/' !in b by {
      assert forall c :: c in b ==> IsNameChar(c);
    }
    SplitHead(a, '/', b);
    SplitPartsLackSep(b, '/');
    assert a + ['/'] + b == w;
  }
}
