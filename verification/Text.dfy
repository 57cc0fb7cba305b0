// The Go `strings` operations the backend relies on, over ASCII text, with the
// facts about them that the other modules build on.
module Text {

  datatype Option<+T> = None | Some(value: T)

  datatype Result<+T, +E> = Ok(value: T) | Err(error: E)

  // ----- characters -----

  predicate IsDigit(c: char) { '0' <= c <= '9' }

  predicate IsLower(c: char) { 'a' <= c <= 'z' }

  predicate IsUpper(c: char) { 'A' <= c <= 'Z' }

  predicate IsSpace(c: char) {
    c == ' ' || '\t' <= c <= '\r'
  }

  function LowerChar(c: char): char {
    if IsUpper(c) then (c as int + 32) as char else c
  }

  function ToLower(s: string): (r: string)
    ensures |r| == |s|
    ensures forall i :: 0 <= i < |s| ==> r[i] == LowerChar(s[i])
  {
    seq(|s|, i requires 0 <= i < |s| => LowerChar(s[i]))
  }

  const UPPER := "ABCDEFGHIJKLMNOPQRSTUVWXYZ"
  const LOWER := "abcdefghijklmnopqrstuvwxyz"

  lemma LowerCharIs(c: char)
    ensures forall k :: 0 <= k < 26 ==> LowerChar(UPPER[k]) == LOWER[k]
    ensures c !in UPPER ==> LowerChar(c) == c
  {
    if IsUpper(c) {
      assert UPPER[c as int - 'A' as int] == c;
    }
  }

  predicate AllDigits(s: string) {
    s != "" && forall i :: 0 <= i < |s| ==> IsDigit(s[i])
  }

  predicate HasDigit(s: string) { exists i :: 0 <= i < |s| && IsDigit(s[i]) }

  predicate HasLetter(s: string) { exists i :: 0 <= i < |s| && IsLower(s[i]) }

  // ----- searching -----

  // strings.IndexByte
  function IndexByte(s: string, c: char): (r: int)
    ensures -1 <= r < |s|
    ensures r == -1 <==> c !in s
    ensures r >= 0 ==> s[r] == c && c !in s[..r]
  {
    if s == "" then -1
    else if s[0] == c then 0
    else
      var i := IndexByte(s[1..], c);
      assert s == [s[0]] + s[1..];
      if i < 0 then -1 else
      assert s[..i + 1] == [s[0]] + s[1..][..i];
      i + 1
  }

  // strings.LastIndexByte
  function LastIndexByte(s: string, c: char): (r: int)
    ensures -1 <= r < |s|
    ensures r == -1 <==> c !in s
    ensures r >= 0 ==> s[r] == c && c !in s[r + 1..]
  {
    if s == "" then -1
    else
      var n := |s| - 1;
      assert s == s[..n] + [s[n]];
      if s[n] == c then n
      else
        var i := LastIndexByte(s[..n], c);
        assert i >= 0 ==> s[i + 1..] == s[..n][i + 1..] + [s[n]];
        i
  }

  // The last separator of `left + [c] + right` is the one in the middle when
  // `right` holds no other.
  lemma LastIndexAt(left: string, c: char, right: string)
    requires c !in right
    ensures LastIndexByte(left + [c] + right, c) == |left|
  {
    hide *;
    var s := left + [c] + right;
    assert s[|left|] == c;
    assert s[|left| + 1..] == right;
    LastIndexUnique(s, c, |left|);
  }

  lemma LastIndexUnique(s: string, c: char, i: nat)
    requires i < |s| && s[i] == c && c !in s[i + 1..]
    ensures LastIndexByte(s, c) == i
  {
    hide *;
    assert forall j :: i < j < |s| ==> s[j] == s[i + 1..][j - i - 1];
    forall j | 0 <= j <= i
      ensures c in s[j..]
    {
      assert s[j..][i - j] == c;
    }
  }

  // strings.Index
  function Index(s: string, sub: string): (r: int)
    ensures -1 <= r <= |s| - |sub| || r == -1
    ensures r >= 0 ==> sub <= s[r..]
    ensures forall i :: 0 <= i < (if r < 0 then |s| + 1 else r) ==> !(sub <= s[i..])
  {
    if sub <= s then (assert s[0..] == s; 0)
    else if s == "" then -1
    else
      var i := Index(s[1..], sub);
      assert s[0..] == s;
      assert forall j :: 1 <= j <= |s| ==> s[j..] == s[1..][j - 1..];
      if i < 0 then -1 else i + 1
  }

  // strings.Replace(s, sub, by, 1)
  function ReplaceFirst(s: string, sub: string, with: string): string {
    var i := Index(s, sub);
    if i < 0 then s else s[..i] + with + s[i + |sub|..]
  }

  // strings.HasSuffix
  predicate HasSuffix(s: string, suffix: string) {
    |suffix| <= |s| && s[|s| - |suffix|..] == suffix
  }

  lemma ComparablePrefixes(t: string, u: string, s: string)
    requires u <= s
    ensures t <= s ==> t <= u || u <= t
  {
    assert u == s[..|u|];
    if t <= s {
      assert t == s[..|t|];
    }
  }

  // ----- trimming -----

  function TrimLeft(s: string, cut: char -> bool): (r: string)
    ensures r == "" || !cut(r[0])
  {
    if s != "" && cut(s[0]) then TrimLeft(s[1..], cut) else s
  }

  function TrimRight(s: string, cut: char -> bool): (r: string)
    ensures r <= s
    ensures r == "" || !cut(r[|r| - 1])
    ensures forall c :: c in s[|r|..] ==> cut(c)
  {
    if s != "" && cut(s[|s| - 1]) then
      var r := TrimRight(s[..|s| - 1], cut);
      assert s[|r|..] == s[..|s| - 1][|r|..] + [s[|s| - 1]];
      r
    else s
  }

  // strings.Trim, with the cutset as a predicate
  function Trim(s: string, cut: char -> bool): string {
    TrimRight(TrimLeft(s, cut), cut)
  }

  // strings.TrimSpace
  function TrimSpace(s: string): string { Trim(s, IsSpace) }

  lemma {:induction false} TrimLeftSplits(s: string, cut: char -> bool) returns (before: string)
    ensures s == before + TrimLeft(s, cut)
    ensures forall c :: c in before ==> cut(c)
  {
    if s != "" && cut(s[0]) {
      var rest := TrimLeftSplits(s[1..], cut);
      before := [s[0]] + rest;
      assert TrimLeft(s, cut) == TrimLeft(s[1..], cut);
      hide *;
      assert s == [s[0]] + s[1..];
    } else {
      before := "";
    }
  }

  // Trim cuts a word into cutset characters, a core that neither starts nor
  // ends with one, and cutset characters again.
  lemma TrimSplits(s: string, cut: char -> bool) returns (before: string, after: string)
    ensures s == before + Trim(s, cut) + after
    ensures forall c :: c in before ==> cut(c)
    ensures forall c :: c in after ==> cut(c)
    ensures Trim(s, cut) != "" ==> !cut(Trim(s, cut)[0]) && !cut(Trim(s, cut)[|Trim(s, cut)| - 1])
  {
    before := TrimLeftSplits(s, cut);
    var mid := TrimLeft(s, cut);
    var core := TrimRight(mid, cut);
    assert Trim(s, cut) == core;
    hide *;
    after := mid[|core|..];
    assert mid == core + after;
    assert core != "" ==> core[0] == mid[0];
  }

  // Nothing is trimmed off a word whose ends are outside the cutset.
  lemma TrimKeeps(s: string, cut: char -> bool)
    requires s == "" || (!cut(s[0]) && !cut(s[|s| - 1]))
    ensures Trim(s, cut) == s
  {
  }

  // ----- splitting and joining -----

  // strings.Split on a one-byte separator
  function Split(s: string, sep: char): (r: seq<string>)
    ensures |r| >= 1
    decreases |s|
  {
    var i := IndexByte(s, sep);
    if i < 0 then [s] else [s[..i]] + Split(s[i + 1..], sep)
  }

  // strings.Join
  function Join(parts: seq<string>, sep: string): string {
    if |parts| == 0 then ""
    else if |parts| == 1 then parts[0]
    else parts[0] + sep + Join(parts[1..], sep)
  }

  lemma {:induction false} SplitPartsLackSep(s: string, sep: char)
    ensures forall p :: p in Split(s, sep) ==> sep !in p
    ensures forall p, c :: p in Split(s, sep) && c in p ==> c in s
    ensures sep !in s ==> Split(s, sep) == [s]
    decreases |s|
  {
    var i := IndexByte(s, sep);
    if i >= 0 {
      SplitPartsLackSep(s[i + 1..], sep);
    }
  }

  lemma JoinCons(first: string, rest: seq<string>, sep: string)
    requires rest != []
    ensures Join([first] + rest, sep) == first + sep + Join(rest, sep)
  {
    assert ([first] + rest)[1..] == rest;
  }

  lemma {:induction false} JoinSplit(s: string, sep: char)
    ensures Join(Split(s, sep), [sep]) == s
    decreases |s|
  {
    var i := IndexByte(s, sep);
    if i >= 0 {
      var rest := Split(s[i + 1..], sep);
      JoinSplit(s[i + 1..], sep);
      JoinCons(s[..i], rest, [sep]);
      assert s == s[..i] + [sep] + s[i + 1..];
    }
  }

  // Splitting off a first part that lacks the separator.
  lemma SplitHead(head: string, sep: char, rest: string)
    requires sep !in head
    ensures Split(head + [sep] + rest, sep) == [head] + Split(rest, sep)
  {
    var s := head + [sep] + rest;
    assert forall j :: 0 <= j < |head| ==> s[j] == head[j];
    assert forall j :: |head| < j <= |s| ==> s[..j][|head|] == sep;
    assert s[|head|] == sep;
    assert s[..|head|] == head && s[|head| + 1..] == rest;
  }

  // What precedes the first separator, and what follows it, are determined.
  lemma HeadBeforeSeparator(p: string, x: string, q: string, y: string, sep: char)
    requires sep !in p && sep !in q
    requires p + [sep] + x == q + [sep] + y
    ensures p == q && x == y
  {
    SplitHead(p, sep, x);
    SplitHead(q, sep, y);
    assert p == Split(p + [sep] + x, sep)[0];
    assert x == (p + [sep] + x)[|p| + 1..];
    assert y == (q + [sep] + y)[|q| + 1..];
  }

  // strings.Fields
  function WordLen(s: string): (n: nat)
    ensures n <= |s|
    ensures forall i :: 0 <= i < n ==> !IsSpace(s[i])
    ensures n < |s| ==> IsSpace(s[n])
  {
    if s == "" || IsSpace(s[0]) then 0 else 1 + WordLen(s[1..])
  }

  function Fields(s: string): (r: seq<string>)
    ensures forall w :: w in r ==> w != "" && forall c :: c in w ==> !IsSpace(c) && c in s
    decreases |s|
  {
    if s == "" then []
    else if IsSpace(s[0]) then Fields(s[1..])
    else
      var n := WordLen(s);
      [s[..n]] + Fields(s[n..])
  }

  // What Go takes for white space.
  lemma SpacesAre(c: char)
    ensures IsSpace(c) <==> c == ' ' || c == '\t' || c == '\n' || c == '\r' || c as int == 11 || c as int == 12
  {
  }

  // Text with the words in its gaps: gap, word, gap, word, ..., gap.
  function Spread(gaps: seq<string>, words: seq<string>): string
    requires |gaps| == |words| + 1
  {
    if words == [] then gaps[0] else gaps[0] + words[0] + Spread(gaps[1..], words[1..])
  }

  predicate AllSpace(s: string) { forall i :: 0 <= i < |s| ==> IsSpace(s[i]) }

  predicate AreGaps(gaps: seq<string>) {
    forall i :: 0 <= i < |gaps| ==> AllSpace(gaps[i]) && (0 < i < |gaps| - 1 ==> gaps[i] != "")
  }

  lemma ConsGap(word: string, gaps: seq<string>, words: seq<string>)
    requires |gaps| == |words| + 1 && AreGaps(gaps)
    requires words != [] ==> gaps[0] != ""
    ensures AreGaps([""] + gaps) && Spread([""] + gaps, [word] + words) == word + Spread(gaps, words)
  {
    var all := [""] + gaps;
    assert all[1..] == gaps && ([word] + words)[1..] == words && "" + word == word;
    hide AllSpace, Spread;
    assert AllSpace("") by {
      hide *;
      NoSpace();
    }
    assert forall i :: 0 < i < |all| ==> all[i] == gaps[i - 1];
    hide AreGaps;
    SpreadCons("", word, gaps, words);
  }

  lemma NoSpace()
    ensures AllSpace("")
  {
  }

  lemma SpreadCons(gap: string, word: string, gaps: seq<string>, words: seq<string>)
    requires |gaps| == |words| + 1
    ensures Spread([gap] + gaps, [word] + words) == gap + word + Spread(gaps, words)
  {
    assert ([gap] + gaps)[1..] == gaps && ([word] + words)[1..] == words;
  }

  lemma WidenGap(c: char, gaps: seq<string>, words: seq<string>)
    requires |gaps| == |words| + 1 && AreGaps(gaps) && IsSpace(c)
    ensures var wider := [[c] + gaps[0]] + gaps[1..];
            AreGaps(wider) && Spread(wider, words) == [c] + Spread(gaps, words)
  {
    var wider := [[c] + gaps[0]] + gaps[1..];
    assert AllSpace(gaps[0]) && AllSpace(wider[0]);
    assert forall i :: 0 < i < |gaps| ==> wider[i] == gaps[i];
    hide AllSpace, IsSpace;
    SpreadWider(c, gaps, words);
  }

  lemma SpreadWider(c: char, gaps: seq<string>, words: seq<string>)
    requires |gaps| == |words| + 1
    ensures Spread([[c] + gaps[0]] + gaps[1..], words) == [c] + Spread(gaps, words)
  {
    var wider := [[c] + gaps[0]] + gaps[1..];
    assert wider[1..] == gaps[1..] && wider[0] == [c] + gaps[0];
    if words != [] {
      Concat4([c], gaps[0], words[0], Spread(gaps[1..], words[1..]));
    }
  }

  lemma Concat4(a: string, b: string, c: string, d: string)
    ensures (a + b) + c + d == a + (b + c + d)
  {
  }

  // The words are the maximal runs without white space, and none is lost: the
  // text is the words, in order, with white space around and between them.
  lemma {:induction false} FieldsAreTheWords(s: string) returns (gaps: seq<string>)
    ensures |gaps| == |Fields(s)| + 1 && AreGaps(gaps) && s == Spread(gaps, Fields(s))
    ensures forall w :: w in Fields(s) ==> w != "" && forall c :: c in w ==> !IsSpace(c)
    ensures s != "" && !IsSpace(s[0]) ==> gaps[0] == ""
    ensures s != "" && IsSpace(s[0]) ==> gaps[0] != ""
    decreases |s|
  {
    if s == "" {
      gaps := [""];
    } else if IsSpace(s[0]) {
      var more := FieldsAreTheWords(s[1..]);
      gaps := [[s[0]] + more[0]] + more[1..];
      WidenGap(s[0], more, Fields(s));
      assert s == [s[0]] + s[1..];
    } else {
      var n := WordLen(s);
      var more := FieldsAreTheWords(s[n..]);
      assert n < |s| ==> s[n..][0] == s[n];
      gaps := [""] + more;
      ConsGap(s[..n], more, Fields(s[n..]));
      assert s == s[..n] + s[n..];
    }
  }

  lemma FieldsOfWord(s: string)
    requires s != "" && forall c :: c in s ==> !IsSpace(c)
    ensures Fields(s) == [s]
  {
    assert forall i :: 0 <= i < |s| ==> s[i] in s;
    assert s[..WordLen(s)] == s;
  }

  // ----- byte order -----

  // Go's `<` on strings
  predicate Less(a: string, b: string) {
    b != "" && (a == "" || a[0] < b[0] || (a[0] == b[0] && Less(a[1..], b[1..])))
  }

  predicate AtMost(a: string, b: string) { a == b || Less(a, b) }

  // `a` has the lesser character where the two first differ, at `i`.
  predicate IsLessAt(a: string, b: string, i: nat) {
    i < |a| && i < |b| && a[i] < b[i] && forall k :: 0 <= k < i ==> a[k] == b[k]
  }

  lemma LessAtTail(c: char, x: string, y: string, i: nat)
    ensures IsLessAt([c] + x, [c] + y, i + 1) <==> IsLessAt(x, y, i)
  {
    var a, b := [c] + x, [c] + y;
    assert forall k :: 0 <= k < |x| ==> a[k + 1] == x[k];
    assert forall k :: 0 <= k < |y| ==> b[k + 1] == y[k];
    if IsLessAt(a, b, i + 1) {
      forall k | 0 <= k < i
        ensures x[k] == y[k]
      {
        assert a[k + 1] == b[k + 1];
      }
    }
  }

  // Less is the order byte by byte: the lesser character decides where two texts
  // first differ, and a text comes after its own beginnings.
  lemma {:induction false} LessMeans(a: string, b: string)
    ensures Less(a, b) <==> a < b || exists i :: IsLessAt(a, b, i)
    decreases |a|
  {
    if a != "" && b != "" && a[0] == b[0] {
      var c, x, y := a[0], a[1..], b[1..];
      assert a == [c] + x && b == [c] + y;
      LessMeans(x, y);
      LessByTails(c, x, y);
    } else if a != "" && b != "" {
      assert a[0] < b[0] ==> IsLessAt(a, b, 0);
    }
  }

  lemma LessByTails(c: char, x: string, y: string)
    ensures (exists i :: IsLessAt([c] + x, [c] + y, i)) <==> exists i :: IsLessAt(x, y, i)
    ensures [c] + x < [c] + y <==> x < y
  {
    var a, b := [c] + x, [c] + y;
    if i: nat :| IsLessAt(a, b, i) {
      assert i > 0;
      LessAtTail(c, x, y, i - 1);
    }
    if i: nat :| IsLessAt(x, y, i) {
      LessAtTail(c, x, y, i);
      assert IsLessAt(a, b, i + 1);
    }
    assert x == a[1..] && y == b[1..];
    if x < y {
      assert y == x + y[|x|..];
      assert b == a + y[|x|..];
    }
    if a < b {
      assert b == a + b[|a|..];
      assert y == x + b[|a|..];
    }
  }

  lemma {:induction false} LessTrichotomy(a: string, b: string)
    ensures Less(a, b) || Less(b, a) || a == b
    ensures !(Less(a, b) && Less(b, a))
    ensures Less(a, b) ==> a != b
    decreases |a|
  {
    if a != "" && b != "" && a[0] == b[0] {
      LessTrichotomy(a[1..], b[1..]);
      assert a == [a[0]] + a[1..] && b == [b[0]] + b[1..];
    }
  }

  lemma {:induction false} LessTransitive(a: string, b: string, c: string)
    requires Less(a, b) && Less(b, c)
    ensures Less(a, c)
    decreases |a|
  {
    if a != "" && a[0] == b[0] == c[0] {
      LessTransitive(a[1..], b[1..], c[1..]);
    }
  }

  lemma AtMostTransitive(a: string, b: string, c: string)
    requires AtMost(a, b) && AtMost(b, c)
    ensures AtMost(a, c)
  {
    if Less(a, b) && Less(b, c) {
      LessTransitive(a, b, c);
    }
  }

  // ----- decimal numbers -----

  function DigitChar(d: nat): (c: char)
    requires d < 10
    ensures IsDigit(c)
    ensures DigitValue(c) == d
  {
    ('0' as int + d) as char
  }

  function DigitValue(c: char): int { c as int - '0' as int }

  lemma DigitCharIs(d: nat)
    requires d < 10
    ensures DigitChar(d) == "0123456789"[d]
  {
  }

  // strconv.AppendInt(nil, n, 10) for n >= 0
  function Decimal(n: nat): (s: string)
    ensures AllDigits(s)
    decreases n
  {
    if n < 10 then [DigitChar(n)] else Decimal(n / 10) + [DigitChar(n % 10)]
  }

  function DecimalValue(s: string): int {
    if s == "" then 0 else DecimalValue(s[..|s| - 1]) * 10 + DigitValue(s[|s| - 1])
  }

  function Pow10(n: nat): nat { if n == 0 then 1 else 10 * Pow10(n - 1) }

  lemma LastDigit(s: string, c: char)
    ensures DecimalValue(s + [c]) == DecimalValue(s) * 10 + DigitValue(c)
  {
    assert (s + [c])[..|s + [c]| - 1] == s;
  }

  // The value of digits followed by more digits.
  lemma {:induction false} DecimalValueOfConcat(a: string, b: string)
    requires forall i :: 0 <= i < |b| ==> IsDigit(b[i])
    ensures 0 <= DecimalValue(b) < Pow10(|b|)
    ensures DecimalValue(a + b) == DecimalValue(a) * Pow10(|b|) + DecimalValue(b)
    decreases |b|
  {
    if b == "" {
      assert a + b == a;
    } else {
      var n := |b| - 1;
      var front, c := b[..n], b[n];
      DecimalValueOfConcat(a, front);
      assert a + b == (a + front) + [c] && b == front + [c];
      assert Pow10(|b|) == 10 * Pow10(n) && 0 <= DigitValue(c) < 10;
      hide *;
      LastDigit(a + front, c);
      LastDigit(front, c);
      OneDigitMore(DecimalValue(a), Pow10(n), DecimalValue(front), DigitValue(c));
    }
  }

  lemma OneDigitMore(v: int, p: nat, w: int, d: int)
    requires 0 <= w < p && 0 <= d < 10
    ensures (v * p + w) * 10 + d == v * (10 * p) + (w * 10 + d)
    ensures 0 <= w * 10 + d < 10 * p
  {
    TimesTen(v, p);
  }

  lemma TimesTen(k: int, p: nat)
    ensures (k * p) * 10 == k * (10 * p)
  {
  }

  lemma {:induction false} DecimalRoundTrip(n: nat)
    ensures DecimalValue(Decimal(n)) == n
    decreases n
  {
    var s := Decimal(n);
    if n < 10 {
      assert s[..|s| - 1] == "";
    } else {
      DecimalRoundTrip(n / 10);
      assert s[..|s| - 1] == Decimal(n / 10);
    }
  }

  lemma DecimalInjective(m: nat, n: nat)
    ensures Decimal(m) == Decimal(n) ==> m == n
  {
    DecimalRoundTrip(m);
    DecimalRoundTrip(n);
  }
}
