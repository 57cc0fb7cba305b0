// The fragment of Go's regular expressions that the backend compiles: runs of
// a character class, sequence, alternative and optional group. `Matches` is a
// match of the whole text, which is what `^...$` asks for.
module Regex {
  import opened Text

  datatype CharClass = Digit | HexDigit | K8s | OneOf(chars: string)

  // The letters and digits Kubernetes draws generated name parts from.
  const K8S_ALPHABET: set<char> := {
    'b', 'c', 'd', 'f', 'g', 'h', 'j', 'k', 'l', 'm', 'n', 'p', 'q', 'r', 's', 't', 'v', 'w', 'x', 'z',
    '2', '4', '5', '6', '7', '8', '9'
  }

  // No vowels (and no y), no 0, 1 or 3.
  predicate IsK8sChar(c: char) {
    || (IsLower(c) && c != 'a' && c != 'e' && c != 'i' && c != 'o' && c != 'u' && c != 'y')
    || (IsDigit(c) && c != '0' && c != '1' && c != '3')
  }

  lemma K8sAlphabet(c: char)
    ensures IsK8sChar(c) <==> c in K8S_ALPHABET
  {
  }

  predicate In(c: char, cls: CharClass) {
    match cls
    case Digit => IsDigit(c)
    case HexDigit => IsDigit(c) || 'a' <= c <= 'f'
    case K8s => IsK8sChar(c)
    case OneOf(chars) => c in chars
  }

  predicate AllIn(s: string, cls: CharClass) {
    forall i :: 0 <= i < |s| ==> In(s[i], cls)
  }

  datatype Bound = Max(n: nat) | Unbounded

  datatype Regex =
    | Run(cls: CharClass, lo: nat, hi: Bound)
    | Cat(first: Regex, second: Regex)
    | Alt(left: Regex, right: Regex)
    | Opt(body: Regex)

  predicate Matches(re: Regex, s: string)
    decreases re
  {
    match re
    case Run(cls, lo, hi) => lo <= |s| && (hi.Max? ==> |s| <= hi.n) && AllIn(s, cls)
    case Cat(first, second) =>
      exists i :: 0 <= i <= |s| && Matches(first, s[..i]) && Matches(second, s[i..])
    case Alt(left, right) => Matches(left, s) || Matches(right, s)
    case Opt(body) => s == "" || Matches(body, s)
  }

  function Times(cls: CharClass, n: nat): Regex { Run(cls, n, Max(n)) }

  function Lit(c: char): Regex { Times(OneOf([c]), 1) }

  // The shortest text a pattern can match.
  function MinLen(re: Regex): nat {
    match re
    case Run(_, lo, _) => lo
    case Cat(first, second) => MinLen(first) + MinLen(second)
    case Alt(left, right) => if MinLen(left) < MinLen(right) then MinLen(left) else MinLen(right)
    case Opt(_) => 0
  }

  lemma {:induction false} MatchIsLongEnough(re: Regex, s: string)
    requires Matches(re, s)
    ensures |s| >= MinLen(re)
  {
    match re
    case Run(_, _, _) =>
    case Cat(first, second) =>
      var i :| 0 <= i <= |s| && Matches(first, s[..i]) && Matches(second, s[i..]);
      MatchIsLongEnough(first, s[..i]);
      MatchIsLongEnough(second, s[i..]);
    case Alt(left, right) =>
      if Matches(left, s) {
        MatchIsLongEnough(left, s);
      } else {
        MatchIsLongEnough(right, s);
      }
    case Opt(_) =>
  }

  lemma CatForm(first: Regex, second: Regex, s: string) returns (x: string, y: string)
    requires Matches(Cat(first, second), s)
    ensures s == x + y && Matches(first, x) && Matches(second, y)
  {
    var i :| 0 <= i <= |s| && Matches(first, s[..i]) && Matches(second, s[i..]);
    x, y := s[..i], s[i..];
  }

  lemma CatBuild(first: Regex, second: Regex, x: string, y: string)
    requires Matches(first, x) && Matches(second, y)
    ensures Matches(Cat(first, second), x + y)
  {
    var s := x + y;
    assert s[..|x|] == x && s[|x|..] == y;
  }

  // A fixed-length run at the front of a sequence sits at fixed positions.
  lemma FixedRunFirst(cls: CharClass, n: nat, rest: Regex, s: string)
    ensures Matches(Cat(Times(cls, n), rest), s)
       <==> |s| >= n && AllIn(s[..n], cls) && Matches(rest, s[n..])
  {
    if Matches(Cat(Times(cls, n), rest), s) {
      var i :| 0 <= i <= |s| && Matches(Times(cls, n), s[..i]) && Matches(rest, s[i..]);
    } else if |s| >= n && AllIn(s[..n], cls) {
      assert Matches(Times(cls, n), s[..n]);
    }
  }

  lemma LitFirst(c: char, rest: Regex, s: string)
    ensures Matches(Cat(Lit(c), rest), s) <==> s != "" && s[0] == c && Matches(rest, s[1..])
  {
    FixedRunFirst(OneOf([c]), 1, rest, s);
    if s != "" {
      assert s[..1][0] == s[0];
    }
  }

  lemma OneOfFirst(chars: string, rest: Regex, s: string)
    ensures Matches(Cat(Times(OneOf(chars), 1), rest), s) <==> s != "" && s[0] in chars && Matches(rest, s[1..])
  {
    FixedRunFirst(OneOf(chars), 1, rest, s);
    if s != "" {
      assert s[..1][0] == s[0];
    }
  }

  lemma TwoDigitsFirst(rest: Regex, s: string)
    ensures Matches(Cat(Times(Digit, 2), rest), s)
       <==> |s| >= 2 && IsDigit(s[0]) && IsDigit(s[1]) && Matches(rest, s[2..])
  {
    FixedRunFirst(Digit, 2, rest, s);
    if |s| >= 2 {
      assert s[..2][0] == s[0] && s[..2][1] == s[1];
    }
  }

  // A pattern anchored only at the end of the text, as `-x$` is.
  predicate MatchesAtEnd(re: Regex, s: string) {
    exists i :: 0 <= i <= |s| && Matches(re, s[i..])
  }

  // regexp.ReplaceAllString(s, "") for such a pattern when it cannot match the
  // empty text: the leftmost match reaches the end, so it is the only one.
  function CutAtEnd(re: Regex, s: string): (r: string)
    ensures !MatchesAtEnd(re, s) ==> r == s
    ensures MatchesAtEnd(re, s) ==>
              r <= s && Matches(re, s[|r|..]) && forall i :: 0 <= i < |r| ==> !Matches(re, s[i..])
  {
    CutFrom(re, s, 0)
  }

  function CutFrom(re: Regex, s: string, from: nat): (r: string)
    requires from <= |s|
    requires forall i :: 0 <= i < from ==> !Matches(re, s[i..])
    ensures !MatchesAtEnd(re, s) ==> r == s
    ensures MatchesAtEnd(re, s) ==>
              r <= s && Matches(re, s[|r|..]) && forall i :: 0 <= i < |r| ==> !Matches(re, s[i..])
    decreases |s| - from
  {
    if Matches(re, s[from..]) then s[..from]
    else if from == |s| then s
    else CutFrom(re, s, from + 1)
  }
}
