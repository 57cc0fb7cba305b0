// handlers.AuthHandler: the PBKDF2 loop, the stored form of a password hash
// and its migration at login. HMAC and SHA-256 are arbitrary functions.
module Passwords {
  import opened Text

  type Bytes = seq<bv8>

  // HMAC keyed by the password (always `size` bytes long) and SHA-256.
  datatype Crypto = Crypto(mac: (string, Bytes) -> Bytes, sha: string -> Bytes, size: nat) {
    ghost predicate Lawful() {
      size > 0 && forall k, d :: |mac(k, d)| == size
    }
  }

  // ----- section 5.2 of RFC 8018 -----

  function Xor(a: Bytes, b: Bytes): (r: Bytes)
    requires |a| == |b|
    ensures |r| == |a| && forall j :: 0 <= j < |a| ==> r[j] == a[j] ^ b[j]
  {
    seq(|a|, j requires 0 <= j < |a| => a[j] ^ b[j])
  }

  // INT(i): the block index, most significant octet first
  function BlockIndex(i: nat): Bytes
    requires i < 0x1_0000_0000
  {
    [(i / 0x100_0000) as bv8, (i / 0x1_0000 % 0x100) as bv8, (i / 0x100 % 0x100) as bv8, (i % 0x100) as bv8]
  }

  lemma MostSignificantFirst()
    ensures BlockIndex(1) == [0, 0, 0, 1] && BlockIndex(0x0102_0304) == [1, 2, 3, 4]
  {
  }

  lemma XorUndone(a: Bytes, b: Bytes)
    requires |a| == |b|
    ensures Xor(Xor(a, b), b) == a
  {
  }

  // U_j of block i: U_1 over the salt and the index, then each over the last.
  function U(cr: Crypto, p: string, salt: Bytes, i: nat, j: nat): (r: Bytes)
    requires cr.Lawful() && i < 0x1_0000_0000 && j >= 1
    ensures |r| == cr.size
  {
    if j == 1 then cr.mac(p, salt + BlockIndex(i)) else cr.mac(p, U(cr, p, salt, i, j - 1))
  }

  // T_i = U_1 xor ... xor U_c
  function T(cr: Crypto, p: string, salt: Bytes, c: nat, i: nat): (r: Bytes)
    requires cr.Lawful() && i < 0x1_0000_0000 && c >= 1
    ensures |r| == cr.size
  {
    if c == 1 then U(cr, p, salt, i, 1) else Xor(T(cr, p, salt, c - 1, i), U(cr, p, salt, i, c))
  }

  // T_i || T_(i+1) || ... for `n` blocks
  function Blocks(cr: Crypto, p: string, salt: Bytes, c: nat, i: nat, n: nat): (r: Bytes)
    requires cr.Lawful() && c >= 1 && i + n <= 0x1_0000_0000
    ensures |r| == n * cr.size
    decreases n
  {
    if n == 0 then [] else T(cr, p, salt, c, i) + Blocks(cr, p, salt, c, i + 1, n - 1)
  }

  function BlockCount(cr: Crypto, dkLen: nat): nat
    requires cr.size > 0
  {
    (dkLen + cr.size - 1) / cr.size
  }

  lemma BlocksCover(cr: Crypto, dkLen: nat)
    requires cr.size > 0
    ensures dkLen <= BlockCount(cr, dkLen) * cr.size
    ensures dkLen <= cr.size ==> BlockCount(cr, dkLen) == if dkLen == 0 then 0 else 1
  {
    var h := cr.size;
    var n := (dkLen + h - 1) / h;
    assert (dkLen + h - 1) == n * h + (dkLen + h - 1) % h;
    if 0 < dkLen <= h {
      assert h <= dkLen + h - 1 < 2 * h;
      QuotientOne(dkLen + h - 1, h);
    }
  }

  lemma QuotientOne(n: nat, h: nat)
    requires 0 < h <= n < 2 * h
    ensures n / h == 1
  {
  }

  // DK: the first dkLen octets of the blocks T_1, T_2, ...
  function Pbkdf2(cr: Crypto, p: string, salt: Bytes, c: nat, dkLen: nat): (r: Bytes)
    requires cr.Lawful() && c >= 1 && BlockCount(cr, dkLen) < 0x1_0000_0000
    ensures |r| == dkLen
  {
    BlocksCover(cr, dkLen);
    Blocks(cr, p, salt, c, 1, BlockCount(cr, dkLen))[..dkLen]
  }

  // ----- pbkdf2Key -----

  function AtLeastOne(iterations: int): nat { if iterations < 1 then 1 else iterations }

  // What the loop leaves: one block, cut to the length asked for.
  function OneBlock(cr: Crypto, p: string, salt: Bytes, iterations: int, keyLen: nat): Bytes
    requires cr.Lawful()
  {
    var t := T(cr, p, salt, AtLeastOne(iterations), 1);
    if |t| > keyLen then t[..keyLen] else t
  }

  // for j := range dk { dk[j] ^= curr[j] }
  method XorInto(dk: array<bv8>, curr: Bytes)
    requires |curr| == dk.Length
    modifies dk
    ensures dk[..] == Xor(old(dk[..]), curr)
  {
    for j := 0 to dk.Length
      invariant forall k :: 0 <= k < j ==> dk[k] == old(dk[k]) ^ curr[k]
      invariant forall k :: j <= k < dk.Length ==> dk[k] == old(dk[k])
    {
      dk[j] := dk[j] ^ curr[j];
    }
  }

  // copy(prev, curr)
  method CopyInto(prev: array<bv8>, curr: Bytes)
    requires |curr| == prev.Length
    modifies prev
    ensures prev[..] == curr
  {
    for j := 0 to prev.Length
      invariant forall k :: 0 <= k < j ==> prev[k] == curr[k]
    {
      prev[j] := curr[j];
    }
  }

  lemma NextIteration(cr: Crypto, p: string, salt: Bytes, i: nat)
    requires cr.Lawful() && i >= 1
    ensures U(cr, p, salt, 1, i + 1) == cr.mac(p, U(cr, p, salt, 1, i))
    ensures T(cr, p, salt, i + 1, 1) == Xor(T(cr, p, salt, i, 1), U(cr, p, salt, 1, i + 1))
    ensures forall d :: |cr.mac(p, d)| == cr.size
  {
  }

  method Pbkdf2Key(cr: Crypto, password: string, salt: Bytes, iterations: int, keyLen: nat) returns (key: Bytes)
    requires cr.Lawful()
    ensures key == OneBlock(cr, password, salt, iterations, keyLen)
  {
    var u := new bv8[4](_ => 0);
    u[3] := 1;
    assert u[..] == BlockIndex(1);
    var first := cr.mac(password, salt + u[..]);
    var n := |first|;
    var dk := new bv8[n](j requires 0 <= j < n => first[j]);
    var prev := new bv8[n](j requires 0 <= j < n => first[j]);
    assert dk[..] == first && prev[..] == first;
    var i := 1;
    while i < iterations
      invariant 1 <= i <= AtLeastOne(iterations)
      invariant prev[..] == U(cr, password, salt, 1, i)
      invariant dk[..] == T(cr, password, salt, i, 1)
    {
      hide *;
      NextIteration(cr, password, salt, i);
      var curr := cr.mac(password, prev[..]);
      XorInto(dk, curr);
      CopyInto(prev, curr);
      i := i + 1;
    }
    if dk.Length > keyLen {
      return dk[..keyLen];
    }
    return dk[..];
  }

  // The key is the one RFC 8018 derives exactly for lengths up to one block.
  lemma OneBlockIsPbkdf2ExactlyWhen(cr: Crypto, p: string, salt: Bytes, c: nat, keyLen: nat)
    requires cr.Lawful() && c >= 1 && BlockCount(cr, keyLen) < 0x1_0000_0000
    ensures OneBlock(cr, p, salt, c, keyLen) == Pbkdf2(cr, p, salt, c, keyLen) <==> keyLen <= cr.size
  {
    BlocksCover(cr, keyLen);
    if keyLen <= cr.size && keyLen > 0 {
      assert BlockCount(cr, keyLen) == 1;
      assert Blocks(cr, p, salt, c, 1, 1) == T(cr, p, salt, c, 1) + Blocks(cr, p, salt, c, 2, 0);
    }
  }

  // ----- hex -----

  function HexChar(n: bv8): (c: char)
    requires n < 16
    ensures IsDigit(c) || 'a' <= c <= 'f'
    ensures HexValue(c) == Some(n)
  {
    if n == 0 then '0' else if n == 1 then '1' else if n == 2 then '2' else if n == 3 then '3'
    else if n == 4 then '4' else if n == 5 then '5' else if n == 6 then '6' else if n == 7 then '7'
    else if n == 8 then '8' else if n == 9 then '9' else if n == 10 then 'a' else if n == 11 then 'b'
    else if n == 12 then 'c' else if n == 13 then 'd' else if n == 14 then 'e' else 'f'
  }

  // Decoding takes either case.
  function HexValue(c: char): (n: Option<bv8>)
    ensures n.Some? ==> n.value < 16
  {
    match c
    case '0' => Some(0) case '1' => Some(1) case '2' => Some(2) case '3' => Some(3)
    case '4' => Some(4) case '5' => Some(5) case '6' => Some(6) case '7' => Some(7)
    case '8' => Some(8) case '9' => Some(9)
    case 'a' => Some(10) case 'b' => Some(11) case 'c' => Some(12)
    case 'd' => Some(13) case 'e' => Some(14) case 'f' => Some(15)
    case 'A' => Some(10) case 'B' => Some(11) case 'C' => Some(12)
    case 'D' => Some(13) case 'E' => Some(14) case 'F' => Some(15)
    case _ => None
  }

  predicate IsHex(s: string) { forall c :: c in s ==> HexValue(c).Some? }

  function HexEncode(bs: Bytes): (s: string)
    ensures |s| == 2 * |bs|
    ensures IsHex(s) && ':' !in s
  {
    if bs == [] then "" else [HexChar(bs[0] >> 4), HexChar(bs[0] & 0x0f)] + HexEncode(bs[1..])
  }

  function HexDecode(s: string): Option<Bytes> {
    if s == "" then Some([])
    else if |s| == 1 then None
    else
      var hi, lo, rest := HexValue(s[0]), HexValue(s[1]), HexDecode(s[2..]);
      if hi.Some? && lo.Some? && rest.Some? then Some([(hi.value << 4) | lo.value] + rest.value) else None
  }

  lemma NibblesJoin(b: bv8)
    ensures ((b >> 4) << 4) | (b & 0x0f) == b
    ensures b >> 4 < 16 && b & 0x0f < 16
  {
  }

  lemma {:induction false} HexRoundTrip(bs: Bytes)
    ensures HexDecode(HexEncode(bs)) == Some(bs)
    decreases |bs|
  {
    if bs != [] {
      var s, b := HexEncode(bs), bs[0];
      NibblesJoin(b);
      HexRoundTrip(bs[1..]);
      assert s[0] == HexChar(b >> 4) && s[1] == HexChar(b & 0x0f) && s[2..] == HexEncode(bs[1..]);
      assert HexValue(s[0]) == Some(b >> 4) && HexValue(s[1]) == Some(b & 0x0f);
      hide HexValue, HexChar;
      assert bs == [b] + bs[1..];
    }
  }

  // The digits of a byte in base 16, the higher one first, in lower case.
  lemma HexDigitsAre(n: bv8)
    requires n < 16
    ensures HexChar(n) == "0123456789abcdef"[n as int]
  {
  }

  lemma HighAndLow(b: bv8)
    ensures (b >> 4) as int == b as int / 16 && (b & 0x0f) as int == b as int % 16
  {
    NibblesJoin(b);
  }

  lemma {:induction false} HexAt(bs: Bytes, i: nat)
    requires i < |bs|
    ensures HexEncode(bs)[2 * i] == "0123456789abcdef"[bs[i] as int / 16]
    ensures HexEncode(bs)[2 * i + 1] == "0123456789abcdef"[bs[i] as int % 16]
    decreases i
  {
    if i == 0 {
      NibblesJoin(bs[0]);
      HighAndLow(bs[0]);
      HexDigitsAre(bs[0] >> 4);
      HexDigitsAre(bs[0] & 0x0f);
    } else {
      HexAt(bs[1..], i - 1);
    }
  }

  predicate IsHexDigit(c: char) { '0' <= c <= '9' || 'a' <= c <= 'f' || 'A' <= c <= 'F' }

  lemma HexValuesAre(c: char)
    ensures HexValue(c).Some? <==> IsHexDigit(c)
  {
  }

  // What decodes: an even number of hexadecimal digits in either case.
  lemma {:induction false} DecodesExactlyWhen(s: string)
    ensures HexDecode(s).Some? <==> |s| % 2 == 0 && forall i :: 0 <= i < |s| ==> IsHexDigit(s[i])
    decreases |s|
  {
    if |s| >= 2 {
      var rest := s[2..];
      DecodesExactlyWhen(rest);
      HexValuesAre(s[0]);
      HexValuesAre(s[1]);
      assert forall i :: 2 <= i < |s| ==> s[i] == rest[i - 2];
      assert forall i :: 0 <= i < |rest| ==> rest[i] == s[i + 2];
      hide HexValue, IsHexDigit;
    }
  }

  // ----- hashPassword and checkPassword -----

  const PREFIX := "pbkdf2:"

  function Derived(cr: Crypto, password: string, salt: Bytes): Bytes
    requires cr.Lawful()
  {
    OneBlock(cr, password, salt, 10000, 32)
  }

  function Stored(cr: Crypto, password: string, salt: Bytes): string
    requires cr.Lawful()
  {
    PREFIX + (HexEncode(salt) + ":" + HexEncode(Derived(cr, password, salt)))
  }

  // strings.SplitN(s, ":", 2) when there are two parts
  function SplitPair(s: string): (r: Option<(string, string)>)
    ensures r.Some? ==> s == r.value.0 + ":" + r.value.1 && ':' !in r.value.0
    ensures r.None? <==> ':' !in s
  {
    var i := IndexByte(s, ':');
    if i < 0 then None else Some((s[..i], s[i + 1..]))
  }

  predicate Accepts(cr: Crypto, password: string, stored: string)
    requires cr.Lawful()
  {
    if PREFIX <= stored then
      match SplitPair(stored[|PREFIX|..])
      case None => false
      case Some((saltHex, dkHex)) =>
        HexDecode(saltHex).Some? && HexDecode(dkHex).Some? &&
        Derived(cr, password, HexDecode(saltHex).value) == HexDecode(dkHex).value
    else
      match SplitPair(stored)
      case None => false
      case Some((saltHex, hash)) => HexEncode(cr.sha(saltHex + password)) == hash
  }

  method HashPassword(cr: Crypto, password: string, salt: Bytes) returns (stored: string)
    requires cr.Lawful()
    ensures stored == Stored(cr, password, salt)
    ensures stored == "pbkdf2:" + (HexEncode(salt) + ":" + HexEncode(OneBlock(cr, password, salt, 10000, 32)))
  {
    var dk := Pbkdf2Key(cr, password, salt, 10000, 32);
    stored := "pbkdf2:" + (HexEncode(salt) + ":" + HexEncode(dk));
  }

  method CheckPassword(cr: Crypto, password: string, stored: string) returns (ok: bool)
    requires cr.Lawful()
    ensures ok == Accepts(cr, password, stored)
  {
    if PREFIX <= stored {
      var parts := SplitPair(stored[|PREFIX|..]);
      if parts.None? {
        return false;
      }
      var salt, hash := HexDecode(parts.value.0), HexDecode(parts.value.1);
      if salt.None? || hash.None? {
        return false;
      }
      var dk := Pbkdf2Key(cr, password, salt.value, 10000, 32);
      return dk == hash.value;
    }
    var parts := SplitPair(stored);
    if parts.None? {
      return false;
    }
    return HexEncode(cr.sha(parts.value.0 + password)) == parts.value.1;
  }

  lemma PairOf(a: string, b: string)
    requires ':' !in a
    ensures SplitPair(a + ":" + b) == Some((a, b))
  {
    var s := a + ":" + b;
    var p := SplitPair(s).value;
    HeadBeforeSeparator(p.0, p.1, a, b, ':');
  }

  // A stored hash accepts exactly the passwords with the same derived key, so
  // in particular the one it was made from, and is not migrated again.
  lemma StoredAccepts(cr: Crypto, password: string, salt: Bytes, q: string)
    requires cr.Lawful()
    ensures Accepts(cr, q, Stored(cr, password, salt)) <==> Derived(cr, q, salt) == Derived(cr, password, salt)
    ensures Accepts(cr, password, Stored(cr, password, salt))
    ensures PREFIX <= Stored(cr, password, salt)
  {
    var dk := Derived(cr, password, salt);
    var rest := HexEncode(salt) + ":" + HexEncode(dk);
    var stored := PREFIX + rest;
    assert PREFIX <= stored && stored[|PREFIX|..] == rest;
    PairOf(HexEncode(salt), HexEncode(dk));
    HexRoundTrip(salt);
    HexRoundTrip(dk);
    hide Derived, HexEncode, HexDecode, SplitPair;
  }

  ghost predicate IsDerivedForm(cr: Crypto, q: string, stored: string, saltHex: string, keyHex: string)
    requires cr.Lawful()
  {
    && stored == "pbkdf2:" + (saltHex + ":" + keyHex) && ':' !in saltHex
    && HexDecode(saltHex).Some? && HexDecode(keyHex).Some?
    && OneBlock(cr, q, HexDecode(saltHex).value, 10000, 32) == HexDecode(keyHex).value
  }

  ghost predicate IsLegacyForm(cr: Crypto, q: string, stored: string, salt: string) {
    !("pbkdf2:" <= stored) && ':' !in salt && stored == salt + ":" + HexEncode(cr.sha(salt + q))
  }

  // Whatever is stored, a password is accepted for one of these two forms and
  // for nothing else.
  lemma AcceptsExactlyWhen(cr: Crypto, q: string, stored: string)
    requires cr.Lawful()
    ensures Accepts(cr, q, stored) <==>
            || (exists saltHex, keyHex :: IsDerivedForm(cr, q, stored, saltHex, keyHex))
            || (exists salt :: IsLegacyForm(cr, q, stored, salt))
  {
    hide HexDecode, HexEncode, OneBlock;
    if Accepts(cr, q, stored) {
      AcceptedHasForm(cr, q, stored);
    }
    if saltHex, keyHex :| IsDerivedForm(cr, q, stored, saltHex, keyHex) {
      assert stored[|PREFIX|..] == saltHex + ":" + keyHex;
      PairOf(saltHex, keyHex);
    }
    if salt :| IsLegacyForm(cr, q, stored, salt) {
      PairOf(salt, HexEncode(cr.sha(salt + q)));
    }
  }

  lemma AcceptedHasForm(cr: Crypto, q: string, stored: string)
    requires cr.Lawful() && Accepts(cr, q, stored)
    ensures (exists saltHex, keyHex :: IsDerivedForm(cr, q, stored, saltHex, keyHex))
            || exists salt :: IsLegacyForm(cr, q, stored, salt)
  {
    hide HexDecode, HexEncode, OneBlock;
    if PREFIX <= stored {
      var p := SplitPair(stored[|PREFIX|..]).value;
      assert stored == PREFIX + stored[|PREFIX|..];
      assert IsDerivedForm(cr, q, stored, p.0, p.1);
    } else {
      assert IsLegacyForm(cr, q, stored, SplitPair(stored).value.0);
    }
  }

  // ----- the legacy form -----

  // "<hex salt>:<hash>" is never read as the new form: it would have to start
  // with a 'p'.
  lemma LegacyIsNotNew(saltHex: string, hash: string)
    requires IsHex(saltHex)
    ensures !(PREFIX <= saltHex + ":" + hash)
  {
    var s := saltHex + ":" + hash;
    assert s[0] == if saltHex == "" then ':' else saltHex[0];
    assert saltHex != "" ==> saltHex[0] in saltHex;
    assert PREFIX[0] == 'p';
  }

  lemma LegacyAccepts(cr: Crypto, saltHex: string, hash: string, q: string)
    requires cr.Lawful() && IsHex(saltHex)
    ensures Accepts(cr, q, saltHex + ":" + hash) <==> HexEncode(cr.sha(saltHex + q)) == hash
  {
    LegacyIsNotNew(saltHex, hash);
    assert ':' !in saltHex;
    PairOf(saltHex, hash);
    hide HexEncode, SplitPair;
  }

  // ----- migration at login -----

  class Accounts {
    var hashes: map<string, string>   // by e-mail
    const crypto: Crypto

    constructor (crypto: Crypto, hashes: map<string, string>)
      ensures this.crypto == crypto && this.hashes == hashes
    {
      this.crypto, this.hashes := crypto, hashes;
    }

    // `salt` is None when no random bytes could be read, `saved` tells whether
    // the store took the new hash.
    method Login(email: string, password: string, salt: Option<Bytes>, saved: bool) returns (ok: bool)
      requires crypto.Lawful()
      modifies this
      ensures ok == (email in old(hashes) && Accepts(crypto, password, old(hashes)[email]))
      ensures hashes ==
              if ok && !(PREFIX <= old(hashes)[email]) && salt.Some? && saved
              then old(hashes)[email := Stored(crypto, password, salt.value)]
              else old(hashes)
      ensures ok ==> Accepts(crypto, password, hashes[email])
      ensures forall e :: e != email ==> (e in hashes <==> e in old(hashes)) && (e in hashes ==> hashes[e] == old(hashes)[e])
    {
      if email !in hashes {
        return false;
      }
      ok := CheckPassword(crypto, password, hashes[email]);
      if !ok {
        return false;
      }
      if !(PREFIX <= hashes[email]) && salt.Some? {
        var migrated := HashPassword(crypto, password, salt.value);
        if saved {
          StoredAccepts(crypto, password, salt.value, password);
          hashes := hashes[email := migrated];
        }
      }
    }
  }
}
