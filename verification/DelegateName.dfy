/** The delegate name codec (indexprotocol/protocol.go): a name of up to 12 bytes is stored as 24
    hexadecimal digits (Base16, section 8 of RFC 4648), right-aligned, with trailing '#' written as
    zero bytes. Strings are byte sequences, as in the original. */
module DelegateName {
  import opened Bytes
  import opened Wrappers

  const HASH: byte := 0x23        // '#'
  const DIGIT_ZERO: byte := 0x30  // '0'

  /* ---------- library functions on strings ---------- */

  function Repeat(c: byte, n: nat): (s: seq<byte>)
    ensures |s| == n && forall i :: 0 <= i < n ==> s[i] == c
  {
    seq(n, i => c)
  }

  /** How many of the first n bytes of s, counted back from the n-th, are c. */
  function RunBefore(s: seq<byte>, c: byte, n: nat): (r: nat)
    requires n <= |s|
    ensures r <= n && forall i :: n - r <= i < n ==> s[i] == c
    ensures r < n ==> s[n - r - 1] != c
  {
    if n > 0 && s[n - 1] == c then RunBefore(s, c, n - 1) + 1 else 0
  }

  /** How many trailing bytes are c. */
  function Trailing(s: seq<byte>, c: byte): (r: nat)
    ensures r <= |s| && forall i :: |s| - r <= i < |s| ==> s[i] == c
    ensures r < |s| ==> s[|s| - r - 1] != c
  {
    RunBefore(s, c, |s|)
  }

  /** How many bytes from the n-th on are c. */
  function RunFrom(s: seq<byte>, c: byte, n: nat): (r: nat)
    requires n <= |s|
    ensures n + r <= |s| && forall i :: n <= i < n + r ==> s[i] == c
    ensures n + r < |s| ==> s[n + r] != c
    decreases |s| - n
  {
    if n < |s| && s[n] == c then RunFrom(s, c, n + 1) + 1 else 0
  }

  /** strings.TrimLeft with a one-byte cutset drops this many bytes. */
  function Leading(s: seq<byte>, c: byte): (r: nat)
    ensures r <= |s| && forall i :: 0 <= i < r ==> s[i] == c
    ensures r < |s| ==> s[r] != c
  {
    RunFrom(s, c, 0)
  }

  /** How many "00" pairs end the first n bytes of s. */
  function ZeroPairsBefore(s: seq<byte>, n: nat): (r: nat)
    requires n <= |s|
    ensures 2 * r <= n && forall i :: n - 2 * r <= i < n ==> s[i] == DIGIT_ZERO
    ensures 2 * r + 1 < n ==> s[n - 2 * r - 2] != DIGIT_ZERO || s[n - 2 * r - 1] != DIGIT_ZERO
  {
    if n >= 2 && s[n - 2] == DIGIT_ZERO && s[n - 1] == DIGIT_ZERO then ZeroPairsBefore(s, n - 2) + 1 else 0
  }

  lemma TrailingUnique(s: seq<byte>, c: byte, r: nat)
    requires r <= |s| && forall i :: |s| - r <= i < |s| ==> s[i] == c
    requires r < |s| ==> s[|s| - r - 1] != c
    ensures r == Trailing(s, c)
  {}

  lemma LeadingUnique(s: seq<byte>, c: byte, r: nat)
    requires r <= |s| && forall i :: 0 <= i < r ==> s[i] == c
    requires r < |s| ==> s[r] != c
    ensures r == Leading(s, c)
  {}

  lemma ZeroPairsUnique(s: seq<byte>, r: nat)
    requires 2 * r <= |s| && forall i :: |s| - 2 * r <= i < |s| ==> s[i] == DIGIT_ZERO
    requires 2 * r + 1 < |s| ==> s[|s| - 2 * r - 2] != DIGIT_ZERO || s[|s| - 2 * r - 1] != DIGIT_ZERO
    ensures r == ZeroPairsBefore(s, |s|)
  {}

  function HexDigit(n: byte): (d: byte)
    requires n < 16
    ensures HexValue(d) == Some(n)
    ensures d == DIGIT_ZERO <==> n == 0
  {
    if n < 10 then 0x30 + n else 0x57 + n
  }

  function HexValue(c: byte): (v: Option<byte>)
    ensures v.Some? ==> v.value < 16
  {
    if 0x30 <= c <= 0x39 then Some(c - 0x30)
    else if 0x61 <= c <= 0x66 then Some(c - 0x57)
    else if 0x41 <= c <= 0x46 then Some(c - 0x37)
    else None
  }

  /** The digits of the first n bytes, two for a byte, the high half first. */
  function HexOf(b: seq<byte>, n: nat): (s: seq<byte>)
    requires n <= |b|
    ensures |s| == 2 * n
    ensures forall i {:trigger b[i]} ::
              0 <= i < n ==> s[2 * i] == HexDigit(b[i] / 16) && s[2 * i + 1] == HexDigit(b[i] % 16)
  {
    if n == 0 then [] else HexOf(b, n - 1) + [HexDigit(b[n - 1] / 16), HexDigit(b[n - 1] % 16)]
  }

  /** hex.EncodeToString. */
  function Hex(b: seq<byte>): (s: seq<byte>)
    ensures |s| == 2 * |b|
  {
    HexOf(b, |b|)
  }

  lemma HexAt(b: seq<byte>, i: nat)
    requires i < |b|
    ensures Hex(b)[2 * i] == HexDigit(b[i] / 16) && Hex(b)[2 * i + 1] == HexDigit(b[i] % 16)
    ensures b[i] == 0 <==> Hex(b)[2 * i] == DIGIT_ZERO && Hex(b)[2 * i + 1] == DIGIT_ZERO
  {}

  /** Two digits stand for a byte. */
  predicate Spells(hi: byte, lo: byte, b: byte) {
    HexValue(hi).Some? && HexValue(lo).Some? && b == 16 * HexValue(hi).value + HexValue(lo).value
  }

  /** The bytes that the first 2n digits stand for. */
  function BytesOf(s: seq<byte>, n: nat): (r: Result<seq<byte>>)
    requires 2 * n <= |s|
    ensures r.Success? ==> |r.value| == n
    ensures r.Success? ==> forall i :: 0 <= i < n ==> Spells(s[2 * i], s[2 * i + 1], r.value[i])
    ensures r.Failure? ==> exists i :: 0 <= i < 2 * n && HexValue(s[i]).None?
  {
    if n == 0 then Success([])
    else
      match BytesOf(s, n - 1)
      case Failure(e) => Failure(e)
      case Success(front) =>
        var hi, lo := HexValue(s[2 * n - 2]), HexValue(s[2 * n - 1]);
        if hi.None? || lo.None? then Failure(InvalidHex)
        else
          var all := front + [16 * hi.value + lo.value];
          assert forall i :: 0 <= i < n - 1 ==> all[i] == front[i];
          assert Spells(s[2 * n - 2], s[2 * n - 1], all[n - 1]);
          Success(all)
  }

  /** hex.DecodeString: fails on an odd length or on a byte that is not a digit. */
  function Unhex(s: seq<byte>): (r: Result<seq<byte>>)
    ensures r.Success? ==> |s| == 2 * |r.value|
  {
    if |s| % 2 == 1 then Failure(InvalidHex) else BytesOf(s, |s| / 2)
  }

  /* ---------- the codec ---------- */

  /** The 12 bytes that a short name is stored as. */
  function Padded(name: seq<byte>): (b: seq<byte>)
    requires |name| <= 12
    ensures |b| == 12
    ensures forall i :: 0 <= i < 12 - |name| ==> b[i] == 0
    ensures forall i :: 12 - |name| <= i < 12 - Trailing(name, HASH) ==> b[i] == name[i - (12 - |name|)]
    ensures forall i :: 12 - Trailing(name, HASH) <= i < 12 ==> b[i] == 0
  {
    var hashes := Trailing(name, HASH);
    Repeat(0, 12 - |name|) + name[..|name| - hashes] + Repeat(0, hashes)
  }

  function Encoded(name: seq<byte>): Result<seq<byte>> {
    if |name| == 24 then Success(name)
    else if |name| <= 12 then Success(Hex(Padded(name)))
    else Failure(InvalidLength)
  }

  function Decoded(name: seq<byte>): Result<seq<byte>> {
    var pairs := ZeroPairsBefore(name, |name|);
    var stem := name[..|name| - 2 * pairs];
    WithSuffix(Unhex(stem[Leading(stem, DIGIT_ZERO)..]), Repeat(HASH, pairs))
  }

  function WithSuffix(alias: Result<seq<byte>>, suffix: seq<byte>): Result<seq<byte>> {
    match alias
    case Failure(e) => Failure(e)
    case Success(a) => Success(a + suffix)
  }

  /** Once no "00" pair is left, reading the stem is all that remains to do. */
  lemma DecodedBy(name: seq<byte>, stem: seq<byte>, suffix: seq<byte>)
    requires |stem| + 2 * |suffix| == |name| && stem == name[..|stem|]
    requires forall i :: |stem| <= i < |name| ==> name[i] == DIGIT_ZERO
    requires |stem| >= 2 ==> stem[|stem| - 2] != DIGIT_ZERO || stem[|stem| - 1] != DIGIT_ZERO
    requires forall i :: 0 <= i < |suffix| ==> suffix[i] == HASH
    ensures Decoded(name) == WithSuffix(Unhex(stem[Leading(stem, DIGIT_ZERO)..]), suffix)
  {
    ZeroPairsUnique(name, |suffix|);
    hide ZeroPairsBefore, Unhex, Leading, WithSuffix;
    assert suffix == Repeat(HASH, |suffix|);
  }

  /** EncodeDelegateName. */
  method EncodeDelegateName(name: seq<byte>) returns (r: Result<seq<byte>>)
    ensures r == Encoded(name)
  {
    var l := |name|;
    if l == 24 { return Success(name); }
    if l <= 12 {
      var prefixZeros: seq<byte> := [];
      for i := 0 to 12 - l
        invariant prefixZeros == Repeat(0, i)
      {
        prefixZeros := prefixZeros + [0];
      }
      var rest := name;
      var suffixZeros: seq<byte> := [];
      while rest != [] && rest[|rest| - 1] == HASH
        invariant |rest| <= l && rest == name[..|rest|] && suffixZeros == Repeat(0, l - |rest|)
        invariant forall i :: |rest| <= i < l ==> name[i] == HASH
        decreases |rest|
      {
        rest := rest[..|rest| - 1];
        suffixZeros := suffixZeros + [0];
      }
      TrailingUnique(name, HASH, l - |rest|);
      assert prefixZeros + rest + suffixZeros == Padded(name);
      return Success(Hex(prefixZeros + rest + suffixZeros));
    }
    return Failure(InvalidLength);
  }

  /** DecodeDelegateName. */
  method DecodeDelegateName(name: seq<byte>) returns (r: Result<seq<byte>>)
    ensures r == Decoded(name)
  {
    var stem := name;
    var suffix: seq<byte> := [];
    while |stem| >= 2 && stem[|stem| - 2] == DIGIT_ZERO && stem[|stem| - 1] == DIGIT_ZERO
      invariant |stem| <= |name| && |name| - |stem| == 2 * |suffix|
      invariant stem == name[..|stem|]
      invariant forall i :: 0 <= i < |suffix| ==> suffix[i] == HASH
      invariant forall i :: |stem| <= i < |name| ==> name[i] == DIGIT_ZERO
      decreases |stem|
    {
      stem := stem[..|stem| - 2];
      suffix := suffix + [HASH];
    }
    DecodedBy(name, stem, suffix);
    r := WithSuffix(Unhex(stem[Leading(stem, DIGIT_ZERO)..]), suffix);
  }

  /* ---------- decoding 12 bytes ---------- */

  /** Bytes laid out as p zeros, then a core, then q zeros. */
  ghost predicate LaidOut(b: seq<byte>, p: nat, core: seq<byte>, q: nat) {
    && |b| == p + |core| + q
    && (forall i :: 0 <= i < p ==> b[i] == 0)
    && (forall i :: 0 <= i < |core| ==> b[p + i] == core[i])
    && (forall i :: p + |core| <= i < |b| ==> b[i] == 0)
  }

  /** Trailing zero bytes become hashes; what is left is read as digits. */
  lemma DecodedStem(b: seq<byte>, p: nat, core: seq<byte>, q: nat)
    requires LaidOut(b, p, core, q) && (if core == [] then p == 0 else core[|core| - 1] != 0)
    ensures var stem := Hex(b)[..2 * (p + |core|)];
            Decoded(Hex(b)) == WithSuffix(Unhex(stem[Leading(stem, DIGIT_ZERO)..]), Repeat(HASH, q))
  {
    hide Hex, Decoded, Unhex, Leading, WithSuffix;
    var code, n := Hex(b), p + |core|;
    forall i | 2 * n <= i < |code| ensures code[i] == DIGIT_ZERO { HexAt(b, i / 2); }
    if core != [] { HexAt(b, n - 1); }
    DecodedBy(code, code[..2 * n], Repeat(HASH, q));
  }

  /** Leading zero digits: two for a zero byte, and one more when the first other byte is below 0x10. */
  lemma LeadingDigits(b: seq<byte>, p: nat, core: seq<byte>, q: nat)
    requires LaidOut(b, p, core, q) && core != [] && core[|core| - 1] != 0
    ensures var stem := Hex(b)[..2 * (p + |core|)];
            && (core[0] >= 0x10 ==> Leading(stem, DIGIT_ZERO) == 2 * p)
            && (core[0] < 0x10 ==> Leading(stem, DIGIT_ZERO) > 2 * p)
            && (0 < core[0] < 0x10 ==> Leading(stem, DIGIT_ZERO) == 2 * p + 1)
  {
    var stem := Hex(b)[..2 * (p + |core|)];
    forall i | 0 <= i < 2 * p ensures stem[i] == DIGIT_ZERO { HexAt(b, i / 2); }
    assert b[p] == core[0];
    HexAt(b, p);
    if core[0] >= 0x10 {
      LeadingUnique(stem, DIGIT_ZERO, 2 * p);
    } else if core[0] > 0 {
      LeadingUnique(stem, DIGIT_ZERO, 2 * p + 1);
    }
  }

  /** The digits of a core spell the core. */
  lemma UnhexCore(b: seq<byte>, p: nat, core: seq<byte>, q: nat)
    requires LaidOut(b, p, core, q)
    ensures Unhex(Hex(b)[..2 * (p + |core|)][2 * p..]) == Success(core)
  {
    var s := Hex(b)[..2 * (p + |core|)][2 * p..];
    forall i | 0 <= i < |s| ensures HexValue(s[i]).Some? { HexAt(b, p + i / 2); }
    var r := Unhex(s);
    assert r.Success?;
    forall i | 0 <= i < |core| ensures r.value[i] == core[i] {
      hide Hex, Unhex;
      assert Spells(s[2 * i], s[2 * i + 1], r.value[i]);
      assert b[p + i] == core[i];
      HexAt(b, p + i);
    }
    assert r.value == core;
  }

  /** The core comes back, with a hash for every trailing zero byte, exactly when its first byte needs two
      digits; otherwise the result is shorter, or an error. */
  lemma DecodedCore(b: seq<byte>, p: nat, core: seq<byte>, q: nat)
    requires LaidOut(b, p, core, q) && core != [] && core[|core| - 1] != 0
    ensures core[0] >= 0x10 ==> Decoded(Hex(b)) == Success(core + Repeat(HASH, q))
    ensures core[0] < 0x10 && Decoded(Hex(b)).Success? ==> |Decoded(Hex(b)).value| < |core| + q
    ensures 0 < core[0] < 0x10 ==> Decoded(Hex(b)).Failure?
  {
    DecodedStem(b, p, core, q);
    LeadingDigits(b, p, core, q);
    UnhexCore(b, p, core, q);
  }

  lemma DecodedZeros(b: seq<byte>)
    requires forall i :: 0 <= i < |b| ==> b[i] == 0
    ensures Decoded(Hex(b)) == Success(Repeat(HASH, |b|))
  {
    DecodedStem(b, 0, [], |b|);
    NoDigits(Hex(b)[..0], |b|);
  }

  lemma NoDigits(stem: seq<byte>, n: nat)
    requires stem == []
    ensures WithSuffix(Unhex(stem[Leading(stem, DIGIT_ZERO)..]), Repeat(HASH, n)) == Success(Repeat(HASH, n))
  {
    assert stem[Leading(stem, DIGIT_ZERO)..] == [];
    assert [] + Repeat(HASH, n) == Repeat(HASH, n);
  }

  /* ---------- round trips ---------- */

  /** The names that survive encoding followed by decoding. */
  predicate Readable(name: seq<byte>) {
    var m := |name| - Trailing(name, HASH);
    && |name| <= 12
    && (m == 0 ==> |name| == 12)
    && (m > 0 ==> name[0] >= 0x10 && name[m - 1] != 0)
  }

  /** Decode(Encode(name)) gives the name back exactly for readable names, over all strings. */
  lemma DecodeAfterEncodeIff(name: seq<byte>)
    ensures (Encoded(name).Success? && Decoded(Encoded(name).value) == Success(name)) <==> Readable(name)
  {
    if |name| == 24 {
      DecodedIsShort(name);
    } else if |name| <= 12 {
      var m := |name| - Trailing(name, HASH);
      if m == 0 {
        HashesRoundTrip(name);
      } else if name[m - 1] != 0 {
        CoreRoundTrip(name, name[..m]);
      } else {
        LostTrailingZero(name);
      }
    }
  }

  lemma DecodedIsShort(code: seq<byte>)
    ensures Decoded(code).Success? ==> 2 * |Decoded(code).value| <= |code|
  {}

  lemma HashesRoundTrip(name: seq<byte>)
    requires |name| <= 12 && Trailing(name, HASH) == |name|
    ensures Decoded(Hex(Padded(name))) == Success(name) <==> |name| == 12
  {
    DecodedZeros(Padded(name));
    assert |name| == 12 ==> name == Repeat(HASH, 12);
  }

  lemma CoreRoundTrip(name: seq<byte>, core: seq<byte>)
    requires |name| <= 12 && core != [] && core[|core| - 1] != 0
    requires |core| == |name| - Trailing(name, HASH) && core == name[..|core|]
    ensures Decoded(Hex(Padded(name))) == Success(name) <==> core[0] >= 0x10
  {
    var b, q := Padded(name), Trailing(name, HASH);
    DecodedCore(b, 12 - |name|, core, q);
    assert name == core + Repeat(HASH, q);
  }

  /** A name whose last byte before the hashes is zero decodes to one with more hashes. */
  lemma LostTrailingZero(name: seq<byte>)
    requires |name| <= 12
    requires var m := |name| - Trailing(name, HASH); m > 0 && name[m - 1] == 0
    ensures Decoded(Hex(Padded(name))) != Success(name)
  {
    var b := Padded(name);
    var q, t := Trailing(name, HASH), Trailing(b, 0);
    assert b[12 - q - 1] == name[|name| - q - 1] == 0;
    assert t > q;
    DecodedStem(b, 0, b[..12 - t], t);
    var stem := Hex(b)[..2 * (12 - t)];
    EndsInHashes(Unhex(stem[Leading(stem, DIGIT_ZERO)..]), t, q, name);
  }

  lemma EndsInHashes(alias: Result<seq<byte>>, t: nat, q: nat, name: seq<byte>)
    requires q < t && q < |name| && name[|name| - 1 - q] != HASH
    ensures WithSuffix(alias, Repeat(HASH, t)) != Success(name)
  {
    if alias.Success? {
      var value := alias.value + Repeat(HASH, t);
      assert value[|value| - 1 - q] == HASH;
    }
  }

  /** A lower-case hexadecimal digit. */
  predicate LowerDigit(c: byte) {
    0x30 <= c <= 0x39 || 0x61 <= c <= 0x66
  }

  /** The k-th pair of characters is "00". */
  predicate ZeroPair(code: seq<byte>, k: nat)
    requires 2 * k + 1 < |code|
  {
    code[2 * k] == 0x30 && code[2 * k + 1] == 0x30
  }

  /** The k-th pair of 24 characters is the first that is not "00". */
  predicate FirstPair(code: seq<byte>, k: nat)
    requires |code| == 24
  {
    k < 12 && !ZeroPair(code, k) && forall j: nat :: j < k ==> ZeroPair(code, j)
  }

  /** The k-th pair of 24 characters is the last that is not "00". */
  predicate LastPair(code: seq<byte>, k: nat)
    requires |code| == 24
  {
    k < 12 && !ZeroPair(code, k) && forall j: nat :: k < j < 12 ==> ZeroPair(code, j)
  }

  /** The codes that survive decoding followed by encoding: 24 lower-case digits, of which the first pair that is
      not "00" does not begin with '0', and the last such pair is not "23", which stands for '#'. */
  ghost predicate Canonical(code: seq<byte>) {
    && |code| == 24 && (forall i :: 0 <= i < 24 ==> LowerDigit(code[i]))
    && (forall k: nat :: FirstPair(code, k) ==> code[2 * k] != 0x30)
    && (forall k: nat :: LastPair(code, k) ==> !(code[2 * k] == 0x32 && code[2 * k + 1] == 0x33))
  }

  predicate CanonicalBytes(b: seq<byte>) {
    var p, n := Leading(b, 0), |b| - Trailing(b, 0);
    p < n ==> b[p] >= 0x10 && b[n - 1] != HASH
  }

  /** Encode(Decode(code)) gives the code back exactly for canonical codes, over all strings. */
  lemma EncodeAfterDecodeIff(code: seq<byte>)
    ensures (Decoded(code).Success? && Encoded(Decoded(code).value) == Success(code)) <==> Canonical(code)
  {
    if Decoded(code).Success? && Encoded(Decoded(code).value) == Success(code) {
      var name := Decoded(code).value;
      DecodedIsShort(code);
      assert |name| <= 12;
      CanonicalRoundTrip(Padded(name));
      CanonicalHex(Padded(name));
    }
    if Canonical(code) {
      var b := BytesOfCode(code);
      CanonicalHex(b);
      CanonicalRoundTrip(b);
    }
  }

  /** 24 lower-case digits are the digits of 12 bytes. */
  lemma BytesOfCode(code: seq<byte>) returns (b: seq<byte>)
    requires |code| == 24 && forall i :: 0 <= i < 24 ==> LowerDigit(code[i])
    ensures |b| == 12 && Hex(b) == code
  {
    b := seq(12, k requires 0 <= k < 12 => ByteOf(code[2 * k], code[2 * k + 1]));
    forall i | 0 <= i < 24 ensures Hex(b)[i] == code[i] {
      hide Hex;
      HexAt(b, i / 2);
      DigitsBack(code[2 * (i / 2)], code[2 * (i / 2) + 1]);
    }
  }

  function ByteOf(hi: byte, lo: byte): byte
    requires LowerDigit(hi) && LowerDigit(lo)
  {
    16 * HexValue(hi).value + HexValue(lo).value
  }

  lemma DigitsBack(hi: byte, lo: byte)
    requires LowerDigit(hi) && LowerDigit(lo)
    ensures HexDigit(ByteOf(hi, lo) / 16) == hi && HexDigit(ByteOf(hi, lo) % 16) == lo
  {}

  /** The two descriptions of a canonical code agree. */
  lemma CanonicalHex(b: seq<byte>)
    requires |b| == 12
    ensures Canonical(Hex(b)) <==> CanonicalBytes(b)
  {
    var code, p, n := Hex(b), Leading(b, 0), 12 - Trailing(b, 0);
    PairsOf(b);
    hide Hex, Leading, Trailing, LowerDigit, ZeroPair;
    if p < n {
      assert p < 12 && b[p] != 0 && b[n - 1] != 0;
      FirstAndLast(code, b, p, n);
      hide FirstPair, LastPair;
    }
  }

  lemma PairsOf(b: seq<byte>)
    requires |b| == 12
    ensures var code := Hex(b);
            && (forall i :: 0 <= i < 24 ==> LowerDigit(code[i]))
            && (forall k: nat :: k < 12 ==> (ZeroPair(code, k) <==> b[k] == 0))
            && (forall k: nat :: k < 12 ==> (code[2 * k] != 0x30 <==> b[k] >= 0x10))
            && (forall k: nat :: k < 12 ==> (code[2 * k] == 0x32 && code[2 * k + 1] == 0x33 <==> b[k] == HASH))
  {
    var code := Hex(b);
    hide Hex, LowerDigit, ZeroPair;
    forall k: nat | k < 12
      ensures ZeroPair(code, k) <==> b[k] == 0
      ensures code[2 * k] != 0x30 <==> b[k] >= 0x10
      ensures code[2 * k] == 0x32 && code[2 * k + 1] == 0x33 <==> b[k] == HASH
    {
      PairOf(b, k);
    }
    forall i | 0 <= i < 24 ensures LowerDigit(code[i]) {
      PairOf(b, i / 2);
      assert i == 2 * (i / 2) || i == 2 * (i / 2) + 1;
    }
  }

  lemma PairOf(b: seq<byte>, k: nat)
    requires k < |b| == 12
    ensures var code := Hex(b);
            && LowerDigit(code[2 * k]) && LowerDigit(code[2 * k + 1]) && (ZeroPair(code, k) <==> b[k] == 0)
            && (code[2 * k] != 0x30 <==> b[k] >= 0x10)
            && (code[2 * k] == 0x32 && code[2 * k + 1] == 0x33 <==> b[k] == HASH)
  {
    HexAt(b, k);
    DigitsOf(b[k]);
    hide Hex, HexDigit, LowerDigit;
  }

  lemma DigitsOf(b: byte)
    ensures var hi, lo := HexDigit(b / 16), HexDigit(b % 16);
            && LowerDigit(hi) && LowerDigit(lo) && (hi != 0x30 <==> b >= 0x10)
            && (hi == 0x32 && lo == 0x33 <==> b == HASH)
  {}

  /** The pairs that Canonical speaks of are those of the first and the last non-zero byte. */
  lemma FirstAndLast(code: seq<byte>, b: seq<byte>, p: nat, n: nat)
    requires |code| == 24 && |b| == 12 && p < n <= 12 && b[p] != 0 && b[n - 1] != 0
    requires (forall i :: 0 <= i < p ==> b[i] == 0) && (forall i :: n <= i < 12 ==> b[i] == 0)
    requires forall k: nat :: k < 12 ==> (ZeroPair(code, k) <==> b[k] == 0)
    ensures forall k: nat :: FirstPair(code, k) <==> k == p
    ensures forall k: nat :: LastPair(code, k) <==> k == n - 1
  {
    hide ZeroPair;
    assert !ZeroPair(code, p) && !ZeroPair(code, n - 1);
  }

  /** The code of every short name is in lower case. */
  lemma EncodedLowerCase(name: seq<byte>)
    requires |name| <= 12
    ensures Encoded(name).Success? && |Encoded(name).value| == 24
    ensures forall i :: 0 <= i < 24 ==> LowerDigit(Encoded(name).value[i])
  {
    PairsOf(Padded(name));
    hide Padded, Hex, LowerDigit;
  }

  const HEX_DIGITS: seq<byte> :=
    [0x30, 0x31, 0x32, 0x33, 0x34, 0x35, 0x36, 0x37, 0x38, 0x39, 0x61, 0x62, 0x63, 0x64, 0x65, 0x66]

  /** The code of a short name, character by character: zeros, then two digits from "0123456789abcdef" for every byte
      up to the trailing hashes, then zeros for the hashes. */
  lemma EncodedCharacters(name: seq<byte>, hashes: nat)
    requires hashes <= |name| <= 12 && (forall i :: |name| - hashes <= i < |name| ==> name[i] == HASH)
    requires hashes < |name| ==> name[|name| - hashes - 1] != HASH
    ensures Encoded(name).Success? && |Encoded(name).value| == 24
    ensures var code := Encoded(name).value;
            && (forall i :: 0 <= i < |name| - hashes ==>
                  && code[2 * (12 - |name| + i)] == HEX_DIGITS[name[i] / 16]
                  && code[2 * (12 - |name| + i) + 1] == HEX_DIGITS[name[i] % 16])
            && (forall j :: 0 <= j < 2 * (12 - |name|) || 2 * (12 - hashes) <= j < 24 ==> code[j] == 0x30)
  {
    TrailingUnique(name, HASH, hashes);
    var b := Padded(name);
    hide Hex, Padded, Trailing;
    forall i | 0 <= i < |name| - hashes
      ensures Hex(b)[2 * (12 - |name| + i)] == HEX_DIGITS[name[i] / 16]
      ensures Hex(b)[2 * (12 - |name| + i) + 1] == HEX_DIGITS[name[i] % 16]
    {
      HexAt(b, 12 - |name| + i);
      assert b[12 - |name| + i] == name[i];
      DigitIsListed(name[i] / 16);
      DigitIsListed(name[i] % 16);
    }
    forall j | 0 <= j < 2 * (12 - |name|) || 2 * (12 - hashes) <= j < 24 ensures Hex(b)[j] == 0x30 {
      assert b[j / 2] == 0;
      HexAt(b, j / 2);
    }
  }

  const UPPER_DIGITS: seq<byte> :=
    [0x30, 0x31, 0x32, 0x33, 0x34, 0x35, 0x36, 0x37, 0x38, 0x39, 0x41, 0x42, 0x43, 0x44, 0x45, 0x46]

  /** The character stands for n, in either case. */
  predicate DigitOf(c: byte, n: byte) {
    n < 16 && (c == HEX_DIGITS[n] || c == UPPER_DIGITS[n])
  }

  predicate IsDigit(c: byte) {
    c in HEX_DIGITS + UPPER_DIGITS
  }

  lemma DigitValue(c: byte)
    ensures HexValue(c).Some? <==> IsDigit(c)
    ensures HexValue(c).Some? ==> DigitOf(c, HexValue(c).value)
  {
    var all := HEX_DIGITS + UPPER_DIGITS;
    if HexValue(c).Some? {
      var n := HexValue(c).value;
      if c == HEX_DIGITS[n] { assert all[n] == c; } else { assert all[16 + n as int] == c; }
    }
    if c in all {
      var i :| 0 <= i < 32 && all[i] == c;
      assert c == if i < 16 then HEX_DIGITS[i] else UPPER_DIGITS[i - 16];
    }
  }

  lemma SpelledDigits(hi: byte, lo: byte, b: byte)
    requires Spells(hi, lo, b)
    ensures IsDigit(hi) && IsDigit(lo) && DigitOf(hi, b / 16) && DigitOf(lo, b % 16)
  {
    hide DigitOf, IsDigit, HexValue;
    DigitValue(hi);
    DigitValue(lo);
    HalvesOf(HexValue(hi).value, HexValue(lo).value);
  }

  lemma HalvesOf(hi: byte, lo: byte)
    requires hi < 16 && lo < 16
    ensures (16 * hi + lo) / 16 == hi && (16 * hi + lo) % 16 == lo
  {}

  lemma UnhexCharacters(s: seq<byte>)
    ensures Unhex(s).Success? <==> |s| % 2 == 0 && forall i :: 0 <= i < |s| ==> IsDigit(s[i])
    ensures Unhex(s).Success? ==>
              var b := Unhex(s).value;
              forall i :: 0 <= i < |b| ==> DigitOf(s[2 * i], b[i] / 16) && DigitOf(s[2 * i + 1], b[i] % 16)
  {
    hide HexValue, DigitOf, IsDigit, Spells;
    if Unhex(s).Success? {
      var b := Unhex(s).value;
      forall i | 0 <= i < |b|
        ensures IsDigit(s[2 * i]) && IsDigit(s[2 * i + 1])
        ensures DigitOf(s[2 * i], b[i] / 16) && DigitOf(s[2 * i + 1], b[i] % 16)
      {
        SpelledDigits(s[2 * i], s[2 * i + 1], b[i]);
      }
      forall i | 0 <= i < |s| ensures IsDigit(s[i]) {
        assert i == 2 * (i / 2) || i == 2 * (i / 2) + 1;
      }
    } else if |s| % 2 == 0 {
      var i :| 0 <= i < |s| && HexValue(s[i]).None?;
      DigitValue(s[i]);
    }
  }

  /** What a string is decoded to, character by character: z zeros are dropped, q pairs "00" at the end become '#', and
      every other pair of digits becomes a byte; it fails if a character is left over or is not a digit. */
  lemma DecodedCharacters(code: seq<byte>, z: nat, q: nat)
    requires z + 2 * q <= |code| && forall i :: 0 <= i < z || |code| - 2 * q <= i < |code| ==> code[i] == DIGIT_ZERO
    requires z + 2 * q < |code| ==> code[z] != DIGIT_ZERO
    requires var m := |code| - 2 * q; m >= 2 ==> code[m - 2] != DIGIT_ZERO || code[m - 1] != DIGIT_ZERO
    ensures var m := |code| - 2 * q;
            Decoded(code).Success? <==> (m - z) % 2 == 0 && forall i :: z <= i < m ==> IsDigit(code[i])
    ensures Decoded(code).Success? ==>
              var name, n := Decoded(code).value, (|code| - 2 * q - z) / 2;
              && |name| == n + q && (forall i :: n <= i < n + q ==> name[i] == HASH)
              && (forall i :: 0 <= i < n ==>
                    DigitOf(code[z + 2 * i], name[i] / 16) && DigitOf(code[z + 2 * i + 1], name[i] % 16))
  {
    hide DigitOf, IsDigit, Unhex, Decoded;
    var stem := code[..|code| - 2 * q];
    DecodedBy(code, stem, Repeat(HASH, q));
    LeadingUnique(stem, DIGIT_ZERO, z);
    var digits := stem[z..];
    UnhexCharacters(digits);
    assert forall i :: 0 <= i < |digits| ==> digits[i] == code[z + i];
    DigitsWithin(code, digits, z);
  }

  lemma DigitsWithin(code: seq<byte>, digits: seq<byte>, z: nat)
    requires z + |digits| <= |code| && forall i :: 0 <= i < |digits| ==> digits[i] == code[z + i]
    ensures (forall i :: z <= i < z + |digits| ==> IsDigit(code[i]))
            <==> forall i :: 0 <= i < |digits| ==> IsDigit(digits[i])
  {
    hide IsDigit;
    if forall i :: 0 <= i < |digits| ==> IsDigit(digits[i]) {
      forall i | z <= i < z + |digits| ensures IsDigit(code[i]) { assert digits[i - z] == code[i]; }
    }
  }

  lemma DigitIsListed(n: byte)
    requires n < 16
    ensures HexDigit(n) == HEX_DIGITS[n]
  {}

  lemma CanonicalRoundTrip(b: seq<byte>)
    requires |b| == 12
    ensures (Decoded(Hex(b)).Success? && Encoded(Decoded(Hex(b)).value) == Success(Hex(b))) <==> CanonicalBytes(b)
  {
    hide Hex, Decoded, Encoded;
    var p, n := Leading(b, 0), 12 - Trailing(b, 0);
    if p < n {
      CoreCodeRoundTrip(b, p, b[p..n], 12 - n);
    } else {
      ZeroCodeRoundTrip(b);
    }
  }

  lemma CoreCodeRoundTrip(b: seq<byte>, p: nat, core: seq<byte>, q: nat)
    requires LaidOut(b, p, core, q) && core != [] && |b| == 12
    requires core[0] != 0 && core[|core| - 1] != 0
    ensures (Decoded(Hex(b)).Success? && Encoded(Decoded(Hex(b)).value) == Success(Hex(b)))
       <==> core[0] >= 0x10 && core[|core| - 1] != HASH
  {
    DecodedCore(b, p, core, q);
    if core[0] >= 0x10 { PaddedBack(b, p, core, q); }
  }

  lemma ZeroCodeRoundTrip(b: seq<byte>)
    requires |b| == 12 && forall i :: 0 <= i < 12 ==> b[i] == 0
    ensures Decoded(Hex(b)).Success? && Encoded(Decoded(Hex(b)).value) == Success(Hex(b))
  {
    DecodedZeros(b);
    PaddedHashes(b, Repeat(HASH, 12));
  }

  lemma PaddedHashes(b: seq<byte>, name: seq<byte>)
    requires |b| == |name| == 12 && forall i :: 0 <= i < 12 ==> b[i] == 0 && name[i] == HASH
    ensures Padded(name) == b
  {
    TrailingUnique(name, HASH, 12);
  }

  /** Padding core + q hashes gives the same bytes again unless the core itself ends in '#'. */
  lemma PaddedBack(b: seq<byte>, p: nat, core: seq<byte>, q: nat)
    requires LaidOut(b, p, core, q) && core != [] && |b| == 12
    ensures Hex(Padded(core + Repeat(HASH, q))) == Hex(b) <==> core[|core| - 1] != HASH
  {
    var name, n := core + Repeat(HASH, q), p + |core|;
    assert name[|core| - 1] == core[|core| - 1] == b[n - 1];
    if core[|core| - 1] != HASH {
      TrailingUnique(name, HASH, q);
      assert Padded(name) == b;
    } else {
      assert Trailing(name, HASH) > q;
      assert Padded(name)[n - 1] == 0;
      HexAt(b, n - 1);
      HexAt(Padded(name), n - 1);
    }
  }

  /** Every name that can be encoded gets 24 characters, and encoding those again changes nothing. */
  lemma EncodeIdempotent(name: seq<byte>)
    ensures Encoded(name).Success? <==> |name| <= 12 || |name| == 24
    ensures Encoded(name).Success? ==> |Encoded(name).value| == 24 && Encoded(Encoded(name).value) == Encoded(name)
  {}

  /** Two readable names are never stored as the same code. */
  lemma EncodeInjective(a: seq<byte>, b: seq<byte>)
    requires Readable(a) && Readable(b) && Encoded(a) == Encoded(b)
    ensures a == b
  {
    DecodeAfterEncodeIff(a);
    DecodeAfterEncodeIff(b);
  }
}
