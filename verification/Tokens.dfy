/** The format of access and refresh tokens (crates/data-model/src/tokens.rs). A token is the sequence
    of its UTF-8 bytes, written as characters. The CRC-32 checksum is a parameter. */
module Tokens {
  import opened Text

  type u32 = n: nat | n < 0x1_0000_0000

  type Checksum = string -> u32

  datatype TokenType = AccessToken | RefreshToken | CompatAccessToken | CompatRefreshToken | PersonalAccessToken

  datatype FormatError = InvalidFormat | UnknownPrefix(prefix: string) | InvalidCrc(expected: string, got: string)

  // ---------------------------------------------------------------- base 62

  predicate IsAlphanumeric(c: char) { '0' <= c <= '9' || 'A' <= c <= 'Z' || 'a' <= c <= 'z' }

  predicate InAlphabet(s: string) { forall i :: 0 <= i < |s| ==> IsAlphanumeric(s[i]) }

  /** The digits 0-9, A-Z, a-z. */
  function Char62(d: nat): (c: char)
    requires d < 62
    ensures IsAlphanumeric(c)
  {
    if d < 10 then '0' + d as char else if d < 36 then 'A' + (d - 10) as char else 'a' + (d - 36) as char
  }

  lemma Char62Injective(d: nat, e: nat)
    requires d < 62 && e < 62 && Char62(d) == Char62(e)
    ensures d == e
  {
  }

  /** The alphabet in its order: of the 62 alphanumeric characters, each digit has the one in its place. */
  lemma Char62Ascends(d: nat, e: nat)
    requires d < e < 62
    ensures Char62(d) < Char62(e)
  {
  }

  /** The value of an alphanumeric character. */
  function Value62(c: char): nat
    requires IsAlphanumeric(c)
  {
    if c <= '9' then c as nat - '0' as nat
    else if c <= 'Z' then c as nat - 'A' as nat + 10
    else c as nat - 'a' as nat + 36
  }

  /** The number that digits stand for, the first one counting least. */
  function Number62(s: string): nat
    requires InAlphabet(s)
  {
    if s == "" then 0 else Value62(s[0]) + 62 * Number62(s[1..])
  }

  lemma {:induction false} DigitsAreNumber(n: nat)
    ensures InAlphabet(Digits(n)) && Number62(Digits(n)) == n
  {
    DigitsInAlphabet(n);
    if n > 0 {
      DigitsAreNumber(n / 62);
      assert Digits(n)[1..] == Digits(n / 62);
    }
  }

  function Zeros(k: nat): (s: string)
    ensures |s| == k && forall i :: 0 <= i < k ==> s[i] == '0'
  {
    if k == 0 then "" else "0" + Zeros(k - 1)
  }

  lemma {:induction false} ZerosAppend(j: nat, k: nat)
    ensures Zeros(j) + Zeros(k) == Zeros(j + k)
  {
    if j > 0 { ZerosAppend(j - 1, k); }
  }

  /** The digits of a number, least significant first; none for zero. */
  function Digits(n: nat): string {
    if n == 0 then "" else [Char62(n % 62)] + Digits(n / 62)
  }

  function Pad(s: string): string { if |s| < 6 then Zeros(6 - |s|) + s else s }

  function Base62(n: nat): string { Pad(Digits(n)) }

  function Pow62(k: nat): (p: nat)
    ensures p > 0
  {
    if k == 0 then 1 else 62 * Pow62(k - 1)
  }

  lemma {:induction false} DigitCount(n: nat, k: nat)
    requires n < Pow62(k)
    ensures |Digits(n)| <= k
  {
    if n > 0 {
      assert n / 62 < Pow62(k - 1);
      DigitCount(n / 62, k - 1);
    }
  }

  lemma {:induction false} DigitsInAlphabet(n: nat)
    ensures InAlphabet(Digits(n))
  {
    if n > 0 { DigitsInAlphabet(n / 62); }
  }

  lemma SixDigitsSuffice()
    ensures 0x1_0000_0000 <= Pow62(6)
  {
    assert Pow62(1) == 62 && Pow62(2) == 3844 && Pow62(3) == 238328;
    assert Pow62(4) == 14776336 && Pow62(5) == 916132832;
  }

  /** Every 32-bit number prints as exactly six characters of the alphabet, since 2^32 <= 62^6. */
  lemma SixCharacters(n: u32)
    ensures |Base62(n)| == 6 && InAlphabet(Base62(n)) && '_' !in Base62(n)
  {
    SixDigitsSuffice();
    DigitCount(n, 6);
    DigitsInAlphabet(n);
    hide Digits;
  }

  /** The digits determine the number. */
  lemma {:induction false} DigitsInjective(m: nat, n: nat)
    requires Digits(m) == Digits(n)
    ensures m == n
  {
    if m > 0 && n > 0 {
      assert Char62(m % 62) == Digits(m)[0] == Digits(n)[0] == Char62(n % 62);
      Char62Injective(m % 62, n % 62);
      assert Digits(m)[1..] == Digits(m / 62) && Digits(n)[1..] == Digits(n / 62);
      DigitsInjective(m / 62, n / 62);
    }
  }

  /** The number without its factors of 62. */
  function Reduced(n: nat): (r: nat)
    ensures r <= n && (n > 0 ==> r > 0 && r % 62 != 0)
  {
    if n > 0 && n % 62 == 0 then Reduced(n / 62) else n
  }

  lemma {:induction false} DigitsOfReduced(n: nat)
    ensures |Digits(Reduced(n))| <= |Digits(n)|
    ensures Digits(n) == Zeros(|Digits(n)| - |Digits(Reduced(n))|) + Digits(Reduced(n))
  {
    if n > 0 && n % 62 == 0 {
      DigitsOfReduced(n / 62);
      var k := |Digits(n / 62)| - |Digits(Reduced(n))|;
      assert Digits(n) == "0" + Digits(n / 62) == "0" + (Zeros(k) + Digits(Reduced(n)));
      assert "0" + Zeros(k) == Zeros(k + 1);
    }
  }

  lemma PadZeros(k: nat, s: string)
    requires k + |s| <= 6
    ensures Pad(Zeros(k) + s) == Pad(s)
  {
    PadIsZeros(s);
    PadIsZeros(Zeros(k) + s);
    ZerosAppend(6 - k - |s|, k);
    Associative(Zeros(6 - k - |s|), Zeros(k), s);
  }

  lemma Associative(a: string, b: string, c: string)
    ensures a + (b + c) == (a + b) + c
  {
  }

  lemma PadIsZeros(s: string)
    requires |s| <= 6
    ensures Pad(s) == Zeros(6 - |s|) + s
  {
    assert Zeros(0) + s == s;
  }

  lemma PaddedReduced(m: nat, n: nat)
    requires m < Pow62(6) && n < Pow62(6) && Reduced(m) == m && Reduced(n) == n && Base62(m) == Base62(n)
    ensures m == n
  {
    DigitCount(m, 6);
    DigitCount(n, 6);
    var a, b := Digits(m), Digits(n);
    FirstDigit(m);
    FirstDigit(n);
    PadKeepsText(a, b);
    DigitsInjective(m, n);
  }

  lemma PadKeepsText(a: string, b: string)
    requires |a| <= 6 && |b| <= 6 && (a != "" ==> a[0] != '0') && (b != "" ==> b[0] != '0')
    ensures Pad(a) == Pad(b) ==> a == b
  {
    assert Pad(a)[6 - |a|..] == a && Pad(b)[6 - |b|..] == b;
    assert |a| < |b| ==> Pad(a)[6 - |b|] == '0' && Pad(b)[6 - |b|] == b[0];
    assert |b| < |a| ==> Pad(b)[6 - |a|] == '0' && Pad(a)[6 - |a|] == a[0];
  }

  lemma FirstDigit(n: nat)
    requires Reduced(n) == n
    ensures Digits(n) != "" ==> Digits(n)[0] != '0'
  {
    if n > 0 && Digits(n)[0] == '0' {
      assert Char62(0) == '0';
      Char62Injective(n % 62, 0);
    }
  }

  /** Two numbers print alike exactly when they differ by factors of 62 only: the digits come least
      significant first and the padding goes in front of them. */
  lemma CollisionIff(m: u32, n: u32)
    ensures Base62(m) == Base62(n) <==> Reduced(m) == Reduced(n)
  {
    SixDigitsSuffice();
    hide Base62, Pow62, Reduced;
    PrintsReduced(m);
    PrintsReduced(n);
    ReducedTwice(m);
    ReducedTwice(n);
    if Base62(m) == Base62(n) {
      PaddedReduced(Reduced(m), Reduced(n));
    }
  }

  lemma PrintsReduced(k: nat)
    requires k < Pow62(6)
    ensures Base62(k) == Base62(Reduced(k))
  {
    hide Pad, Reduced, Pow62;
    DigitCount(k, 6);
    DigitsOfReduced(k);
    hide Digits;
    PadZeros(|Digits(k)| - |Digits(Reduced(k))|, Digits(Reduced(k)));
  }

  lemma ReducedTwice(n: nat)
    ensures Reduced(Reduced(n)) == Reduced(n)
  {
  }

  /** So 1 and 62^5 print alike. */
  lemma OneCollides()
    ensures Base62(1) == Base62(916132832) == "000001"
  {
    assert Reduced(916132832) == Reduced(14776336) == Reduced(238328) == Reduced(3844) == Reduced(62) == Reduced(1);
    CollisionIff(1, 916132832);
    assert Digits(0) == "";
    assert Digits(1) == ['1'];
    assert Zeros(0) == "" && Zeros(1) == "0" && Zeros(2) == "00" && Zeros(3) == "000" && Zeros(4) == "0000";
    assert Zeros(5) == "00000";
  }

  /** `base62_encode`. */
  method Base62Encode(n: u32) returns (s: string)
    ensures s == Base62(n) && |s| == 6 && InAlphabet(s)
  {
    var num, res := n, "";
    while num > 0
      invariant res + Digits(num) == Digits(n)
    {
      assert res + Digits(num) == res + [Char62(num % 62)] + Digits(num / 62);
      res := res + [Char62(num % 62)];
      num := num / 62;
    }
    assert res == Digits(n);
    SixCharacters(n);
    s := Pad(res);
  }

  // ---------------------------------------------------------------- macaroons

  /** The value of a base64url character (section 5 of RFC 4648). */
  function Sextet(c: char): Option<nat> {
    if 'A' <= c <= 'Z' then Some(c as nat - 'A' as nat)
    else if 'a' <= c <= 'z' then Some(c as nat - 'a' as nat + 26)
    else if '0' <= c <= '9' then Some(c as nat - '0' as nat + 52)
    else if c == '-' then Some(62)
    else if c == '_' then Some(63)
    else None
  }

  // Three bytes are four sextets, and back.

  function FirstSextet(x: nat): nat { x / 4 }

  function SecondSextet(x: nat, y: nat): nat { x % 4 * 16 + y / 16 }

  function ThirdSextet(y: nat, z: nat): nat { y % 16 * 4 + z / 64 }

  function FourthSextet(z: nat): nat { z % 64 }

  function FirstByte(a: nat, b: nat): nat { a * 4 + b / 16 }

  function SecondByte(b: nat, c: nat): nat { b % 16 * 16 + c / 4 }

  function ThirdByte(c: nat, d: nat): nat { c % 4 * 64 + d }

  lemma Parts4(q: nat, r: nat)
    requires r < 4
    ensures (q * 4 + r) / 4 == q && (q * 4 + r) % 4 == r
  {
  }

  lemma Parts16(q: nat, r: nat)
    requires r < 16
    ensures (q * 16 + r) / 16 == q && (q * 16 + r) % 16 == r
  {
  }

  lemma Parts64(q: nat, r: nat)
    requires r < 64
    ensures (q * 64 + r) / 64 == q && (q * 64 + r) % 64 == r
  {
  }

  lemma BytesOfSextets(x: nat, y: nat, z: nat)
    requires x < 256 && y < 256 && z < 256
    ensures FirstSextet(x) < 64 && SecondSextet(x, y) < 64 && ThirdSextet(y, z) < 64 && FourthSextet(z) < 64
    ensures FirstByte(FirstSextet(x), SecondSextet(x, y)) == x
    ensures SecondByte(SecondSextet(x, y), ThirdSextet(y, z)) == y
    ensures ThirdByte(ThirdSextet(y, z), FourthSextet(z)) == z
    ensures SecondSextet(x, 0) % 16 == 0 && ThirdSextet(y, 0) % 4 == 0
  {
    hide FirstByte, SecondByte, ThirdByte, SecondSextet, ThirdSextet;
    Second(x, y);
    Second(x, 0);
    Third(y, z);
    Third(y, 0);
    FirstBack(FirstSextet(x), SecondSextet(x, y), x);
    SecondBack(SecondSextet(x, y), ThirdSextet(y, z), y);
    ThirdBack(ThirdSextet(y, z), FourthSextet(z), z);
  }

  lemma Second(x: nat, y: nat)
    requires y < 256
    ensures SecondSextet(x, y) < 64 && SecondSextet(x, y) / 16 == x % 4 && SecondSextet(x, y) % 16 == y / 16
  {
    Parts16(x % 4, y / 16);
  }

  lemma Third(y: nat, z: nat)
    requires z < 256
    ensures ThirdSextet(y, z) < 64 && ThirdSextet(y, z) / 4 == y % 16 && ThirdSextet(y, z) % 4 == z / 64
  {
    Parts4(y % 16, z / 64);
  }

  lemma FirstBack(a: nat, b: nat, x: nat)
    requires a == x / 4 && b / 16 == x % 4
    ensures FirstByte(a, b) == x
  {
  }

  lemma SecondBack(b: nat, c: nat, y: nat)
    requires b % 16 == y / 16 && c / 4 == y % 16
    ensures SecondByte(b, c) == y
  {
  }

  lemma ThirdBack(c: nat, d: nat, z: nat)
    requires c % 4 == z / 64 && d == z % 64
    ensures ThirdByte(c, d) == z
  {
  }

  lemma SextetsOfBytes(a: nat, b: nat, c: nat, d: nat)
    requires a < 64 && b < 64 && c < 64 && d < 64
    ensures FirstByte(a, b) < 256 && SecondByte(b, c) < 256 && ThirdByte(c, d) < 256
    ensures FirstSextet(FirstByte(a, b)) == a
    ensures SecondSextet(FirstByte(a, b), SecondByte(b, c)) == b
    ensures ThirdSextet(SecondByte(b, c), ThirdByte(c, d)) == c
    ensures FourthSextet(ThirdByte(c, d)) == d
    ensures b % 16 == 0 ==> SecondSextet(FirstByte(a, b), 0) == b
    ensures c % 4 == 0 ==> ThirdSextet(SecondByte(b, c), 0) == c
  {
    Parts4(a, b / 16);
    Parts16(b % 16, c / 4);
    Parts64(c % 4, d);
  }

  /** Decoding unpadded base64url: no stray last character, and no stray bits in it. */
  function Decode64(s: string): Option<seq<nat>> {
    if s == "" then Some([])
    else if |s| == 1 then None
    else if Sextet(s[0]).None? || Sextet(s[1]).None? then None
    else
      var a, b := Sextet(s[0]).value, Sextet(s[1]).value;
      if |s| == 2 then (if b % 16 == 0 then Some([FirstByte(a, b)]) else None)
      else if Sextet(s[2]).None? then None
      else
        var c := Sextet(s[2]).value;
        if |s| == 3 then (if c % 4 == 0 then Some([FirstByte(a, b), SecondByte(b, c)]) else None)
        else if Sextet(s[3]).None? then None
        else
          match Decode64(s[4..])
          case None => None
          case Some(rest) => Some([FirstByte(a, b), SecondByte(b, c), ThirdByte(c, Sextet(s[3]).value)] + rest)
  }

  /** The bytes of "location ". */
  const LOCATION: seq<nat> := [108, 111, 99, 97, 116, 105, 111, 110, 32]

  predicate IsMacaroon(token: string) {
    var decoded := Decode64(token);
    decoded.Some? && |decoded.value| >= 13 && decoded.value[4..13] == LOCATION
  }

  /** The character of a sextet. */
  function Char64(v: nat): char {
    if v < 26 then 'A' + v as char
    else if v < 52 then 'a' + (v - 26) as char
    else if v < 62 then '0' + (v - 52) as char
    else if v == 62 then '-' else '_'
  }

  lemma SextetOfChar(v: nat)
    requires v < 64
    ensures Sextet(Char64(v)) == Some(v)
  {
  }

  lemma CharOfSextet(c: char)
    requires Sextet(c).Some?
    ensures Sextet(c).value < 64 && Char64(Sextet(c).value) == c
  {
  }

  predicate AreBytes(b: seq<nat>) { forall i :: 0 <= i < |b| ==> b[i] < 256 }

  /** Unpadded base64url, three bytes at a time. */
  function Encode64(b: seq<nat>): string
    requires AreBytes(b)
  {
    if b == [] then ""
    else if |b| == 1 then [Char64(FirstSextet(b[0])), Char64(SecondSextet(b[0], 0))]
    else if |b| == 2 then [Char64(FirstSextet(b[0])), Char64(SecondSextet(b[0], b[1])), Char64(ThirdSextet(b[1], 0))]
    else
      [Char64(FirstSextet(b[0])), Char64(SecondSextet(b[0], b[1])),
       Char64(ThirdSextet(b[1], b[2])), Char64(FourthSextet(b[2]))] + Encode64(b[3..])
  }

  lemma {:induction false} DecodeUndoesEncode(b: seq<nat>)
    requires AreBytes(b)
    ensures Decode64(Encode64(b)) == Some(b)
    decreases |b|
  {
    if |b| > 2 {
      DecodeUndoesEncode(b[3..]);
      hide Decode64, Encode64;
      GroupDecodes(b);
    } else if b != [] {
      hide Decode64, Encode64;
      EndDecodes(b);
    }
  }

  lemma GroupDecodes(b: seq<nat>)
    requires AreBytes(b) && |b| > 2 && Decode64(Encode64(b[3..])) == Some(b[3..])
    ensures Decode64(Encode64(b)) == Some(b)
  {
    hide Sextet, Char64, FirstSextet, SecondSextet, ThirdSextet, FourthSextet;
    hide FirstByte, SecondByte, ThirdByte, Encode64;
    BytesOfSextets(b[0], b[1], b[2]);
    SextetOfChar(FirstSextet(b[0]));
    SextetOfChar(SecondSextet(b[0], b[1]));
    SextetOfChar(ThirdSextet(b[1], b[2]));
    SextetOfChar(FourthSextet(b[2]));
    FourCharacters(b);
    var s := Encode64(b);
    assert Decode64(s) == Some([b[0], b[1], b[2]] + b[3..]);
    assert b == [b[0], b[1], b[2]] + b[3..];
  }

  lemma EndDecodes(b: seq<nat>)
    requires AreBytes(b) && 0 < |b| < 3
    ensures Decode64(Encode64(b)) == Some(b)
  {
    hide Sextet, Char64, FirstSextet, SecondSextet, ThirdSextet, FourthSextet, FirstByte, SecondByte, ThirdByte;
    var y := if |b| > 1 then b[1] else 0;
    BytesOfSextets(b[0], y, 0);
    SextetOfChar(FirstSextet(b[0]));
    SextetOfChar(SecondSextet(b[0], y));
    SextetOfChar(ThirdSextet(y, 0));
    assert b == if |b| == 1 then [b[0]] else [b[0], b[1]];
  }

  lemma FourCharacters(b: seq<nat>)
    requires AreBytes(b) && |b| > 2
    ensures var s := Encode64(b);
      && |s| >= 4 && s[0] == Char64(FirstSextet(b[0])) && s[1] == Char64(SecondSextet(b[0], b[1]))
      && s[2] == Char64(ThirdSextet(b[1], b[2])) && s[3] == Char64(FourthSextet(b[2]))
      && s[4..] == Encode64(b[3..])
  {
    hide Char64, FirstSextet, SecondSextet, ThirdSextet, FourthSextet;
  }

  lemma {:induction false} EncodeUndoesDecode(s: string)
    requires Decode64(s).Some?
    ensures AreBytes(Decode64(s).value) && Encode64(Decode64(s).value) == s
    decreases |s|
  {
    hide Sextet, Char64, FirstSextet, SecondSextet, ThirdSextet, FourthSextet, FirstByte, SecondByte, ThirdByte;
    if s != "" {
      CharOfSextet(s[0]);
      CharOfSextet(s[1]);
      if |s| > 2 { CharOfSextet(s[2]); }
      if |s| > 3 { CharOfSextet(s[3]); }
      var c := if |s| > 2 then Sextet(s[2]).value else 0;
      var d := if |s| > 3 then Sextet(s[3]).value else 0;
      SextetsOfBytes(Sextet(s[0]).value, Sextet(s[1]).value, c, d);
      if |s| > 3 {
        EncodeUndoesDecode(s[4..]);
        assert Decode64(s).value[3..] == Decode64(s[4..]).value;
        assert s == [s[0], s[1], s[2], s[3]] + s[4..];
      }
    }
  }

  /** The bytes from the fifth on say "location ". */
  predicate HasLocation(b: seq<nat>) {
    |b| >= 13 && forall i :: 0 <= i < 9 ==> b[4 + i] == "location "[i] as nat
  }

  lemma LocationBytes(b: seq<nat>)
    requires |b| >= 13
    ensures HasLocation(b) <==> b[4..13] == LOCATION
  {
    var text := "location ";
    assert text[0] as nat == 108 && text[1] as nat == 111 && text[2] as nat == 99 && text[3] as nat == 97;
    assert text[4] as nat == 116 && text[5] as nat == 105 && text[6] as nat == 111 && text[7] as nat == 110;
    assert text[8] as nat == 32;
    assert forall i :: 0 <= i < 9 ==> text[i] as nat == LOCATION[i];
    if HasLocation(b) {
      assert forall i :: 0 <= i < 9 ==> b[4..13][i] == b[4 + i] == LOCATION[i];
    }
    if b[4..13] == LOCATION {
      assert forall i :: 0 <= i < 9 ==> b[4 + i] == b[4..13][i];
    }
  }

  predicate Encodes(b: seq<nat>, text: string) { AreBytes(b) && Encode64(b) == text }

  /** Texts from all parts of the alphabet. */
  lemma Encode64Example()
    ensures Encodes([0, 0, 0], "AAAA") && Encodes([105, 183, 29], "abcd") && Encodes([215, 109, 248], "1234")
    ensures Encodes([101, 149, 251], "ZZX7") && Encodes([251, 255], "-_8")
  {
    hide Encode64, AreBytes;
    OneGroup(0, 0, 0);
    OneGroup(105, 183, 29);
    OneGroup(215, 109, 248);
    OneGroup(101, 149, 251);
    TwoBytes(251, 255);
  }

  lemma OneGroup(x: nat, y: nat, z: nat)
    requires x < 256 && y < 256 && z < 256
    ensures AreBytes([x, y, z])
    ensures Encode64([x, y, z])
         == [Char64(x / 4), Char64(x % 4 * 16 + y / 16), Char64(y % 16 * 4 + z / 64), Char64(z % 64)]
  {
    hide Char64;
    assert [x, y, z][3..] == [] && Encode64([]) == "";
  }

  lemma TwoBytes(x: nat, y: nat)
    requires x < 256 && y < 256
    ensures AreBytes([x, y])
    ensures Encode64([x, y]) == [Char64(x / 4), Char64(x % 4 * 16 + y / 16), Char64(y % 16 * 4)]
  {
    hide Char64;
  }

  /** What is taken for a macaroon is exactly the base64url text of some bytes with "location " at
      offset 4. */
  lemma MacaroonIff(token: string)
    ensures IsMacaroon(token) <==>
      exists b :: AreBytes(b) && token == Encode64(b) && HasLocation(b)
  {
    forall b: seq<nat> | |b| >= 13 ensures HasLocation(b) <==> b[4..13] == LOCATION {
      LocationBytes(b);
    }
    hide Decode64, Encode64, HasLocation;
    if IsMacaroon(token) {
      EncodeUndoesDecode(token);
    }
    forall b | AreBytes(b) && token == Encode64(b) ensures Decode64(token) == Some(b) {
      DecodeUndoesEncode(b);
    }
  }

  /** No base64 text has a length of 1 modulo 4. */
  lemma StrayCharacter(s: string)
    requires |s| % 4 == 1
    ensures Decode64(s).None?
  {
    StrayAfter(s, |s| / 4);
  }

  lemma {:induction false} StrayAfter(s: string, groups: nat)
    requires |s| == 4 * groups + 1
    ensures Decode64(s).None?
    decreases groups
  {
    hide Sextet, FirstByte, SecondByte, ThirdByte;
    if groups > 0 { StrayAfter(s[4..], groups - 1); }
  }

  // ---------------------------------------------------------------- generating and checking

  function Prefix(t: TokenType): (p: string)
    ensures |p| == 3 && '_' !in p
  {
    match t
    case AccessToken => "mat"
    case RefreshToken => "mar"
    case CompatAccessToken => "mct"
    case CompatRefreshToken => "mcr"
    case PersonalAccessToken => "mpt"
  }

  function MatchPrefix(p: string): Option<TokenType> {
    if p == "mat" then Some(AccessToken)
    else if p == "mar" then Some(RefreshToken)
    else if p == "mct" || p == "syt" then Some(CompatAccessToken)
    else if p == "mcr" || p == "syr" then Some(CompatRefreshToken)
    else if p == "mpt" then Some(PersonalAccessToken)
    else None
  }

  function Generate(crc: Checksum, t: TokenType, random: string): string {
    var base := Prefix(t) + "_" + random;
    base + "_" + Base62(crc(base))
  }

  function Check(crc: Checksum, token: string): Result<TokenType, FormatError> {
    if "syt_" <= token || IsMacaroon(token) then Ok(CompatAccessToken)
    else if "syr_" <= token then Ok(CompatRefreshToken)
    else
      var split := Split(token, '_');
      if |split| != 3 then Err(InvalidFormat)
      else if |split[0]| != 3 || |split[1]| != 30 || |split[2]| != 6 then Err(InvalidFormat)
      else
        match MatchPrefix(split[0])
        case None => Err(UnknownPrefix(split[0]))
        case Some(t) =>
          var expected := Base62(crc(Prefix(t) + "_" + split[1]));
          if split[2] != expected then Err(InvalidCrc(expected, split[2])) else Ok(t)
  }

  /** A random part: 30 bytes, none an underscore. */
  predicate IsRandomPart(r: string) { |r| == 30 && '_' !in r }

  lemma GeneratedParts(crc: Checksum, t: TokenType, r: string)
    requires '_' !in r
    ensures Split(Generate(crc, t, r), '_') == [Prefix(t), r, Base62(crc(Prefix(t) + "_" + r))]
    ensures |Generate(crc, t, r)| == 11 + |r|
  {
    var c := Base62(crc(Prefix(t) + "_" + r));
    SixCharacters(crc(Prefix(t) + "_" + r));
    JoinOfThree(Prefix(t), r, c);
    assert Generate(crc, t, r) == Join([Prefix(t), r, c], ['_']);
    SplitUndoesJoin([Prefix(t), r, c], '_');
  }

  /** How a token of each type begins, and that it ends in the checksum of what comes before. */
  lemma GeneratedText(crc: Checksum, r: string, t: TokenType)
    requires '_' !in r
    ensures "mat_" + r + "_" <= Generate(crc, AccessToken, r)
    ensures "mar_" + r + "_" <= Generate(crc, RefreshToken, r)
    ensures "mct_" + r + "_" <= Generate(crc, CompatAccessToken, r)
    ensures "mcr_" + r + "_" <= Generate(crc, CompatRefreshToken, r)
    ensures "mpt_" + r + "_" <= Generate(crc, PersonalAccessToken, r)
    ensures var token := Generate(crc, t, r);
      |token| == 11 + |r| && token[4 + |r|..] == "_" + Base62(crc(token[..4 + |r|]))
  {
    GeneratedParts(crc, t, r);
    hide Base62;
    assert "mat" + "_" == "mat_" && "mar" + "_" == "mar_" && "mct" + "_" == "mct_" && "mcr" + "_" == "mcr_";
    assert "mpt" + "_" == "mpt_";
    var base := Prefix(t) + "_" + r;
    assert Generate(crc, t, r) == base + ("_" + Base62(crc(base)));
  }

  lemma JoinOfThree(a: string, b: string, c: string)
    ensures Join([a, b, c], "_") == a + "_" + b + "_" + c
  {
    assert [a, b, c][1..] == [b, c] && [b, c][1..] == [c];
    assert Join([c], "_") == c && Join([b, c], "_") == b + "_" + c;
    assert Join([a, b, c], "_") == a + "_" + Join([b, c], "_");
    assert a + "_" + (b + "_" + c) == a + "_" + b + "_" + c;
  }

  lemma GeneratedIsNotLegacy(crc: Checksum, t: TokenType, r: string)
    requires IsRandomPart(r)
    ensures var token := Generate(crc, t, r); !("syt_" <= token) && !("syr_" <= token) && !IsMacaroon(token)
  {
    var token := Generate(crc, t, r);
    GeneratedParts(crc, t, r);
    assert token[0] == Prefix(t)[0] == 'm';
    DifferentStart("syt_", token);
    DifferentStart("syr_", token);
    StrayCharacter(token);
  }

  lemma DifferentStart(p: string, s: string)
    requires p != "" && s != "" && p[0] != s[0]
    ensures !(p <= s)
  {
  }

  /** What is generated is accepted as what it was generated for. */
  lemma GeneratedIsAccepted(crc: Checksum, t: TokenType, r: string)
    requires IsRandomPart(r)
    ensures Check(crc, Generate(crc, t, r)) == Ok(t)
  {
    GeneratedParts(crc, t, r);
    GeneratedIsNotLegacy(crc, t, r);
  }

  /** The tokens imported from Synapse, which are taken as they are. */
  predicate IsLegacy(token: string, t: TokenType) {
    || (t == CompatAccessToken && ("syt_" <= token || IsMacaroon(token)))
    || (t == CompatRefreshToken && "syr_" <= token && !IsMacaroon(token))
  }

  /** The accepted strings are the legacy ones and, for each type and random part, the one
      generated token. */
  lemma AcceptedIff(crc: Checksum, token: string, t: TokenType)
    ensures Check(crc, token) == Ok(t)
       <==> IsLegacy(token, t) || exists r :: IsRandomPart(r) && token == Generate(crc, t, r)
  {
    hide Generate, Check, IsRandomPart;
    if r :| IsRandomPart(r) && token == Generate(crc, t, r) {
      GeneratedIsAccepted(crc, t, r);
    }
    if IsLegacy(token, t) {
      LegacyIsAccepted(crc, token, t);
    } else if Check(crc, token) == Ok(t) {
      AcceptedIsGenerated(crc, token, t);
    }
  }

  lemma LegacyIsAccepted(crc: Checksum, token: string, t: TokenType)
    requires IsLegacy(token, t)
    ensures Check(crc, token) == Ok(t)
  {
    hide IsMacaroon, Base62;
    NotBoth(token);
  }

  lemma NotBoth(token: string)
    ensures !("syt_" <= token && "syr_" <= token)
  {
    assert "syt_"[2] != "syr_"[2];
  }

  lemma AcceptedIsGenerated(crc: Checksum, token: string, t: TokenType)
    requires Check(crc, token) == Ok(t) && !IsLegacy(token, t)
    ensures |Split(token, '_')| == 3
    ensures IsRandomPart(Split(token, '_')[1]) && token == Generate(crc, t, Split(token, '_')[1])
  {
    hide IsMacaroon, Base62, Split;
    ThreeParts(token);
    CanonicalPrefix(token);
  }

  /** Off the legacy path a matched prefix is always the canonical one of its type. */
  lemma CanonicalPrefix(token: string)
    requires !("syt_" <= token) && !("syr_" <= token) && |Split(token, '_')| >= 2
    ensures MatchPrefix(Split(token, '_')[0]).Some? ==>
      Split(token, '_')[0] == Prefix(MatchPrefix(Split(token, '_')[0]).value)
  {
    var split := Split(token, '_');
    assert token == split[0] + "_" + Join(split[1..], "_");
    assert split[0] + "_" <= token;
  }

  /** A token has one type and one random part. */
  lemma GenerateIsInjective(crc: Checksum, t: TokenType, r: string, u: TokenType, q: string)
    requires '_' !in r && '_' !in q && Generate(crc, t, r) == Generate(crc, u, q)
    ensures t == u && r == q
  {
    GeneratedParts(crc, t, r);
    GeneratedParts(crc, u, q);
    assert Split(Generate(crc, t, r), '_')[0] == Prefix(u);
    assert Split(Generate(crc, t, r), '_')[1] == q;
  }

  predicate Shaped(token: string) {
    var split := Split(token, '_');
    |split| == 3 && |split[0]| == 3 && |split[1]| == 30 && |split[2]| == 6
  }

  /** Which error is reported for a token that is neither legacy nor generated. */
  lemma RejectedIff(crc: Checksum, token: string)
    requires forall t :: !IsLegacy(token, t)
    ensures Check(crc, token) == Err(InvalidFormat) <==> !Shaped(token)
    ensures (exists p :: Check(crc, token) == Err(UnknownPrefix(p)))
       <==> Shaped(token) && forall t :: !(Prefix(t) + "_" <= token)
    ensures (exists e, g :: Check(crc, token) == Err(InvalidCrc(e, g)))
       <==> Shaped(token) && exists t :: Prefix(t) + "_" <= token && token != Generate(crc, t, Split(token, '_')[1])
  {
    assert !IsLegacy(token, CompatAccessToken) && !IsLegacy(token, CompatRefreshToken);
    hide Base62, Generate, IsMacaroon, Prefix, MatchPrefix;
    if Shaped(token) {
      var split := Split(token, '_');
      ThreeParts(token);
      ShapedPrefix(token);
      forall t | split[0] == Prefix(t)
        ensures token == Generate(crc, t, split[1]) <==> split[2] == Base62(crc(Prefix(t) + "_" + split[1]))
      {
        GeneratedEnding(crc, t, split[1], split[2]);
      }
    }
  }

  /** What the errors report: the prefix found; the checksum of what comes before it, and the one found. */
  lemma ErrorsReport(crc: Checksum, token: string)
    requires forall t :: !IsLegacy(token, t)
    ensures Check(crc, token).Err? && Check(crc, token) != Err(InvalidFormat) ==> Shaped(token)
    ensures var split := Split(token, '_'); Shaped(token) ==>
      && (Check(crc, token).Err? && Check(crc, token).error.UnknownPrefix? ==>
            Check(crc, token).error.prefix == split[0])
      && (Check(crc, token).Err? && Check(crc, token).error.InvalidCrc? ==>
            && Check(crc, token).error.expected == Base62(crc(split[0] + "_" + split[1]))
            && Check(crc, token).error.got == split[2])
  {
    assert !IsLegacy(token, CompatAccessToken) && !IsLegacy(token, CompatRefreshToken);
    hide Base62, IsMacaroon, Prefix, MatchPrefix, Split;
    if Shaped(token) {
      CanonicalPrefix(token);
    }
  }

  lemma ThreeParts(token: string)
    requires |Split(token, '_')| == 3
    ensures var split := Split(token, '_'); token == split[0] + "_" + split[1] + "_" + split[2]
  {
    var split := Split(token, '_');
    JoinOfThree(split[0], split[1], split[2]);
    assert split == [split[0], split[1], split[2]];
  }

  lemma ShapedPrefix(token: string)
    requires Shaped(token) && !("syt_" <= token) && !("syr_" <= token)
    ensures forall t :: Prefix(t) + "_" <= token <==> Split(token, '_')[0] == Prefix(t)
    ensures forall t :: Split(token, '_')[0] == Prefix(t) <==> MatchPrefix(Split(token, '_')[0]) == Some(t)
  {
    ThreeParts(token);
    CanonicalPrefix(token);
    var p := Split(token, '_')[0];
    forall t ensures Prefix(t) + "_" <= token <==> p == Prefix(t) {
      assert token[..3] == p && token[3] == '_';
      assert (Prefix(t) + "_")[..3] == Prefix(t);
    }
  }

  lemma GeneratedEnding(crc: Checksum, t: TokenType, r: string, c: string)
    ensures Prefix(t) + "_" + r + "_" + c == Generate(crc, t, r) <==> c == Base62(crc(Prefix(t) + "_" + r))
  {
    hide Base62;
    SameEnding(Prefix(t) + "_" + r + "_", c, Base62(crc(Prefix(t) + "_" + r)));
  }

  lemma SameEnding(a: string, b: string, c: string)
    ensures a + b == a + c <==> b == c
  {
    assert (a + b)[|a|..] == b && (a + c)[|a|..] == c;
  }
}
