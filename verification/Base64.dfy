/** Unpadded base64 and the host key fingerprint, from `src/core/pspssh.c`.
  *
  * The reference reads RFC 4648 section 4 as it is written: the bytes are one string of
  * bits, cut into groups of six from the left, with zeros added to fill the last group.
  */
module Base64 {
  import opened Bytes
  import opened Text

  function Letter(v: int): (c: byte)
    requires 0 <= v < 64
    ensures c != NUL && c != TAB && c != LF && c != CR
  {
    if v < 26 then 'A' as int + v
    else if v < 52 then 'a' as int + (v - 26)
    else if v < 62 then '0' as int + (v - 52)
    else if v == 62 then '+' as int
    else '/' as int
  }

  /** Table 1 of RFC 4648, by character code: upper case, lower case, digits, `+` and `/`. */
  function TableOne(v: int): int
    requires 0 <= v < 64
  {
    if v <= 25 then 65 + v else if v <= 51 then 97 + (v - 26) else if v <= 61 then 48 + (v - 52)
    else if v == 62 then 43 else 47
  }

  lemma LetterTable(v: int)
    requires 0 <= v < 64
    ensures Letter(v) == TableOne(v)
  {
  }

  /** The number a letter stands for, or -1. */
  function LetterValue(c: byte): (v: int)
    ensures -1 <= v < 64
  {
    if 'A' as int <= c <= 'Z' as int then c - 'A' as int
    else if 'a' as int <= c <= 'z' as int then c - 'a' as int + 26
    else if '0' as int <= c <= '9' as int then c - '0' as int + 52
    else if c == '+' as int then 62
    else if c == '/' as int then 63
    else -1
  }

  lemma LetterRoundTrip(v: int)
    requires 0 <= v < 64
    ensures LetterValue(Letter(v)) == v
  {
  }

  // ---------------------------------------------------------------- binary --

  type bit = x: int | 0 <= x < 2

  /** The last `n` binary digits of `v`, most significant first. */
  function Binary(v: nat, n: nat): (bits: seq<bit>)
    ensures |bits| == n
  {
    if n == 0 then [] else Binary(v / 2, n - 1) + [v % 2]
  }

  /** The number some binary digits spell. */
  function Spell(bits: seq<bit>): nat {
    if bits == [] then 0 else Spell(bits[..|bits| - 1]) * 2 + bits[|bits| - 1]
  }

  function Pow2(n: nat): (p: nat)
    ensures p > 0
  {
    if n == 0 then 1 else 2 * Pow2(n - 1)
  }

  lemma {:induction false} BinarySpells(v: nat, n: nat)
    requires v < Pow2(n)
    ensures Spell(Binary(v, n)) == v
    decreases n
  {
    if n > 0 {
      BinarySpells(v / 2, n - 1);
      assert Binary(v, n)[..n - 1] == Binary(v / 2, n - 1);
    }
  }

  lemma Halve(v: nat, b: bit)
    ensures (v * 2 + b) / 2 == v && (v * 2 + b) % 2 == b
  {
  }

  lemma OneMoreDigit(v: nat, b: bit, n: nat)
    ensures Binary(v * 2 + b, n + 1) == Binary(v, n) + [b]
  {
    Halve(v, b);
  }

  lemma SpellMore(front: seq<bit>, b: bit)
    ensures Spell(front + [b]) == Spell(front) * 2 + b
  {
    assert (front + [b])[..|front|] == front;
  }

  lemma RoomForMore(v: nat, b: bit, n: nat)
    requires v < Pow2(n)
    ensures v * 2 + b < Pow2(n + 1)
  {
  }

  lemma {:induction false} SpellIsBinary(bits: seq<bit>)
    ensures Spell(bits) < Pow2(|bits|) && Binary(Spell(bits), |bits|) == bits
    decreases |bits|
  {
    if bits != [] {
      var n := |bits| - 1;
      var front, last := bits[..n], bits[n];
      assert bits == front + [last];
      SpellIsBinary(front);
      SpellMore(front, last);
      RoomForMore(Spell(front), last, n);
      OneMoreDigit(Spell(front), last, n);
    }
  }

  /** Digits of a number put together from a high and a low part. */
  lemma {:induction false} BinaryJoin(hi: nat, lo: nat, n: nat, k: nat)
    requires lo < Pow2(k)
    ensures Binary(hi * Pow2(k) + lo, n + k) == Binary(hi, n) + Binary(lo, k)
    decreases k
  {
    if k == 0 {
      assert Binary(hi, n) + [] == Binary(hi, n);
    } else {
      var p := Pow2(k - 1);
      var v := hi * Pow2(k) + lo;
      assert hi * Pow2(k) == 2 * (hi * p);
      assert v / 2 == hi * p + lo / 2 && v % 2 == lo % 2;
      BinaryJoin(hi, lo / 2, n, k - 1);
      assert Binary(v, n + k) == Binary(hi, n) + Binary(lo / 2, k - 1) + [lo % 2];
    }
  }

  function Zeros(n: nat): (bits: seq<bit>)
    ensures |bits| == n
  {
    Binary(0, n)
  }

  // -------------------------------------------------------------- reference --

  function Bits(b: bytes): (bits: seq<bit>)
    ensures |bits| == 8 * |b|
  {
    if b == [] then [] else Binary(b[0], 8) + Bits(b[1..])
  }

  /** The letter of six digits. */
  function SixLetter(bits: seq<bit>): byte
    requires |bits| == 6
  {
    SpellIsBinary(bits);
    assert Pow2(6) == 64;
    Letter(Spell(bits))
  }

  function EncodeBits(bits: seq<bit>): (s: bytes)
    ensures |s| == (|bits| + 5) / 6
    decreases |bits|
  {
    if bits == [] then []
    else if |bits| <= 6 then [SixLetter(bits + Zeros(6 - |bits|))]
    else [SixLetter(bits[..6])] + EncodeBits(bits[6..])
  }

  function Encode(b: bytes): (s: bytes)
    ensures |s| == (8 * |b| + 5) / 6
  {
    EncodeBits(Bits(b))
  }

  function TextBits(s: bytes): (bits: seq<bit>)
    ensures |bits| == 6 * |s|
  {
    if s == [] then [] else Binary(Max(LetterValue(s[0]), 0), 6) + TextBits(s[1..])
  }

  /** The whole octets of a string of bits. */
  function Octets(bits: seq<bit>): (b: bytes)
    decreases |bits|
  {
    if |bits| < 8 then [] else
    SpellIsBinary(bits[..8]);
    assert Pow2(8) == 256;
    [Spell(bits[..8])] + Octets(bits[8..])
  }

  function Decode(s: bytes): bytes {
    Octets(TextBits(s))
  }

  // ------------------------------------------------------------ round trip --

  lemma SixLetterBits(bits: seq<bit>, rest: bytes)
    requires |bits| == 6
    ensures TextBits([SixLetter(bits)] + rest) == bits + TextBits(rest)
  {
    SpellIsBinary(bits);
    LetterRoundTrip(Spell(bits));
    assert ([SixLetter(bits)] + rest)[1..] == rest;
  }

  lemma {:induction false} EncodedBits(bits: seq<bit>)
    ensures |TextBits(EncodeBits(bits))| < |bits| + 6
    ensures TextBits(EncodeBits(bits))[..|bits|] == bits
    decreases |bits|
  {
    if bits == [] {
    } else if |bits| <= 6 {
      SixLetterBits(bits + Zeros(6 - |bits|), []);
      assert [SixLetter(bits + Zeros(6 - |bits|))] + [] == EncodeBits(bits);
      assert (bits + Zeros(6 - |bits|) + TextBits([]))[..|bits|] == bits;
    } else {
      EncodedBits(bits[6..]);
      SixLetterBits(bits[..6], EncodeBits(bits[6..]));
      assert bits == bits[..6] + bits[6..];
    }
  }

  lemma FirstOctet(v: byte, rest: seq<bit>)
    ensures Octets(Binary(v, 8) + rest) == [v] + Octets(rest)
  {
    var octet := Binary(v, 8);
    assert Pow2(8) == 256;
    BinarySpells(v, 8);
    assert (octet + rest)[..8] == octet && (octet + rest)[8..] == rest;
  }

  lemma {:induction false} OctetsOfBits(b: bytes, extra: seq<bit>)
    requires |extra| < 8
    ensures Octets(Bits(b) + extra) == b
    decreases |b|
  {
    if b == [] {
      assert Bits(b) + extra == extra;
    } else {
      var octet, rest := Binary(b[0], 8), Bits(b[1..]) + extra;
      OctetsOfBits(b[1..], extra);
      FirstOctet(b[0], rest);
      assert Bits(b) + extra == octet + rest;
    }
  }

  /** Every byte string decodes back from its encoding. */
  lemma RoundTrip(b: bytes)
    ensures Decode(Encode(b)) == b
  {
    EncodedBits(Bits(b));
    var bits := TextBits(Encode(b));
    OctetsOfBits(b, bits[|Bits(b)|..]);
    assert bits == Bits(b) + bits[|Bits(b)|..];
  }

  lemma Injective(a: bytes, b: bytes)
    ensures Encode(a) == Encode(b) <==> a == b
  {
    RoundTrip(a);
    RoundTrip(b);
  }

  // ------------------------------------------------------------- the encoder --

  lemma {:induction false} BitsAppend(a: bytes, b: bytes)
    ensures Bits(a + b) == Bits(a) + Bits(b)
    decreases |a|
  {
    if a == [] {
      assert a + b == b;
    } else {
      assert (a + b)[1..] == a[1..] + b;
      BitsAppend(a[1..], b);
    }
  }

  lemma {:induction false} EncodeBitsAppend(p: seq<bit>, q: seq<bit>)
    requires |p| % 6 == 0
    ensures EncodeBits(p + q) == EncodeBits(p) + EncodeBits(q)
    decreases |p|
  {
    if p == [] {
      assert p + q == q;
    } else {
      EncodeBitsAppend(p[6..], q);
      assert (p + q)[6..] == p[6..] + q && (p + q)[..6] == p[..6];
      FirstSix(p);
      FirstSix(p + q);
    }
  }

  lemma FirstSix(bits: seq<bit>)
    requires |bits| >= 6
    ensures EncodeBits(bits) == [SixLetter(bits[..6])] + EncodeBits(bits[6..])
  {
    if |bits| == 6 {
      assert bits + Zeros(0) == bits == bits[..6] && bits[6..] == [];
    }
  }

  lemma WholeGroups(n: nat)
    requires n % 3 == 0
    ensures 8 * n % 6 == 0
  {
    var q := n / 3;
    assert 8 * n == 6 * (4 * q);
  }

  /** Whole groups encode on their own. */
  lemma GroupsEncode(a: bytes, b: bytes)
    requires |a| % 3 == 0
    ensures Encode(a + b) == Encode(a) + Encode(b)
  {
    BitsAppend(a, b);
    WholeGroups(|a|);
    EncodeBitsAppend(Bits(a), Bits(b));
  }

  lemma Powers()
    ensures Pow2(0) == 1 && Pow2(2) == 4 && Pow2(4) == 16 && Pow2(6) == 64 && Pow2(8) == 256
  {
    assert Pow2(4) == 4 * Pow2(2) && Pow2(6) == 4 * Pow2(4) && Pow2(8) == 4 * Pow2(6);
  }

  /** A letter whose six digits are the end of one byte and the start of the next. */
  lemma LetterAcross(hi: nat, lo: nat, n: nat, k: nat, v: nat)
    requires n + k == 6 && lo < Pow2(k) && v == hi * Pow2(k) + lo && v < 64
    ensures SixLetter(Binary(hi, n) + Binary(lo, k)) == Letter(v)
  {
    Powers();
    BinaryJoin(hi, lo, n, k);
    BinarySpells(v, 6);
  }

  lemma CutAtTwo(v: byte)
    ensures Binary(v, 8) == Binary(v / 64, 2) + Binary(v % 64, 6)
  {
    Powers();
    BinaryJoin(v / 64, v % 64, 2, 6);
  }

  lemma CutAtFour(v: byte)
    ensures Binary(v, 8) == Binary(v / 16, 4) + Binary(v % 16, 4)
  {
    Powers();
    BinaryJoin(v / 16, v % 16, 4, 4);
  }

  lemma CutAtSix(v: byte)
    ensures Binary(v, 8) == Binary(v / 4, 6) + Binary(v % 4, 2)
  {
    Powers();
    BinaryJoin(v / 4, v % 4, 6, 2);
  }

  /** Six digits and then the rest. */
  lemma NextLetter(first: seq<bit>, rest: seq<bit>)
    requires |first| == 6
    ensures EncodeBits(first + rest) == [SixLetter(first)] + EncodeBits(rest)
  {
    assert (first + rest)[..6] == first && (first + rest)[6..] == rest;
    FirstSix(first + rest);
  }

  lemma LastLetter(bits: seq<bit>)
    requires 0 < |bits| < 6
    ensures EncodeBits(bits) == [SixLetter(bits + Zeros(6 - |bits|))]
  {
  }

  lemma BitsOfOne(x: byte)
    ensures Bits([x]) == Binary(x, 8)
  {
    assert [x][1..] == [] && Binary(x, 8) + [] == Binary(x, 8);
  }

  lemma BitsOfMore(x: byte, rest: bytes)
    ensures Bits([x] + rest) == Binary(x, 8) + Bits(rest)
  {
    assert ([x] + rest)[1..] == rest;
  }

  /** The same when the six digits are the start of `first` and the rest of it follows. */
  lemma TakeSix(six: seq<bit>, left: seq<bit>, first: seq<bit>, rest: seq<bit>)
    requires |six| == 6 && first == six + left
    ensures EncodeBits(first + rest) == [SixLetter(six)] + EncodeBits(left + rest)
  {
    assert first + rest == six + (left + rest);
    NextLetter(six, left + rest);
  }

  lemma WholeLetter(v: nat)
    requires v < 64
    ensures SixLetter(Binary(v, 6)) == Letter(v)
  {
    Powers();
    BinarySpells(v, 6);
  }

  lemma FirstLetter(x: byte, rest: seq<bit>)
    ensures EncodeBits(Binary(x, 8) + rest) == [Letter(x / 4)] + EncodeBits(Binary(x % 4, 2) + rest)
  {
    CutAtSix(x);
    WholeLetter(x / 4);
    TakeSix(Binary(x / 4, 6), Binary(x % 4, 2), Binary(x, 8), rest);
  }

  lemma MiddleLetter(hi: nat, lo: nat)
    requires hi < 4 && lo < 16
    ensures SixLetter(Binary(hi, 2) + Binary(lo, 4)) == Letter(hi * 16 + lo)
  {
    Powers();
    LetterAcross(hi, lo, 2, 4, hi * 16 + lo);
  }

  lemma AcrossTwo(a: seq<bit>, b: seq<bit>, c: seq<bit>, rest: seq<bit>)
    requires |a| + |b| == 6
    ensures EncodeBits(a + (b + c + rest)) == [SixLetter(a + b)] + EncodeBits(c + rest)
  {
    ConcatAssociates(a, b, c + rest);
    ConcatAssociates(b, c, rest);
    NextLetter(a + b, c + rest);
  }

  lemma SecondLetterOf(hi: nat, mid: nat, lo: nat, whole: seq<bit>, rest: seq<bit>)
    requires hi < 4 && mid < 16 && whole == Binary(mid, 4) + Binary(lo, 4)
    ensures EncodeBits(Binary(hi, 2) + (whole + rest)) == [Letter(hi * 16 + mid)] + EncodeBits(Binary(lo, 4) + rest)
  {
    MiddleLetter(hi, mid);
    AcrossTwo(Binary(hi, 2), Binary(mid, 4), Binary(lo, 4), rest);
  }

  lemma SecondLetter(x: byte, y: byte, rest: seq<bit>)
    ensures EncodeBits(Binary(x % 4, 2) + (Binary(y, 8) + rest))
      == [Letter(x % 4 * 16 + y / 16)] + EncodeBits(Binary(y % 16, 4) + rest)
  {
    CutAtFour(y);
    SecondLetterOf(x % 4, y / 16, y % 16, Binary(y, 8), rest);
  }

  lemma LowLetter(hi: nat, lo: nat)
    requires hi < 16 && lo < 4
    ensures SixLetter(Binary(hi, 4) + Binary(lo, 2)) == Letter(hi * 4 + lo)
  {
    Powers();
    LetterAcross(hi, lo, 4, 2, hi * 4 + lo);
  }

  lemma OneLetter(six: seq<bit>)
    requires |six| == 6
    ensures EncodeBits(six) == [SixLetter(six)]
  {
    assert six + Zeros(0) == six;
  }

  lemma TwoLetters(first: seq<bit>, second: seq<bit>)
    requires |first| == 6 && |second| == 6
    ensures EncodeBits(first + second) == [SixLetter(first), SixLetter(second)]
  {
    NextLetter(first, second);
    OneLetter(second);
  }

  lemma LastTwo(a: seq<bit>, b: seq<bit>, c: seq<bit>)
    requires |a| + |b| == 6 && |c| == 6
    ensures EncodeBits(a + (b + c)) == [SixLetter(a + b), SixLetter(c)]
  {
    ConcatAssociates(a, b, c);
    TwoLetters(a + b, c);
  }

  lemma ThirdLetter(y: byte, z: byte)
    ensures EncodeBits(Binary(y % 16, 4) + Binary(z, 8)) == [Letter(y % 16 * 4 + z / 64), Letter(z % 64)]
  {
    var lo, hi, six := y % 16, z / 64, z % 64;
    CutAtTwo(z);
    LowLetter(lo, hi);
    WholeLetter(six);
    LastTwo(Binary(lo, 4), Binary(hi, 2), Binary(six, 6));
  }

  lemma EncodeOne(x: byte)
    ensures Encode([x]) == [Letter(x / 4), Letter(x % 4 * 16)]
  {
    var two := Binary(x % 4, 2);
    Powers();
    BitsOfOne(x);
    FirstLetter(x, []);
    LastLetter(two);
    LetterAcross(x % 4, 0, 2, 4, x % 4 * 16);
    assert Binary(x, 8) + [] == Binary(x, 8) && two + [] == two;
  }

  lemma EncodeTwo(x: byte, y: byte)
    ensures Encode([x, y]) == [Letter(x / 4), Letter(x % 4 * 16 + y / 16), Letter(y % 16 * 4)]
  {
    var four := Binary(y % 16, 4);
    Powers();
    BitsOfOne(y);
    BitsOfMore(x, [y]);
    FirstLetter(x, Binary(y, 8));
    SecondLetter(x, y, []);
    LastLetter(four);
    LetterAcross(y % 16, 0, 4, 2, y % 16 * 4);
    assert Binary(y, 8) + [] == Binary(y, 8) && four + [] == four && [x, y] == [x] + [y];
  }

  lemma EncodeThree(x: byte, y: byte, z: byte)
    ensures Encode([x, y, z])
      == [Letter(x / 4), Letter(x % 4 * 16 + y / 16), Letter(y % 16 * 4 + z / 64), Letter(z % 64)]
  {
    BitsOfOne(z);
    BitsOfMore(y, [z]);
    BitsOfMore(x, [y, z]);
    assert [x, y, z] == [x] + [y, z] && [y, z] == [y] + [z];
    FirstLetter(x, Binary(y, 8) + Binary(z, 8));
    SecondLetter(x, y, Binary(z, 8));
    ThirdLetter(y, z);
  }

  function Triple(x: byte, y: byte, z: byte): nat {
    x * 65536 + y * 256 + z
  }

  lemma Divides(v: int, q: int, r: int, m: int)
    requires v == m * q + r && 0 <= r < m
    ensures v / m == q && v % m == r
  {
    var d := v / m - q;
    assert m * d == r - v % m;
    assert (d >= 1 ==> m * d >= m) && (d <= -1 ==> m * d <= -m);
  }

  /** The shifts and masks of the encoder: 18, 12, 6 and 0 places, six bits each. */
  lemma TripleParts(x: byte, y: byte, z: byte)
    ensures var triple := Triple(x, y, z);
      && triple / 262144 % 64 == x / 4
      && triple / 4096 % 64 == x % 4 * 16 + y / 16
      && triple / 64 % 64 == y % 16 * 4 + z / 64
      && triple % 64 == z % 64
  {
    var a, b, c, d := x / 4, x % 4 * 16 + y / 16, y % 16 * 4 + z / 64, z % 64;
    var triple := Triple(x, y, z);
    assert triple == ((a * 64 + b) * 64 + c) * 64 + d;
    Divides(triple, (a * 64 + b) * 64 + c, d, 64);
    Divides(triple, a * 64 + b, c * 64 + d, 4096);
    Divides(triple, a, (b * 64 + c) * 64 + d, 262144);
    Divides((a * 64 + b) * 64 + c, a * 64 + b, c, 64);
    Divides(a * 64 + b, a, b, 64);
    Divides(a, 0, a, 64);
  }

  /** A group as one number, zeros for the bytes it is short of. */
  function TripleOf(group: bytes): nat
    requires 1 <= |group| <= 3
  {
    Triple(group[0], if |group| > 1 then group[1] else 0, if |group| > 2 then group[2] else 0)
  }

  function Letters(triple: nat): (s: bytes)
    ensures |s| == 4
  {
    [Letter(triple / 262144 % 64), Letter(triple / 4096 % 64), Letter(triple / 64 % 64), Letter(triple % 64)]
  }

  lemma LettersOfThree(x: byte, y: byte, z: byte)
    ensures Letters(Triple(x, y, z))
      == [Letter(x / 4), Letter(x % 4 * 16 + y / 16), Letter(y % 16 * 4 + z / 64), Letter(z % 64)]
  {
    TripleParts(x, y, z);
  }

  lemma OneByteLetters(x: byte)
    ensures Encode([x]) == Letters(Triple(x, 0, 0))[..2]
  {
    EncodeOne(x);
    LettersOfThree(x, 0, 0);
  }

  lemma TwoByteLetters(x: byte, y: byte)
    ensures Encode([x, y]) == Letters(Triple(x, y, 0))[..3]
  {
    EncodeTwo(x, y);
    LettersOfThree(x, y, 0);
  }

  lemma ThreeByteLetters(x: byte, y: byte, z: byte)
    ensures Encode([x, y, z]) == Letters(Triple(x, y, z))
  {
    EncodeThree(x, y, z);
    LettersOfThree(x, y, z);
  }

  lemma GroupLetters(group: bytes)
    requires 1 <= |group| <= 3
    ensures Encode(group) == Letters(TripleOf(group))[..|group| + 1]
  {
    if |group| == 1 {
      assert group == [group[0]];
      OneByteLetters(group[0]);
    } else if |group| == 2 {
      assert group == [group[0], group[1]];
      TwoByteLetters(group[0], group[1]);
    } else {
      assert group == [group[0], group[1], group[2]];
      ThreeByteLetters(group[0], group[1], group[2]);
      assert Letters(TripleOf(group))[..4] == Letters(TripleOf(group));
    }
  }

  /** One turn of the encoder's loop: the letters of the next one to three bytes. */
  method EncodeGroup(group: bytes, output: array<byte>, at: nat)
    requires 1 <= |group| <= 3 && at + 4 < output.Length
    modifies output
    ensures output[..at + |group| + 1] == old(output[..at]) + Encode(group)
  {
    var triple := TripleOf(group);
    ghost var letters := Letters(triple);
    GroupLetters(group);
    output[at] := Letter(triple / 262144 % 64);
    output[at + 1] := Letter(triple / 4096 % 64);
    if |group| > 1 {
      output[at + 2] := Letter(triple / 64 % 64);
    }
    if |group| > 2 {
      output[at + 3] := Letter(triple % 64);
    }
    assert output[at..at + |group| + 1] == letters[..|group| + 1];
  }

  lemma EncodeMore(b: bytes, i: nat, n: nat)
    requires i % 3 == 0 && i + n <= |b|
    ensures Encode(b[..i + n]) == Encode(b[..i]) + Encode(b[i..i + n])
  {
    assert b[..i + n] == b[..i] + b[i..i + n];
    GroupsEncode(b[..i], b[i..i + n]);
  }

  // ---------------------------------------------------------- every letter --

  function OctetAt(b: bytes, i: nat): byte {
    if i < |b| then b[i] else 0
  }

  /** The `k`th six bits of the input: four to a group of three bytes, zeros past its end. */
  function Sextet(b: bytes, k: nat): (v: nat)
    ensures v < 64
  {
    var x, y, z := OctetAt(b, k / 4 * 3), OctetAt(b, k / 4 * 3 + 1), OctetAt(b, k / 4 * 3 + 2);
    if k % 4 == 0 then x / 4
    else if k % 4 == 1 then x % 4 * 16 + y / 16
    else if k % 4 == 2 then y % 16 * 4 + z / 64
    else z % 64
  }

  lemma SextetOfRest(b: bytes, k: nat)
    requires |b| >= 3 && k >= 4
    ensures Sextet(b, k) == Sextet(b[3..], k - 4)
  {
    assert k / 4 == (k - 4) / 4 + 1 && k % 4 == (k - 4) % 4;
  }

  lemma FirstSextets(b: bytes)
    ensures Sextet(b, 0) == OctetAt(b, 0) / 4
    ensures Sextet(b, 1) == OctetAt(b, 0) % 4 * 16 + OctetAt(b, 1) / 16
    ensures Sextet(b, 2) == OctetAt(b, 1) % 16 * 4 + OctetAt(b, 2) / 64
    ensures Sextet(b, 3) == OctetAt(b, 2) % 64
  {
  }

  /** The letters of these four values are the table's. */
  lemma FourLetters(p: int, q: int, r: int, s: int)
    requires 0 <= p < 64 && 0 <= q < 64 && 0 <= r < 64 && 0 <= s < 64
    ensures Letter(p) == TableOne(p) && Letter(q) == TableOne(q) && Letter(r) == TableOne(r) && Letter(s) == TableOne(s)
  {
    LetterTable(p);
    LetterTable(q);
    LetterTable(r);
    LetterTable(s);
  }

  lemma GroupSextets(b: bytes)
    requires 1 <= |b| <= 3
    ensures |b| + 1 == |Encode(b)| && forall k :: 0 <= k <= |b| ==> Encode(b)[k] == TableOne(Sextet(b, k))
  {
    FirstSextets(b);
    FourLetters(Sextet(b, 0), Sextet(b, 1), Sextet(b, 2), Sextet(b, 3));
    if |b| == 1 {
      assert b == [b[0]];
      EncodeOne(b[0]);
    } else if |b| == 2 {
      assert b == [b[0], b[1]];
      EncodeTwo(b[0], b[1]);
    } else {
      assert b == [b[0], b[1], b[2]];
      EncodeThree(b[0], b[1], b[2]);
    }
  }

  lemma SextetOfFront(b: bytes, k: nat)
    requires |b| >= 3 && k < 4
    ensures Sextet(b, k) == Sextet(b[..3], k)
  {
    FirstSextets(b);
    FirstSextets(b[..3]);
  }

  /** Each character of the encoding is the table's for its six bits. */
  lemma {:induction false} EncodedCharacter(b: bytes, k: nat)
    requires k < |Encode(b)|
    ensures Encode(b)[k] == TableOne(Sextet(b, k))
    decreases |b|
  {
    if |b| <= 3 {
      GroupSextets(b);
    } else {
      var front, rest := b[..3], b[3..];
      assert b == front + rest;
      GroupSextets(front);
      GroupsEncode(front, rest);
      if k < 4 {
        SextetOfFront(b, k);
      } else {
        EncodedCharacter(rest, k - 4);
        SextetOfRest(b, k);
      }
    }
  }

  /** Where the encoder's loop is after `g` turns. */
  ghost predicate Turns(i: int, at: int, g: int, len: int, room: int) {
    && 0 <= g <= room && 0 <= i <= len && 0 <= at <= 4 * g
    && ((i == 3 * g && at == 4 * g) || (i == len && i <= 3 * g))
  }

  lemma OneMoreTurn(i: int, at: int, g: int, n: int, len: int, room: int)
    requires Turns(i, at, g, len, room) && i < len && at < 4 * room && n == Min(3, len - i)
    ensures i % 3 == 0 && Turns(i + n, at + n + 1, g + 1, len, room)
  {
  }

  lemma TurnsDone(i: int, at: int, g: int, len: int, room: int)
    requires Turns(i, at, g, len, room) && (i >= len || at >= 4 * room)
    ensures at <= 4 * room && i == Min(len, room * 3)
  {
  }

  /** `base64_unpadded`.  Whole groups are written while five bytes of room are left; with
    * room for all of them the result is the encoding of all the input. */
  method Base64Unpadded(input: bytes, output: array<byte>)
    requires output.Length >= 1
    modifies output
    ensures var text := Encode(input[..Min(|input|, (output.Length - 1) / 4 * 3)]);
      |text| < output.Length && output[..|text|] == text && output[|text|] == NUL
    ensures var taken := input[..Min(|input|, (output.Length - 1) / 4 * 3)];
      forall k :: 0 <= k < |Encode(taken)| ==> output[k] == TableOne(Sextet(taken, k))
  {
    var i, at := 0, 0;
    ghost var g, room := 0, (output.Length - 1) / 4;
    assert output[..0] == Encode(input[..0]);
    while i < |input| && at + 4 < output.Length
      invariant Turns(i, at, g, |input|, room)
      invariant output[..at] == Encode(input[..i])
    {
      var n := Min(3, |input| - i);
      OneMoreTurn(i, at, g, n, |input|, room);
      EncodeMore(input, i, n);
      EncodeGroup(input[i..i + n], output, at);
      i, at, g := i + n, at + n + 1, g + 1;
    }
    TurnsDone(i, at, g, |input|, room);
    output[at] := NUL;
    forall k | 0 <= k < at
      ensures output[k] == TableOne(Sextet(input[..i], k))
    {
      assert output[k] == output[..at][k];
      EncodedCharacter(input[..i], k);
    }
  }

  // -------------------------------------------------------------- fingerprint --

  const DIGEST_SIZE := 32
  const FINGERPRINT_LEN := 64

  const PREFIX: bytes := ['S' as int, 'H' as int, 'A' as int, '2' as int, '5' as int, '6' as int, ':' as int]

  /** `fingerprint_of`, given the SHA-256 digest of the key. */
  function Fingerprint(digest: bytes): bytes
    requires |digest| == DIGEST_SIZE
  {
    PREFIX + Encode(digest)
  }

  /** The text `ssh-keygen -lf` prints, character by character. */
  predicate Shows(text: bytes, digest: bytes) {
    && |text| == 50
    && (forall i :: 0 <= i < 7 ==> text[i] as char == "SHA256:"[i])
    && (forall k :: 0 <= k < 43 ==> text[7 + k] == TableOne(Sextet(digest, k)))
  }

  lemma FingerprintShows(digest: bytes)
    requires |digest| == DIGEST_SIZE
    ensures Shows(Fingerprint(digest), digest)
  {
    forall k | 0 <= k < 43
      ensures Fingerprint(digest)[7 + k] == TableOne(Sextet(digest, k))
    {
      EncodedCharacter(digest, k);
      assert Fingerprint(digest)[7 + k] == Encode(digest)[k];
    }
  }

  /** `fingerprint_of`, given what the hash made of the key, if it made anything: refused
    * exactly when the hash failed or the caller's buffer is too short. */
  method FingerprintOf(digest: Option<bytes>, room: nat) returns (text: Option<bytes>)
    requires digest.Some? ==> |digest.value| == DIGEST_SIZE
    ensures text.None? <==> room < FINGERPRINT_LEN || digest.None?
    ensures text.Some? ==> text.value == Fingerprint(digest.value) && |text.value| < room
    ensures text.Some? ==> Shows(text.value, digest.value)
  {
    if room < FINGERPRINT_LEN {
      return None;
    }
    if digest.None? {
      return None;
    }
    var encoded := new byte[48];
    Base64Unpadded(digest.value, encoded);
    EncodedDigestFits(digest.value);
    LettersAreStorable(Bits(digest.value));
    assert digest.value[..32] == digest.value;
    CStringOf(encoded[..], Encode(digest.value));
    FingerprintShows(digest.value);
    return Some(PREFIX + CString(encoded[..]));
  }

  /** The 48-byte buffer `fingerprint_of` gives the encoder holds the whole encoding. */
  lemma EncodedDigestFits(digest: bytes)
    requires |digest| == DIGEST_SIZE
    ensures Min(|digest|, (48 - 1) / 4 * 3) == |digest| && |Encode(digest)| == 43 < 48
  {
  }

  lemma {:induction false} LettersAreStorable(bits: seq<bit>)
    ensures Storable(EncodeBits(bits)) && NUL !in EncodeBits(bits)
    decreases |bits|
  {
    if |bits| > 6 {
      LettersAreStorable(bits[6..]);
    }
  }

  /** Fifty storable characters, equal only for equal digests. */
  lemma FingerprintsIdentify(a: bytes, b: bytes)
    requires |a| == DIGEST_SIZE && |b| == DIGEST_SIZE
    ensures Fingerprint(a) == Fingerprint(b) <==> a == b
    ensures |Fingerprint(a)| == 50 && Storable(Fingerprint(a)) && NUL !in Fingerprint(a)
  {
    Injective(a, b);
    assert Fingerprint(a)[|PREFIX|..] == Encode(a) && Fingerprint(b)[|PREFIX|..] == Encode(b);
    LettersAreStorable(Bits(a));
  }
}
