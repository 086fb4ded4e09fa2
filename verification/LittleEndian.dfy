/** Little-endian integers, as Python's `struct` packs and unpacks them. */
module LittleEndian {
  import opened Bytes
  import opened Pieces

  const LIMIT16 := 0x1_0000
  const LIMIT32 := 0x1_0000_0000

  function Unpack2(s: bytes): (n: nat)
    requires |s| == 2
    ensures n < LIMIT16
  {
    var a: int, b: int := s[0], s[1];
    a + 256 * b
  }

  function Unpack4(s: bytes): (n: nat)
    requires |s| == 4
    ensures n < LIMIT32
  {
    var a: int, b: int, c: int, d: int := s[0], s[1], s[2], s[3];
    a + 256 * b + 65536 * c + 16777216 * d
  }

  /** Byte `k` of `n`, the lowest first. */
  function ByteOf(n: nat, k: nat): byte
    decreases n, k
  {
    if k == 0 then n % 256 else ByteOf(n / 256, k - 1)
  }

  /** The two low bytes; for a number that fits, all of it. */
  ghost function Pack2(n: nat): (s: bytes)
    ensures |s| == 2 && (n < LIMIT16 ==> Unpack2(s) == n)
  {
    Packable2(n);
    [ByteOf(n, 0), ByteOf(n, 1)]
  }

  /** The four low bytes; for a number that fits, all of it. */
  ghost function Pack4(n: nat): (s: bytes)
    ensures |s| == 4 && (n < LIMIT32 ==> Unpack4(s) == n)
  {
    Packable4(n);
    [ByteOf(n, 0), ByteOf(n, 1), ByteOf(n, 2), ByteOf(n, 3)]
  }

  lemma Packable2(n: nat)
    ensures n < LIMIT16 ==> Unpack2([ByteOf(n, 0), ByteOf(n, 1)]) == n
  {
    assert ByteOf(n, 1) == ByteOf(n / 256, 0);
  }

  lemma Packable4(n: nat)
    ensures n < LIMIT32 ==> Unpack4([ByteOf(n, 0), ByteOf(n, 1), ByteOf(n, 2), ByteOf(n, 3)]) == n
  {
    var a := n / 256;
    var b := a / 256;
    var c := b / 256;
    LowByte(n, a);
    LowByte(a, b);
    LowByte(b, c);
    if n < LIMIT32 {
      SumOfBytes(n, a, b, c, ByteOf(n, 0), ByteOf(n, 1), ByteOf(n, 2), ByteOf(n, 3));
    }
  }

  lemma SumOfBytes(n: int, a: int, b: int, c: int, b0: int, b1: int, b2: int, b3: int)
    requires n == 256 * a + b0 && a == 256 * b + b1 && b == 256 * c + b2 && c == b3
    ensures n == b0 + 256 * b1 + 65536 * b2 + 16777216 * b3
  {
  }

  lemma LowByte(n: nat, rest: nat)
    requires rest == n / 256
    ensures n == 256 * rest + ByteOf(n, 0) && ByteOf(n, 1) == ByteOf(rest, 0)
    ensures ByteOf(n, 2) == ByteOf(rest, 1) && ByteOf(n, 3) == ByteOf(rest, 2)
    ensures n < 256 ==> ByteOf(n, 0) == n
  {
  }

  method StructPack2(n: nat) returns (s: bytes)
    requires n < LIMIT16
    ensures s == Pack2(n)
  {
    s := [ByteOf(n, 0), ByteOf(n, 1)];
  }

  method StructPack4(n: nat) returns (s: bytes)
    requires n < LIMIT32
    ensures s == Pack4(n)
  {
    s := [ByteOf(n, 0), ByteOf(n, 1), ByteOf(n, 2), ByteOf(n, 3)];
  }

  /** The integer whose bytes start at `at`. */
  function Word2(f: bytes, at: nat): (n: nat)
    requires at + 2 <= |f|
    ensures n < LIMIT16
  {
    Unpack2([f[at], f[at + 1]])
  }

  function Word4(f: bytes, at: nat): (n: nat)
    requires at + 4 <= |f|
    ensures n < LIMIT32
  {
    Unpack4([f[at], f[at + 1], f[at + 2], f[at + 3]])
  }

  /** Four bytes as a number, the lowest first. */
  function Little(a: int, b: int, c: int, d: int): int {
    a + 0x100 * b + 0x1_0000 * c + 0x100_0000 * d
  }

  lemma WordBytes(f: bytes, at: nat)
    ensures at + 2 <= |f| ==> Word2(f, at) == Little(f[at], f[at + 1], 0, 0)
    ensures at + 4 <= |f| ==> Word4(f, at) == Little(f[at], f[at + 1], f[at + 2], f[at + 3])
  {
  }

  lemma Word2Read(f: bytes, at: nat, n: nat)
    requires n < LIMIT16 && At(f, at, Pack2(n))
    ensures Word2(f, at) == n
  {
    var s := Pack2(n);
    assert f[at + 0] == s[0] && f[at + 1] == s[1];
  }

  lemma Word4Read(f: bytes, at: nat, n: nat)
    requires n < LIMIT32 && At(f, at, Pack4(n))
    ensures Word4(f, at) == n
  {
    var s := Pack4(n);
    assert f[at + 0] == s[0] && f[at + 1] == s[1] && f[at + 2] == s[2] && f[at + 3] == s[3];
  }
}
