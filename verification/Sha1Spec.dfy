/** SHA-1 as FIPS PUB 180-1 defines it: padding in its section 4, functions and constants in
    sections 5 and 6, and the method with eighty words in section 7. */
module Sha1Spec {
  type Byte = bv8
  type Word = bv32

  const TWO_32 := 0x1_0000_0000
  const TWO_64 := 0x1_0000_0000_0000_0000

  datatype Regs = Regs(a: Word, b: Word, c: Word, d: Word, e: Word)

  const INITIAL: Regs := Regs(0x67452301, 0xEFCDAB89, 0x98BADCFE, 0x10325476, 0xC3D2E1F0)

  function Rol(x: Word, n: nat): Word
    requires 0 < n < 32
  {
    (x << n) | (x >> (32 - n))
  }

  function Ch(b: Word, c: Word, d: Word): Word { (b & c) | (!b & d) }

  function Par(b: Word, c: Word, d: Word): Word { b ^ c ^ d }

  function Maj(b: Word, c: Word, d: Word): Word { (b & c) | (b & d) | (c & d) }

  function Mix(t: nat, b: Word, c: Word, d: Word): Word {
    if t < 20 then Ch(b, c, d) else if 40 <= t < 60 then Maj(b, c, d) else Par(b, c, d)
  }

  function K(t: nat): Word {
    if t < 20 then 0x5A827999 else if t < 40 then 0x6ED9EBA1 else if t < 60 then 0x8F1BBCDC else 0xCA62C1D6
  }

  function BigWord(b: seq<Byte>): Word
    requires |b| == 4
  {
    ((b[0] as Word) << 24) | ((b[1] as Word) << 16) | ((b[2] as Word) << 8) | (b[3] as Word)
  }

  /** The eighty words of a block. */
  function W(block: seq<Byte>, t: nat): Word
    requires |block| == 64
  {
    if t < 16 then BigWord(block[4 * t..4 * t + 4])
    else Rol(W(block, t - 3) ^ W(block, t - 8) ^ W(block, t - 14) ^ W(block, t - 16), 1)
  }

  function Temp(a: Word, f: Word, e: Word, w: Word, k: Word): Word { Rol(a, 5) + f + e + w + k }

  function Round(r: Regs, t: nat, w: Word): Regs {
    Regs(Temp(r.a, Mix(t, r.b, r.c, r.d), r.e, w, K(t)), r.a, Rol(r.b, 30), r.c, r.d)
  }

  function Rounds(block: seq<Byte>, h: Regs, t: nat): Regs
    requires |block| == 64
  {
    if t == 0 then h else Round(Rounds(block, h, t - 1), t - 1, W(block, t - 1))
  }

  function Add(x: Word, y: Word): Word { x + y }

  function Plus(h: Regs, r: Regs): Regs {
    Regs(Add(h.a, r.a), Add(h.b, r.b), Add(h.c, r.c), Add(h.d, r.d), Add(h.e, r.e))
  }

  function Compress(h: Regs, block: seq<Byte>): Regs
    requires |block| == 64
  {
    Plus(h, Rounds(block, h, 80))
  }

  function HashBlocks(s: seq<Byte>): Regs
    requires |s| % 64 == 0
  {
    if s == [] then INITIAL else Compress(HashBlocks(s[..|s| - 64]), s[|s| - 64..])
  }

  /** The lowest `k` bytes of a number, highest first. */
  function BigEndian(n: nat, k: nat): (r: seq<Byte>)
    ensures |r| == k
  {
    if k == 0 then [] else BigEndian(n / 256, k - 1) + [(n % 256) as Byte]
  }

  function Zeros(n: nat): (r: seq<Byte>)
    ensures |r| == n
  {
    seq(n, i => 0)
  }

  /** The number of zero bytes. */
  function ZeroCount(n: nat): (r: nat)
    ensures r < 64 && (n + 1 + r + 8) % 64 == 0
  {
    (119 - n % 64) % 64
  }

  /** A one bit, the fewest zero bits, and the length in bits in 64 bits. */
  function Pad(s: seq<Byte>): (r: seq<Byte>)
    ensures |r| % 64 == 0
  {
    s + [0x80] + Zeros(ZeroCount(|s|)) + BigEndian(8 * |s| % TWO_64, 8)
  }

  function WordBytes(w: Word): (r: seq<Byte>)
    ensures |r| == 4
  {
    [((w >> 24) & 0xFF) as Byte, ((w >> 16) & 0xFF) as Byte, ((w >> 8) & 0xFF) as Byte, (w & 0xFF) as Byte]
  }

  function Sha1(s: seq<Byte>): (r: seq<Byte>)
    ensures |r| == 20
  {
    var h := HashBlocks(Pad(s));
    WordBytes(h.a) + WordBytes(h.b) + WordBytes(h.c) + WordBytes(h.d) + WordBytes(h.e)
  }
}
