/** The class `CSHA1`: input in pieces of any length, a bit count in two words, and a
    transform that keeps sixteen words and renames the registers instead of moving them. */
module Sha1 {
  import opened Sha1Spec

  /** A word as a little-endian machine loads it. */
  function LittleWord(b: seq<Byte>): Word
    requires |b| == 4
  {
    ((b[3] as Word) << 24) | ((b[2] as Word) << 16) | ((b[1] as Word) << 8) | (b[0] as Word)
  }

  /** The byte swap of `SHABLK0`. */
  function Swap(x: Word): Word { (Rol(x, 24) & 0xFF00FF00) | (Rol(x, 8) & 0x00FF00FF) }

  lemma SwapBytes(p: Word, q: Word, r: Word, s: Word)
    requires p <= 0xFF && q <= 0xFF && r <= 0xFF && s <= 0xFF
    ensures
      var x := (s << 24) | (r << 16) | (q << 8) | p;
      (((x << 24) | (x >> 8)) & 0xFF00FF00) | (((x << 8) | (x >> 24)) & 0x00FF00FF)
      == (p << 24) | (q << 16) | (r << 8) | s
  {
  }

  lemma SwapIsBig(b: seq<Byte>)
    requires |b| == 4
    ensures Swap(LittleWord(b)) == BigWord(b)
  {
    SwapBytes(b[0] as Word, b[1] as Word, b[2] as Word, b[3] as Word);
  }

  /** The macros' forms of choice and majority. */
  function Choice(w: Word, x: Word, y: Word): Word { (w & (x ^ y)) ^ y }

  function Majority(w: Word, x: Word, y: Word): Word { ((w | x) & y) | (w & x) }

  /** The macros' sum. */
  function Sum(z: Word, f: Word, m: Word, k: Word, v: Word): Word { z + f + m + k + Rol(v, 5) }

  /** The simplified forms are those of the standard. */
  lemma SimplerForms(w: Word, x: Word, y: Word)
    ensures Choice(w, x, y) == Ch(w, x, y)
    ensures Majority(w, x, y) == Maj(w, x, y)
  {
    hide *;
    SimplerChoice(w, x, y);
    SimplerMajority(w, x, y);
  }

  lemma SimplerChoice(w: Word, x: Word, y: Word)
    ensures Choice(w, x, y) == Ch(w, x, y)
  {
    SameBits(w, x, y);
  }

  lemma SimplerMajority(w: Word, x: Word, y: Word)
    ensures Majority(w, x, y) == Maj(w, x, y)
  {
    SameBits(w, x, y);
  }

  lemma SameBits(w: Word, x: Word, y: Word)
    ensures ((w & (x ^ y)) ^ y) == (w & x) | (!w & y)
    ensures (((w | x) & y) | (w & x)) == (w & x) | (w & y) | (x & y)
  {
  }

  lemma SumInAnyOrder(z: Word, f: Word, m: Word, k: Word, v: Word)
    ensures Sum(z, f, m, k, v) == Temp(v, f, z, m, k)
  {
    hide Rol;
  }

  /** One round, with the registers renamed and not moved. */
  lemma OneMoreRound(block: seq<Byte>, h: Regs, t: nat, v: Word, w: Word, x: Word, y: Word, z: Word, f: Word)
    requires |block| == 64 && Rounds(block, h, t) == Regs(v, w, x, y, z)
    requires f == Mix(t, w, x, y)
    ensures Rounds(block, h, t + 1) == Regs(Sum(z, f, W(block, t), K(t), v), v, Rol(w, 30), x, y)
  {
    hide Mix, K, Rol, Sum, Temp, W;
    SumInAnyOrder(z, f, W(block, t), K(t), v);
  }

  /** Before round `t`, the sixteen words hold the last sixteen of the eighty; words that are
      not needed yet are still as they were loaded. */
  predicate WindowAt(l: seq<Word>, bytes: seq<Byte>, t: nat)
    requires |l| == 16 && |bytes| == 64
  {
    if t < 16
    then forall j :: 0 <= j < 16 ==> l[j] == if j < t then W(bytes, j) else LittleWord(bytes[4 * j..4 * j + 4])
    else forall j :: t - 16 <= j < t ==> l[j % 16] == W(bytes, j)
  }

  lemma WindowBack(l: seq<Word>, bytes: seq<Byte>, t: nat)
    requires |l| == 16 && |bytes| == 64 && t >= 16 && WindowAt(l, bytes, t)
    ensures l[(t + 13) % 16] == W(bytes, t - 3) && l[(t + 8) % 16] == W(bytes, t - 8)
    ensures l[(t + 2) % 16] == W(bytes, t - 14) && l[t % 16] == W(bytes, t - 16)
  {
    hide W;
    SlotsBack(t);
    assert l[(t - 3) % 16] == W(bytes, t - 3) && l[(t - 8) % 16] == W(bytes, t - 8);
    assert l[(t - 14) % 16] == W(bytes, t - 14) && l[(t - 16) % 16] == W(bytes, t - 16);
  }

  lemma SlotsBack(t: nat)
    requires t >= 16
    ensures (t + 13) % 16 == (t - 3) % 16 && (t + 8) % 16 == (t - 8) % 16
    ensures (t + 2) % 16 == (t - 14) % 16 && t % 16 == (t - 16) % 16
  {
  }

  /** The expression of `SHABLK`. */
  function NextWord(a: Word, b: Word, c: Word, d: Word): Word { Rol(a ^ b ^ c ^ d, 1) }

  /** It gives the next of the eighty words. */
  lemma WindowGives(l: seq<Word>, bytes: seq<Byte>, t: nat)
    requires |l| == 16 && |bytes| == 64 && t >= 16 && WindowAt(l, bytes, t)
    ensures NextWord(l[(t + 13) % 16], l[(t + 8) % 16], l[(t + 2) % 16], l[t % 16]) == W(bytes, t)
  {
    hide WindowAt, Rol;
    WindowBack(l, bytes, t);
  }

  lemma WindowMoves(l: seq<Word>, bytes: seq<Byte>, t: nat)
    requires |l| == 16 && |bytes| == 64 && t >= 16 && WindowAt(l, bytes, t)
    ensures WindowAt(l[t % 16 := W(bytes, t)], bytes, t + 1)
  {
    hide W;
    var m := l[t % 16 := W(bytes, t)];
    forall j | t - 15 <= j < t + 1
      ensures m[j % 16] == W(bytes, j)
    {
      if j < t { DistinctSlots(j, t); }
    }
  }

  lemma DistinctSlots(j: nat, t: nat)
    requires t - 16 < j < t
    ensures j % 16 != t % 16
  {
  }

  lemma WindowLoads(l: seq<Word>, bytes: seq<Byte>, t: nat)
    requires |l| == 16 && |bytes| == 64 && t < 16 && WindowAt(l, bytes, t)
    ensures l[t] == LittleWord(bytes[4 * t..4 * t + 4])
    ensures W(bytes, t) == BigWord(bytes[4 * t..4 * t + 4])
    ensures WindowAt(l[t := W(bytes, t)], bytes, t + 1)
  {
    hide LittleWord, BigWord;
    var m := l[t := W(bytes, t)];
    if t == 15 {
      forall j | 0 <= j < 16
        ensures m[j % 16] == W(bytes, j)
      {
        assert j % 16 == j;
      }
    }
  }

  /* ---- The bit count ---- */

  /** Two words that hold eight times the number of bytes, modulo 2 to the 64. */
  predicate CountFits(lo: nat, hi: nat, bytes: nat) {
    lo < TWO_32 && hi < TWO_32 && (8 * bytes - (hi * TWO_32 + lo)) % TWO_64 == 0
  }

  /** The low word gives the place in the block. */
  lemma CountPlace(lo: nat, hi: nat, bytes: nat)
    requires CountFits(lo, hi, bytes)
    ensures lo / 8 % 64 == bytes % 64
  {
    var q := (8 * bytes - (hi * TWO_32 + lo)) / TWO_64;
    assert lo == 8 * (bytes - q * 0x2000_0000_0000_0000 - hi * 0x2000_0000);
    assert lo / 8 == bytes - 64 * (q * 0x80_0000_0000_0000 + hi * 0x80_0000);
  }

  /** Adding `len << 3` with its carry, and `len >> 29`. */
  lemma CountAdds(lo: nat, hi: nat, bytes: nat, len: nat)
    requires CountFits(lo, hi, bytes) && len < TWO_32
    ensures
      var added := len * 8 % TWO_32;
      var lo' := (lo + added) % TWO_32;
      var carried := if lo' < added then (hi + 1) % TWO_32 else hi;
      CountFits(lo', (carried + len / 0x2000_0000) % TWO_32, bytes + len)
  {
    hide CountFits;
    var added, top := len * 8 % TWO_32, len / 0x2000_0000;
    var lo' := (lo + added) % TWO_32;
    var c := if lo' < added then 1 else 0;
    CountRange(lo, hi, bytes);
    Carry(lo, added);
    Wrap(hi, c, top);
    var hi', w := (hi + c + top) % TWO_32, (hi + c + top) / TWO_32;
    var sum, sum' := hi * TWO_32 + lo, hi' * TWO_32 + lo';
    Carries(hi, c, top, w, hi', lo, added, lo');
    assert 8 * (bytes + len) - sum' == 8 * bytes - sum + w * TWO_64;
    SameRemainder(8 * bytes - sum, 8 * (bytes + len) - sum', w);
    CountIs(lo', hi', bytes + len);
    assert ((if lo' < added then (hi + 1) % TWO_32 else hi) + top) % TWO_32 == hi';
  }

  lemma CountRange(lo: nat, hi: nat, bytes: nat)
    requires CountFits(lo, hi, bytes)
    ensures lo < TWO_32 && hi < TWO_32 && (8 * bytes - (hi * TWO_32 + lo)) % TWO_64 == 0
  {
  }

  lemma CountIs(lo: nat, hi: nat, bytes: nat)
    requires lo < TWO_32 && hi < TWO_32 && (8 * bytes - (hi * TWO_32 + lo)) % TWO_64 == 0
    ensures CountFits(lo, hi, bytes)
  {
  }

  lemma Carries(hi: nat, c: nat, top: nat, w: nat, hi': nat, lo: nat, added: nat, lo': nat)
    requires hi + c + top == w * TWO_32 + hi' && lo + added == c * TWO_32 + lo'
    ensures hi * TWO_32 + lo + (top * TWO_32 + added) == hi' * TWO_32 + lo' + w * TWO_64
  {
  }

  lemma Carry(lo: nat, added: nat)
    requires lo < TWO_32 && added < TWO_32
    ensures
      var lo' := (lo + added) % TWO_32;
      lo + added == (if lo' < added then TWO_32 else 0) + lo'
  {
  }

  lemma Wrap(hi: nat, c: nat, top: nat)
    ensures ((hi + c) % TWO_32 + top) % TWO_32 == (hi + c + top) % TWO_32
    ensures hi < TWO_32 ==> hi % TWO_32 == hi
    ensures hi + c + top == (hi + c + top) / TWO_32 * TWO_32 + (hi + c + top) % TWO_32
  {
  }

  lemma SameRemainder(x: int, y: int, w: int)
    requires x % TWO_64 == 0 && y == x + w * TWO_64
    ensures y % TWO_64 == 0
  {
  }

  /** The eight bytes that `Final` takes from the two words, high word first. */
  lemma CountBytes(lo: nat, hi: nat, bytes: nat)
    requires CountFits(lo, hi, bytes)
    ensures BigEndian(hi, 4) + BigEndian(lo, 4) == BigEndian(8 * bytes % TWO_64, 8)
  {
    hide BigEndian, Pow256, Moved;
    CountRange(lo, hi, bytes);
    Remainder(hi * TWO_32 + lo, 8 * bytes);
    MovedByFour(hi);
    BigEndianSplits(hi, lo, 4);
  }

  lemma Remainder(n: nat, total: nat)
    requires n < TWO_64 && (total - n) % TWO_64 == 0
    ensures total % TWO_64 == n
  {
    var q := (total - n) / TWO_64;
    assert total == q * TWO_64 + n;
  }

  function Pow256(k: nat): nat { if k == 0 then 1 else 256 * Pow256(k - 1) }

  /** A number moved up by `k` bytes. */
  function Moved(n: nat, k: nat): nat { if k == 0 then n else 256 * Moved(n, k - 1) }

  lemma MovedByFour(n: nat)
    ensures Moved(n, 4) == n * TWO_32 && Pow256(4) == TWO_32
  {
    assert Moved(n, 2) == 256 * Moved(n, 1) && Pow256(2) == 256 * Pow256(1);
  }

  lemma {:induction false} BigEndianSplits(hi: nat, lo: nat, k: nat)
    requires lo < Pow256(k)
    ensures BigEndian(Moved(hi, k) + lo, 4 + k) == BigEndian(hi, 4) + BigEndian(lo, k)
  {
    hide BigEndian;
    if k == 0 {
      NoBytes(lo);
      assert BigEndian(hi, 4) + [] == BigEndian(hi, 4);
    } else {
      var n := Moved(hi, k) + lo;
      OneByteOff(Moved(hi, k - 1), lo);
      BigEndianSplits(hi, lo / 256, k - 1);
      BigEndianStep(n, 4 + k);
      BigEndianStep(lo, k);
      Associate(BigEndian(hi, 4), BigEndian(lo / 256, k - 1), [(lo % 256) as Byte]);
    }
  }

  lemma NoBytes(n: nat)
    ensures BigEndian(n, 0) == []
  {
  }

  lemma Associate(a: seq<Byte>, b: seq<Byte>, c: seq<Byte>)
    ensures a + (b + c) == (a + b) + c
  {
  }

  lemma BigEndianStep(n: nat, k: nat)
    requires k > 0
    ensures BigEndian(n, k) == BigEndian(n / 256, k - 1) + [(n % 256) as Byte]
  {
  }

  lemma OneByteOff(q: nat, lo: nat)
    ensures (256 * q + lo) / 256 == q + lo / 256 && (256 * q + lo) % 256 == lo % 256
  {
  }

  /** The blocks that are complete. */
  function WholeBlocks(s: seq<Byte>): (r: seq<Byte>)
    ensures |r| % 64 == 0 && |s| == |r| + |s| % 64
  {
    s[..|s| / 64 * 64]
  }

  /** Hashing goes on block by block. */
  lemma HashMore(s: seq<Byte>, block: seq<Byte>)
    requires |s| % 64 == 0 && |block| == 64
    ensures HashBlocks(s + block) == Compress(HashBlocks(s), block)
  {
    assert (s + block)[..|s + block| - 64] == s && (s + block)[|s + block| - 64..] == block;
  }

  /* ---- The object ---- */

  class CSHA1 {
    const m_state: array<Word>
    var count0: nat               // m_count[0]
    var count1: nat               // m_count[1]
    const m_buffer: array<Byte>
    const m_digest: array<Byte>
    const m_block: array<Word>    // the workspace
    ghost var hashed: seq<Byte>   // everything given to Update since Reset

    ghost predicate Shape() {
      && m_state.Length == 5 && m_buffer.Length == 64 && m_digest.Length == 20 && m_block.Length == 16
      && m_state != m_block && m_buffer != m_digest
    }

    ghost function State(): Regs
      requires Shape()
      reads m_state
    {
      Regs(m_state[0], m_state[1], m_state[2], m_state[3], m_state[4])
    }

    /** The whole blocks are hashed, and the rest waits in the buffer. */
    ghost predicate Valid()
      reads this, m_state, m_buffer
    {
      && Shape()
      && CountFits(count0, count1, |hashed|)
      && State() == HashBlocks(WholeBlocks(hashed))
      && m_buffer[..|hashed| % 64] == hashed[|WholeBlocks(hashed)|..]
    }

    constructor ()
      ensures Valid() && hashed == []
      ensures fresh(m_state) && fresh(m_buffer) && fresh(m_digest) && fresh(m_block)
    {
      m_state, m_buffer, m_digest, m_block := new Word[5], new Byte[64], new Byte[20], new Word[16];
      count0, count1 := 0, 0;
      new;
      Reset();
    }

    method Reset()
      requires Shape()
      modifies this, m_state
      ensures Valid() && hashed == []
    {
      m_state[0], m_state[1], m_state[2], m_state[3], m_state[4] := 0x67452301, 0xEFCDAB89, 0x98BADCFE, 0x10325476, 0xC3D2E1F0;
      count0, count1 := 0, 0;
      hashed := [];
    }

    /** The registers are those after `t` rounds of the standard's method, and the workspace
        holds the words that the next ones need. */
    ghost predicate Working(bytes: seq<Byte>, h: Regs, t: nat, a: Word, b: Word, c: Word, d: Word, e: Word)
      requires |bytes| == 64 && m_block.Length == 16
      reads m_block
    {
      Rounds(bytes, h, t) == Regs(a, b, c, d, e) && WindowAt(m_block[..], bytes, t)
    }

    lemma StartsWorking(bytes: seq<Byte>, h: Regs)
      requires |bytes| == 64 && m_block.Length == 16 && WindowAt(m_block[..], bytes, 0)
      ensures Working(bytes, h, 0, h.a, h.b, h.c, h.d, h.e)
    {
    }

    lemma HasWorked(bytes: seq<Byte>, h: Regs, a: Word, b: Word, c: Word, d: Word, e: Word)
      requires |bytes| == 64 && m_block.Length == 16 && Working(bytes, h, 80, a, b, c, d, e)
      ensures Compress(h, bytes) == Plus(h, Regs(a, b, c, d, e))
    {
      hide WindowAt, Rounds;
    }

    /** `SHABLK0` */
    method Blk0(i: nat, ghost bytes: seq<Byte>) returns (w: Word)
      requires i < 16 && |bytes| == 64 && m_block.Length == 16 && WindowAt(m_block[..], bytes, i)
      modifies m_block
      ensures w == W(bytes, i) && WindowAt(m_block[..], bytes, i + 1)
    {
      hide WindowAt, W, Swap, LittleWord, BigWord;
      WindowLoads(m_block[..], bytes, i);
      SwapIsBig(bytes[4 * i..4 * i + 4]);
      w := Swap(m_block[i]);
      ghost var l := m_block[..];
      m_block[i] := w;
      assert m_block[..] == l[i := w];
    }

    /** `SHABLK`: the oldest of the sixteen words makes room for the new one. */
    method Blk(i: nat, ghost bytes: seq<Byte>) returns (w: Word)
      requires 16 <= i && |bytes| == 64 && m_block.Length == 16 && WindowAt(m_block[..], bytes, i)
      modifies m_block
      ensures w == W(bytes, i) && WindowAt(m_block[..], bytes, i + 1)
    {
      hide WindowAt, NextWord, W;
      WindowGives(m_block[..], bytes, i);
      WindowMoves(m_block[..], bytes, i);
      w := NextWord(m_block[(i + 13) % 16], m_block[(i + 8) % 16], m_block[(i + 2) % 16], m_block[i % 16]);
      ghost var l := m_block[..];
      m_block[i % 16] := w;
      assert m_block[..] == l[i % 16 := w];
    }

    /** `_R0` */
    method R0(v: Word, w: Word, x: Word, y: Word, z: Word, i: nat, ghost bytes: seq<Byte>, ghost h: Regs)
      returns (w': Word, z': Word)
      requires 0 <= i < 16 && |bytes| == 64 && m_block.Length == 16 && Working(bytes, h, i, v, w, x, y, z)
      modifies m_block
      ensures Working(bytes, h, i + 1, z', v, w', x, y)
    {
      hide WindowAt, Rol, W, Rounds, Sum, Choice, Majority, Ch, Maj, Par;
      var m := Blk0(i, bytes);
      var f := Choice(w, x, y);
      SimplerForms(w, x, y);
      OneMoreRound(bytes, h, i, v, w, x, y, z, f);
      z' := Sum(z, f, m, 0x5A827999, v);
      w' := Rol(w, 30);
    }

    /** `_R1` */
    method R1(v: Word, w: Word, x: Word, y: Word, z: Word, i: nat, ghost bytes: seq<Byte>, ghost h: Regs)
      returns (w': Word, z': Word)
      requires 16 <= i < 20 && |bytes| == 64 && m_block.Length == 16 && Working(bytes, h, i, v, w, x, y, z)
      modifies m_block
      ensures Working(bytes, h, i + 1, z', v, w', x, y)
    {
      hide WindowAt, Rol, W, Rounds, Sum, Choice, Majority, Ch, Maj, Par;
      var m := Blk(i, bytes);
      var f := Choice(w, x, y);
      SimplerForms(w, x, y);
      OneMoreRound(bytes, h, i, v, w, x, y, z, f);
      z' := Sum(z, f, m, 0x5A827999, v);
      w' := Rol(w, 30);
    }

    /** `_R2` */
    method R2(v: Word, w: Word, x: Word, y: Word, z: Word, i: nat, ghost bytes: seq<Byte>, ghost h: Regs)
      returns (w': Word, z': Word)
      requires 20 <= i < 40 && |bytes| == 64 && m_block.Length == 16 && Working(bytes, h, i, v, w, x, y, z)
      modifies m_block
      ensures Working(bytes, h, i + 1, z', v, w', x, y)
    {
      hide WindowAt, Rol, W, Rounds, Sum, Choice, Majority, Ch, Maj, Par;
      var m := Blk(i, bytes);
      var f := Par(w, x, y);
      SimplerForms(w, x, y);
      OneMoreRound(bytes, h, i, v, w, x, y, z, f);
      z' := Sum(z, f, m, 0x6ED9EBA1, v);
      w' := Rol(w, 30);
    }

    /** `_R3` */
    method R3(v: Word, w: Word, x: Word, y: Word, z: Word, i: nat, ghost bytes: seq<Byte>, ghost h: Regs)
      returns (w': Word, z': Word)
      requires 40 <= i < 60 && |bytes| == 64 && m_block.Length == 16 && Working(bytes, h, i, v, w, x, y, z)
      modifies m_block
      ensures Working(bytes, h, i + 1, z', v, w', x, y)
    {
      hide WindowAt, Rol, W, Rounds, Sum, Choice, Majority, Ch, Maj, Par;
      var m := Blk(i, bytes);
      var f := Majority(w, x, y);
      SimplerForms(w, x, y);
      OneMoreRound(bytes, h, i, v, w, x, y, z, f);
      z' := Sum(z, f, m, 0x8F1BBCDC, v);
      w' := Rol(w, 30);
    }

    /** `_R4` */
    method R4(v: Word, w: Word, x: Word, y: Word, z: Word, i: nat, ghost bytes: seq<Byte>, ghost h: Regs)
      returns (w': Word, z': Word)
      requires 60 <= i < 80 && |bytes| == 64 && m_block.Length == 16 && Working(bytes, h, i, v, w, x, y, z)
      modifies m_block
      ensures Working(bytes, h, i + 1, z', v, w', x, y)
    {
      hide WindowAt, Rol, W, Rounds, Sum, Choice, Majority, Ch, Maj, Par;
      var m := Blk(i, bytes);
      var f := Par(w, x, y);
      SimplerForms(w, x, y);
      OneMoreRound(bytes, h, i, v, w, x, y, z, f);
      z' := Sum(z, f, m, 0xCA62C1D6, v);
      w' := Rol(w, 30);
    }

    method Rounds0(a0: Word, b0: Word, c0: Word, d0: Word, e0: Word, ghost bytes: seq<Byte>, ghost h: Regs)
      returns (a: Word, b: Word, c: Word, d: Word, e: Word)
      requires |bytes| == 64 && m_block.Length == 16 && Working(bytes, h, 0, a0, b0, c0, d0, e0)
      modifies m_block
      ensures Working(bytes, h, 20, a, b, c, d, e)
    {
      hide Working;
      a, b, c, d, e := a0, b0, c0, d0, e0;
      b, e := R0(a, b, c, d, e, 0, bytes, h);
      a, d := R0(e, a, b, c, d, 1, bytes, h);
      e, c := R0(d, e, a, b, c, 2, bytes, h);
      d, b := R0(c, d, e, a, b, 3, bytes, h);
      c, a := R0(b, c, d, e, a, 4, bytes, h);
      b, e := R0(a, b, c, d, e, 5, bytes, h);
      a, d := R0(e, a, b, c, d, 6, bytes, h);
      e, c := R0(d, e, a, b, c, 7, bytes, h);
      d, b := R0(c, d, e, a, b, 8, bytes, h);
      c, a := R0(b, c, d, e, a, 9, bytes, h);
      b, e := R0(a, b, c, d, e, 10, bytes, h);
      a, d := R0(e, a, b, c, d, 11, bytes, h);
      e, c := R0(d, e, a, b, c, 12, bytes, h);
      d, b := R0(c, d, e, a, b, 13, bytes, h);
      c, a := R0(b, c, d, e, a, 14, bytes, h);
      b, e := R0(a, b, c, d, e, 15, bytes, h);
      a, d := R1(e, a, b, c, d, 16, bytes, h);
      e, c := R1(d, e, a, b, c, 17, bytes, h);
      d, b := R1(c, d, e, a, b, 18, bytes, h);
      c, a := R1(b, c, d, e, a, 19, bytes, h);
    }

    method Rounds20(a0: Word, b0: Word, c0: Word, d0: Word, e0: Word, ghost bytes: seq<Byte>, ghost h: Regs)
      returns (a: Word, b: Word, c: Word, d: Word, e: Word)
      requires |bytes| == 64 && m_block.Length == 16 && Working(bytes, h, 20, a0, b0, c0, d0, e0)
      modifies m_block
      ensures Working(bytes, h, 40, a, b, c, d, e)
    {
      hide Working;
      a, b, c, d, e := a0, b0, c0, d0, e0;
      b, e := R2(a, b, c, d, e, 20, bytes, h);
      a, d := R2(e, a, b, c, d, 21, bytes, h);
      e, c := R2(d, e, a, b, c, 22, bytes, h);
      d, b := R2(c, d, e, a, b, 23, bytes, h);
      c, a := R2(b, c, d, e, a, 24, bytes, h);
      b, e := R2(a, b, c, d, e, 25, bytes, h);
      a, d := R2(e, a, b, c, d, 26, bytes, h);
      e, c := R2(d, e, a, b, c, 27, bytes, h);
      d, b := R2(c, d, e, a, b, 28, bytes, h);
      c, a := R2(b, c, d, e, a, 29, bytes, h);
      b, e := R2(a, b, c, d, e, 30, bytes, h);
      a, d := R2(e, a, b, c, d, 31, bytes, h);
      e, c := R2(d, e, a, b, c, 32, bytes, h);
      d, b := R2(c, d, e, a, b, 33, bytes, h);
      c, a := R2(b, c, d, e, a, 34, bytes, h);
      b, e := R2(a, b, c, d, e, 35, bytes, h);
      a, d := R2(e, a, b, c, d, 36, bytes, h);
      e, c := R2(d, e, a, b, c, 37, bytes, h);
      d, b := R2(c, d, e, a, b, 38, bytes, h);
      c, a := R2(b, c, d, e, a, 39, bytes, h);
    }

    method Rounds40(a0: Word, b0: Word, c0: Word, d0: Word, e0: Word, ghost bytes: seq<Byte>, ghost h: Regs)
      returns (a: Word, b: Word, c: Word, d: Word, e: Word)
      requires |bytes| == 64 && m_block.Length == 16 && Working(bytes, h, 40, a0, b0, c0, d0, e0)
      modifies m_block
      ensures Working(bytes, h, 60, a, b, c, d, e)
    {
      hide Working;
      a, b, c, d, e := a0, b0, c0, d0, e0;
      b, e := R3(a, b, c, d, e, 40, bytes, h);
      a, d := R3(e, a, b, c, d, 41, bytes, h);
      e, c := R3(d, e, a, b, c, 42, bytes, h);
      d, b := R3(c, d, e, a, b, 43, bytes, h);
      c, a := R3(b, c, d, e, a, 44, bytes, h);
      b, e := R3(a, b, c, d, e, 45, bytes, h);
      a, d := R3(e, a, b, c, d, 46, bytes, h);
      e, c := R3(d, e, a, b, c, 47, bytes, h);
      d, b := R3(c, d, e, a, b, 48, bytes, h);
      c, a := R3(b, c, d, e, a, 49, bytes, h);
      b, e := R3(a, b, c, d, e, 50, bytes, h);
      a, d := R3(e, a, b, c, d, 51, bytes, h);
      e, c := R3(d, e, a, b, c, 52, bytes, h);
      d, b := R3(c, d, e, a, b, 53, bytes, h);
      c, a := R3(b, c, d, e, a, 54, bytes, h);
      b, e := R3(a, b, c, d, e, 55, bytes, h);
      a, d := R3(e, a, b, c, d, 56, bytes, h);
      e, c := R3(d, e, a, b, c, 57, bytes, h);
      d, b := R3(c, d, e, a, b, 58, bytes, h);
      c, a := R3(b, c, d, e, a, 59, bytes, h);
    }

    method Rounds60(a0: Word, b0: Word, c0: Word, d0: Word, e0: Word, ghost bytes: seq<Byte>, ghost h: Regs)
      returns (a: Word, b: Word, c: Word, d: Word, e: Word)
      requires |bytes| == 64 && m_block.Length == 16 && Working(bytes, h, 60, a0, b0, c0, d0, e0)
      modifies m_block
      ensures Working(bytes, h, 80, a, b, c, d, e)
    {
      hide Working;
      a, b, c, d, e := a0, b0, c0, d0, e0;
      b, e := R4(a, b, c, d, e, 60, bytes, h);
      a, d := R4(e, a, b, c, d, 61, bytes, h);
      e, c := R4(d, e, a, b, c, 62, bytes, h);
      d, b := R4(c, d, e, a, b, 63, bytes, h);
      c, a := R4(b, c, d, e, a, 64, bytes, h);
      b, e := R4(a, b, c, d, e, 65, bytes, h);
      a, d := R4(e, a, b, c, d, 66, bytes, h);
      e, c := R4(d, e, a, b, c, 67, bytes, h);
      d, b := R4(c, d, e, a, b, 68, bytes, h);
      c, a := R4(b, c, d, e, a, 69, bytes, h);
      b, e := R4(a, b, c, d, e, 70, bytes, h);
      a, d := R4(e, a, b, c, d, 71, bytes, h);
      e, c := R4(d, e, a, b, c, 72, bytes, h);
      d, b := R4(c, d, e, a, b, 73, bytes, h);
      c, a := R4(b, c, d, e, a, 74, bytes, h);
      b, e := R4(a, b, c, d, e, 75, bytes, h);
      a, d := R4(e, a, b, c, d, 76, bytes, h);
      e, c := R4(d, e, a, b, c, 77, bytes, h);
      d, b := R4(c, d, e, a, b, 78, bytes, h);
      c, a := R4(b, c, d, e, a, 79, bytes, h);
    }

    /** memcpy into the workspace, read back as little-endian words. */
    method LoadBlock(buffer: seq<Byte>)
      requires |buffer| == 64 && m_block.Length == 16
      modifies m_block
      ensures WindowAt(m_block[..], buffer, 0)
    {
      hide LittleWord;
      for i := 0 to 16
        invariant forall j :: 0 <= j < i ==> m_block[j] == LittleWord(buffer[4 * j..4 * j + 4])
      {
        m_block[i] := LittleWord(buffer[4 * i..4 * i + 4]);
      }
    }

    method AddBack(a: Word, b: Word, c: Word, d: Word, e: Word)
      requires Shape()
      modifies m_state
      ensures State() == Plus(old(State()), Regs(a, b, c, d, e))
    {
      hide Add;
      m_state[0] := Add(m_state[0], a);
      m_state[1] := Add(m_state[1], b);
      m_state[2] := Add(m_state[2], c);
      m_state[3] := Add(m_state[3], d);
      m_state[4] := Add(m_state[4], e);
    }

    /** `Transform`: sixteen words in place and renamed registers compute what the standard
        computes with eighty words. */
    method Transform(buffer: seq<Byte>)
      requires Shape() && |buffer| == 64
      modifies m_state, m_block
      ensures State() == Compress(old(State()), buffer)
    {
      hide WindowAt, Rounds, Round, W, Working, Compress, Plus;
      ghost var h := State();
      var a, b, c, d, e := m_state[0], m_state[1], m_state[2], m_state[3], m_state[4];
      LoadBlock(buffer);
      StartsWorking(buffer, h);
      a, b, c, d, e := Rounds0(a, b, c, d, e, buffer, h);
      a, b, c, d, e := Rounds20(a, b, c, d, e, buffer, h);
      a, b, c, d, e := Rounds40(a, b, c, d, e, buffer, h);
      a, b, c, d, e := Rounds60(a, b, c, d, e, buffer, h);
      HasWorked(buffer, h, a, b, c, d, e);
      AddBack(a, b, c, d, e);
    }

    /** memcpy into the buffer. */
    method Keep(j: nat, bytes: seq<Byte>)
      requires Shape() && j + |bytes| <= 64
      modifies m_buffer
      ensures m_buffer[..j] == old(m_buffer[..j]) && m_buffer[j..j + |bytes|] == bytes
    {
      forall i | 0 <= i < |bytes| { m_buffer[j + i] := bytes[i]; }
    }

    /** The count of `Update`. */
    method Count(len: nat)
      requires CountFits(count0, count1, |hashed|) && len < TWO_32
      modifies this`count0, this`count1
      ensures CountFits(count0, count1, |hashed| + len)
    {
      CountAdds(count0, count1, |hashed|, len);
      var added := len * 8 % TWO_32;
      count0 := (count0 + added) % TWO_32;
      if count0 < added { count1 := (count1 + 1) % TWO_32; }
      count1 := (count1 + len / 0x2000_0000) % TWO_32;
    }

    /** The blocks that the data completes: the first from the buffer, the others from the data.
        `i` is the length taken, `j` what is left in the buffer. */
    method TakeBlocks(data: seq<Byte>, j0: nat) returns (i: nat, j: nat)
      requires Shape() && j0 == |hashed| % 64 && State() == HashBlocks(WholeBlocks(hashed))
      requires m_buffer[..j0] == hashed[|WholeBlocks(hashed)|..]
      modifies m_state, m_buffer, m_block
      ensures i <= |data| && j + |data| - i < 64
      ensures i == 0 ==> j == j0 && m_buffer[..] == old(m_buffer[..]) && State() == old(State())
      ensures i > 0 ==> j == 0 && (|hashed| + i) % 64 == 0 && State() == HashBlocks(Front(hashed, data, i))
    {
      hide HashBlocks, Compress, Front, WholeBlocks;
      var len := |data|;
      i, j := 0, j0;
      if j + len > 63 {
        i := 64 - j;
        Keep(j, data[..i]);
        assert m_buffer[..][..j] == m_buffer[..j] && m_buffer[..][j..64] == m_buffer[j..64];
        FirstBlock(hashed, data, j, m_buffer[..]);
        Transform(m_buffer[..]);
        while i + 63 < len
          invariant 0 < i <= len && (|hashed| + i) % 64 == 0
          invariant State() == HashBlocks(Front(hashed, data, i))
        {
          NextBlock(hashed, data, i);
          Transform(data[i..i + 64]);
          i := i + 64;
        }
        j := 0;
      }
    }

    /** `Update`, for lengths that its 32-bit sums can hold. */
    method Update(data: seq<Byte>)
      requires Valid() && |data| + 63 < TWO_32
      modifies this`hashed, this`count0, this`count1, m_state, m_buffer, m_block
      ensures Valid() && hashed == old(hashed) + data
    {
      hide HashBlocks, CountFits, Front, WholeBlocks;
      CountPlace(count0, count1, |hashed|);
      var j := count0 / 8 % 64;
      Count(|data|);
      var i;
      i, j := TakeBlocks(data, j);
      Keep(j, data[i..]);
      assert m_buffer[..][..j] == m_buffer[..j];
      RestKept(hashed, data, i, j, m_buffer[..]);
      hashed := hashed + data;
      assert m_buffer[..][..|hashed| % 64] == m_buffer[..|hashed| % 64];
    }

    method FinalCount() returns (finalcount: seq<Byte>)
      requires Valid()
      ensures finalcount == BigEndian(8 * |hashed| % TWO_64, 8)
    {
      hide HashBlocks, CountFits, WholeBlocks, BigEndian, Octet;
      finalcount := [];
      for i := 0 to 8
        invariant |finalcount| == i
        invariant forall k :: 0 <= k < i ==> finalcount[k] == Octet(if k >= 4 then count0 else count1, k % 4)
      {
        finalcount := finalcount + [Octet(if i >= 4 then count0 else count1, i % 4)];
      }
      CountBytes(count0, count1, |hashed|);
      BigEndianOctets(count0);
      BigEndianOctets(count1);
      OctetsOfBoth(finalcount, count0, count1);
    }

    /** The one bit, and zero bytes up to eight bytes before the end of a block. */
    method PadOut()
      requires Valid()
      modifies this`hashed, this`count0, this`count1, m_state, m_buffer, m_block
      ensures Valid()
      ensures hashed == old(hashed) + [0x80] + Zeros(ZeroCount(|old(hashed)|))
    {
      hide HashBlocks, CountFits, WholeBlocks, ZeroCount;
      ghost var n := |hashed|;
      Update([0x80]);
      ghost var zeros := 0;
      CountPlace(count0, count1, |hashed|);
      ZerosWanted(n, zeros);
      while count0 / 8 % 64 * 8 != 448       // (m_count[0] & 504) != 448
        invariant Valid() && hashed == old(hashed) + [0x80] + Zeros(zeros)
        invariant zeros <= ZeroCount(n)
        invariant count0 / 8 % 64 == (n + 1 + zeros) % 64
        decreases ZeroCount(n) - zeros
      {
        ZerosWanted(n, zeros);
        OneMoreZero(old(hashed) + [0x80], zeros);
        Update([0]);
        zeros := zeros + 1;
        CountPlace(count0, count1, |hashed|);
      }
      ZerosWanted(n, zeros);
    }

    /** `Final`: a one bit, zero bits up to eight bytes before the end of a block, and the count
        as it was before; then the digest, and everything is wiped. */
    method Final()
      requires Valid()
      modifies this, m_state, m_buffer, m_digest, m_block
      ensures m_digest[..] == Sha1(old(hashed))
    {
      hide HashBlocks, CountFits, WholeBlocks, BigEndian;
      var finalcount := FinalCount();
      PadOut();
      Update(finalcount);
      WholeIsAll(hashed);
      assert hashed == Pad(old(hashed));
      TakeDigest();
      Wipe();
    }

    method TakeDigest()
      requires Shape()
      modifies m_digest
      ensures
        var h := State();
        m_digest[..] == WordBytes(h.a) + WordBytes(h.b) + WordBytes(h.c) + WordBytes(h.d) + WordBytes(h.e)
    {
      hide WordBytes, WordOctet;
      for i := 0 to 20
        invariant forall k :: 0 <= k < i ==> m_digest[k] == WordBytes(m_state[k / 4])[k % 4]
      {
        WordOctets(m_state[i / 4], i % 4);
        m_digest[i] := WordOctet(m_state[i / 4], i % 4);
      }
      FiveWords(m_digest[..], m_state[..]);
    }

    /** SHA1_WIPE_VARIABLES; the last transform wipes the workspace. */
    method Wipe()
      requires Shape()
      modifies this, m_state, m_buffer, m_block
      ensures m_buffer[..] == Zeros(64) && count0 == count1 == 0
    {
      forall i | 0 <= i < 64 { m_buffer[i] := 0; }
      m_state[0], m_state[1], m_state[2], m_state[3], m_state[4] := 0, 0, 0, 0, 0;
      count0, count1 := 0, 0;
      Transform(m_buffer[..]);
    }

    method GetHash(dest: array<Byte>)
      requires Shape() && dest.Length >= 20 && dest != m_digest
      modifies dest
      ensures dest[..20] == m_digest[..]
    {
      forall i | 0 <= i < 20 { dest[i] := m_digest[i]; }
    }
  }

  /* ---- The end of a message ---- */

  /** A byte of a count: `(count >> ((3 - i) * 8)) & 255` */
  function Octet(n: nat, i: nat): Byte
    requires i < 4
  {
    (n / (if i == 0 then 0x100_0000 else if i == 1 then 0x1_0000 else if i == 2 then 0x100 else 1) % 256) as Byte
  }

  lemma BigEndianOctets(n: nat)
    ensures BigEndian(n, 4) == [Octet(n, 0), Octet(n, 1), Octet(n, 2), Octet(n, 3)]
  {
    Divides(n);
    assert BigEndian(n / 0x100 / 0x100 / 0x100, 1) == [Octet(n, 0)] by { assert BigEndian(n / 0x100 / 0x100 / 0x100 / 0x100, 0) == []; }
    assert BigEndian(n / 0x100 / 0x100, 2) == [Octet(n, 0), Octet(n, 1)];
    assert BigEndian(n / 0x100, 3) == [Octet(n, 0), Octet(n, 1), Octet(n, 2)];
  }

  lemma Divides(n: nat)
    ensures n / 0x100 / 0x100 == n / 0x1_0000 && n / 0x100 / 0x100 / 0x100 == n / 0x100_0000
  {
  }

  lemma OctetsOfBoth(finalcount: seq<Byte>, lo: nat, hi: nat)
    requires |finalcount| == 8 && forall i :: 0 <= i < 8 ==> finalcount[i] == Octet(if i >= 4 then lo else hi, i % 4)
    ensures finalcount == [Octet(hi, 0), Octet(hi, 1), Octet(hi, 2), Octet(hi, 3)]
                          + [Octet(lo, 0), Octet(lo, 1), Octet(lo, 2), Octet(lo, 3)]
  {
    hide Octet;
  }

  /** A byte of the state: `(m_state[i >> 2] >> ((3 - (i & 3)) * 8)) & 255` */
  function WordOctet(w: Word, k: nat): Byte
    requires k < 4
  {
    ((if k == 0 then w >> 24 else if k == 1 then w >> 16 else if k == 2 then w >> 8 else w) & 0xFF) as Byte
  }

  lemma WordOctets(w: Word, k: nat)
    requires k < 4
    ensures WordOctet(w, k) == WordBytes(w)[k]
  {
  }

  lemma FiveWords(digest: seq<Byte>, state: seq<Word>)
    requires |digest| == 20 && |state| == 5
    requires forall k :: 0 <= k < 20 ==> digest[k] == WordBytes(state[k / 4])[k % 4]
    ensures digest == WordBytes(state[0]) + WordBytes(state[1]) + WordBytes(state[2]) + WordBytes(state[3]) + WordBytes(state[4])
  {
    hide WordBytes;
    forall j | 0 <= j < 5
      ensures digest[4 * j..4 * j + 4] == WordBytes(state[j])
    {
      forall k | 0 <= k < 4
        ensures digest[4 * j + k] == WordBytes(state[j])[k]
      {
        assert (4 * j + k) / 4 == j && (4 * j + k) % 4 == k;
      }
    }
    assert digest == digest[0..4] + digest[4..8] + digest[8..12] + digest[12..16] + digest[16..20];
    assert digest[4 * 0..4] == WordBytes(state[0]) && digest[4 * 1..8] == WordBytes(state[1]);
    assert digest[4 * 2..12] == WordBytes(state[2]) && digest[4 * 3..16] == WordBytes(state[3]);
    assert digest[4 * 4..20] == WordBytes(state[4]);
  }

  /** The padding loop stops after the wanted number of zeros, and not before. */
  lemma ZerosWanted(n: nat, zeros: nat)
    requires zeros <= ZeroCount(n)
    ensures (n + 1 + zeros) % 64 == 56 <==> zeros == ZeroCount(n)
  {
  }

  lemma OneMoreZero(s: seq<Byte>, zeros: nat)
    ensures s + Zeros(zeros) + [0] == s + Zeros(zeros + 1)
  {
  }

  lemma WholeIsAll(s: seq<Byte>)
    ensures |s| % 64 == 0 ==> WholeBlocks(s) == s
  {
  }

  function Join(pieces: seq<seq<Byte>>): seq<Byte> {
    if pieces == [] then [] else Join(pieces[..|pieces| - 1]) + pieces[|pieces| - 1]
  }

  /** Streaming: pieces of any lengths give the digest of what they spell together. */
  method HashPieces(pieces: seq<seq<Byte>>) returns (digest: seq<Byte>)
    requires forall piece <- pieces :: |piece| + 63 < TWO_32
    ensures digest == Sha1(Join(pieces))
  {
    var sha1 := new CSHA1();
    for i := 0 to |pieces|
      invariant sha1.Valid() && sha1.hashed == Join(pieces[..i])
      invariant fresh(sha1) && fresh(sha1.m_state) && fresh(sha1.m_buffer) && fresh(sha1.m_digest) && fresh(sha1.m_block)
    {
      assert pieces[..i + 1][..i] == pieces[..i];
      sha1.Update(pieces[i]);
    }
    assert pieces[..|pieces|] == pieces;
    sha1.Final();
    var dest := new Byte[20];
    sha1.GetHash(dest);
    digest := dest[..];
  }

  /** What is hashed once `i` bytes of the data are taken. */
  function Front(hashed: seq<Byte>, data: seq<Byte>, i: nat): (r: seq<Byte>)
    requires i <= |data| && (|hashed| + i) % 64 == 0
    ensures |r| % 64 == 0
  {
    (hashed + data)[..|hashed| + i]
  }

  /** The first whole block: what waited in the buffer and the front of the data. */
  lemma FirstBlock(hashed: seq<Byte>, data: seq<Byte>, j: nat, buffer: seq<Byte>)
    requires j == |hashed| % 64 && j + |data| > 63 && |buffer| == 64
    requires buffer[..j] == hashed[|WholeBlocks(hashed)|..] && buffer[j..64] == data[..64 - j]
    ensures (|hashed| + 64 - j) % 64 == 0
    ensures HashBlocks(Front(hashed, data, 64 - j)) == Compress(HashBlocks(WholeBlocks(hashed)), buffer)
  {
    hide HashBlocks, Compress;
    var blocks := WholeBlocks(hashed);
    HashMore(blocks, buffer);
    assert buffer == buffer[..j] + buffer[j..64];
    assert hashed == blocks + hashed[|blocks|..];
    assert blocks + buffer == (hashed + data)[..|hashed| + 64 - j];
  }

  lemma NextBlock(hashed: seq<Byte>, data: seq<Byte>, i: nat)
    requires (|hashed| + i) % 64 == 0 && i + 64 <= |data|
    ensures HashBlocks(Front(hashed, data, i + 64)) == Compress(HashBlocks(Front(hashed, data, i)), data[i..i + 64])
  {
    hide HashBlocks, Compress;
    HashMore(Front(hashed, data, i), data[i..i + 64]);
    assert Front(hashed, data, i) + data[i..i + 64] == Front(hashed, data, i + 64);
  }

  /** What is left is kept in the buffer. */
  lemma RestKept(hashed: seq<Byte>, data: seq<Byte>, i: nat, j: nat, buffer: seq<Byte>)
    requires i <= |data| && j + |data| - i < 64 <= |buffer|
    requires if i == 0 then j == |hashed| % 64 && buffer[..j] == hashed[|WholeBlocks(hashed)|..]
             else j == 0 && (|hashed| + i) % 64 == 0
    requires buffer[j..j + |data| - i] == data[i..]
    ensures
      var all := hashed + data;
      && |all| % 64 == j + |data| - i
      && buffer[..|all| % 64] == all[|WholeBlocks(all)|..]
      && WholeBlocks(all) == if i == 0 then WholeBlocks(hashed) else Front(hashed, data, i)
  {
    var all := hashed + data;
    assert |all| % 64 == j + |data| - i;
    assert buffer[..j + |data| - i] == buffer[..j] + buffer[j..j + |data| - i];
    if i == 0 {
      assert |WholeBlocks(all)| == |WholeBlocks(hashed)|;
      assert all[|WholeBlocks(all)|..] == hashed[|WholeBlocks(hashed)|..] + data;
    } else {
      assert |WholeBlocks(all)| == |hashed| + i;
      assert all[|WholeBlocks(all)|..] == data[i..];
    }
  }
}
