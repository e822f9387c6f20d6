/** Base64 as section 4 of RFC 4648 defines it, and the loops that encode and decode it
    through buffers of three and four characters. */
module Base64 {
  type Byte = b: int | 0 <= b < 256

  const UPPER: string := "ABCDEFGHIJKLMNOPQRSTUVWXYZ"
  const LOWER: string := "abcdefghijklmnopqrstuvwxyz"
  const DIGITS: string := "0123456789+/"
  const CHARS: string := UPPER + LOWER + DIGITS

  /* ---- The alphabet ---- */

  function Letter(v: nat): char
    requires v < 64
  {
    if v < 26 then ('A' as int + v) as char
    else if v < 52 then ('a' as int + v - 26) as char
    else if v < 62 then ('0' as int + v - 52) as char
    else if v == 62 then '+' else '/'
  }

  /** `isalnum(c) || c == '+' || c == '/'` */
  predicate IsBase64(c: char) {
    'A' <= c <= 'Z' || 'a' <= c <= 'z' || '0' <= c <= '9' || c == '+' || c == '/'
  }

  function Value(c: char): (v: nat)
    requires IsBase64(c)
    ensures v < 64
  {
    if 'A' <= c <= 'Z' then c as int - 'A' as int
    else if 'a' <= c <= 'z' then c as int - 'a' as int + 26
    else if '0' <= c <= '9' then c as int - '0' as int + 52
    else if c == '+' then 62 else 63
  }

  lemma UpperTable(v: nat)
    requires v < 26
    ensures |UPPER| == 26 && UPPER[v] == ('A' as int + v) as char
  {
  }

  lemma LowerTable(v: nat)
    requires v < 26
    ensures |LOWER| == 26 && LOWER[v] == ('a' as int + v) as char
  {
  }

  lemma DigitTable(v: nat)
    requires v < 12
    ensures |DIGITS| == 12
    ensures DIGITS[v] == if v < 10 then ('0' as int + v) as char else if v == 10 then '+' else '/'
  {
  }

  /** The table is the alphabet. */
  lemma Table(v: nat)
    requires v < 64
    ensures |CHARS| == 64 && CHARS[v] == Letter(v)
  {
    UpperTable(if v < 26 then v else 0);
    LowerTable(if 26 <= v < 52 then v - 26 else 0);
    DigitTable(if 52 <= v then v - 52 else 0);
  }

  /** The letters and their values undo each other. */
  lemma LetterValue(v: nat)
    requires v < 64
    ensures IsBase64(Letter(v)) && Value(Letter(v)) == v
  {
  }

  lemma ValueLetter(c: char)
    requires IsBase64(c)
    ensures Letter(Value(c)) == c
  {
  }

  /** `base64_chars.find(c)` in an unsigned char: 255 if the table does not hold `c`. */
  method Find(c: char) returns (v: Byte)
    ensures IsBase64(c) ==> v == Value(c)
    ensures !IsBase64(c) ==> v == 255
  {
    hide Letter, Value, IsBase64;
    Table(0);
    for k := 0 to 64
      invariant forall j :: 0 <= j < k ==> Letter(j) != c
    {
      Table(k);
      LetterValue(k);
      if CHARS[k] == c { return k; }
    }
    if IsBase64(c) {
      ValueLetter(c);
      assert false;
    }
    v := 255;
  }

  /* ---- The standard ---- */

  /** The sextets of a 24-bit group, first to last. */
  function Sextet(group: nat, k: nat): (v: nat)
    ensures v < 64
  {
    if k == 0 then group / 0x40000 % 64
    else if k == 1 then group / 0x1000 % 64
    else if k == 2 then group / 0x40 % 64
    else group % 64
  }

  function Group(a: Byte, b: Byte, c: Byte): nat { a * 0x10000 + b * 0x100 + c }

  /** `n` characters of a group. */
  function Chars(group: nat, n: nat): (r: string)
    ensures |r| == n
  {
    if n == 0 then "" else Chars(group, n - 1) + [Letter(Sextet(group, n - 1))]
  }

  function Encoded(x: seq<Byte>): string {
    if |x| == 0 then ""
    else if |x| == 1 then Chars(Group(x[0], 0, 0), 2) + "=="
    else if |x| == 2 then Chars(Group(x[0], x[1], 0), 3) + "="
    else Chars(Group(x[0], x[1], x[2]), 4) + Encoded(x[3..])
  }

  /** Four sextets make three bytes. */
  function Joined(p: nat, q: nat, r: nat, s: nat): nat { p * 0x40000 + q * 0x1000 + r * 0x40 + s }

  function Octets(group: nat): seq<Byte> { [group / 0x10000 % 256, group / 0x100 % 256, group % 256] }

  /** A text of the alphabet's letters: whole groups, and then 2 letters for a byte or 3 for
      two; a single letter gives nothing. */
  function DecodedLetters(s: string): seq<Byte>
    requires forall c <- s :: IsBase64(c)
  {
    if |s| <= 1 then []
    else if |s| == 2 then Octets(Joined(Value(s[0]), Value(s[1]), 0, 0))[..1]
    else if |s| == 3 then Octets(Joined(Value(s[0]), Value(s[1]), Value(s[2]), 0))[..2]
    else Octets(Joined(Value(s[0]), Value(s[1]), Value(s[2]), Value(s[3]))) + DecodedLetters(s[4..])
  }

  /** Decoding ends at the first character that is no letter. */
  function Letters(s: string): (r: string)
    ensures forall c <- r :: IsBase64(c)
    ensures r <= s && (|r| < |s| ==> !IsBase64(s[|r|]))
  {
    if s == "" || !IsBase64(s[0]) then "" else [s[0]] + Letters(s[1..])
  }

  function Decoded(s: string): seq<Byte> { DecodedLetters(Letters(s)) }

  /* ---- What the standard's forms have to do with each other ---- */

  lemma {:induction false} EncodedLength(x: seq<Byte>)
    ensures |Encoded(x)| == 4 * ((|x| + 2) / 3)
  {
    hide Chars, Group;
    if |x| >= 3 { EncodedLength(x[3..]); }
  }

  lemma GroupBack(a: Byte, b: Byte, c: Byte)
    ensures
      var g := Group(a, b, c);
      && Octets(Joined(Sextet(g, 0), Sextet(g, 1), Sextet(g, 2), Sextet(g, 3))) == [a, b, c]
      && (c == 0 ==> Octets(Joined(Sextet(g, 0), Sextet(g, 1), Sextet(g, 2), 0)) == [a, b, c])
      && (b == 0 && c == 0 ==> Octets(Joined(Sextet(g, 0), Sextet(g, 1), 0, 0)) == [a, b, c])
  {
    hide Joined, Sextet;
    var g := Group(a, b, c);
    JoinedBack(g);
    GroupParts(a, b, c);
    GroupSextets(a, b, c);
  }

  lemma GroupParts(a: Byte, b: Byte, c: Byte)
    ensures
      var g := Group(a, b, c);
      g < 0x1000000 && g / 0x10000 == a && g / 0x100 == a * 0x100 + b && g / 0x100 % 256 == b && g % 256 == c
  {
  }

  /** The sextets of a group by its bytes. */
  lemma GroupSextets(a: Byte, b: Byte, c: Byte)
    ensures
      var g := Group(a, b, c);
      && Sextet(g, 0) == a / 4 && Sextet(g, 1) == a % 4 * 16 + b / 16
      && Sextet(g, 2) == b % 16 * 4 + c / 64 && Sextet(g, 3) == c % 64
  {
    FirstSextet(a, b, c);
    SecondSextet(a, b, c);
    ThirdSextet(a, b, c);
    Quotient(Group(a, b, c), 64, a * 1024 + b * 4 + c / 64, c % 64);
  }

  lemma Quotient(n: nat, m: nat, q: nat, r: nat)
    requires 0 < m && n == q * m + r && r < m
    ensures n / m == q && n % m == r
  {
    var d := n / m - q;
    assert d * m == r - n % m;
  }

  lemma FirstSextet(a: Byte, b: Byte, c: Byte)
    ensures Group(a, b, c) / 0x40000 % 64 == a / 4
  {
    Quotient(Group(a, b, c), 0x40000, a / 4, a % 4 * 0x10000 + b * 0x100 + c);
  }

  lemma SecondSextet(a: Byte, b: Byte, c: Byte)
    ensures Group(a, b, c) / 0x1000 % 64 == a % 4 * 16 + b / 16
  {
    var x := a * 16 + b / 16;
    Quotient(Group(a, b, c), 0x1000, x, b % 16 * 0x100 + c);
    Quotient(x, 64, a / 4, a % 4 * 16 + b / 16);
  }

  lemma ThirdSextet(a: Byte, b: Byte, c: Byte)
    ensures Group(a, b, c) / 0x40 % 64 == b % 16 * 4 + c / 64
  {
    var x := a * 1024 + b * 4 + c / 64;
    Quotient(Group(a, b, c), 0x40, x, c % 64);
    Quotient(x, 64, a * 16 + b / 16, b % 16 * 4 + c / 64);
  }

  lemma JoinedBack(g: nat)
    requires g < 0x1000000
    ensures Joined(Sextet(g, 0), Sextet(g, 1), Sextet(g, 2), Sextet(g, 3)) == g
  {
    var p, q, r, s := g / 0x40000, g / 0x1000 % 64, g / 0x40 % 64, g % 64;
    Quotient(g / 0x1000, 64, p, q);
    Quotient(g / 0x40, 64, g / 0x1000, r);
  }

  /** The letters of a group, and their values. */
  lemma CharsValues(g: nat, n: nat)
    requires n <= 4
    ensures forall k :: 0 <= k < n ==> IsBase64(Chars(g, n)[k]) && Value(Chars(g, n)[k]) == Sextet(g, k)
    ensures forall c <- Chars(g, n) :: IsBase64(c)
  {
    hide Letter, Value, Sextet, IsBase64;
    if n > 0 {
      CharsValues(g, n - 1);
      LetterValue(Sextet(g, n - 1));
    }
  }

  lemma {:induction false} LettersThrough(a: string, b: string)
    requires forall c <- a :: IsBase64(c)
    ensures Letters(a + b) == a + Letters(b)
  {
    hide IsBase64, Letters;
    if a == "" {
      assert a + b == b;
    } else {
      assert forall c <- a[1..] :: c in a;
      LettersThrough(a[1..], b);
      assert (a + b)[1..] == a[1..] + b && (a + b)[0] == a[0] && a[0] in a;
      FirstLetter(a + b);
      InFront([a[0]], a[1..], Letters(b));
      assert a == [a[0]] + a[1..];
    }
  }

  lemma FirstLetter(s: string)
    requires s != "" && IsBase64(s[0])
    ensures Letters(s) == [s[0]] + Letters(s[1..])
  {
  }

  lemma InFront(a: string, b: string, c: string)
    ensures a + (b + c) == (a + b) + c
  {
  }

  lemma PaddingEnds()
    ensures Letters("=") == "" && Letters("==") == "" && Letters("") == ""
  {
  }

  /** Round trip: every byte string is what decoding its encoding gives. */
  lemma {:induction false} RoundTrip(x: seq<Byte>)
    ensures Decoded(Encoded(x)) == x
  {
    hide Value, Sextet, IsBase64, Chars, Octets, Joined, Group;
    PaddingEnds();
    if |x| == 1 {
      TailBack(x[0], 0, 2, "==");
    } else if |x| == 2 {
      TailBack(x[0], x[1], 3, "=");
    } else if |x| >= 3 {
      var g := Group(x[0], x[1], x[2]);
      var four, rest := Chars(g, 4), Encoded(x[3..]);
      RoundTrip(x[3..]);
      CharsValues(g, 4);
      LettersThrough(four, rest);
      GroupBack(x[0], x[1], x[2]);
      assert (four + Letters(rest))[4..] == Letters(rest);
    }
  }

  lemma TailBack(a: Byte, b: Byte, n: nat, padding: string)
    requires (n == 2 && b == 0) || n == 3
    requires Letters(padding) == ""
    ensures Decoded(Chars(Group(a, b, 0), n) + padding) == [a, b][..n - 1]
  {
    hide Value, Sextet, IsBase64, Chars, Octets, Joined, Group;
    var g := Group(a, b, 0);
    CharsValues(g, n);
    LettersThrough(Chars(g, n), padding);
    GroupBack(a, b, 0);
    assert Chars(g, n) + "" == Chars(g, n);
  }

  /* ---- The encoder ---- */

  lemma {:induction false} EncodedOneMore(x: seq<Byte>, y: seq<Byte>)
    requires |x| % 3 == 0
    ensures Encoded(x + y) == Encoded(x) + Encoded(y)
  {
    hide Chars, Group, Encoded;
    if x == [] {
      NothingEncoded();
      assert x + y == y && "" + Encoded(y) == Encoded(y);
    } else {
      EncodedOneMore(x[3..], y);
      assert (x + y)[3..] == x[3..] + y && (x + y)[..3] == x[..3];
      GroupEncoded(x);
      GroupEncoded(x + y);
      InFront(Chars(Group(x[0], x[1], x[2]), 4), Encoded(x[3..]), Encoded(y));
    }
  }

  lemma NothingEncoded()
    ensures Encoded([]) == ""
  {
  }

  lemma GroupEncoded(x: seq<Byte>)
    requires |x| >= 3
    ensures Encoded(x) == Chars(Group(x[0], x[1], x[2]), 4) + Encoded(x[3..])
  {
    hide Chars, Group;
  }

  /** The masks and shifts of the encoder give the sextets of the group. */
  function Quad(t: seq<Byte>): (r: seq<nat>)
    requires |t| == 3
    ensures |r| == 4 && forall v <- r :: v < 64
  {
    [t[0] / 4, t[0] % 4 * 16 + t[1] / 16, t[1] % 16 * 4 + t[2] / 64, t[2] % 64]
  }

  lemma QuadSextets(t: seq<Byte>)
    requires |t| == 3
    ensures forall k :: 0 <= k < 4 ==> Quad(t)[k] == Sextet(Group(t[0], t[1], t[2]), k)
  {
    hide Sextet, Group;
    GroupSextets(t[0], t[1], t[2]);
  }

  /** `n` characters of the table, for the first `n` sextets. */
  method Emit(ret: string, quad: seq<nat>, n: nat, ghost g: nat) returns (r: string)
    requires |quad| == 4 && n <= 4 && forall k :: 0 <= k < 4 ==> quad[k] == Sextet(g, k)
    ensures r == ret + Chars(g, n)
  {
    hide Letter, Sextet;
    r := ret;
    for i := 0 to n
      invariant r == ret + Chars(g, i)
    {
      Table(quad[i]);
      r := r + [CHARS[quad[i]]];
    }
  }

  /** `base64_encode` */
  method Encode(bytes: seq<Byte>) returns (ret: string)
    ensures ret == Encoded(bytes)
  {
    hide Sextet, Chars, Group, Quad;
    ret := "";
    var i := 0;
    var three: seq<Byte> := [0, 0, 0];
    for p := 0 to |bytes|
      invariant i < 3 && i <= p && (p - i) % 3 == 0 && |three| == 3
      invariant ret == Encoded(bytes[..p - i]) && three[..i] == bytes[p - i..p]
    {
      ghost var from := p - i;
      assert three[i := bytes[p]][..i + 1] == bytes[from..p + 1] by { assert three[..i] + [bytes[p]] == bytes[from..p + 1]; }
      three := three[i := bytes[p]];
      i := i + 1;
      if i == 3 {
        QuadSextets(three);
        ret := Emit(ret, Quad(three), 4, Group(three[0], three[1], three[2]));
        WholeGroup(bytes, from, three);
        i := 0;
      }
    }
    if i == 0 {
      assert bytes[..|bytes|] == bytes;
    } else {
      ghost var rest := three[..i];
      for j := i to 3
        invariant |three| == 3 && three[..i] == rest && forall k :: i <= k < j ==> three[k] == 0
      {
        three := three[j := 0];
      }
      QuadSextets(three);
      assert three[0] == rest[0] && (i == 2 ==> three[1] == rest[1]);
      LastGroup(bytes[..|bytes| - i], rest, three);
      assert bytes == bytes[..|bytes| - i] + rest;
      ret := Emit(ret, Quad(three), i + 1, Group(three[0], three[1], three[2]));
      while i < 3
        invariant 1 <= i <= 3
        invariant ret + Padding(i) == Encoded(bytes)
      {
        ret := ret + "=";
        i := i + 1;
      }
    }
  }

  function Padding(i: nat): string { if i == 1 then "==" else if i == 2 then "=" else "" }

  lemma WholeGroup(bytes: seq<Byte>, from: nat, three: seq<Byte>)
    requires from + 3 <= |bytes| && from % 3 == 0 && |three| == 3 && three[..3] == bytes[from..from + 3]
    ensures Encoded(bytes[..from + 3]) == Encoded(bytes[..from]) + Chars(Group(three[0], three[1], three[2]), 4)
  {
    hide Chars, Group;
    EncodedOneMore(bytes[..from], three);
    assert bytes[..from] + three == bytes[..from + 3];
    assert three[3..] == [] && Encoded(three[3..]) == "";
  }

  /** The last one or two bytes, with zeros behind them. */
  lemma LastGroup(head: seq<Byte>, rest: seq<Byte>, three: seq<Byte>)
    requires |head| % 3 == 0 && 1 <= |rest| <= 2 && |three| == 3
    requires three[0] == rest[0] && three[1] == (if |rest| == 2 then rest[1] else 0) && three[2] == 0
    ensures Encoded(head + rest)
            == Encoded(head) + Chars(Group(three[0], three[1], three[2]), |rest| + 1) + Padding(|rest|)
  {
    hide Encoded, Chars, Group, Padding;
    EncodedOneMore(head, rest);
    EncodedTail(rest);
  }

  lemma EncodedTail(rest: seq<Byte>)
    requires 1 <= |rest| <= 2
    ensures Encoded(rest) == Chars(Group(rest[0], if |rest| == 2 then rest[1] else 0, 0), |rest| + 1) + Padding(|rest|)
  {
    hide Chars, Group;
  }

  /* ---- The decoder ---- */

  /** `char_array_3` from `char_array_4`, cut to eight bits each. */
  function Three(q: seq<Byte>): (r: seq<Byte>)
    requires |q| == 4
    ensures |r| == 3
  {
    var (a: int, b: int, c: int, d: int) := (q[0], q[1], q[2], q[3]);
    [(a * 4 + b / 16 % 4) % 256, (b % 16 * 16 + c / 4 % 16) % 256, (c % 4 * 64 + d) % 256]
  }

  lemma JoinedOctets(p: nat, q: nat, r: nat, s: nat)
    requires p < 64 && q < 64 && r < 64 && s < 64
    ensures Octets(Joined(p, q, r, s)) == [p * 4 + q / 16, q % 16 * 16 + r / 4, r % 4 * 64 + s]
  {
    var g, x := Joined(p, q, r, s), p * 0x400 + q * 0x10 + r / 4;
    Quotient(g, 0x10000, p * 4 + q / 16, q % 16 * 0x1000 + r * 0x40 + s);
    Quotient(g, 0x100, x, r % 4 * 64 + s);
    Quotient(x, 0x100, p * 4 + q / 16, q % 16 * 16 + r / 4);
  }

  /** What the loop computes is what the letters' sextets join to. Slots without a letter hold
      255, which spoils only bytes that are not given out. */
  lemma ThreeOctets(p: nat, q: nat, r: nat, s: nat)
    requires p < 64 && q < 64 && r < 64 && s < 64
    ensures Three([p, q, r, s]) == Octets(Joined(p, q, r, s))
    ensures Three([p, q, r, 255])[..2] == Octets(Joined(p, q, r, 0))[..2]
    ensures Three([p, q, 255, 255])[..1] == Octets(Joined(p, q, 0, 0))[..1]
  {
    hide Joined, Octets, Three;
    ThreeOf(p, q, r, s);
    ThreeOf(p, q, r, 255);
    ThreeOf(p, q, 255, 255);
    JoinedOctets(p, q, r, s);
    JoinedOctets(p, q, r, 0);
    JoinedOctets(p, q, 0, 0);
  }

  /** Only the byte that a slot's high bits go into depends on them. */
  lemma ThreeOf(p: nat, q: nat, r: nat, s: nat)
    requires p < 64 && q < 64 && (r < 64 || r == 255) && (s < 64 || s == 255)
    ensures |Three([p, q, r, s])| == 3 && Three([p, q, r, s])[0] == p * 4 + q / 16
    ensures r < 64 ==> Three([p, q, r, s])[1] == q % 16 * 16 + r / 4
    ensures r < 64 && s < 64 ==> Three([p, q, r, s])[2] == r % 4 * 64 + s
  {
    Fits(p, q / 16, 4);
    if r < 64 { Fits(q % 16, r / 4, 16); }
    if s < 64 { Fits(r % 4, s, 64); }
  }

  lemma Fits(high: nat, low: nat, w: nat)
    requires w in {4, 16, 64} && low < w && high < 256 / w
    ensures low % w == low && (high * w + low) % 256 == high * w + low
  {
  }

  lemma SextetsBack(p: nat, q: nat, r: nat, s: nat)
    requires p < 64 && q < 64 && r < 64 && s < 64
    ensures
      var o := Octets(Joined(p, q, r, s));
      var g := Group(o[0], o[1], o[2]);
      Sextet(g, 0) == p && Sextet(g, 1) == q && Sextet(g, 2) == r && Sextet(g, 3) == s
  {
    hide Joined, Octets, Group, Sextet;
    JoinedOctets(p, q, r, s);
    var a, b, c := p * 4 + q / 16, q % 16 * 16 + r / 4, r % 4 * 64 + s;
    Quotient(a, 4, p, q / 16);
    Quotient(b, 16, q % 16, r / 4);
    Quotient(c, 64, r % 4, s);
    GroupSextets(a, b, c);
  }

  lemma FourChars(four: string)
    requires |four| == 4 && forall c <- four :: IsBase64(c)
    ensures
      var o := Octets(Joined(Value(four[0]), Value(four[1]), Value(four[2]), Value(four[3])));
      Chars(Group(o[0], o[1], o[2]), 4) == four
  {
    hide Joined, Octets, Group, Sextet, Value, Letter, IsBase64;
    assert four[0] in four && four[1] in four && four[2] in four && four[3] in four;
    SextetsBack(Value(four[0]), Value(four[1]), Value(four[2]), Value(four[3]));
    OctetsLength(Joined(Value(four[0]), Value(four[1]), Value(four[2]), Value(four[3])));
    var o := Octets(Joined(Value(four[0]), Value(four[1]), Value(four[2]), Value(four[3])));
    var g := Group(o[0], o[1], o[2]);
    forall k | 0 <= k < 4
      ensures Letter(Sextet(g, k)) == four[k]
    {
      ValueLetter(four[k]);
    }
    assert Chars(g, 0) == "" && Chars(g, 1) == [four[0]];
    assert Chars(g, 2) == [four[0], four[1]];
    assert Chars(g, 3) == [four[0], four[1], four[2]];
  }

  /** The other way round: whole groups of letters are what encoding gives back. */
  lemma {:induction false} EncodingDecoded(s: string)
    requires |s| % 4 == 0 && forall c <- s :: IsBase64(c)
    ensures Encoded(DecodedLetters(s)) == s
  {
    hide Joined, Octets, Group, Value, IsBase64, Chars;
    if s != "" {
      assert (forall c <- s[..4] :: c in s) && (forall c <- s[4..] :: c in s);
      FourChars(s[..4]);
      EncodingDecoded(s[4..]);
      var o := Octets(Joined(Value(s[0]), Value(s[1]), Value(s[2]), Value(s[3])));
      assert |o| == 3 by { OctetsLength(Joined(Value(s[0]), Value(s[1]), Value(s[2]), Value(s[3]))); }
      assert (o + DecodedLetters(s[4..]))[3..] == DecodedLetters(s[4..]);
      assert s == s[..4] + s[4..];
    }
  }

  lemma OctetsLength(g: nat)
    ensures |Octets(g)| == 3
  {
  }

  lemma {:induction false} DecodedOneMore(s: string, t: string)
    requires |s| % 4 == 0 && (forall c <- s :: IsBase64(c)) && (forall c <- t :: IsBase64(c))
    ensures DecodedLetters(s + t) == DecodedLetters(s) + DecodedLetters(t)
  {
    hide IsBase64, Value, Octets, Joined;
    if s == "" {
      assert s + t == t;
    } else {
      assert forall c <- s[..4] :: c in s;
      DecodedOneMore(s[4..], t);
      assert (s + t)[4..] == s[4..] + t;
    }
  }

  /** The bytes of the table's indexes. */
  method Indexes(four: string, ghost n: nat) returns (q: seq<Byte>)
    requires |four| == 4 && n <= 4
    requires forall k :: 0 <= k < n ==> IsBase64(four[k])
    requires forall k :: n <= k < 4 ==> four[k] == '\0'
    ensures |q| == 4
    ensures forall k :: 0 <= k < n ==> q[k] == Value(four[k])
    ensures forall k :: n <= k < 4 ==> q[k] == 255
  {
    hide Value;
    q := [];
    for j := 0 to 4
      invariant |q| == j
      invariant forall k :: 0 <= k < j && k < n ==> q[k] == Value(four[k])
      invariant forall k :: n <= k < j ==> q[k] == 255
    {
      var v := Find(four[j]);
      q := q + [v];
    }
  }

  lemma LettersUpto(s: string, n: nat)
    requires n <= |s| && (forall k :: 0 <= k < n ==> IsBase64(s[k])) && (n < |s| ==> !IsBase64(s[n]))
    ensures Letters(s) == s[..n]
  {
    hide IsBase64;
    var r := Letters(s);
    assert |r| >= n;
    assert n < |s| ==> |r| <= n by { assert forall k :: 0 <= k < |r| ==> r[k] in r && r[k] == s[k]; }
  }

  /** The tail of `base64_decode`: the empty slots are filled with the character 0. */
  method DecodeTail(encoded: string, pos: nat, four: string, i: nat) returns (tail: seq<Byte>)
    requires 1 <= i <= 3 && i <= pos <= |encoded| && (pos - i) % 4 == 0 && |four| == 4
    requires forall k :: 0 <= k < pos ==> IsBase64(encoded[k])
    requires four[..i] == encoded[pos - i..pos]
    ensures (forall c <- encoded[..pos - i] :: IsBase64(c)) && forall c <- encoded[..pos] :: IsBase64(c)
    ensures DecodedLetters(encoded[..pos]) == DecodedLetters(encoded[..pos - i]) + tail
  {
    hide IsBase64, Value, Three, DecodedLetters;
    var all := four;
    for j := i to 4
      invariant |all| == 4 && all[..i] == four[..i] && forall k :: i <= k < j ==> all[k] == '\0'
    {
      all := all[j := '\0'];
    }
    assert forall k :: 0 <= k < i ==> all[k] == all[..i][k] == encoded[pos - i..pos][k] == encoded[pos - i + k];
    var q := Indexes(all, i);
    LastLetters(encoded, pos, i, q);
    tail := Three(q)[..i - 1];
  }

  /** `base64_decode` */
  method Decode(encoded: string) returns (ret: seq<Byte>)
    ensures ret == Decoded(encoded)
  {
    hide Value, DecodedLetters, Three, IsBase64, Letters;
    ret := [];
    NothingDecoded(encoded);
    var i, pos := 0, 0;
    var four := ['\0', '\0', '\0', '\0'];
    while pos < |encoded| && encoded[pos] != '=' && IsBase64(encoded[pos])
      invariant i < 4 && i <= pos <= |encoded| && (pos - i) % 4 == 0 && |four| == 4
      invariant forall k :: 0 <= k < pos ==> IsBase64(encoded[k])
      invariant forall c <- encoded[..pos - i] :: IsBase64(c)
      invariant ret == DecodedLetters(encoded[..pos - i]) && four[..i] == encoded[pos - i..pos]
    {
      ghost var from := pos - i;
      assert four[i := encoded[pos]][..i + 1] == encoded[from..pos + 1] by {
        assert four[..i] + [encoded[pos]] == encoded[from..pos + 1];
      }
      four := four[i := encoded[pos]];
      i, pos := i + 1, pos + 1;
      if i == 4 {
        assert four == four[..4];
        var q := Indexes(four, 4);
        ret := ret + Three(q);
        FourLetters(encoded, from, four, q);
        i := 0;
      }
    }
    EqualsSign();
    LettersUpto(encoded, pos);
    if i != 0 {
      var tail := DecodeTail(encoded, pos, four, i);
      ret := ret + tail;
    }
  }

  lemma NothingDecoded(s: string)
    ensures (forall c <- s[..0] :: IsBase64(c)) && DecodedLetters(s[..0]) == []
  {
  }

  lemma EqualsSign()
    ensures !IsBase64('=') && !IsBase64('\0')
  {
  }

  lemma FourLetters(encoded: string, from: nat, four: string, q: seq<Byte>)
    requires from + 4 <= |encoded| && from % 4 == 0 && four == encoded[from..from + 4] && |q| == 4
    requires forall k :: 0 <= k < from + 4 ==> IsBase64(encoded[k])
    requires forall k :: 0 <= k < 4 ==> q[k] == Value(four[k])
    ensures (forall c <- encoded[..from] :: IsBase64(c)) && forall c <- encoded[..from + 4] :: IsBase64(c)
    ensures DecodedLetters(encoded[..from + 4]) == DecodedLetters(encoded[..from]) + Three(q)
  {
    hide IsBase64, Value, Octets, Joined, Three;
    assert encoded[..from + 4] == encoded[..from] + four;
    DecodedOneMore(encoded[..from], four);
    assert four[4..] == "" && DecodedLetters(four[4..]) == [];
    ThreeOctets(Value(four[0]), Value(four[1]), Value(four[2]), Value(four[3]));
    assert q == [Value(four[0]), Value(four[1]), Value(four[2]), Value(four[3])];
  }

  /** One, two or three letters that are left. */
  lemma LastLetters(encoded: string, pos: nat, i: nat, q: seq<Byte>)
    requires 1 <= i <= 3 && i <= pos <= |encoded| && (pos - i) % 4 == 0 && |q| == 4
    requires forall k :: 0 <= k < pos ==> IsBase64(encoded[k])
    requires forall k :: 0 <= k < i ==> q[k] == Value(encoded[pos - i + k])
    requires forall k :: i <= k < 4 ==> q[k] == 255
    ensures (forall c <- encoded[..pos - i] :: IsBase64(c)) && forall c <- encoded[..pos] :: IsBase64(c)
    ensures DecodedLetters(encoded[..pos]) == DecodedLetters(encoded[..pos - i]) + Three(q)[..i - 1]
  {
    hide IsBase64, Value, Octets, Joined, Three;
    var rest := encoded[pos - i..pos];
    assert encoded[..pos] == encoded[..pos - i] + rest;
    DecodedOneMore(encoded[..pos - i], rest);
    if i >= 2 {
      var p, r := Value(rest[0]), Value(rest[1]);
      ThreeOctets(p, r, if i == 3 then Value(rest[2]) else 0, 0);
      assert i == 2 ==> q == [p, r, 255, 255];
      assert i == 3 ==> q == [p, r, Value(rest[2]), 255];
    }
  }
}
