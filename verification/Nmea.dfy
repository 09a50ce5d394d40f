/**
 The checksum of NMEA 0183 sentences: the checker `NmeaCheck`, and the facts that any writer of
 the checksum field needs to agree with it.
 */
module Nmea {
  import opened Basics

  const WORD_MODULUS: int := 0x1_0000_0000

  /** An `unsigned int`. */
  type Word = w: int | 0 <= w < WORD_MODULUS witness 0

  /** A `char` that enters `int` arithmetic: the sign bit is extended. */
  function SignExtend(b: Byte): Word {
    if b < 0x80 then b else b + (WORD_MODULUS - 0x100)
  }

  /** C's `^`, bit by bit from the lowest one. */
  function Xor(a: nat, b: nat): nat
    decreases a + b
  {
    if a == 0 && b == 0 then 0 else (a + b) % 2 + 2 * Xor(a / 2, b / 2)
  }

  function Pow2(m: nat): (p: nat)
    ensures p > 0
  {
    if m == 0 then 1 else 2 * Pow2(m - 1)
  }

  lemma {:induction false} HalvesOf(x: nat, p: nat)
    requires p > 0
    ensures x % (2 * p) == x % 2 + 2 * ((x / 2) % p)
    ensures (x % (2 * p)) % 2 == x % 2 && (x % (2 * p)) / 2 == (x / 2) % p
  {
    var q, r := (x / 2) / p, (x / 2) % p;
    assert x == x % 2 + 2 * (q * p + r);
    assert 2 * (q * p) == q * (2 * p);
    var rest := x % 2 + 2 * r;
    assert x == q * (2 * p) + rest && 0 <= rest < 2 * p;
    Remainder(x, 2 * p, q, rest);
  }

  lemma {:induction false} Remainder(x: nat, d: nat, q: nat, r: nat)
    requires x == q * d + r && r < d
    ensures x % d == r
  {
    var k: int := x / d - q;
    assert x == (q + k) * d + x % d;
    assert (q + k) * d == q * d + k * d;
    assert k <= 0 by {
      assert k >= 1 ==> k * d >= d;
    }
    assert k >= 0 by {
      assert k <= -1 ==> k * d <= -1 * d;
    }
  }

  lemma {:induction false} Doubled(r: nat, x: nat)
    requires r < 2
    ensures (r + 2 * x) % 2 == r && (r + 2 * x) / 2 == x
  {
  }

  lemma {:induction false} XorHalves(a: nat, b: nat)
    ensures Xor(a, b) % 2 == (a + b) % 2 && Xor(a, b) / 2 == Xor(a / 2, b / 2)
  {
    Doubled((a + b) % 2, Xor(a / 2, b / 2));
    assert 0 / 2 == 0 && Xor(0, 0) == 0;
  }

  /** Bit `k`, counted from the lowest one. */
  function Bit(x: nat, k: nat): bool {
    if k == 0 then x % 2 == 1 else Bit(x / 2, k - 1)
  }

  /** Every bit of an exclusive or says whether the bits of the operands differ. */
  lemma {:induction false} XorBits(a: nat, b: nat, k: nat)
    ensures Bit(Xor(a, b), k) <==> Bit(a, k) != Bit(b, k)
  {
    hide Xor;
    XorHalves(a, b);
    if k > 0 {
      XorBits(a / 2, b / 2, k - 1);
    }
  }

  /** The low bits of an exclusive or are the exclusive or of the low bits. */
  lemma {:induction false} XorLowBits(a: nat, b: nat, m: nat)
    ensures Xor(a, b) % Pow2(m) == Xor(a % Pow2(m), b % Pow2(m))
  {
    if m == 0 {
      assert a % 1 == 0 && b % 1 == 0 && Xor(0, 0) == 0;
    } else {
      var p := Pow2(m - 1);
      XorLowBits(a / 2, b / 2, m - 1);
      XorLowBitsStep(a, b, p);
    }
  }

  lemma {:induction false} XorLowBitsStep(a: nat, b: nat, p: nat)
    requires p > 0 && Xor(a / 2, b / 2) % p == Xor((a / 2) % p, (b / 2) % p)
    ensures Xor(a, b) % (2 * p) == Xor(a % (2 * p), b % (2 * p))
  {
    var a', b' := a % (2 * p), b % (2 * p);
    HalvesOf(a, p);
    HalvesOf(b, p);
    XorHalves(a, b);
    XorHalves(a', b');
    HalvesOf(Xor(a, b), p);
    SameParity(a, b, a', b');
    FromHalves(Xor(a, b) % (2 * p), Xor(a', b'));
  }

  lemma {:induction false} SameParity(a: nat, b: nat, a': nat, b': nat)
    requires a % 2 == a' % 2 && b % 2 == b' % 2
    ensures (a + b) % 2 == (a' + b') % 2
  {
  }

  lemma {:induction false} FromHalves(x: nat, y: nat)
    requires x % 2 == y % 2 && x / 2 == y / 2
    ensures x == y
  {
  }

  lemma {:induction false} XorInjective(a: nat, b: nat, c: nat)
    requires b != c
    ensures Xor(a, b) != Xor(a, c) && Xor(b, a) != Xor(c, a)
    decreases a + b + c
  {
    XorHalves(a, b);
    XorHalves(a, c);
    XorHalves(b, a);
    XorHalves(c, a);
    if b / 2 != c / 2 {
      XorInjective(a / 2, b / 2, c / 2);
    } else {
      OtherParity(a, b, c);
    }
  }

  lemma {:induction false} OtherParity(a: nat, b: nat, c: nat)
    requires b != c && b / 2 == c / 2
    ensures (a + b) % 2 != (a + c) % 2 && (b + a) % 2 != (c + a) % 2
  {
  }

  /** The exclusive or of `m`-bit numbers is one. */
  lemma {:induction false} XorBounded(a: nat, b: nat, m: nat)
    requires a < Pow2(m) && b < Pow2(m)
    ensures Xor(a, b) < Pow2(m)
  {
    if m == 0 {
      assert Xor(0, 0) == 0;
    } else {
      XorBounded(a / 2, b / 2, m - 1);
      XorHalves(a, b);
    }
  }

  lemma {:induction false} Widths()
    ensures Pow2(8) == 0x100 && Pow2(32) == WORD_MODULUS
  {
    assert Pow2(4) == 0x10;
    assert Pow2(8) == 0x100;
    assert Pow2(12) == 0x1000;
    assert Pow2(16) == 0x1_0000;
    assert Pow2(20) == 0x10_0000;
    assert Pow2(24) == 0x100_0000;
    assert Pow2(28) == 0x1000_0000;
  }

  lemma {:induction false} XorByte(a: nat, b: nat)
    ensures Xor(a, b) % 256 == Xor(a % 256, b % 256)
  {
    Widths();
    XorLowBits(a, b, 8);
  }

  /** The exclusive or of 8-bit values, as the standard asks for it. */
  function XorBytes(a: Byte, b: Byte): Byte {
    Widths();
    XorBounded(a, b, 8);
    Xor(a, b)
  }

  /** The checksum of the standard. */
  function Checksum(s: seq<Byte>): Byte {
    if s == [] then 0 else XorBytes(Checksum(s[..|s| - 1]), s[|s| - 1])
  }

  /** `strcspn` with a reject set of one character: the index of its first occurrence, or the length. */
  function Index(s: seq<Byte>, c: Byte): (k: nat)
    ensures k <= |s|
  {
    if s == [] || s[0] == c then 0 else 1 + Index(s[1..], c)
  }

  lemma {:induction false} IndexMeans(s: seq<Byte>, c: Byte)
    ensures c !in s[..Index(s, c)] && (Index(s, c) < |s| ==> s[Index(s, c)] == c)
    ensures Index(s, c) < |s| <==> c in s
  {
    if s != [] && s[0] != c {
      IndexMeans(s[1..], c);
      assert s[..Index(s, c)] == [s[0]] + s[1..][..Index(s[1..], c)];
    }
  }

  lemma {:induction false} IndexAtMost(s: seq<Byte>, c: Byte, k: nat)
    requires k < |s| && s[k] == c
    ensures Index(s, c) <= k
  {
    if k > 0 {
      IndexAtMost(s[1..], c, k - 1);
    }
  }

  lemma {:induction false} IndexIs(s: seq<Byte>, c: Byte, k: nat)
    requires k <= |s| && c !in s[..k] && (k < |s| ==> s[k] == c)
    ensures Index(s, c) == k
  {
    if k > 0 {
      assert s[0] == s[..k][0];
      assert s[1..][..k - 1] == s[..k][1..];
      IndexIs(s[1..], c, k - 1);
    }
  }

  // ---------------------------------------------------------------- hexadecimal fields

  /** The value of a hexadecimal digit. */
  function HexValue(c: Byte): (v: Option<Byte>)
    ensures v.Some? ==> v.value < 16
  {
    if 0x30 <= c <= 0x39 then Some(c - 0x30)
    else if 0x41 <= c <= 0x46 then Some(c - 0x37)
    else if 0x61 <= c <= 0x66 then Some(c - 0x57)
    else None
  }

  /** A digit as `%X` prints it. */
  function HexDigit(v: Byte): (c: Byte)
    requires v < 16
    ensures HexValue(c) == Some(v)
  {
    if v < 10 then v + 0x30 else v + 0x37
  }

  /** The digits are 0 to 9, A to F and a to f. */
  lemma {:induction false} HexDigitsAre(c: Byte)
    ensures HexValue(c) == if '0' as int <= c <= '9' as int then Some(c - '0' as int)
                           else if 'A' as int <= c <= 'F' as int then Some(10 + c - 'A' as int)
                           else if 'a' as int <= c <= 'f' as int then Some(10 + c - 'a' as int)
                           else None
  {
  }

  /** `sprintf` with "%02X" of a value below 256. */
  function PrintHex2(v: Byte): (s: seq<Byte>)
    ensures |s| == 2 && NUL !in s && DOLLAR !in s && STAR !in s
  {
    [HexDigit(v / 16), HexDigit(v % 16)]
  }

  predicate IsSpace(c: Byte) {
    c == SPACE || 0x09 <= c <= 0x0D
  }

  function SkipSpace(s: seq<Byte>): seq<Byte> {
    if s != [] && IsSpace(s[0]) then SkipSpace(s[1..]) else s
  }

  /** The digits at the front of `s`, at most `width` of them, behind the value `v`: arithmetic modulo 2^32. */
  function ScanDigits(s: seq<Byte>, width: nat, v: Word): Word {
    if s == [] || width == 0 || HexValue(s[0]).None? then v
    else ScanDigits(s[1..], width - 1, (v * 16 + HexValue(s[0]).value) % WORD_MODULUS)
  }

  predicate StartsWithDigit(s: seq<Byte>, width: nat) {
    s != [] && width > 0 && HexValue(s[0]).Some?
  }

  /**
   `sscanf` with "%x" and a field width, on the text `s`: blanks, a sign, a prefix 0x, digits.
   `None` is a matching failure, which leaves the scanned variable alone.
   */
  function ScanHex(s: seq<Byte>, width: nat): Option<Word> {
    var t := SkipSpace(s);
    var signed := t != [] && width > 0 && (t[0] == 0x2B || t[0] == 0x2D);
    var u, w := if signed then t[1..] else t, if signed then width - 1 else width;
    var prefixed := |u| > 1 && w > 1 && u[0] == 0x30 && (u[1] == 0x78 || u[1] == 0x58);
    var d, n := if prefixed then u[2..] else u, if prefixed then w - 2 else w;
    if !StartsWithDigit(d, n) then None
    else
      var v := ScanDigits(d, n, 0);
      Some(if signed && t[0] == 0x2D then (WORD_MODULUS - v) % WORD_MODULUS else v)
  }

  const UNBOUNDED: nat := 0x1_0000_0000

  lemma {:induction false} ScanDigit(c: Byte, rest: seq<Byte>, width: nat, v: Word)
    requires HexValue(c).Some? && 16 * v + 15 < WORD_MODULUS
    ensures ScanDigits([c] + rest, width + 1, v) == ScanDigits(rest, width, 16 * v + HexValue(c).value)
  {
    assert ([c] + rest)[1..] == rest;
  }

  lemma {:induction false} ScanStops()
    ensures forall s: seq<Byte>, width: nat, v: Word :: width == 0 || s == [] || HexValue(s[0]).None? ==> ScanDigits(s, width, v) == v
  {
  }

  /** What "%02X" prints, "%x" reads back, whatever follows the field. */
  lemma {:induction false} HexRoundTrip(v: Byte, rest: seq<Byte>)
    requires rest != [] && HexValue(rest[0]).None?
    ensures ScanHex(PrintHex2(v) + rest, UNBOUNDED) == Some(v)
  {
    var s := PrintHex2(v) + rest;
    assert s[0] == HexDigit(v / 16) && s[1] == HexDigit(v % 16);
    assert !IsSpace(s[0]) && s[0] != 0x2B && s[0] != 0x2D && s[1] != 0x78 && s[1] != 0x58;
    assert s == [s[0]] + ([s[1]] + rest);
    ScanDigit(s[0], [s[1]] + rest, UNBOUNDED - 1, 0);
    ScanDigit(s[1], rest, UNBOUNDED - 2, v / 16);
    ScanStops();
  }

  // ---------------------------------------------------------------- the checker

  /** What `sscanf` with "%x" leaves in a variable that held `i`: a field without a number changes nothing. */
  function ScanInto(field: seq<Byte>, i: Word): Word {
    match ScanHex(field, UNBOUNDED)
    case Some(v) => v
    case None => i
  }

  /** The checksummed characters of a text: those between the first dollar and the first star. */
  function Field(text: seq<Byte>): seq<Byte> {
    var dollar, star := Index(text, DOLLAR), Index(text, STAR);
    if dollar < star then text[dollar + 1..star] else []
  }

  /** The loop counter when the sum is complete. */
  function CounterEnd(dollar: nat, star: nat): nat {
    if dollar + 1 < star then star else dollar + 1
  }

  /** The checksum that a text claims. A text without a star makes the checker read `behind` its terminator. */
  function Claimed(text: seq<Byte>, behind: seq<Byte>): Word
    requires |text| + 1 < UNBOUNDED
  {
    var dollar, star := Index(text, DOLLAR), Index(text, STAR);
    ScanInto(if star < |text| then text[star + 1..] else CString(behind), CounterEnd(dollar, star))
  }

  /** The verdict of `NmeaCheck` on the C string `text`, with the bytes `behind` its terminator. */
  function Verdict(text: seq<Byte>, behind: seq<Byte>): int
    requires |text| + 1 < UNBOUNDED
  {
    if |text| - Index(text, DOLLAR) <= 4 || Index(text, STAR) == 0 then -1
    else if Claimed(text, behind) == Checksum(Field(text)) then 0
    else 1
  }

  lemma {:induction false} EmptyChecksum()
    ensures Checksum([]) == 0
  {
  }

  method NmeaCheck(buffer: array<Byte>, ghost behind: seq<Byte>) returns (ret: int)
    requires buffer.Length < UNBOUNDED && buffer[..] == CString(buffer[..]) + [NUL] + behind
    ensures ret == Verdict(CString(buffer[..]), behind)
  {
    hide Checksum, Field, Claimed, ScanInto, Index, XorWords;
    ret := -1;
    var text := CString(buffer[..]);
    var length, startCh, starCh := |text|, Index(text, DOLLAR), Index(text, STAR);
    assert forall k :: 0 <= k < |text| ==> buffer[k] == text[k] by { CStringMeans(buffer[..]); }
    EmptyChecksum();
    if length - startCh > 4 && starCh != 0 {
      ret := 0;
      var sum: Word := 0;
      var i := startCh + 1;
      assert text[i..i] == [];
      while i < starCh
        invariant startCh + 1 <= i <= length && (i == startCh + 1 || i <= starCh)
        invariant sum % 256 == Checksum(text[startCh + 1..i])
      {
        SumStep(text, startCh + 1, i, sum);
        sum := XorWords(sum, SignExtend(buffer[i]));
        i := i + 1;
      }
      sum := sum % 256; // `sum & 0xff`
      ScannedField(buffer[..], behind, starCh);
      var field := CString(buffer[starCh + 1..]);
      Concludes(text, behind, i, sum, field);
      var claimed := ScanInto(field, i);
      if claimed != sum {
        ret := 1;
      }
    }
  }

  /** The verdict on what stands in a buffer. */
  function VerdictOn(buffer: seq<Byte>): int
    requires NUL in buffer && |buffer| < UNBOUNDED
  {
    CStringMeans(buffer);
    var text := CString(buffer);
    Verdict(text, buffer[|text| + 1..])
  }

  /** What the loop leaves in `i` and `sum` decides the verdict. */
  lemma {:induction false} Concludes(text: seq<Byte>, behind: seq<Byte>, i: nat, sum: Byte, field: seq<Byte>)
    requires |text| + 1 < UNBOUNDED && |text| - Index(text, DOLLAR) > 4 && Index(text, STAR) != 0
    requires field == if Index(text, STAR) < |text| then text[Index(text, STAR) + 1..] else CString(behind)
    requires Index(text, DOLLAR) < i <= |text| && i == CounterEnd(Index(text, DOLLAR), Index(text, STAR))
    requires sum == Checksum(text[Index(text, DOLLAR) + 1..i])
    ensures Verdict(text, behind) == if ScanInto(field, i) == sum then 0 else 1
  {
    assert text[Index(text, DOLLAR) + 1..i] == Field(text);
  }

  lemma {:induction false} ScannedField(buffer: seq<Byte>, behind: seq<Byte>, star: nat)
    requires buffer == CString(buffer) + [NUL] + behind && star <= |CString(buffer)|
    ensures CString(buffer[star + 1..]) ==
            if star < |CString(buffer)| then CString(buffer)[star + 1..] else CString(behind)
  {
    CStringMeans(buffer);
    var text := CString(buffer);
    if star < |text| {
      assert buffer[star + 1..] == text[star + 1..] + [NUL] + behind;
      CStringOf(text[star + 1..], behind);
    } else {
      assert buffer[star + 1..] == behind;
    }
  }

  /** `^` on `unsigned int` operands. */
  function XorWords(a: Word, b: Word): Word {
    Widths();
    XorBounded(a, b, 32);
    Xor(a, b)
  }

  lemma {:induction false} SameLowByte(b: Byte)
    ensures SignExtend(b) % 256 == b
  {
  }

  /** The signed arithmetic of the checker agrees with the 8-bit checksum in the low byte. */
  lemma {:induction false} SumStep(text: seq<Byte>, from: nat, i: nat, sum: Word)
    requires from <= i < |text| && sum % 256 == Checksum(text[from..i])
    ensures XorWords(sum, SignExtend(text[i])) % 256 == Checksum(text[from..i + 1])
  {
    hide Xor, Pow2;
    SameLowByte(text[i]);
    XorByte(sum, SignExtend(text[i]));
    assert text[from..i + 1][..i - from] == text[from..i];
  }

  // ---------------------------------------------------------------- what a verdict means

  /** The text contains the character. */
  predicate Has(s: seq<Byte>, c: Byte) {
    Index(s, c) < |s|
  }

  /** A text in which a two-digit checksum field stands between `body` and `tail`. */
  function WithField(body: seq<Byte>, sum: Byte, tail: seq<Byte>): seq<Byte> {
    body + ([STAR] + (PrintHex2(sum) + tail))
  }

  /** What `body` allows to be computed: it holds no NUL and no star, and no hexadecimal digit follows the field. */
  predicate WellFormed(body: seq<Byte>, tail: seq<Byte>) {
    NUL !in body && STAR !in body && NUL !in tail && tail != [] && HexValue(tail[0]).None?
  }

  lemma {:induction false} FieldShape(body: seq<Byte>, sum: Byte, tail: seq<Byte>)
    requires WellFormed(body, tail)
    ensures var t := WithField(body, sum, tail);
            && NUL !in t && Index(t, STAR) == |body|
            && t[|body| + 1..] == PrintHex2(sum) + tail
            && (Has(body, DOLLAR) ==> Index(t, DOLLAR) == Index(body, DOLLAR) && Field(t) == body[Index(body, DOLLAR) + 1..])
  {
    var t := WithField(body, sum, tail);
    IndexMeans(body, DOLLAR);
    assert NUL !in PrintHex2(sum);
    assert t[..|body|] == body;
    IndexIs(t, STAR, |body|);
    if Has(body, DOLLAR) {
      var dollar := Index(body, DOLLAR);
      assert t[..dollar] == t[..|body|][..dollar];
      IndexIs(t, DOLLAR, dollar);
      assert t[dollar + 1..|body|] == t[..|body|][dollar + 1..];
    }
  }

  /**
   The checker finds no checksum in a text without a dollar; otherwise it accepts the text exactly when the field
   holds the checksum of what stands between dollar and star. Nothing behind the terminator matters.
   */
  lemma {:induction false} FieldJudged(body: seq<Byte>, sum: Byte, tail: seq<Byte>, behind: seq<Byte>)
    requires WellFormed(body, tail) && |WithField(body, sum, tail)| + 1 < UNBOUNDED
    requires Has(body, DOLLAR) || DOLLAR !in tail
    ensures Verdict(WithField(body, sum, tail), behind) ==
            if !Has(body, DOLLAR) then -1 else if sum == Checksum(body[Index(body, DOLLAR) + 1..]) then 0 else 1
  {
    hide ScanHex, PrintHex2, Checksum, Index, Field;
    FieldShape(body, sum, tail);
    HexRoundTrip(sum, tail);
    if !Has(body, DOLLAR) {
      IndexMeans(body, DOLLAR);
      IndexMeans(WithField(body, sum, tail), DOLLAR);
    }
  }

  /** There is no checksum to check exactly if the text starts with a star or has no dollar sign before its last four. */
  lemma {:induction false} NoChecksumIff(text: seq<Byte>, behind: seq<Byte>)
    requires |text| + 1 < UNBOUNDED
    ensures Verdict(text, behind) == -1 <==>
              |text| < 5 || text[0] == 0x2A || 0x24 !in text[..|text| - 4]
  {
    hide Claimed, Checksum, Field;
    IndexMeans(text, DOLLAR);
    var d := Index(text, DOLLAR);
    if |text| >= 5 {
      var front := text[..|text| - 4];
      if d < |text| - 4 {
        assert front[d] == 0x24;
      }
      if 0x24 in front {
        var k :| 0 <= k < |front| && front[k] == 0x24;
        IndexAtMost(text, DOLLAR, k);
      }
    }
  }

  /** The number that the field spells; without one it is the place where the summing ended. */
  function NumberOr(field: seq<Byte>, i: Word): Word {
    if ScanHex(field, UNBOUNDED).Some? then ScanHex(field, UNBOUNDED).value else i
  }

  /**
   The field behind the first star is compared with the exclusive or of all characters between the first dollar sign and
   that star. A field without a number stands for the place of the star.
   */
  lemma {:induction false} FieldDecides(before: seq<Byte>, summed: seq<Byte>, field: seq<Byte>, behind: seq<Byte>)
    requires 0x24 !in before && 0x2A !in before && 0x2A !in summed
    requires 3 <= |summed| + |field| && |before| + |summed| + |field| + 3 < UNBOUNDED
    ensures Verdict(before + [0x24] + summed + [0x2A] + field, behind) ==
            if NumberOr(field, |before| + 1 + |summed|) == Checksum(summed) then 0 else 1
  {
    hide Checksum, ScanHex;
    var text, d, star := before + [0x24] + summed + [0x2A] + field, |before|, |before| + 1 + |summed|;
    assert text[..d] == before;
    IndexIs(text, DOLLAR, d);
    assert text[..star] == before + [0x24] + summed;
    IndexIs(text, STAR, star);
    assert text[d + 1..star] == summed && text[star + 1..] == field;
  }

  /** A star before the dollar sign leaves nothing to sum: its field is accepted if and only if it spells 0. */
  lemma {:induction false} StarBeforeDollar(before: seq<Byte>, field: seq<Byte>, behind: seq<Byte>)
    requires before != [] && 0x24 !in before && 0x2A !in before && |field| >= 5 && 0x24 in field[..|field| - 4]
    requires |before| + |field| + 2 < UNBOUNDED
    ensures Verdict(before + [0x2A] + field, behind) ==
            if ScanHex(field, UNBOUNDED) == Some(0) then 0 else 1
  {
    hide Checksum, ScanHex;
    var text := before + [0x2A] + field;
    var d := Index(field, DOLLAR);
    IndexMeans(field, DOLLAR);
    assert d < |field| - 4 by {
      var k :| 0 <= k < |field| - 4 && field[k] == DOLLAR;
      IndexAtMost(field, DOLLAR, k);
    }
    assert text[..|before|] == before;
    IndexIs(text, STAR, |before|);
    assert text[..|before| + 1 + d] == before + [0x2A] + field[..d];
    IndexIs(text, DOLLAR, |before| + 1 + d);
    assert text[|before| + 1..] == field;
    EmptyChecksum();
  }

  /** Changing one character changes the checksum. */
  lemma {:induction false} ChecksumNotices(s: seq<Byte>, k: nat, c: Byte)
    requires k < |s| && c != s[k]
    ensures Checksum(s[k := c]) != Checksum(s)
  {
    var n := |s| - 1;
    if k == n {
      assert s[k := c][..n] == s[..n];
      XorInjective(Checksum(s[..n]), c, s[k]);
    } else {
      assert s[k := c][..n] == s[..n][k := c];
      ChecksumNotices(s[..n], k, c);
      XorInjective(s[n], Checksum(s[..n][k := c]), Checksum(s[..n]));
    }
  }

  lemma {:induction false} ReplacedField(text: seq<Byte>, k: nat, c: Byte)
    requires Index(text, DOLLAR) < k < Index(text, STAR) && c != STAR && c != text[k]
    ensures Index(text[k := c], DOLLAR) == Index(text, DOLLAR) && Index(text[k := c], STAR) == Index(text, STAR)
    ensures Checksum(Field(text[k := c])) != Checksum(Field(text))
  {
    var dollar, star, bad := Index(text, DOLLAR), Index(text, STAR), text[k := c];
    IndexMeans(text, DOLLAR);
    IndexMeans(text, STAR);
    assert bad[..dollar] == text[..dollar];
    IndexIs(bad, DOLLAR, dollar);
    assert STAR !in bad[..star] by {
      assert bad[..star] == text[..star][k := c];
    }
    IndexIs(bad, STAR, star);
    assert Field(bad) == Field(text)[k - dollar - 1 := c];
    ChecksumNotices(Field(text), k - dollar - 1, c);
  }

  /** An accepted text with any one checksummed character replaced, by anything but a star, is an error. */
  lemma {:induction false} DetectsOneError(text: seq<Byte>, behind: seq<Byte>, k: nat, c: Byte)
    requires |text| + 1 < UNBOUNDED && Verdict(text, behind) == 0
    requires Index(text, DOLLAR) < k < Index(text, STAR)
    requires c != text[k] && c != STAR && c != NUL
    ensures Verdict(text[k := c], behind) == 1
  {
    hide ScanInto, Checksum, Index, Field;
    ReplacedField(text, k, c);
    var star := Index(text, STAR);
    if star < |text| {
      assert text[k := c][star + 1..] == text[star + 1..];
    }
    assert Claimed(text[k := c], behind) == Claimed(text, behind);
  }

  // ---------------------------------------------------------------- replacements that end the checksummed characters

  /** What stands behind place `k` reads as the checksum of what stands between the dollar and `k`. */
  predicate SpellsSum(text: seq<Byte>, k: nat)
    requires Index(text, DOLLAR) < k < |text| < UNBOUNDED
  {
    ScanInto(text[k + 1..], k) == Checksum(text[Index(text, DOLLAR) + 1..k])
  }

  lemma {:induction false} CutField(text: seq<Byte>, k: nat)
    requires Index(text, DOLLAR) < k < Index(text, STAR)
    ensures Index(text[k := STAR], DOLLAR) == Index(text[..k], DOLLAR) == Index(text, DOLLAR)
    ensures Index(text[k := STAR], STAR) == Index(text[..k], STAR) == k
    ensures Field(text[k := STAR]) == Field(text[..k]) == text[Index(text, DOLLAR) + 1..k]
  {
    var dollar, star, cut, short := Index(text, DOLLAR), Index(text, STAR), text[k := STAR], text[..k];
    IndexMeans(text, DOLLAR);
    IndexMeans(text, STAR);
    assert cut[..dollar] == short[..dollar] == text[..dollar];
    IndexIs(cut, DOLLAR, dollar);
    IndexIs(short, DOLLAR, dollar);
    assert cut[..k] == short[..k] == text[..star][..k];
    IndexIs(cut, STAR, k);
    IndexIs(short, STAR, k);
  }

  /** An accepted text with a checksummed character replaced by a star: accepted exactly if the rest spells the sum. */
  lemma {:induction false} StarJudged(text: seq<Byte>, behind: seq<Byte>, k: nat)
    requires |text| + 1 < UNBOUNDED && Verdict(text, behind) == 0
    requires Index(text, DOLLAR) < k < Index(text, STAR)
    ensures Verdict(text[k := STAR], behind) == if SpellsSum(text, k) then 0 else 1
  {
    hide ScanInto, Checksum, Index, Field;
    CutField(text, k);
    assert text[k := STAR][k + 1..] == text[k + 1..];
  }

  /** With a NUL in its place the text ends there: too short, or judged by the rest, which stands behind it now. */
  lemma {:induction false} NulJudged(text: seq<Byte>, behind: seq<Byte>, k: nat)
    requires |text| + 1 < UNBOUNDED && Index(text, DOLLAR) < k < Index(text, STAR)
    requires NUL !in text
    ensures Verdict(text[..k], text[k + 1..] + [NUL] + behind) ==
            if k - Index(text, DOLLAR) <= 4 then -1 else if SpellsSum(text, k) then 0 else 1
  {
    hide ScanInto, Checksum, Index, Field;
    CutField(text, k);
    CStringOf(text[k + 1..], behind);
  }

  lemma {:induction false} VerdictOnText(text: seq<Byte>, behind: seq<Byte>)
    requires NUL !in text && |text + [NUL] + behind| < UNBOUNDED
    ensures NUL in text + [NUL] + behind && VerdictOn(text + [NUL] + behind) == Verdict(text, behind)
  {
    hide Verdict;
    var buffer := text + [NUL] + behind;
    assert buffer[|text|] == NUL;
    CStringOf(text, behind);
    assert buffer[|text| + 1..] == behind;
  }

  /**
   A buffer with an accepted text in which one checksummed character is damaged. The damage is reported as an error
   for every character but two. A star, and a NUL more than four places behind the dollar, are accepted exactly if
   what stands behind spells the checksum of what stands before; a NUL nearer to the dollar leaves no checksum at all.
   */
  lemma {:induction false} DamageJudged(text: seq<Byte>, behind: seq<Byte>, k: nat, c: Byte)
    requires NUL !in text && |text + [NUL] + behind| < UNBOUNDED && Verdict(text, behind) == 0
    requires Index(text, DOLLAR) < k < Index(text, STAR) && c != text[k]
    ensures var damaged := (text + [NUL] + behind)[k := c];
            && NUL in damaged
            && VerdictOn(damaged) ==
               if c == NUL && k - Index(text, DOLLAR) <= 4 then -1
               else if (c == STAR || c == NUL) && SpellsSum(text, k) then 0
               else 1
  {
    hide Verdict, VerdictOn, SpellsSum, Index;
    var damaged := (text + [NUL] + behind)[k := c];
    if c == NUL {
      assert damaged == text[..k] + [NUL] + (text[k + 1..] + [NUL] + behind);
      NulJudged(text, behind, k);
      VerdictOnText(text[..k], text[k + 1..] + [NUL] + behind);
    } else {
      assert damaged == text[k := c] + [NUL] + behind;
      VerdictOnText(text[k := c], behind);
      if c == STAR {
        StarJudged(text, behind, k);
      } else {
        DetectsOneError(text, behind, k, c);
      }
    }
  }

  /** A sentence whose place behind `x` can be damaged unnoticed: "$", x, `y`, the checksum of x. */
  function Ambiguous(x: seq<Byte>, y: Byte): seq<Byte> {
    [DOLLAR] + x + [y] + PrintHex2(Checksum(x))
  }

  /** A buffer that holds this sentence, with `c` in the place of `y`. */
  function Damaged(x: seq<Byte>, y: Byte, behind: seq<Byte>, c: Byte): (buffer: seq<Byte>)
    ensures |buffer| == |x| + |behind| + 10 && NUL in buffer
  {
    var text := WithField(Ambiguous(x, y), Checksum(Ambiguous(x, y)[1..]), [CR, LF]);
    var buffer := (text + [NUL] + behind)[|x| + 1 := c];
    assert buffer[|text|] == NUL;
    buffer
  }

  /** Inputs that fail: a star in the place of `y` is accepted, and so is a NUL if x has four characters. */
  lemma {:induction false} DamageGoesUnnoticed(x: seq<Byte>, y: Byte, behind: seq<Byte>)
    requires NUL !in x && STAR !in x && y != NUL && y != STAR && |x| + |behind| + 10 < UNBOUNDED
    ensures VerdictOn(Damaged(x, y, behind, y)) == 0
    ensures VerdictOn(Damaged(x, y, behind, STAR)) == 0
    ensures VerdictOn(Damaged(x, y, behind, NUL)) == if |x| < 4 then -1 else 0
  {
    hide Verdict, VerdictOn, Checksum, PrintHex2, ScanHex, HexValue, SpellsSum;
    var body, k := Ambiguous(x, y), |x| + 1;
    var sum, rest := Checksum(body[1..]), [STAR] + (PrintHex2(Checksum(body[1..])) + [CR, LF]);
    var text := WithField(body, sum, [CR, LF]);
    NoDigits();
    AmbiguousShape(x, y);
    FieldJudged(body, sum, [CR, LF], behind);
    FieldShape(body, sum, [CR, LF]);
    AmbiguousSpells(x, y, rest);
    assert body + rest == text && text[k] == y;
    assert (text + [NUL] + behind)[k := y] == text + [NUL] + behind;
    VerdictOnText(text, behind);
    DamageJudged(text, behind, k, STAR);
    DamageJudged(text, behind, k, NUL);
  }

  lemma {:induction false} NoDigits()
    ensures HexValue(STAR).None? && HexValue(CR).None?
  {
  }

  lemma {:induction false} AmbiguousShape(x: seq<Byte>, y: Byte)
    requires NUL !in x && STAR !in x && y != NUL && y != STAR
    ensures var body := Ambiguous(x, y);
            NUL !in body && STAR !in body && |body| == |x| + 4 && body[|x| + 1] == y && Index(body, DOLLAR) == 0
  {
    hide PrintHex2, Checksum;
  }

  lemma {:induction false} AmbiguousSpells(x: seq<Byte>, y: Byte, rest: seq<Byte>)
    requires rest != [] && HexValue(rest[0]).None? && |x| + |rest| + 4 < UNBOUNDED
    ensures Index(Ambiguous(x, y) + rest, DOLLAR) == 0 && SpellsSum(Ambiguous(x, y) + rest, |x| + 1)
  {
    hide PrintHex2, Checksum, ScanHex, HexValue;
    var text := Ambiguous(x, y) + rest;
    assert text[|x| + 2..] == PrintHex2(Checksum(x)) + rest;
    assert text[1..|x| + 1] == x;
    HexRoundTrip(Checksum(x), rest);
  }

  /** In a text without a star the bytes that happen to stand behind its terminator decide. */
  lemma {:induction false} StaleBytesDecide(text: seq<Byte>, stale: Byte)
    requires !Has(text, STAR) && |text| + 1 < UNBOUNDED && |text| - Index(text, DOLLAR) > 4
    ensures Verdict(text, PrintHex2(stale) + [LF, NUL]) == if stale == Checksum(Field(text)) then 0 else 1
  {
    var behind := PrintHex2(stale) + [LF];
    assert behind + [NUL] + [] == PrintHex2(stale) + [LF, NUL];
    CStringOf(behind, []);
    HexRoundTrip(stale, [LF]);
  }

  /** The text alone decides exactly when it has a star, or is too short to be checked. */
  lemma {:induction false} TextDecidesIff(text: seq<Byte>)
    requires |text| + 1 < UNBOUNDED
    ensures (forall a, b :: Verdict(text, a) == Verdict(text, b))
            <==> Has(text, STAR) || |text| - Index(text, DOLLAR) <= 4
  {
    hide Checksum, ScanInto, Index, Field, PrintHex2;
    if !Has(text, STAR) && |text| - Index(text, DOLLAR) > 4 {
      var sum := Checksum(Field(text));
      var other: Byte := if sum == 0 then 1 else 0;
      StaleBytesDecide(text, sum);
      StaleBytesDecide(text, other);
    }
  }

  /** An input for which it does not: "$AAAA", accepted with 00 behind its terminator and wrong with 01. */
  lemma {:induction false} BytesBehindDecide()
    ensures var text: seq<Byte> := [DOLLAR, 0x41, 0x41, 0x41, 0x41];
            && Verdict(text, [0x30, 0x30, LF, NUL]) == 0 && Verdict(text, [0x30, 0x31, LF, NUL]) == 1
  {
    hide ScanHex, Verdict, Checksum, Field;
    var text: seq<Byte> := [DOLLAR, 0x41, 0x41, 0x41, 0x41];
    LettersSum();
    IndexIs(text, DOLLAR, 0);
    IndexIs(text, STAR, 5);
    assert PrintHex2(0) == [0x30, 0x30] && PrintHex2(1) == [0x30, 0x31];
    assert [0x30, 0x30, LF, NUL] == PrintHex2(0) + [LF, NUL] && [0x30, 0x31, LF, NUL] == PrintHex2(1) + [LF, NUL];
    StaleBytesDecide(text, 0);
    StaleBytesDecide(text, 1);
  }

  lemma {:induction false} LettersSum()
    ensures Checksum(Field([DOLLAR, 0x41, 0x41, 0x41, 0x41])) == 0
  {
    hide Checksum, Xor;
    var text: seq<Byte> := [DOLLAR, 0x41, 0x41, 0x41, 0x41];
    IndexIs(text, DOLLAR, 0);
    IndexIs(text, STAR, 5);
    var a: seq<Byte> := [0x41];
    assert Field(text) == [] + a + a + a + a;
    XorSame(0x41);
    NextSum([], 0x41);
    NextSum([] + a, 0x41);
    NextSum([] + a + a, 0x41);
    NextSum([] + a + a + a, 0x41);
  }

  lemma {:induction false} XorSame(x: nat)
    ensures Xor(0, x) == x && Xor(x, x) == 0
  {
    if x > 0 {
      XorSame(x / 2);
    }
  }

  lemma {:induction false} NextSum(s: seq<Byte>, c: Byte)
    ensures Checksum([]) == 0 && Checksum(s + [c]) == Xor(Checksum(s), c)
  {
    assert (s + [c])[..|s|] == s;
  }
}
