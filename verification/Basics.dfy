/** The value types that the components of QueryLog share. */
module Basics {

  datatype Option<+T> = None | Some(value: T)

  /** One `char` as it travels through the program. Its sign is made explicit where C extends it. */
  type Byte = b: int | 0 <= b < 256 witness 0

  const NUL: Byte := 0x00
  const TAB: Byte := 0x09
  const LF: Byte := 0x0A
  const CR: Byte := 0x0D
  const SPACE: Byte := 0x20
  const QUOTE: Byte := 0x22
  const DOLLAR: Byte := 0x24
  const PERCENT: Byte := 0x25
  const STAR: Byte := 0x2A
  const BACKSLASH: Byte := 0x5C

  /** The characters by the names that C and Dafny give them. */
  lemma {:induction false} Characters()
    ensures NUL == '\0' as int && TAB == '\t' as int && LF == '\n' as int && CR == '\r' as int
    ensures SPACE == ' ' as int && QUOTE == '\"' as int && DOLLAR == '$' as int && PERCENT == '%' as int
    ensures STAR == '*' as int && BACKSLASH == '\\' as int
  {
  }

  /** `timeT` is an unsigned 64-bit count of microseconds: its arithmetic wraps at 2^64. */
  const TIME_MODULUS: int := 0x1_0000_0000_0000_0000

  type TimeT = t: int | 0 <= t < TIME_MODULUS witness 0

  /** C's `+` on `timeT`. */
  function AddTime(a: TimeT, b: TimeT): TimeT {
    (a + b) % TIME_MODULUS
  }

  function Min(a: int, b: int): int {
    if a <= b then a else b
  }

  function Max(a: int, b: int): int {
    if a <= b then b else a
  }

  /** The text of a C string: what stands before the first NUL. */
  function CString(s: seq<Byte>): seq<Byte> {
    if s == [] || s[0] == NUL then [] else [s[0]] + CString(s[1..])
  }

  lemma {:induction false} CStringMeans(s: seq<Byte>)
    ensures |CString(s)| <= |s| && CString(s) == s[..|CString(s)|] && NUL !in CString(s)
    ensures NUL in s ==> |CString(s)| < |s| && s[|CString(s)|] == NUL
  {
    if s != [] && s[0] != NUL {
      CStringMeans(s[1..]);
    }
  }

  /** What stands before every NUL is text. */
  lemma {:induction false} CStringReaches(s: seq<Byte>, k: nat)
    requires k <= |s| && NUL !in s[..k]
    ensures k <= |CString(s)| && CString(s)[..k] == s[..k]
  {
    if k > 0 {
      assert s[0] in s[..k] && s[..k] == [s[0]] + s[1..][..k - 1];
      CStringReaches(s[1..], k - 1);
    }
  }

  /** A C string is fixed by its text, whatever lies behind the terminator. */
  lemma {:induction false} CStringOf(text: seq<Byte>, behind: seq<Byte>)
    requires NUL !in text
    ensures CString(text + [NUL] + behind) == text
  {
    if text != [] {
      assert (text + [NUL] + behind)[1..] == text[1..] + [NUL] + behind;
      CStringOf(text[1..], behind);
    }
  }
}
