/**
 The message of a record: `config` decodes it from a parameter and appends the checksum field, and the main loop
 sends it. The composition with `Script` and `Nmea` leads from a script line to an accepted sentence.
 */
module Message {
  import opened Basics
  import Nmea
  import Script

  const LETTER_R: Byte := 0x72
  const LETTER_N: Byte := 0x6E
  const LETTER_X: Byte := 0x78
  const LETTER_J: Byte := 0x6A

  /** The byte that `sscanf` with "x%2hhx" stores for the text behind the x, 0 when nothing matches. */
  function HexByte(s: seq<Byte>): Byte {
    match Nmea.ScanHex(s, 2)
    case Some(v) => v % 256
    case None => 0
  }

  /** `s[k..]`, empty behind the end: what the decoder finds there in a row that is filled up with NULs. */
  function Drop(s: seq<Byte>, k: nat): (r: seq<Byte>)
    ensures |r| <= |s| && (k > 0 && s != [] ==> |r| < |s|)
  {
    if k <= |s| then s[k..] else []
  }

  /** The number of the saved argument that an escape `\j` names, and whether a digit follows. */
  function ArgumentNumber(s: seq<Byte>): nat {
    if s != [] && IsDigit(s[0]) then Decimal(s, 0) else 0
  }

  predicate IsDigit(c: Byte) {
    0x30 <= c <= 0x39
  }

  /** The number that "%d" reads from the digits at the front. */
  function Decimal(s: seq<Byte>, v: nat): nat {
    if s != [] && IsDigit(s[0]) then Decimal(s[1..], 10 * v + (s[0] - 0x30)) else v
  }

  /** Every `\j` of the text names one of the saved arguments. */
  predicate Saved(s: seq<Byte>, args: seq<seq<Byte>>)
    decreases |s|
  {
    if s == [] then true
    else if s[0] != BACKSLASH then Saved(s[1..], args)
    else if |s| > 1 && s[1] == LETTER_J then
      ArgumentNumber(s[2..]) < |args| && Saved(if |s| > 2 && IsDigit(s[2]) then s[3..] else s[2..], args)
    else Saved(Drop(s, Consumed(s)), args)
  }

  /** How many characters the decoder takes for one escape other than `\j`. An escape `\x` takes a single digit. */
  function Consumed(s: seq<Byte>): nat
    requires s != []
  {
    if |s| > 1 && s[1] == LETTER_X then 3 else 2
  }

  /** What one escape other than `\j` puts into the message. A backslash at the end copies the terminator. */
  function Decoded(s: seq<Byte>): Byte
    requires s != []
  {
    if |s| == 1 then NUL
    else if s[1] == LETTER_R then CR
    else if s[1] == LETTER_N then LF
    else if s[1] == LETTER_X then HexByte(s[2..])
    else s[1]
  }

  /** The message that a parameter stands for. */
  function Decode(s: seq<Byte>, args: seq<seq<Byte>>): seq<Byte>
    requires Saved(s, args)
    decreases |s|
  {
    if s == [] then []
    else if s[0] != BACKSLASH then [s[0]] + Decode(s[1..], args)
    else if |s| > 1 && s[1] == LETTER_J then
      args[ArgumentNumber(s[2..])] + Decode(if |s| > 2 && IsDigit(s[2]) then s[3..] else s[2..], args)
    else [Decoded(s)] + Decode(Drop(s, Consumed(s)), args)
  }

  // ---------------------------------------------------------------- the decoding loop

  /** The last escape of the text is cut short, a backslash or `\x` at the end: the decoder steps over the NUL. */
  predicate Overruns(s: seq<Byte>) {
    && s != []
    && if s[0] != BACKSLASH then Overruns(s[1..])
       else if |s| > 1 && s[1] == LETTER_J then Overruns(if |s| > 2 && IsDigit(s[2]) then s[3..] else s[2..])
       else |s| < Consumed(s) || Overruns(Drop(s, Consumed(s)))
  }

  /** A command-line row: a text with a NUL behind it, or two if the decoder steps over one, and nothing else. */
  ghost predicate Row(row: seq<Byte>, text: seq<Byte>) {
    && NUL !in text && |text| < |row| && row[..|text|] == text && (Overruns(text) ==> |text| + 1 < |row|)
    && forall k :: |text| <= k < |row| ==> row[k] == NUL
  }

  /** The decoder has read `p` characters and written `done`; the rest of the text will add the rest. */
  ghost predicate Halfway(text: seq<Byte>, args: seq<seq<Byte>>, p: nat, done: seq<Byte>)
    requires Saved(text, args)
  {
    && Saved(Drop(text, p), args) && Decode(text, args) == done + Decode(Drop(text, p), args)
    && (Overruns(Drop(text, p)) ==> Overruns(text))
  }

  lemma {:induction false} PlainStep(text: seq<Byte>, args: seq<seq<Byte>>, p: nat, done: seq<Byte>)
    requires Saved(text, args) && Halfway(text, args, p, done) && p < |text| && text[p] != BACKSLASH
    ensures Halfway(text, args, p + 1, done + [text[p]])
  {
    hide Saved, Decode, Overruns;
    var s := Drop(text, p);
    FrontPlain(s, args);
    assert s[0] == text[p] && s[1..] == Drop(text, p + 1);
    var rest := Decode(s[1..], args);
    assert done + ([s[0]] + rest) == done + [s[0]] + rest;
  }

  lemma {:induction false} FrontPlain(s: seq<Byte>, args: seq<seq<Byte>>)
    requires s != [] && s[0] != BACKSLASH && Saved(s, args)
    ensures Saved(s[1..], args) && Decode(s, args) == [s[0]] + Decode(s[1..], args)
    ensures Overruns(s[1..]) ==> Overruns(s)
  {
  }

  lemma {:induction false} FrontEscape(s: seq<Byte>, args: seq<seq<Byte>>)
    requires s != [] && s[0] == BACKSLASH && (|s| == 1 || s[1] != LETTER_J) && Saved(s, args)
    ensures var rest := Drop(s, Consumed(s));
            && Saved(rest, args) && Decode(s, args) == [Decoded(s)] + Decode(rest, args)
            && (Overruns(rest) || |s| < Consumed(s) ==> Overruns(s))
  {
    hide Decoded;
  }

  lemma {:induction false} EscapeStep(text: seq<Byte>, args: seq<seq<Byte>>, p: nat, done: seq<Byte>)
    requires Saved(text, args) && Halfway(text, args, p, done) && p < |text| && text[p] == BACKSLASH
    requires p + 1 == |text| || text[p + 1] != LETTER_J
    ensures var s := Drop(text, p); Halfway(text, args, p + Consumed(s), done + [Decoded(s)])
    ensures p + Consumed(Drop(text, p)) > |text| ==> Overruns(text)
  {
    hide Saved, Decode, Decoded, Overruns;
    var s := Drop(text, p);
    assert s[0] == text[p] && (|s| > 1 ==> s[1] == text[p + 1]);
    FrontEscape(s, args);
    assert Drop(s, Consumed(s)) == Drop(text, p + Consumed(s));
    var rest := Decode(Drop(s, Consumed(s)), args);
    assert done + ([Decoded(s)] + rest) == done + [Decoded(s)] + rest;
  }

  lemma {:induction false} ArgumentStep(text: seq<Byte>, args: seq<seq<Byte>>, p: nat, done: seq<Byte>)
    requires Saved(text, args) && Halfway(text, args, p, done)
    requires p + 1 < |text| && text[p] == BACKSLASH && text[p + 1] == LETTER_J
    ensures var n := ArgumentNumber(text[p + 2..]);
            var next := if p + 2 < |text| && IsDigit(text[p + 2]) then p + 3 else p + 2;
            n < |args| && Halfway(text, args, next, done + args[n])
  {
    var s := Drop(text, p);
    assert s[0] == text[p] && s[1] == text[p + 1] && s[2..] == text[p + 2..];
    var tail := if |s| > 2 && IsDigit(s[2]) then s[3..] else s[2..];
    assert tail == Drop(text, if |s| > 2 && IsDigit(s[2]) then p + 3 else p + 2);
    var arg := args[ArgumentNumber(s[2..])];
    assert done + (arg + Decode(tail, args)) == done + arg + Decode(tail, args);
  }

  /** What the message array holds while it is filled: `done`, then the NULs that the constructor left. */
  ghost predicate Filled(message: seq<Byte>, done: seq<Byte>) {
    && |done| <= |message| && message[..|done|] == done
    && forall k :: |done| <= k < |message| ==> message[k] == NUL
  }

  lemma {:induction false} RowAt(row: seq<Byte>, text: seq<Byte>, p: nat)
    requires Row(row, text) && p < |row|
    ensures row[p] == if p < |text| then text[p] else NUL
    ensures row[p] == NUL <==> p >= |text|
    ensures CString(row[p..]) == Drop(text, p)
  {
    if p < |text| {
      assert row[..|text|][p] == text[p];
      assert row[p..] == text[p..] + [NUL] + row[|text| + 1..];
      CStringOf(text[p..], row[|text| + 1..]);
    }
  }

  lemma {:induction false} RowSize(row: seq<Byte>, text: seq<Byte>)
    requires Row(row, text)
    ensures |text| < |row| && (Overruns(text) ==> |text| + 1 < |row|)
  {
  }

  /** What the branches of the decoder write for the escape whose letter is at `p`, `\j` apart. */
  function EscapeValue(row: seq<Byte>, p: nat): Byte
    requires p < |row|
  {
    if row[p] == LETTER_R then CR
    else if row[p] == LETTER_N then LF
    else if row[p] == LETTER_X then HexByte(CString(row[p + 1..]))
    else row[p]
  }

  lemma {:induction false} EscapeAt(row: seq<Byte>, text: seq<Byte>, args: seq<seq<Byte>>, p: nat, done: seq<Byte>)
    requires Row(row, text) && Saved(text, args) && 0 < p <= |text| && Halfway(text, args, p - 1, done)
    requires row[p - 1] == BACKSLASH && row[p] != LETTER_J
    ensures var next := p + (if row[p] == LETTER_X then 2 else 1);
            p < next < |row| && next <= |text| + 1 && Halfway(text, args, next, done + [EscapeValue(row, p)])
  {
    hide Row, Saved, Halfway, Decode, HexByte, CString, Overruns;
    RowSize(row, text);
    RowAt(row, text, p - 1);
    RowAt(row, text, p);
    if p < |text| {
      RowAt(row, text, p + 1);
    }
    EscapeStep(text, args, p - 1, done);
    assert p < |text| ==> Drop(text, p - 1)[1] == text[p] && Drop(text, p - 1)[2..] == Drop(text, p + 1);
    assert Decoded(Drop(text, p - 1)) == EscapeValue(row, p);
  }

  lemma {:induction false} ArgumentAt(row: seq<Byte>, text: seq<Byte>, args: seq<seq<Byte>>, p: nat, done: seq<Byte>)
    requires Row(row, text) && Saved(text, args) && 0 < p <= |text| && Halfway(text, args, p - 1, done)
    requires row[p - 1] == BACKSLASH && row[p] == LETTER_J
    ensures p + 1 <= |text| < |row|
    ensures var digit := IsDigit(row[p + 1]);
            var n := if digit then Decimal(CString(row[p + 1..]), 0) else 0;
            var next := if digit then p + 2 else p + 1;
            next <= |text| && n < |args| && Halfway(text, args, next, done + args[n])
  {
    hide Row, Saved, Halfway, Decode, CString, Decimal;
    RowSize(row, text);
    RowAt(row, text, p - 1);
    RowAt(row, text, p);
    RowAt(row, text, p + 1);
    ArgumentStep(text, args, p - 1, done);
  }

  /** A field that cannot be scanned leaves the NUL standing. */
  lemma {:induction false} LeaveNul(message: seq<Byte>, done: seq<Byte>)
    requires Filled(message, done) && |done| < |message|
    ensures Filled(message, done + [NUL])
  {
    assert message[..|done| + 1] == message[..|done|] + [message[|done|]];
  }

  /** One character goes to the end of the message. */
  method Put(message: array<Byte>, m: nat, c: Byte, ghost done: seq<Byte>)
    requires m == |done| < message.Length && Filled(message[..], done)
    modifies message
    ensures Filled(message[..], done + [c])
  {
    message[m] := c;
    assert message[..m] == done;
  }

  method PutAll(message: array<Byte>, m0: nat, arg: seq<Byte>, ghost done: seq<Byte>) returns (m: nat)
    requires m0 == |done| && m0 + |arg| <= message.Length && Filled(message[..], done)
    modifies message
    ensures m == m0 + |arg| && Filled(message[..], done + arg)
  {
    m := m0;
    var argp := 0;
    assert done + arg[..0] == done;
    while argp < |arg|
      invariant 0 <= argp <= |arg| && m == m0 + argp && Filled(message[..], done + arg[..argp])
    {
      Put(message, m, arg[argp], done + arg[..argp]);
      assert done + arg[..argp] + [arg[argp]] == done + arg[..argp + 1];
      m := m + 1;
      argp := argp + 1;
    }
    assert arg[..|arg|] == arg;
  }

  /** The branches of an escape, `\j` apart: `p` is at its letter. */
  method PutEscape(row: seq<Byte>, p: nat, message: array<Byte>, m: nat, ghost done: seq<Byte>) returns (next: nat)
    requires p < |row| && m == |done| < message.Length && Filled(message[..], done)
    modifies message
    ensures next == p + (if row[p] == LETTER_X then 2 else 1)
    ensures Filled(message[..], done + [EscapeValue(row, p)])
  {
    hide Filled;
    next := p + 1;
    if row[p] == LETTER_R {
      Put(message, m, CR, done);
    } else if row[p] == LETTER_N {
      Put(message, m, LF, done);
    } else if row[p] == LETTER_X {
      var scanned := Nmea.ScanHex(CString(row[p + 1..]), 2);
      if scanned.Some? {
        Put(message, m, scanned.value % 256, done);
      } else {
        LeaveNul(message[..], done);
      }
      next := p + 2;
    } else {
      Put(message, m, row[p], done);
    }
  }

  /** The branch of the escape `\j`: `p` is at the letter. */
  method PutArgument(row: seq<Byte>, args: seq<seq<Byte>>, p: nat, message: array<Byte>, m: nat, ghost text: seq<Byte>,
                     ghost done: seq<Byte>)
      returns (next: nat, length: nat, ghost arg: seq<Byte>)
    requires Row(row, text) && Saved(text, args) && 0 < p <= |text| < |row| && Halfway(text, args, p - 1, done)
    requires row[p - 1] == BACKSLASH && row[p] == LETTER_J
    requires |Decode(text, args)| < message.Length && m == |done| && Filled(message[..], done)
    modifies message
    ensures p < next <= |text| && length == |arg| && Halfway(text, args, next, done + arg)
    ensures Filled(message[..], done + arg)
  {
    hide Row, Filled, Halfway, Saved, Decode;
    ArgumentAt(row, text, args, p, done);
    next := p + 1;
    var argno := 0;
    if IsDigit(row[next]) {
      argno := Decimal(CString(row[next..]), 0);
      next := next + 1;
    }
    arg := args[argno];
    DoneFits(text, args, next, done + arg);
    var end := PutAll(message, m, args[argno], done);
    length := |args[argno]|;
  }

  /** The loop of `config` that fills the message from the parameter in `row`. */
  method DecodeInto(row: seq<Byte>, args: seq<seq<Byte>>, message: array<Byte>, ghost text: seq<Byte>)
      returns (m: nat, messageLength: nat)
    requires Row(row, text) && Saved(text, args)
    requires |Decode(text, args)| < message.Length && Filled(message[..], [])
    modifies message
    ensures messageLength == m == |Decode(text, args)| && Filled(message[..], Decode(text, args))
  {
    hide Row, Filled, Halfway, Saved, Decode, EscapeValue, Overruns;
    RowSize(row, text);
    var p := 0;
    m, messageLength := 0, 0;
    ghost var done: seq<Byte> := [];
    DecodeStart(text, args);
    RowAt(row, text, 0);
    while row[p] != NUL
      invariant p <= |text| + 1 && p < |row| && m == messageLength == |done|
      invariant Halfway(text, args, p, done) && Filled(message[..], done)
      decreases |row| - p
    {
      RowAt(row, text, p);
      if row[p] == BACKSLASH {
        RowAt(row, text, p + 1);
        p := p + 1;
        if row[p] == LETTER_J {
          var length;
          ghost var arg;
          p, length, arg := PutArgument(row, args, p, message, m, text, done);
          done := done + arg;
          m, messageLength := m + length, messageLength + length;
        } else {
          EscapeAt(row, text, args, p, done);
          ghost var next, v := p + (if row[p] == LETTER_X then 2 else 1), EscapeValue(row, p);
          DoneFits(text, args, next, done + [v]);
          p := PutEscape(row, p, message, m, done);
          m, messageLength := m + 1, messageLength + 1;
          done := done + [v];
        }
      } else {
        PlainStep(text, args, p, done);
        DoneFits(text, args, p + 1, done + [text[p]]);
        Put(message, m, row[p], done);
        done := done + [row[p]];
        m, p, messageLength := m + 1, p + 1, messageLength + 1;
      }
    }
    RowAt(row, text, p);
    DoneFits(text, args, p, done);
  }

  lemma {:induction false} DecodeStart(text: seq<Byte>, args: seq<seq<Byte>>)
    requires Saved(text, args)
    ensures Halfway(text, args, 0, [])
  {
    assert Drop(text, 0) == text && [] + Decode(text, args) == Decode(text, args);
  }

  lemma {:induction false} DoneFits(text: seq<Byte>, args: seq<seq<Byte>>, p: nat, done: seq<Byte>)
    requires Saved(text, args) && Halfway(text, args, p, done)
    ensures |done| <= |Decode(text, args)|
    ensures p >= |text| ==> done == Decode(text, args)
  {
  }

  // ---------------------------------------------------------------- the checksum field of the writer

  /** The modes of the option `-m`: none, NMEA, and the sum that `-mx` asks for. */
  const PLAIN: int := 0
  const NMEA: int := 1

  /** The sum of the bytes modulo 256, which the mode of `-mx` sends. */
  function ByteSum(s: seq<Byte>): Byte {
    if s == [] then 0 else (ByteSum(s[..|s| - 1]) + s[|s| - 1]) % 256
  }

  /** What `config` makes of a decoded message. `strchr` sees it only as far as its first NUL. */
  function Sentence(body: seq<Byte>, mode: int): seq<Byte> {
    var dollar := Nmea.Index(CString(body), DOLLAR);
    if mode == PLAIN || dollar == |CString(body)| then body
    else if mode <= NMEA then Nmea.WithField(body, Nmea.Checksum(Drop(body, dollar + 1)), [CR, LF])
    else body + [ByteSum(Drop(body, dollar + 1)), CR, LF]
  }

  lemma {:induction false} CStringOfFilled(message: seq<Byte>, body: seq<Byte>)
    requires Filled(message, body) && |body| < |message|
    ensures CString(message) == CString(body)
    ensures |CString(body)| <= |body|
    decreases |body|
  {
    if body != [] {
      assert message[0] == message[..|body|][0];
      assert message[1..][..|body| - 1] == message[..|body|][1..];
      CStringOfFilled(message[1..], body[1..]);
    }
  }

  /** The loop over the checksummed characters, with both kinds of sum. */
  method SumField(message: array<Byte>, from: nat, m: nat, mode: int, ghost body: seq<Byte>) returns (sum: Byte)
    requires from <= m == |body| <= message.Length && message[..m] == body
    ensures sum == if mode <= NMEA then Nmea.Checksum(body[from..]) else ByteSum(body[from..])
  {
    hide Nmea.Checksum, ByteSum, Nmea.XorWords, Nmea.SignExtend;
    var w: Nmea.Word := 0;
    var p := from;
    EmptySums();
    assert body[from..from] == [];
    while p < m
      invariant from <= p <= m
      invariant w % 256 == if mode <= NMEA then Nmea.Checksum(body[from..p]) else ByteSum(body[from..p])
    {
      assert message[p] == message[..m][p];
      if mode <= NMEA {
        Nmea.SumStep(body, from, p, w);
        w := Nmea.XorWords(w, Nmea.SignExtend(message[p]));
      } else {
        AddStep(body, from, p, w);
        w := (w + Nmea.SignExtend(message[p])) % Nmea.WORD_MODULUS;
      }
      p := p + 1;
    }
    assert body[from..p] == body[from..];
    sum := w % 256; // `sum & 0xff`
  }

  lemma {:induction false} EmptySums()
    ensures Nmea.Checksum([]) == 0 && ByteSum([]) == 0
  {
  }

  /** The checksum field is written behind the message, which is terminated again. */
  method AppendField(message: array<Byte>, m0: nat, messageLength0: nat, mode: int, ghost body: seq<Byte>)
      returns (messageLength: nat)
    requires m0 == messageLength0 == |body| <= |Sentence(body, mode)| < message.Length && Filled(message[..], body)
    modifies message
    ensures messageLength == |Sentence(body, mode)| && Filled(message[..], Sentence(body, mode))
  {
    hide Nmea.Checksum, ByteSum;
    var m := m0;
    messageLength := messageLength0;
    CStringOfFilled(message[..], body);
    var dollar := Nmea.Index(CString(message[..]), DOLLAR);
    if mode != PLAIN && dollar < |CString(message[..])| {
      var sum := SumField(message, dollar + 1, m, mode, body);
      if mode <= NMEA {
        m := PutAll(message, m, [STAR] + (Nmea.PrintHex2(sum) + [CR, LF]), body);
        messageLength := messageLength + 5;
      } else {
        m := PutAll(message, m, [sum, CR, LF], body);
        messageLength := messageLength + 3;
      }
    }
    Terminate(message, m, Sentence(body, mode));
  }

  method Terminate(message: array<Byte>, m: nat, ghost done: seq<Byte>)
    requires m == |done| < message.Length && Filled(message[..], done)
    modifies message
    ensures Filled(message[..], done)
  {
    message[m] := NUL;
    assert message[..m] == done;
  }

  lemma {:induction false} AddStep(text: seq<Byte>, from: nat, i: nat, sum: Nmea.Word)
    requires from <= i < |text| && sum % 256 == ByteSum(text[from..i])
    ensures ((sum + Nmea.SignExtend(text[i])) % Nmea.WORD_MODULUS) % 256 == ByteSum(text[from..i + 1])
  {
    hide Nmea.SignExtend;
    assert text[from..i + 1][..i - from] == text[from..i];
    Nmea.SameLowByte(text[i]);
    AddLowBytes(sum, Nmea.SignExtend(text[i]));
    ModuloOfModulo(sum + Nmea.SignExtend(text[i]));
  }

  lemma {:induction false} AddLowBytes(a: nat, b: nat)
    ensures (a + b) % 256 == (a % 256 + b % 256) % 256
  {
  }

  lemma {:induction false} ModuloOfModulo(x: nat)
    ensures (x % Nmea.WORD_MODULUS) % 256 == x % 256
  {
    var q := x / Nmea.WORD_MODULUS;
    assert x == q * Nmea.WORD_MODULUS + x % Nmea.WORD_MODULUS;
  }

  lemma {:induction false} SentenceIsLonger(body: seq<Byte>, mode: int)
    ensures |body| <= |Sentence(body, mode)|
  {
  }

  /** `config` from the parameter to the message that is ready to be sent. */
  method SetMessage(row: seq<Byte>, args: seq<seq<Byte>>, mode: int, message: array<Byte>, ghost text: seq<Byte>)
      returns (messageLength: nat)
    requires Row(row, text) && Saved(text, args)
    requires |Sentence(Decode(text, args), mode)| < message.Length && Filled(message[..], [])
    modifies message
    ensures messageLength == |Sentence(Decode(text, args), mode)|
    ensures Filled(message[..], Sentence(Decode(text, args), mode))
  {
    var m;
    SentenceIsLonger(Decode(text, args), mode);
    m, messageLength := DecodeInto(row, args, message, text);
    messageLength := AppendField(message, m, messageLength, mode, Decode(text, args));
  }

  // ---------------------------------------------------------------- round trips

  /** The characters in `marked` are written as escapes, CR and LF by their letters. */
  function EscapeMessage(m: seq<Byte>, marked: set<Byte>): seq<Byte> {
    if m == [] then []
    else
      (if m[0] !in marked then [m[0]]
       else if m[0] == 0x0D then [0x5C, 0x72]
       else if m[0] == 0x0A then [0x5C, 0x6E]
       else [0x5C, m[0]])
      + EscapeMessage(m[1..], marked)
  }

  /** The backslash has to be escaped; a letter with a meaning of its own and NUL cannot be. */
  predicate Markable(marked: set<Byte>) {
    0x5C in marked && {0x00, 0x72, 0x6E, 0x78, 0x6A} !! marked
  }

  /**
   Decoding undoes the escaping, in front of any other text. The parameter starts with a dash only if the message does
   and the dash is not marked, so that `config` takes no message for an option.
   */
  lemma {:induction false} DecodeUndoesEscape(m: seq<Byte>, marked: set<Byte>, rest: seq<Byte>, args: seq<seq<Byte>>)
    requires Markable(marked) && Saved(rest, args)
    ensures Saved(EscapeMessage(m, marked) + rest, args)
    ensures Decode(EscapeMessage(m, marked) + rest, args) == m + Decode(rest, args)
  {
    var e := EscapeMessage(m, marked);
    if m == [] {
      assert e + rest == rest && m + Decode(rest, args) == Decode(rest, args);
    } else {
      hide EscapeMessage, Decode, Saved;
      var tail := EscapeMessage(m[1..], marked) + rest;
      DecodeUndoesEscape(m[1..], marked, rest, args);
      OneEscaped(m, marked, rest);
      if m[0] in marked {
        EscapeDecoded(m[0], tail, args);
      } else {
        PlainDecoded(m[0], tail, args);
      }
      Front(m, Decode(rest, args));
    }
  }

  lemma {:induction false} Front(m: seq<Byte>, d: seq<Byte>)
    requires m != []
    ensures [m[0]] + (m[1..] + d) == m + d
  {
  }

  lemma {:induction false} OneEscaped(m: seq<Byte>, marked: set<Byte>, rest: seq<Byte>)
    requires m != []
    ensures var c, tail := m[0], EscapeMessage(m[1..], marked) + rest;
            EscapeMessage(m, marked) + rest ==
            (if c !in marked then [c] else if c == 0x0D then [0x5C, 0x72] else if c == 0x0A then [0x5C, 0x6E] else [0x5C, c])
            + tail
  {
  }

  /** What an escape stands for that starts neither an argument nor a number. */
  lemma {:induction false} EscapeDecoded(c: Byte, rest: seq<Byte>, args: seq<seq<Byte>>)
    requires c !in {0x00, 0x72, 0x6E, 0x78, 0x6A} && Saved(rest, args)
    ensures var s := (if c == 0x0D then [0x5C, 0x72] else if c == 0x0A then [0x5C, 0x6E] else [0x5C, c]) + rest;
            Saved(s, args) && Decode(s, args) == [c] + Decode(rest, args)
  {
    var s := (if c == 0x0D then [0x5C, 0x72] else if c == 0x0A then [0x5C, 0x6E] else [0x5C, c]) + rest;
    assert Drop(s, 2) == rest;
  }

  lemma {:induction false} PlainDecoded(c: Byte, rest: seq<Byte>, args: seq<seq<Byte>>)
    requires c != 0x5C && Saved(rest, args)
    ensures Saved([c] + rest, args) && Decode([c] + rest, args) == [c] + Decode(rest, args)
  {
    assert ([c] + rest)[1..] == rest;
  }

  /** A message as the whole parameter. */
  lemma {:induction false} DecodesToMessage(m: seq<Byte>, marked: set<Byte>, args: seq<seq<Byte>>)
    requires Markable(marked)
    ensures Saved(EscapeMessage(m, marked), args) && Decode(EscapeMessage(m, marked), args) == m
    ensures m != [] ==> var e := EscapeMessage(m, marked); e != [] && (e[0] == 0x2D <==> m[0] == 0x2D && 0x2D !in marked)
    ensures NUL !in m ==> NUL !in EscapeMessage(m, marked)
  {
    assert EscapeMessage(m, marked) + [] == EscapeMessage(m, marked) && m + [] == m;
    assert Decode([], args) == [];
    DecodeUndoesEscape(m, marked, [], args);
    EscapedIsText(m, marked);
  }

  lemma {:induction false} EscapedIsText(m: seq<Byte>, marked: set<Byte>)
    ensures NUL !in m ==> NUL !in EscapeMessage(m, marked)
  {
    if m != [] {
      EscapedIsText(m[1..], marked);
    }
  }

  /** The escape `\j` with one digit copies the argument of that number, and without a digit the first one. */
  lemma {:induction false} ArgumentEscape(d: nat, rest: seq<Byte>, args: seq<seq<Byte>>)
    requires d < 10 && Saved(rest, args) && (rest != [] ==> !(0x30 <= rest[0] <= 0x39))
    ensures d < |args| ==>
              var s: seq<Byte> := [0x5C, 0x6A, 0x30 + d] + rest;
              Saved(s, args) && Decode(s, args) == args[d] + Decode(rest, args)
    ensures |args| > 0 ==>
              var s: seq<Byte> := [0x5C, 0x6A] + rest;
              Saved(s, args) && Decode(s, args) == args[0] + Decode(rest, args)
  {
    var s: seq<Byte> := [0x5C, 0x6A, 0x30 + d] + rest;
    assert s[2..] == [0x30 + d] + rest && s[3..] == rest && ([0x30 + d] + rest)[1..] == rest;
    assert Decimal([0x30 + d] + rest, 0) == Decimal(rest, d) == d;
    assert ([0x5C, 0x6A] + rest)[2..] == rest;
  }

  /** With a second digit it copies the argument of both, and the second digit stays in the message. */
  lemma {:induction false} ArgumentTwoDigits(d: nat, e: nat, rest: seq<Byte>, args: seq<seq<Byte>>)
    requires d < 10 && e < 10 && Saved(rest, args) && (rest != [] ==> !(0x30 <= rest[0] <= 0x39)) && 10 * d + e < |args|
    ensures var s: seq<Byte> := [0x5C, 0x6A, 0x30 + d, 0x30 + e] + rest;
            Saved(s, args) && Decode(s, args) == args[10 * d + e] + ([0x30 + e] + Decode(rest, args))
  {
    var digits: seq<Byte> := [0x30 + d, 0x30 + e] + rest;
    var s: seq<Byte> := [0x5C, 0x6A, 0x30 + d, 0x30 + e] + rest;
    assert s[2..] == digits && s[3..] == [0x30 + e] + rest && digits[1..] == [0x30 + e] + rest && digits[1..][1..] == rest;
    assert Decimal(digits, 0) == Decimal(digits[1..], d) == Decimal(rest, 10 * d + e) == 10 * d + e;
    PlainDecoded(0x30 + e, rest, args);
  }

  /** From a script line to the wire: a message that is escaped for the decoder is sent as it is. */
  lemma {:induction false} ScriptToMessage(words: seq<Script.Word>, behind: seq<Byte>, i: nat, m: seq<Byte>,
                                           marked: set<Byte>, args: seq<seq<Byte>>)
    requires Script.Writable(words, behind) && Markable(marked)
    requires i < |words| && words[i].text == EscapeMessage(m, marked)
    ensures var read := Script.Parameters(Script.LineOf(words, behind));
            |read| == |words| && Saved(read[i], args) && Sentence(Decode(read[i], args), PLAIN) == m
  {
    Script.LineRoundTrip(words, behind);
    DecodesToMessage(m, marked, args);
  }

  /** A sentence that `config` completes is accepted by the checker if and only if it has a dollar sign. */
  lemma {:induction false} SentenceAccepted(body: seq<Byte>, behind: seq<Byte>)
    requires NUL !in body && STAR !in body && |body| + 6 < Nmea.UNBOUNDED
    ensures Nmea.Verdict(Sentence(body, NMEA), behind) == if DOLLAR in body then 0 else -1
  {
    assert CString(body) == body by { TextIsCString(body); }
    Nmea.IndexMeans(body, DOLLAR);
    if DOLLAR in body {
      var dollar := Nmea.Index(body, DOLLAR);
      Nmea.FieldJudged(body, Nmea.Checksum(body[dollar + 1..]), [CR, LF], behind);
    }
  }

  lemma {:induction false} TextIsCString(text: seq<Byte>)
    requires NUL !in text
    ensures CString(text) == text
  {
    if text != [] {
      TextIsCString(text[1..]);
    }
  }

  /** The main loop expands a message with a percent sign by `strftime`, whose work is a parameter here. */
  function Sent(message: seq<Byte>, strftime: seq<Byte> -> seq<Byte>): seq<Byte> {
    if Nmea.Has(CString(message), PERCENT) then strftime(message) else message
  }

  /** A message is expanded if and only if it has a percent sign in front of its first NUL. */
  lemma {:induction false} ExpandsIff(m: seq<Byte>, strftime: seq<Byte> -> seq<Byte>)
    ensures (exists k :: 0 <= k < |m| && m[k] == 0x25 && 0x00 !in m[..k]) ==> Sent(m, strftime) == strftime(m)
    ensures (forall k :: 0 <= k < |m| && m[k] == 0x25 ==> 0x00 in m[..k]) ==> Sent(m, strftime) == m
  {
    CStringMeans(m);
    var text := CString(m);
    Nmea.IndexMeans(text, PERCENT);
    if k :| 0 <= k < |m| && m[k] == 0x25 && 0x00 !in m[..k] {
      assert m[..k + 1] == m[..k] + [0x25];
      CStringReaches(m, k + 1);
      assert text[k] == text[..k + 1][k];
    }
    if PERCENT in text {
      var k :| 0 <= k < |text| && text[k] == PERCENT;
      assert m[..k] == text[..k];
    }
  }

  /** A hexadecimal digit as it is sent: 0 to 9, A to F. */
  function HexLetter(v: nat): (c: Byte)
    requires v < 16
  {
    if v < 10 then 0x30 + v else 0x41 + (v - 10)
  }

  /** What stands at the end of a sentence with a checksum: star, two digits, CR and LF, or the sum, CR and LF. */
  lemma {:induction false} SentenceEnds(before: seq<Byte>, summed: seq<Byte>, mode: int)
    requires 0x00 !in before && 0x24 !in before && mode != 0
    ensures var body, sum := before + [0x24] + summed, if mode <= 1 then Nmea.Checksum(summed) else ByteSum(summed);
            Sentence(body, mode) ==
            body + if mode <= 1 then [0x2A, HexLetter(sum / 16), HexLetter(sum % 16), 0x0D, 0x0A] else [sum, 0x0D, 0x0A]
  {
    hide Nmea.Checksum, ByteSum;
    var body := before + [0x24] + summed;
    var text := CString(body);
    assert body[..|before| + 1] == before + [0x24];
    CStringReaches(body, |before| + 1);
    assert text[..|before|] == text[..|before| + 1][..|before|] && text[|before|] == text[..|before| + 1][|before|];
    Nmea.IndexIs(text, DOLLAR, |before|);
    assert Drop(body, |before| + 1) == summed;
  }

  /** Without a dollar sign in front of the first NUL, or without the option, nothing is added. */
  lemma {:induction false} SentencePlain(body: seq<Byte>, mode: int)
    requires mode == 0 || forall k :: 0 <= k < |body| && body[k] == 0x24 ==> 0x00 in body[..k]
    ensures Sentence(body, mode) == body
  {
    var text := CString(body);
    CStringMeans(body);
    Nmea.IndexMeans(text, DOLLAR);
    if DOLLAR in text {
      var k :| 0 <= k < |text| && text[k] == DOLLAR;
      assert body[..k] == text[..k];
    }
  }

  /** The sum of a byte is the byte, and the sum of two stretches is that of their sums, modulo 256. */
  lemma {:induction false} ByteSumAdds(a: seq<Byte>, b: seq<Byte>, c: Byte)
    ensures ByteSum(a + b) == (ByteSum(a) + ByteSum(b)) % 256 && ByteSum([c]) == c
  {
    hide ByteSum;
    ByteSumNext([], c);
    assert [] + [c] == [c];
    if b == [] {
      assert a + b == a;
    } else {
      var d, e := b[..|b| - 1], b[|b| - 1];
      ByteSumAdds(a, d, c);
      assert b == d + [e] && a + b == a + d + [e];
      ByteSumNext(d, e);
      ByteSumNext(a + d, e);
      SumsModulo(ByteSum(a), ByteSum(d), e);
    }
  }

  lemma {:induction false} ByteSumNext(s: seq<Byte>, c: Byte)
    ensures ByteSum(s + [c]) == (ByteSum(s) + c) % 256 && ByteSum([]) == 0
  {
    assert (s + [c])[..|s|] == s;
  }

  lemma {:induction false} SumsModulo(x: nat, y: nat, z: nat)
    ensures ((x + y) % 256 + z) % 256 == (x + (y + z) % 256) % 256
  {
  }

  /** From a script line to the checker: the whole way of an NMEA message. */
  lemma {:induction false} ScriptToVerdict(words: seq<Script.Word>, after: seq<Byte>, i: nat, m: seq<Byte>,
                                           marked: set<Byte>, args: seq<seq<Byte>>, strftime: seq<Byte> -> seq<Byte>,
                                           behind: seq<Byte>)
    requires Script.Writable(words, after) && Markable(marked)
    requires i < |words| && words[i].text == EscapeMessage(m, marked)
    requires DOLLAR in m && {NUL, STAR, PERCENT} !! (set c | c in m) && |m| + 6 < Nmea.UNBOUNDED
    ensures var read := Script.Parameters(Script.LineOf(words, after));
            && |read| == |words| && Saved(read[i], args)
            && Sent(Sentence(Decode(read[i], args), NMEA), strftime) == Sentence(m, NMEA)
    ensures Nmea.Verdict(Sentence(m, NMEA), behind) == 0
  {
    Script.LineRoundTrip(words, after);
    DecodesToMessage(m, marked, args);
    SentenceAccepted(m, behind);
    NothingExpanded(m);
  }

  lemma {:induction false} NothingExpanded(m: seq<Byte>)
    requires NUL !in m && PERCENT !in m
    ensures !Nmea.Has(CString(Sentence(m, NMEA)), PERCENT)
  {
    var s := Sentence(m, NMEA);
    var sum := Nmea.Checksum(Drop(m, Nmea.Index(CString(m), DOLLAR) + 1));
    assert PERCENT !in Nmea.PrintHex2(sum);
    assert PERCENT !in Nmea.WithField(m, sum, [CR, LF]);
    assert PERCENT !in s;
    CStringMeans(s);
    Nmea.IndexMeans(CString(s), PERCENT);
  }

  lemma {:induction false} TwoDigits(h: Byte, rest: seq<Byte>)
    requires Nmea.HexValue(h).Some?
    ensures var digit := if rest == [] then None else Nmea.HexValue(rest[0]);
            Nmea.ScanDigits([h] + rest, 2, 0) ==
            if digit.Some? then 16 * Nmea.HexValue(h).value + digit.value else Nmea.HexValue(h).value
  {
    hide Nmea.ScanDigits, Nmea.HexValue;
    Nmea.ScanDigit(h, rest, 1, 0);
    if rest != [] && Nmea.HexValue(rest[0]).Some? {
      assert rest == [rest[0]] + rest[1..];
      Nmea.ScanDigit(rest[0], rest[1..], 0, Nmea.HexValue(h).value);
    }
    Nmea.ScanStops();
  }

  lemma {:induction false} HexField(h: Byte, rest: seq<Byte>)
    requires Nmea.HexValue(h).Some?
    ensures var digit := if rest == [] then None else Nmea.HexValue(rest[0]);
            HexByte([h] + rest) ==
            if digit.Some? then 16 * Nmea.HexValue(h).value + digit.value else Nmea.HexValue(h).value
  {
    hide Nmea.ScanDigits, Nmea.HexValue, Nmea.ScanHex;
    TwoDigits(h, rest);
    ScanTwo(h, rest);
    HexIsNoBlank(h);
  }

  lemma {:induction false} HexIsNoBlank(h: Byte)
    requires Nmea.HexValue(h).Some?
    ensures !Nmea.IsSpace(h) && h != 0x2B && h != 0x2D
    ensures Nmea.HexValue(0x78).None? && Nmea.HexValue(0x58).None? && Nmea.HexValue(0x30) == Some(0)
  {
  }

  /** A field of two characters that starts with a digit: a prefix 0x leaves no room for a digit. */
  lemma {:induction false} ScanTwo(h: Byte, rest: seq<Byte>)
    requires Nmea.HexValue(h).Some?
    ensures Nmea.ScanHex([h] + rest, 2) ==
            if h == 0x30 && rest != [] && (rest[0] == 0x78 || rest[0] == 0x58) then None
            else Some(Nmea.ScanDigits([h] + rest, 2, 0))
  {
    hide Nmea.ScanDigits, Nmea.HexValue;
    HexIsNoBlank(h);
    var s := [h] + rest;
    assert Nmea.SkipSpace(s) == s && s[0] == h;
    assert rest != [] ==> s[1] == rest[0];
  }

  /**
   `\x` consumes one digit. So it stands for the byte that its digits spell, in front of what follows them, if and only
   if no second digit follows.
   */
  lemma {:induction false} HexEscape(h: Byte, rest: seq<Byte>, args: seq<seq<Byte>>)
    requires Nmea.HexValue(h).Some? && Saved(rest, args)
    ensures var s := [0x5C, 0x78, h] + rest;
            var digit := if rest == [] then None else Nmea.HexValue(rest[0]);
            var byte := if digit.Some? then 16 * Nmea.HexValue(h).value + digit.value else Nmea.HexValue(h).value;
            var after := if digit.Some? then rest[1..] else rest;
            && Saved(s, args) && Saved(after, args)
            && Decode(s, args) == [byte] + Decode(rest, args)
            && (Decode(s, args) == [byte] + Decode(after, args) <==> digit.None?)
  {
    hide HexByte;
    var s := [0x5C, 0x78, h] + rest;
    assert Drop(s, 3) == rest && s[2..] == [h] + rest;
    HexField(h, rest);
    if rest != [] && Nmea.HexValue(rest[0]).Some? {
      DigitIsPlain(rest, args);
      assert |Decode(rest, args)| == |Decode(rest[1..], args)| + 1;
    }
  }

  lemma {:induction false} DigitIsPlain(rest: seq<Byte>, args: seq<seq<Byte>>)
    requires rest != [] && Nmea.HexValue(rest[0]).Some? && Saved(rest, args)
    ensures Saved(rest[1..], args) && Decode(rest, args) == [rest[0]] + Decode(rest[1..], args)
  {
    assert rest[0] != BACKSLASH;
  }

  /** Without a digit `\x` puts a NUL into the message, and still consumes the character behind it. */
  lemma {:induction false} HexWithoutDigit(c: Byte, rest: seq<Byte>, args: seq<seq<Byte>>)
    requires Nmea.HexValue(c).None? && !Nmea.IsSpace(c) && c != 0x2B && c != 0x2D && Saved(rest, args)
    ensures var s := [0x5C, 0x78, c] + rest; Saved(s, args) && Decode(s, args) == [0x00] + Decode(rest, args)
  {
    hide Nmea.ScanDigits;
    var s := [0x5C, 0x78, c] + rest;
    assert Drop(s, 3) == rest && s[2..] == [c] + rest;
    assert Nmea.SkipSpace([c] + rest) == [c] + rest;
    assert Nmea.ScanHex([c] + rest, 2) == None;
  }

  /** An input that fails: `\x41` is not the letter A but an A and a 1. */
  lemma {:induction false} HexTwoDigits()
    ensures Saved([0x5C, 0x78, 0x34, 0x31], []) && Decode([0x5C, 0x78, 0x34, 0x31], []) == [0x41, 0x31]
  {
    var rest: seq<Byte> := [0x31];
    assert rest[1..] == [];
    HexEscape(0x34, rest, []);
    DigitIsPlain(rest, []);
    assert [0x5C, 0x78, 0x34] + rest == [0x5C, 0x78, 0x34, 0x31];
  }
}
