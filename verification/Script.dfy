/**
 The parameters of a script line: the in-place tokenizer `getParameter`, the loop that calls it,
 and the quoting that they undo.
 */
module Script {
  import opened Basics

  predicate Blank(c: Byte) {
    c == SPACE || c == TAB
  }

  function SkipBlanks(s: seq<Byte>): seq<Byte> {
    if s != [] && Blank(s[0]) then SkipBlanks(s[1..]) else s
  }

  /** The character that an escape stands for. */
  function Unescape(c: Byte): Byte {
    if c == 0x72 then CR else if c == 0x6E then LF else if c == 0x74 then TAB else c
  }

  /** What ends a parameter: a quote or a space, but no tab. */
  function Delimiter(quoted: bool): Byte {
    if quoted then QUOTE else SPACE
  }

  /** A scanned parameter: its text, the raw characters it took, and whether its delimiter was found. */
  datatype Scanned = Scanned(token: seq<Byte>, used: nat, closed: bool)

  function Scan(s: seq<Byte>, quoted: bool): (r: Scanned)
    ensures |r.token| <= r.used <= |s| && (r.closed <==> r.used < |s|)
  {
    if s == [] then Scanned([], 0, false)
    else if s[0] == Delimiter(quoted) then Scanned([], 0, true)
    else if s[0] != BACKSLASH then
      var r := Scan(s[1..], quoted);
      Scanned([s[0]] + r.token, r.used + 1, r.closed)
    else if |s| == 1 then Scanned([], 1, false)
    else
      var r := Scan(s[2..], quoted);
      Scanned([Unescape(s[1])] + r.token, r.used + 2, r.closed)
  }

  /** The line behind the blanks and the opening quote of its first parameter. */
  function Body(line: seq<Byte>): (b: seq<Byte>)
    ensures |b| <= |SkipBlanks(line)|
  {
    if Quoted(line) then SkipBlanks(line)[1..] else SkipBlanks(line)
  }

  predicate Quoted(line: seq<Byte>) {
    SkipBlanks(line) != [] && SkipBlanks(line)[0] == QUOTE
  }

  /** The string that `getParameter` returns: a parameter that runs to the end of the line keeps its stale tail. */
  function Returned(line: seq<Byte>): (param: seq<Byte>)
    ensures line == [] ==> param == []
  {
    var b := Body(line);
    var r := Scan(b, Quoted(line));
    if r.closed then r.token else r.token + b[|r.token|..]
  }

  /** What is left for the next call. */
  function Remaining(line: seq<Byte>): (rest: seq<Byte>)
    ensures line != [] ==> |rest| < |line|
  {
    SkipBlanksShortens(line);
    var b := Body(line);
    var r := Scan(b, Quoted(line));
    if r.closed then
      SkipBlanksShortens(b[r.used + 1..]);
      SkipBlanks(b[r.used + 1..])
    else []
  }

  lemma {:induction false} SkipBlanksShortens(s: seq<Byte>)
    ensures |SkipBlanks(s)| <= |s| && SkipBlanks(s) == s[|s| - |SkipBlanks(s)|..]
  {
    if s != [] && Blank(s[0]) {
      SkipBlanksShortens(s[1..]);
    }
  }

  /** All parameters that `config` takes from a line: it stops at the first empty one. */
  function Parameters(line: seq<Byte>): seq<seq<Byte>>
    decreases |line|
  {
    if Returned(line) == [] then []
    else [Returned(line)] + Parameters(Remaining(line))
  }

  lemma {:induction false} ScanKeepsNonNul(s: seq<Byte>, quoted: bool)
    requires NUL !in s
    ensures NUL !in Scan(s, quoted).token
  {
    if s == [] || s[0] == Delimiter(quoted) {
    } else if s[0] != BACKSLASH {
      ScanKeepsNonNul(s[1..], quoted);
    } else if |s| > 1 {
      ScanKeepsNonNul(s[2..], quoted);
    }
  }

  /** The scan of `body` has taken `k` raw characters and put out `out`; the rest will add the rest. */
  ghost predicate Underway(body: seq<Byte>, quoted: bool, k: nat, out: seq<Byte>) {
    && k <= |body|
    && var rest := Scan(body[k..], quoted);
       Scan(body, quoted) == Scanned(out + rest.token, k + rest.used, rest.closed)
  }

  lemma {:induction false} OneRaw(body: seq<Byte>, quoted: bool, k: nat, out: seq<Byte>)
    requires k < |body| && Underway(body, quoted, k, out)
    requires body[k] != Delimiter(quoted) && body[k] != BACKSLASH
    ensures Underway(body, quoted, k + 1, out + [body[k]])
  {
    var s := body[k..];
    assert s[1..] == body[k + 1..];
    assert out + ([s[0]] + Scan(s[1..], quoted).token) == out + [s[0]] + Scan(s[1..], quoted).token;
  }

  lemma {:induction false} OneEscape(body: seq<Byte>, quoted: bool, k: nat, out: seq<Byte>)
    requires k + 1 < |body| && Underway(body, quoted, k, out) && body[k] == BACKSLASH
    ensures Underway(body, quoted, k + 2, out + [Unescape(body[k + 1])])
  {
    var s := body[k..];
    assert s[2..] == body[k + 2..] && s[1] == body[k + 1] && BACKSLASH != Delimiter(quoted);
    assert out + ([Unescape(s[1])] + Scan(s[2..], quoted).token) == out + [Unescape(s[1])] + Scan(s[2..], quoted).token;
  }

  lemma {:induction false} LoneBackslash(body: seq<Byte>, quoted: bool, k: nat, out: seq<Byte>)
    requires k + 1 == |body| && Underway(body, quoted, k, out) && body[k] == BACKSLASH
    ensures Underway(body, quoted, k + 1, out)
  {
    assert |body[k..]| == 1 && body[k + 1..] == [] && BACKSLASH != Delimiter(quoted);
  }

  // ---------------------------------------------------------------- the tokenizer in place

  /** The C string in `buf` at `p` is the text that ends at the NUL in position `end`. */
  ghost predicate Line(buf: seq<Byte>, p: nat, end: nat) {
    p <= end < |buf| && buf[end] == NUL && NUL !in buf[p..end]
  }

  /**
   The state of the unescaping loop: the write cursor has not passed the read cursor, what lies before the parameter
   and from the write cursor on is as it was, and the characters between are the unescaped part so far.
   */
  ghost predicate Shuffled(now: seq<Byte>, was: seq<Byte>, p: nat, end: nat, quoted: bool, next: nat, shuffle: nat) {
    && |now| == |was| && Line(was, p, end) && p <= shuffle <= next <= end
    && now[..p] == was[..p] && now[shuffle..] == was[shuffle..]
    && Underway(was[p..end], quoted, next - p, now[p..shuffle])
  }

  lemma {:induction false} ShuffledStart(was: seq<Byte>, p: nat, end: nat, quoted: bool)
    requires Line(was, p, end)
    ensures end < |was| && Shuffled(was, was, p, end, quoted, p, p)
  {
    var body := was[p..end];
    assert body[0..] == body && was[p..p] == [] && [] + Scan(body, quoted).token == Scan(body, quoted).token;
  }

  lemma {:induction false} ShuffledBounds(now: seq<Byte>, was: seq<Byte>, p: nat, end: nat, quoted: bool, next: nat,
                                          shuffle: nat)
    requires Shuffled(now, was, p, end, quoted, next, shuffle)
    ensures p <= shuffle <= next <= end < |now| == |was|
  {
  }

  lemma {:induction false} ReadsOriginal(now: seq<Byte>, was: seq<Byte>, p: nat, end: nat, quoted: bool, next: nat,
                                         shuffle: nat)
    requires Shuffled(now, was, p, end, quoted, next, shuffle)
    ensures forall k :: next <= k <= end ==> now[k] == was[k]
    ensures forall k :: next <= k < end ==> now[k] == was[p..end][k - p] != NUL
    ensures now[end] == NUL
  {
    forall k | next <= k <= end ensures now[k] == was[k] {
      assert now[shuffle..][k - shuffle] == was[shuffle..][k - shuffle];
    }
  }

  lemma {:induction false} Written(now: seq<Byte>, was: seq<Byte>, p: nat, shuffle: nat, v: Byte)
    requires |now| == |was| && p <= shuffle < |now| && now[..p] == was[..p] && now[shuffle..] == was[shuffle..]
    ensures var w := now[shuffle := v];
            w[..p] == was[..p] && w[shuffle + 1..] == was[shuffle + 1..] && w[p..shuffle + 1] == now[p..shuffle] + [v]
  {
    assert was[shuffle..][1..] == was[shuffle + 1..] && now[shuffle..][1..] == now[shuffle + 1..];
  }

  lemma {:induction false} ShuffledRaw(now: seq<Byte>, was: seq<Byte>, p: nat, end: nat, quoted: bool, next: nat,
                                       shuffle: nat)
    requires Shuffled(now, was, p, end, quoted, next, shuffle)
    requires now[next] != NUL && now[next] != Delimiter(quoted) && now[next] != BACKSLASH
    ensures next < end && Shuffled(now[shuffle := now[next]], was, p, end, quoted, next + 1, shuffle + 1)
  {
    hide Underway, Scan;
    ReadsOriginal(now, was, p, end, quoted, next, shuffle);
    OneRaw(was[p..end], quoted, next - p, now[p..shuffle]);
    Written(now, was, p, shuffle, now[next]);
  }

  lemma {:induction false} ShuffledEscape(now: seq<Byte>, was: seq<Byte>, p: nat, end: nat, quoted: bool, next: nat,
                                          shuffle: nat)
    requires Shuffled(now, was, p, end, quoted, next, shuffle) && now[next] == BACKSLASH
    ensures next < end
    ensures now[next + 1] != NUL ==>
              next + 1 < end && Shuffled(now[shuffle := Unescape(now[next + 1])], was, p, end, quoted, next + 2, shuffle + 1)
    ensures now[next + 1] == NUL ==> next + 1 == end && Shuffled(now, was, p, end, quoted, end, shuffle)
  {
    ReadsOriginal(now, was, p, end, quoted, next, shuffle);
    if next + 1 < end {
      OneEscape(was[p..end], quoted, next - p, now[p..shuffle]);
      Written(now, was, p, shuffle, Unescape(now[next + 1]));
    } else {
      LoneBackslash(was[p..end], quoted, next - p, now[p..shuffle]);
    }
  }

  /** Where the loop stops, everything is said by `Scan`. */
  lemma {:induction false} ShuffledEnd(now: seq<Byte>, was: seq<Byte>, p: nat, end: nat, quoted: bool, next: nat,
                                       shuffle: nat)
    requires Shuffled(now, was, p, end, quoted, next, shuffle)
    requires now[next] == Delimiter(quoted) || now[next] == NUL
    ensures Scan(was[p..end], quoted) == Scanned(now[p..shuffle], next - p, next < end)
  {
    ReadsOriginal(now, was, p, end, quoted, next, shuffle);
    var rest := was[p..end][next - p..];
    assert next < end ==> rest[0] == now[next];
    assert now[p..shuffle] + [] == now[p..shuffle];
  }

  /** The first parameter of the line at `start` begins at `p`, behind blanks and an opening quote. */
  ghost predicate Begins(was: seq<Byte>, start: nat, end: nat, p: nat) {
    start <= p <= end < |was| && was[p..end] == Body(was[start..end])
  }

  /** What `getParameter` leaves behind: all parts of its contract, on the contents of the buffer. */
  ghost predicate Taken(now: seq<Byte>, was: seq<Byte>, start: nat, end: nat, p: nat, next: nat) {
    && |now| == |was| && Line(was, start, end) && start <= p <= next && Line(now, next, end)
    && CString(now[p..]) == Returned(was[start..end])
    && now[next..end] == Remaining(was[start..end])
    && now[..p] == was[..p] && now[next..] == was[next..]
  }

  /** `line` is `now` with NULs in two places. */
  ghost predicate Terminated(line: seq<Byte>, now: seq<Byte>, next: nat, shuffle: nat) {
    && |line| == |now| && shuffle <= next < |now| && line[next] == line[shuffle] == NUL
    && forall k :: 0 <= k < |now| && k != next && k != shuffle ==> line[k] == now[k]
  }

  lemma {:induction false} TerminatedKeeps(line: seq<Byte>, now: seq<Byte>, was: seq<Byte>, p: nat, end: nat,
                                           quoted: bool, next: nat, shuffle: nat)
    requires Shuffled(now, was, p, end, quoted, next, shuffle) && next < end && Terminated(line, now, next, shuffle)
    ensures line[..p] == was[..p] && line[next + 1..] == was[next + 1..] && Line(line, next + 1, end)
    ensures was[p..end][next - p + 1..] == line[next + 1..end]
  {
    assert now[next + 1..] == now[shuffle..][next + 1 - shuffle..] == was[shuffle..][next + 1 - shuffle..] == was[next + 1..];
    assert line[next + 1..] == now[next + 1..];
    assert line[..p] == now[..p];
    assert line[next + 1..end] == line[next + 1..][..end - next - 1] == was[next + 1..][..end - next - 1] == was[next + 1..end];
    assert was[p..end][next - p + 1..] == was[next + 1..end];
    assert line[end] == line[next + 1..][end - next - 1] == was[end];
    assert NUL !in was[next + 1..end] by {
      assert forall k :: next + 1 <= k < end ==> was[k] == was[p..end][k - p];
    }
  }

  lemma {:induction false} TerminatedText(line: seq<Byte>, now: seq<Byte>, p: nat, next: nat, shuffle: nat)
    requires p <= shuffle && Terminated(line, now, next, shuffle) && NUL !in now[p..shuffle]
    ensures CString(line[p..]) == now[p..shuffle]
  {
    assert line[p..shuffle] == now[p..shuffle];
    assert line[p..] == line[p..shuffle] + [NUL] + line[shuffle + 1..];
    CStringOf(line[p..shuffle], line[shuffle + 1..]);
  }

  /** A parameter whose delimiter was found: both NULs of the source are in place, the second one at `shuffle`. */
  lemma {:induction false} ClosesParameter(line: seq<Byte>, now: seq<Byte>, was: seq<Byte>, start: nat, p: nat,
                                           end: nat, next: nat, shuffle: nat, after: nat)
    requires Line(was, start, end) && Begins(was, start, end, p)
    requires Shuffled(now, was, p, end, Quoted(was[start..end]), next, shuffle) && next < end
    requires Terminated(line, now, next, shuffle)
    requires Scan(was[p..end], Quoted(was[start..end])) == Scanned(now[p..shuffle], next - p, true)
    requires next < after <= end && Line(line, after, end) && line[after..end] == SkipBlanks(line[next + 1..end])
    ensures Taken(line, was, start, end, p, after)
  {
    hide Shuffled, Terminated, Scan, SkipBlanks, CString, Body, Quoted;
    var q := Quoted(was[start..end]);
    ShuffledBounds(now, was, p, end, q, next, shuffle);
    TerminatedKeeps(line, now, was, p, end, q, next, shuffle);
    ScanKeepsNonNul(was[p..end], q);
    TerminatedText(line, now, p, next, shuffle);
    assert line[after..] == line[next + 1..][after - next - 1..] == was[next + 1..][after - next - 1..] == was[after..];
  }

  lemma {:induction false} UnterminatedKeeps(now: seq<Byte>, was: seq<Byte>, p: nat, end: nat, quoted: bool,
                                             shuffle: nat)
    requires Shuffled(now, was, p, end, quoted, end, shuffle)
    ensures now[..p] == was[..p] && now[end..] == was[end..] && now[end] == NUL
    ensures was[p..end][shuffle - p..] == now[shuffle..end]
  {
    assert now[end..] == now[shuffle..][end - shuffle..] == was[shuffle..][end - shuffle..] == was[end..];
    assert was[p..end][shuffle - p..] == was[shuffle..end] == was[shuffle..][..end - shuffle] == now[shuffle..end];
    assert now[end] == now[end..][0] == was[end..][0];
  }

  /** A parameter that runs to the end of the line is not terminated again. */
  lemma {:induction false} KeepsTail(now: seq<Byte>, was: seq<Byte>, start: nat, p: nat, end: nat, shuffle: nat)
    requires Line(was, start, end) && Begins(was, start, end, p)
    requires Shuffled(now, was, p, end, Quoted(was[start..end]), end, shuffle)
    requires Scan(was[p..end], Quoted(was[start..end])) == Scanned(now[p..shuffle], end - p, false)
    ensures Taken(now, was, start, end, p, end)
  {
    hide Shuffled, Scan, SkipBlanks, CString, Body, Quoted;
    var q := Quoted(was[start..end]);
    ShuffledBounds(now, was, p, end, q, end, shuffle);
    UnterminatedKeeps(now, was, p, end, q, shuffle);
    ScanKeepsNonNul(was[p..end], q);
    var text := now[p..shuffle] + now[shuffle..end];
    assert text == now[p..end];
    assert now[p..] == text + [NUL] + now[end + 1..];
    CStringOf(text, now[end + 1..]);
  }

  const CMD_PARAMS: nat := 20
  const CMD_PARAM_LEN: nat := 128

  /** The parameter rows have room, also for the empty one at the end: the copying does not look. */
  predicate RowsHold(params: seq<seq<Byte>>) {
    |params| < CMD_PARAMS && forall i :: 0 <= i < |params| ==> |params[i]| < CMD_PARAM_LEN
  }

  class Tokenizer {
    const buf: array<Byte>
    var nextParam: nat

    constructor (buf: array<Byte>)
      ensures this.buf == buf
    {
      this.buf := buf;
      nextParam := 0;
    }

    /** The loops over blanks. */
    method Skip(start: nat, ghost end: nat) returns (p: nat)
      requires Line(buf[..], start, end)
      ensures start <= p <= end && Line(buf[..], p, end)
      ensures buf[p..end] == SkipBlanks(buf[start..end])
    {
      p := start;
      while Blank(buf[p])
        invariant start <= p <= end && SkipBlanks(buf[start..end]) == SkipBlanks(buf[p..end])
        decreases end - p
      {
        assert buf[p..end][1..] == buf[p + 1..end];
        p := p + 1;
      }
    }

    /** The loop that unescapes a parameter over its own raw text. */
    method Shuffle(p: nat, isstring: bool, ghost end: nat) returns (shuffle: nat)
      requires Line(buf[..], p, end)
      modifies this, buf
      ensures Shuffled(buf[..], old(buf[..]), p, end, isstring, nextParam, shuffle)
      ensures Scan(old(buf[p..end]), isstring) == Scanned(buf[p..shuffle], nextParam - p, nextParam < end)
    {
      hide Shuffled, Scan, Unescape, Line;
      nextParam := p;
      shuffle := p;
      ghost var was := buf[..];
      ShuffledStart(was, p, end, isstring);
      while buf[nextParam] != Delimiter(isstring) && buf[nextParam] != NUL
        invariant p <= shuffle <= nextParam <= end < buf.Length
        invariant Shuffled(buf[..], was, p, end, isstring, nextParam, shuffle)
        decreases end - nextParam
      {
        ghost var now := buf[..];
        if buf[nextParam] == BACKSLASH {
          ShuffledEscape(now, was, p, end, isstring, nextParam, shuffle);
          nextParam := nextParam + 1;
          if buf[nextParam] == NUL {
            nextParam := nextParam - 1;
          } else {
            buf[shuffle] := Unescape(buf[nextParam]);
            assert buf[..] == now[shuffle := Unescape(now[nextParam])];
            shuffle := shuffle + 1;
          }
        } else {
          ShuffledRaw(now, was, p, end, isstring, nextParam, shuffle);
          buf[shuffle] := buf[nextParam];
          assert buf[..] == now[shuffle := now[nextParam]];
          shuffle := shuffle + 1;
        }
        nextParam := nextParam + 1;
      }
      ShuffledEnd(buf[..], was, p, end, isstring, nextParam, shuffle);
    }

    /** The start of a parameter, and whether it is quoted. */
    method Start(start: nat, ghost end: nat) returns (p: nat, isstring: bool)
      requires Line(buf[..], start, end)
      ensures Begins(buf[..], start, end, p) && Line(buf[..], p, end) && isstring == Quoted(buf[..][start..end])
    {
      p := Skip(start, end);
      isstring := buf[p] == QUOTE;
      if isstring {
        assert buf[p..end][1..] == buf[p + 1..end];
        p := p + 1;
      }
    }

    /** The delimiter is overwritten, and the parameter ends where it has shrunk to. */
    method Terminate(shuffle: nat)
      requires shuffle <= nextParam < buf.Length
      modifies this, buf
      ensures nextParam == old(nextParam) + 1 && Terminated(buf[..], old(buf[..]), old(nextParam), shuffle)
    {
      buf[nextParam] := NUL;
      nextParam := nextParam + 1;
      buf[shuffle] := NUL;
    }

    /** `getParameter`: the C string at `p` is the parameter, the field `nextParam` is where the next call starts. */
    method GetParameter(start: nat, ghost end: nat) returns (p: nat)
      requires Line(buf[..], start, end)
      modifies this, buf
      ensures Taken(buf[..], old(buf[..]), start, end, p, nextParam)
    {
      hide Shuffled, Taken, Scan, Body, Quoted, Begins, Terminated, SkipBlanks;
      ghost var was := buf[..];
      var isstring;
      p, isstring := Start(start, end);
      var shuffle := Shuffle(p, isstring, end);
      ghost var now := buf[..];
      ShuffledBounds(now, was, p, end, isstring, nextParam, shuffle);
      ReadsOriginal(now, was, p, end, isstring, nextParam, shuffle);
      if buf[nextParam] != NUL {
        ghost var next := nextParam;
        Terminate(shuffle);
        ghost var line := buf[..];
        TerminatedKeeps(line, now, was, p, end, isstring, next, shuffle);
        nextParam := Skip(nextParam, end);
        ClosesParameter(line, now, was, start, p, end, next, shuffle, nextParam);
      } else {
        KeepsTail(now, was, start, p, end, shuffle);
      }
    }

    /** The next parameter of the line is copied into a row. */
    method CopyParameter(rows: array<seq<Byte>>, paramNo: nat, start: nat, ghost end: nat)
      requires Line(buf[..], start, end) && paramNo < rows.Length
      modifies this, buf, rows
      ensures Line(buf[..], nextParam, end) && start <= nextParam <= end <= buf.Length
      ensures var line := old(buf[..])[start..end];
              && rows[..] == old(rows[..])[paramNo := Returned(line)]
              && buf[nextParam..end] == Remaining(line)
    {
      hide Returned, Remaining, CString;
      ghost var was := buf[..];
      var p := GetParameter(start, end);
      ghost var now := buf[..];
      assert Taken(now, was, start, end, p, nextParam);
      rows[paramNo] := CString(buf[p..]);
      assert buf[..] == now && buf[nextParam..end] == now[nextParam..end] && buf[p..] == now[p..];
    }

    /** The loop over a line of a script file, which fills the parameter rows: the first empty row ends it. */
    method ReadParameters(rows: array<seq<Byte>>, ghost end: nat) returns (paramNo: nat)
      requires Line(buf[..], 0, end) && rows.Length == CMD_PARAMS && RowsHold(Parameters(buf[..end]))
      modifies this, buf, rows
      ensures var params := Parameters(old(buf[..end]));
              && paramNo == |params| < CMD_PARAMS && rows[..paramNo] == params
              && forall i :: paramNo <= i < CMD_PARAMS ==> rows[i] == []
    {
      hide Returned, Remaining, Parameters, Progress;
      ghost var line, was, params: seq<seq<Byte>> := buf[..end], buf[..], [];
      hide Line;
      forall i | 0 <= i < rows.Length {
        rows[i] := [];
      }
      assert buf[..] == was && was[0..end] == line;
      paramNo := 0;
      CopyParameter(rows, paramNo, 0, end);
      ProgressStart(line);
      while rows[paramNo] != []
        invariant Line(buf[..], nextParam, end) && nextParam <= end <= buf.Length
        invariant paramNo == |params| < CMD_PARAMS && rows[..paramNo] == params
        invariant Progress(line, params, rows[paramNo], buf[nextParam..end])
        invariant forall i :: paramNo < i < CMD_PARAMS ==> rows[i] == []
        decreases end - nextParam, |rows[paramNo]|
      {
        ghost var rest := buf[nextParam..end];
        assert buf[..][nextParam..end] == rest;
        ProgressStep(line, params, rows[paramNo], rest);
        params := params + [rows[paramNo]];
        paramNo := paramNo + 1;
        CopyParameter(rows, paramNo, nextParam, end);
        ProgressEnds(rest);
      }
      ProgressDone(line, params, buf[nextParam..end]);
    }
  }

  /** The parameters of the line are those read so far, `param`, and those of the rest, unless `param` is empty. */
  ghost predicate Progress(line: seq<Byte>, params: seq<seq<Byte>>, param: seq<Byte>, rest: seq<Byte>) {
    Parameters(line) == params + if param == [] then [] else [param] + Parameters(rest)
  }

  lemma {:induction false} ProgressStart(line: seq<Byte>)
    ensures Progress(line, [], Returned(line), Remaining(line))
  {
  }

  lemma {:induction false} ProgressStep(line: seq<Byte>, params: seq<seq<Byte>>, param: seq<Byte>, rest: seq<Byte>)
    requires Progress(line, params, param, rest) && param != []
    ensures Progress(line, params + [param], Returned(rest), Remaining(rest)) && |params| < |Parameters(line)|
  {
    hide Returned, Remaining;
    var more := if Returned(rest) == [] then [] else [Returned(rest)] + Parameters(Remaining(rest));
    assert params + ([param] + more) == params + [param] + more;
  }

  lemma {:induction false} ProgressDone(line: seq<Byte>, params: seq<seq<Byte>>, rest: seq<Byte>)
    requires Progress(line, params, [], rest)
    ensures Parameters(line) == params
  {
  }

  lemma {:induction false} ProgressEnds(rest: seq<Byte>)
    ensures |Remaining(rest)| < |rest| || (rest == [] && Returned(rest) == [])
  {
  }

  // ---------------------------------------------------------------- what the tokenizer undoes

  /** How a parameter stands on a line: as it is, with escapes, or with escapes between quotes. */
  datatype Form = Plain | Escapes | Quotes

  /** A parameter with the blanks in front of it. */
  datatype Word = Word(before: seq<Byte>, text: seq<Byte>, form: Form)

  /** A character as it can stand between quotes, or without them, where a space is escaped too. */
  function Escape(c: Byte, quoted: bool): (e: seq<Byte>) {
    if c == 0x5C || c == 0x22 || (c == 0x20 && !quoted) then [0x5C, c]
    else if c == 0x0D then [0x5C, 0x72]
    else if c == 0x0A then [0x5C, 0x6E]
    else if c == 0x09 then [0x5C, 0x74]
    else [c]
  }

  function Escaped(text: seq<Byte>, quoted: bool): seq<Byte> {
    if text == [] then [] else Escape(text[0], quoted) + Escaped(text[1..], quoted)
  }

  function Spelled(w: Word): seq<Byte> {
    match w.form
    case Plain => w.text
    case Escapes => Escaped(w.text, false)
    case Quotes => [0x22] + Escaped(w.text, true) + [0x22]
  }

  /** The words, one behind the other, and what stands behind them. */
  function LineOf(words: seq<Word>, behind: seq<Byte>): seq<Byte> {
    if words == [] then behind else words[0].before + Spelled(words[0]) + LineOf(words[1..], behind)
  }

  predicate Blanks(s: seq<Byte>) {
    forall i :: 0 <= i < |s| ==> s[i] == 0x20 || s[i] == 0x09
  }

  /** Blanks, and behind them nothing or an empty parameter, which hides what follows it. */
  predicate Nothing(s: seq<Byte>) {
    s == [] || s[..Min(2, |s|)] == [0x22, 0x22] || ((s[0] == 0x20 || s[0] == 0x09) && Nothing(s[1..]))
  }

  /** A text that needs no escape outside of quotes: no space, no backslash, and no tab or quote in front. */
  predicate PlainText(text: seq<Byte>) {
    text != [] && text[0] != 0x22 && text[0] != 0x09 && 0x20 !in text && 0x5C !in text
  }

  /** A word without quotes needs a space behind it, unless it ends the line and has no escapes. */
  predicate Separates(w: Word, next: seq<Byte>, last: bool) {
    match w.form
    case Quotes => true
    case Escapes => next != [] && next[0] == 0x20
    case Plain => (last && next == []) || (next != [] && next[0] == 0x20)
  }

  /** The words can stand on one line in this way. */
  predicate Writable(words: seq<Word>, behind: seq<Byte>) {
    && Nothing(behind)
    && (words != [] ==>
          && Blanks(words[0].before) && words[0].text != [] && (words[0].form.Plain? ==> PlainText(words[0].text))
          && Separates(words[0], if |words| == 1 then behind else words[1].before, |words| == 1)
          && Writable(words[1..], behind))
  }

  function TextsOf(words: seq<Word>): (t: seq<seq<Byte>>)
    ensures |t| == |words| && forall i :: 0 <= i < |t| ==> t[i] == words[i].text
  {
    seq(|words|, i requires 0 <= i < |words| => words[i].text)
  }

  lemma {:induction false} ScanEscape(c: Byte, quoted: bool, tail: seq<Byte>)
    ensures var e, r := Escape(c, quoted), Scan(tail, quoted);
            Scan(e + tail, quoted) == Scanned([c] + r.token, |e| + r.used, r.closed)
  {
    var e := Escape(c, quoted);
    if |e| == 1 {
      assert (e + tail)[1..] == tail;
    } else {
      assert (e + tail)[2..] == tail;
    }
  }

  lemma {:induction false} EscapedStep(text: seq<Byte>, quoted: bool, rest: seq<Byte>)
    requires text != []
    ensures Escaped(text, quoted) + rest == Escape(text[0], quoted) + (Escaped(text[1..], quoted) + rest)
    ensures |Escaped(text, quoted)| == |Escape(text[0], quoted)| + |Escaped(text[1..], quoted)|
  {
    hide Escape;
  }

  /** Escapes are undone up to the delimiter: a quote behind quotes, a space behind a bare word. */
  lemma {:induction false} ScanEscaped(text: seq<Byte>, quoted: bool, rest: seq<Byte>)
    requires rest != [] && rest[0] == if quoted then 0x22 else 0x20
    ensures var e := Escaped(text, quoted); Scan(e + rest, quoted) == Scanned(text, |e|, true)
  {
    if text == [] {
      assert Escaped(text, quoted) + rest == rest;
    } else {
      hide Scan, Escape, Escaped;
      ScanEscaped(text[1..], quoted, rest);
      ScanEscape(text[0], quoted, Escaped(text[1..], quoted) + rest);
      EscapedStep(text, quoted, rest);
      assert text == [text[0]] + text[1..];
    }
  }

  /** A plain word is taken as it is, up to the space behind it or to the end of the line. */
  lemma {:induction false} ScanPlain(text: seq<Byte>, rest: seq<Byte>)
    requires 0x20 !in text && 0x5C !in text && (rest != [] ==> rest[0] == 0x20)
    ensures Scan(text + rest, false) == Scanned(text, |text|, rest != [])
  {
    if text == [] {
      assert text + rest == rest;
    } else {
      ScanPlain(text[1..], rest);
      assert (text + rest)[1..] == text[1..] + rest;
      assert text == [text[0]] + text[1..];
    }
  }

  lemma {:induction false} SkipsBlanks(blanks: seq<Byte>, rest: seq<Byte>)
    requires Blanks(blanks) && (rest != [] ==> rest[0] != 0x20 && rest[0] != 0x09)
    ensures SkipBlanks(blanks + rest) == rest
  {
    if blanks == [] {
      assert blanks + rest == rest;
    } else {
      assert (blanks + rest)[1..] == blanks[1..] + rest;
      SkipsBlanks(blanks[1..], rest);
    }
  }

  lemma {:induction false} SkipsOnce(s: seq<Byte>)
    ensures SkipBlanks(SkipBlanks(s)) == SkipBlanks(s)
  {
    if s != [] && Blank(s[0]) {
      SkipsOnce(s[1..]);
    }
  }

  /** Blanks in front of a line do not matter. */
  lemma {:induction false} ParametersSkip(s: seq<Byte>)
    ensures Parameters(SkipBlanks(s)) == Parameters(s)
  {
    hide Returned, Remaining, SkipBlanks;
    SameWord(s);
  }

  lemma {:induction false} SameWord(s: seq<Byte>)
    ensures Returned(SkipBlanks(s)) == Returned(s) && Remaining(SkipBlanks(s)) == Remaining(s)
  {
    hide Scan, SkipBlanks;
    SkipsOnce(s);
  }

  lemma {:induction false} EscapedFront(text: seq<Byte>)
    requires text != []
    ensures var e := Escaped(text, false); e != [] && e[0] != 0x20 && e[0] != 0x09 && e[0] != 0x22
  {
  }

  /** What the first word of a line gives and leaves. */
  lemma {:induction false} FirstWord(w: Word, rest: seq<Byte>)
    requires Blanks(w.before) && w.text != [] && (w.form.Plain? ==> PlainText(w.text)) && Separates(w, rest, rest == [])
    ensures var line := w.before + Spelled(w) + rest;
            Returned(line) == w.text && Remaining(line) == SkipBlanks(rest)
  {
    hide Scan, Escaped, SkipBlanks;
    var line, body := w.before + Spelled(w) + rest, Spelled(w) + rest;
    assert line == w.before + body;
    match w.form {
      case Plain =>
        SkipsBlanks(w.before, body);
        ScanPlain(w.text, rest);
        BehindDelimiter(w.text, rest);
        assert rest == [] ==> body[|w.text|..] == [] && w.text + [] == w.text;
      case Escapes =>
        var e := Escaped(w.text, false);
        EscapedFront(w.text);
        SkipsBlanks(w.before, body);
        ScanEscaped(w.text, false, rest);
        BehindDelimiter(e, rest);
      case Quotes =>
        var e := Escaped(w.text, true);
        SkipsBlanks(w.before, body);
        assert body[1..] == e + ([0x22] + rest);
        ScanEscaped(w.text, true, [0x22] + rest);
        assert (e + ([0x22] + rest))[|e| + 1..] == rest;
    }
  }

  lemma {:induction false} BehindDelimiter(e: seq<Byte>, rest: seq<Byte>)
    ensures rest != [] ==> (e + rest)[|e| + 1..] == rest[1..]
    ensures rest != [] && rest[0] == 0x20 ==> SkipBlanks(rest) == SkipBlanks(rest[1..])
    ensures SkipBlanks([]) == []
  {
  }

  lemma {:induction false} LineStarts(words: seq<Word>, behind: seq<Byte>)
    requires words != [] && Writable(words, behind)
    ensures var next, rest := if |words| == 1 then behind else words[1].before, LineOf(words[1..], behind);
            (next != [] ==> rest != [] && rest[0] == next[0]) && (|words| == 1 ==> rest == behind)
  {
    if |words| > 1 {
      var w, more := words[1], LineOf(words[1..][1..], behind);
      assert LineOf(words[1..], behind) == w.before + Spelled(w) + more;
    }
  }

  /**
   Every list of non-empty parameters comes back from the tokenizer, each of them written as it is, escaped, or escaped
   between quotes, with any blanks around them as long as a space follows a word without quotes. An empty parameter ends
   the list, whatever follows it.
   */
  lemma {:induction false} LineRoundTrip(words: seq<Word>, behind: seq<Byte>)
    requires Writable(words, behind)
    ensures Parameters(LineOf(words, behind)) == TextsOf(words)
  {
    hide Returned, Remaining, Escaped;
    if words != [] {
      var w, rest := words[0], LineOf(words[1..], behind);
      LineRoundTrip(words[1..], behind);
      LineStarts(words, behind);
      FirstWord(w, rest);
      ParametersSkip(rest);
      assert TextsOf(words) == [w.text] + TextsOf(words[1..]);
    } else {
      NothingOnLine(behind);
    }
  }

  lemma {:induction false} NothingOnLine(behind: seq<Byte>)
    requires Nothing(behind)
    ensures Returned(behind) == []
  {
    if behind != [] && behind[..Min(2, |behind|)] == [0x22, 0x22] {
      assert behind[0] == behind[..2][0] && behind[1] == behind[..2][1];
    } else if behind != [] {
      NothingOnLine(behind[1..]);
    }
  }

  /** Parameters as they are, a space between two. */
  function Spaced(params: seq<seq<Byte>>): seq<Byte> {
    if params == [] then [] else if |params| == 1 then params[0] else params[0] + [0x20] + Spaced(params[1..])
  }

  /** A line of plain parameters comes back. */
  lemma {:induction false} PlainRoundTrip(params: seq<seq<Byte>>)
    requires forall i :: 0 <= i < |params| ==> PlainText(params[i])
    ensures Parameters(Spaced(params)) == params
  {
    hide Returned, Remaining;
    if params == [] {
      NothingOnLine([]);
    } else {
      var rest := if |params| == 1 then [] else [0x20] + Spaced(params[1..]);
      PlainRoundTrip(params[1..]);
      assert Spaced(params) == [] + Spelled(Word([], params[0], Plain)) + rest;
      FirstWord(Word([], params[0], Plain), rest);
      ParametersSkip(rest);
      OneSpace(params[1..]);
      ParametersSkip(Spaced(params[1..]));
    }
  }

  lemma {:induction false} OneSpace(params: seq<seq<Byte>>)
    ensures SkipBlanks([0x20] + Spaced(params)) == SkipBlanks(Spaced(params)) && SkipBlanks([]) == []
  {
    assert ([0x20] + Spaced(params))[1..] == Spaced(params);
  }

  /** The line is a C string when the parameters are. */
  lemma {:induction false} LineIsText(words: seq<Word>, behind: seq<Byte>)
    requires Writable(words, behind) && NUL !in behind && forall i :: 0 <= i < |words| ==> NUL !in words[i].text
    ensures NUL !in LineOf(words, behind)
  {
    if words != [] {
      EscapedIsText(words[0].text, words[0].form.Quotes?);
      LineIsText(words[1..], behind);
      assert NUL !in Spelled(words[0]) && NUL !in words[0].before;
    }
  }

  lemma {:induction false} EscapedIsText(text: seq<Byte>, quoted: bool)
    requires NUL !in text
    ensures NUL !in Escaped(text, quoted)
  {
    if text != [] {
      EscapedIsText(text[1..], quoted);
    }
  }

  lemma {:induction false} ScanKeepsLength(s: seq<Byte>, quoted: bool)
    requires !Scan(s, quoted).closed
    ensures |Scan(s, quoted).token| == |s| <==> BACKSLASH !in s
  {
    if s != [] && s[0] != BACKSLASH {
      ScanKeepsLength(s[1..], quoted);
      assert s == [s[0]] + s[1..];
    }
  }

  /**
   A parameter is returned as its unescaped text exactly when its delimiter follows or nothing in it was escaped:
   at the end of a line the characters that the unescaping gained are left standing behind it.
   */
  lemma {:induction false} ReturnedIsUnescapedIff(line: seq<Byte>)
    ensures var r := Scan(Body(line), Quoted(line));
            Returned(line) == r.token <==> r.closed || BACKSLASH !in Body(line)
  {
    var r := Scan(Body(line), Quoted(line));
    if !r.closed {
      ScanKeepsLength(Body(line), Quoted(line));
      assert |Returned(line)| == |Body(line)|;
      if |r.token| == |Body(line)| {
        assert Returned(line) == r.token;
      }
    }
  }

  /** An input that fails: the unquoted line `\n` is a line feed, and is returned with its letter behind it. */
  lemma {:induction false} StaleTail()
    ensures var line: seq<Byte> := [BACKSLASH, 0x6E];
            Scan(Body(line), Quoted(line)).token == [LF] && Returned(line) == [LF, 0x6E]
  {
    var line: seq<Byte> := [BACKSLASH, 0x6E];
    assert Body(line) == line && line[2..] == [];
    assert Scan(line, false) == Scanned([LF], 2, false);
    assert line[1..] == [0x6E];
  }
}
