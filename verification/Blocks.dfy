/** The reading loop of `stats`: bytes into lines, lines into samples, samples into the blocks that `calc` gets. */
module Blocks {
  import opened Basics
  import Regression

  const LINE_SIZE: nat := 2048

  // ---------------------------------------------------------------- what an input means

  /** The text behind the last newline of the input. */
  function Tail(input: seq<Byte>): (t: seq<Byte>)
    ensures |t| <= |input|
  {
    if input == [] || input[|input| - 1] == LF then []
    else Tail(input[..|input| - 1]) + [input[|input| - 1]]
  }

  /** The complete lines of the input. */
  function Lines(input: seq<Byte>): seq<seq<Byte>> {
    if input == [] then []
    else if input[|input| - 1] == LF then Lines(input[..|input| - 1]) + [Tail(input[..|input| - 1])]
    else Lines(input[..|input| - 1])
  }

  /** What the C library finds in a line: whether it has the key, its time, and the value of the column. */
  datatype Reader = Reader(hasKey: seq<Byte> -> bool, time: seq<Byte> -> Option<real>,
                           column: seq<Byte> -> Option<real>)

  /** A value with the time of its own line. */
  datatype Sample = Sample(time: Option<real>, value: real)

  function Samples(reader: Reader, lines: seq<seq<Byte>>): seq<Sample> {
    if lines == [] then []
    else
      var before, line := Samples(reader, lines[..|lines| - 1]), lines[|lines| - 1];
      if reader.hasKey(line) && reader.column(line).Some?
      then before + [Sample(reader.time(line), reader.column(line).value)]
      else before
  }

  /** The arguments of one call of `calc`. */
  datatype Block = Block(times: seq<real>, values: seq<real>)

  /** A line without a time stands for its place in the block. */
  function TimeAt(s: Sample, place: nat): real {
    match s.time
    case Some(t) => t
    case None => place as real
  }

  function BlockOf(samples: seq<Sample>): (b: Block)
    ensures |b.times| == |b.values| == |samples|
  {
    Block(seq(|samples|, i requires 0 <= i < |samples| => TimeAt(samples[i], i)),
          seq(|samples|, i requires 0 <= i < |samples| => samples[i].value))
  }

  /** The consecutive disjoint groups of `number` samples. */
  function Groups(samples: seq<Sample>, number: nat): seq<seq<Sample>>
    requires number > 0
  {
    if |samples| < number then [] else [samples[..number]] + Groups(samples[number..], number)
  }

  function BlocksOf(groups: seq<seq<Sample>>): seq<Block> {
    if groups == [] then [] else BlocksOf(groups[..|groups| - 1]) + [BlockOf(groups[|groups| - 1])]
  }

  /** All that `stats` computes from an input: the blocks for which it calls `calc`. */
  function Calls(reader: Reader, number: nat, input: seq<Byte>): seq<Block>
    requires number > 0
  {
    BlocksOf(Groups(Samples(reader, Lines(input)), number))
  }

  /** The samples of an incomplete block. */
  function Pending(samples: seq<Sample>, number: nat): (p: seq<Sample>)
    requires number > 0
    ensures |p| < number
  {
    if |samples| < number then samples else Pending(samples[number..], number)
  }

  lemma {:induction false} GroupsPush(samples: seq<Sample>, s: Sample, number: nat)
    requires number > 0
    ensures var p := Pending(samples, number) + [s];
            && Groups(samples + [s], number) == Groups(samples, number) + (if |p| == number then [p] else [])
            && Pending(samples + [s], number) == if |p| == number then [] else p
    decreases |samples|
  {
    var more := samples + [s];
    if |samples| < number {
      if |more| == number {
        assert more[..number] == more && more[number..] == [];
        assert Groups([], number) == [] && Pending([], number) == [];
      }
    } else {
      GroupsPush(samples[number..], s, number);
      assert more[number..] == samples[number..] + [s] && more[..number] == samples[..number];
      assert [samples[..number]] + (Groups(samples[number..], number) + [Pending(samples, number) + [s]])
          == [samples[..number]] + Groups(samples[number..], number) + [Pending(samples, number) + [s]];
    }
  }

  lemma {:induction false} BlocksPush(groups: seq<seq<Sample>>, g: seq<Sample>)
    ensures BlocksOf(groups + [g]) == BlocksOf(groups) + [BlockOf(g)]
  {
    assert (groups + [g])[..|groups|] == groups;
  }

  /** The incomplete block and the calls made so far, after these samples. */
  ghost predicate Held(samples: seq<Sample>, number: nat, block: Block, calls: seq<Block>)
    requires number > 0
  {
    block == BlockOf(Pending(samples, number)) && calls == BlocksOf(Groups(samples, number))
  }

  function Push(block: Block, s: Sample): Block {
    Block(block.times + [TimeAt(s, |block.times|)], block.values + [s.value])
  }

  lemma {:induction false} HeldPush(samples: seq<Sample>, s: Sample, number: nat, block: Block, calls: seq<Block>)
    requires number > 0 && Held(samples, number, block, calls)
    ensures var b := Push(block, s);
            |block.times| == |block.values| < number &&
            if |b.times| == number then Held(samples + [s], number, Block([], []), calls + [b])
            else Held(samples + [s], number, b, calls)
  {
    hide Groups, Pending;
    var p := Pending(samples, number) + [s];
    GroupsPush(samples, s, number);
    BlocksPush(Groups(samples, number), p);
    assert Groups(samples, number) + [] == Groups(samples, number);
    assert Push(block, s) == BlockOf(p);
    assert BlockOf([]) == Block([], []);
  }

  lemma {:induction false} OneByte(input: seq<Byte>, c: Byte)
    ensures Tail(input + [c]) == if c == LF then [] else Tail(input) + [c]
    ensures Lines(input + [c]) == if c == LF then Lines(input) + [Tail(input)] else Lines(input)
  {
    assert (input + [c])[..|input|] == input;
  }

  lemma {:induction false} OneLine(reader: Reader, lines: seq<seq<Byte>>, text: seq<Byte>)
    ensures Samples(reader, lines + [text]) ==
            if reader.hasKey(text) && reader.column(text).Some?
            then Samples(reader, lines) + [Sample(reader.time(text), reader.column(text).value)]
            else Samples(reader, lines)
  {
    assert (lines + [text])[..|lines|] == lines;
  }

  // ---------------------------------------------------------------- the program

  /** Each call of `calc` gives the summary of its block. */
  ghost predicate Joined(calls: seq<Block>, summaries: seq<Regression.Summary>) {
    && |calls| == |summaries|
    && forall i :: 0 <= i < |calls| ==>
         && |calls[i].times| == |calls[i].values| > 0
         && Regression.Summarizes(summaries[i], calls[i].times, calls[i].values)
  }

  class Stats {
    const reader: Reader
    const sqrt: real -> real
    const number: nat
    const line: array<Byte>
    const times: array<real>
    const values: array<real>
    const b: array<real>
    const x: array<real>
    var lineI: nat
    var valueI: nat
    var calls: seq<Block> // the arguments of the calls of `calc` so far
    var summaries: seq<Regression.Summary> // what these calls print

    ghost predicate Valid()
      reads this
    {
      && number > 0 && line.Length == LINE_SIZE && times.Length == values.Length == b.Length == x.Length == number
      && times != values && times != b && times != x && values != b && values != x && b != x
      && lineI < LINE_SIZE && valueI < number
      && Regression.IsRoot(sqrt) && Joined(calls, summaries)
    }

    /** The samples of the incomplete block. */
    function Current(): Block
      requires Valid()
      reads this, times, values
    {
      Block(times[..valueI], values[..valueI])
    }

    /** The state after the input: its tail in `line`, its pending samples, its blocks handed over. */
    ghost predicate After(input: seq<Byte>)
      reads this, line, times, values
    {
      && Valid() && line[..lineI] == Tail(input)
      && Held(Samples(reader, Lines(input)), number, Current(), calls)
    }

    constructor (reader: Reader, number: nat, sqrt: real -> real)
      requires number > 0 && Regression.IsRoot(sqrt)
      ensures After([]) && fresh(line) && fresh(times) && fresh(values) && fresh(b) && fresh(x)
      ensures this.reader == reader && this.number == number
    {
      this.reader := reader;
      this.sqrt := sqrt;
      this.number := number;
      b := new real[number];
      x := new real[number];
      summaries := [];
      line := new Byte[LINE_SIZE];
      times := new real[number];
      values := new real[number];
      lineI := 0;
      valueI := 0;
      calls := [];
      new;
      assert Current() == Block([], []) == BlockOf([]);
    }

    /** A full block goes to `calc`. */
    method Summarize()
      requires number > 0 && times.Length == values.Length == b.Length == x.Length == number
      requires times != values && times != b && times != x && values != b && values != x && b != x
      requires valueI == number && Regression.IsRoot(sqrt) && Joined(calls, summaries)
      modifies this`valueI, this`calls, this`summaries, b, x
      ensures valueI == 0 && calls == old(calls) + [Block(times[..number], values[..number])]
      ensures Joined(calls, summaries)
    {
      hide Regression.Summarizes, Regression.IsRoot;
      valueI := 0;
      var r := Regression.Calc(times, values, b, x, number, sqrt);
      calls := calls + [Block(times[..number], values[..number])];
      summaries := summaries + [r];
    }

    /** A complete line, as the branch of the newline treats it. */
    method EndOfLine(ghost lines: seq<seq<Byte>>)
      requires Valid() && Held(Samples(reader, lines), number, Current(), calls)
      modifies this, line, times, values, b, x
      ensures Valid() && lineI == 0
      ensures Held(Samples(reader, lines + [old(line[..lineI])]), number, Current(), calls)
    {
      hide Held, Samples, Joined, Regression.IsRoot;
      line[lineI] := NUL;
      var text := line[..lineI];
      assert text == old(line[..lineI]);
      OneLine(reader, lines, text);
      ghost var samples, block := Samples(reader, lines), Current();
      if reader.hasKey(text) {
        var time := reader.time(text);
        times[valueI] := if time.Some? then time.value else valueI as real;
        var column := reader.column(text);
        if column.Some? {
          HeldPush(samples, Sample(time, column.value), number, block, calls);
          values[valueI] := column.value;
          valueI := valueI + 1;
          assert Block(times[..valueI], values[..valueI]) == Push(block, Sample(time, column.value));
        } else {
          assert Current() == block;
        }
        if valueI >= number {
          Summarize();
        }
      }
      lineI := 0;
    }

    /** One `read` of the input. No line of it may reach the size of the line buffer. */
    method Feed(buffer: seq<Byte>, ghost input: seq<Byte>)
      requires After(input)
      requires forall k :: 0 <= k <= |buffer| ==> |Tail(input + buffer[..k])| < LINE_SIZE
      modifies this, line, times, values, b, x
      ensures After(input + buffer)
    {
      hide Tail, Lines, Samples, Held, Joined, Regression.IsRoot;
      var i := 0;
      assert input + buffer[..0] == input;
      while i < |buffer|
        invariant 0 <= i <= |buffer| && After(input + buffer[..i])
      {
        ghost var before := input + buffer[..i];
        assert input + buffer[..i + 1] == before + [buffer[i]];
        OneByte(before, buffer[i]);
        if buffer[i] == LF {
          EndOfLine(Lines(before));
        } else if lineI < LINE_SIZE {
          line[lineI] := buffer[i];
          lineI := lineI + 1;
        }
        i := i + 1;
      }
      assert buffer[..|buffer|] == buffer;
    }
  }

  /** What `read` delivers until it first delivers nothing. */
  function UntilEnd(chunks: seq<seq<Byte>>): seq<seq<Byte>> {
    if chunks == [] || chunks[0] == [] then [] else [chunks[0]] + UntilEnd(chunks[1..])
  }

  function Concat(chunks: seq<seq<Byte>>): seq<Byte> {
    if chunks == [] then [] else chunks[0] + Concat(chunks[1..])
  }

  /** No line of the input, not even an incomplete one, fills the line buffer. */
  ghost predicate ShortLines(input: seq<Byte>) {
    forall k :: 0 <= k <= |input| ==> |Tail(input[..k])| < LINE_SIZE
  }

  /** The reading loop of `main`, which ends when `read` delivers nothing. */
  method ReadAll(chunks: seq<seq<Byte>>, reader: Reader, number: nat, sqrt: real -> real) returns (stats: Stats)
    requires number > 0 && ShortLines(Concat(UntilEnd(chunks))) && Regression.IsRoot(sqrt)
    ensures fresh(stats) && fresh(stats.line) && fresh(stats.times) && fresh(stats.values)
    ensures fresh(stats.b) && fresh(stats.x)
    ensures stats.reader == reader && stats.number == number && stats.After(Concat(UntilEnd(chunks)))
  {
    hide Tail, Lines, Samples, Held, Concat, ShortLines, Joined, Regression.IsRoot;
    stats := new Stats(reader, number, sqrt);
    ghost var all, input: seq<Byte> := Concat(UntilEnd(chunks)), [];
    var r := 0;
    assert chunks[0..] == chunks && [] + all == all;
    while r < |chunks| && chunks[r] != []
      invariant 0 <= r <= |chunks| && input + Concat(UntilEnd(chunks[r..])) == all
      invariant fresh(stats) && fresh(stats.line) && fresh(stats.times) && fresh(stats.values)
      invariant fresh(stats.b) && fresh(stats.x)
      invariant stats.reader == reader && stats.number == number && stats.After(input)
    {
      NextChunk(chunks, r, input, all);
      stats.Feed(chunks[r], input);
      input := input + chunks[r];
      r := r + 1;
    }
    assert UntilEnd(chunks[r..]) == [] && Concat([]) == [] && input + [] == input by { NothingToConcat(); }
  }

  /**
   `main` of `stats`: `calc` is called for the blocks of the input, however `read` cuts the input into pieces, and the
   i-th summary is that of the i-th block.
   */
  method ReadAndSummarize(chunks: seq<seq<Byte>>, reader: Reader, number: nat, sqrt: real -> real)
      returns (calls: seq<Block>, summaries: seq<Regression.Summary>)
    requires number > 0 && ShortLines(Concat(UntilEnd(chunks))) && Regression.IsRoot(sqrt)
    ensures calls == Calls(reader, number, Concat(UntilEnd(chunks))) && Joined(calls, summaries)
    ensures var lines := Lines(Concat(UntilEnd(chunks)));
            exists list :: Chosen(list, reader, lines) && Blocked(calls, list, reader, number, lines)
  {
    hide Regression.IsRoot, Joined, Tail, Lines, Samples, Held;
    var stats := ReadAll(chunks, reader, number, sqrt);
    HeldCalls(reader, number, Concat(UntilEnd(chunks)), stats.Current(), stats.calls);
    calls, summaries := stats.calls, stats.summaries;
    CallsAreLines(reader, number, Concat(UntilEnd(chunks)));
  }

  /** Two runs of the program on one input in different pieces: they end with the same state and the same calls. */
  method ReadTwice(a: seq<seq<Byte>>, b: seq<seq<Byte>>, reader: Reader, number: nat, sqrt: real -> real)
      returns (s1: Stats, s2: Stats)
    requires number > 0 && Regression.IsRoot(sqrt) && [] !in a && [] !in b && Concat(a) == Concat(b) && ShortLines(Concat(a))
    ensures s1 != s2 && s1.calls == s2.calls && s1.valueI == s2.valueI <= s1.times.Length && s1.lineI == s2.lineI
    ensures s1.lineI <= s1.line.Length && s2.lineI <= s2.line.Length && s1.line[..s1.lineI] == s2.line[..s2.lineI]
    ensures s1.valueI <= s2.times.Length && s1.times[..s1.valueI] == s2.times[..s2.valueI]
    ensures s1.valueI <= s1.values.Length && s1.valueI <= s2.values.Length
            && s1.values[..s1.valueI] == s2.values[..s2.valueI]
  {
    EndsAtNothing(a, []);
    EndsAtNothing(b, []);
    s1 := ReadAll(a, reader, number, sqrt);
    s2 := ReadAll(b, reader, number, sqrt);
    SameState(s1, s2, Concat(a));
  }

  /** The input fixes the state, as far as the program looks at it again. */
  lemma {:induction false} SameState(s1: Stats, s2: Stats, input: seq<Byte>)
    requires s1.reader == s2.reader && s1.number == s2.number && s1.After(input) && s2.After(input)
    ensures s1.calls == s2.calls && s1.Current() == s2.Current() && s1.valueI == s2.valueI
    ensures s1.line[..s1.lineI] == s2.line[..s2.lineI] && s1.lineI == s2.lineI
  {
    hide Tail, Lines, Samples, Groups, Pending, BlocksOf, BlockOf, Joined, Regression.IsRoot;
    assert |s1.Current().times| == s1.valueI && |s2.Current().times| == s2.valueI;
    assert |s1.line[..s1.lineI]| == s1.lineI && |s2.line[..s2.lineI]| == s2.lineI;
  }

  lemma {:induction false} NothingToConcat()
    ensures Concat([]) == []
  {
  }

  lemma {:induction false} NextChunk(chunks: seq<seq<Byte>>, r: nat, input: seq<Byte>, all: seq<Byte>)
    requires r < |chunks| && chunks[r] != [] && input + Concat(UntilEnd(chunks[r..])) == all && ShortLines(all)
    ensures input + chunks[r] + Concat(UntilEnd(chunks[r + 1..])) == all
    ensures forall k :: 0 <= k <= |chunks[r]| ==> |Tail(input + chunks[r][..k])| < LINE_SIZE
  {
    hide Tail;
    var rest := chunks[r..];
    assert rest[0] == chunks[r] && rest[1..] == chunks[r + 1..];
    assert UntilEnd(rest)[1..] == UntilEnd(chunks[r + 1..]);
    forall k | 0 <= k <= |chunks[r]| ensures |Tail(input + chunks[r][..k])| < LINE_SIZE {
      assert all[..|input| + k] == input + chunks[r][..k];
    }
  }

  lemma {:induction false} HeldCalls(reader: Reader, number: nat, input: seq<Byte>, block: Block, calls: seq<Block>)
    requires number > 0 && Held(Samples(reader, Lines(input)), number, block, calls)
    ensures calls == Calls(reader, number, input)
  {
  }

  // ---------------------------------------------------------------- the meaning of lines and groups

  /** Lines as they stand in an input. */
  function Unlines(lines: seq<seq<Byte>>): seq<Byte> {
    if lines == [] then [] else Unlines(lines[..|lines| - 1]) + lines[|lines| - 1] + [LF]
  }

  /** The lines and the tail are the input, cut at every newline. */
  lemma {:induction false} LinesAreInput(input: seq<Byte>)
    ensures Unlines(Lines(input)) + Tail(input) == input
    ensures LF !in Tail(input) && forall i :: 0 <= i < |Lines(input)| ==> LF !in Lines(input)[i]
  {
    if input != [] {
      var before, c := input[..|input| - 1], input[|input| - 1];
      LinesAreInput(before);
      assert input == before + [c];
      if c == LF {
        assert Lines(input)[..|Lines(before)|] == Lines(before);
        assert Unlines(Lines(input)) == Unlines(Lines(before)) + Tail(before) + [LF];
      }
    }
  }

  function Flatten(groups: seq<seq<Sample>>): seq<Sample> {
    if groups == [] then [] else groups[0] + Flatten(groups[1..])
  }

  lemma {:induction false} GroupsStep(samples: seq<Sample>, number: nat)
    requires 0 < number <= |samples|
    ensures Groups(samples, number) == [samples[..number]] + Groups(samples[number..], number)
    ensures Flatten(Groups(samples, number)) == samples[..number] + Flatten(Groups(samples[number..], number))
    ensures Pending(samples, number) == Pending(samples[number..], number)
  {
    assert Groups(samples, number)[1..] == Groups(samples[number..], number);
  }

  lemma {:induction false} Regroup(a: seq<Sample>, b: seq<Sample>, c: seq<Sample>)
    ensures a + b + c == a + (b + c)
  {
  }

  /** The groups are consecutive, disjoint and full, and only an incomplete group is left over. */
  lemma {:induction false} GroupsPartition(samples: seq<Sample>, number: nat)
    requires number > 0
    ensures Flatten(Groups(samples, number)) + Pending(samples, number) == samples
    ensures forall i :: 0 <= i < |Groups(samples, number)| ==> |Groups(samples, number)[i]| == number
    decreases |samples|
  {
    if |samples| >= number {
      GroupsStep(samples, number);
      hide Groups, Flatten, Pending;
      var rest := samples[number..];
      GroupsPartition(rest, number);
      assert samples == samples[..number] + rest;
      Regroup(samples[..number], Flatten(Groups(rest, number)), Pending(rest, number));
    }
  }

  /** The lines with the key and the column, in order. */
  ghost predicate Chosen(list: seq<nat>, reader: Reader, lines: seq<seq<Byte>>) {
    && (forall k :: 0 <= k < |list| ==> list[k] < |lines|)
    && (forall k, l :: 0 <= k < l < |list| ==> list[k] < list[l])
    && forall n: nat :: n < |lines| ==> (n in list <==> reader.hasKey(lines[n]) && reader.column(lines[n]).Some?)
  }

  /**
   Entry `i` of block `j` comes from line j * number + i of the list: its value is that of the column, its time that of
   the line or, if the line has none, the place in the block.
   */
  ghost predicate Entry(calls: seq<Block>, list: seq<nat>, reader: Reader, number: nat, lines: seq<seq<Byte>>, j: nat,
                        i: nat)
    requires j < |calls|
  {
    var k, times, values := j * number + i, calls[j].times, calls[j].values;
    && i < |times| == |values| == number && k < |list| && list[k] < |lines|
    && reader.column(lines[list[k]]) == Some(values[i])
    && times[i] == if reader.time(lines[list[k]]).Some? then reader.time(lines[list[k]]).value else i as real
  }

  /** The blocks are full and use up the list but for less than a block. */
  ghost predicate Blocked(calls: seq<Block>, list: seq<nat>, reader: Reader, number: nat, lines: seq<seq<Byte>>) {
    && |calls| * number <= |list| < |calls| * number + number
    && forall j: nat, i: nat :: j < |calls| && i < number ==> Entry(calls, list, reader, number, lines, j, i)
  }

  /** What `stats` hands to `calc`, said on the lines of the input. */
  lemma {:induction false} CallsAreLines(reader: Reader, number: nat, input: seq<Byte>)
    requires number > 0
    ensures exists list :: Chosen(list, reader, Lines(input))
                           && Blocked(Calls(reader, number, input), list, reader, number, Lines(input))
  {
    hide Lines, Groups, Samples, BlocksOf, Entry;
    var lines := Lines(input);
    var samples, list, calls := Samples(reader, lines), Places(reader, lines), Calls(reader, number, input);
    PlacesChosen(reader, lines);
    SampleAt(reader, lines);
    GroupsCover(samples, number);
    BlocksAre(Groups(samples, number));
    forall j: nat, i: nat | j < |calls| && i < number ensures Entry(calls, list, reader, number, lines, j, i) {
      EntryIs(samples, calls, list, reader, number, lines, j, i);
    }
    assert Blocked(calls, list, reader, number, lines);
  }

  lemma {:induction false} EntryIs(samples: seq<Sample>, calls: seq<Block>, list: seq<nat>, reader: Reader, number: nat,
                                   lines: seq<seq<Byte>>, j: nat, i: nat)
    requires number > 0 && j < |calls| == |Groups(samples, number)| && i < number && |samples| == |list|
    requires calls[j] == BlockOf(Groups(samples, number)[j])
    requires forall k :: 0 <= k < |list| ==>
      && list[k] < |lines| && samples[k].time == reader.time(lines[list[k]])
      && reader.column(lines[list[k]]) == Some(samples[k].value)
    ensures Entry(calls, list, reader, number, lines, j, i)
  {
    hide Groups;
    GroupsAt(samples, number, j, i);
    var s := samples[j * number + i];
    assert calls[j].times[i] == TimeAt(s, i) && calls[j].values[i] == s.value;
  }

  /** The places of the lines that give samples. */
  function Places(reader: Reader, lines: seq<seq<Byte>>): (list: seq<nat>)
    ensures forall k :: 0 <= k < |list| ==> list[k] < |lines|
  {
    if lines == [] then []
    else
      var n := |lines| - 1;
      Places(reader, lines[..n]) + if reader.hasKey(lines[n]) && reader.column(lines[n]).Some? then [n] else []
  }

  lemma {:induction false} PlacesChosen(reader: Reader, lines: seq<seq<Byte>>)
    ensures Chosen(Places(reader, lines), reader, lines)
  {
    if lines != [] {
      var n := |lines| - 1;
      PlacesChosen(reader, lines[..n]);
      var before, list := Places(reader, lines[..n]), Places(reader, lines);
      assert list == before || list == before + [n];
      assert forall m: nat :: m < n ==> lines[..n][m] == lines[m] && (m in list <==> m in before);
      assert n !in before;
    }
  }

  lemma {:induction false} SampleAt(reader: Reader, lines: seq<seq<Byte>>)
    ensures |Samples(reader, lines)| == |Places(reader, lines)|
    ensures forall k :: 0 <= k < |Places(reader, lines)| ==>
      var line := lines[Places(reader, lines)[k]];
      reader.column(line) == Some(Samples(reader, lines)[k].value) && Samples(reader, lines)[k].time == reader.time(line)
  {
    if lines != [] {
      SampleAt(reader, lines[..|lines| - 1]);
    }
  }

  lemma {:induction false} BlocksAre(groups: seq<seq<Sample>>)
    ensures |BlocksOf(groups)| == |groups|
    ensures forall j :: 0 <= j < |groups| ==> BlocksOf(groups)[j] == BlockOf(groups[j])
  {
    if groups != [] {
      BlocksAre(groups[..|groups| - 1]);
    }
  }

  lemma {:induction false} GroupsCover(samples: seq<Sample>, number: nat)
    requires number > 0
    ensures var n := |Groups(samples, number)|; n * number <= |samples| < n * number + number
    decreases |samples|
  {
    if |samples| >= number {
      GroupsCover(samples[number..], number);
      assert |Groups(samples, number)| * number == |Groups(samples[number..], number)| * number + number;
    }
  }

  lemma {:induction false} GroupsAt(samples: seq<Sample>, number: nat, j: nat, i: nat)
    requires number > 0 && j < |Groups(samples, number)| && i < number
    ensures 0 <= j * number + i < |samples| && |Groups(samples, number)[j]| == number
    ensures Groups(samples, number)[j][i] == samples[j * number + i]
    decreases |samples|
  {
    if j > 0 {
      GroupsAt(samples[number..], number, j - 1, i);
      assert (j - 1) * number + i + number == j * number + i;
    }
  }

  /** The input ends where `read` first delivers nothing, whatever it would deliver then. */
  lemma {:induction false} EndsAtNothing(a: seq<seq<Byte>>, b: seq<seq<Byte>>)
    requires [] !in a
    ensures UntilEnd(a) == a && UntilEnd(a + [[]] + b) == a
  {
    if a != [] {
      EndsAtNothing(a[1..], b);
      assert (a + [[]] + b)[1..] == a[1..] + [[]] + b;
    }
  }
}
