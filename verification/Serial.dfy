/**
 The serial port as a queue of bytes. Several records have a port object each on one and the same handle; a peek
 takes a byte out of the queue and keeps it until the next read of that object, and a write discards what is unread.
 */
module Serial {
  import opened Basics

  const TEMP_SIZE: nat := 128

  /** A `char` that is compared with an `int`. */
  function Signed(b: Byte): (v: int)
    ensures -128 <= v < 128 && (v == b || v == b - 256)
  {
    if b < 0x80 then b else b - 0x100
  }

  /** One turn of the read loop: what arrives before it and what the clock shows after it. */
  datatype Tick = Tick(arrive: seq<Byte>, now: TimeT)

  function Arrivals(ticks: seq<Tick>): seq<Byte> {
    if ticks == [] then [] else ticks[0].arrive + Arrivals(ticks[1..])
  }

  // ---------------------------------------------------------------- the read loop as a function

  /** What the loop of `portRead` takes from the queue and leaves in it, its turns, and whether the terminator came. */
  datatype Reading = Reading(taken: seq<Byte>, unread: seq<Byte>, turns: nat, ended: bool)

  function Stream(unread: seq<Byte>, now: TimeT, deadline: TimeT, eos: int, ticks: seq<Tick>): (r: Reading)
    ensures r.turns <= |ticks|
    decreases |ticks|
  {
    if now >= deadline || ticks == [] then Reading([], unread, 0, false)
    else
      var queue := unread + ticks[0].arrive;
      if queue == [] then
        var r := Stream([], ticks[0].now, deadline, eos, ticks[1..]);
        r.(turns := r.turns + 1)
      else if Signed(queue[0]) == eos then Reading([queue[0]], queue[1..], 1, true)
      else
        var r := Stream(queue[1..], ticks[0].now, deadline, eos, ticks[1..]);
        Reading([queue[0]] + r.taken, r.unread, r.turns + 1, r.ended)
  }

  /** The clock gets past the deadline within the turns. */
  predicate Expires(now: TimeT, deadline: TimeT, ticks: seq<Tick>) {
    now >= deadline || exists k :: 0 <= k < |ticks| && ticks[k].now >= deadline
  }

  lemma {:induction false} FirstArrives(ticks: seq<Tick>, k: nat)
    requires 0 < k <= |ticks|
    ensures Arrivals(ticks[..k]) == ticks[0].arrive + Arrivals(ticks[1..][..k - 1])
  {
    assert ticks[..k][1..] == ticks[1..][..k - 1];
  }

  lemma {:induction false} NoneArrives(ticks: seq<Tick>)
    ensures Arrivals(ticks[..0]) == []
  {
  }

  /** The bytes come and go in order: nothing is lost, duplicated or moved. */
  lemma {:induction false} StreamKeepsOrder(unread: seq<Byte>, now: TimeT, deadline: TimeT, eos: int, ticks: seq<Tick>)
    ensures var r := Stream(unread, now, deadline, eos, ticks);
            r.taken + r.unread == unread + Arrivals(ticks[..r.turns])
    decreases |ticks|
  {
    hide Arrivals;
    var r := Stream(unread, now, deadline, eos, ticks);
    if now >= deadline || ticks == [] {
      NoneArrives(ticks);
    } else {
      var queue, first, rest := unread + ticks[0].arrive, ticks[0], ticks[1..];
      FirstArrives(ticks, r.turns);
      if queue == [] {
        StreamKeepsOrder([], first.now, deadline, eos, rest);
        assert unread == [] && first.arrive == [];
      } else if Signed(queue[0]) == eos {
        NoneArrives(rest);
      } else {
        StreamKeepsOrder(queue[1..], first.now, deadline, eos, rest);
        var tail := Stream(queue[1..], first.now, deadline, eos, rest);
        var later := Arrivals(rest[..tail.turns]);
        assert r.taken + r.unread == [queue[0]] + (tail.taken + tail.unread);
        assert [queue[0]] + (queue[1..] + later) == queue + later;
        assert unread + (first.arrive + later) == queue + later;
      }
    }
  }

  /** What the clock shows before turn `k`. */
  function ClockAt(now: TimeT, ticks: seq<Tick>, k: nat): TimeT
    requires k <= |ticks|
  {
    if k == 0 then now else ticks[k - 1].now
  }

  /** Every turn begins before the deadline, and a loop that did not see the terminator goes on until there is no such. */
  lemma {:induction false} ReadsUntilDeadline(unread: seq<Byte>, now: TimeT, deadline: TimeT, eos: int,
                                              ticks: seq<Tick>)
    ensures var r := Stream(unread, now, deadline, eos, ticks);
            && (forall k :: 0 <= k < r.turns ==> ClockAt(now, ticks, k) < deadline)
            && (!r.ended && r.turns < |ticks| ==> ClockAt(now, ticks, r.turns) >= deadline)
    decreases |ticks|
  {
    var r := Stream(unread, now, deadline, eos, ticks);
    if now < deadline && ticks != [] {
      var queue, next, rest := unread + ticks[0].arrive, ticks[0].now, ticks[1..];
      var left := if queue == [] then [] else queue[1..];
      ReadsUntilDeadline(left, next, deadline, eos, rest);
      assert forall k :: 0 < k <= |ticks| ==> ClockAt(now, ticks, k) == ClockAt(next, rest, k - 1);
    }
  }

  /** How many bytes can have been taken after all turns, if those that are there after turn `j` are. */
  function TakenAtMost(unread: seq<Byte>, ticks: seq<Tick>, turns: nat, j: nat): nat
    requires j <= turns <= |ticks|
  {
    |unread| + |Arrivals(ticks[..j])| + (turns - j)
  }

  /** Each turn takes a byte if there is one: the loop never leaves a byte waiting while a turn takes none. */
  lemma {:induction false} TakesWhatIsThere(unread: seq<Byte>, now: TimeT, deadline: TimeT, eos: int, ticks: seq<Tick>)
    ensures var r := Stream(unread, now, deadline, eos, ticks);
            && |r.taken| <= r.turns
            && (forall j :: 0 < j <= r.turns ==> |r.taken| <= TakenAtMost(unread, ticks, r.turns, j))
            && (|r.taken| == r.turns || exists j :: 0 < j <= r.turns && |r.taken| == TakenAtMost(unread, ticks, r.turns, j))
    decreases |ticks|
  {
    hide Arrivals;
    if now < deadline && ticks != [] {
      var r := Stream(unread, now, deadline, eos, ticks);
      var queue, next, rest := unread + ticks[0].arrive, ticks[0].now, ticks[1..];
      var left := if queue == [] then [] else queue[1..];
      var tail := Stream(left, next, deadline, eos, rest);
      TakesWhatIsThere(left, next, deadline, eos, rest);
      FirstArrives(ticks, 1);
      NoneArrives(rest);
      if queue != [] && Signed(queue[0]) == eos {
      } else {
        forall j | 0 < j <= tail.turns
          ensures TakenAtMost(unread, ticks, r.turns, j + 1) ==
                  TakenAtMost(left, rest, tail.turns, j) + if queue == [] then 0 else 1
        {
          FirstArrives(ticks, j + 1);
        }
        forall j | 0 < j <= r.turns ensures |r.taken| <= TakenAtMost(unread, ticks, r.turns, j) {
          if j > 1 {
            assert |tail.taken| <= TakenAtMost(left, rest, tail.turns, j - 1);
          }
        }
        if |r.taken| != r.turns {
          if |tail.taken| != tail.turns {
            var j :| 0 < j <= tail.turns && |tail.taken| == TakenAtMost(left, rest, tail.turns, j);
            assert |r.taken| == TakenAtMost(unread, ticks, r.turns, j + 1);
          } else {
            assert |r.taken| == TakenAtMost(unread, ticks, r.turns, 1);
          }
        }
      }
    }
  }

  /** The terminator is among the bytes. */
  predicate Holds(s: seq<Byte>, eos: int) {
    exists i :: 0 <= i < |s| && Signed(s[i]) == eos
  }

  lemma {:induction false} HoldsEither(a: seq<Byte>, b: seq<Byte>, eos: int)
    ensures Holds(a + b, eos) <==> Holds(a, eos) || Holds(b, eos)
  {
    if Holds(a, eos) {
      var i :| 0 <= i < |a| && Signed(a[i]) == eos;
      assert (a + b)[i] == a[i];
    }
    if Holds(b, eos) {
      var i :| 0 <= i < |b| && Signed(b[i]) == eos;
      assert (a + b)[|a| + i] == b[i];
    }
  }

  /**
   The loop ends by the terminator if and only if the terminator is among the bytes that it took itself, and then it is
   the last of them.
   */
  lemma {:induction false} EndsIff(unread: seq<Byte>, now: TimeT, deadline: TimeT, eos: int, ticks: seq<Tick>)
    ensures var r := Stream(unread, now, deadline, eos, ticks);
            && (r.ended <==> Holds(r.taken, eos))
            && (forall i :: 0 <= i < |r.taken| && Signed(r.taken[i]) == eos ==> i == |r.taken| - 1)
    decreases |ticks|
  {
    if now < deadline && ticks != [] {
      var queue := unread + ticks[0].arrive;
      if queue == [] {
        EndsIff([], ticks[0].now, deadline, eos, ticks[1..]);
      } else if Signed(queue[0]) == eos {
        assert [queue[0]][0] == queue[0];
      } else {
        EndsIff(queue[1..], ticks[0].now, deadline, eos, ticks[1..]);
        var tail := Stream(queue[1..], ticks[0].now, deadline, eos, ticks[1..]).taken;
        assert forall i :: 0 < i < |[queue[0]] + tail| ==> ([queue[0]] + tail)[i] == tail[i - 1];
        HoldsEither([queue[0]], tail, eos);
      }
    }
  }

  /** Whatever comes, a read that returns `held` first ends by the terminator exactly when it delivers it. */
  ghost predicate EndsAsDelivered(held: seq<Byte>, eos: int) {
    forall unread, now, deadline, ticks ::
      var r := Stream(unread, now, deadline, eos, ticks);
      r.ended <==> Holds(held + r.taken, eos)
  }

  /**
   That is so if and only if no held byte is the terminator. With one, the read of a device that stays idle runs into
   its deadline although it delivers the terminator.
   */
  lemma {:induction false} EndsAsDeliveredIff(held: seq<Byte>, eos: int)
    ensures EndsAsDelivered(held, eos) <==> !Holds(held, eos)
    ensures var idle := [Tick([], 1)];
            var r := Stream([], 0, 1, eos, idle);
            Expires(0, 1, idle) && !r.ended && (Holds(held, eos) ==> Holds(held + r.taken, eos))
  {
    forall unread, now, deadline, ticks
      ensures var r := Stream(unread, now, deadline, eos, ticks);
              r.ended || Holds(held, eos) <==> Holds(held + r.taken, eos)
    {
      EndsIff(unread, now, deadline, eos, ticks);
      HoldsEither(held, Stream(unread, now, deadline, eos, ticks).taken, eos);
    }
    IdleRead(eos);
  }

  lemma {:induction false} IdleRead(eos: int)
    ensures Expires(0, 1, [Tick([], 1)])
    ensures Stream([], 0, 1, eos, [Tick([], 1)]) == Reading([], [], 1, false)
  {
    var idle := [Tick([], 1)];
    assert idle[0].now >= 1;
    assert Stream([], 1, 1, eos, idle[1..]) == Reading([], [], 0, false);
  }

  /** The reading `all` so far: `taken` in `turns` turns, and the rest of the run to come. */
  ghost predicate Underway(all: Reading, taken: seq<Byte>, turns: nat, rest: Reading) {
    all == Reading(taken + rest.taken, rest.unread, turns + rest.turns, rest.ended)
  }

  /** One turn of the loop that goes on. */
  lemma {:induction false} OneTurn(all: Reading, taken: seq<Byte>, turns: nat, unread: seq<Byte>, now: TimeT,
                                   deadline: TimeT, eos: int, ticks: seq<Tick>)
    requires now < deadline && Expires(now, deadline, ticks)
    requires Underway(all, taken, turns, Stream(unread, now, deadline, eos, ticks))
    ensures ticks != [] && Expires(ticks[0].now, deadline, ticks[1..])
    ensures var queue := unread + ticks[0].arrive;
            if queue == [] then
              Underway(all, taken, turns + 1, Stream([], ticks[0].now, deadline, eos, ticks[1..]))
            else if Signed(queue[0]) == eos then
              all == Reading(taken + [queue[0]], queue[1..], turns + 1, true)
            else
              Underway(all, taken + [queue[0]], turns + 1, Stream(queue[1..], ticks[0].now, deadline, eos, ticks[1..]))
  {
    assert ticks[0].now < deadline ==> exists k :: 0 <= k < |ticks[1..]| && ticks[1..][k].now >= deadline by {
      if ticks[0].now < deadline {
        var k :| 0 <= k < |ticks| && ticks[k].now >= deadline;
        assert ticks[1..][k - 1] == ticks[k];
      }
    }
    var queue := unread + ticks[0].arrive;
    if queue != [] && Signed(queue[0]) != eos {
      var tail := Stream(queue[1..], ticks[0].now, deadline, eos, ticks[1..]);
      assert taken + ([queue[0]] + tail.taken) == taken + [queue[0]] + tail.taken;
    }
  }

  /** The same turn, seen from the whole run of ticks. */
  lemma {:induction false} TurnAt(all: Reading, taken: seq<Byte>, k: nat, unread: seq<Byte>, now: TimeT,
                                  deadline: TimeT, eos: int, ticks: seq<Tick>)
    requires k <= |ticks| && now < deadline && Expires(now, deadline, ticks[k..])
    requires Underway(all, taken, k, Stream(unread, now, deadline, eos, ticks[k..]))
    ensures k < |ticks| && Expires(ticks[k].now, deadline, ticks[k + 1..])
    ensures |taken| + (if unread + ticks[k].arrive == [] then 0 else 1) <= |all.taken|
    ensures var queue := unread + ticks[k].arrive;
            if queue == [] then
              Underway(all, taken, k + 1, Stream([], ticks[k].now, deadline, eos, ticks[k + 1..]))
            else if Signed(queue[0]) == eos then
              all == Reading(taken + [queue[0]], queue[1..], k + 1, true)
            else
              Underway(all, taken + [queue[0]], k + 1, Stream(queue[1..], ticks[k].now, deadline, eos, ticks[k + 1..]))
  {
    hide Stream, Expires;
    OneTurn(all, taken, k, unread, now, deadline, eos, ticks[k..]);
    assert ticks[k..][1..] == ticks[k + 1..] && ticks[k..][0] == ticks[k];
  }

  // ---------------------------------------------------------------- the objects

  /** An open device: the bytes that wait to be read, those that were written, and how often a break was sent. */
  class Handle {
    var pending: seq<Byte>
    var written: seq<Byte>
    var breaks: nat

    constructor ()
      ensures pending == written == [] && breaks == 0
    {
      pending, written, breaks := [], [], 0;
    }

    method Arrive(bytes: seq<Byte>)
      modifies this`pending
      ensures pending == old(pending) + bytes
    {
      pending := pending + bytes;
    }

    /** `read` of one byte from a device that does not block. */
    method Read() returns (c: Option<Byte>)
      modifies this`pending
      ensures old(pending) == [] ==> c == None && pending == []
      ensures old(pending) != [] ==> c == Some(old(pending)[0]) && pending == old(pending)[1..]
    {
      if pending == [] {
        return None;
      }
      c := Some(pending[0]);
      pending := pending[1..];
    }

    /** `tcflush`. */
    method Flush()
      modifies this`pending
      ensures pending == []
    {
      pending := [];
    }

    /** `tcsendbreak`. */
    method SendBreak()
      modifies this`breaks
      ensures breaks == old(breaks) + 1
    {
      breaks := breaks + 1;
    }

    /** `write`, completed by `tcdrain`. */
    method Write(bytes: seq<Byte>)
      modifies this`written
      ensures written == old(written) + bytes
    {
      written := written + bytes;
    }
  }

  class SerialPort {
    const deviceString: string
    const tempBuffer: array<Byte>
    var rxdChars: nat
    var dev: SerialPort? // the object whose handle is in use
    var handle: Handle
    var timeout: TimeT
    var eosMode: int

    ghost predicate Valid()
      reads this`rxdChars
    {
      tempBuffer.Length == TEMP_SIZE && rxdChars <= TEMP_SIZE
    }

    /** The bytes that were peeked and not yet read. */
    ghost function Held(): seq<Byte>
      requires Valid()
      reads this`rxdChars, tempBuffer
    {
      tempBuffer[..rxdChars]
    }

    /** A port that is not open: its handle means nothing yet. */
    constructor (deviceString: string, timeout: TimeT, eosMode: int)
      ensures Valid() && Held() == [] && fresh(tempBuffer) && dev == null
      ensures this.deviceString == deviceString && this.timeout == timeout && this.eosMode == eosMode
    {
      this.deviceString := deviceString;
      dev := null;
      handle := new Handle();
      this.timeout := timeout;
      this.eosMode := eosMode;
      tempBuffer := new Byte[TEMP_SIZE];
      rxdChars := 0;
    }

    /** `portOpen`, when the system answers with a handle for the name of the port; `null` is a failure. */
    method PortOpen(answer: Handle?) returns (p: SerialPort?)
      modifies this`dev, this`handle
      ensures p == dev == if answer == null then null else this
      ensures handle == if answer == null then old(handle) else answer
    {
      if answer == null {
        dev := null;
        return null;
      }
      handle := answer;
      dev := this;
      p := dev;
    }

    /** `reOpen`. */
    method ReOpen(newDev: SerialPort) returns (p: SerialPort?)
      modifies this`dev, this`handle
      ensures p == dev == newDev && handle == old(newDev.handle)
    {
      dev := newDev;
      handle := newDev.handle;
      p := dev;
    }

    method DataAvailable() returns (n: nat)
      requires Valid() && rxdChars < TEMP_SIZE
      modifies this`rxdChars, tempBuffer, handle`pending
      ensures Valid() && n == |Held()|
      ensures if old(handle.pending) == [] then Held() == old(Held()) && handle.pending == []
              else Held() == old(Held()) + [old(handle.pending)[0]] && handle.pending == old(handle.pending)[1..]
    {
      var rxChar := handle.Read();
      if rxChar.Some? {
        tempBuffer[rxdChars] := rxChar.value;
        rxdChars := rxdChars + 1;
      }
      n := rxdChars;
    }

    /** `portWrite` discards what is unread. A write of no bytes does not reach the device. */
    method PortWrite(bytes: seq<Byte>)
      modifies handle`pending, handle`written
      ensures handle.pending == if bytes == [] then old(handle.pending) else []
      ensures handle.written == old(handle.written) + bytes
    {
      if |bytes| == 0 {
        return;
      }
      handle.Flush();
      handle.Write(bytes);
    }

    /** `portMode` with `CLEAR`: a break, which touches no byte. */
    method Clear()
      modifies handle`breaks
      ensures handle.breaks == old(handle.breaks) + 1
    {
      handle.SendBreak();
    }

    /** What one read of this port gives. */
    ghost function Outcome(now: TimeT, ticks: seq<Tick>): Reading
      reads this, handle
    {
      Stream(handle.pending, now, AddTime(now, timeout), eosMode, ticks)
    }

    method PortRead(buffer: array<Byte>, start: TimeT, ticks: seq<Tick>) returns (ret: int)
      requires Valid() && buffer != tempBuffer && Expires(start, AddTime(start, timeout), ticks)
      requires |Held()| + |Outcome(start, ticks).taken| < buffer.Length
      modifies this`rxdChars, handle`pending, buffer
      ensures Valid() && Held() == [] && tempBuffer[..] == old(tempBuffer[..])
      ensures var r, out := old(Outcome(start, ticks)), old(Held()) + old(Outcome(start, ticks)).taken;
              && handle.pending == r.unread
              && |out| < buffer.Length && buffer[..|out|] == out && buffer[|out|] == NUL
              && (ret == if r.ended then |out| else -1)
              && (ret != -1 <==> Holds(r.taken, eosMode))
              && ((ret != -1 <==> Holds(out, eosMode)) <==> !Holds(old(Held()), eosMode) || Holds(r.taken, eosMode))
    {
      hide Holds, Stream, Expires;
      ghost var r := Outcome(start, ticks);
      EndsIff(handle.pending, start, AddTime(start, timeout), eosMode, ticks);
      HoldsEither(Held(), r.taken, eosMode);
      var bytes := Drain(buffer);
      ret := Receive(buffer, bytes, start, ticks, old(Held()));
    }

    /** The loop of `portRead` that returns the peeked bytes first. */
    method Drain(buffer: array<Byte>) returns (bytes: nat)
      requires Valid() && buffer != tempBuffer && |Held()| <= buffer.Length
      modifies this`rxdChars, buffer
      ensures Valid() && Held() == [] && bytes == |old(Held())| && buffer[..bytes] == old(Held())
    {
      ghost var held := Held();
      var i := 0;
      bytes := 0;
      while rxdChars > 0
        invariant i == bytes && bytes + rxdChars == |held| <= TEMP_SIZE
        invariant tempBuffer[..] == old(tempBuffer[..])
        invariant buffer[..bytes] == held[..bytes]
      {
        assert tempBuffer[i] == held[i];
        buffer[bytes] := tempBuffer[i];
        bytes, i, rxdChars := bytes + 1, i + 1, rxdChars - 1;
      }
    }

    /** The loop of `portRead` over the live stream. */
    method Receive(buffer: array<Byte>, bytes0: nat, start: TimeT, ticks: seq<Tick>, ghost held: seq<Byte>)
      returns (ret: int)
      requires Valid() && buffer != tempBuffer && Expires(start, AddTime(start, timeout), ticks)
      requires bytes0 == |held| <= buffer.Length && buffer[..bytes0] == held
      requires |held| + |Outcome(start, ticks).taken| < buffer.Length
      modifies handle`pending, buffer
      ensures var r, out := old(Outcome(start, ticks)), held + old(Outcome(start, ticks)).taken;
              && handle.pending == r.unread
              && |out| < buffer.Length && buffer[..|out|] == out && buffer[|out|] == NUL
              && ret == if r.ended then |out| else -1
    {
      hide Expires, Underway, Stream, Arrivals;
      ret := -1;
      var bytes, now, timeoutTime := bytes0, start, AddTime(start, timeout);
      ghost var all, taken: seq<Byte> := Outcome(start, ticks), [];
      var k := 0;
      Begin(all);
      assert ticks[0..] == ticks;
      while now < timeoutTime && ret == -1
        invariant 0 <= k <= |ticks| && bytes == |held| + |taken| <= |held| + |all.taken| < buffer.Length
        invariant buffer[..bytes] == held + taken
        invariant ret == -1 ==> Expires(now, timeoutTime, ticks[k..])
        invariant ret == -1 ==> Underway(all, taken, k, Stream(handle.pending, now, timeoutTime, eosMode, ticks[k..]))
        invariant ret != -1 ==> ret == bytes && all == Reading(taken, handle.pending, k, true)
        decreases |ticks| - k, if ret == -1 then 1 else 0
      {
        TurnAt(all, taken, k, handle.pending, now, timeoutTime, eosMode, ticks);
        handle.Arrive(ticks[k].arrive);
        var rxChar := handle.Read();
        if rxChar.Some? {
          buffer[bytes] := rxChar.value;
          bytes := bytes + 1;
          assert held + (taken + [rxChar.value]) == held + taken + [rxChar.value];
          taken := taken + [rxChar.value];
          if Signed(rxChar.value) == eosMode {
            ret := bytes;
          }
        }
        now := ticks[k].now;
        k := k + 1;
      }
      if ret == -1 {
        Late(handle.pending, now, timeoutTime, eosMode, ticks[k..], all, taken, k);
      }
      buffer[bytes] := NUL;
    }
  }

  lemma {:induction false} Begin(all: Reading)
    ensures Underway(all, [], 0, all)
  {
    assert [] + all.taken == all.taken;
  }

  lemma {:induction false} Late(unread: seq<Byte>, now: TimeT, deadline: TimeT, eos: int, ticks: seq<Tick>,
                                all: Reading, taken: seq<Byte>, turns: nat)
    requires now >= deadline && Underway(all, taken, turns, Stream(unread, now, deadline, eos, ticks))
    ensures all == Reading(taken, unread, turns, false)
  {
  }
}
