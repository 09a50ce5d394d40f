/**
 The records: the class `query` with its schedule and counters, and what the main loop does with a record in one pass.
 */
module Query {
  import opened Basics
  import opened Schedule
  import opened Serial
  import Nmea
  import Message
  import TimeStamp

  /** The bits that `thisRecord` returns: send (0x01), clear (0x02), receive (0x04). */
  datatype Action = Action(tx: bool, clear: bool, rx: bool)

  /** What the program prints about a record when it quits. */
  datatype Counters = Counters(sent: nat, received: nat, timeouts: nat, checked: nat, sumErrors: nat)

  /** What one read of the device gave: its bytes, whether it ended by the terminator, and the verdict, -1 if none. */
  datatype Outcome = Outcome(text: seq<Byte>, ended: bool, verdict: int)

  /** What a record did on its device besides sending: its breaks, and its reads in order. */
  datatype History = History(clears: nat, outcomes: seq<Outcome>)

  /** The reply is not empty as a C string. */
  predicate Heard(o: Outcome) {
    o.text != [] && o.text[0] != 0x00
  }

  /** One more read in the counters. */
  function AfterRead(c: Counters, o: Outcome): Counters {
    Counters(c.sent, c.received + (if Heard(o) then 1 else 0), c.timeouts + (if o.ended then 0 else 1),
             c.checked + (if o.verdict >= 0 then 1 else 0), c.sumErrors + (if o.verdict > 0 then 1 else 0))
  }

  /** The counters of a record that sent so often and read these outcomes. */
  function CountersOf(sent: nat, outcomes: seq<Outcome>): Counters {
    if outcomes == [] then Counters(sent, 0, 0, 0, 0)
    else AfterRead(CountersOf(sent, outcomes[..|outcomes| - 1]), outcomes[|outcomes| - 1])
  }

  /** All bytes that the reads gave. */
  function Texts(outcomes: seq<Outcome>): seq<Byte> {
    if outcomes == [] then [] else Texts(outcomes[..|outcomes| - 1]) + outcomes[|outcomes| - 1].text
  }

  /** Only a reply that was heard has a verdict. */
  predicate Plausible(outcomes: seq<Outcome>) {
    forall i :: 0 <= i < |outcomes| && outcomes[i].verdict >= 0 ==> Heard(outcomes[i])
  }

  /** The flags of a record: whether it sends, clears and receives when it acts. */
  datatype Flags = Flags(send: bool, clear: bool, receive: bool)

  /**
   What a record did agrees with what it counted and how often it acted. Every firing of a sending record sends, every
   firing of a clearing one clears, and every firing of one that sends and receives reads; with `-n` the number fell.
   */
  predicate Agree(c: Counters, firings: nat, h: History, flags: Flags, number: int, limit: int) {
    && c == CountersOf(if flags.send then firings else 0, h.outcomes) && Plausible(h.outcomes)
    && h.clears == (if flags.clear then firings else 0)
    && |h.outcomes| <= firings
    && (flags.send && flags.receive ==> |h.outcomes| == firings) && (!flags.receive ==> h.outcomes == [])
    && (limit < 0 ==> number == limit) && (limit >= 0 ==> number >= 0 && firings + number == limit)
  }

  /** Errors were checked, checks were received, and both took a read. */
  lemma {:induction false} CountedBy(sent: nat, outcomes: seq<Outcome>)
    requires Plausible(outcomes)
    ensures var c := CountersOf(sent, outcomes);
            c.sent == sent && c.sumErrors <= c.checked <= c.received <= |outcomes| && c.timeouts <= |outcomes|
  {
    if outcomes != [] {
      CountedBy(sent, outcomes[..|outcomes| - 1]);
    }
  }

  /** The counters tell how many of the reads were heard, */
  lemma {:induction false} ReceivedCount(sent: nat, outcomes: seq<Outcome>)
    ensures CountersOf(sent, outcomes).received ==
            |set i | 0 <= i < |outcomes| && outcomes[i].text != [] && outcomes[i].text[0] != 0x00|
  {
    if outcomes != [] {
      var before := outcomes[..|outcomes| - 1];
      ReceivedCount(sent, before);
      OneMore((set i | 0 <= i < |before| && before[i].text != [] && before[i].text[0] != 0x00),
              (set i | 0 <= i < |outcomes| && outcomes[i].text != [] && outcomes[i].text[0] != 0x00), |before|);
    }
  }

  /** timed out, */
  lemma {:induction false} TimeoutCount(sent: nat, outcomes: seq<Outcome>)
    ensures CountersOf(sent, outcomes).timeouts == |set i | 0 <= i < |outcomes| && !outcomes[i].ended|
  {
    if outcomes != [] {
      var before := outcomes[..|outcomes| - 1];
      TimeoutCount(sent, before);
      OneMore((set i | 0 <= i < |before| && !before[i].ended),
              (set i | 0 <= i < |outcomes| && !outcomes[i].ended), |before|);
    }
  }

  /** had a verdict, */
  lemma {:induction false} CheckedCount(sent: nat, outcomes: seq<Outcome>)
    ensures CountersOf(sent, outcomes).checked == |set i | 0 <= i < |outcomes| && outcomes[i].verdict >= 0|
  {
    if outcomes != [] {
      var before := outcomes[..|outcomes| - 1];
      CheckedCount(sent, before);
      OneMore((set i | 0 <= i < |before| && before[i].verdict >= 0),
              (set i | 0 <= i < |outcomes| && outcomes[i].verdict >= 0), |before|);
    }
  }

  /** and a bad one. */
  lemma {:induction false} ErrorCount(sent: nat, outcomes: seq<Outcome>)
    ensures CountersOf(sent, outcomes).sumErrors == |set i | 0 <= i < |outcomes| && outcomes[i].verdict > 0|
  {
    if outcomes != [] {
      var before := outcomes[..|outcomes| - 1];
      ErrorCount(sent, before);
      OneMore((set i | 0 <= i < |before| && before[i].verdict > 0),
              (set i | 0 <= i < |outcomes| && outcomes[i].verdict > 0), |before|);
    }
  }

  lemma {:induction false} OneMore(a: set<int>, b: set<int>, x: int)
    requires a == b - {x}
    ensures |b| == |a| + if x in b then 1 else 0
  {
  }

  /** The verdict on a reply that stands in the read buffer as a C string; -1 without a checksum. */
  function Judged(text: seq<Byte>, buffer: seq<Byte>, nmea: bool): int
    requires NUL in buffer && |buffer| < Nmea.UNBOUNDED
  {
    if nmea && text != [] && text[0] != 0x00 then Nmea.VerdictOn(buffer) else -1
  }

  /** The outcome of a read whose reply stands in the read buffer, terminated, in front of older bytes. */
  ghost predicate OutcomeOf(o: Outcome, reply: Reading, nmea: bool, buffer: seq<Byte>) {
    var text := reply.taken;
    && |text| < |buffer| < Nmea.UNBOUNDED && buffer[..|text|] == text && buffer[|text|] == NUL && NUL in buffer
    && o == Outcome(text, reply.ended, Judged(text, buffer, nmea))
  }

  /** What an action adds to counters and history, when `reply` is what a read would give. */
  ghost predicate Happened(c: Counters, h: History, c': Counters, h': History, a: Action, reply: Reading, nmea: bool,
                           buffer: seq<Byte>) {
    var s, clears := c.(sent := if a.tx then c.sent + 1 else c.sent), h.clears + if a.clear then 1 else 0;
    if !a.rx then c' == s && h' == History(clears, h.outcomes)
    else
      && h'.outcomes != []
      && var o := h'.outcomes[|h'.outcomes| - 1];
         h' == History(clears, h.outcomes + [o]) && c' == AfterRead(s, o) && OutcomeOf(o, reply, nmea, buffer)
  }

  /** What happens around a turn: bytes before it, clock and bytes during its read, the expansion of `strftime`. */
  datatype Env = Env(before: seq<Byte>, start: TimeT, ticks: seq<Tick>, strftime: seq<Byte> -> seq<Byte>)

  /** How a record is configured, as far as its turns depend on it. */
  datatype Setup = Setup(send: bool, clear: bool, receive: bool, message: seq<Byte>, timeout: TimeT, eos: int)

  function FlagsOf(c: Setup): Flags {
    Flags(c.send, c.clear, c.receive)
  }

  /** What a record does when its schedule lets it act: one that does not send reads only if something is unread. */
  function Choice(c: Setup, fires: bool, queue: seq<Byte>): Action {
    Action(fires && c.send, fires && c.clear, fires && c.receive && (c.send || queue != []))
  }

  lemma {:induction false} ChosenIs(c: Setup, fires: bool, queue: seq<Byte>)
    ensures var a := Choice(c, fires, queue);
            && (a.tx <==> fires && c.send) && (a.clear <==> fires && c.clear)
            && (a.rx <==> fires && c.receive && (c.send || queue != []))
  {
  }

  /** What a message that is sent leaves of the unread bytes: nothing, unless it is empty. */
  function Left(c: Setup, tx: bool, queue: seq<Byte>, strftime: seq<Byte> -> seq<Byte>): seq<Byte> {
    if tx && Message.Sent(c.message, strftime) != [] then [] else queue
  }

  /** What a read gives and leaves, when `held` was peeked and `unread` waits. */
  function ReadBy(c: Setup, held: seq<Byte>, unread: seq<Byte>, env: Env): Reading {
    var r := Stream(unread, env.start, AddTime(env.start, c.timeout), c.eos, env.ticks);
    r.(taken := held + r.taken)
  }

  /** What the read of a turn gives: the byte that was peeked to choose the action comes first. */
  function ReplyTo(c: Setup, a: Action, queue: seq<Byte>, env: Env): Reading
    requires a.rx && !a.tx ==> queue != []
  {
    if a.rx && !a.tx then ReadBy(c, queue[..1], queue[1..], env)
    else ReadBy(c, [], Left(c, a.tx, queue, env.strftime), env)
  }

  /** What a turn reads. */
  function Gets(c: Setup, fires: bool, queue: seq<Byte>, env: Env): seq<Byte> {
    var a := Choice(c, fires, queue);
    if a.rx then ReplyTo(c, a, queue, env).taken else []
  }

  /** What a turn leaves unread. */
  function Leaves(c: Setup, fires: bool, queue: seq<Byte>, env: Env): seq<Byte> {
    var a := Choice(c, fires, queue);
    if a.rx then ReplyTo(c, a, queue, env).unread else Left(c, a.tx, queue, env.strftime)
  }

  /** If the turn reads, the read finds its deadline, and the reply and its terminating NUL fit into the buffer. */
  predicate ReplyFits(c: Setup, fires: bool, queue: seq<Byte>, env: Env, size: nat) {
    var a := Choice(c, fires, queue);
    a.rx ==>
      && Expires(env.start, AddTime(env.start, c.timeout), env.ticks)
      && |ReplyTo(c, a, queue, env).taken| < size
  }

  /** A turn keeps the agreement. */
  lemma {:induction false} TurnAgrees(c: Counters, h: History, c': Counters, h': History, firings: nat, setup: Setup,
                                      s: Sched, p: Poll, limit: int, queue: seq<Byte>, reply: Reading, nmea: bool,
                                      buffer: seq<Byte>)
    requires Agree(c, firings, h, FlagsOf(setup), s.number, limit)
    requires Happened(c, h, c', h', Choice(setup, Fires(s, p), queue), reply, nmea, buffer)
    ensures Agree(c', firings + if Fires(s, p) then 1 else 0, h', FlagsOf(setup), Step(s, p).number, limit)
  {
    hide Fires, Step, CountersOf, AfterRead, OutcomeOf, Heard;
    StepNumber(s, p);
    var a := Choice(setup, Fires(s, p), queue);
    var sent := if setup.send then firings else 0;
    CountsMore(sent, if a.tx then 1 else 0, h.outcomes);
    if a.rx {
      var o := h'.outcomes[|h.outcomes|];
      OutcomeIsPlausible(o, reply, nmea, buffer);
      CountsNext(sent + if a.tx then 1 else 0, h.outcomes, o);
    }
  }

  lemma {:induction false} CountsNext(sent: nat, outcomes: seq<Outcome>, o: Outcome)
    ensures CountersOf(sent, outcomes + [o]) == AfterRead(CountersOf(sent, outcomes), o)
  {
    assert (outcomes + [o])[..|outcomes|] == outcomes;
  }

  lemma {:induction false} OutcomeIsPlausible(o: Outcome, reply: Reading, nmea: bool, buffer: seq<Byte>)
    requires OutcomeOf(o, reply, nmea, buffer)
    ensures o.verdict >= 0 ==> Heard(o)
  {
    hide Nmea.VerdictOn;
  }

  lemma {:induction false} HappenedOnce(c: Counters, h: History, c': Counters, h': History, a: Action, reply: Reading,
                                        nmea: bool, buffer: seq<Byte>)
    requires Happened(c, h, c', h', a, reply, nmea, buffer)
    ensures c'.sent == c.sent + (if a.tx then 1 else 0) && h'.clears == h.clears + (if a.clear then 1 else 0)
    ensures |h'.outcomes| == |h.outcomes| + if a.rx then 1 else 0
    ensures Texts(h'.outcomes) == Texts(h.outcomes) + if a.rx then reply.taken else []
  {
    assert a.rx ==> h'.outcomes[..|h.outcomes|] == h.outcomes;
  }

  lemma {:induction false} CountsMore(sent: nat, more: nat, outcomes: seq<Outcome>)
    ensures CountersOf(sent + more, outcomes) == CountersOf(sent, outcomes).(sent := sent + more)
    ensures CountersOf(sent, outcomes).sent == sent
  {
    if outcomes != [] {
      CountsMore(sent, more, outcomes[..|outcomes| - 1]);
    }
  }

  class Query {
    var first: TimeT
    var last: TimeT
    var nextRuntime: TimeT
    const device: SerialPort
    var receiveWait: int
    var send: int
    var sendClear: int
    var nmea: int
    var period: TimeT
    var number: int
    var message: seq<Byte>
    var sent: nat
    var received: nat
    var sumErrors: nat
    var checked: nat
    var timeouts: nat
    var srq: int
    var srqReq: int
    ghost var limit: int   // the number of `-n`
    ghost var firings: nat // how often `thisRecord` let the record act
    ghost var history: History // what happened on the device

    /** A record as the constructor of the source leaves it. */
    constructor (device: SerialPort)
      ensures this.device == device
      ensures Schedule() == Sched(0, 0, 0, 0, -1, false) && srqReq == 0
      ensures Counts() == Counters(0, 0, 0, 0, 0)
      ensures receiveWait == send == sendClear == nmea == 0 && message == []
      ensures Consistent() && firings == 0
    {
      this.device := device;
      first, last, nextRuntime, period, number := 0, 0, 0, 0, -1;
      receiveWait, send, sendClear, nmea, message := 0, 0, 0, 0, [];
      sent, received, sumErrors, checked, timeouts := 0, 0, 0, 0, 0;
      srq, srqReq := 0, 0;
      limit, firings, history := -1, 0, History(0, []);
    }

    /** The counters agree with each other and with what the record did. */
    ghost predicate Consistent()
      reads this
    {
      Agree(Counts(), firings, history, Flags(send != 0, sendClear != 0, receiveWait != 0), number, limit)
    }

    /** What the counters say between turns, in terms of the fields. */
    ghost predicate Accounted()
      reads this
    {
      var outcomes, n := history.outcomes, |history.outcomes|;
      && sent == (if send != 0 then firings else 0) && history.clears == (if sendClear != 0 then firings else 0)
      && n <= firings && (send != 0 && receiveWait != 0 ==> n == firings) && (receiveWait == 0 ==> n == 0)
      && received == |set i | 0 <= i < n && outcomes[i].text != [] && outcomes[i].text[0] != 0x00|
      && timeouts == |set i | 0 <= i < n && !outcomes[i].ended|
      && checked == |set i | 0 <= i < n && outcomes[i].verdict >= 0|
      && sumErrors == |set i | 0 <= i < n && outcomes[i].verdict > 0|
      && sumErrors <= checked <= received <= n && timeouts <= n
      && (limit < 0 ==> number == limit) && (limit >= 0 ==> number >= 0 && firings + number == limit)
    }

    method SetPeriod(p: string)
      modifies this`period
      ensures period == TimeStamp.AbsTime(p, 0)
    {
      period := TimeStamp.StrToAbsTime(p, 0);
    }

    method SetFirstTime(p: string, time: TimeT)
      modifies this`first
      ensures first == TimeStamp.AbsTime(p, time)
    {
      first := TimeStamp.StrToAbsTime(p, time);
    }

    method SetLastTime(p: string, time: TimeT)
      modifies this`last
      ensures last == TimeStamp.AbsTime(p, time)
    {
      last := TimeStamp.StrToAbsTime(p, time);
    }

    /** The option `-n`, before the record has acted. */
    method SetNumber(p: string)
      requires firings == 0 && Consistent()
      modifies this`number, this`limit
      ensures number == TimeStamp.Number(p) && Consistent()
    {
      number := TimeStamp.Number(p);
      limit := number;
    }

    function Schedule(): Sched
      reads this
    {
      Sched(first, last, nextRuntime, period, number, srq != 0)
    }

    function Counts(): Counters
      reads this
    {
      Counters(sent, received, timeouts, checked, sumErrors)
    }

    /** `query::finished`. */
    method Finished(time: TimeT) returns (cont: bool)
      ensures cont == Continues(Schedule(), time)
    {
      cont := false;
      if last != 0 {
        if last > time {
          cont := true;
        }
      } else if number == -1 || number > 0 {
        cont := true;
      }
    }

    /** The first part of `thisRecord`: the schedule decides and moves on. */
    method Decide(timeNow: TimeT) returns (thisRecord: bool)
      modifies this`nextRuntime, this`number
      ensures Schedule() == Step(old(Schedule()), Poll(timeNow, srqReq != 0))
      ensures thisRecord == Fires(old(Schedule()), Poll(timeNow, srqReq != 0))
    {
      thisRecord := false;
      if nextRuntime == 0 && first < timeNow {
        if first == 0 {
          nextRuntime := timeNow;
        } else {
          nextRuntime := first;
        }
      } else if nextRuntime > 0 && nextRuntime < timeNow {
        if srq == 0 {
          thisRecord := true;
        }
        if last > 0 {
          if timeNow > last {
            thisRecord := false;
          }
        }
      }
      if srqReq != 0 {
        thisRecord := true;
      }
      if number >= 0 && thisRecord {
        if number == 0 {
          thisRecord := false;
        } else {
          number := number - 1;
        }
      }
      if thisRecord {
        if period > 0 {
          if nextRuntime == 0 {
            nextRuntime := AddTime(timeNow, period);
          } else {
            nextRuntime := AddTime(nextRuntime, period);
          }
        }
      }
    }

    /** `query::thisRecord`. A record that only receives peeks whether there is something to receive. */
    method ThisRecord(timeNow: TimeT) returns (ret: Action)
      requires device.Valid() && device.Held() == []
      modifies this`nextRuntime, this`number, device`rxdChars, device.tempBuffer, device.handle`pending
      ensures Schedule() == Step(old(Schedule()), Poll(timeNow, srqReq != 0))
      ensures ret == Choice(Config(), Fires(old(Schedule()), Poll(timeNow, srqReq != 0)), old(device.handle.pending))
      ensures var fires := Fires(old(Schedule()), Poll(timeNow, srqReq != 0));
              && (ret.tx <==> fires && send != 0) && (ret.clear <==> fires && sendClear != 0)
              && (ret.rx <==> fires && receiveWait != 0 && (send != 0 || old(device.handle.pending) != []))
      ensures device.Valid() && device.handle == old(device.handle)
      ensures device.Held() + device.handle.pending == old(device.handle.pending)
      ensures device.Held() == if ret.rx && !ret.tx then old(device.handle.pending)[..1] else []
    {
      hide Step, Fires;
      ret := Action(false, false, false);
      var thisRecord := Decide(timeNow);
      if thisRecord {
        if send != 0 {
          ret := ret.(tx := true);
        }
        if sendClear != 0 {
          ret := ret.(clear := true);
        }
        if receiveWait != 0 {
          if send == 0 {
            var available := device.DataAvailable();
            if available != 0 {
              ret := ret.(rx := true);
            }
          } else {
            ret := ret.(rx := true);
          }
        }
      }
    }

    /** The device is ready and no byte of it is held back. */
    ghost predicate Ready()
      reads device`rxdChars
    {
      device.Valid() && device.rxdChars == 0
    }

    ghost function Config(): Setup
      reads this, device`timeout, device`eosMode
    {
      Setup(send != 0, sendClear != 0, receiveWait != 0, message, device.timeout, device.eosMode)
    }

    /** The sending part of a turn. */
    method Transmit(strftime: seq<Byte> -> seq<Byte>, ghost c: Setup)
      requires Config() == c
      modifies this`sent, device.handle`pending, device.handle`written
      ensures sent == old(sent) + 1
      ensures device.handle.pending == Left(c, true, old(device.handle.pending), strftime)
      ensures device.handle.written == old(device.handle.written) + Message.Sent(message, strftime)
    {
      var wire := Message.Sent(message, strftime);
      device.PortWrite(wire);
      sent := sent + 1;
    }

    /** What the bits of an action make the main loop do, when `held` was peeked and `queue` waits. */
    method Act(action: Action, env: Env, buffer: array<Byte>, ghost c: Setup, ghost held: seq<Byte>,
               ghost queue: seq<Byte>)
      requires Config() == c && device.Valid() && buffer != device.tempBuffer && buffer.Length < Nmea.UNBOUNDED
      requires device.Held() == held && device.handle.pending == queue && (held != [] ==> action.rx)
      requires action.rx ==>
                 && Expires(env.start, AddTime(env.start, device.timeout), env.ticks)
                 && |ReadBy(c, held, Left(c, action.tx, queue, env.strftime), env).taken| < buffer.Length
      modifies this`sent, this`received, this`checked, this`sumErrors, this`timeouts, this`history
      modifies device`rxdChars, device.handle, buffer
      ensures device.Valid() && device.Held() == []
      ensures var left := Left(c, action.tx, queue, env.strftime);
              var reply := ReadBy(c, held, left, env);
              && Happened(old(Counts()), old(history), Counts(), history, action, reply, nmea != 0, buffer[..])
              && device.handle.pending == if action.rx then reply.unread else left
      ensures device.handle.written ==
              old(device.handle.written) + if action.tx then Message.Sent(message, env.strftime) else []
      ensures device.handle.breaks == old(device.handle.breaks) + if action.clear then 1 else 0
    {
      hide Expires, ReadBy, Message.Sent, OutcomeOf, AfterRead;
      if action.clear {
        device.Clear();
        history := history.(clears := history.clears + 1);
      }
      if action.tx {
        Transmit(env.strftime, c);
      }
      if action.rx {
        ghost var o := Receive(env, buffer, c, held, Left(c, action.tx, queue, env.strftime));
      }
    }

    /** `thisRecord` leaves the record with the reply that its turn will give. */
    method Choose(now: TimeT, ghost env: Env, ghost c: Setup) returns (action: Action)
      requires Config() == c && device.Valid() && device.Held() == []
      modifies this`nextRuntime, this`number, device`rxdChars, device.tempBuffer, device.handle`pending
      ensures Schedule() == Step(old(Schedule()), Poll(now, srqReq != 0))
      ensures action == Choice(c, Fires(old(Schedule()), Poll(now, srqReq != 0)), old(device.handle.pending))
      ensures device.Valid() && (device.Held() != [] ==> action.rx)
      ensures action.rx && !action.tx ==> old(device.handle.pending) != []
      ensures var left := Left(c, action.tx, device.handle.pending, env.strftime);
              && ReadBy(c, device.Held(), left, env) ==
                 ReplyTo(c, action, old(device.handle.pending), env)
              && (!action.rx ==> left == Left(c, action.tx, old(device.handle.pending), env.strftime))
    {
      hide Step, Fires, ReadBy, Message.Sent;
      ghost var was := device.handle.pending;
      action := ThisRecord(now);
      assert device.handle.pending == was[|device.Held()|..];
    }

    /** The turn of a record in a pass of the main loop: `thisRecord`, and what its bits ask for. */
    method Perform(now: TimeT, env: Env, buffer: array<Byte>, ghost c: Setup) returns (action: Action)
      requires Config() == c
      requires Ready() && buffer != device.tempBuffer && buffer.Length < Nmea.UNBOUNDED
      requires ReplyFits(c, Fires(Schedule(), Poll(now, srqReq != 0)), device.handle.pending, env, buffer.Length)
      modifies this`nextRuntime, this`number, this`sent, this`received, this`checked, this`sumErrors, this`timeouts
      modifies this`history, device`rxdChars, device.tempBuffer, device.handle, buffer
      ensures Schedule() == Step(old(Schedule()), Poll(now, srqReq != 0))
      ensures action == Choice(c, Fires(old(Schedule()), Poll(now, srqReq != 0)), old(device.handle.pending))
      ensures Ready()
      ensures device.handle.written ==
              old(device.handle.written) + if action.tx then Message.Sent(message, env.strftime) else []
      ensures device.handle.breaks == old(device.handle.breaks) + if action.clear then 1 else 0
      ensures action.rx ==> TimeoutIsTrueIff(c, action, old(device.handle.pending), env,
                                             timeouts - old(timeouts))
      ensures Happened(old(Counts()), old(history), Counts(), history, action,
                       ReplyTo(c, action, old(device.handle.pending), env), nmea != 0, buffer[..])
      ensures device.handle.pending ==
              Leaves(c, Fires(old(Schedule()), Poll(now, srqReq != 0)), old(device.handle.pending), env)
    {
      hide Step, Fires, Expires, Happened, Message.Sent, ReadBy, ReplyTo, Left, TimeoutIsTrueIff;
      ghost var queue, counts, h := device.handle.pending, Counts(), history;
      action := Choose(now, env, c);
      Act(action, env, buffer, c, device.Held(), device.handle.pending);
      if action.rx {
        TimeoutFollows(c, action, queue, env, counts, h, Counts(), history, nmea != 0, buffer[..]);
      }
    }

    /** A turn, with the record of what happened. */
    method Play(now: TimeT, env: Env, buffer: array<Byte>, ghost c: Setup) returns (action: Action)
      requires Config() == c
      requires Ready() && Consistent() && buffer != device.tempBuffer && buffer.Length < Nmea.UNBOUNDED
      requires ReplyFits(c, Fires(Schedule(), Poll(now, srqReq != 0)), device.handle.pending, env, buffer.Length)
      modifies this`nextRuntime, this`number, this`sent, this`received, this`checked, this`sumErrors, this`timeouts
      modifies this`firings, this`history, device`rxdChars, device.tempBuffer, device.handle, buffer
      ensures Schedule() == Step(old(Schedule()), Poll(now, srqReq != 0))
      ensures firings == old(firings) + if Fires(old(Schedule()), Poll(now, srqReq != 0)) then 1 else 0
      ensures action == Choice(c, Fires(old(Schedule()), Poll(now, srqReq != 0)), old(device.handle.pending))
      ensures Ready() && Consistent()
      ensures device.handle.pending ==
              Leaves(c, Fires(old(Schedule()), Poll(now, srqReq != 0)), old(device.handle.pending), env)
      ensures device.handle.written ==
              old(device.handle.written) + if action.tx then Message.Sent(message, env.strftime) else []
      ensures device.handle.breaks == old(device.handle.breaks) + if action.clear then 1 else 0
      ensures Happened(old(Counts()), old(history), Counts(), history, action,
                       ReplyTo(c, action, old(device.handle.pending), env), nmea != 0, buffer[..])
    {
      hide Step, Fires, Agree, ReplyTo, Leaves, ReplyFits, TimeoutIsTrueIff, Message.Sent, Happened;
      ghost var s, p, counts, h := Schedule(), Poll(now, srqReq != 0), Counts(), history;
      ghost var queue := device.handle.pending;
      action := Perform(now, env, buffer, c);
      TurnAgrees(counts, h, Counts(), history, firings, c, s, p, limit, queue, ReplyTo(c, action, queue, env), nmea != 0,
                 buffer[..]);
      firings := firings + if Fires(s, p) then 1 else 0;
    }

    /** A turn in terms of the fields: a firing sends, clears and reads as `send`, `sendClear` and `receiveWait` say. */
    method Turn(now: TimeT, env: Env, buffer: array<Byte>, ghost c: Setup)
      requires Config() == c
      requires Ready() && Consistent() && buffer != device.tempBuffer && buffer.Length < Nmea.UNBOUNDED
      requires ReplyFits(c, Fires(Schedule(), Poll(now, srqReq != 0)), device.handle.pending, env, buffer.Length)
      modifies this`nextRuntime, this`number, this`sent, this`received, this`checked, this`sumErrors, this`timeouts
      modifies this`firings, this`history, device`rxdChars, device.tempBuffer, device.handle, buffer
      ensures Schedule() == Step(old(Schedule()), Poll(now, srqReq != 0))
      ensures firings == old(firings) + if Fires(old(Schedule()), Poll(now, srqReq != 0)) then 1 else 0
      ensures Ready() && Consistent()
      ensures device.handle.pending ==
              Leaves(c, Fires(old(Schedule()), Poll(now, srqReq != 0)), old(device.handle.pending), env)
      ensures var fires := Fires(old(Schedule()), Poll(now, srqReq != 0));
              && sent == old(sent) + (if fires && send != 0 then 1 else 0)
              && device.handle.written == old(device.handle.written)
                 + (if fires && send != 0 then Message.Sent(message, env.strftime) else [])
              && device.handle.breaks == old(device.handle.breaks) + (if fires && sendClear != 0 then 1 else 0)
              && |history.outcomes| == |old(history.outcomes)| +
                 (if fires && receiveWait != 0 && (send != 0 || old(device.handle.pending) != []) then 1 else 0)
              && Texts(history.outcomes) == old(Texts(history.outcomes)) + Gets(c, fires, old(device.handle.pending), env)
    {
      hide Step, Fires, Agree, Leaves, Message.Sent, Happened, Choice, ReplyFits;
      ghost var fires, queue, counts, h :=
        Fires(Schedule(), Poll(now, srqReq != 0)), device.handle.pending, Counts(), history;
      ChosenIs(c, fires, queue);
      var action := Play(now, env, buffer, c);
      HappenedOnce(counts, h, Counts(), history, action, ReplyTo(c, action, queue, env), nmea != 0, buffer[..]);
    }

    /**
     Reading the reply of the device and counting it: a reply counts if it is not empty as a C string, a timeout if the
     terminator did not come, a check and an error by the verdict of the checker on the buffer.
     */
    method Receive(env: Env, buffer: array<Byte>, ghost c: Setup, ghost held: seq<Byte>, ghost queue: seq<Byte>)
      returns (ghost o: Outcome)
      requires Config() == c && device.Valid() && buffer != device.tempBuffer && buffer.Length < Nmea.UNBOUNDED
      requires device.Held() == held && device.handle.pending == queue
      requires Expires(env.start, AddTime(env.start, device.timeout), env.ticks)
      requires |ReadBy(c, held, queue, env).taken| < buffer.Length
      modifies this`received, this`checked, this`sumErrors, this`timeouts, this`history
      modifies device`rxdChars, device.handle`pending, buffer
      ensures device.Valid() && device.Held() == []
      ensures device.handle.pending == ReadBy(c, held, queue, env).unread
      ensures history == History(old(history.clears), old(history.outcomes) + [o])
      ensures Counts() == AfterRead(old(Counts()), o)
      ensures OutcomeOf(o, ReadBy(c, held, queue, env), nmea != 0, buffer[..])
    {
      hide Expires, Stream, Nmea.VerdictOn, Holds, OutcomeOf;
      ghost var reply := ReadBy(c, held, queue, env);
      var len := device.PortRead(buffer, env.start, env.ticks);
      ghost var counts := Counts();
      o := Tally(len, buffer, reply);
      assert Counts() == AfterRead(counts, o);
      history := history.(outcomes := history.outcomes + [o]);
    }

    /** The check of the reply in the buffer. */
    method Check(buffer: array<Byte>)
      requires NUL in buffer[..] && buffer.Length < Nmea.UNBOUNDED
      modifies this`checked, this`sumErrors
      ensures checked == old(checked) + if Nmea.VerdictOn(buffer[..]) >= 0 then 1 else 0
      ensures sumErrors == old(sumErrors) + if Nmea.VerdictOn(buffer[..]) > 0 then 1 else 0
    {
      hide Nmea.Verdict, Nmea.VerdictOn, CString;
      ghost var text := buffer[..];
      BufferSplits(text);
      var i := Nmea.NmeaCheck(buffer, text[|CString(text)| + 1..]);
      if i >= 0 {
        checked := checked + 1;
      }
      if i > 0 {
        sumErrors := sumErrors + 1;
      }
    }

    /** What the main loop does with the reply in the buffer and the length that the read returned. */
    method Tally(len: int, buffer: array<Byte>, ghost reply: Reading) returns (ghost o: Outcome)
      requires |reply.taken| < buffer.Length < Nmea.UNBOUNDED
      requires buffer[..|reply.taken|] == reply.taken && buffer[|reply.taken|] == NUL
      requires len == if reply.ended then |reply.taken| else -1
      modifies this`received, this`checked, this`sumErrors, this`timeouts
      ensures OutcomeOf(o, reply, nmea != 0, buffer[..]) && o.text == reply.taken && o.ended == reply.ended
      ensures received == old(received) + if reply.taken != [] && reply.taken[0] != 0x00 then 1 else 0
      ensures timeouts == old(timeouts) + if reply.ended then 0 else 1
      ensures checked == old(checked) + if o.verdict >= 0 then 1 else 0
      ensures sumErrors == old(sumErrors) + if o.verdict > 0 then 1 else 0
    {
      hide Nmea.VerdictOn, CString;
      ghost var text := buffer[..];
      assert text[|reply.taken|] == NUL && text[..|reply.taken|] == reply.taken;
      FirstOfText(text, reply.taken);
      o := Outcome(reply.taken, reply.ended, Judged(reply.taken, text, nmea != 0));
      if |CString(buffer[..])| > 0 {
        received := received + 1;
        if nmea != 0 {
          Check(buffer);
        }
      }
      if len == -1 {
        timeouts := timeouts + 1;
      }
    }
  }

  /**
   A turn takes bytes from the front of what waits and of what arrives while it reads, and leaves the others in order.
   A message that is sent first discards what waited: none of it is taken for the reply.
   */
  lemma {:induction false} TurnTakesInOrder(c: Setup, fires: bool, queue: seq<Byte>, env: Env)
    ensures var waits := if fires && c.send && Message.Sent(c.message, env.strftime) != [] then [] else queue;
            if fires && c.receive && (c.send || queue != []) then
              exists k :: 0 <= k <= |env.ticks|
                          && Gets(c, fires, queue, env) + Leaves(c, fires, queue, env) == waits + Arrivals(env.ticks[..k])
            else
              Gets(c, fires, queue, env) == [] && Leaves(c, fires, queue, env) == waits
  {
    hide Stream, Message.Sent, Arrivals;
    var a := Choice(c, fires, queue);
    if a.rx {
      var left, deadline := Left(c, a.tx, queue, env.strftime), AddTime(env.start, c.timeout);
      var held, unread := if a.tx then [] else queue[..1], if a.tx then left else queue[1..];
      var r := Stream(unread, env.start, deadline, c.eos, env.ticks);
      StreamKeepsOrder(unread, env.start, deadline, c.eos, env.ticks);
      assert held + r.taken + r.unread == held + (r.taken + r.unread);
      assert held + (unread + Arrivals(env.ticks[..r.turns])) == left + Arrivals(env.ticks[..r.turns]);
    }
  }

  /** Consistent counters say exactly what the record did. */
  lemma {:induction false} ConsistentAccounts(r: Query)
    requires r.Consistent()
    ensures r.Accounted()
  {
    var sent, outcomes := if r.send != 0 then r.firings else 0, r.history.outcomes;
    ReceivedCount(sent, outcomes);
    TimeoutCount(sent, outcomes);
    CheckedCount(sent, outcomes);
    ErrorCount(sent, outcomes);
    CountedBy(sent, outcomes);
  }

  /** The read sees the terminator in what it delivers, if it is there: it was not peeked, or another one follows. */
  predicate Foretells(c: Setup, a: Action, queue: seq<Byte>, env: Env)
    requires a.rx && !a.tx ==> queue != []
  {
    a.tx || !a.rx || Signed(queue[0]) != c.eos || Holds(ReplyTo(c, a, queue, env).taken[1..], c.eos)
  }

  /** A read ends by the terminator exactly when it delivers it, unless the only one was peeked. */
  lemma {:induction false} EndsUnlessPeeked(c: Setup, a: Action, queue: seq<Byte>, env: Env)
    requires a.rx && (!a.tx ==> queue != [])
    ensures var r := ReplyTo(c, a, queue, env);
            (r.ended <==> Holds(r.taken, c.eos)) <==> Foretells(c, a, queue, env)
  {
    hide Stream;
    var unread := if a.tx then Left(c, true, queue, env.strftime) else queue[1..];
    var held := if a.tx then [] else queue[..1];
    var deadline := AddTime(env.start, c.timeout);
    var taken := Stream(unread, env.start, deadline, c.eos, env.ticks).taken;
    EndsIff(unread, env.start, deadline, c.eos, env.ticks);
    HoldsEither(held, taken, c.eos);
    if !a.tx {
      assert (held + taken)[1..] == taken;
      assert Holds(held, c.eos) <==> Signed(held[0]) == c.eos;
    }
  }

  /** So a terminator that arrives alone, for a record that does not send, is delivered and counted as a timeout. */
  lemma {:induction false} LoneTerminatorTimesOut(c: Setup, a: Action, terminator: Byte, env: Env)
    requires a.rx && !a.tx && Signed(terminator) == c.eos && Arrivals(env.ticks) == []
    ensures ReplyTo(c, a, [terminator], env).taken == [terminator] && !ReplyTo(c, a, [terminator], env).ended
  {
    hide Stream;
    var deadline := AddTime(env.start, c.timeout);
    var r := Stream([], env.start, deadline, c.eos, env.ticks);
    assert [terminator][1..] == [];
    StreamKeepsOrder([], env.start, deadline, c.eos, env.ticks);
    PrefixArrives(env.ticks, r.turns);
    EndsIff([], env.start, deadline, c.eos, env.ticks);
  }

  /** The timeout count moves exactly when the reply lacks the terminator, if and only if it was not peeked alone. */
  predicate TimeoutIsTrueIff(c: Setup, a: Action, queue: seq<Byte>, env: Env, timeouts: int)
    requires a.rx && !a.tx ==> queue != []
  {
    (timeouts == 0 <==> Holds(ReplyTo(c, a, queue, env).taken, c.eos)) <==> Foretells(c, a, queue, env)
  }

  lemma {:induction false} TimeoutFollows(c: Setup, a: Action, queue: seq<Byte>, env: Env, was: Counters, h: History,
                                          now: Counters, h': History, nmea: bool, buffer: seq<Byte>)
    requires a.rx && (!a.tx ==> queue != [])
    requires Happened(was, h, now, h', a, ReplyTo(c, a, queue, env), nmea, buffer)
    ensures TimeoutIsTrueIff(c, a, queue, env, now.timeouts - was.timeouts)
  {
    EndsUnlessPeeked(c, a, queue, env);
  }

  lemma {:induction false} FirstOfText(buffer: seq<Byte>, out: seq<Byte>)
    requires |out| < |buffer| && buffer[|out|] == NUL && buffer[..|out|] == out
    ensures NUL in buffer && (CString(buffer) != [] <==> out != [] && out[0] != NUL)
  {
    assert out != [] ==> buffer[0] == out[0];
  }

  lemma {:induction false} BufferSplits(buffer: seq<Byte>)
    requires NUL in buffer && |buffer| < Nmea.UNBOUNDED
    ensures |CString(buffer)| < |buffer| && buffer == CString(buffer) + [NUL] + buffer[|CString(buffer)| + 1..]
    ensures Nmea.VerdictOn(buffer) == Nmea.Verdict(CString(buffer), buffer[|CString(buffer)| + 1..])
  {
    CStringMeans(buffer);
  }

  lemma {:induction false} PrefixArrives(ticks: seq<Tick>, k: nat)
    requires k <= |ticks|
    ensures |Arrivals(ticks[..k])| <= |Arrivals(ticks)|
  {
    if k > 0 {
      assert ticks[..k][1..] == ticks[1..][..k - 1];
      PrefixArrives(ticks[1..], k - 1);
    }
  }

  /** Acting costs one of the `-n` messages, and only a record that has one left acts. */
  lemma {:induction false} StepNumber(s: Sched, p: Poll)
    ensures Step(s, p).number == if Fires(s, p) && s.number > 0 then s.number - 1 else s.number
    ensures Fires(s, p) ==> s.number != 0
  {
  }
}
