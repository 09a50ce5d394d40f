/** Conservation of bytes over every interleaving of what the records do with the handle that they share. */
module Conservation {
  import opened Basics
  import opened Serial

  const READ_BUFFER_SIZE: nat := 10000

  /** Where a byte went that is no longer unread: to the port object of a record, or away with a write. */
  datatype Fate = Taken(rec: nat) | Flushed

  datatype Setting = Setting(timeout: TimeT, eos: int)

  /** What can happen to a handle. A write of no bytes does not reach the device. */
  datatype Event =
    | Arrive(bytes: seq<Byte>)
    | Peek(rec: nat)
    | Read(rec: nat, start: TimeT, ticks: seq<Tick>)
    | Write(rec: nat, bytes: seq<Byte>)
    | Break(rec: nat)

  /** All bytes that arrived so far with the fates of those that left the queue, and what each record holds and got. */
  datatype Wire = Wire(arrived: seq<Byte>, fates: seq<Fate>, unread: seq<Byte>, held: seq<seq<Byte>>,
                       delivered: seq<seq<Byte>>)

  function Repeat(f: Fate, n: nat): (s: seq<Fate>)
    ensures |s| == n && forall i :: 0 <= i < n ==> s[i] == f
  {
    seq(n, _ => f)
  }

  predicate Known(w: Wire, settings: seq<Setting>, e: Event) {
    |w.held| == |w.delivered| == |settings| && (e.Arrive? || e.rec < |settings|)
  }

  function ReadingOf(w: Wire, settings: seq<Setting>, e: Event): Reading
    requires e.Read? && Known(w, settings, e)
  {
    Stream(w.unread, e.start, AddTime(e.start, settings[e.rec].timeout), settings[e.rec].eos, e.ticks)
  }

  /** The effect of one event. */
  function Exec(w: Wire, settings: seq<Setting>, e: Event): (r: Wire)
    requires Known(w, settings, e)
    ensures |r.held| == |r.delivered| == |settings|
  {
    match e
    case Arrive(bytes) => w.(arrived := w.arrived + bytes, unread := w.unread + bytes)
    case Peek(rec) =>
      if w.unread == [] then w
      else w.(fates := w.fates + [Taken(rec)], unread := w.unread[1..],
              held := w.held[rec := w.held[rec] + [w.unread[0]]])
    case Read(rec, start, ticks) =>
      var r := ReadingOf(w, settings, e);
      Wire(w.arrived + Arrivals(ticks[..r.turns]), w.fates + Repeat(Taken(rec), |r.taken|), r.unread,
           w.held[rec := []], w.delivered[rec := w.delivered[rec] + w.held[rec] + r.taken])
    case Write(rec, bytes) =>
      if bytes == [] then w else w.(fates := w.fates + Repeat(Flushed, |w.unread|), unread := [])
    case Break(rec) => w
  }

  /** The bytes with the given fate, in the order of their arrival. */
  function Share(bytes: seq<Byte>, fates: seq<Fate>, f: Fate): seq<Byte>
    requires |fates| <= |bytes|
  {
    if fates == [] then []
    else
      var n := |fates| - 1;
      Share(bytes, fates[..n], f) + if fates[n] == f then [bytes[n]] else []
  }

  /**
   The arrived bytes are, in order, those with a fate and those that are unread. The bytes taken for a record are,
   in order, what was delivered to it and what it holds.
   */
  ghost predicate Conserved(w: Wire) {
    && |w.held| == |w.delivered| && |w.fates| <= |w.arrived|
    && w.unread == w.arrived[|w.fates|..]
    && (forall i :: 0 <= i < |w.fates| ==> w.fates[i].Flushed? || w.fates[i].rec < |w.held|)
    && forall rec :: 0 <= rec < |w.held| ==> Share(w.arrived, w.fates, Taken(rec)) == w.delivered[rec] + w.held[rec]
  }

  lemma {:induction false} ShareOfLonger(bytes: seq<Byte>, more: seq<Byte>, fates: seq<Fate>, f: Fate)
    requires |fates| <= |bytes|
    ensures Share(bytes + more, fates, f) == Share(bytes, fates, f)
  {
    if fates != [] {
      ShareOfLonger(bytes, more, fates[..|fates| - 1], f);
    }
  }

  lemma {:induction false} ShareStep(bytes: seq<Byte>, fates: seq<Fate>, g: Fate, f: Fate)
    requires |fates| < |bytes|
    ensures Share(bytes, fates + [g], f) == Share(bytes, fates, f) + if f == g then [bytes[|fates|]] else []
  {
    assert (fates + [g])[..|fates|] == fates;
  }

  /** A stretch of bytes that share one fate. */
  lemma {:induction false} ShareOfStretch(bytes: seq<Byte>, fates: seq<Fate>, g: Fate, n: nat, f: Fate)
    requires |fates| + n <= |bytes|
    ensures Share(bytes, fates + Repeat(g, n), f) ==
            Share(bytes, fates, f) + if f == g then bytes[|fates|..|fates| + n] else []
  {
    hide Share;
    if n == 0 {
      assert fates + Repeat(g, 0) == fates;
    } else {
      ShareOfStretch(bytes, fates, g, n - 1, f);
      var s := fates + Repeat(g, n - 1);
      ShareStep(bytes, s, g, f);
      assert fates + Repeat(g, n) == s + [g];
      assert bytes[|fates|..|fates| + n] == bytes[|fates|..|s|] + [bytes[|s|]];
    }
  }

  lemma {:induction false} ExecConserves(w: Wire, settings: seq<Setting>, e: Event)
    requires Known(w, settings, e) && Conserved(w)
    ensures Conserved(Exec(w, settings, e))
  {
    hide Share, Stream, Conserved;
    match e {
      case Arrive(bytes) => ArriveConserves(w, bytes);
      case Peek(rec) =>
        if w.unread != [] {
          var c := w.unread[0];
          assert w.unread + [] == w.unread && w.arrived + [] == w.arrived && w.unread[..1] == [c];
          assert w.delivered[rec] + (w.held[rec] + [c]) == w.delivered[rec] + w.held[rec] + [c];
          TakeConserves(w, [], rec, 1, w.delivered[rec], w.held[rec] + [c]);
          assert Repeat(Taken(rec), 1) == [Taken(rec)] && w.delivered[rec := w.delivered[rec]] == w.delivered;
        }
      case Read(rec, start, ticks) =>
        var r := ReadingOf(w, settings, e);
        var bytes := Arrivals(ticks[..r.turns]);
        StreamKeepsOrder(w.unread, start, AddTime(start, settings[rec].timeout), settings[rec].eos, ticks);
        assert (w.unread + bytes)[..|r.taken|] == r.taken && (w.unread + bytes)[|r.taken|..] == r.unread;
        var out := w.delivered[rec] + w.held[rec] + r.taken;
        assert out + [] == out;
        TakeConserves(w, bytes, rec, |r.taken|, out, []);
      case Write(rec, bytes) =>
        FlushConserves(w);
      case Break(rec) =>
    }
  }

  lemma {:induction false} FlushConserves(w: Wire)
    requires Conserved(w)
    ensures Conserved(w.(fates := w.fates + Repeat(Flushed, |w.unread|), unread := []))
  {
    forall r | 0 <= r < |w.held|
      ensures Share(w.arrived, w.fates + Repeat(Flushed, |w.unread|), Taken(r)) == w.delivered[r] + w.held[r]
    {
      ShareOfStretch(w.arrived, w.fates, Flushed, |w.unread|, Taken(r));
    }
  }

  lemma {:induction false} ArriveConserves(w: Wire, bytes: seq<Byte>)
    requires Conserved(w)
    ensures Conserved(w.(arrived := w.arrived + bytes, unread := w.unread + bytes))
  {
    forall rec | 0 <= rec < |w.held|
      ensures Share(w.arrived + bytes, w.fates, Taken(rec)) == w.delivered[rec] + w.held[rec]
    {
      ShareOfLonger(w.arrived, bytes, w.fates, Taken(rec));
    }
    assert (w.arrived + bytes)[|w.fates|..] == w.unread + bytes;
  }

  /** After bytes arrived, the first `n` unread ones go to a record, which has them behind what it had. */
  lemma {:induction false} TakeConserves(w: Wire, bytes: seq<Byte>, rec: nat, n: nat, delivered: seq<Byte>,
                                         held: seq<Byte>)
    requires Conserved(w) && rec < |w.held| && n <= |w.unread + bytes|
    requires delivered + held == w.delivered[rec] + w.held[rec] + (w.unread + bytes)[..n]
    ensures Conserved(Wire(w.arrived + bytes, w.fates + Repeat(Taken(rec), n), (w.unread + bytes)[n..],
                           w.held[rec := held], w.delivered[rec := delivered]))
  {
    ArriveConserves(w, bytes);
    var all := w.arrived + bytes;
    forall r | 0 <= r < |w.held|
      ensures Share(all, w.fates + Repeat(Taken(rec), n), Taken(r)) ==
              w.delivered[rec := delivered][r] + w.held[rec := held][r]
    {
      ShareOfStretch(all, w.fates, Taken(rec), n, Taken(r));
      assert all[|w.fates|..|w.fates| + n] == (w.unread + bytes)[..n];
    }
    assert all[|w.fates| + n..] == (w.unread + bytes)[n..];
  }

  // ---------------------------------------------------------------- runs

  ghost predicate AllKnown(events: seq<Event>, n: nat) {
    forall i :: 0 <= i < |events| ==> events[i].Arrive? || events[i].rec < n
  }

  function Run(w: Wire, settings: seq<Setting>, events: seq<Event>): (r: Wire)
    requires |w.held| == |w.delivered| == |settings| && AllKnown(events, |settings|)
    ensures |r.held| == |r.delivered| == |settings|
  {
    if events == [] then w
    else Exec(Run(w, settings, events[..|events| - 1]), settings, events[|events| - 1])
  }

  /** A handle that was just opened by `n` records. */
  function Opened(n: nat): (w: Wire)
    ensures |w.held| == |w.delivered| == n
  {
    Wire([], [], [], seq(n, _ => []), seq(n, _ => []))
  }

  /** Conservation holds after every run of events. */
  lemma {:induction false} RunConserves(settings: seq<Setting>, events: seq<Event>)
    requires AllKnown(events, |settings|)
    ensures Conserved(Run(Opened(|settings|), settings, events))
  {
    if events != [] {
      RunConserves(settings, events[..|events| - 1]);
      ExecConserves(Run(Opened(|settings|), settings, events[..|events| - 1]), settings, events[|events| - 1]);
    }
  }

  /** The arrived bytes whose fate is no delivery, no holding and no flush are the unread ones: none is missing. */
  lemma {:induction false} NothingMissing(w: Wire, i: nat)
    requires Conserved(w) && i < |w.arrived|
    ensures i >= |w.fates| ==> w.arrived[i] == w.unread[i - |w.fates|]
    ensures i < |w.fates| && w.fates[i].Taken? ==> w.arrived[i] in w.delivered[w.fates[i].rec] + w.held[w.fates[i].rec]
  {
    if i < |w.fates| && w.fates[i].Taken? {
      InShare(w.arrived, w.fates, i);
    }
  }

  lemma {:induction false} InShare(bytes: seq<Byte>, fates: seq<Fate>, i: nat)
    requires |fates| <= |bytes| && i < |fates|
    ensures bytes[i] in Share(bytes, fates, fates[i])
  {
    if i < |fates| - 1 {
      InShare(bytes, fates[..|fates| - 1], i);
    }
  }

  /** No event of the run sends anything. */
  ghost predicate Unwritten(events: seq<Event>) {
    forall i :: 0 <= i < |events| && events[i].Write? ==> events[i].bytes == []
  }

  /** Every byte that left the queue was taken for one of `n` records. */
  predicate AllTaken(fates: seq<Fate>, n: nat) {
    forall i :: 0 <= i < |fates| ==> fates[i].Taken? && fates[i].rec < n
  }

  lemma {:induction false} OneEventFlushes(w: Wire, settings: seq<Setting>, e: Event)
    requires Known(w, settings, e) && (e.Write? ==> e.bytes == [])
    requires AllTaken(w.fates, |settings|)
    ensures AllTaken(Exec(w, settings, e).fates, |settings|)
  {
    hide Stream;
  }

  /** Only a write makes bytes disappear. */
  lemma {:induction false} OnlyWritesFlush(settings: seq<Setting>, events: seq<Event>)
    requires AllKnown(events, |settings|) && Unwritten(events)
    ensures AllTaken(Run(Opened(|settings|), settings, events).fates, |settings|)
  {
    if events != [] {
      var e := events[|events| - 1];
      OnlyWritesFlush(settings, events[..|events| - 1]);
      assert e in events;
      OneEventFlushes(Run(Opened(|settings|), settings, events[..|events| - 1]), settings, e);
    }
  }

  lemma {:induction false} SoleShare(bytes: seq<Byte>, fates: seq<Fate>, f: Fate)
    requires |fates| <= |bytes| && forall i :: 0 <= i < |fates| ==> fates[i] == f
    ensures Share(bytes, fates, f) == bytes[..|fates|]
  {
    if fates != [] {
      SoleShare(bytes, fates[..|fates| - 1], f);
    }
  }

  /** A record that has the handle for itself and sends nothing gets, in order, all bytes that arrive. */
  lemma {:induction false} SoleReaderGetsAll(setting: Setting, events: seq<Event>)
    requires AllKnown(events, 1) && Unwritten(events)
    ensures var w := Run(Opened(1), [setting], events); w.delivered[0] + w.held[0] + w.unread == w.arrived
  {
    hide Run;
    assert |[setting]| == 1;
    var w := Run(Opened(1), [setting], events);
    RunConserves([setting], events);
    OnlyWritesFlush([setting], events);
    assert AllTaken(w.fates, 1);
    SoleShare(w.arrived, w.fates, Taken(0));
  }

  // ---------------------------------------------------------------- the objects follow the wire

  /** Port objects on one handle, each with its own buffer. */
  ghost predicate Sharing(ports: seq<SerialPort>, handle: Handle)
    reads set i | 0 <= i < |ports| :: ports[i]
  {
    && (forall i :: 0 <= i < |ports| ==> ports[i].Valid() && ports[i].handle == handle)
    && (forall i, j :: 0 <= i < j < |ports| ==> ports[i] != ports[j] && ports[i].tempBuffer != ports[j].tempBuffer)
  }

  /** The state of the objects is that of the wire. */
  ghost predicate Follows(ports: seq<SerialPort>, handle: Handle, w: Wire, settings: seq<Setting>)
    reads handle, set i | 0 <= i < |ports| :: ports[i], set i | 0 <= i < |ports| :: ports[i].tempBuffer
    requires Sharing(ports, handle)
  {
    && |ports| == |w.held| == |w.delivered| == |settings| && handle.pending == w.unread
    && forall i :: 0 <= i < |ports| ==>
         && ports[i].Held() == w.held[i]
         && settings[i] == Setting(ports[i].timeout, ports[i].eosMode)
  }

  /** The buffers have room for the event, and the clock of a read gets past its deadline. */
  predicate Fits(w: Wire, settings: seq<Setting>, e: Event)
    requires Known(w, settings, e)
  {
    match e
    case Peek(rec) => |w.held[rec]| < TEMP_SIZE
    case Read(rec, start, ticks) =>
      && Expires(start, AddTime(start, settings[rec].timeout), ticks)
      && |w.held[rec]| + |ReadingOf(w, settings, e).taken| <= READ_BUFFER_SIZE
    case _ => true
  }

  /** A peek on the objects. */
  method DoPeek(ghost ports: seq<SerialPort>, port: SerialPort, handle: Handle, ghost w: Wire,
                ghost settings: seq<Setting>, ghost rec: nat)
    requires Sharing(ports, handle) && Follows(ports, handle, w, settings)
    requires rec < |ports| && ports[rec] == port
    requires Known(w, settings, Peek(rec)) && Fits(w, settings, Peek(rec))
    modifies handle`pending, port`rxdChars, port.tempBuffer
    ensures Sharing(ports, handle) && Follows(ports, handle, Exec(w, settings, Peek(rec)), settings)
  {
    var n := port.DataAvailable();
  }

  /** A read on the objects. What it delivers stands in the buffer, as a C string. */
  method DoRead(ghost ports: seq<SerialPort>, port: SerialPort, handle: Handle, buffer: array<Byte>, ghost w: Wire,
                ghost settings: seq<Setting>, ghost rec: nat, start: TimeT, ticks: seq<Tick>)
      returns (ghost got: seq<Byte>)
    requires Sharing(ports, handle) && Follows(ports, handle, w, settings)
    requires rec < |ports| && ports[rec] == port
    requires Known(w, settings, Read(rec, start, ticks)) && Fits(w, settings, Read(rec, start, ticks))
    requires buffer.Length == READ_BUFFER_SIZE + 1 && forall i :: 0 <= i < |ports| ==> ports[i].tempBuffer != buffer
    modifies handle`pending, buffer, port`rxdChars
    ensures Sharing(ports, handle) && Follows(ports, handle, Exec(w, settings, Read(rec, start, ticks)), settings)
    ensures Exec(w, settings, Read(rec, start, ticks)).delivered == w.delivered[rec := w.delivered[rec] + got]
    ensures |got| < buffer.Length && buffer[..|got|] == got && buffer[|got|] == NUL
  {
    hide Stream, Expires, Holds;
    ghost var r := ReadingOf(w, settings, Read(rec, start, ticks));
    got := w.held[rec] + r.taken;
    var ret := port.PortRead(buffer, start, ticks);
    assert w.delivered[rec] + w.held[rec] + r.taken == w.delivered[rec] + got;
  }

  /** One event on the objects. What a read delivers stands in the buffer, as a C string. */
  method Do(ports: seq<SerialPort>, handle: Handle, buffer: array<Byte>, ghost w: Wire, ghost settings: seq<Setting>,
            e: Event)
      returns (ghost got: seq<Byte>)
    requires Sharing(ports, handle) && Follows(ports, handle, w, settings)
    requires Known(w, settings, e) && Fits(w, settings, e)
    requires buffer.Length == READ_BUFFER_SIZE + 1 && forall i :: 0 <= i < |ports| ==> ports[i].tempBuffer != buffer
    modifies handle, buffer, set i | 0 <= i < |ports| :: ports[i]`rxdChars,
             set i | 0 <= i < |ports| :: ports[i].tempBuffer
    ensures Sharing(ports, handle) && Follows(ports, handle, Exec(w, settings, e), settings)
    ensures e.Read? ==>
              && Exec(w, settings, e).delivered == w.delivered[e.rec := w.delivered[e.rec] + got]
              && |got| < buffer.Length && buffer[..|got|] == got && buffer[|got|] == NUL
    ensures !e.Read? ==> Exec(w, settings, e).delivered == w.delivered
  {
    hide Stream, Expires;
    got := [];
    match e {
      case Arrive(bytes) =>
        handle.Arrive(bytes);
      case Peek(rec) =>
        DoPeek(ports, ports[rec], handle, w, settings, rec);
      case Read(rec, start, ticks) =>
        got := DoRead(ports, ports[rec], handle, buffer, w, settings, rec, start, ticks);
      case Write(rec, bytes) =>
        ports[rec].PortWrite(bytes);
      case Break(rec) =>
        ports[rec].Clear();
    }
  }

  /** Every event of the run finds room. */
  ghost predicate AllFit(w: Wire, settings: seq<Setting>, events: seq<Event>)
    requires |w.held| == |w.delivered| == |settings| && AllKnown(events, |settings|)
  {
    forall k :: 0 <= k < |events| ==> Fits(Run(w, settings, events[..k]), settings, events[k])
  }

  /** Every interleaving of events on port objects that were just opened on one handle conserves the bytes. */
  method Replay(ports: seq<SerialPort>, handle: Handle, buffer: array<Byte>, ghost settings: seq<Setting>,
                events: seq<Event>)
    requires Sharing(ports, handle) && Follows(ports, handle, Opened(|ports|), settings)
    requires AllKnown(events, |settings|) && AllFit(Opened(|settings|), settings, events)
    requires buffer.Length == READ_BUFFER_SIZE + 1 && forall i :: 0 <= i < |ports| ==> ports[i].tempBuffer != buffer
    modifies handle, buffer, set i | 0 <= i < |ports| :: ports[i]`rxdChars,
             set i | 0 <= i < |ports| :: ports[i].tempBuffer
    ensures Sharing(ports, handle)
    ensures var w := Run(Opened(|settings|), settings, events);
            Follows(ports, handle, w, settings) && Conserved(w)
  {
    hide Fits, Exec, Conserved;
    ghost var w := Opened(|settings|);
    var k := 0;
    while k < |events|
      invariant 0 <= k <= |events| && Sharing(ports, handle)
      invariant |w.held| == |w.delivered| == |settings| && w == Run(Opened(|settings|), settings, events[..k])
      invariant Follows(ports, handle, w, settings)
    {
      assert events[..k + 1][..k] == events[..k];
      ghost var got := Do(ports, handle, buffer, w, settings, events[k]);
      w := Exec(w, settings, events[k]);
      k := k + 1;
    }
    assert events[..k] == events;
    RunConserves(settings, events);
  }
}
