/** The bytes on the handles while records take their turns: every turn is a stretch of events on the wire of its handle. */
module Traffic {
  import opened Basics
  import opened Serial
  import opened Query
  import opened Conservation
  import Message

  /** The records with the places of their handles, and everything that happened on each handle since it was opened. */
  datatype Lines = Lines(setups: seq<Setup>, places: seq<nat>, logs: seq<seq<Event>>)

  function SettingsOf(setups: seq<Setup>): (s: seq<Setting>)
    ensures |s| == |setups|
  {
    seq(|setups|, i requires 0 <= i < |setups| => Setting(setups[i].timeout, setups[i].eos))
  }

  ghost predicate WellFormed(t: Lines) {
    && |t.setups| == |t.places| && (forall i :: 0 <= i < |t.places| ==> t.places[i] < |t.logs|)
    && forall h :: 0 <= h < |t.logs| ==> AllKnown(t.logs[h], |t.setups|)
  }

  /** The state of one handle. */
  ghost function WireOf(t: Lines, h: nat): (w: Wire)
    requires WellFormed(t) && h < |t.logs|
    ensures |w.held| == |w.delivered| == |t.setups|
  {
    Run(Opened(|t.setups|), SettingsOf(t.setups), t.logs[h])
  }

  /** No record holds a byte back. */
  ghost predicate NothingHeld(t: Lines)
    requires WellFormed(t)
  {
    forall h, i :: 0 <= h < |t.logs| && 0 <= i < |t.setups| ==> WireOf(t, h).held[i] == []
  }

  /** A stretch of at most one event. */
  function Maybe(happens: bool, e: Event): seq<Event> {
    if happens then [e] else []
  }

  /** What a turn does on the wire, when `queue` waits: the bytes before, the peek, the break, the message, the read. */
  function TurnEvents(c: Setup, rec: nat, fires: bool, unread: seq<Byte>, env: Env): seq<Event> {
    var a := Choice(c, fires, unread + env.before);
    Maybe(true, Arrive(env.before))
    + Maybe(fires && c.receive && !c.send, Peek(rec))
    + Maybe(a.clear, Break(rec))
    + Maybe(a.tx, Write(rec, Message.Sent(c.message, env.strftime)))
    + Maybe(a.rx, Read(rec, env.start, env.ticks))
  }

  /** What waits for record `i` when its turn comes. */
  ghost function QueueOf(t: Lines, i: nat, env: Env): seq<Byte>
    requires WellFormed(t) && i < |t.setups|
  {
    WireOf(t, t.places[i]).unread + env.before
  }

  /** The bytes that the events of a log write. */
  function WrittenBy(log: seq<Event>): seq<Byte> {
    if log == [] then []
    else
      var e := log[|log| - 1];
      WrittenBy(log[..|log| - 1]) + if e.Write? then e.bytes else []
  }

  lemma {:induction false} WrittenNext(a: seq<Event>, e: Event)
    ensures WrittenBy(a + [e]) == WrittenBy(a) + if e.Write? then e.bytes else []
  {
    assert (a + [e])[..|a|] == a;
  }

  lemma {:induction false} Regroup<T>(a: seq<T>, b: seq<T>, c: seq<T>)
    ensures a + b + c == a + (b + c)
  {
  }

  lemma {:induction false} WrittenTogether(a: seq<Event>, b: seq<Event>)
    ensures WrittenBy(a + b) == WrittenBy(a) + WrittenBy(b)
  {
    hide WrittenBy;
    if b == [] {
      assert a + b == a;
      WrittenNone();
    } else {
      var c, e := b[..|b| - 1], b[|b| - 1];
      assert b == c + [e];
      WrittenTogether(a, c);
      WrittenNext(a + c, e);
      WrittenNext(c, e);
      Regroup(a, c, [e]);
      Regroup(WrittenBy(a), WrittenBy(c), if e.Write? then e.bytes else []);
    }
  }

  lemma {:induction false} WrittenNone()
    ensures WrittenBy([]) == []
  {
  }

  /** How many breaks the events of a log send. */
  function BreaksIn(log: seq<Event>): nat {
    if log == [] then 0 else BreaksIn(log[..|log| - 1]) + if log[|log| - 1].Break? then 1 else 0
  }

  lemma {:induction false} BreaksTogether(a: seq<Event>, b: seq<Event>)
    ensures BreaksIn(a + b) == BreaksIn(a) + BreaksIn(b)
  {
    if b == [] {
      assert a + b == a;
    } else {
      assert (a + b)[..|a + b| - 1] == a + b[..|b| - 1];
      BreaksTogether(a, b[..|b| - 1]);
    }
  }

  lemma {:induction false} RunTogether(w: Wire, settings: seq<Setting>, a: seq<Event>, b: seq<Event>)
    requires |w.held| == |w.delivered| == |settings| && AllKnown(a, |settings|) && AllKnown(b, |settings|)
    ensures AllKnown(a + b, |settings|) && Run(w, settings, a + b) == Run(Run(w, settings, a), settings, b)
  {
    hide Exec;
    if b == [] {
      assert a + b == a;
    } else {
      assert (a + b)[..|a + b| - 1] == a + b[..|b| - 1];
      RunTogether(w, settings, a, b[..|b| - 1]);
    }
  }

  lemma {:induction false} RunMaybe(w: Wire, settings: seq<Setting>, happens: bool, e: Event)
    requires Known(w, settings, e)
    ensures AllKnown(Maybe(happens, e), |settings|)
    ensures Run(w, settings, Maybe(happens, e)) == if happens then Exec(w, settings, e) else w
    ensures WrittenBy(Maybe(happens, e)) == if happens && e.Write? then e.bytes else []
    ensures BreaksIn(Maybe(happens, e)) == if happens && e.Break? then 1 else 0
  {
    hide Exec;
    assert [e][..0] == [];
  }

  /** The wire after the events of a turn, one after the other. */
  function Turned(w: Wire, settings: seq<Setting>, c: Setup, rec: nat, fires: bool, env: Env): (r: Wire)
    requires |w.held| == |w.delivered| == |settings| && rec < |settings|
    ensures |r.held| == |r.delivered| == |settings|
  {
    var a := Choice(c, fires, w.unread + env.before);
    var w1 := Exec(w, settings, Arrive(env.before));
    var w2 := if fires && c.receive && !c.send then Exec(w1, settings, Peek(rec)) else w1;
    var w3 := if a.clear then Exec(w2, settings, Break(rec)) else w2;
    var w4 := if a.tx then Exec(w3, settings, Write(rec, Message.Sent(c.message, env.strftime))) else w3;
    if a.rx then Exec(w4, settings, Read(rec, env.start, env.ticks)) else w4
  }

  lemma {:induction false} RunsTurn(w: Wire, settings: seq<Setting>, c: Setup, rec: nat, fires: bool, env: Env)
    requires |w.held| == |w.delivered| == |settings| && rec < |settings|
    ensures var events := TurnEvents(c, rec, fires, w.unread, env);
            && AllKnown(events, |settings|) && Run(w, settings, events) == Turned(w, settings, c, rec, fires, env)
            && WrittenBy(events) == (if fires && c.send then Message.Sent(c.message, env.strftime) else [])
            && BreaksIn(events) == if fires && c.clear then 1 else 0
  {
    hide Exec, Run, Message.Sent, WrittenBy, BreaksIn;
    var a := Choice(c, fires, w.unread + env.before);
    var peeks := fires && c.receive && !c.send;
    var e1, e2, e3 := Maybe(true, Arrive(env.before)), Maybe(peeks, Peek(rec)), Maybe(a.clear, Break(rec));
    var e4 := Maybe(a.tx, Write(rec, Message.Sent(c.message, env.strftime)));
    var e5 := Maybe(a.rx, Read(rec, env.start, env.ticks));
    RunMaybe(w, settings, true, Arrive(env.before));
    var w1 := Exec(w, settings, Arrive(env.before));
    RunMaybe(w1, settings, peeks, Peek(rec));
    var w2 := if peeks then Exec(w1, settings, Peek(rec)) else w1;
    RunMaybe(w2, settings, a.clear, Break(rec));
    var w3 := if a.clear then Exec(w2, settings, Break(rec)) else w2;
    RunMaybe(w3, settings, a.tx, Write(rec, Message.Sent(c.message, env.strftime)));
    var w4 := if a.tx then Exec(w3, settings, Write(rec, Message.Sent(c.message, env.strftime))) else w3;
    RunMaybe(w4, settings, a.rx, Read(rec, env.start, env.ticks));
    Together(w, settings, e1, e2);
    Together(w, settings, e1 + e2, e3);
    Together(w, settings, e1 + e2 + e3, e4);
    Together(w, settings, e1 + e2 + e3 + e4, e5);
  }

  lemma {:induction false} Together(w: Wire, settings: seq<Setting>, a: seq<Event>, b: seq<Event>)
    requires |w.held| == |w.delivered| == |settings| && AllKnown(a, |settings|) && AllKnown(b, |settings|)
    ensures AllKnown(a + b, |settings|) && Run(w, settings, a + b) == Run(Run(w, settings, a), settings, b)
    ensures WrittenBy(a + b) == WrittenBy(a) + WrittenBy(b) && BreaksIn(a + b) == BreaksIn(a) + BreaksIn(b)
  {
    RunTogether(w, settings, a, b);
    WrittenTogether(a, b);
    BreaksTogether(a, b);
  }

  /** Record `i` has had its turn. */
  ghost function Served(t: Lines, i: nat, fires: bool, env: Env): (s: Lines)
    requires WellFormed(t) && i < |t.setups|
    ensures WellFormed(s) && s.setups == t.setups && s.places == t.places && |s.logs| == |t.logs|
  {
    var h := t.places[i];
    RunsTurn(WireOf(t, h), SettingsOf(t.setups), t.setups[i], i, fires, env);
    t.(logs := t.logs[h := t.logs[h] + TurnEvents(t.setups[i], i, fires, WireOf(t, h).unread, env)])
  }

  /** A turn leaves on the wire what the record leaves unread, and delivers its reply to it alone. */
  lemma {:induction false} TurnOnWire(w: Wire, settings: seq<Setting>, c: Setup, rec: nat, fires: bool, env: Env)
    requires |w.held| == |w.delivered| == |settings| && rec < |settings|
    requires settings[rec] == Setting(c.timeout, c.eos) && w.held[rec] == []
    ensures var r := Turned(w, settings, c, rec, fires, env);
            var queue := w.unread + env.before;
            && r.unread == Leaves(c, fires, queue, env) && r.held == w.held
            && r.delivered == w.delivered[rec := w.delivered[rec] + Gets(c, fires, queue, env)]
  {
    hide Stream, Message.Sent;
    var r := Turned(w, settings, c, rec, fires, env);
    var queue := w.unread + env.before;
    var a := Choice(c, fires, queue);
    var d := w.delivered[rec];
    if a.rx {
      var held, unread := if a.tx then [] else queue[..1], if a.tx then Left(c, true, queue, env.strftime) else queue[1..];
      var taken := Stream(unread, env.start, AddTime(env.start, c.timeout), c.eos, env.ticks).taken;
      assert a.tx || w.held[rec] + [queue[0]] == held;
      assert d + held + taken == d + (held + taken);
    }
    assert r.held == w.held;
    assert d + [] == d && w.delivered[rec := d] == w.delivered;
  }

  /** What waits on a handle after a turn: only the record's own handle changes, and still nothing is held back. */
  lemma {:induction false} ServedLines(t: Lines, i: nat, fires: bool, env: Env)
    requires WellFormed(t) && NothingHeld(t) && i < |t.setups|
    ensures var s, queue, c := Served(t, i, fires, env), QueueOf(t, i, env), t.setups[i];
            && WellFormed(s) && NothingHeld(s) && s.setups == t.setups && s.places == t.places && |s.logs| == |t.logs|
            && (forall h :: 0 <= h < |t.logs| && h != t.places[i] ==> s.logs[h] == t.logs[h])
            && WireOf(s, t.places[i]).unread == Leaves(c, fires, queue, env)
            && WireOf(s, t.places[i]).delivered == WireOf(t, t.places[i]).delivered[i :=
                 WireOf(t, t.places[i]).delivered[i] + Gets(c, fires, queue, env)]
            && WrittenBy(s.logs[t.places[i]]) == WrittenBy(t.logs[t.places[i]])
               + (if fires && c.send then Message.Sent(c.message, env.strftime) else [])
            && BreaksIn(s.logs[t.places[i]]) == BreaksIn(t.logs[t.places[i]]) + if fires && c.clear then 1 else 0
  {
    hide Run, TurnEvents, Turned, Leaves, Gets, Choice, Message.Sent, WrittenBy, BreaksIn;
    var s, h, settings := Served(t, i, fires, env), t.places[i], SettingsOf(t.setups);
    var events := TurnEvents(t.setups[i], i, fires, WireOf(t, h).unread, env);
    RunsTurn(WireOf(t, h), settings, t.setups[i], i, fires, env);
    TurnOnWire(WireOf(t, h), settings, t.setups[i], i, fires, env);
    Together(Opened(|t.setups|), settings, t.logs[h], events);
    assert WireOf(s, h).held == WireOf(t, h).held;
    forall k, j | 0 <= k < |s.logs| && 0 <= j < |s.setups| ensures WireOf(s, k).held[j] == [] {
      assert WireOf(t, k).held[j] == [];
      assert k != h ==> WireOf(s, k) == WireOf(t, k);
    }
  }

  // ---------------------------------------------------------------- passes

  /** The first `k` records of a pass have had their turns. */
  ghost function ServedPass(t: Lines, fires: seq<bool>, envs: seq<Env>, k: nat): (s: Lines)
    requires WellFormed(t) && k <= |fires| == |envs| == |t.setups|
    ensures WellFormed(s) && s.setups == t.setups && s.places == t.places && |s.logs| == |t.logs|
  {
    if k == 0 then t else Served(ServedPass(t, fires, envs, k - 1), k - 1, fires[k - 1], envs[k - 1])
  }

  /** Every reply of the pass fits into a read buffer of this size, and the reads find their deadlines. */
  ghost predicate PassFits(t: Lines, fires: seq<bool>, envs: seq<Env>, size: nat)
    requires WellFormed(t) && |fires| == |envs| == |t.setups|
  {
    forall i :: 0 <= i < |envs| ==>
      ReplyFits(t.setups[i], fires[i], QueueOf(ServedPass(t, fires, envs, i), i, envs[i]), envs[i], size)
  }

  lemma {:induction false} ServedNone(t: Lines, fires: seq<bool>, envs: seq<Env>)
    requires WellFormed(t) && |fires| == |envs| == |t.setups|
    ensures ServedPass(t, fires, envs, 0) == t
  {
  }

  lemma {:induction false} ServedNext(t: Lines, fires: seq<bool>, envs: seq<Env>, i: nat, size: nat)
    requires WellFormed(t) && |fires| == |envs| == |t.setups| && i < |envs| && PassFits(t, fires, envs, size)
    ensures var s := ServedPass(t, fires, envs, i);
            && WellFormed(s) && s.setups == t.setups && |s.places| == |s.setups| && s.places[i] < |s.logs|
            && ReplyFits(s.setups[i], fires[i], QueueOf(s, i, envs[i]), envs[i], size)
            && ServedPass(t, fires, envs, i + 1) == Served(s, i, fires[i], envs[i])
  {
    hide ReplyFits, QueueOf, Served;
  }

  ghost predicate AllConserved(t: Lines)
    requires WellFormed(t)
  {
    forall h :: 0 <= h < |t.logs| ==> Conserved(WireOf(t, h))
  }

  /** On every handle, at every moment, no byte is lost, duplicated or moved. */
  lemma {:induction false} LinesConserve(t: Lines, h: nat)
    requires WellFormed(t) && h < |t.logs|
    ensures Conserved(WireOf(t, h))
  {
    RunConserves(SettingsOf(t.setups), t.logs[h]);
  }
}
