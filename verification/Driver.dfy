/** The main loop: service requests, one pass over the records with one clock sample, and the test whether to go on. */
module Driver {
  import opened Basics
  import opened Schedule
  import opened Serial
  import opened Query
  import opened Traffic
  import Conservation
  import Message

  // ---------------------------------------------------------------- service requests

  /** What the service-request phase depends on: device and option `-u` of every record. */
  datatype Station = Station(device: string, srq: bool)

  /** Record `i` answers for the device of record `j`. */
  predicate Answers(stations: seq<Station>, answers: seq<int>, i: nat, j: nat)
    requires i < |stations| == |answers| && j < |stations|
  {
    stations[i].srq && stations[i].device == stations[j].device && answers[i] != 0
  }

  /** One of the first `r` records answers for the device of record `j`. */
  predicate Answered(stations: seq<Station>, answers: seq<int>, r: nat, j: nat)
    requires r <= |stations| == |answers| && j < |stations|
  {
    exists i :: 0 <= i < r && Answers(stations, answers, i, j)
  }

  lemma {:induction false} AnsweredStep(stations: seq<Station>, answers: seq<int>, r: nat, j: nat)
    requires r < |stations| == |answers| && j < |stations|
    ensures Answered(stations, answers, r + 1, j) <==> Answered(stations, answers, r, j) || Answers(stations, answers, r, j)
  {
  }

  /** A record has a request exactly when it waits for one and its device answers to any record that waits for one. */
  predicate Requested(stations: seq<Station>, answers: seq<int>, j: nat)
    requires j < |stations| == |answers|
  {
    stations[j].srq && Answered(stations, answers, |stations|, j)
  }

  /** `portService` is called for a record exactly when no earlier record of its device has answered. */
  predicate Polled(stations: seq<Station>, answers: seq<int>, j: nat)
    requires j < |stations| == |answers|
  {
    stations[j].srq && !Answered(stations, answers, j, j)
  }

  ghost predicate Distinct(q: seq<Query>) {
    forall i, j :: 0 <= i < j < |q| ==> q[i] != q[j]
  }

  /** `stations` describes the records. */
  ghost predicate Describes(stations: seq<Station>, q: seq<Query>)
    reads q
  {
    |stations| == |q| && forall i :: 0 <= i < |q| ==> stations[i] == Station(q[i].device.deviceString, q[i].srq != 0)
  }

  /** The first `r` records have had their turn. */
  ghost predicate Raised(q: seq<Query>, stations: seq<Station>, answers: seq<int>, r: nat)
    requires r <= |stations| == |answers| == |q|
    reads q
  {
    forall j :: 0 <= j < |q| ==> (q[j].srqReq != 0 <==> stations[j].srq && Answered(stations, answers, r, j))
  }

  method ClearRequests(q: seq<Query>)
    requires Distinct(q)
    modifies set i | 0 <= i < |q| :: q[i]`srqReq
    ensures forall j :: 0 <= j < |q| ==> q[j].srqReq == 0
  {
    for record := 0 to |q|
      invariant forall j :: 0 <= j < record ==> q[j].srqReq == 0
    {
      q[record].srqReq := 0;
    }
  }

  /** All records on the device of `record` that wait for a service get the request. */
  method Broadcast(q: seq<Query>, record: nat)
    requires Distinct(q) && record < |q|
    modifies set i | 0 <= i < |q| :: q[i]`srqReq
    ensures forall k :: 0 <= k < |q| ==>
      q[k].srqReq == if q[k].device.deviceString == q[record].device.deviceString && q[k].srq != 0
                     then 1 else old(q[k].srqReq)
  {
    for j := 0 to |q|
      invariant forall k :: 0 <= k < j ==>
        q[k].srqReq == if q[k].device.deviceString == q[record].device.deviceString && q[k].srq != 0
                       then 1 else old(q[k].srqReq)
      invariant forall k :: j <= k < |q| ==> q[k].srqReq == old(q[k].srqReq)
    {
      if q[j].device.deviceString == q[record].device.deviceString && q[j].srq != 0 {
        q[j].srqReq := 1;
      }
    }
  }

  /** The turn of one record in the service-request phase. */
  method Ask(q: seq<Query>, answers: seq<int>, record: nat, ghost stations: seq<Station>) returns (asked: bool)
    requires |answers| == |q| && Distinct(q) && Describes(stations, q) && record < |q|
    requires Raised(q, stations, answers, record)
    modifies set i | 0 <= i < |q| :: q[i]`srqReq
    ensures Describes(stations, q) && Raised(q, stations, answers, record + 1)
    ensures asked <==> Polled(stations, answers, record)
  {
    hide Answered;
    asked := false;
    forall j | 0 <= j < |q|
      ensures Answered(stations, answers, record + 1, j) <==>
              Answered(stations, answers, record, j) || Answers(stations, answers, record, j)
    {
      AnsweredStep(stations, answers, record, j);
    }
    if q[record].srq != 0 {
      if q[record].srqReq == 0 {
        asked := true;
        q[record].srqReq := answers[record];
        if q[record].srqReq != 0 {
          Broadcast(q, record);
        }
      } else {
        SameGroup(stations, answers, record);
      }
    }
  }

  /** Once a device has answered, another answer of it changes nothing. */
  lemma {:induction false} SameGroup(stations: seq<Station>, answers: seq<int>, record: nat)
    requires record < |stations| == |answers| && Answered(stations, answers, record, record)
    ensures forall j :: 0 <= j < |stations| && Answers(stations, answers, record, j) ==> Answered(stations, answers, record, j)
  {
    var i :| 0 <= i < record && Answers(stations, answers, i, record);
    assert forall j :: 0 <= j < |stations| && Answers(stations, answers, record, j) ==> Answers(stations, answers, i, j);
  }

  /** `asked` lists, in order, the records before `r` that are polled. */
  ghost predicate Lists(asked: seq<nat>, stations: seq<Station>, answers: seq<int>, r: nat)
    requires r <= |stations| == |answers|
  {
    && (forall k :: 0 <= k < |asked| ==> asked[k] < r && Polled(stations, answers, asked[k]))
    && (forall j: nat :: j < r && Polled(stations, answers, j) ==> j in asked)
    && (forall k, l :: 0 <= k < l < |asked| ==> asked[k] < asked[l])
  }

  lemma {:induction false} ListsStep(asked: seq<nat>, stations: seq<Station>, answers: seq<int>, r: nat)
    requires r < |stations| == |answers| && Lists(asked, stations, answers, r)
    ensures Lists(if Polled(stations, answers, r) then asked + [r] else asked, stations, answers, r + 1)
  {
    hide Polled;
    var more := asked + [r];
    assert forall j :: j in asked ==> j in more;
    assert more[|asked|] == r;
  }

  /**
   The service-request phase. `answers` holds what `portService` returns for each record when it is called; `asked`
   lists the records for which it was.
   */
  method ServiceRequests(q: seq<Query>, answers: seq<int>, ghost stations: seq<Station>) returns (asked: seq<nat>)
    requires |answers| == |q| && Distinct(q) && Describes(stations, q)
    modifies set i | 0 <= i < |q| :: q[i]`srqReq
    ensures Describes(stations, q)
    ensures forall j :: 0 <= j < |q| ==> (q[j].srqReq != 0 <==> Requested(stations, answers, j))
    ensures Lists(asked, stations, answers, |q|)
    ensures forall j :: 0 <= j < |q| ==>
              (q[j].srqReq != 0 <==>
               q[j].srq != 0 && exists i :: 0 <= i < |q| && q[i].srq != 0 && answers[i] != 0
                                            && q[i].device.deviceString == q[j].device.deviceString)
    ensures forall j :: j in asked <==>
              0 <= j < |q| && q[j].srq != 0 && !exists i :: 0 <= i < j && q[i].srq != 0 && answers[i] != 0
                                                            && q[i].device.deviceString == q[j].device.deviceString
    ensures forall k, l :: 0 <= k < l < |asked| ==> asked[k] < asked[l]
  {
    hide Polled, Lists, Raised;
    ClearRequests(q);
    RaisedByNone(q, stations, answers);
    asked := [];
    ListsNone(stations, answers);
    for record := 0 to |q|
      invariant Describes(stations, q) && Raised(q, stations, answers, record)
      invariant Lists(asked, stations, answers, record)
    {
      ListsStep(asked, stations, answers, record);
      var a := Ask(q, answers, record, stations);
      if a {
        asked := asked + [record];
      }
    }
    RaisedByAll(q, stations, answers);
    RequestedIs(q, answers, stations);
    ListedIs(q, answers, stations, asked);
  }

  lemma {:induction false} RequestedIs(q: seq<Query>, answers: seq<int>, stations: seq<Station>)
    requires |answers| == |q| && Describes(stations, q)
    ensures forall j :: 0 <= j < |q| ==>
              (Requested(stations, answers, j) <==>
               q[j].srq != 0 && exists i :: 0 <= i < |q| && q[i].srq != 0 && answers[i] != 0
                                            && q[i].device.deviceString == q[j].device.deviceString)
  {
    forall j | 0 <= j < |q| && q[j].srq != 0
      ensures Requested(stations, answers, j) <==>
              exists i :: 0 <= i < |q| && q[i].srq != 0 && answers[i] != 0
                          && q[i].device.deviceString == q[j].device.deviceString
    {
      AnsweredIs(q, answers, stations, |q|, j);
    }
  }

  lemma {:induction false} AnsweredIs(q: seq<Query>, answers: seq<int>, stations: seq<Station>, r: nat, j: nat)
    requires |answers| == |q| && Describes(stations, q) && r <= |q| && j < |q|
    ensures Answered(stations, answers, r, j) <==>
            exists i :: 0 <= i < r && q[i].srq != 0 && answers[i] != 0
                        && q[i].device.deviceString == q[j].device.deviceString
  {
    assert stations[j].device == q[j].device.deviceString;
    if Answered(stations, answers, r, j) {
      var i :| 0 <= i < r && Answers(stations, answers, i, j);
      assert q[i].srq != 0 && q[i].device.deviceString == q[j].device.deviceString;
    }
    if i :| 0 <= i < r && q[i].srq != 0 && answers[i] != 0 && q[i].device.deviceString == q[j].device.deviceString {
      assert stations[i] == Station(q[i].device.deviceString, true);
      assert Answers(stations, answers, i, j);
    }
  }

  lemma {:induction false} ListedIs(q: seq<Query>, answers: seq<int>, stations: seq<Station>, asked: seq<nat>)
    requires |answers| == |q| && Describes(stations, q) && Lists(asked, stations, answers, |q|)
    ensures forall j :: j in asked <==>
              0 <= j < |q| && q[j].srq != 0 && !exists i :: 0 <= i < j && q[i].srq != 0 && answers[i] != 0
                                                            && q[i].device.deviceString == q[j].device.deviceString
    ensures forall k, l :: 0 <= k < l < |asked| ==> asked[k] < asked[l]
  {
    hide Answered;
    forall j: nat | j < |q|
      ensures j in asked <==>
              q[j].srq != 0 && !exists i :: 0 <= i < j && q[i].srq != 0 && answers[i] != 0
                                            && q[i].device.deviceString == q[j].device.deviceString
    {
      AnsweredIs(q, answers, stations, j, j);
      assert j in asked <==> Polled(stations, answers, j);
      assert stations[j].srq <==> q[j].srq != 0;
    }
  }

  lemma {:induction false} ListsNone(stations: seq<Station>, answers: seq<int>)
    requires |stations| == |answers|
    ensures Lists([], stations, answers, 0)
  {
  }

  lemma {:induction false} RaisedByNone(q: seq<Query>, stations: seq<Station>, answers: seq<int>)
    requires |stations| == |answers| == |q| && forall j :: 0 <= j < |q| ==> q[j].srqReq == 0
    ensures Raised(q, stations, answers, 0)
  {
  }

  lemma {:induction false} RaisedByAll(q: seq<Query>, stations: seq<Station>, answers: seq<int>)
    requires |stations| == |answers| == |q| && Raised(q, stations, answers, |q|)
    ensures forall j :: 0 <= j < |q| ==> (q[j].srqReq != 0 <==> Requested(stations, answers, j))
  {
  }

  /** A device is not polled again after an answer: two polled records of one device cannot both answer. */
  lemma {:induction false} OneAnswerPerDevice(stations: seq<Station>, answers: seq<int>, i: nat, j: nat)
    requires i < j < |stations| == |answers| && stations[i].device == stations[j].device
    requires Polled(stations, answers, i) && Polled(stations, answers, j)
    ensures answers[i] == 0
  {
    assert !Answers(stations, answers, i, j);
  }

  /** The records of a device that wait for a service agree, and the request is there when a polled one answers. */
  lemma {:induction false} GroupAgrees(stations: seq<Station>, answers: seq<int>, i: nat, j: nat)
    requires i < |stations| == |answers| && j < |stations| && stations[i].device == stations[j].device
    requires stations[i].srq && stations[j].srq
    ensures Requested(stations, answers, i) <==> Requested(stations, answers, j)
    ensures Requested(stations, answers, i) <==>
            exists k :: 0 <= k < |stations| && Polled(stations, answers, k) && Answers(stations, answers, k, i)
  {
    if Answered(stations, answers, |stations|, i) {
      var k :| 0 <= k < |stations| && Answers(stations, answers, k, i);
      assert Answers(stations, answers, k, j);
      FirstAnswer(stations, answers, k, i);
    }
    if Answered(stations, answers, |stations|, j) {
      var k :| 0 <= k < |stations| && Answers(stations, answers, k, j);
      assert Answers(stations, answers, k, i);
    }
  }

  lemma {:induction false} FirstAnswer(stations: seq<Station>, answers: seq<int>, k: nat, i: nat)
    requires k < |stations| == |answers| && i < |stations| && Answers(stations, answers, k, i)
    ensures exists f :: 0 <= f < |stations| && Polled(stations, answers, f) && Answers(stations, answers, f, i)
    decreases k
  {
    if Answered(stations, answers, k, k) {
      var f :| 0 <= f < k && Answers(stations, answers, f, k);
      assert Answers(stations, answers, f, i);
      FirstAnswer(stations, answers, f, i);
    }
  }

  // ---------------------------------------------------------------- one pass

  /** The size of the read buffer of the program, a NUL at the end included. */
  const BUFFER_SIZE: nat := Conservation.READ_BUFFER_SIZE + 1

  /** Records with an object each for their device; the handles may be shared. No device object holds a byte back. */
  ghost predicate Sound(q: seq<Query>, buffer: array<Byte>)
    reads q, set i | 0 <= i < |q| :: q[i].device`rxdChars
  {
    && Apart(q, buffer)
    && forall i :: 0 <= i < |q| ==> q[i].Ready() && q[i].Consistent()
  }

  ghost predicate Apart(q: seq<Query>, buffer: array<Byte>) {
    && Distinct(q)
    && (forall i, j :: 0 <= i < j < |q| ==>
          q[i].device != q[j].device && q[i].device.tempBuffer != q[j].device.tempBuffer)
    && (forall i :: 0 <= i < |q| ==> q[i].device.tempBuffer != buffer)
  }

  /** A record with what it read, and its handle: what waits there, what was written, and how many breaks were sent. */
  datatype View = View(setup: Setup, got: seq<Byte>, handle: Handle, pending: seq<Byte>, written: seq<Byte>,
                       breaks: nat)

  ghost function ViewOf(r: Query): View
    reads r, r.device, r.device.handle
  {
    var handle := r.device.handle;
    View(r.Config(), Texts(r.history.outcomes), handle, handle.pending, handle.written, handle.breaks)
  }

  ghost function Views(q: seq<Query>): (v: seq<View>)
    reads q, set i | 0 <= i < |q| :: q[i].device, set i | 0 <= i < |q| :: q[i].device.handle
    ensures |v| == |q|
  {
    seq(|q|, i requires 0 <= i < |q|
               reads q, set i | 0 <= i < |q| :: q[i].device, set i | 0 <= i < |q| :: q[i].device.handle
             => ViewOf(q[i]))
  }

  /**
   The handles of the records are those of the lines, with what was written to them and what waits to be read, and each
   record has read what was delivered to it.
   */
  ghost predicate Seen(v: seq<View>, t: Lines) {
    && WellFormed(t) && NothingHeld(t) && |v| == |t.setups|
    && (forall i :: 0 <= i < |v| ==> v[i].setup == t.setups[i])
    && (forall i, j :: 0 <= i < |v| && 0 <= j < |v| ==> (v[i].handle == v[j].handle <==> t.places[i] == t.places[j]))
    && (forall i :: 0 <= i < |v| ==> AtPlace(v[i], t, t.places[i]))
    && forall i :: 0 <= i < |v| ==> v[i].got == WireOf(t, t.places[i]).delivered[i]
  }

  ghost predicate AtPlace(v: View, t: Lines, h: nat)
    requires WellFormed(t) && h < |t.logs|
  {
    v.pending == WireOf(t, h).unread && v.written == WrittenBy(t.logs[h]) && v.breaks == BreaksIn(t.logs[h])
  }

  ghost predicate OnLines(q: seq<Query>, t: Lines)
    reads q, set i | 0 <= i < |q| :: q[i].device, set i | 0 <= i < |q| :: q[i].device.handle
  {
    Seen(Views(q), t)
  }

  /** The turn of a record is seen by all records that share its handle. */
  function ViewsAfter(v: seq<View>, record: nat, c: Setup, queue: seq<Byte>, fires: bool, env: Env): (v': seq<View>)
    requires record < |v|
    ensures |v'| == |v|
  {
    var pending := Leaves(c, fires, queue, env);
    var written := v[record].written + if fires && c.send then Message.Sent(c.message, env.strftime) else [];
    var got := Gets(c, fires, queue, env);
    var breaks := v[record].breaks + if fires && c.clear then 1 else 0;
    seq(|v|, i requires 0 <= i < |v| =>
      if v[i].handle == v[record].handle then v[i].(got := if i == record then v[i].got + got else v[i].got,
              pending := pending, written := written, breaks := breaks)
      else v[i])
  }

  /** Seen so, the turn is one of the lines. */
  lemma {:induction false} SeesTurn(v: seq<View>, v': seq<View>, t: Lines, record: nat, fires: bool, env: Env)
    requires Seen(v, t) && record < |v|
    requires v' == ViewsAfter(v, record, t.setups[record], QueueOf(t, record, env), fires, env)
    ensures Seen(v', Served(t, record, fires, env))
  {
    hide Leaves, Gets, Choice, Message.Sent, Served, NothingHeld, WireOf, WrittenBy, BreaksIn;
    var s := Served(t, record, fires, env);
    ServedLines(t, record, fires, env);
    forall i | 0 <= i < |v|
      ensures AtPlace(v'[i], s, s.places[i]) && v'[i].got == WireOf(s, s.places[i]).delivered[i]
    {
      assert AtPlace(v[i], t, t.places[i]) && AtPlace(v[record], t, t.places[record]);
      if t.places[i] != t.places[record] {
        SameLog(t, s, t.places[i]);
      }
    }
  }

  lemma {:induction false} SameLog(t: Lines, s: Lines, h: nat)
    requires WellFormed(t) && WellFormed(s) && h < |t.logs| == |s.logs| && t.setups == s.setups && t.logs[h] == s.logs[h]
    ensures WireOf(t, h) == WireOf(s, h)
  {
  }

  /** The bytes that arrive before a turn, and the turn. */
  method TurnAfterArrival(pr: Query, now: TimeT, env: Env, buffer: array<Byte>, ghost c: Setup, ghost queue: seq<Byte>,
                          ghost fires: bool)
    requires pr.Ready() && pr.Consistent() && pr.device.tempBuffer != buffer && buffer.Length == BUFFER_SIZE
    requires pr.Config() == c && pr.device.handle.pending + env.before == queue
    requires fires == Fires(pr.Schedule(), Poll(now, pr.srqReq != 0)) && ReplyFits(c, fires, queue, env, BUFFER_SIZE)
    modifies pr`nextRuntime, pr`number, pr`sent, pr`received, pr`checked
    modifies pr`sumErrors, pr`timeouts, pr`firings, pr`history
    modifies pr.device`rxdChars, pr.device.tempBuffer, pr.device.handle, buffer
    ensures pr.Ready() && pr.Consistent() && pr.Schedule() == Step(old(pr.Schedule()), Poll(now, pr.srqReq != 0))
    ensures pr.firings == old(pr.firings) + if fires then 1 else 0
    ensures pr.device.handle.pending == Leaves(c, fires, queue, env)
    ensures pr.device.handle.written == old(pr.device.handle.written)
            + if fires && c.send then Message.Sent(c.message, env.strftime) else []
    ensures Texts(pr.history.outcomes) == old(Texts(pr.history.outcomes)) + Gets(c, fires, queue, env)
    ensures pr.device.handle.breaks == old(pr.device.handle.breaks) + if fires && c.clear then 1 else 0
  {
    hide Step, Fires, Agree, ReplyFits, Leaves, Gets, Choice, Message.Sent, Happened, Texts;
    pr.device.handle.Arrive(env.before);
    pr.Turn(now, env, buffer, c);
  }

  /** One turn of the pass. It does not disturb the other records, apart from the bytes on a handle that they share. */
  method OneTurn(q: seq<Query>, record: nat, pr: Query, now: TimeT, env: Env, buffer: array<Byte>, ghost c: Setup,
                 ghost queue: seq<Byte>, ghost fires: bool)
    requires Sound(q, buffer) && buffer.Length == BUFFER_SIZE && record < |q| && pr == q[record]
    requires pr.Config() == c && pr.device.handle.pending + env.before == queue
    requires fires == Fires(pr.Schedule(), Poll(now, pr.srqReq != 0)) && ReplyFits(c, fires, queue, env, BUFFER_SIZE)
    modifies pr`nextRuntime, pr`number, pr`sent, pr`received, pr`checked
    modifies pr`sumErrors, pr`timeouts, pr`firings, pr`history
    modifies pr.device`rxdChars, pr.device.tempBuffer, pr.device.handle, buffer
    ensures Sound(q, buffer)
    ensures pr.Schedule() == Step(old(pr.Schedule()), Poll(now, pr.srqReq != 0))
    ensures pr.firings == old(pr.firings) + if fires then 1 else 0
    ensures pr.Config() == c && pr.device.handle.pending == Leaves(c, fires, queue, env)
    ensures pr.device.handle.written == old(pr.device.handle.written)
            + if fires && c.send then Message.Sent(c.message, env.strftime) else []
    ensures Texts(pr.history.outcomes) == old(Texts(pr.history.outcomes)) + Gets(c, fires, queue, env)
    ensures pr.device.handle.breaks == old(pr.device.handle.breaks) + if fires && c.clear then 1 else 0
  {
    hide Step, Fires, Agree, ReplyFits, Leaves, Gets, Choice, Message.Sent, Texts;
    TurnAfterArrival(pr, now, env, buffer, c, queue, fires);
  }

  /** The same turn, with what all records see of it. */
  method TurnSeen(q: seq<Query>, record: nat, pr: Query, now: TimeT, env: Env, buffer: array<Byte>, ghost c: Setup,
                  ghost queue: seq<Byte>, ghost fires: bool)
    requires Sound(q, buffer) && buffer.Length == BUFFER_SIZE && record < |q| && pr == q[record]
    requires pr.Config() == c && pr.device.handle.pending + env.before == queue
    requires fires == Fires(pr.Schedule(), Poll(now, pr.srqReq != 0)) && ReplyFits(c, fires, queue, env, BUFFER_SIZE)
    modifies pr`nextRuntime, pr`number, pr`sent, pr`received, pr`checked
    modifies pr`sumErrors, pr`timeouts, pr`firings, pr`history
    modifies pr.device`rxdChars, pr.device.tempBuffer, pr.device.handle, buffer
    ensures Sound(q, buffer)
    ensures pr.Schedule() == Step(old(pr.Schedule()), Poll(now, pr.srqReq != 0))
    ensures pr.firings == old(pr.firings) + if fires then 1 else 0
    ensures Views(q) == ViewsAfter(old(Views(q)), record, c, queue, fires, env)
  {
    hide Step, Fires, ReplyFits, Leaves, Gets, Choice, Message.Sent, Sound, Texts;
    SoundIsApart(q, buffer);
    ghost var v := Views(q);
    OneTurn(q, record, pr, now, env, buffer, c, queue, fires);
    forall i | 0 <= i < |q| ensures ViewOf(q[i]) == ViewsAfter(v, record, c, queue, fires, env)[i] {
      assert v[i] == old(ViewOf(q[i]));
    }
  }

  /** The schedules and the activity of the records before a pass, and their service requests. */
  datatype Before = Before(schedules: seq<Sched>, firings: seq<nat>, req: seq<bool>, stations: seq<Station>)

  predicate Sizes(b: Before, n: nat) {
    |b.schedules| == |b.firings| == |b.req| == |b.stations| == n
  }

  ghost predicate Now(q: seq<Query>, b: Before)
    reads q
  {
    && Sizes(b, |q|) && Describes(b.stations, q)
    && forall i :: 0 <= i < |q| ==>
         && q[i].Schedule() == b.schedules[i] && q[i].firings == b.firings[i] && (q[i].srqReq != 0 <==> b.req[i])
  }

  /** The first `k` records of a pass have had their turn. */
  function Turned(b: Before, now: TimeT, k: nat): Before
    requires |b.schedules| == |b.firings| == |b.req|
  {
    var n := |b.req|;
    Before(seq(n, i requires 0 <= i < n => if i < k then Step(b.schedules[i], Poll(now, b.req[i])) else b.schedules[i]),
           seq(n, i requires 0 <= i < n =>
             b.firings[i] + if i < k && Fires(b.schedules[i], Poll(now, b.req[i])) then 1 else 0),
           b.req, b.stations)
  }

  /** Which records fire in a pass. */
  function Firing(b: Before, now: TimeT): (f: seq<bool>)
    requires |b.schedules| == |b.req|
    ensures |f| == |b.req|
  {
    seq(|b.req|, i requires 0 <= i < |b.req| => Fires(b.schedules[i], Poll(now, b.req[i])))
  }

  /** The same turn, with the schedules and the activity of all records. */
  method TurnCounted(q: seq<Query>, record: nat, now: TimeT, env: Env, buffer: array<Byte>, ghost b: Before,
                     ghost c: Setup, ghost queue: seq<Byte>)
    requires Sound(q, buffer) && buffer.Length == BUFFER_SIZE && record < |q| && Sizes(b, |q|)
    requires Now(q, Turned(b, now, record))
    requires q[record].Config() == c && q[record].device.handle.pending + env.before == queue
    requires ReplyFits(c, Firing(b, now)[record], queue, env, BUFFER_SIZE)
    modifies set i | 0 <= i < |q| :: q[i]`nextRuntime, set i | 0 <= i < |q| :: q[i]`number
    modifies set i | 0 <= i < |q| :: q[i]`sent, set i | 0 <= i < |q| :: q[i]`received,
             set i | 0 <= i < |q| :: q[i]`checked
    modifies set i | 0 <= i < |q| :: q[i]`sumErrors, set i | 0 <= i < |q| :: q[i]`timeouts
    modifies set i | 0 <= i < |q| :: q[i]`firings, set i | 0 <= i < |q| :: q[i]`history
    modifies set i | 0 <= i < |q| :: q[i].device`rxdChars, set i | 0 <= i < |q| :: q[i].device.tempBuffer
    modifies set i | 0 <= i < |q| :: q[i].device.handle, buffer
    ensures Sound(q, buffer) && Now(q, Turned(b, now, record + 1))
    ensures Views(q) == ViewsAfter(old(Views(q)), record, c, queue, Firing(b, now)[record], env)
  {
    hide Step, Fires, ReplyFits, Sound, Views, ViewsAfter;
    SoundIsApart(q, buffer);
    TurnSeen(q, record, q[record], now, env, buffer, c, queue, Firing(b, now)[record]);
  }

  /** One turn of the pass, seen from all records. */
  method NextTurn(q: seq<Query>, record: nat, now: TimeT, env: Env, buffer: array<Byte>, ghost b: Before,
                  ghost t: Lines)
    requires Sound(q, buffer) && buffer.Length == BUFFER_SIZE && record < |q| && Sizes(b, |q|)
    requires Now(q, Turned(b, now, record)) && OnLines(q, t)
    requires ReplyFits(t.setups[record], Firing(b, now)[record], QueueOf(t, record, env), env, BUFFER_SIZE)
    modifies set i | 0 <= i < |q| :: q[i]`nextRuntime, set i | 0 <= i < |q| :: q[i]`number
    modifies set i | 0 <= i < |q| :: q[i]`sent, set i | 0 <= i < |q| :: q[i]`received,
             set i | 0 <= i < |q| :: q[i]`checked
    modifies set i | 0 <= i < |q| :: q[i]`sumErrors, set i | 0 <= i < |q| :: q[i]`timeouts
    modifies set i | 0 <= i < |q| :: q[i]`firings, set i | 0 <= i < |q| :: q[i]`history
    modifies set i | 0 <= i < |q| :: q[i].device`rxdChars, set i | 0 <= i < |q| :: q[i].device.tempBuffer
    modifies set i | 0 <= i < |q| :: q[i].device.handle, buffer
    ensures Sound(q, buffer) && Now(q, Turned(b, now, record + 1))
    ensures OnLines(q, Served(t, record, Firing(b, now)[record], env))
  {
    hide Sound, Now, Turned, Firing, ReplyFits, WireOf, WrittenBy, BreaksIn, Served, NothingHeld;
    ghost var v, fires := Views(q), Firing(b, now)[record];
    AtRecord(q, t, record);
    hide Seen, Views, ViewsAfter;
    TurnCounted(q, record, now, env, buffer, b, t.setups[record], QueueOf(t, record, env));
    SeesTurn(v, Views(q), t, record, fires, env);
  }

  lemma {:induction false} AtRecord(q: seq<Query>, t: Lines, record: nat)
    requires OnLines(q, t) && record < |q|
    ensures WellFormed(t) && |q| == |t.setups| && AtPlace(ViewOf(q[record]), t, t.places[record])
    ensures q[record].Config() == t.setups[record]
  {
    assert Views(q)[record] == ViewOf(q[record]);
  }

  lemma {:induction false} SoundIsApart(q: seq<Query>, buffer: array<Byte>)
    requires Sound(q, buffer)
    ensures Apart(q, buffer)
  {
  }

  /** The polling pass of the main loop. */
  method Pass(q: seq<Query>, now: TimeT, envs: seq<Env>, buffer: array<Byte>, ghost b: Before, ghost t: Lines)
    requires Sound(q, buffer) && buffer.Length == BUFFER_SIZE && Now(q, b) && OnLines(q, t)
    requires |envs| == |q| && PassFits(t, Firing(b, now), envs, BUFFER_SIZE)
    modifies set i | 0 <= i < |q| :: q[i]`nextRuntime, set i | 0 <= i < |q| :: q[i]`number
    modifies set i | 0 <= i < |q| :: q[i]`sent, set i | 0 <= i < |q| :: q[i]`received,
             set i | 0 <= i < |q| :: q[i]`checked
    modifies set i | 0 <= i < |q| :: q[i]`sumErrors, set i | 0 <= i < |q| :: q[i]`timeouts
    modifies set i | 0 <= i < |q| :: q[i]`firings, set i | 0 <= i < |q| :: q[i]`history
    modifies set i | 0 <= i < |q| :: q[i].device`rxdChars, set i | 0 <= i < |q| :: q[i].device.tempBuffer
    modifies set i | 0 <= i < |q| :: q[i].device.handle, buffer
    ensures Sound(q, buffer) && Now(q, Turned(b, now, |q|))
    ensures OnLines(q, ServedPass(t, Firing(b, now), envs, |q|))
  {
    hide Sound, Turned, Now, OnLines, Firing, Served, ServedPass, PassFits, ReplyFits, QueueOf, WellFormed;
    NowSizes(q, b);
    LineSizes(q, t);
    TurnedNone(b, now);
    ghost var s, fires := t, Firing(b, now);
    ServedNone(t, fires, envs);
    for record := 0 to |q|
      invariant Sound(q, buffer) && Now(q, Turned(b, now, record))
      invariant OnLines(q, s) && s == ServedPass(t, fires, envs, record)
    {
      ServedNext(t, fires, envs, record, BUFFER_SIZE);
      NextTurn(q, record, now, envs[record], buffer, b, s);
      s := Served(s, record, fires[record], envs[record]);
    }
  }

  lemma {:induction false} LineSizes(q: seq<Query>, t: Lines)
    requires OnLines(q, t)
    ensures WellFormed(t) && |t.setups| == |q|
  {
  }

  lemma {:induction false} NowSizes(q: seq<Query>, b: Before)
    requires Now(q, b)
    ensures Sizes(b, |q|)
  {
  }

  lemma {:induction false} TurnedNone(b: Before, now: TimeT)
    requires |b.schedules| == |b.firings| == |b.req|
    ensures Turned(b, now, 0) == b
  {
    assert Turned(b, now, 0).schedules == b.schedules && Turned(b, now, 0).firings == b.firings;
  }

  // ---------------------------------------------------------------- the loop

  /** What a pass of the loop takes from outside: its clock sample and the answers to the service requests. */
  datatype Round = Round(now: TimeT, answers: seq<int>)

  ghost predicate Fit(stations: seq<Station>, rounds: seq<Round>) {
    forall k :: 0 <= k < |rounds| ==> |rounds[k].answers| == |stations|
  }

  function Requests(stations: seq<Station>, answers: seq<int>): (r: seq<bool>)
    requires |answers| == |stations|
    ensures |r| == |stations|
  {
    seq(|stations|, i requires 0 <= i < |stations| => Requested(stations, answers, i))
  }

  /** The polls of one record in a run. */
  function PollsOf(stations: seq<Station>, rounds: seq<Round>, i: nat): (p: seq<Poll>)
    requires Fit(stations, rounds) && i < |stations|
    ensures |p| == |rounds|
  {
    seq(|rounds|, k requires 0 <= k < |rounds| => Poll(rounds[k].now, Requested(stations, rounds[k].answers, i)))
  }

  /** The records after a run: each of them by itself has gone through its own polls. */
  function StateAfter(b: Before, rounds: seq<Round>, req: seq<bool>): (r: Before)
    requires Sizes(b, |req|) && Fit(b.stations, rounds)
    ensures Sizes(r, |req|)
  {
    var n := |b.stations|;
    Before(seq(n, i requires 0 <= i < n => Schedule.After(b.schedules[i], PollsOf(b.stations, rounds, i))),
           seq(n, i requires 0 <= i < n => b.firings[i] + Schedule.Firings(b.schedules[i], PollsOf(b.stations, rounds, i))),
           req, b.stations)
  }

  lemma {:induction false} StateStep(b: Before, rounds: seq<Round>, next: Round)
    requires Sizes(b, |b.stations|) && Fit(b.stations, rounds) && |next.answers| == |b.stations|
    ensures Fit(b.stations, rounds + [next])
    ensures var req := Requests(b.stations, next.answers);
            Turned(StateAfter(b, rounds, req), next.now, |b.stations|) == StateAfter(b, rounds + [next], req)
  {
    hide Step, Fires, Requested;
    var req, n := Requests(b.stations, next.answers), |b.stations|;
    var one, two := Turned(StateAfter(b, rounds, req), next.now, n), StateAfter(b, rounds + [next], req);
    forall i | 0 <= i < n ensures one.schedules[i] == two.schedules[i] && one.firings[i] == two.firings[i] {
      var p := PollsOf(b.stations, rounds + [next], i);
      assert Schedule.Before(p) == PollsOf(b.stations, rounds, i);
      assert Schedule.Latest(p) == Poll(next.now, req[i]);
    }
    assert one.schedules == two.schedules && one.firings == two.firings;
  }

  /** Some record wants the loop to go on. */
  predicate Going(schedules: seq<Sched>, now: TimeT) {
    exists i :: 0 <= i < |schedules| && Continues(schedules[i], now)
  }

  /** The test at the end of a pass. */
  method WantsMore(q: seq<Query>, now: TimeT, ghost b: Before) returns (cont: bool)
    requires Now(q, b)
    ensures cont == Going(b.schedules, now)
  {
    cont := false;
    for record := 0 to |q|
      invariant cont <==> exists i :: 0 <= i < record && Continues(b.schedules[i], now)
    {
      var c := q[record].Finished(now);
      if c {
        cont := true;
      }
    }
  }

  /** The service-request phase, for the schedules of all records. */
  method RaiseRequests(q: seq<Query>, answers: seq<int>, ghost buffer: array<Byte>, ghost b: Before)
    requires Sound(q, buffer) && Now(q, b) && |answers| == |q|
    modifies set i | 0 <= i < |q| :: q[i]`srqReq
    ensures Sound(q, buffer) && Sizes(b, |q|) && Now(q, b.(req := Requests(b.stations, answers)))
  {
    hide Requested, Agree, Lists;
    var asked := ServiceRequests(q, answers, b.stations);
  }

  /** The service-request phase, seen from all records. */
  method RequestPhase(q: seq<Query>, answers: seq<int>, ghost buffer: array<Byte>, ghost b: Before, ghost t: Lines)
    requires Sound(q, buffer) && Now(q, b) && OnLines(q, t) && |answers| == |q|
    modifies set i | 0 <= i < |q| :: q[i]`srqReq
    ensures Sound(q, buffer) && OnLines(q, t)
    ensures Sizes(b, |q|) && Now(q, b.(req := Requests(b.stations, answers)))
  {
    hide Sound, Now, Seen, Requests;
    ghost var v := Views(q);
    NowSizes(q, b);
    RaiseRequests(q, answers, buffer, b);
    assert Views(q) == v;
  }

  /** One iteration of the loop. */
  method Iterate(q: seq<Query>, round: Round, envs: seq<Env>, buffer: array<Byte>, ghost b: Before, ghost t: Lines)
      returns (cont: bool)
    requires Sound(q, buffer) && buffer.Length == BUFFER_SIZE && Now(q, b) && OnLines(q, t)
    requires |round.answers| == |envs| == |q|
    requires PassFits(t, Firing(b.(req := Requests(b.stations, round.answers)), round.now), envs, BUFFER_SIZE)
    modifies set i | 0 <= i < |q| :: q[i]`srqReq
    modifies set i | 0 <= i < |q| :: q[i]`nextRuntime, set i | 0 <= i < |q| :: q[i]`number
    modifies set i | 0 <= i < |q| :: q[i]`sent, set i | 0 <= i < |q| :: q[i]`received,
             set i | 0 <= i < |q| :: q[i]`checked
    modifies set i | 0 <= i < |q| :: q[i]`sumErrors, set i | 0 <= i < |q| :: q[i]`timeouts
    modifies set i | 0 <= i < |q| :: q[i]`firings, set i | 0 <= i < |q| :: q[i]`history
    modifies set i | 0 <= i < |q| :: q[i].device`rxdChars, set i | 0 <= i < |q| :: q[i].device.tempBuffer
    modifies set i | 0 <= i < |q| :: q[i].device.handle, buffer
    ensures Sound(q, buffer) && Sizes(b, |q|) && WellFormed(t) && |t.setups| == |q|
    ensures var r := b.(req := Requests(b.stations, round.answers));
            && Now(q, Turned(r, round.now, |q|)) && cont == Going(Turned(r, round.now, |q|).schedules, round.now)
            && OnLines(q, ServedPass(t, Firing(r, round.now), envs, |q|))
  {
    hide Turned, Requests, Going, Now, Sound, OnLines, Firing, PassFits, ServedPass;
    NowSizes(q, b);
    LineSizes(q, t);
    ghost var r := b.(req := Requests(b.stations, round.answers));
    RequestPhase(q, round.answers, buffer, b, t);
    Pass(q, round.now, envs, buffer, r, t);
    cont := WantsMore(q, round.now, Turned(r, round.now, |q|));
  }

  /** After the first `k` rounds of a run some record wants the loop to go on. */
  ghost predicate GoesOn(b: Before, rounds: seq<Round>, k: nat)
    requires Sizes(b, |b.stations|) && Fit(b.stations, rounds) && 0 < k <= |rounds|
  {
    Going(StateAfter(b, rounds[..k], b.req).schedules, rounds[k - 1].now)
  }

  /**
   What the loop has done after `k` passes: every record has gone through its own polls, after all passes but the last
   some record wanted to go on, and `cont` says whether one still does.
   */
  ghost predicate Ran(b: Before, rounds: seq<Round>, k: nat, now: Before, cont: bool)
    requires Sizes(b, |b.stations|) && Fit(b.stations, rounds)
  {
    && k <= |rounds| && |now.req| == |b.stations| && now == StateAfter(b, rounds[..k], now.req)
    && (forall m :: 0 < m < k ==> GoesOn(b, rounds, m))
    && (cont <==> k == 0 || GoesOn(b, rounds, k))
  }

  lemma {:induction false} RanNone(b: Before, rounds: seq<Round>)
    requires Sizes(b, |b.stations|) && Fit(b.stations, rounds)
    ensures Ran(b, rounds, 0, b, true)
  {
    var s := StateAfter(b, rounds[..0], b.req);
    assert s.schedules == b.schedules && s.firings == b.firings;
  }

  lemma {:induction false} RanOn(b: Before, rounds: seq<Round>, k: nat, now: Before, later: Before, cont: bool)
    requires Sizes(b, |b.stations|) && Fit(b.stations, rounds) && k < |rounds| && Ran(b, rounds, k, now, true)
    requires Sizes(now, |b.stations|) && now.stations == b.stations
    requires later == Turned(now.(req := Requests(b.stations, rounds[k].answers)), rounds[k].now, |b.stations|)
    requires cont <==> Going(later.schedules, rounds[k].now)
    ensures Ran(b, rounds, k + 1, later, cont)
  {
    hide Going, Requests;
    var req := Requests(b.stations, rounds[k].answers);
    StateStep(b, rounds[..k], rounds[k]);
    assert rounds[..k] + [rounds[k]] == rounds[..k + 1];
    assert now.(req := req) == StateAfter(b, rounds[..k], req);
    assert later == StateAfter(b, rounds[..k + 1], req);
    assert later.schedules == StateAfter(b, rounds[..k + 1], b.req).schedules;
  }

  /** Which records fire in round `k` of a run. */
  function FiringIn(b: Before, rounds: seq<Round>, k: nat): (f: seq<bool>)
    requires Sizes(b, |b.stations|) && Fit(b.stations, rounds) && k < |rounds|
    ensures |f| == |b.stations|
  {
    Firing(StateAfter(b, rounds[..k], Requests(b.stations, rounds[k].answers)), rounds[k].now)
  }

  /** What happens around the turns of every round, for every record. */
  ghost predicate Around(b: Before, t: Lines, rounds: seq<Round>, envs: seq<seq<Env>>) {
    && Sizes(b, |b.stations|) && Fit(b.stations, rounds) && WellFormed(t) && |t.setups| == |b.stations|
    && |envs| == |rounds| && forall k :: 0 <= k < |envs| ==> |envs[k]| == |b.stations|
  }

  /** The handles after `k` rounds of a run. */
  ghost function LinesAfter(b: Before, t: Lines, rounds: seq<Round>, envs: seq<seq<Env>>, k: nat): (r: Lines)
    requires Around(b, t, rounds, envs) && k <= |rounds|
    ensures WellFormed(r) && r.setups == t.setups && r.places == t.places && |r.logs| == |t.logs|
  {
    if k == 0 then t
    else ServedPass(LinesAfter(b, t, rounds, envs, k - 1), FiringIn(b, rounds, k - 1), envs[k - 1], |b.stations|)
  }

  /** The loop gets to round `k`. */
  ghost predicate Reached(b: Before, rounds: seq<Round>, k: nat)
    requires Sizes(b, |b.stations|) && Fit(b.stations, rounds) && k <= |rounds|
  {
    forall m :: 0 < m <= k ==> GoesOn(b, rounds, m)
  }

  /** In every round that the loop gets to, every reply that is read fits into the read buffer by itself. */
  ghost predicate RepliesFit(b: Before, t: Lines, rounds: seq<Round>, envs: seq<seq<Env>>)
    requires Around(b, t, rounds, envs)
  {
    forall k :: 0 <= k < |rounds| && Reached(b, rounds, k) ==>
      PassFits(LinesAfter(b, t, rounds, envs, k), FiringIn(b, rounds, k), envs[k], BUFFER_SIZE)
  }

  /**
   The main loop. `rounds` are the passes until an exit signal would end the loop. Apart from that it stops with the
   first pass after which no record wants it to go on. No device object holds a byte back then, the counters agree, and
   on every handle there happened what the turns of its records do.
   */
  method MainLoop(q: seq<Query>, rounds: seq<Round>, envs: seq<seq<Env>>, buffer: array<Byte>, ghost b: Before,
                  ghost t: Lines)
      returns (passes: nat, cont: bool, ghost end: Before)
    requires Sound(q, buffer) && buffer.Length == BUFFER_SIZE && Now(q, b) && OnLines(q, t)
    requires Sizes(b, |q|) && Around(b, t, rounds, envs) && RepliesFit(b, t, rounds, envs)
    modifies set i | 0 <= i < |q| :: q[i]`srqReq
    modifies set i | 0 <= i < |q| :: q[i]`nextRuntime, set i | 0 <= i < |q| :: q[i]`number
    modifies set i | 0 <= i < |q| :: q[i]`sent, set i | 0 <= i < |q| :: q[i]`received,
             set i | 0 <= i < |q| :: q[i]`checked
    modifies set i | 0 <= i < |q| :: q[i]`sumErrors, set i | 0 <= i < |q| :: q[i]`timeouts
    modifies set i | 0 <= i < |q| :: q[i]`firings, set i | 0 <= i < |q| :: q[i]`history
    modifies set i | 0 <= i < |q| :: q[i].device`rxdChars, set i | 0 <= i < |q| :: q[i].device.tempBuffer
    modifies set i | 0 <= i < |q| :: q[i].device.handle, buffer
    ensures passes <= |rounds| && Sound(q, buffer) && Now(q, end) && Ran(b, rounds, passes, end, cont)
    ensures OnLines(q, LinesAfter(b, t, rounds, envs, passes))
    ensures AllConserved(LinesAfter(b, t, rounds, envs, passes))
    ensures cont ==> passes == |rounds|
    ensures AllAccounted(q)
  {
    hide AllAccounted, AllConserved;
    hide Sound, Now, OnLines, Turned, Requests, Going, Ran, PassFits, ServedPass, GoesOn;
    hide Firing, FiringIn, LinesAfter, RepliesFit;
    LinesNone(b, t, rounds, envs);
    cont, passes, end := true, 0, b;
    RanNone(b, rounds);
    while cont && passes < |rounds|
      invariant passes <= |rounds| && Sound(q, buffer) && Now(q, end) && Ran(b, rounds, passes, end, cont)
      invariant OnLines(q, LinesAfter(b, t, rounds, envs, passes))
      decreases |rounds| - passes
    {
      RanReaches(b, rounds, passes, end);
      NextRound(b, t, rounds, envs, passes);
      ghost var now := LinesAfter(b, t, rounds, envs, passes);
      ghost var r := end.(req := Requests(b.stations, rounds[passes].answers));
      ghost var later := Turned(r, rounds[passes].now, |q|);
      cont := Iterate(q, rounds[passes], envs[passes], buffer, end, now);
      RanOn(b, rounds, passes, end, later, cont);
      end, passes := later, passes + 1;
    }
    LoopConserves(b, t, rounds, envs, passes);
    SoundAccounts(q, buffer);
  }

  /** What every record sent, broke, read and counted is what its firings and flags say. */
  ghost predicate AllAccounted(q: seq<Query>)
    reads q
  {
    forall i :: 0 <= i < |q| ==> q[i].Accounted()
  }

  lemma {:induction false} SoundAccounts(q: seq<Query>, buffer: array<Byte>)
    requires Sound(q, buffer)
    ensures AllAccounted(q)
  {
    forall i | 0 <= i < |q| ensures q[i].Accounted() {
      ConsistentAccounts(q[i]);
    }
  }

  /** While the loop goes on, it has reached the next round, and its records fire as the run says. */
  lemma {:induction false} RanReaches(b: Before, rounds: seq<Round>, k: nat, now: Before)
    requires Sizes(b, |b.stations|) && Fit(b.stations, rounds) && k < |rounds| && Ran(b, rounds, k, now, true)
    ensures Sizes(now, |b.stations|) && now.stations == b.stations && Reached(b, rounds, k)
    ensures Firing(now.(req := Requests(b.stations, rounds[k].answers)), rounds[k].now) == FiringIn(b, rounds, k)
  {
    hide GoesOn, Requests, Firing;
    var req := Requests(b.stations, rounds[k].answers);
    assert now.(req := req) == StateAfter(b, rounds[..k], req);
  }

  lemma {:induction false} LinesNone(b: Before, t: Lines, rounds: seq<Round>, envs: seq<seq<Env>>)
    requires Around(b, t, rounds, envs)
    ensures LinesAfter(b, t, rounds, envs, 0) == t
  {
  }

  lemma {:induction false} NextRound(b: Before, t: Lines, rounds: seq<Round>, envs: seq<seq<Env>>, k: nat)
    requires Around(b, t, rounds, envs) && k < |rounds|
    ensures RepliesFit(b, t, rounds, envs) && Reached(b, rounds, k) ==>
              PassFits(LinesAfter(b, t, rounds, envs, k), FiringIn(b, rounds, k), envs[k], BUFFER_SIZE)
    ensures LinesAfter(b, t, rounds, envs, k + 1) ==
            ServedPass(LinesAfter(b, t, rounds, envs, k), FiringIn(b, rounds, k), envs[k], |b.stations|)
  {
    hide PassFits, ServedPass, FiringIn;
  }

  /** The bytes of every handle are conserved over the whole run of the loop. */
  lemma {:induction false} LoopConserves(b: Before, t: Lines, rounds: seq<Round>, envs: seq<seq<Env>>, k: nat)
    requires Around(b, t, rounds, envs) && k <= |rounds|
    ensures AllConserved(LinesAfter(b, t, rounds, envs, k))
  {
    var r := LinesAfter(b, t, rounds, envs, k);
    forall h | 0 <= h < |r.logs| ensures Conservation.Conserved(WireOf(r, h)) {
      LinesConserve(r, h);
    }
  }

  // ---------------------------------------------------------------- what the loop does over a run

  ghost predicate Ticks(rounds: seq<Round>) {
    forall i, j :: 0 <= i < j < |rounds| ==> rounds[i].now < rounds[j].now
  }

  /** The schedules agree with the stations, and the clock stays a period below the wrap of `timeT`. */
  ghost predicate WellClocked(b: Before, rounds: seq<Round>) {
    && Sizes(b, |b.stations|) && Fit(b.stations, rounds)
    && (forall i :: 0 <= i < |b.stations| ==> b.schedules[i].srq == b.stations[i].srq)
    && forall i, k :: 0 <= i < |b.stations| && 0 <= k < |rounds| ==> rounds[k].now + b.schedules[i].period <= TIME_MODULUS
  }

  ghost predicate AllStop(b: Before) {
    forall i :: 0 <= i < |b.schedules| ==> Stops(b.schedules[i])
  }

  /** An explicit bound on the passes of the loop, for a clock that starts at `start`. */
  function LoopBound(schedules: seq<Sched>, start: int): (n: nat)
    requires forall i :: 0 <= i < |schedules| ==> Stops(schedules[i])
    ensures n > 0 && forall i :: 0 <= i < |schedules| ==> Budget(schedules[i], start - 1) <= n
  {
    if schedules == [] then 1
    else Max(LoopBound(schedules[..|schedules| - 1], start), Budget(schedules[|schedules| - 1], start - 1))
  }

  /** The polls of a record in the first `k` rounds of a run with a strict clock. */
  lemma {:induction false} PollsAreRegular(b: Before, rounds: seq<Round>, k: nat, i: nat)
    requires WellClocked(b, rounds) && Ticks(rounds) && k <= |rounds| && i < |b.stations|
    ensures var p := PollsOf(b.stations, rounds[..k], i);
            Ticking(p) && forall j :: 0 <= j < |p| ==> Regular(b.schedules[i], p[j]) && p[j].now == rounds[j].now
  {
    hide Answered;
    var p := PollsOf(b.stations, rounds[..k], i);
    forall j | 0 <= j < |p| ensures p[j].now == rounds[j].now && (p[j].req ==> b.stations[i].srq) {
      assert p[j] == Poll(rounds[..k][j].now, Requested(b.stations, rounds[..k][j].answers, i));
      assert rounds[..k][j] == rounds[j];
    }
  }

  /** When all records have a `last` or a finite `-n`, the loop is over after the bound. */
  lemma {:induction false} EndsByBound(b: Before, rounds: seq<Round>, k: nat)
    requires WellClocked(b, rounds) && Ticks(rounds) && AllStop(b)
    requires 0 < k <= |rounds| && k >= LoopBound(b.schedules, rounds[0].now)
    ensures !GoesOn(b, rounds, k)
  {
    hide Stops, Regular, Budget, Continues, Requested;
    var s := StateAfter(b, rounds[..k], b.req).schedules;
    forall i | 0 <= i < |s| ensures !Continues(s[i], rounds[k - 1].now) {
      var p := PollsOf(b.stations, rounds[..k], i);
      PollsAreRegular(b, rounds, k, i);
      BudgetRuns(b.schedules[i], p);
      BudgetSpent(s[i], rounds[k - 1].now);
    }
  }

  /** A run of the main loop that is not cut short by a signal then ends within the bound. */
  lemma {:induction false} EndsInTime(b: Before, rounds: seq<Round>, passes: nat, end: Before, cont: bool)
    requires WellClocked(b, rounds) && Ticks(rounds) && AllStop(b) && rounds != []
    requires |rounds| >= LoopBound(b.schedules, rounds[0].now)
    requires Ran(b, rounds, passes, end, cont) && (cont ==> passes == |rounds|)
    ensures !cont && passes <= LoopBound(b.schedules, rounds[0].now)
  {
    hide GoesOn;
    var n := LoopBound(b.schedules, rounds[0].now);
    EndsByBound(b, rounds, n);
    if cont {
      EndsByBound(b, rounds, passes);
    }
  }

  /** The device of record `i` never answers. */
  ghost predicate Silent(stations: seq<Station>, rounds: seq<Round>, i: nat)
    requires Fit(stations, rounds) && i < |stations|
  {
    forall k :: 0 <= k < |rounds| ==> !Requested(stations, rounds[k].answers, i)
  }

  /** Any other record keeps the loop going: without a limit always, with one as long as its device does not answer. */
  lemma {:induction false} GoesOnForEver(b: Before, rounds: seq<Round>, i: nat, k: nat)
    requires Sizes(b, |b.stations|) && Fit(b.stations, rounds) && i < |b.stations| && !Stops(b.schedules[i])
    requires b.schedules[i].number == -1 || Silent(b.stations, rounds, i)
    requires 0 < k <= |rounds|
    ensures GoesOn(b, rounds, k)
  {
    hide Requested, Stops, Continues;
    var p := PollsOf(b.stations, rounds[..k], i);
    forall j | 0 <= j < |p| && p[j].req ensures b.schedules[i].number == -1 {
      assert p[j] == Poll(rounds[..k][j].now, Requested(b.stations, rounds[..k][j].answers, i));
      assert rounds[..k][j] == rounds[j];
    }
    NeverStops(b.schedules[i], p, rounds[k - 1].now);
    assert StateAfter(b, rounds[..k], b.req).schedules[i] == Schedule.After(b.schedules[i], p);
  }

  /** Rounds with the given clock samples in which no device answers. */
  function Quiet(clock: seq<TimeT>, n: nat): (r: seq<Round>)
    ensures |r| == |clock| && forall k :: 0 <= k < |r| ==> r[k] == Round(clock[k], seq(n, _ => 0))
  {
    seq(|clock|, k requires 0 <= k < |clock| => Round(clock[k], seq(n, _ => 0)))
  }

  /** The loop comes to its end with this clock, whatever the devices answer. */
  ghost predicate AlwaysEnds(b: Before, clock: seq<TimeT>)
    requires Sizes(b, |b.stations|)
  {
    forall rounds: seq<Round> | Fit(b.stations, rounds) && Clocks(rounds, clock) ::
      exists k :: 0 < k <= |rounds| && !GoesOn(b, rounds, k)
  }

  ghost predicate Clocks(rounds: seq<Round>, clock: seq<TimeT>) {
    |rounds| == |clock| && forall k :: 0 <= k < |rounds| ==> rounds[k].now == clock[k]
  }

  /**
   With a strict clock that runs for at least the bound, the loop ends whatever the devices answer, if and only if every
   record has a `last` or a `-n` other than -1, and one that waits for service requests a `last` or nothing to send.
   */
  lemma {:induction false} AlwaysEndsIff(b: Before, clock: seq<TimeT>)
    requires clock != [] && WellClocked(b, Quiet(clock, |b.stations|)) && Ticks(Quiet(clock, |b.stations|))
    requires AllStop(b) ==> |clock| >= LoopBound(b.schedules, clock[0])
    ensures AlwaysEnds(b, clock) <==>
              forall i :: 0 <= i < |b.schedules| ==>
                var s := b.schedules[i]; s.last != 0 || (s.number != -1 && (s.number <= 0 || !s.srq))
  {
    var quiet := Quiet(clock, |b.stations|);
    if AllStop(b) {
      forall rounds: seq<Round> | Fit(b.stations, rounds) && Clocks(rounds, clock)
        ensures exists k :: 0 < k <= |rounds| && !GoesOn(b, rounds, k)
      {
        SameClock(b, rounds, quiet);
        EndsByBound(b, rounds, LoopBound(b.schedules, clock[0]));
      }
    } else {
      var i :| 0 <= i < |b.schedules| && !Stops(b.schedules[i]);
      QuietIsSilent(b.stations, clock, i);
      assert Clocks(quiet, clock);
      forall k | 0 < k <= |quiet| ensures GoesOn(b, quiet, k) {
        GoesOnForEver(b, quiet, i, k);
      }
      assert !exists k :: 0 < k <= |quiet| && !GoesOn(b, quiet, k);
    }
  }

  lemma {:induction false} SameClock(b: Before, rounds: seq<Round>, quiet: seq<Round>)
    requires WellClocked(b, quiet) && Ticks(quiet) && Fit(b.stations, rounds)
    requires |rounds| == |quiet| && forall k :: 0 <= k < |rounds| ==> rounds[k].now == quiet[k].now
    ensures WellClocked(b, rounds) && Ticks(rounds)
  {
  }

  lemma {:induction false} QuietIsSilent(stations: seq<Station>, clock: seq<TimeT>, i: nat)
    requires i < |stations|
    ensures Fit(stations, Quiet(clock, |stations|)) && Silent(stations, Quiet(clock, |stations|), i)
  {
  }

  /** The record is timed and fresh, pass `arm` arms it, and from pass `stop` on the clock is after its `last`. */
  ghost predicate Spans(s: Sched, rounds: seq<Round>, passes: nat, arm: nat, stop: nat) {
    && s.nextRuntime == 0 && s.period > 0 && !s.srq && arm < stop <= passes <= |rounds|
    && (forall k :: 0 <= k < arm ==> rounds[k].now <= s.first) && s.first < rounds[arm].now
    && (forall k :: 0 <= k < stop ==> s.last == 0 || rounds[k].now <= s.last)
    && (forall k :: stop <= k < passes ==> s.last != 0 && rounds[k].now > s.last)
  }

  /** The same on the polls of the record. */
  lemma {:induction false} SpansPolls(b: Before, rounds: seq<Round>, passes: nat, i: nat, arm: nat, stop: nat)
    requires WellClocked(b, rounds) && Ticks(rounds) && i < |b.stations| && passes <= |rounds|
    requires Spans(b.schedules[i], rounds, passes, arm, stop)
    ensures var s, p := b.schedules[i], PollsOf(b.stations, rounds[..passes], i);
            && |p| == passes && Schedule.Quiet(s.period, p) && Ordered(p)
            && (forall k :: 0 <= k < passes ==> p[k].now == rounds[k].now)
            && (forall k :: 0 <= k < arm ==> p[k].now <= s.first)
            && (forall k :: 0 <= k < stop ==> s.last == 0 || p[k].now <= s.last)
            && (stop < passes ==> s.last != 0) && (forall k :: stop <= k < passes ==> p[k].now > s.last)
  {
    hide Requested;
    var s, p := b.schedules[i], PollsOf(b.stations, rounds[..passes], i);
    PollsAreRegular(b, rounds, passes, i);
    forall k | 0 <= k < passes ensures p[k].now == rounds[k].now && !p[k].req && p[k].now + s.period <= TIME_MODULUS {
      assert Regular(s, p[k]);
    }
    if stop < passes {
      assert rounds[stop].now > s.last;
    }
  }

  /**
   What a run of the main loop sends for a record that is timed and fresh: the closed form over the clock samples
   between the pass that arms it and the first pass after its `last`.
   */
  lemma {:induction false} MessagesOfRun(b: Before, rounds: seq<Round>, passes: nat, end: Before, cont: bool, i: nat,
                                         arm: nat, stop: nat)
    requires WellClocked(b, rounds) && Ticks(rounds) && Ran(b, rounds, passes, end, cont) && i < |b.stations|
    requires Spans(b.schedules[i], rounds, passes, arm, stop)
    ensures end.firings[i] >= b.firings[i]
    ensures LeastAllowance(ArmedAt(b.schedules[i], rounds[arm].now),
                           PollsOf(b.stations, rounds[..passes], i)[arm + 1..stop], end.firings[i] - b.firings[i])
  {
    hide Requested, GoesOn, LeastAllowance;
    var p := PollsOf(b.stations, rounds[..passes], i);
    SpansPolls(b, rounds, passes, i, arm, stop);
    WholeRun(b.schedules[i], p, arm, stop);
  }

  /**
   If from pass `k` on the passes come less than a period apart, and for long enough to work off what is missing after
   pass `k`, then all messages that are due by the last pass before `stop` have been sent.
   */
  lemma {:induction false} AllMessagesOfRun(b: Before, rounds: seq<Round>, passes: nat, end: Before, cont: bool, i: nat,
                                            arm: nat, stop: nat, k: nat, gap: nat)
    requires WellClocked(b, rounds) && Ticks(rounds) && Ran(b, rounds, passes, end, cont) && i < |b.stations|
    requires Spans(b.schedules[i], rounds, passes, arm, stop)
    requires arm < k < stop && gap < b.schedules[i].period
    requires forall j :: k <= j < stop - 1 ==> rounds[j + 1].now - rounds[j].now <= gap
    ensures var armed, p := ArmedAt(b.schedules[i], rounds[arm].now), PollsOf(b.stations, rounds[..passes], i);
            var missing := Due(armed, p[arm + 1..k + 1]) - Schedule.Firings(armed, p[arm + 1..k + 1]);
            stop - 1 - k >= PollsToCatchUp(Max(0, missing), armed.period, gap) ==>
              end.firings[i] - b.firings[i] == Due(armed, p[arm + 1..stop])
  {
    hide Requested, GoesOn, Due, PollsToCatchUp, Schedule.Firings;
    var p := PollsOf(b.stations, rounds[..passes], i);
    SpansPolls(b, rounds, passes, i, arm, stop);
    assert Spaced(p[..stop], k, gap) by {
      forall j | k <= j < stop - 1 ensures p[..stop][j + 1].now - p[..stop][j].now <= gap {
        assert p[j].now == rounds[j].now && p[j + 1].now == rounds[j + 1].now;
      }
    }
    WholeRunCatchesUp(b.schedules[i], p, arm, stop, k, gap);
  }

  /** A record that waits for service requests acts once for each pass in which its device answers, up to its limit. */
  lemma {:induction false} AnswersOfRun(b: Before, rounds: seq<Round>, passes: nat, end: Before, cont: bool, i: nat)
    requires Sizes(b, |b.stations|) && Fit(b.stations, rounds) && Ran(b, rounds, passes, end, cont)
    requires i < |b.stations| && b.schedules[i].srq
    ensures end.firings[i] - b.firings[i] ==
            Limit(b.schedules[i].number, RequestCount(PollsOf(b.stations, rounds[..passes], i)))
  {
    hide Requested, GoesOn;
    AnswersRequests(b.schedules[i], PollsOf(b.stations, rounds[..passes], i));
  }

  /** A record without a period acts in every pass after the arming one, up to its `last` and its limit. */
  lemma {:induction false} MessagesWithoutPeriod(b: Before, rounds: seq<Round>, passes: nat, end: Before, cont: bool,
                                                 i: nat, arm: nat)
    requires WellClocked(b, rounds) && Ticks(rounds) && Ran(b, rounds, passes, end, cont) && i < |b.stations|
    requires var s := b.schedules[i];
             && s.nextRuntime == 0 && s.period == 0 && !s.srq && arm < passes
             && (forall k :: 0 <= k < arm ==> rounds[k].now <= s.first) && s.first < rounds[arm].now
    ensures end.firings[i] - b.firings[i] ==
            Limit(b.schedules[i].number, OpenPolls(ArmedAt(b.schedules[i], rounds[arm].now),
                                                   PollsOf(b.stations, rounds[..passes], i)[arm + 1..]))
  {
    hide Requested, GoesOn, OpenPolls;
    PollsAreRegular(b, rounds, passes, i);
    WholeRunWithoutPeriod(b.schedules[i], PollsOf(b.stations, rounds[..passes], i), arm);
  }
}
