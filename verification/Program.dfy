/** A whole run of the program: the devices are opened, the main loop polls the records, the devices are closed. */
module Program {
  import opened Basics
  import opened Serial
  import opened Query
  import opened Traffic
  import opened Driver
  import Conservation
  import Devices

  function PortsOf(q: seq<Query>): (p: seq<SerialPort>)
    ensures |p| == |q| && forall i :: 0 <= i < |q| ==> p[i] == q[i].device
  {
    seq(|q|, i requires 0 <= i < |q| => q[i].device)
  }

  function NamesOf(q: seq<Query>): (s: seq<string>)
    ensures |s| == |q| && forall i :: 0 <= i < |q| ==> s[i] == q[i].device.deviceString
  {
    seq(|q|, i requires 0 <= i < |q| => q[i].device.deviceString)
  }

  /** The records are set up and have read nothing. */
  ghost predicate Configured(q: seq<Query>, setups: seq<Setup>)
    reads q, set i | 0 <= i < |q| :: q[i].device`timeout, set i | 0 <= i < |q| :: q[i].device`eosMode
  {
    |setups| == |q| && forall i :: 0 <= i < |q| ==> q[i].Config() == setups[i] && q[i].history.outcomes == []
  }

  /** The lines when the devices have just been opened: records share a handle exactly when they name the same device. */
  function LinesOf(setups: seq<Setup>, names: seq<string>): (t: Lines)
    requires |setups| == |names|
    ensures WellFormed(t) && t.setups == setups && |t.logs| == |names|
  {
    Lines(setups, seq(|names|, i requires 0 <= i < |names| => Devices.FirstOf(names, i)), seq(|names|, _ => []))
  }

  /** The system opens every device at most once: the handles differ, and nothing was written, no break sent, none waits. */
  ghost predicate NewHandles(answers: seq<Handle?>)
    reads set i | 0 <= i < |answers| :: answers[i]
  {
    && (forall i :: 0 <= i < |answers| && answers[i] != null ==>
          var handle: Handle := answers[i]; handle.pending == handle.written == [] && handle.breaks == 0)
    && forall i, j :: 0 <= i < j < |answers| && answers[i] != null ==> answers[i] != answers[j]
  }

  /** What the system can give is in `pool`. */
  ghost predicate InPool(answers: seq<Handle?>, pool: set<Handle>) {
    forall i :: 0 <= i < |answers| && answers[i] != null ==> answers[i] in pool
  }

  /** What opening the ports gives is what the main loop starts from. */
  lemma {:induction false} OpenedOnLines(q: seq<Query>, answers: seq<Handle?>, setups: seq<Setup>)
    requires Distinct(q) && Configured(q, setups) && |answers| == |q| && NewHandles(answers)
    requires Devices.Named(PortsOf(q), NamesOf(q)) && Devices.Shared(PortsOf(q), NamesOf(q), answers, |q|)
    ensures OnLines(q, LinesOf(setups, NamesOf(q)))
  {
    var t, names, p := LinesOf(setups, NamesOf(q)), NamesOf(q), PortsOf(q);
    forall i | 0 <= i < |q|
      ensures var f := t.places[i]; f < |q| && answers[f] != null && q[i].device.handle == answers[f]
    {
      assert p[i] == q[i].device;
    }
    forall h | 0 <= h < |t.logs| 
      ensures WireOf(t, h) == Conservation.Opened(|setups|) && WrittenBy(t.logs[h]) == [] && BreaksIn(t.logs[h]) == 0
    {
      assert t.logs[h] == [];
    }
    var v := Views(q);
    forall i | 0 <= i < |v| ensures v[i].setup == t.setups[i] && AtPlace(v[i], t, t.places[i]) {
      assert v[i] == ViewOf(q[i]);
    }
  }

  lemma {:induction false} NamesPorts(q: seq<Query>, buffer: array<Byte>)
    requires Apart(q, buffer)
    ensures Devices.Named(PortsOf(q), NamesOf(q))
  {
  }

  /** The devices are opened, which leaves the records as they were. */
  method OpenDevices(q: seq<Query>, answers: seq<Handle?>, ghost buffer: array<Byte>, ghost b: Before,
                     ghost setups: seq<Setup>)
      returns (ok: bool, ghost handles: seq<Handle>)
    requires Sound(q, buffer) && Now(q, b) && Configured(q, setups) && |answers| == |q| && NewHandles(answers)
    modifies set i | 0 <= i < |q| :: q[i].device`dev, set i | 0 <= i < |q| :: q[i].device`handle
    ensures Sound(q, buffer)
    ensures ok ==> Now(q, b) && OnLines(q, LinesOf(setups, NamesOf(q))) && Opens(q, answers, handles)
  {
    hide Sound, Now, Configured, OnLines, Devices.Firsts, Devices.Shared, Devices.Named;
    hide NewHandles, LinesOf, Opens;
    SoundIsApart(q, buffer);
    handles := [];
    NamesPorts(q, buffer);
    var openings;
    ok, openings := Devices.OpenPorts(PortsOf(q), answers, NamesOf(q));
    if ok {
      OpenedOnLines(q, answers, setups);
      handles := seq(|q|, i requires 0 <= i < |q| reads set i | 0 <= i < |q| :: q[i].device => q[i].device.handle);
      OpenedHandles(q, answers, handles);
    }
  }

  /** The handles in use are those that the system gave for the first record of each device. */
  ghost predicate Opens(q: seq<Query>, answers: seq<Handle?>, handles: seq<Handle>)
    reads set i | 0 <= i < |q| :: q[i].device`handle
  {
    && |handles| == |answers| == |q|
    && forall i :: 0 <= i < |q| ==>
         q[i].device.handle == handles[i] && answers[Devices.FirstOf(NamesOf(q), i)] == handles[i]
  }

  lemma {:induction false} OpenedHandles(q: seq<Query>, answers: seq<Handle?>, handles: seq<Handle>)
    requires |answers| == |q| == |handles| && forall i :: 0 <= i < |q| ==> handles[i] == q[i].device.handle
    requires Devices.Named(PortsOf(q), NamesOf(q)) && Devices.Shared(PortsOf(q), NamesOf(q), answers, |q|)
    ensures Opens(q, answers, handles)
  {
    hide Devices.FirstOf;
    forall i | 0 <= i < |q| ensures answers[Devices.FirstOf(NamesOf(q), i)] == handles[i] {
      assert PortsOf(q)[i] == q[i].device;
    }
  }

  /** The devices are closed: each of the handles that the system gave, once. */
  method CloseDevices(q: seq<Query>, answers: seq<Handle?>, ghost buffer: array<Byte>, ghost handles: seq<Handle>)
      returns (closed: seq<Handle>)
    requires Apart(q, buffer) && Opens(q, answers, handles)
    ensures Closes(closed, answers, NamesOf(q))
  {
    NamesPorts(q, buffer);
    var records;
    records, closed := Devices.ClosePorts(PortsOf(q), NamesOf(q));
    Devices.FirstsOncePerDevice(NamesOf(q), |q|);
    forall k | 0 <= k < |closed| ensures closed[k] == answers[records[k]] {
      Devices.FirstOfIs(NamesOf(q), records[k], records[k]);
    }
  }

  /** The closed handles are those that were opened, in order, one for each device. */
  ghost predicate Closes(closed: seq<Handle>, answers: seq<Handle?>, names: seq<string>)
    requires |answers| == |names|
  {
    var firsts := Devices.Firsts(names, |names|);
    && |closed| == |firsts|
    && forall k :: 0 <= k < |firsts| ==> firsts[k] < |answers| && closed[k] == answers[firsts[k]]
  }

  /**
   The program. `answers` is what the system gives when the device of a record is opened. If that fails for one, the
   program ends. Otherwise the main loop runs on the open devices, and each of them is closed once.
   */
  method RunProgram(q: seq<Query>, answers: seq<Handle?>, rounds: seq<Round>, envs: seq<seq<Env>>, buffer: array<Byte>,
                    ghost b: Before, ghost setups: seq<Setup>, ghost t: Lines, ghost pool: set<Handle>)
      returns (ok: bool, passes: nat, cont: bool, closed: seq<Handle>, ghost end: Before)
    requires Sound(q, buffer) && buffer.Length == BUFFER_SIZE && Now(q, b) && Configured(q, setups)
    requires |answers| == |q| && NewHandles(answers) && InPool(answers, pool)
    requires t == LinesOf(setups, NamesOf(q)) && Around(b, t, rounds, envs) && RepliesFit(b, t, rounds, envs)
    modifies set i | 0 <= i < |q| :: q[i]`srqReq
    modifies set i | 0 <= i < |q| :: q[i]`nextRuntime, set i | 0 <= i < |q| :: q[i]`number
    modifies set i | 0 <= i < |q| :: q[i]`sent, set i | 0 <= i < |q| :: q[i]`received,
             set i | 0 <= i < |q| :: q[i]`checked
    modifies set i | 0 <= i < |q| :: q[i]`sumErrors, set i | 0 <= i < |q| :: q[i]`timeouts
    modifies set i | 0 <= i < |q| :: q[i]`firings, set i | 0 <= i < |q| :: q[i]`history
    modifies set i | 0 <= i < |q| :: q[i].device`dev, set i | 0 <= i < |q| :: q[i].device`handle
    modifies set i | 0 <= i < |q| :: q[i].device`rxdChars, set i | 0 <= i < |q| :: q[i].device.tempBuffer
    modifies pool, buffer
    ensures Sound(q, buffer) && AllAccounted(q)
    ensures ok ==> passes <= |rounds| && Now(q, end) && Ran(b, rounds, passes, end, cont)
    ensures ok && cont ==> passes == |rounds|
    ensures ok ==> OnLines(q, LinesAfter(b, t, rounds, envs, passes))
    ensures ok ==> AllConserved(LinesAfter(b, t, rounds, envs, passes))
    ensures ok ==> Closes(closed, answers, NamesOf(q))
    ensures !ok ==> passes == 0 && closed == []
  {
    hide Ran, OnLines, RepliesFit, LinesAfter, Sound, Now, NewHandles, LinesOf, Closes, Opens, InPool, Configured;
    hide Apart, AllConserved, AllAccounted;
    ghost var handles;
    passes, cont, closed, end := 0, true, [], b;
    NowSizes(q, b);
    ok, handles := OpenDevices(q, answers, buffer, b, setups);
    if ok {
      HandlesInPool(q, answers, handles, pool);
      passes, cont, end := MainLoop(q, rounds, envs, buffer, b, t);
      SoundIsApart(q, buffer);
      closed := CloseDevices(q, answers, buffer, handles);
    }
    SoundAccounts(q, buffer);
  }

  lemma {:induction false} HandlesInPool(q: seq<Query>, answers: seq<Handle?>, handles: seq<Handle>, pool: set<Handle>)
    requires Opens(q, answers, handles) && InPool(answers, pool)
    ensures forall i :: 0 <= i < |q| ==> q[i].device.handle in pool
  {
    forall i | 0 <= i < |q| ensures q[i].device.handle in pool {
      assert answers[Devices.FirstOf(NamesOf(q), i)] == handles[i];
    }
  }
}
