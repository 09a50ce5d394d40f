/** Sharing devices: every device is opened once, for the first record that names it, and closed once. */
module Devices {
  import opened Basics
  import opened Serial

  // ---------------------------------------------------------------- first occurrences

  /** No earlier record has the device of record `i`. */
  predicate IsFirst(names: seq<string>, i: nat)
    requires i < |names|
  {
    forall j :: 0 <= j < i ==> names[j] != names[i]
  }

  /** The first record with the device of record `i`. */
  function FirstOf(names: seq<string>, i: nat): (f: nat)
    requires i < |names|
    ensures f <= i && names[f] == names[i]
  {
    Search(names, i, 0)
  }

  function Search(names: seq<string>, i: nat, k: nat): (f: nat)
    requires k <= i < |names|
    ensures k <= f <= i && names[f] == names[i]
    decreases i - k
  {
    if names[k] == names[i] then k else Search(names, i, k + 1)
  }

  /** The first occurrences among the first `n` records, in order. */
  function Firsts(names: seq<string>, n: nat): seq<nat>
    requires n <= |names|
  {
    if n == 0 then [] else Firsts(names, n - 1) + if IsFirst(names, n - 1) then [n - 1] else []
  }

  lemma {:induction false} SearchIs(names: seq<string>, i: nat, k: nat, f: nat)
    requires k <= f <= i < |names| && names[f] == names[i]
    requires forall j :: k <= j < f ==> names[j] != names[i]
    ensures Search(names, i, k) == f
    decreases f - k
  {
    if k < f {
      SearchIs(names, i, k + 1, f);
    }
  }

  lemma {:induction false} FirstOfIs(names: seq<string>, i: nat, f: nat)
    requires f <= i < |names| && names[f] == names[i] && IsFirst(names, f)
    ensures FirstOf(names, i) == f
  {
    SearchIs(names, i, 0, f);
  }

  lemma {:induction false} FirstOfIsFirst(names: seq<string>, i: nat)
    requires i < |names|
    ensures IsFirst(names, FirstOf(names, i))
  {
    SearchSkips(names, i, 0);
  }

  lemma {:induction false} SearchSkips(names: seq<string>, i: nat, k: nat)
    requires k <= i < |names|
    ensures forall j :: k <= j < Search(names, i, k) ==> names[j] != names[i]
    decreases i - k
  {
    if names[k] != names[i] {
      SearchSkips(names, i, k + 1);
    }
  }

  /** Every device has exactly one of the first occurrences, and each of these is listed once. */
  lemma {:induction false} FirstsOncePerDevice(names: seq<string>, n: nat)
    requires n <= |names|
    ensures forall k :: 0 <= k < |Firsts(names, n)| ==> Firsts(names, n)[k] < n && IsFirst(names, Firsts(names, n)[k])
    ensures forall k, l :: 0 <= k < l < |Firsts(names, n)| ==>
              Firsts(names, n)[k] < Firsts(names, n)[l] && names[Firsts(names, n)[k]] != names[Firsts(names, n)[l]]
    ensures forall i :: 0 <= i < n ==> FirstOf(names, i) in Firsts(names, n)
  {
    if n > 0 {
      hide FirstOf;
      FirstsOncePerDevice(names, n - 1);
      var before, all := Firsts(names, n - 1), Firsts(names, n);
      if IsFirst(names, n - 1) {
        FirstOfIs(names, n - 1, n - 1);
        assert all[|before|] == n - 1;
      } else {
        FirstOfIsFirst(names, n - 1);
        FirstOfIs(names, FirstOf(names, n - 1), FirstOf(names, n - 1));
      }
      assert forall f :: f in before ==> f in all;
    }
  }

  // ---------------------------------------------------------------- the ports

  ghost predicate Named(q: seq<SerialPort>, names: seq<string>) {
    && |names| == |q| && (forall i :: 0 <= i < |q| ==> q[i].deviceString == names[i])
    && forall i, j :: 0 <= i < j < |q| ==> q[i] != q[j]
  }

  /** The first `n` records share a device object and a handle with the first record of their device. */
  ghost predicate Shared(q: seq<SerialPort>, names: seq<string>, answers: seq<Handle?>, n: nat)
    requires Named(q, names) && n <= |q| == |answers|
    reads q
  {
    forall i :: 0 <= i < n ==>
      var f := FirstOf(names, i);
      answers[f] != null && q[i].dev == q[f] && q[i].handle == answers[f]
  }

  /** The turn of one record: it joins the first record of its device, or opens the port itself. */
  method OpenOne(q: seq<SerialPort>, answers: seq<Handle?>, record: nat, ghost names: seq<string>)
    returns (p: SerialPort?, first: bool)
    requires Named(q, names) && |answers| == |q| && record < |q| && Shared(q, names, answers, record)
    modifies set i | 0 <= i < |q| :: q[i]`dev, set i | 0 <= i < |q| :: q[i]`handle
    ensures first <==> IsFirst(names, record)
    ensures p == null <==> first && answers[record] == null
    ensures Shared(q, names, answers, if p == null then record else record + 1)
  {
    hide FirstOf;
    var alreadyOpen := false;
    p := null;
    var i := 0;
    while i < record && !alreadyOpen
      invariant 0 <= i <= record && Shared(q, names, answers, record)
      invariant !alreadyOpen ==> forall j :: 0 <= j < i ==> names[j] != names[record]
      invariant alreadyOpen ==> Shared(q, names, answers, record + 1) && !IsFirst(names, record) && p != null
    {
      if q[record].deviceString == q[i].deviceString {
        FirstOfIs(names, i, i);
        FirstOfIs(names, record, i);
        p := q[record].ReOpen(q[i].dev);
        alreadyOpen := true;
      }
      i := i + 1;
    }
    first := !alreadyOpen;
    if !alreadyOpen {
      p := q[record].PortOpen(answers[record]);
      FirstOfIs(names, record, record);
    }
  }

  /**
   Opening the ports: `openings` lists the records for which `portOpen` ran. If one fails the program exits, and the
   failing one is the last of them.
   */
  method OpenPorts(q: seq<SerialPort>, answers: seq<Handle?>, ghost names: seq<string>)
    returns (ok: bool, openings: seq<nat>)
    requires Named(q, names) && |answers| == |q|
    modifies set i | 0 <= i < |q| :: q[i]`dev, set i | 0 <= i < |q| :: q[i]`handle
    ensures ok ==> openings == Firsts(names, |q|) && Shared(q, names, answers, |q|)
    ensures !ok ==> openings != [] && var last := openings[|openings| - 1];
                    last < |q| && openings == Firsts(names, last + 1) && answers[last] == null && Shared(q, names, answers, last)
  {
    hide Shared, IsFirst;
    ok, openings := true, [];
    NothingShared(q, names, answers);
    for record := 0 to |q|
      invariant openings == Firsts(names, record) && Shared(q, names, answers, record)
    {
      var p, first := OpenOne(q, answers, record, names);
      if first {
        openings := openings + [record];
      }
      if p == null {
        ok := false;
        return;
      }
    }
  }

  lemma {:induction false} NothingShared(q: seq<SerialPort>, names: seq<string>, answers: seq<Handle?>)
    requires Named(q, names) && |answers| == |q|
    ensures Shared(q, names, answers, 0)
  {
  }

  /** `quit` closes the ports: `closed` lists the handles. */
  method ClosePorts(q: seq<SerialPort>, ghost names: seq<string>) returns (closed: seq<nat>, handles: seq<Handle>)
    requires Named(q, names)
    ensures closed == Firsts(names, |q|) && |handles| == |closed|
    ensures forall k :: 0 <= k < |closed| ==> closed[k] < |q| && handles[k] == q[closed[k]].handle
  {
    closed, handles := [], [];
    for record := 0 to |q|
      invariant closed == Firsts(names, record) && |handles| == |closed|
      invariant forall k :: 0 <= k < |closed| ==> closed[k] < record && handles[k] == q[closed[k]].handle
    {
      var needClose := true;
      for i := 0 to record
        invariant needClose <==> forall j :: 0 <= j < i ==> names[j] != names[record]
      {
        if q[record].deviceString == q[i].deviceString {
          needClose := false;
        }
      }
      if needClose {
        closed := closed + [record];
        handles := handles + [q[record].handle];
      }
    }
  }

  /** What is opened is closed: the same records, with the handles that were opened for them, once for every device. */
  method OpenAndClose(q: seq<SerialPort>, answers: seq<Handle?>, ghost names: seq<string>)
    returns (ok: bool, openings: seq<nat>, closed: seq<Handle>)
    requires Named(q, names) && |answers| == |q|
    modifies set i | 0 <= i < |q| :: q[i]`dev, set i | 0 <= i < |q| :: q[i]`handle
    ensures ok ==>
              && openings == Firsts(names, |q|) && |closed| == |openings|
              && forall k :: 0 <= k < |openings| ==> openings[k] < |answers| && closed[k] == answers[openings[k]]
  {
    closed := [];
    ok, openings := OpenPorts(q, answers, names);
    if ok {
      var records;
      records, closed := ClosePorts(q, names);
      FirstsOncePerDevice(names, |q|);
      forall k | 0 <= k < |openings| ensures closed[k] == answers[openings[k]] {
        FirstOfIs(names, openings[k], openings[k]);
      }
    }
  }
}
