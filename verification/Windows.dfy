/** The key table and the windowed statistics of `QueryRead`. */
module Windows {
  import opened Basics
  import Regression

  const KEYS: nat := 100
  const PARAMS: nat := 10
  const SAMPLES: nat := 200000

  /** What a line of the log adds: its time, its key and its parameters. */
  datatype Record = Record(t: int, name: string, params: seq<real>)

  /** The same with the place of the key in the table. */
  datatype Sample = Sample(t: int, key: nat, params: seq<real>)

  // ---------------------------------------------------------------- the key table

  /** Used keys come first, are not empty and differ from each other; the other slots are empty. */
  ghost predicate Table(keys: seq<string>, used: nat) {
    && |keys| == KEYS && used <= KEYS
    && (forall i :: 0 <= i < used ==> keys[i] != "")
    && (forall i :: used <= i < KEYS ==> keys[i] == "")
    && (forall i, j :: 0 <= i < j < used ==> keys[i] != keys[j])
  }

  /**
   The lookup and insertion loop of `main`: a new key is added behind the used ones if fewer than 100 are used. The result
   is KEYS if the key has no place.
   */
  method Lookup(keys: array<string>, name: string, ghost used: nat) returns (n: nat, ghost used': nat)
    requires Table(keys[..], used) && name != ""
    modifies keys
    ensures Table(keys[..], used')
    ensures keys[..used'] == old(keys[..used]) + if name !in old(keys[..used]) && used < 100 then [name] else []
    ensures name in keys[..used'] <==> name in old(keys[..used]) || used < 100
    ensures n <= KEYS && (n < KEYS ==> n < used' && keys[n] == name) && (n == KEYS <==> name !in keys[..used'])
  {
    ghost var was := keys[..];
    var next: int := -1;
    n := 0;
    while n < KEYS
      invariant 0 <= n <= KEYS
      invariant next == if n <= used then -1 else used
      invariant forall i :: 0 <= i < n ==> keys[i] != name
      decreases KEYS - n
    {
      if keys[n] == "" && next == -1 {
        next := n;
      } else if keys[n] == name {
        break;
      }
      n := n + 1;
    }
    assert name in was[..used] <==> n < KEYS;
    used' := used;
    if n == KEYS && next != -1 {
      keys[next] := name;
      n := next;
      used' := used + 1;
      assert keys[..used + 1] == was[..used] + [name];
    }
  }

  // ---------------------------------------------------------------- the window

  /** Where the backward scan over the samples stops: from there on every sample is younger than `startTime`. */
  function WindowStart(samples: seq<Sample>, startTime: int): (w: nat)
    ensures w <= |samples|
  {
    if samples == [] || samples[|samples| - 1].t <= startTime then |samples|
    else WindowStart(samples[..|samples| - 1], startTime)
  }

  lemma {:induction false} WindowStartIs(samples: seq<Sample>, startTime: int)
    ensures var w := WindowStart(samples, startTime);
            && (forall i :: w <= i < |samples| ==> samples[i].t > startTime)
            && (w > 0 ==> samples[w - 1].t <= startTime)
  {
    if samples != [] && samples[|samples| - 1].t > startTime {
      WindowStartIs(samples[..|samples| - 1], startTime);
    }
  }

  /** No sample that is too old stands behind one that is young enough. */
  predicate InOrder(samples: seq<Sample>, startTime: int) {
    forall i, j :: 0 <= i < j < |samples| && samples[i].t > startTime ==> samples[j].t > startTime
  }

  /** The scan visits exactly the samples that are younger than `startTime`, if and only if these are in order. */
  lemma {:induction false} WindowIsFilterIff(samples: seq<Sample>, startTime: int)
    ensures (forall i :: 0 <= i < |samples| ==> (WindowStart(samples, startTime) <= i <==> samples[i].t > startTime))
            <==> InOrder(samples, startTime)
  {
    WindowStartIs(samples, startTime);
  }

  /** Samples that were taken in the order of their times are. */
  lemma {:induction false} SortedIsInOrder(samples: seq<Sample>, startTime: int)
    requires forall i, j :: 0 <= i < j < |samples| ==> samples[i].t <= samples[j].t
    ensures InOrder(samples, startTime)
  {
  }

  /** The values of one parameter under one key. */
  function Group(window: seq<Sample>, key: nat, k: nat): seq<real>
    requires forall i :: 0 <= i < |window| ==> |window[i].params| == PARAMS
    requires k < PARAMS
  {
    if window == [] then []
    else (if window[0].key == key then [window[0].params[k]] else []) + Group(window[1..], key, k)
  }

  lemma {:induction false} SumFront(v: real, a: seq<real>)
    ensures Regression.Sum([v] + a) == v + Regression.Sum(a)
  {
    if a == [] {
      assert [v] + a == [v] && [v][..0] == [];
    } else {
      var n := |a| - 1;
      SumFront(v, a[..n]);
      assert ([v] + a)[..n + 1] == [v] + a[..n];
    }
  }

  lemma {:induction false} AroundFront(v: real, a: seq<real>, p: real)
    ensures Regression.Around([v] + a, p) == Regression.Square(v - p) + Regression.Around(a, p)
  {
    if a == [] {
      assert [v] + a == [v] && [v][..0] == [];
    } else {
      hide Regression.Square;
      var n := |a| - 1;
      AroundFront(v, a[..n], p);
      assert ([v] + a)[..n + 1] == [v] + a[..n];
    }
  }

  // ---------------------------------------------------------------- the program

  /** What is printed for one parameter of one key: the number of values, their mean and their deviation. */
  ghost predicate Reports(group: seq<real>, count: int, average: real, stdev: real) {
    && count == |group|
    && (count > 0 ==>
          && average * count as real == Regression.Sum(group)
          && stdev >= 0.0 && stdev * stdev * count as real == Regression.Around(group, average))
  }

  class QueryRead {
    const keys: array<string>
    const samples: array<Sample>
    const sCount: array2<int>
    const average: array2<real>
    const stdev: array2<real>
    var readSamples: nat
    ghost var used: nat
    ghost var records: seq<Record> // what was accepted

    ghost predicate Shape()
      reads this
    {
      && keys.Length == KEYS && samples.Length == SAMPLES && readSamples <= SAMPLES
      && sCount.Length0 == average.Length0 == stdev.Length0 == KEYS
      && sCount.Length1 == average.Length1 == stdev.Length1 == PARAMS
      && average != stdev
    }

    /** The table is in order, and every stored sample is its record, with the place of its name. */
    ghost predicate Valid()
      reads this, keys, samples
    {
      && Shape() && Table(keys[..], used) && |records| == readSamples
      && forall i :: 0 <= i < readSamples ==>
           var s, r := samples[i], records[i];
           s.t == r.t && s.params == r.params && |s.params| == PARAMS && s.key < used && keys[s.key] == r.name
    }

    constructor ()
      ensures Valid() && records == [] && used == 0 && readSamples == 0
      ensures fresh(keys) && fresh(samples) && fresh(sCount) && fresh(average) && fresh(stdev)
    {
      keys := new string[KEYS](_ => "");
      samples := new Sample[SAMPLES](_ => Sample(0, 0, []));
      sCount := new int[KEYS, PARAMS];
      average := new real[KEYS, PARAMS];
      stdev := new real[KEYS, PARAMS];
      readSamples := 0;
      used := 0;
      records := [];
    }

    /** A line with a time, a key and parameters: stored unless the key finds no place. */
    method Store(r: Record)
      requires Valid() && readSamples < SAMPLES && r.name != "" && |r.params| == PARAMS
      modifies this, keys, samples
      ensures Valid()
      ensures keys[..used] ==
              old(keys[..used]) + if r.name !in old(keys[..used]) && old(used) < 100 then [r.name] else []
      ensures records == old(records) + if r.name in old(keys[..used]) || old(used) < 100 then [r] else []
      ensures readSamples <= old(readSamples) + 1
    {
      ghost var was := keys[..];
      ghost var used';
      var n;
      n, used' := Lookup(keys, r.name, used);
      assert |keys[..used']| == used' && |was[..used]| == used;
      forall i | 0 <= i < used ensures keys[i] == was[i] {
        assert keys[..used'][i] == was[..used][i];
      }
      used := used';
      if n != KEYS {
        samples[readSamples] := Sample(r.t, n, r.params);
        readSamples := readSamples + 1;
        records := records + [r];
      }
    }

    /** The samples from `i` on. */
    ghost function From(i: nat): (w: seq<Sample>)
      requires Valid() && i <= readSamples
      reads this, keys, samples
      ensures forall j :: 0 <= j < |w| ==> |w[j].params| == PARAMS && w[j].key < KEYS
    {
      samples[i..readSamples]
    }

    method Clear()
      requires Shape()
      modifies sCount, average, stdev
      ensures forall m, j :: 0 <= m < KEYS && 0 <= j < PARAMS ==> sCount[m, j] == 0 && average[m, j] == 0.0
    {
      for x := 0 to KEYS
        invariant forall m, j :: 0 <= m < x && 0 <= j < PARAMS ==> sCount[m, j] == 0 && average[m, j] == 0.0
      {
        for k := 0 to PARAMS
          invariant forall m, j :: 0 <= m < x && 0 <= j < PARAMS ==> sCount[m, j] == 0 && average[m, j] == 0.0
          invariant forall j :: 0 <= j < k ==> sCount[x, j] == 0 && average[x, j] == 0.0
        {
          sCount[x, k] := 0;
          average[x, k] := 0.0;
          stdev[x, k] := 0.0;
        }
      }
    }

    /** The inner loop of the first scan. */
    method Add(s: Sample)
      requires Shape() && s.key < KEYS && |s.params| == PARAMS
      modifies sCount, average
      ensures forall m, j :: 0 <= m < KEYS && 0 <= j < PARAMS ==>
        && sCount[m, j] == old(sCount[m, j]) + (if m == s.key then 1 else 0)
        && average[m, j] == old(average[m, j]) + (if m == s.key then s.params[j] else 0.0)
    {
      for k := 0 to PARAMS
        invariant forall m, j :: 0 <= m < KEYS && 0 <= j < PARAMS && !(m == s.key && j < k) ==>
          sCount[m, j] == old(sCount[m, j]) && average[m, j] == old(average[m, j])
        invariant forall j :: 0 <= j < k ==>
          sCount[s.key, j] == old(sCount[s.key, j]) + 1 && average[s.key, j] == old(average[s.key, j]) + s.params[j]
      {
        sCount[s.key, k] := sCount[s.key, k] + 1;
        average[s.key, k] := average[s.key, k] + s.params[k];
      }
    }

    /** The sums over the samples from `i` on are complete. */
    ghost predicate Summed(i: nat)
      requires Valid() && i <= readSamples
      reads this, keys, samples, sCount, average
    {
      forall m, j :: 0 <= m < KEYS && 0 <= j < PARAMS ==>
        && sCount[m, j] == |Group(From(i), m, j)|
        && average[m, j] == Regression.Sum(Group(From(i), m, j))
    }

    method Start()
      requires Valid()
      modifies sCount, average, stdev
      ensures Summed(readSamples)
    {
      hide Regression.Sum;
      Clear();
      SumOfNothing();
    }

    method AddSample(i: nat)
      requires Valid() && i < readSamples && Summed(i + 1)
      modifies sCount, average
      ensures Summed(i)
    {
      hide Regression.Sum, Group;
      var s := samples[i];
      ghost var rest := From(i + 1);
      GroupFront(s, rest);
      Add(s);
      assert From(i) == [s] + rest && From(i + 1) == rest;
    }

    /** The first scan, from the youngest sample back. */
    method Sums(startTime: int) returns (w: nat)
      requires Valid()
      modifies sCount, average, stdev
      ensures w == WindowStart(samples[..readSamples], startTime) && Summed(w)
    {
      Start();
      hide Summed, Table;
      var startSample: int := readSamples - 1;
      assert samples[..startSample + 1] == samples[..readSamples];
      while startSample >= 0 && samples[startSample].t > startTime
        invariant -1 <= startSample < readSamples
        invariant WindowStart(samples[..startSample + 1], startTime) == WindowStart(samples[..readSamples], startTime)
        invariant Summed(startSample + 1)
      {
        AddSample(startSample);
        assert samples[..startSample + 1][..startSample] == samples[..startSample];
        startSample := startSample - 1;
      }
      w := startSample + 1;
    }

    /** The loops that turn sums into means. */
    method Divide()
      requires Shape()
      modifies average, stdev
      ensures forall m, j :: 0 <= m < KEYS && 0 <= j < PARAMS ==> stdev[m, j] == 0.0
      ensures forall m, j :: 0 <= m < KEYS && 0 <= j < PARAMS && sCount[m, j] > 0 ==>
        average[m, j] == old(average[m, j]) / sCount[m, j] as real
    {
      for k := 0 to KEYS
        invariant forall m, j :: 0 <= m < k && 0 <= j < PARAMS ==>
          stdev[m, j] == 0.0 && (sCount[m, j] > 0 ==> average[m, j] == old(average[m, j]) / sCount[m, j] as real)
        invariant forall m, j :: k <= m < KEYS && 0 <= j < PARAMS ==> average[m, j] == old(average[m, j])
      {
        for l := 0 to PARAMS
          invariant forall m, j :: 0 <= m < k && 0 <= j < PARAMS ==>
            stdev[m, j] == 0.0 && (sCount[m, j] > 0 ==> average[m, j] == old(average[m, j]) / sCount[m, j] as real)
          invariant forall j :: 0 <= j < l ==>
            stdev[k, j] == 0.0 && (sCount[k, j] > 0 ==> average[k, j] == old(average[k, j]) / sCount[k, j] as real)
          invariant forall j :: l <= j < PARAMS ==> average[k, j] == old(average[k, j])
          invariant forall m, j :: k < m < KEYS && 0 <= j < PARAMS ==> average[m, j] == old(average[m, j])
        {
          if sCount[k, l] > 0 {
            average[k, l] := average[k, l] / sCount[k, l] as real;
          }
          stdev[k, l] := 0.0;
        }
      }
    }

    /** The means are in place. */
    ghost predicate Averaged(w: nat)
      requires Valid() && w <= readSamples
      reads this, keys, samples, sCount, average
    {
      forall m, j :: 0 <= m < KEYS && 0 <= j < PARAMS ==>
        && sCount[m, j] == |Group(From(w), m, j)|
        && (sCount[m, j] > 0 ==> average[m, j] * sCount[m, j] as real == Regression.Sum(Group(From(w), m, j)))
    }

    /** The squared distances of the samples from `i` on are complete. */
    ghost predicate Deviated(i: nat)
      requires Valid() && i <= readSamples
      reads this, keys, samples, sCount, average, stdev
    {
      forall m, j :: 0 <= m < KEYS && 0 <= j < PARAMS && sCount[m, j] > 0 ==>
        stdev[m, j] == Regression.Around(Group(From(i), m, j), average[m, j])
    }

    method Means(w: nat)
      requires Valid() && w <= readSamples && Summed(w)
      modifies average, stdev
      ensures Averaged(w) && Deviated(readSamples)
    {
      hide Regression.Sum, Regression.Around;
      AroundNothing();
      Divide();
      assert From(readSamples) == [];
    }

    /** The inner loop of the second scan. */
    method AddDistance(s: Sample)
      requires Shape() && s.key < KEYS && |s.params| == PARAMS
      modifies stdev
      ensures forall m, j :: 0 <= m < KEYS && 0 <= j < PARAMS && sCount[m, j] > 0 ==>
        stdev[m, j] == old(stdev[m, j]) + (if m == s.key then Regression.Square(s.params[j] - average[m, j]) else 0.0)
    {
      hide Regression.Square;
      for k := 0 to PARAMS
        invariant forall m, j :: 0 <= m < KEYS && 0 <= j < PARAMS && !(m == s.key && j < k) ==> stdev[m, j] == old(stdev[m, j])
        invariant forall j :: 0 <= j < k && sCount[s.key, j] > 0 ==>
          stdev[s.key, j] == old(stdev[s.key, j]) + Regression.Square(s.params[j] - average[s.key, j])
      {
        if sCount[s.key, k] > 0 {
          stdev[s.key, k] := stdev[s.key, k] + Regression.Square(s.params[k] - average[s.key, k]);
        }
      }
    }

    method AddSampleDistance(i: nat)
      requires Valid() && i < readSamples && Deviated(i + 1)
      modifies stdev
      ensures Deviated(i)
    {
      hide Regression.Around, Regression.Square, Group;
      var s := samples[i];
      ghost var rest := From(i + 1);
      DistanceFront(s, rest);
      AddDistance(s);
      assert From(i) == [s] + rest && From(i + 1) == rest;
    }

    /** The second scan. */
    method Distances(startTime: int, ghost w: nat)
      requires Valid() && w == WindowStart(samples[..readSamples], startTime) && Deviated(readSamples)
      modifies stdev
      ensures Deviated(w)
    {
      hide Deviated, Table;
      var startSample: int := readSamples - 1;
      assert samples[..startSample + 1] == samples[..readSamples];
      while startSample >= 0 && samples[startSample].t > startTime
        invariant -1 <= startSample < readSamples
        invariant WindowStart(samples[..startSample + 1], startTime) == w
        invariant Deviated(startSample + 1)
      {
        AddSampleDistance(startSample);
        assert samples[..startSample + 1][..startSample] == samples[..startSample];
        startSample := startSample - 1;
      }
    }

    /** The loops that turn squared distances into deviations. */
    method Roots(sqrt: real -> real)
      requires Shape()
      modifies stdev
      ensures forall m, j :: 0 <= m < KEYS && 0 <= j < PARAMS && sCount[m, j] > 0 ==>
        stdev[m, j] == sqrt(old(stdev[m, j]) / sCount[m, j] as real)
    {
      for k := 0 to KEYS
        invariant forall m, j :: 0 <= m < k && 0 <= j < PARAMS && sCount[m, j] > 0 ==>
          stdev[m, j] == sqrt(old(stdev[m, j]) / sCount[m, j] as real)
        invariant forall m, j :: k <= m < KEYS && 0 <= j < PARAMS ==> stdev[m, j] == old(stdev[m, j])
      {
        for l := 0 to PARAMS
          invariant forall m, j :: 0 <= m < k && 0 <= j < PARAMS && sCount[m, j] > 0 ==>
            stdev[m, j] == sqrt(old(stdev[m, j]) / sCount[m, j] as real)
          invariant forall j :: 0 <= j < l && sCount[k, j] > 0 ==>
            stdev[k, j] == sqrt(old(stdev[k, j]) / sCount[k, j] as real)
          invariant forall j :: l <= j < PARAMS ==> stdev[k, j] == old(stdev[k, j])
          invariant forall m, j :: k < m < KEYS && 0 <= j < PARAMS ==> stdev[m, j] == old(stdev[m, j])
        {
          if sCount[k, l] > 0 {
            stdev[k, l] := sqrt(stdev[k, l] / sCount[k, l] as real);
          }
        }
      }
    }

    method Deviations(w: nat, sqrt: real -> real)
      requires Valid() && w <= readSamples && Averaged(w) && Deviated(w) && Regression.IsRoot(sqrt)
      modifies stdev
      ensures forall m, j :: 0 <= m < KEYS && 0 <= j < PARAMS ==>
        Reports(Group(From(w), m, j), sCount[m, j], average[m, j], stdev[m, j])
    {
      hide Regression.IsRoot, Regression.Sum, Regression.Around, Group;
      ghost var window := From(w);
      Roots(sqrt);
      assert From(w) == window;
      forall m, j | 0 <= m < KEYS && 0 <= j < PARAMS && sCount[m, j] > 0
        ensures Reports(Group(window, m, j), sCount[m, j], average[m, j], stdev[m, j])
      {
        var group := Group(window, m, j);
        Regression.AroundNonNegative(group, average[m, j]);
        Regression.RootOfMean(Regression.Around(group, average[m, j]), sCount[m, j] as real, sqrt);
      }
    }

    /** The statistics of a window: for every key and parameter, number, mean and deviation of the window's values. */
    method Calculate(startTime: int, sqrt: real -> real) returns (w: nat)
      requires Valid() && Regression.IsRoot(sqrt)
      modifies sCount, average, stdev
      ensures w == WindowStart(samples[..readSamples], startTime)
      ensures forall m, j :: 0 <= m < KEYS && 0 <= j < PARAMS ==>
        Reports(Group(From(w), m, j), sCount[m, j], average[m, j], stdev[m, j])
    {
      hide Summed, Averaged, Deviated, Regression.IsRoot, Reports, Table;
      w := Sums(startTime);
      Means(w);
      Distances(startTime, w);
      assert Averaged(w);
      Deviations(w, sqrt);
    }

    /** With records in the order of their times: for every key, what the records of that name in the window say. */
    method Report(startTime: int, sqrt: real -> real)
      requires Valid() && Regression.IsRoot(sqrt)
      requires forall i, j :: 0 <= i < j < |records| ==> records[i].t <= records[j].t
      modifies sCount, average, stdev
      ensures Valid() && forall i :: 0 <= i < |records| ==> |records[i].params| == PARAMS
      ensures forall m, j :: 0 <= m < used && 0 <= j < PARAMS ==>
        Reports(Values(records, startTime, keys[m], j), sCount[m, j], average[m, j], stdev[m, j])
    {
      hide Reports, Regression.IsRoot, WindowStart, InOrder;
      var w := Calculate(startTime, sqrt);
      ghost var all := samples[..readSamples];
      SortedIsInOrder(all, startTime);
      WindowMeans(all, startTime);
      forall m, j | 0 <= m < used && 0 <= j < PARAMS
        ensures Reports(Values(records, startTime, keys[m], j), sCount[m, j], average[m, j], stdev[m, j])
      {
        assert From(w) == all[w..];
        GroupIsValues(all, records, keys[..], used, startTime, w, m, j);
      }
    }
  }

  // ---------------------------------------------------------------- the whole log

  /** A line of the log: its time if it has one, its key or nothing, its parameters, and whether a report follows it. */
  datatype LogLine = LogLine(time: Option<int>, name: string, params: seq<real>, separates: bool)

  /** The time of the latest line that has one. */
  function TimeAfter(lines: seq<LogLine>): int {
    if lines == [] then 0
    else if lines[|lines| - 1].time.Some? then lines[|lines| - 1].time.value
    else TimeAfter(lines[..|lines| - 1])
  }

  /** All records of the log. */
  function RecordsOf(lines: seq<LogLine>): seq<Record> {
    if lines == [] then []
    else
      var line := lines[|lines| - 1];
      RecordsOf(lines[..|lines| - 1])
      + if line.name == "" then [] else [Record(TimeAfter(lines), line.name, line.params)]
  }

  /** The names of the records, each where it comes first. */
  function NamesOf(records: seq<Record>): seq<string> {
    if records == [] then []
    else
      var before, name := NamesOf(records[..|records| - 1]), records[|records| - 1].name;
      if name in before then before else before + [name]
  }

  /** The first 100 of them. */
  function FirstNames(records: seq<Record>): (names: seq<string>)
    ensures |names| <= 100
  {
    if |NamesOf(records)| <= 100 then NamesOf(records) else NamesOf(records)[..100]
  }

  function Kept(records: seq<Record>, names: seq<string>): seq<Record> {
    if records == [] then []
    else (if records[0].name in names then [records[0]] else []) + Kept(records[1..], names)
  }

  lemma {:induction false} NamesAreAll(records: seq<Record>)
    ensures forall i :: 0 <= i < |records| ==> records[i].name in NamesOf(records)
    ensures forall x :: x in NamesOf(records) ==> exists i :: 0 <= i < |records| && records[i].name == x
    ensures forall i, j :: 0 <= i < j < |NamesOf(records)| ==> NamesOf(records)[i] != NamesOf(records)[j]
  {
    if records != [] {
      NamesAreAll(records[..|records| - 1]);
    }
  }

  lemma {:induction false} KeptNext(records: seq<Record>, r: Record, names: seq<string>)
    ensures Kept(records + [r], names) == Kept(records, names) + if r.name in names then [r] else []
  {
    if records == [] {
      assert records + [r] == [r] && [r][1..] == [];
    } else {
      assert (records + [r])[1..] == records[1..] + [r];
      KeptNext(records[1..], r, names);
    }
  }

  lemma {:induction false} KeptWithNew(records: seq<Record>, names: seq<string>, name: string)
    requires forall i :: 0 <= i < |records| ==> records[i].name != name
    ensures Kept(records, names + [name]) == Kept(records, names)
  {
    if records != [] {
      KeptWithNew(records[1..], names, name);
    }
  }

  /** All records of a log are kept if they have at most 100 names. */
  lemma {:induction false} KeepsAllIfFew(records: seq<Record>)
    requires |NamesOf(records)| <= 100
    ensures Kept(records, FirstNames(records)) == records
  {
    NamesAreAll(records);
    KeepsAll(records, NamesOf(records));
  }

  lemma {:induction false} KeepsAll(records: seq<Record>, names: seq<string>)
    requires forall i :: 0 <= i < |records| ==> records[i].name in names
    ensures Kept(records, names) == records
  {
    if records != [] {
      KeepsAll(records[1..], names);
    }
  }

  /** One more record, as `Store` treats it. */
  lemma {:induction false} KeepsFirst(records: seq<Record>, r: Record)
    ensures var names, more := FirstNames(records), FirstNames(records + [r]);
            && more == names + (if r.name !in names && |names| < 100 then [r.name] else [])
            && Kept(records + [r], more) ==
               Kept(records, names) + if r.name in names || |names| < 100 then [r] else []
  {
    var names, more := FirstNames(records), FirstNames(records + [r]);
    assert (records + [r])[..|records|] == records;
    NamesAreAll(records);
    KeptNext(records, r, more);
    if r.name !in names && |names| < 100 {
      assert more == names + [r.name] && more[|names|] == r.name;
      KeptWithNew(records, names, r.name);
    } else {
      assert more == names;
    }
  }

  lemma {:induction false} ValuesOfKept(records: seq<Record>, names: seq<string>, startTime: int, name: string, k: nat)
    requires name in names && k < PARAMS && forall i :: 0 <= i < |records| ==> |records[i].params| == PARAMS
    ensures forall i :: 0 <= i < |Kept(records, names)| ==> |Kept(records, names)[i].params| == PARAMS
    ensures Values(Kept(records, names), startTime, name, k) == Values(records, startTime, name, k)
  {
    if records != [] {
      var r, rest := records[0], Kept(records[1..], names);
      ValuesOfKept(records[1..], names, startTime, name, k);
      if r.name in names {
        assert ([r] + rest)[1..] == rest;
      } else {
        assert [] + rest == rest;
      }
    }
  }

  /** What is printed for one parameter of one key. */
  datatype Cell = Cell(count: int, average: real, stdev: real)

  /** A report: the start of its window, the used keys, and a row of cells for each of them. */
  datatype Output = Output(startTime: int, names: seq<string>, rows: seq<seq<Cell>>)

  /**
   The report behind these lines: for each of the first 100 names and each parameter, number, mean and deviation of what
   all records of that name say that are younger than the start of the window.
   */
  ghost predicate ReportsOn(o: Output, lines: seq<LogLine>, nsamples: int) {
    var records := RecordsOf(lines);
    && (forall i :: 0 <= i < |records| ==> |records[i].params| == PARAMS)
    && o.startTime == TimeAfter(lines) - nsamples
    && o.names == FirstNames(records) && |o.rows| == |o.names|
    && forall m :: 0 <= m < |o.rows| ==> |o.rows[m]| == 10 && forall j :: 0 <= j < 10 ==>
         var c := o.rows[m][j];
         Reports(Values(records, o.startTime, o.names[m], j), c.count, c.average, c.stdev)
  }

  /** Lines with all ten parameters, whose times do not go back, and no more than there is room for. */
  ghost predicate Readable(lines: seq<LogLine>) {
    && |lines| <= SAMPLES
    && (forall i :: 0 <= i < |lines| && lines[i].name != "" ==> |lines[i].params| == PARAMS)
    && forall i, j :: 0 <= i < j < |RecordsOf(lines)| ==> RecordsOf(lines)[i].t <= RecordsOf(lines)[j].t
  }

  lemma {:induction false} NextLine(lines: seq<LogLine>, k: nat)
    requires k < |lines|
    ensures var line := lines[k];
            && TimeAfter(lines[..k + 1]) == (if line.time.Some? then line.time.value else TimeAfter(lines[..k]))
            && RecordsOf(lines[..k + 1]) == RecordsOf(lines[..k])
               + if line.name == "" then [] else [Record(TimeAfter(lines[..k + 1]), line.name, line.params)]
  {
    assert lines[..k + 1][..k] == lines[..k];
  }

  /** The records of the first lines are the first records. */
  lemma {:induction false} RecordsOfFirst(lines: seq<LogLine>, k: nat)
    requires k <= |lines|
    ensures |RecordsOf(lines[..k])| <= |RecordsOf(lines)|
    ensures RecordsOf(lines[..k]) == RecordsOf(lines)[..|RecordsOf(lines[..k])|]
    ensures |RecordsOf(lines)| <= |lines|
  {
    if k == |lines| {
      assert lines[..k] == lines;
      if k > 0 {
        RecordsOfFirst(lines[..k - 1], k - 1);
      }
    } else {
      var n := |lines| - 1;
      RecordsOfFirst(lines[..n], k);
      assert lines[..n][..k] == lines[..k] && lines[..n + 1] == lines;
      NextLine(lines, n);
    }
  }

  /** What is known of the records behind the first `k` lines of a readable log. */
  lemma {:induction false} ReadableFirst(lines: seq<LogLine>, k: nat)
    requires Readable(lines) && k <= |lines|
    ensures var r := RecordsOf(lines[..k]);
            && |r| <= k && (forall i, j :: 0 <= i < j < |r| ==> r[i].t <= r[j].t)
            && forall i :: 0 <= i < |r| ==> |r[i].params| == PARAMS
  {
    RecordsOfFirst(lines, k);
    RecordsOfFirst(lines[..k], k);
    RecordsHaveParams(lines[..k]);
  }

  lemma {:induction false} RecordsHaveParams(lines: seq<LogLine>)
    requires forall i :: 0 <= i < |lines| && lines[i].name != "" ==> |lines[i].params| == PARAMS
    ensures forall i :: 0 <= i < |RecordsOf(lines)| ==> |RecordsOf(lines)[i].params| == PARAMS
  {
    if lines != [] {
      RecordsHaveParams(lines[..|lines| - 1]);
    }
  }

  lemma {:induction false} KeptInOrder(records: seq<Record>, names: seq<string>)
    requires forall i, j :: 0 <= i < j < |records| ==> records[i].t <= records[j].t
    ensures var k := Kept(records, names);
            && |k| <= |records| && (forall i, j :: 0 <= i < j < |k| ==> k[i].t <= k[j].t)
            && forall i :: 0 <= i < |k| ==> k[i] in records
  {
    if records != [] {
      KeptInOrder(records[1..], names);
      var rest := Kept(records[1..], names);
      assert forall i :: 0 <= i < |rest| ==> rest[i].t >= records[0].t;
    }
  }

  /** The table and the records of the program are those of the lines read so far. */
  ghost predicate Holds(q: QueryRead, lines: seq<LogLine>)
    reads q, q.keys, q.samples
  {
    && q.Valid() && q.keys[..q.used] == FirstNames(RecordsOf(lines))
    && q.records == Kept(RecordsOf(lines), FirstNames(RecordsOf(lines))) && q.readSamples <= |lines|
  }

  /** A line is stored if it has a key that finds a place. */
  method ReadLine(q: QueryRead, line: LogLine, sampleTime: int, ghost lines: seq<LogLine>, ghost k: nat)
    requires Readable(lines) && k < |lines| && line == lines[k] && sampleTime == TimeAfter(lines[..k + 1])
    requires Holds(q, lines[..k])
    modifies q, q.keys, q.samples
    ensures Holds(q, lines[..k + 1])
  {
    hide TimeAfter, RecordsOf, Kept, Table, FirstNames;
    NextLine(lines, k);
    if line.name != "" {
      KeepsFirst(RecordsOf(lines[..k]), Record(sampleTime, line.name, line.params));
      assert |q.keys[..q.used]| == q.used by { UsedFits(q); }
      q.Store(Record(sampleTime, line.name, line.params));
    } else {
      assert RecordsOf(lines[..k + 1]) == RecordsOf(lines[..k]);
    }
  }

  lemma {:induction false} UsedFits(q: QueryRead)
    requires q.Valid()
    ensures q.used <= q.keys.Length == 100
  {
  }

  method PrintRow(q: QueryRead, n: nat) returns (row: seq<Cell>)
    requires q.Shape() && n < KEYS
    ensures |row| == 10 && forall j :: 0 <= j < 10 ==> row[j] == Cell(q.sCount[n, j], q.average[n, j], q.stdev[n, j])
  {
    row := [];
    for k := 0 to PARAMS
      invariant |row| == k
      invariant forall j :: 0 <= j < k ==> row[j] == Cell(q.sCount[n, j], q.average[n, j], q.stdev[n, j])
    {
      row := row + [Cell(q.sCount[n, k], q.average[n, k], q.stdev[n, k])];
    }
  }

  /** What a report prints. */
  method Print(q: QueryRead, startTime: int) returns (o: Output)
    requires q.Valid()
    ensures o.startTime == startTime && q.used <= KEYS == q.keys.Length && o.names == q.keys[..q.used]
    ensures |o.rows| == q.used && forall m :: 0 <= m < |o.rows| ==> |o.rows[m]| == 10
    ensures forall m, j :: 0 <= m < |o.rows| && 0 <= j < 10 ==>
              o.rows[m][j] == Cell(q.sCount[m, j], q.average[m, j], q.stdev[m, j])
  {
    var names, rows := [], [];
    for n := 0 to KEYS
      invariant |rows| == |names| == Min(n, q.used) && names == q.keys[..|names|]
      invariant forall m :: 0 <= m < |rows| ==> |rows[m]| == 10
      invariant forall m, j :: 0 <= m < |rows| && 0 <= j < 10 ==>
        rows[m][j] == Cell(q.sCount[m, j], q.average[m, j], q.stdev[m, j])
    {
      if q.keys[n] != "" {
        var row := PrintRow(q, n);
        names, rows := names + [q.keys[n]], rows + [row];
      }
    }
    o := Output(startTime, names, rows);
  }

  /** The report behind the lines read so far. */
  method ReportOn(q: QueryRead, sampleTime: int, nsamples: int, sqrt: real -> real, ghost lines: seq<LogLine>,
                  ghost k: nat)
      returns (o: Output)
    requires Readable(lines) && k <= |lines| && Holds(q, lines[..k]) && sampleTime == TimeAfter(lines[..k])
    requires Regression.IsRoot(sqrt)
    modifies q.sCount, q.average, q.stdev
    ensures Holds(q, lines[..k]) && ReportsOn(o, lines[..k], nsamples)
  {
    hide TimeAfter, RecordsOf, Kept, Table, FirstNames, Values, Reports, Regression.IsRoot, Readable;
    ghost var records, names := RecordsOf(lines[..k]), FirstNames(RecordsOf(lines[..k]));
    ReadableFirst(lines, k);
    KeptInOrder(records, names);
    q.Report(sampleTime - nsamples, sqrt);
    o := Print(q, sampleTime - nsamples);
    forall m, j | 0 <= m < |o.rows| && 0 <= j < 10
      ensures var c := o.rows[m][j];
              Reports(Values(records, o.startTime, o.names[m], j), c.count, c.average, c.stdev)
    {
      assert q.keys[..q.used][m] == q.keys[m];
      ValuesOfKept(records, names, o.startTime, names[m], j);
    }
  }

  /** Of the first `k` lines exactly those that separate are followed by a report on all lines up to them, in order. */
  ghost predicate Reported(reports: seq<Output>, places: seq<nat>, lines: seq<LogLine>, k: nat, nsamples: int) {
    && k <= |lines| && |reports| == |places| && (forall i, j :: 0 <= i < j < |places| ==> places[i] < places[j])
    && (forall j: nat :: j in places <==> j < k && lines[j].separates)
    && forall i :: 0 <= i < |places| ==> places[i] < k && ReportsOn(reports[i], lines[..places[i] + 1], nsamples)
  }

  lemma {:induction false} ReportedNone(lines: seq<LogLine>, nsamples: int)
    ensures Reported([], [], lines, 0, nsamples)
  {
  }

  lemma {:induction false} ReportedNext(reports: seq<Output>, places: seq<nat>, lines: seq<LogLine>, k: nat,
                                        nsamples: int, o: Output)
    requires Reported(reports, places, lines, k, nsamples) && k < |lines| && lines[k].separates
    requires ReportsOn(o, lines[..k + 1], nsamples)
    ensures Reported(reports + [o], places + [k], lines, k + 1, nsamples)
  {
    hide ReportsOn;
    assert forall j: nat :: j in places + [k] <==> j in places || j == k;
  }

  lemma {:induction false} ReportedSame(reports: seq<Output>, places: seq<nat>, lines: seq<LogLine>, k: nat,
                                        nsamples: int)
    requires Reported(reports, places, lines, k, nsamples) && k < |lines| && !lines[k].separates
    ensures Reported(reports, places, lines, k + 1, nsamples)
  {
    hide ReportsOn;
  }

  /** `main`: a report behind every line that separates, on all lines up to it. */
  method ReadLog(lines: seq<LogLine>, nsamples: int, sqrt: real -> real)
      returns (reports: seq<Output>, places: seq<nat>)
    requires Readable(lines) && Regression.IsRoot(sqrt)
    ensures Reported(reports, places, lines, |lines|, nsamples)
  {
    hide TimeAfter, Readable, Holds, ReportsOn, Reported, Regression.IsRoot;
    var q := new QueryRead();
    var sampleTime := 0;
    reports, places := [], [];
    HoldsNothing(q, lines);
    ReportedNone(lines, nsamples);
    for k := 0 to |lines|
      invariant fresh(q) && fresh(q.keys) && fresh(q.samples) && fresh(q.sCount) && fresh(q.average) && fresh(q.stdev)
      invariant Holds(q, lines[..k]) && sampleTime == TimeAfter(lines[..k])
      invariant Reported(reports, places, lines, k, nsamples)
    {
      NextLine(lines, k);
      if lines[k].time.Some? {
        sampleTime := lines[k].time.value;
      }
      ReadLine(q, lines[k], sampleTime, lines, k);
      if lines[k].separates {
        var o := ReportOn(q, sampleTime, nsamples, sqrt, lines, k + 1);
        ReportedNext(reports, places, lines, k, nsamples, o);
        reports, places := reports + [o], places + [k];
      } else {
        ReportedSame(reports, places, lines, k, nsamples);
      }
    }
  }

  lemma {:induction false} HoldsNothing(q: QueryRead, lines: seq<LogLine>)
    requires q.Valid() && q.records == [] && q.used == 0 && q.readSamples == 0
    ensures Holds(q, lines[..0]) && TimeAfter(lines[..0]) == 0
  {
    assert lines[..0] == [];
  }

  /** The values of one parameter in the records of one name that are younger than `startTime`. */
  function Values(records: seq<Record>, startTime: int, name: string, k: nat): seq<real>
    requires forall i :: 0 <= i < |records| ==> |records[i].params| == PARAMS
    requires k < PARAMS
  {
    if records == [] then []
    else (if records[0].t > startTime && records[0].name == name then [records[0].params[k]] else [])
         + Values(records[1..], startTime, name, k)
  }

  lemma {:induction false} WindowMeans(samples: seq<Sample>, startTime: int)
    requires InOrder(samples, startTime)
    ensures forall i :: 0 <= i < |samples| ==> (WindowStart(samples, startTime) <= i <==> samples[i].t > startTime)
  {
    WindowIsFilterIff(samples, startTime);
  }

  /** The samples are the records, with the places of their names in the table. */
  ghost predicate Matches(samples: seq<Sample>, records: seq<Record>, keys: seq<string>, used: nat) {
    && |samples| == |records| && Table(keys, used)
    && forall i :: 0 <= i < |samples| ==>
         var s, r := samples[i], records[i];
         s.t == r.t && s.params == r.params && |s.params| == |r.params| == PARAMS && s.key < used && keys[s.key] == r.name
  }

  /** Grouping by place in the window is grouping by name among the young records. */
  lemma {:induction false} GroupIsValues(samples: seq<Sample>, records: seq<Record>, keys: seq<string>, used: nat,
                                         startTime: int, w: nat, m: nat, k: nat)
    requires Matches(samples, records, keys, used) && m < used && k < PARAMS && w <= |samples|
    requires forall i :: 0 <= i < |samples| ==> (w <= i <==> samples[i].t > startTime)
    ensures Group(samples[w..], m, k) == Values(records, startTime, keys[m], k)
    decreases |samples|
  {
    if samples != [] {
      hide Table;
      var ss, rr := samples[1..], records[1..];
      var w' := if w == 0 then 0 else w - 1;
      assert forall i :: 0 <= i < |ss| ==> ss[i] == samples[i + 1] && rr[i] == records[i + 1];
      GroupIsValues(ss, rr, keys, used, startTime, w', m, k);
      if w == 0 {
        assert samples[0..] == samples && samples[0..][1..] == ss == ss[0..];
        PlaceIsName(keys, used, samples[0].key, m);
      } else {
        assert samples[w..] == ss[w'..];
        assert samples[0].t <= startTime;
        assert [] + Values(rr, startTime, keys[m], k) == Values(rr, startTime, keys[m], k);
      }
    }
  }

  lemma {:induction false} PlaceIsName(keys: seq<string>, used: nat, i: nat, j: nat)
    requires Table(keys, used) && i < used && j < used
    ensures i == j <==> keys[i] == keys[j]
  {
  }

  /** The number of samples of the window under the first `n` keys. */
  function CountBelow(window: seq<Sample>, n: nat, k: nat): nat
    requires forall i :: 0 <= i < |window| ==> |window[i].params| == PARAMS
    requires k < PARAMS
  {
    if n == 0 then 0 else CountBelow(window, n - 1, k) + |Group(window, n - 1, k)|
  }

  lemma {:induction false} GroupStep(window: seq<Sample>, m: nat, k: nat)
    requires window != [] && k < PARAMS && forall i :: 0 <= i < |window| ==> |window[i].params| == PARAMS
    ensures |Group(window, m, k)| == |Group(window[1..], m, k)| + if window[0].key == m then 1 else 0
  {
  }

  lemma {:induction false} CountStep(window: seq<Sample>, n: nat, k: nat)
    requires window != [] && k < PARAMS && forall i :: 0 <= i < |window| ==> |window[i].params| == PARAMS
    ensures CountBelow(window, n, k) == CountBelow(window[1..], n, k) + if window[0].key < n then 1 else 0
  {
    hide Group, CountBelow;
    if n > 0 {
      CountStep(window, n - 1, k);
      GroupStep(window, n - 1, k);
      OneMoreKey(window, n, k);
      OneMoreKey(window[1..], n, k);
    } else {
      NoKeys(window, k);
      NoKeys(window[1..], k);
    }
  }

  lemma {:induction false} OneMoreKey(window: seq<Sample>, n: nat, k: nat)
    requires n > 0 && k < PARAMS && forall i :: 0 <= i < |window| ==> |window[i].params| == PARAMS
    ensures CountBelow(window, n, k) == CountBelow(window, n - 1, k) + |Group(window, n - 1, k)|
  {
    hide Group;
  }

  lemma {:induction false} NoKeys(window: seq<Sample>, k: nat)
    requires k < PARAMS && forall i :: 0 <= i < |window| ==> |window[i].params| == PARAMS
    ensures CountBelow(window, 0, k) == 0
  {
  }

  /** The counts of all keys add up to the size of the window. */
  lemma {:induction false} CountsAddUp(window: seq<Sample>, k: nat)
    requires k < PARAMS && forall i :: 0 <= i < |window| ==> |window[i].params| == PARAMS && window[i].key < KEYS
    ensures CountBelow(window, KEYS, k) == |window|
  {
    if window == [] {
      CountNothing(KEYS, k);
    } else {
      CountsAddUp(window[1..], k);
      CountStep(window, KEYS, k);
    }
  }

  lemma {:induction false} CountNothing(n: nat, k: nat)
    requires k < PARAMS
    ensures CountBelow([], n, k) == 0
  {
    if n > 0 {
      CountNothing(n - 1, k);
    }
  }

  /** The printed deviation squared is the mean of the squares less the square of the mean. */
  lemma {:induction false} DeviationIsVariance(group: seq<real>, count: int, average: real, stdev: real)
    requires Reports(group, count, average, stdev) && count > 0
    ensures stdev * stdev == Regression.Dot(group, group) / count as real - average * average
  {
    hide Regression.Sum, Regression.Dot, Regression.Around;
    var n := count as real;
    Regression.AroundIs(group, average);
    var d, s := Regression.Dot(group, group), Regression.Sum(group);
    VarianceOf(stdev * stdev, n, average, s, d);
  }

  lemma {:induction false} VarianceOf(v: real, n: real, average: real, s: real, d: real)
    requires n > 0.0 && average * n == s && v * n == Regression.AroundSums(n, s, d, average)
    ensures v == d / n - average * average
  {
    var q := d / n;
    assert q * n == d;
    var e := v - (q - average * average);
    assert 2.0 * average * s == 2.0 * (average * average) * n;
    assert e * n == v * n - q * n + average * average * n;
    Regression.Cancel(e, n);
  }

  lemma {:induction false} AroundNothing()
    ensures forall p {:trigger Regression.Around([], p)} :: Regression.Around([], p) == 0.0
  {
  }

  lemma {:induction false} DistanceFront(s: Sample, rest: seq<Sample>)
    requires |s.params| == PARAMS && forall i :: 0 <= i < |rest| ==> |rest[i].params| == PARAMS
    ensures forall m: nat, j: nat, p: real {:trigger Regression.Around(Group([s] + rest, m, j), p)} | j < PARAMS ::
      Regression.Around(Group([s] + rest, m, j), p) ==
      Regression.Around(Group(rest, m, j), p) + (if m == s.key then Regression.Square(s.params[j] - p) else 0.0)
  {
    hide Regression.Around, Regression.Square;
    assert ([s] + rest)[1..] == rest;
    forall m: nat, j: nat, p: real | j < PARAMS
      ensures Regression.Around(Group([s] + rest, m, j), p) ==
              Regression.Around(Group(rest, m, j), p) + (if m == s.key then Regression.Square(s.params[j] - p) else 0.0)
    {
      AroundFront(s.params[j], Group(rest, m, j), p);
      assert [] + Group(rest, m, j) == Group(rest, m, j);
    }
  }

  lemma {:induction false} SumOfNothing()
    ensures Regression.Sum([]) == 0.0
  {
  }

  lemma {:induction false} GroupFront(s: Sample, rest: seq<Sample>)
    requires |s.params| == PARAMS && forall i :: 0 <= i < |rest| ==> |rest[i].params| == PARAMS
    ensures forall m: nat, j: nat {:trigger Group([s] + rest, m, j)} | j < PARAMS ::
      && Group([s] + rest, m, j) == (if m == s.key then [s.params[j]] else []) + Group(rest, m, j)
      && |Group([s] + rest, m, j)| == |Group(rest, m, j)| + (if m == s.key then 1 else 0)
      && Regression.Sum(Group([s] + rest, m, j)) == Regression.Sum(Group(rest, m, j)) + (if m == s.key then s.params[j] else 0.0)
  {
    hide Regression.Sum;
    assert ([s] + rest)[1..] == rest;
    forall m: nat, j: nat | j < PARAMS
      ensures
        && Group([s] + rest, m, j) == (if m == s.key then [s.params[j]] else []) + Group(rest, m, j)
        && |Group([s] + rest, m, j)| == |Group(rest, m, j)| + (if m == s.key then 1 else 0)
        && Regression.Sum(Group([s] + rest, m, j)) == Regression.Sum(Group(rest, m, j)) + (if m == s.key then s.params[j] else 0.0)
    {
      SumFront(s.params[j], Group(rest, m, j));
      assert [] + Group(rest, m, j) == Group(rest, m, j);
    }
  }
}
