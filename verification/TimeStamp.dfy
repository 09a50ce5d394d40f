/**
 Times as text: `strToAbsTime`, which reads a duration or a time of day. A timestamp is split on a linear calendar,
 a day being 24 hours.
 */
module TimeStamp {
  import opened Basics

  const SECOND: int := 1000000
  const INT_MODULUS: int := 0x1_0000_0000

  // ---------------------------------------------------------------- numbers and tokens of the C library

  /** A value that is stored in an `int`. */
  function ToInt(v: int): (i: int)
    ensures -0x8000_0000 <= i < 0x8000_0000
  {
    var w := v % INT_MODULUS;
    if w < 0x8000_0000 then w else w - INT_MODULUS
  }

  predicate IsDigit(c: char) {
    '0' <= c <= '9'
  }

  predicate IsSpace(c: char) {
    c == ' ' || '\t' <= c <= '\r'
  }

  function SkipSpace(s: string): string {
    if s != "" && IsSpace(s[0]) then SkipSpace(s[1..]) else s
  }

  /** The number that the digits at the front of `s` go on to spell, after `v`. */
  function Decimal(s: string, v: nat): nat {
    if s != "" && IsDigit(s[0]) then Decimal(s[1..], 10 * v + (s[0] as int - '0' as int)) else v
  }

  /** `strtoul` with base 10, on 64-bit `unsigned long`. */
  function StrToUl(s: string): int {
    var t := SkipSpace(s);
    var signed := t != "" && (t[0] == '+' || t[0] == '-');
    var v := Decimal(if signed then t[1..] else t, 0);
    if v >= TIME_MODULUS then TIME_MODULUS - 1
    else if signed && t[0] == '-' then (TIME_MODULUS - v) % TIME_MODULUS
    else v
  }

  predicate Delimits(c: char) {
    c == ' ' || c == ':'
  }

  function SkipDelimiters(s: string): (r: string)
    ensures |r| <= |s| && (r != "" ==> !Delimits(r[0]))
  {
    if s != "" && Delimits(s[0]) then SkipDelimiters(s[1..]) else s
  }

  /** The length of the token at the front of `s`. */
  function TokenLength(s: string): (n: nat)
    ensures n <= |s|
  {
    if s == "" || Delimits(s[0]) then 0 else 1 + TokenLength(s[1..])
  }

  /** The tokens that repeated calls of `strtok` with the delimiters " :" find. */
  function Tokens(s: string): seq<string>
    decreases |s|
  {
    var t := SkipDelimiters(s);
    if t == "" then [] else
    var n := TokenLength(t);
    [t[..n]] + Tokens(t[n..])
  }

  /** `strtok` keeps the position of its next call. */
  class Strtok {
    var rest: string

    constructor (s: string)
      ensures rest == s
    {
      rest := s;
    }

    method Next() returns (param: Option<string>)
      modifies this
      ensures param == if Tokens(old(rest)) == [] then None else Some(Tokens(old(rest))[0])
      ensures Tokens(rest) == if Tokens(old(rest)) == [] then [] else Tokens(old(rest))[1..]
    {
      var t := SkipDelimiters(rest);
      if t == "" {
        rest := t;
        return None;
      }
      var n := TokenLength(t);
      rest := t[n..];
      return Some(t[..n]);
    }
  }

  // ---------------------------------------------------------------- strToAbsTime

  /** The fields of `SYSTEMTIME` that take part, with the date as a day number. */
  datatype SysTime = SysTime(day: int, hour: int, minute: int, second: int, millis: int)

  function TimeToSysTime(a: TimeT): SysTime {
    var t := a / SECOND;
    SysTime(t / 86400, t / 3600 % 24, t / 60 % 60, t % 60, a / 1000 % 1000)
  }

  /** Out-of-range fields carry, as `mktime` lets them. */
  function SysTimeToTime(st: SysTime): TimeT {
    ((((st.day * 24 + st.hour) * 60 + st.minute) * 60 + st.second) * SECOND + st.millis * 1000) % TIME_MODULUS
  }

  /** Hours, minutes and seconds as given; -1 for hours or minutes that are not. */
  datatype Fields = Fields(hrs: int, mins: int, secs: int)

  function Number(token: string): int {
    ToInt(StrToUl(token))
  }

  /** What one to four numbers mean: ss, mm:ss, hh:mm:ss or dd:hh:mm:ss. */
  function Meaning(tokens: seq<string>): Fields {
    if |tokens| == 0 then Fields(-1, -1, 0)
    else if |tokens| == 1 then Fields(-1, -1, Number(tokens[0]))
    else if |tokens| == 2 then Fields(-1, Number(tokens[0]), Number(tokens[1]))
    else if |tokens| == 3 then Fields(Number(tokens[0]), Number(tokens[1]), Number(tokens[2]))
    else Fields(ToInt(Number(tokens[0]) * 24 + Number(tokens[1])), Number(tokens[2]), Number(tokens[3]))
  }

  /** The duration of the fields in seconds. */
  function Duration(f: Fields): int {
    f.secs + Max(0, f.mins) * 60 + Max(0, f.hrs) * 3600
  }

  /** How far a field has to move on from `now` to reach `wanted`; a carry adds a whole turn. */
  function Lift(now: int, wanted: int, turn: int): int {
    if now > wanted then wanted - now + turn else wanted - now
  }

  /** How many seconds the fields lie ahead of the second `st`; a field that is not given does not move. */
  function Ahead(st: SysTime, f: Fields): int {
    (if f.hrs >= 0 then Lift(st.hour, f.hrs, 24) * 3600 else 0)
    + (if f.mins >= 0 then Lift(st.minute, f.mins, 60) * 60 else 0)
    + Lift(st.second, f.secs, 60)
  }

  function FloorToSecond(a: TimeT): TimeT {
    a / SECOND * SECOND
  }

  /** `strToAbsTime`: nothing, a duration that is added, or the next time of day of that form. */
  function AbsTime(s: string, start: TimeT): TimeT {
    var f := Meaning(Tokens(s));
    if s == "" then 0
    else if s[0] == '+' || start == 0 then (start + Duration(f) * SECOND) % TIME_MODULUS
    else (FloorToSecond(start) + Ahead(TimeToSysTime(start), f) * SECOND) % TIME_MODULUS
  }

  lemma {:induction false} SplitTime(a: TimeT)
    ensures var st := TimeToSysTime(a);
            && 0 <= st.hour < 24 && 0 <= st.minute < 60 && 0 <= st.second < 60 && 0 <= st.day
            && a / SECOND == ((st.day * 24 + st.hour) * 60 + st.minute) * 60 + st.second
  {
    var t := a / SECOND;
    assert t / 60 / 60 == t / 3600 && t / 3600 / 24 == t / 86400;
  }

  /** Splitting a time and putting it together again loses what is below a millisecond. */
  lemma {:induction false} TimeRoundTrip(a: TimeT)
    ensures SysTimeToTime(TimeToSysTime(a)) == a / 1000 * 1000
  {
    hide TimeToSysTime;
    SplitTime(a);
    assert TimeToSysTime(a).millis == a / 1000 % 1000 by { MillisOf(a); }
    assert a / 1000 == a / SECOND * 1000 + a / 1000 % 1000 by {
      assert a / 1000 / 1000 == a / SECOND;
    }
  }

  lemma {:induction false} MillisOf(a: TimeT)
    ensures TimeToSysTime(a).millis == a / 1000 % 1000
  {
  }

  /** The cast to `timeT` before the scaling does not change the sum: all of it is modulo 2^64. */
  lemma {:induction false} ScaledModulo(start: int, x: int, k: int)
    requires k == x / TIME_MODULUS
    ensures (start + x % TIME_MODULUS * SECOND) % TIME_MODULUS == (start + x * SECOND) % TIME_MODULUS
  {
    var y := start + x % TIME_MODULUS * SECOND;
    assert x == k * TIME_MODULUS + x % TIME_MODULUS;
    assert start + x * SECOND == y + k * SECOND * TIME_MODULUS;
    Turns(y, k * SECOND);
  }

  lemma {:induction false} Turns(y: int, k: int)
    ensures (y + k * TIME_MODULUS) % TIME_MODULUS == y % TIME_MODULUS
  {
    var q, r := y / TIME_MODULUS, y % TIME_MODULUS;
    assert y + k * TIME_MODULUS == (q + k) * TIME_MODULUS + r;
  }

  /** What the edits of the absolute form make of the fields of `start`. */
  function Moved(st: SysTime, f: Fields): SysTime {
    SysTime(st.day + (if f.hrs >= 0 && st.hour > f.hrs then 1 else 0),
            (if f.hrs >= 0 then f.hrs else st.hour) + (if f.mins >= 0 && st.minute > f.mins then 1 else 0),
            (if f.mins >= 0 then f.mins else st.minute) + (if st.second > f.secs then 1 else 0),
            f.secs, 0)
  }

  lemma {:induction false} MovedAhead(start: TimeT, f: Fields)
    ensures SysTimeToTime(Moved(TimeToSysTime(start), f)) ==
            (FloorToSecond(start) + Ahead(TimeToSysTime(start), f) * SECOND) % TIME_MODULUS
  {
    hide TimeToSysTime;
    SplitTime(start);
  }

  /** The fields shift as numbers come in: each of them is the seconds until another one follows. */
  method ReadFields(s: string) returns (hrs: int, mins: int, secs: int)
    ensures Fields(hrs, mins, secs) == Meaning(Tokens(s))
  {
    hide Number, ToInt, Tokens;
    hrs, mins, secs := -1, -1, 0;
    var strtok := new Strtok(s);
    var param := strtok.Next();
    if param.Some? {
      secs := Number(param.value);
    }
    param := strtok.Next();
    if param.Some? {
      mins := secs;
      secs := Number(param.value);
    }
    param := strtok.Next();
    if param.Some? {
      hrs := mins;
      mins := secs;
      secs := Number(param.value);
    }
    param := strtok.Next();
    if param.Some? {
      hrs := ToInt(hrs * 24 + mins);
      mins := secs;
      secs := Number(param.value);
    }
  }

  /** The absolute form: each given field is set, and one that would go back carries into the next. */
  method RollForward(start: TimeT, hrs: int, mins: int, secs: int) returns (r: TimeT)
    ensures r == (FloorToSecond(start) + Ahead(TimeToSysTime(start), Fields(hrs, mins, secs)) * SECOND) % TIME_MODULUS
  {
    hide TimeToSysTime, SysTimeToTime, Ahead, FloorToSecond;
    var st := TimeToSysTime(start);
    if hrs >= 0 {
      if st.hour > hrs { st := st.(day := st.day + 1); }
      st := st.(hour := hrs);
    }
    if mins >= 0 {
      if st.minute > mins { st := st.(hour := st.hour + 1); }
      st := st.(minute := mins);
    }
    if st.second > secs { st := st.(minute := st.minute + 1); }
    st := st.(second := secs, millis := 0);
    assert st == Moved(TimeToSysTime(start), Fields(hrs, mins, secs));
    MovedAhead(start, Fields(hrs, mins, secs));
    r := SysTimeToTime(st);
  }

  method StrToAbsTime(s: string, start: TimeT) returns (r: TimeT)
    ensures r == AbsTime(s, start)
  {
    hide Meaning, TimeToSysTime, Ahead, FloorToSecond;
    if |s| == 0 {
      return 0;
    }
    var hrs, mins, secs := ReadFields(s);
    if s[0] == '+' || start == 0 {
      if hrs < 0 { hrs := 0; }
      if mins < 0 { mins := 0; }
      var total := secs + mins * 60 + hrs * 3600;
      ScaledModulo(start, total, total / TIME_MODULUS);
      r := (start + total % TIME_MODULUS * SECOND) % TIME_MODULUS;
    } else {
      r := RollForward(start, hrs, mins, secs);
    }
  }

  // ---------------------------------------------------------------- the time of day

  predicate InRange(f: Fields) {
    f.hrs < 24 && f.mins < 60 && 0 <= f.secs < 60
  }

  /** The distance to the fields in seconds, as a clock counts it. */
  function ClockDistance(st: SysTime, f: Fields): nat {
    (if f.hrs >= 0 then (f.hrs - st.hour) % 24 * 3600 else 0)
    + (if f.mins >= 0 then (f.mins - st.minute) % 60 * 60 else 0)
    + (f.secs - st.second) % 60
  }

  lemma {:induction false} LiftIsModulo(now: int, wanted: int, turn: int)
    requires 0 <= now < turn && 0 <= wanted < turn
    ensures Lift(now, wanted, turn) == (wanted - now) % turn
  {
    var d := Lift(now, wanted, turn);
    assert 0 <= d < turn;
    if now > wanted {
      assert wanted - now == (-1) * turn + d;
      assert (wanted - now) % turn == d by {
        ModuloUnique(wanted - now, turn, -1, d);
      }
    } else {
      ModuloUnique(wanted - now, turn, 0, d);
    }
  }

  lemma {:induction false} ModuloUnique(x: int, d: int, q: int, r: int)
    requires d > 0 && x == q * d + r && 0 <= r < d
    ensures x % d == r && x / d == q
  {
    var k := x / d - q;
    assert x == (q + k) * d + x % d;
    assert (q + k) * d == q * d + k * d;
    assert k <= 0 by {
      assert k >= 1 ==> k * d >= d;
    }
    assert k >= 0 by {
      assert k <= -1 ==> k * d <= -1 * d;
    }
  }

  /**
   A time of day with fields in range: the result is on a full second, not before the second of `start`, less than a day
   ahead of it (an hour, a minute when the higher fields are not given), at the clock distance of each field.
   */
  lemma {:induction false} RollsForward(s: string, start: TimeT)
    requires s != "" && s[0] != '+' && start != 0
    requires InRange(Meaning(Tokens(s))) && start + 86400 * SECOND < TIME_MODULUS
    ensures var f, st := Meaning(Tokens(s)), TimeToSysTime(start);
            && AbsTime(s, start) == FloorToSecond(start) + ClockDistance(st, f) * SECOND
            && ClockDistance(st, f) < (if f.hrs >= 0 then 86400 else if f.mins >= 0 then 3600 else 60)
  {
    hide Tokens, TimeToSysTime, Meaning, Ahead, ClockDistance;
    SplitTime(start);
    AheadIsDistance(TimeToSysTime(start), Meaning(Tokens(s)));
  }

  lemma {:induction false} AheadIsDistance(st: SysTime, f: Fields)
    requires 0 <= st.hour < 24 && 0 <= st.minute < 60 && 0 <= st.second < 60 && InRange(f)
    ensures Ahead(st, f) == ClockDistance(st, f) < (if f.hrs >= 0 then 86400 else if f.mins >= 0 then 3600 else 60)
  {
    if f.hrs >= 0 { LiftIsModulo(st.hour, f.hrs, 24); }
    if f.mins >= 0 { LiftIsModulo(st.minute, f.mins, 60); }
    LiftIsModulo(st.second, f.secs, 60);
  }

  lemma {:induction false} FieldsOf(t: nat, day: nat, hour: nat, minute: nat, second: nat)
    requires hour < 24 && minute < 60 && second < 60
    requires t == ((day * 24 + hour) * 60 + minute) * 60 + second && t * SECOND < TIME_MODULUS
    ensures TimeToSysTime(t * SECOND) == SysTime(day, hour, minute, second, 0)
  {
    var hours := day * 24 + hour;
    ModuloUnique(t, 60, hours * 60 + minute, second);
    ModuloUnique(hours * 60 + minute, 60, hours, minute);
    ModuloUnique(t, 3600, hours, minute * 60 + second);
    ModuloUnique(hours, 24, day, hour);
    ModuloUnique(t, 86400, day, (hour * 60 + minute) * 60 + second);
    ModuloUnique(t * SECOND, SECOND, t, 0);
    ModuloUnique(t * SECOND, 1000, t * 1000, 0);
    ModuloUnique(t * 1000, 1000, t, 0);
  }

  /** The edited fields with their carries done: a carry overshoots a field by one at most. */
  function Carried(to: SysTime): SysTime {
    var minute := if to.minute == 60 then 0 else to.minute;
    var hours := to.hour + if to.minute == 60 then 1 else 0;
    SysTime(to.day + (if hours >= 24 then 1 else 0), if hours >= 24 then hours - 24 else hours, minute, to.second, 0)
  }

  lemma {:induction false} CarriedSeconds(to: SysTime)
    ensures var c := Carried(to);
            ((c.day * 24 + c.hour) * 60 + c.minute) * 60 + c.second
            == ((to.day * 24 + to.hour) * 60 + to.minute) * 60 + to.second
  {
  }

  lemma {:induction false} MovedSeconds(st: SysTime, f: Fields)
    ensures var to := Moved(st, f);
            ((to.day * 24 + to.hour) * 60 + to.minute) * 60 + to.second
            == ((st.day * 24 + st.hour) * 60 + st.minute) * 60 + st.second + Ahead(st, f)
  {
  }

  lemma {:induction false} MovedRange(st: SysTime, f: Fields)
    requires 0 <= st.hour < 24 && 0 <= st.minute < 60 && 0 <= st.second < 60 && 0 <= st.day && InRange(f)
    ensures var c := Carried(Moved(st, f));
            0 <= c.day && 0 <= c.hour < 24 && 0 <= c.minute < 60 && 0 <= c.second < 60
  {
  }

  /** Where a time of day arrives, field by field. */
  lemma {:induction false} ArrivesAt(start: TimeT, f: Fields)
    requires InRange(f) && start + 86400 * SECOND < TIME_MODULUS
    ensures var st := TimeToSysTime(start);
            && 0 <= FloorToSecond(start) + Ahead(st, f) * SECOND < TIME_MODULUS
            && TimeToSysTime(FloorToSecond(start) + Ahead(st, f) * SECOND) == Carried(Moved(st, f))
  {
    hide TimeToSysTime, Moved, Carried, Ahead, ClockDistance;
    var st := TimeToSysTime(start);
    SplitTime(start);
    AheadIsDistance(st, f);
    MovedSeconds(st, f);
    CarriedSeconds(Moved(st, f));
    MovedRange(st, f);
    var c := Carried(Moved(st, f));
    FieldsOf(start / SECOND + Ahead(st, f), c.day, c.hour, c.minute, c.second);
    CarriedIs(Moved(st, f));
  }

  lemma {:induction false} CarriedIs(to: SysTime)
    ensures var c := Carried(to); c == SysTime(c.day, c.hour, c.minute, c.second, 0)
  {
  }

  /** The time shows the fields that are given. */
  predicate Shows(met: SysTime, f: Fields) {
    (f.hrs >= 0 ==> met.hour == f.hrs) && (f.mins >= 0 ==> met.minute == f.mins) && met.second == f.secs
  }

  /** No given field gets a carry from the next lower one: the seconds into the minutes, the minutes into the hours. */
  predicate NoCarry(st: SysTime, f: Fields) {
    && (f.mins >= 0 ==> st.second <= f.secs)
    && (f.hrs >= 0 && f.mins >= 0 ==> st.minute <= f.mins)
    && (f.hrs >= 0 && f.mins < 0 ==> st.minute < 59 || st.second <= f.secs)
  }

  lemma {:induction false} ShownIff(st: SysTime, f: Fields)
    requires 0 <= st.hour < 24 && 0 <= st.minute < 60 && 0 <= st.second < 60 && InRange(f)
    ensures Shows(Carried(Moved(st, f)), f) <==> NoCarry(st, f)
  {
  }

  /**
   A time of day is met exactly when no given field gets a carry. So a request ss always is, mm:ss if the seconds do not
   have to carry, and hh:mm:ss if neither minutes nor seconds do.
   */
  lemma {:induction false} MeetsRequestIff(s: string, start: TimeT)
    requires s != "" && s[0] != '+' && start != 0 && start + 86400 * SECOND < TIME_MODULUS
    requires InRange(Meaning(Tokens(s)))
    ensures var f, st := Meaning(Tokens(s)), TimeToSysTime(start);
            && (Shows(TimeToSysTime(AbsTime(s, start)), f) <==> NoCarry(st, f))
            && (f.hrs < 0 && f.mins < 0 ==> NoCarry(st, f))
            && (f.hrs < 0 && f.mins >= 0 ==> (NoCarry(st, f) <==> st.second <= f.secs))
            && (f.hrs >= 0 && f.mins >= 0 ==> (NoCarry(st, f) <==> st.minute <= f.mins && st.second <= f.secs))
  {
    hide Tokens, TimeToSysTime, Meaning, Ahead, Carried, Moved, Shows;
    SplitTime(start);
    ArrivesAt(start, Meaning(Tokens(s)));
    ShownIff(TimeToSysTime(start), Meaning(Tokens(s)));
  }

  /** An input that fails: 0:0 asked for one second after midnight is met at minute 1. */
  lemma {:induction false} CarryMisses()
    ensures AbsTime("0:0", SECOND) == 60 * SECOND
    ensures Meaning(Tokens("0:0")).mins == 0 && TimeToSysTime(60 * SECOND).minute == 1
  {
    hide AbsTime, Meaning;
    TokensOfJoin(["0", "0"]);
    assert Join(["0", "0"]) == "0:0";
    assert Number("0") == 0 by {
      assert "0"[1..] == "";
    }
    ZeroFields();
  }

  lemma {:induction false} ZeroFields()
    requires Tokens("0:0") == ["0", "0"] && Number("0") == 0
    ensures AbsTime("0:0", SECOND) == 60 * SECOND && Meaning(Tokens("0:0")).mins == 0
  {
    hide Tokens, Number;
    assert Meaning(["0", "0"]) == Fields(-1, 0, 0);
    assert TimeToSysTime(SECOND) == SysTime(0, 0, 0, 1, 0);
  }

  // ---------------------------------------------------------------- durations

  function DigitChar(d: nat): (c: char)
    requires d < 10
    ensures IsDigit(c) && c as int - '0' as int == d
  {
    '0' + d as char
  }

  /** A number as "%d" prints it. */
  function Print(n: nat): (s: string)
    ensures s != "" && AllDigits(s)
  {
    if n < 10 then [DigitChar(n)] else Print(n / 10) + [DigitChar(n % 10)]
  }

  /** A number as "%02d" prints it. */
  function Print2(n: nat): string {
    if n < 10 then "0" + Print(n) else Print(n)
  }

  predicate AllDigits(s: string) {
    forall i :: 0 <= i < |s| ==> IsDigit(s[i])
  }

  /** The number that a string of digits spells. */
  function Value(s: string): nat
    requires AllDigits(s)
  {
    if s == "" then 0 else 10 * Value(s[..|s| - 1]) + (s[|s| - 1] as int - '0' as int)
  }

  lemma {:induction false} PrintValue(n: nat)
    ensures Value(Print(n)) == n
  {
    var s := Print(n);
    if n >= 10 {
      PrintValue(n / 10);
      assert s[..|s| - 1] == Print(n / 10);
    } else {
      assert s[..0] == "";
    }
  }

  lemma {:induction false} Print2Value(n: nat)
    ensures AllDigits(Print2(n)) && Print2(n) != "" && Value(Print2(n)) == n
  {
    PrintValue(n);
    if n < 10 {
      assert Print2(n)[..1] == "0" && "0"[..0] == "";
      assert Value("0") == 0;
      assert Print2(n)[1] == Print(n)[0] && Print(n)[..0] == "";
    }
  }

  /** The scan from the left reads the value that is built from the right. */
  lemma {:induction false} DecimalIsValue(s: string, k: nat)
    requires AllDigits(s) && k <= |s|
    ensures AllDigits(s[..k]) && Decimal(s[k..], Value(s[..k])) == Value(s)
    decreases |s| - k
  {
    if k == |s| {
      assert s[..k] == s;
    } else {
      DecimalIsValue(s, k + 1);
      assert s[k..][1..] == s[k + 1..] && s[..k + 1][..k] == s[..k];
    }
  }

  /** A number of up to 31 bits with an optional plus sign is read as it is. */
  lemma {:induction false} NumberOf(s: string, plus: string)
    requires s != "" && AllDigits(s) && Value(s) < 0x8000_0000 && (plus == "" || plus == "+")
    ensures Number(plus + s) == Value(s)
  {
    DecimalIsValue(s, 0);
    assert s[0..] == s && s[..0] == "";
    var t := plus + s;
    assert !IsSpace(t[0]);
    assert plus == "+" ==> t[1..] == s;
    assert plus == "" ==> t == s && IsDigit(t[0]);
  }

  /** Numbers as a time: colons between them. */
  function Join(parts: seq<string>): string {
    if parts == [] then "" else if |parts| == 1 then parts[0] else parts[0] + ":" + Join(parts[1..])
  }

  predicate Token(s: string) {
    s != "" && forall i :: 0 <= i < |s| ==> !Delimits(s[i])
  }

  lemma {:induction false} TokenAtFront(t: string, rest: string)
    requires (forall i :: 0 <= i < |t| ==> !Delimits(t[i])) && (rest == "" || Delimits(rest[0]))
    ensures TokenLength(t + rest) == |t|
  {
    if t != "" {
      assert (t + rest)[1..] == t[1..] + rest;
      TokenAtFront(t[1..], rest);
    } else {
      assert t + rest == rest;
    }
  }

  lemma {:induction false} TokensOfJoin(parts: seq<string>)
    requires forall i :: 0 <= i < |parts| ==> Token(parts[i])
    ensures Tokens(Join(parts)) == parts
    ensures parts != [] ==> Join(parts) != "" && Join(parts)[0] == parts[0][0]
  {
    if parts != [] {
      var t, tail := parts[0], parts[1..];
      var rest := if tail == [] then "" else ":" + Join(tail);
      TokensOfJoin(tail);
      assert Join(parts) == t + rest;
      TokenAtFront(t, rest);
      assert SkipDelimiters(t + rest) == t + rest;
      assert (t + rest)[..|t|] == t && (t + rest)[|t|..] == rest;
      if tail != [] {
        assert rest[1..] == Join(tail);
        assert SkipDelimiters(rest) == SkipDelimiters(Join(tail)) == Join(tail);
        assert Tokens(rest) == Tokens(Join(tail));
      }
      assert parts == [t] + tail;
    }
  }

  predicate Delimiters(s: string) {
    forall i :: 0 <= i < |s| ==> s[i] == ' ' || s[i] == ':'
  }

  /** Tokens with delimiters in front of each and behind the last. */
  function Spread(gaps: seq<string>, parts: seq<string>, behind: string): string
    requires |gaps| == |parts|
  {
    if parts == [] then behind else gaps[0] + parts[0] + Spread(gaps[1..], parts[1..], behind)
  }

  lemma {:induction false} SkipsDelimiters(gap: string, rest: string)
    requires Delimiters(gap) && (rest != "" ==> rest[0] != ' ' && rest[0] != ':')
    ensures SkipDelimiters(gap + rest) == rest
  {
    if gap == "" {
      assert gap + rest == rest;
    } else {
      assert (gap + rest)[1..] == gap[1..] + rest;
      SkipsDelimiters(gap[1..], rest);
    }
  }

  /** Spaces and colons, in any number, separate the tokens, and nothing else does. */
  lemma {:induction false} TokensOfSpread(gaps: seq<string>, parts: seq<string>, behind: string)
    requires |gaps| == |parts| && Delimiters(behind) && forall i :: 0 <= i < |gaps| ==> Delimiters(gaps[i])
    requires forall i :: 1 <= i < |gaps| ==> gaps[i] != ""
    requires forall i, k :: 0 <= i < |parts| && 0 <= k < |parts[i]| ==> parts[i][k] != ' ' && parts[i][k] != ':'
    requires "" !in parts
    ensures Tokens(Spread(gaps, parts, behind)) == parts
  {
    if parts == [] {
      assert behind + "" == behind;
      SkipsDelimiters(behind, "");
    } else {
      var t, rest := parts[0], Spread(gaps[1..], parts[1..], behind);
      assert forall i :: 0 <= i < |parts| - 1 ==> parts[1..][i] == parts[i + 1] && gaps[1..][i] == gaps[i + 1];
      TokensOfSpread(gaps[1..], parts[1..], behind);
      assert t in parts && t != "";
      assert rest == "" || Delimits(rest[0]) by {
        if |parts| > 1 {
          assert rest == gaps[1] + (parts[1] + Spread(gaps[1..][1..], parts[1..][1..], behind));
        }
      }
      TokenAtFront(t, rest);
      SkipsDelimiters(gaps[0], t + rest);
      assert gaps[0] + t + rest == gaps[0] + (t + rest);
      assert (t + rest)[..|t|] == t && (t + rest)[|t|..] == rest;
      assert parts == [t] + parts[1..];
    }
  }

  /** Only the first four numbers count, and no text is no time. */
  lemma {:induction false} FourNumbersCount(tokens: seq<string>, start: TimeT)
    requires |tokens| > 4
    ensures Meaning(tokens) == Meaning(tokens[..4]) && AbsTime("", start) == 0
  {
  }

  /** The seconds of one to four numbers: ss, mm:ss, hh:mm:ss, dd:hh:mm:ss. */
  function Seconds(n: seq<nat>): nat
    requires 1 <= |n| <= 4
  {
    if |n| == 1 then n[0]
    else if |n| == 2 then n[0] * 60 + n[1]
    else if |n| == 3 then n[0] * 3600 + n[1] * 60 + n[2]
    else (n[0] * 24 + n[1]) * 3600 + n[2] * 60 + n[3]
  }

  /** Digits, one string for each number, that stay in the range of `int`. */
  predicate Spell(parts: seq<string>, n: seq<nat>) {
    && |parts| == |n| && 1 <= |n| <= 4
    && (forall i :: 0 <= i < |n| ==> parts[i] != "" && AllDigits(parts[i]) && Value(parts[i]) == n[i] < 0x8000_0000)
    && (|n| == 4 ==> n[0] * 24 + n[1] < 0x8000_0000)
  }

  lemma {:induction false} DigitsAreToken(s: string, plus: string)
    requires s != "" && AllDigits(s) && (plus == "" || plus == "+")
    ensures Token(plus + s)
  {
    assert forall i :: 0 <= i < |s| ==> !Delimits(s[i]);
  }

  /** A spelled duration, with a plus sign or on a start of 0, adds exactly its seconds. */
  lemma {:induction false} SpelledDuration(parts: seq<string>, n: seq<nat>, plus: string, start: TimeT)
    requires Spell(parts, n) && (plus == "+" || (plus == "" && start == 0))
    ensures AbsTime(plus + Join(parts), start) == (start + Seconds(n) * SECOND) % TIME_MODULUS
  {
    hide Number, Tokens, Meaning, Seconds, Join, Duration;
    var signed := [plus + parts[0]] + parts[1..];
    JoinSigned(parts, plus);
    forall i | 0 <= i < |n| ensures Token(signed[i]) && Number(signed[i]) == n[i] {
      NumberOf(parts[i], if i == 0 then plus else "");
      DigitsAreToken(parts[i], if i == 0 then plus else "");
      assert "" + parts[i] == parts[i];
    }
    TokensOfJoin(signed);
    MeaningOf(signed, n);
  }

  lemma {:induction false} MeaningOf(tokens: seq<string>, n: seq<nat>)
    requires |tokens| == |n| && 1 <= |n| <= 4 && forall i :: 0 <= i < |n| ==> Number(tokens[i]) == n[i]
    requires |n| == 4 ==> n[0] * 24 + n[1] < 0x8000_0000
    ensures Duration(Meaning(tokens)) == Seconds(n)
  {
    hide Number;
  }

  lemma {:induction false} JoinSigned(parts: seq<string>, plus: string)
    requires parts != []
    ensures plus + Join(parts) == Join([plus + parts[0]] + parts[1..])
  {
    assert ([plus + parts[0]] + parts[1..])[1..] == parts[1..];
  }

  /** A duration in seconds as days, hours, minutes and seconds. */
  function PrintDuration(t: nat): string {
    Join([Print(t / 86400), Print2(t / 3600 % 24), Print2(t / 60 % 60), Print2(t % 60)])
  }

  /** What is printed as a duration is read back as that duration. */
  lemma {:induction false} DurationRoundTrip(t: nat, start: TimeT)
    requires t / 3600 < 0x8000_0000 && start + t * SECOND < TIME_MODULUS
    ensures AbsTime("+" + PrintDuration(t), start) == start + t * SECOND
    ensures AbsTime(PrintDuration(t), 0) == t * SECOND
  {
    hide Print, Print2, Join, AbsTime, Value, AllDigits;
    PrintedDuration(t / 86400, t / 3600 % 24, t / 60 % 60, t % 60, "+", start);
    PrintedDuration(t / 86400, t / 3600 % 24, t / 60 % 60, t % 60, "", 0);
    assert "" + PrintDuration(t) == PrintDuration(t);
    SplitDuration(t);
  }

  lemma {:induction false} PrintedDuration(d: nat, h: nat, m: nat, s: nat, plus: string, start: TimeT)
    requires d * 24 + h < 0x8000_0000 && m < 0x8000_0000 && s < 0x8000_0000
    requires plus == "+" || (plus == "" && start == 0)
    ensures AbsTime(plus + Join([Print(d), Print2(h), Print2(m), Print2(s)]), start) ==
            (start + (((d * 24 + h) * 60 + m) * 60 + s) * SECOND) % TIME_MODULUS
  {
    hide Print, Print2, Join, AbsTime, Value, AllDigits;
    PrintValue(d);
    Print2Value(h);
    Print2Value(m);
    Print2Value(s);
    SpelledDuration([Print(d), Print2(h), Print2(m), Print2(s)], [d, h, m, s], plus, start);
    assert Seconds([d, h, m, s]) == ((d * 24 + h) * 60 + m) * 60 + s;
  }

  lemma {:induction false} SplitDuration(t: nat)
    ensures ((t / 86400 * 24 + t / 3600 % 24) * 60 + t / 60 % 60) * 60 + t % 60 == t
    ensures t / 86400 * 24 + t / 3600 % 24 == t / 3600
  {
    assert t / 60 / 60 == t / 3600 && t / 3600 / 24 == t / 86400;
  }
}
