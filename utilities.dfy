/** `strfdelta`: splitting a duration into the weeks, days, hours, minutes and
    seconds that a format string asks for. The format string is given by the names
    of its replacement fields, in order; the result is the keyword arguments that
    `format` receives. Rendering the text (padding, literal parts) is left out. */
module Utilities {
  import opened Wrappers
  import opened Times

  /** The value passed as `delta`: a `timedelta` (in microseconds) or a whole number. */
  datatype Delta = TimeDelta(micros: int) | Number(n: int)

  datatype StrfError =
    | WrongDeltaType          // a number with "timedelta", or a timedelta with a unit name
    | NoRemainder             // an unknown `typ` leaves the remainder `None`, and a field needs it
    | MissingField(name: string)  // a field of the format that no value was computed for

  /** `int(td.total_seconds())`: whole seconds, truncated toward zero. */
  function TotalSeconds(micros: int): (s: int)
    ensures micros >= 0 ==> 0 <= micros - s * MicrosPerSecond < MicrosPerSecond
    ensures micros < 0 ==> 0 <= s * MicrosPerSecond - micros < MicrosPerSecond
  {
    if micros >= 0 then micros / MicrosPerSecond else -((-micros) / MicrosPerSecond)
  }

  /** The seconds in one unit named by `typ`, for the names `strfdelta` accepts. */
  function TypSeconds(typ: string): Option<int>
  {
    if typ == "s" || typ == "seconds" then Some(1)
    else if typ == "m" || typ == "minutes" then Some(60)
    else if typ == "h" || typ == "hours" then Some(3600)
    else if typ == "d" || typ == "days" then Some(86400)
    else if typ == "w" || typ == "weeks" then Some(604800)
    else None
  }

  /** The starting remainder in seconds; `None` for an unknown `typ`. */
  function Remainder(delta: Delta, typ: string): (r: Result<Option<int>, StrfError>)
    ensures typ == "timedelta" && delta.TimeDelta? ==> r == Success(Some(TotalSeconds(delta.micros)))
    ensures typ == "timedelta" && delta.Number? ==> r == Failure(WrongDeltaType)
    ensures typ != "timedelta" && TypSeconds(typ).Some? ==>
      r == if delta.Number? then Success(Some(delta.n * TypSeconds(typ).value)) else Failure(WrongDeltaType)
    ensures typ != "timedelta" && TypSeconds(typ).None? ==> r == Success(None)
  {
    if typ == "timedelta" then
      (match delta
       case TimeDelta(micros) => Success(Some(TotalSeconds(micros)))
       case Number(_) => Failure(WrongDeltaType))
    else
      match TypSeconds(typ)
      case None => Success(None)
      case Some(k) =>
        match delta
        case Number(n) => Success(Some(n * k))
        case TimeDelta(_) => Failure(WrongDeltaType)
  }

  datatype Unit = Unit(name: string, seconds: int)

  /** The fields `strfdelta` knows, largest first, with their length in seconds. */
  const Units: seq<Unit> := [Unit("W", 604800), Unit("D", 86400), Unit("H", 3600), Unit("M", 60), Unit("S", 1)]

  ghost predicate WellFormedUnits(units: seq<Unit>)
  {
    && (forall i :: 0 <= i < |units| ==> units[i].seconds > 0)
    && (forall i, j :: 0 <= i < j < |units| ==> units[i].name != units[j].name)
  }

  ghost predicate Names(units: seq<Unit>, k: string)
  {
    exists i :: 0 <= i < |units| && units[i].name == k
  }

  /** The division loop from `units` on: each requested unit takes the floor
      quotient (`divmod`) and passes the remainder on. Returns the values and the
      remainder left at the end. */
  function DecomposeFrom(acc: map<string, int>, rem: int, desired: seq<string>, units: seq<Unit>): (map<string, int>, int)
    requires WellFormedUnits(units)
    decreases |units|
  {
    if units == [] then (acc, rem)
    else
      var u := units[0];
      if u.name in desired then DecomposeFrom(acc[u.name := rem / u.seconds], rem % u.seconds, desired, units[1..])
      else DecomposeFrom(acc, rem, desired, units[1..])
  }

  /** Dropping the first unit keeps the units well formed. */
  lemma TailWellFormed(units: seq<Unit>)
    requires WellFormedUnits(units) && units != []
    ensures WellFormedUnits(units[1..])
  {
    forall i, j | 0 <= i < j < |units| - 1 ensures units[1..][i].name != units[1..][j].name {
      assert units[1..][i] == units[i + 1] && units[1..][j] == units[j + 1];
    }
  }

  lemma UnitsWellFormed()
    ensures WellFormedUnits(Units)
  {
  }

  /** The values for a remainder of `rem` seconds. */
  function Decompose(rem: int, desired: seq<string>): map<string, int>
  {
    UnitsWellFormed();
    DecomposeFrom(map[], rem, desired, Units).0
  }

  /** The first field of the format that has no value: where `format` raises. */
  function FirstMissing(desired: seq<string>, values: map<string, int>): (r: Option<string>)
    ensures r.None? <==> forall i :: 0 <= i < |desired| ==> desired[i] in values
    ensures r.Some? ==> r.value in desired && r.value !in values
    ensures r.Some? ==>
      exists i :: 0 <= i < |desired| && desired[i] == r.value && (forall j :: 0 <= j < i ==> desired[j] in values)
  {
    if desired == [] then None
    else if desired[0] !in values then Some(desired[0])
    else
      var r := FirstMissing(desired[1..], values);
      assert forall i :: 0 <= i < |desired[1..]| ==> desired[1..][i] == desired[i + 1];
      r
  }

  /** The outcome of `strfdelta(delta, fmt, typ)` for a format with the field
      names `desired`. */
  function StrfDelta(delta: Delta, desired: seq<string>, typ: string): Result<map<string, int>, StrfError>
  {
    match Remainder(delta, typ)
    case Failure(e) => Failure(e)
    case Success(None) =>
      if exists i :: 0 <= i < |Units| && Units[i].name in desired then Failure(NoRemainder)
      else if FirstMissing(desired, map[]).Some? then Failure(MissingField(FirstMissing(desired, map[]).value))
      else Success(map[])
    case Success(Some(rem)) =>
      var values := Decompose(rem, desired);
      if FirstMissing(desired, values).Some? then Failure(MissingField(FirstMissing(desired, values).value))
      else Success(values)
  }

  method Strfdelta(delta: Delta, desired: seq<string>, typ: string) returns (r: Result<map<string, int>, StrfError>)
    ensures r == StrfDelta(delta, desired, typ)
  {
    UnitsWellFormed();
    var start := Remainder(delta, typ);
    if start.Failure? {
      return Failure(start.error);
    }
    var remainder := start.value;
    var values: map<string, int> := map[];
    for i := 0 to |Units|
      invariant remainder.None? ==> start.value.None? && values == map[]
      invariant remainder.None? ==> forall j :: 0 <= j < i ==> Units[j].name !in desired
      invariant remainder.Some? ==> start.value.Some?
      invariant remainder.Some? ==>
        DecomposeFrom(values, remainder.value, desired, Units[i..]) == DecomposeFrom(map[], start.value.value, desired, Units)
    {
      var field := Units[i];
      assert Units[i..][1..] == Units[i + 1..];
      if field.name in desired {
        if remainder.None? {
          return Failure(NoRemainder);
        }
        values := values[field.name := remainder.value / field.seconds];
        remainder := Some(remainder.value % field.seconds);
      }
    }
    var missing := FirstMissing(desired, values);
    if missing.Some? {
      return Failure(MissingField(missing.value));
    }
    r := Success(values);
  }

  // ---------------------------------------------------------------------------
  // What the decomposition adds up to

  /** The seconds the values stand for. */
  function Weighted(values: map<string, int>, units: seq<Unit>): int
    decreases |units|
  {
    if units == [] then 0
    else (if units[0].name in values then values[units[0].name] * units[0].seconds else 0) + Weighted(values, units[1..])
  }

  /** Entries for names outside `units` are not counted. */
  lemma {:induction false} WeightedIgnoresOthers(a: map<string, int>, b: map<string, int>, units: seq<Unit>)
    requires forall i :: 0 <= i < |units| ==> (units[i].name in a <==> units[i].name in b)
    requires forall i :: 0 <= i < |units| && units[i].name in a ==> a[units[i].name] == b[units[i].name]
    ensures Weighted(a, units) == Weighted(b, units)
    decreases |units|
  {
    if units != [] {
      WeightedIgnoresOthers(a, b, units[1..]);
    }
  }

  /** The loop gives a value exactly to the requested units and keeps what it
      started with for every other name. */
  lemma {:induction false} DecomposeKeys(acc: map<string, int>, rem: int, desired: seq<string>, units: seq<Unit>)
    requires WellFormedUnits(units)
    ensures var vs := DecomposeFrom(acc, rem, desired, units).0;
      && (forall k :: k in vs <==> k in acc || (k in desired && Names(units, k)))
      && (forall k :: k in acc && !Names(units, k) ==> vs[k] == acc[k])
    decreases |units|
  {
    if units != [] {
      var u := units[0];
      var next := if u.name in desired then acc[u.name := rem / u.seconds] else acc;
      var next_rem := if u.name in desired then rem % u.seconds else rem;
      DecomposeKeys(next, next_rem, desired, units[1..]);
      forall k ensures Names(units, k) <==> k == u.name || Names(units[1..], k) {
        if Names(units, k) {
          var i :| 0 <= i < |units| && units[i].name == k;
          if i > 0 {
            assert units[1..][i - 1].name == k;
          }
        }
        if Names(units[1..], k) {
          var i :| 0 <= i < |units[1..]| && units[1..][i].name == k;
          assert units[i + 1].name == k;
        }
      }
    }
  }

  /** Recomposition: the values weighted by their units, plus what is left,
      give back the starting remainder. */
  lemma {:induction false} DecomposeRecomposes(acc: map<string, int>, rem: int, desired: seq<string>, units: seq<Unit>)
    requires WellFormedUnits(units)
    requires forall i :: 0 <= i < |units| ==> units[i].name !in acc
    ensures var (vs, rest) := DecomposeFrom(acc, rem, desired, units);
      Weighted(vs, units) + rest == rem
    decreases |units|
  {
    if units != [] {
      var u := units[0];
      var tail := units[1..];
      assert forall i :: 0 <= i < |tail| ==> tail[i].name != u.name by {
        forall i | 0 <= i < |tail| ensures tail[i].name != u.name {
          assert tail[i] == units[i + 1];
        }
      }
      var next := if u.name in desired then acc[u.name := rem / u.seconds] else acc;
      var nextRem := if u.name in desired then rem % u.seconds else rem;
      DecomposeRecomposes(next, nextRem, desired, tail);
      var (vs, rest) := DecomposeFrom(next, nextRem, desired, tail);
      DecomposeKeys(next, nextRem, desired, tail);
      assert !Names(tail, u.name);
      if u.name in desired {
        assert vs[u.name] == rem / u.seconds;
        assert rem / u.seconds * u.seconds + rem % u.seconds == rem;
      } else {
        assert u.name !in vs;
      }
    }
  }

  /** With a non-negative start, every remainder of the loop stays non-negative
      and never grows, and once a unit is requested it stays below that unit. */
  lemma {:induction false} DecomposeRestBound(acc: map<string, int>, rem: int, desired: seq<string>, units: seq<Unit>)
    requires WellFormedUnits(units) && rem >= 0
    ensures var rest := DecomposeFrom(acc, rem, desired, units).1;
      && 0 <= rest <= rem
      && forall i :: 0 <= i < |units| && units[i].name in desired ==> rest < units[i].seconds
    decreases |units|
  {
    if units != [] {
      var u := units[0];
      var tail := units[1..];
      var next := if u.name in desired then acc[u.name := rem / u.seconds] else acc;
      var nextRem := if u.name in desired then rem % u.seconds else rem;
      TailWellFormed(units);
      assert 0 <= nextRem <= rem;
      assert u.name in desired ==> nextRem < u.seconds;
      DecomposeRestBound(next, nextRem, desired, tail);
      var rest := DecomposeFrom(acc, rem, desired, units).1;
      assert rest == DecomposeFrom(next, nextRem, desired, tail).1;
      forall i | 0 <= i < |units| && units[i].name in desired ensures rest < units[i].seconds {
        if i > 0 {
          assert units[i] == tail[i - 1];
        }
      }
    }
  }

  /** Every requested unit after an earlier requested one gets a non-negative value
      whose seconds stay below that earlier unit. */
  lemma {:induction false} DecomposeFieldBound(acc: map<string, int>, rem: int, desired: seq<string>, units: seq<Unit>)
    requires WellFormedUnits(units) && rem >= 0
    ensures var vs := DecomposeFrom(acc, rem, desired, units).0;
      forall j, i :: 0 <= j < i < |units| && units[j].name in desired && units[i].name in desired ==>
        units[i].name in vs && 0 <= vs[units[i].name] && vs[units[i].name] * units[i].seconds < units[j].seconds
    decreases |units|
  {
    if units != [] {
      var u := units[0];
      var tail := units[1..];
      var next := if u.name in desired then acc[u.name := rem / u.seconds] else acc;
      var nextRem := if u.name in desired then rem % u.seconds else rem;
      DecomposeFieldBound(next, nextRem, desired, tail);
      var vs := DecomposeFrom(acc, rem, desired, units).0;
      assert vs == DecomposeFrom(next, nextRem, desired, tail).0;
      forall j, i | 0 <= j < i < |units| && units[j].name in desired && units[i].name in desired
        ensures units[i].name in vs && 0 <= vs[units[i].name] && vs[units[i].name] * units[i].seconds < units[j].seconds
      {
        assert units[i] == tail[i - 1];
        if j > 0 {
          assert units[j] == tail[j - 1];
        } else {
          FieldAfter(next, nextRem, desired, tail, i - 1);
        }
      }
    }
  }

  /** A requested unit's value is at most the remainder it divides, in seconds. */
  lemma {:induction false} FieldAfter(acc: map<string, int>, rem: int, desired: seq<string>, units: seq<Unit>, i: int)
    requires WellFormedUnits(units) && rem >= 0
    requires 0 <= i < |units| && units[i].name in desired
    ensures var vs := DecomposeFrom(acc, rem, desired, units).0;
      units[i].name in vs && 0 <= vs[units[i].name] && vs[units[i].name] * units[i].seconds <= rem
    decreases |units|
  {
    var u := units[0];
    var tail := units[1..];
    var next := if u.name in desired then acc[u.name := rem / u.seconds] else acc;
    var nextRem := if u.name in desired then rem % u.seconds else rem;
    TailWellFormed(units);
    assert DecomposeFrom(acc, rem, desired, units) == DecomposeFrom(next, nextRem, desired, tail);
    assert 0 <= nextRem <= rem;
    if i == 0 {
      DecomposeKeys(next, nextRem, desired, tail);
      assert !Names(tail, u.name) by {
        forall k | 0 <= k < |tail| ensures tail[k].name != u.name {
          assert tail[k] == units[k + 1];
        }
      }
      assert 0 <= rem / u.seconds && rem / u.seconds * u.seconds <= rem;
    } else {
      assert units[i] == tail[i - 1];
      FieldAfter(next, nextRem, desired, tail, i - 1);
    }
  }

  /** The default format `{H:02}h {M:02}m {S:02}s`: hours, minutes and seconds
      that add back up to the duration, with minutes and seconds from 0 to 59
      (`divmod` floors, so a negative duration has negative hours only). */
  lemma DefaultFormat(rem: int)
    ensures var vs := Decompose(rem, ["H", "M", "S"]);
      && vs.Keys == {"H", "M", "S"}
      && vs["H"] * 3600 + vs["M"] * 60 + vs["S"] == rem
      && 0 <= vs["M"] < 60 && 0 <= vs["S"] < 60
      && (rem >= 0 ==> 0 <= vs["H"])
  {
    var desired := ["H", "M", "S"];
    UnitsWellFormed();
    UnitsTails();
    assert "W" !in desired && "D" !in desired;
    assert "H" in desired && "M" in desired && "S" in desired;
    var m := rem % 3600;
    calc {
      DecomposeFrom(map[], rem, desired, Units);
      DecomposeFrom(map[], rem, desired, Units[1..]);
      DecomposeFrom(map[], rem, desired, Units[2..]);
      DecomposeFrom(map["H" := rem / 3600], m, desired, Units[3..]);
      DecomposeFrom(map["H" := rem / 3600, "M" := m / 60], m % 60, desired, Units[4..]);
      (map["H" := rem / 3600, "M" := m / 60, "S" := m % 60 / 1], m % 60 % 1);
    }
  }

  /** The tails of the unit table, one unit dropped at a time. */
  lemma UnitsTails()
    ensures Units[1..] == [Unit("D", 86400), Unit("H", 3600), Unit("M", 60), Unit("S", 1)]
    ensures Units[2..] == [Unit("H", 3600), Unit("M", 60), Unit("S", 1)]
    ensures Units[3..] == [Unit("M", 60), Unit("S", 1)]
    ensures Units[4..] == [Unit("S", 1)]
    ensures Units[5..] == []
  {
  }

  /** The documented example `{H}h {S}s`: 72 hours and 800 seconds. */
  lemma HoursAndSecondsExample()
    ensures StrfDelta(TimeDelta((72 * 3600 + 800) * MicrosPerSecond), ["H", "S"], "timedelta")
      == Success(map["H" := 72, "S" := 800])
  {
    var desired := ["H", "S"];
    var rem := 72 * 3600 + 800;
    UnitsWellFormed();
    UnitsTails();
    assert "W" !in desired && "D" !in desired && "M" !in desired;
    assert "H" in desired && "S" in desired;
    assert Remainder(TimeDelta(rem * MicrosPerSecond), "timedelta") == Success(Some(rem));
    calc {
      DecomposeFrom(map[], rem, desired, Units);
      DecomposeFrom(map[], rem, desired, Units[1..]);
      DecomposeFrom(map[], rem, desired, Units[2..]);
      DecomposeFrom(map["H" := 72], 800, desired, Units[3..]);
      DecomposeFrom(map["H" := 72], 800, desired, Units[4..]);
      DecomposeFrom(map["H" := 72, "S" := 800], 0, desired, Units[5..]);
    }
    assert FirstMissing(desired, map["H" := 72, "S" := 800]).None?;
  }
}
