/** Session reconstruction, the part of `RepositoryParser.generate` after the
    refresh: decide each record's date, keep yesterday's and today's records, sort
    them, carry the latest record of yesterday in front of today's, walk the list
    pairwise (closing the last session at "now"), clamp to the configured working
    hours and keep the sessions longer than the configured minimum. */
module Sessions {
  import opened Wrappers
  import opened Times
  import opened PyStr
  import opened Reflog
  import opened Conf

  /** A record whose timestamp text has been read as a date-time. */
  datatype TimedRef = TimedRef(commit: string, timestamp: Timestamp, message: string, previous: string, current: string)

  /** One work session. */
  datatype Event = Event(start: Timestamp, end: Timestamp, duration: int, branch: string, issue: string)

  datatype GenerateError =
    | TimestampError(text: string)             // `strptime` rejects a record's timestamp
    | DateOverflow                             // `today - timedelta(days=1)` leaves the calendar
    | NoYesterdayRecord                        // `yesterday_refs[-1]` on an empty list
    | UnknownSetting(setting: Option<string>)    // a setting missing from `HOUR_MAP`/`DURATION_MAP`
    | GitNotStarted                            // `check_output` cannot start git (`OSError`), which `parse` does not catch

  /** The three settings `generate` reads, as stored (`None` is JSON null). */
  datatype Settings = Settings(
    hardcodedStartTime: Option<string>,
    hardcodedEndTime: Option<string>,
    minimumEventDuration: Option<string>)

  /** The settings after table lookup. */
  datatype Limits = Limits(startHour: Option<int>, endHour: Option<int>, minimumMinutes: int)

  ghost predicate ValidLimits(lim: Limits)
  {
    && (lim.startHour.Some? ==> 0 <= lim.startHour.value < 24)
    && (lim.endHour.Some? ==> 0 <= lim.endHour.value < 24)
    && lim.minimumMinutes > 0
  }

  // ---------------------------------------------------------------------------
  // Settings

  /** Python truthiness of a stored setting: null and "" are false. */
  predicate IsSet(s: Option<string>)
  {
    s.Some? && s.value != ""
  }

  /** `HOUR_MAP[setting]` behind `if setting:`. */
  function HourSetting(s: Option<string>): (r: Result<Option<int>, GenerateError>)
    ensures !IsSet(s) <==> r == Success(None)
    ensures IsSet(s) && s.value in HourMap ==> r == Success(Some(HourMap[s.value]))
    ensures IsSet(s) && s.value !in HourMap ==> r == Failure(UnknownSetting(s))
  {
    if !IsSet(s) then Success(None)
    else if s.value in HourMap then Success(Some(HourMap[s.value]))
    else Failure(UnknownSetting(s))
  }

  /** The table lookups that every pass of the loop makes, in the loop's order:
      start hour, end hour, minimum duration. */
  function Resolve(settings: Settings): (r: Result<Limits, GenerateError>)
    ensures r.Success? ==> ValidLimits(r.value)
    ensures r.Success? <==>
      && (IsSet(settings.hardcodedStartTime) ==> settings.hardcodedStartTime.value in HourMap)
      && (IsSet(settings.hardcodedEndTime) ==> settings.hardcodedEndTime.value in HourMap)
      && settings.minimumEventDuration.Some? && settings.minimumEventDuration.value in DurationMap
    ensures r.Success? ==> r.value.minimumMinutes == DurationMap[settings.minimumEventDuration.value]
  {
    TablesInRange();
    match HourSetting(settings.hardcodedStartTime)
    case Failure(e) => Failure(e)
    case Success(startHour) =>
      match HourSetting(settings.hardcodedEndTime)
      case Failure(e) => Failure(e)
      case Success(endHour) =>
        var m := settings.minimumEventDuration;
        if m.Some? && m.value in DurationMap then Success(Limits(startHour, endHour, DurationMap[m.value]))
        else Failure(UnknownSetting(m))
  }

  /** The start menu's "None" entry stores the text "None", which is a set value
      absent from `HOUR_MAP`: looking it up fails. */
  lemma NoneLabelIsUnknown(settings: Settings)
    requires settings.hardcodedStartTime == Some(NoneLabel)
    ensures Resolve(settings) == Failure(UnknownSetting(Some(NoneLabel)))
  {
    TablesInRange();
  }

  // ---------------------------------------------------------------------------
  // Fields of a session

  /** The issue key of a branch: its last `/`-separated segment, or the whole
      branch when it has no `/`. */
  function Issue(branch: string): (r: string)
    ensures '/' !in r
    ensures |r| <= |branch| && branch[|branch| - |r|..] == r
    ensures '/' !in branch ==> r == branch
    ensures '/' in branch ==> |r| < |branch| && branch[|branch| - |r| - 1] == '/'
  {
    if '/' in branch then LastPiece(branch, '/') else branch
  }

  /** The start clamp: with a start hour set, a start before that hour or on
      another date than today is moved to that hour sharp, and its day of the
      month (only the day) becomes today's. */
  function ClampStart(t: Timestamp, today: CalendarDate, startHour: Option<int>): (r: Timestamp)
    requires startHour.Some? ==> 0 <= startHour.value < 24
    requires today.day <= DaysInMonth(t.date.year, t.date.month)
    ensures r.date.year == t.date.year && r.date.month == t.date.month
    ensures startHour.Some? ==> r.hour >= startHour.value
    ensures startHour.Some? && (t.hour < startHour.value || t.date != today) ==>
      r == DateTime(Date(t.date.year, t.date.month, today.day), startHour.value, 0, 0, 0)
    ensures !(startHour.Some? && (t.hour < startHour.value || t.date != today)) ==> r == t
  {
    if startHour.Some? && (t.hour < startHour.value || t.date != today) then
      DateTime(Date(t.date.year, t.date.month, today.day), startHour.value, 0, 0, 0)
    else t
  }

  /** The end clamp: with an end hour set, an end in a later hour is moved back to
      that hour sharp on the same date. */
  function ClampEnd(t: Timestamp, endHour: Option<int>): (r: Timestamp)
    requires endHour.Some? ==> 0 <= endHour.value < 24
    ensures r.date == t.date
    ensures endHour.Some? ==> r.hour <= endHour.value
    ensures endHour.Some? && t.hour > endHour.value ==> r == DateTime(t.date, endHour.value, 0, 0, 0)
    ensures !(endHour.Some? && t.hour > endHour.value) ==> r == t
  {
    if endHour.Some? && t.hour > endHour.value then DateTime(t.date, endHour.value, 0, 0, 0)
    else t
  }

  /** A start on today's date is never moved earlier. */
  lemma ClampStartNotEarlier(t: Timestamp, today: CalendarDate, startHour: Option<int>)
    requires startHour.Some? ==> 0 <= startHour.value < 24
    requires today.day <= DaysInMonth(t.date.year, t.date.month) && t.date == today
    ensures Micros(ClampStart(t, today, startHour)) >= Micros(t)
  {
  }

  /** An end is never moved later. */
  lemma ClampEndNotLater(t: Timestamp, endHour: Option<int>)
    requires endHour.Some? ==> 0 <= endHour.value < 24
    ensures Micros(ClampEnd(t, endHour)) <= Micros(t)
  {
  }

  /** The stand-in successor of the last record: a checkout "now". */
  function Pseudo(last: TimedRef, now: Timestamp): TimedRef
  {
    TimedRef("pseudo", now, "pseudo", last.current, "pseudo")
  }

  function Session(start: Timestamp, end: Timestamp, branch: string): (e: Event)
    ensures e.duration == Elapsed(end, start)
    ensures e.branch == branch && e.issue == Issue(branch)
  {
    Event(start, end, Elapsed(end, start), branch, Issue(branch))
  }

  /** Only sessions strictly longer than the minimum are reported. */
  predicate Reportable(e: Event, lim: Limits)
  {
    e.duration > lim.minimumMinutes * MicrosPerMinute
  }

  /** Today's day number is a valid day in the month of every record. */
  ghost predicate DayFits(refs: seq<TimedRef>, today: CalendarDate)
  {
    forall k :: 0 <= k < |refs| ==> today.day <= DaysInMonth(refs[k].timestamp.date.year, refs[k].timestamp.date.month)
  }

  /** The record that closes the session opened by `refs[0]`. */
  function Successor(refs: seq<TimedRef>, now: Timestamp): TimedRef
    requires refs != []
  {
    if |refs| == 1 then Pseudo(refs[0], now) else refs[1]
  }

  /** The session opened by the first record. */
  function First(refs: seq<TimedRef>, now: Timestamp, today: CalendarDate, lim: Limits): Event
    requires refs != [] && ValidLimits(lim) && DayFits(refs, today)
  {
    Session(ClampStart(refs[0].timestamp, today, lim.startHour),
            ClampEnd(Successor(refs, now).timestamp, lim.endHour),
            refs[0].current)
  }

  /** The list after the first step: the end clamp has overwritten the timestamp
      of the second record, which is the same object as the successor. */
  function Rest(refs: seq<TimedRef>, now: Timestamp, lim: Limits): (r: seq<TimedRef>)
    requires refs != [] && ValidLimits(lim)
    ensures |r| == |refs| - 1
    ensures forall k :: 0 <= k < |r| ==>
      r[k].timestamp.date == refs[k + 1].timestamp.date && r[k].current == refs[k + 1].current
    ensures forall k :: 1 <= k < |r| ==> r[k] == refs[k + 1]
    ensures |r| > 0 ==> r[0].timestamp == ClampEnd(Successor(refs, now).timestamp, lim.endHour)
  {
    if |refs| == 1 then [] else [refs[1].(timestamp := ClampEnd(refs[1].timestamp, lim.endHour))] + refs[2..]
  }

  lemma RestDayFits(refs: seq<TimedRef>, now: Timestamp, today: CalendarDate, lim: Limits)
    requires refs != [] && ValidLimits(lim) && DayFits(refs, today)
    ensures DayFits(Rest(refs, now, lim), today)
  {
    var r := Rest(refs, now, lim);
    forall k | 0 <= k < |r| ensures today.day <= DaysInMonth(r[k].timestamp.date.year, r[k].timestamp.date.month) {
      assert r[k].timestamp.date == refs[k + 1].timestamp.date;
    }
  }

  /** The pairwise walk over the combined list, reporting the sessions longer
      than the minimum. */
  function Walk(refs: seq<TimedRef>, now: Timestamp, today: CalendarDate, lim: Limits): seq<Event>
    requires ValidLimits(lim) && DayFits(refs, today)
    decreases |refs|
  {
    if refs == [] then []
    else
      var e := First(refs, now, today, lim);
      RestDayFits(refs, now, today, lim);
      (if Reportable(e, lim) then [e] else []) + Walk(Rest(refs, now, lim), now, today, lim)
  }

  /** At most one session per record. */
  lemma {:induction false} WalkLength(refs: seq<TimedRef>, now: Timestamp, today: CalendarDate, lim: Limits)
    requires ValidLimits(lim) && DayFits(refs, today)
    ensures |Walk(refs, now, today, lim)| <= |refs|
    decreases |refs|
  {
    if refs != [] {
      RestDayFits(refs, now, today, lim);
      WalkLength(Rest(refs, now, lim), now, today, lim);
    }
  }

  /** Every reported session lasts from its start to its end, longer than the
      minimum, and its issue is its branch's last segment. */
  lemma {:induction false} WalkDurations(refs: seq<TimedRef>, now: Timestamp, today: CalendarDate, lim: Limits)
    requires ValidLimits(lim) && DayFits(refs, today)
    ensures forall e :: e in Walk(refs, now, today, lim) ==>
      && e.duration == Elapsed(e.end, e.start)
      && e.duration > lim.minimumMinutes * MicrosPerMinute
      && e.issue == Issue(e.branch)
    decreases |refs|
  {
    if refs != [] {
      RestDayFits(refs, now, today, lim);
      WalkDurations(Rest(refs, now, lim), now, today, lim);
    }
  }

  /** One session per record before the minimum-duration filter: the `k`-th is
      the one record `k` opens. */
  function Candidates(refs: seq<TimedRef>, now: Timestamp, today: CalendarDate, lim: Limits): (r: seq<Event>)
    requires ValidLimits(lim) && DayFits(refs, today)
    ensures |r| == |refs|
    decreases |refs|
  {
    if refs == [] then []
    else
      RestDayFits(refs, now, today, lim);
      [First(refs, now, today, lim)] + Candidates(Rest(refs, now, lim), now, today, lim)
  }

  /** The sessions of `es` that are reported, in order. */
  function Reported(es: seq<Event>, lim: Limits): seq<Event>
    decreases |es|
  {
    if es == [] then [] else (if Reportable(es[0], lim) then [es[0]] else []) + Reported(es[1..], lim)
  }

  /** The filter keeps exactly the reportable sessions. */
  lemma {:induction false} ReportedMembers(es: seq<Event>, lim: Limits)
    ensures forall e :: e in Reported(es, lim) <==> e in es && Reportable(e, lim)
    decreases |es|
  {
    if es != [] {
      ReportedMembers(es[1..], lim);
      assert es == [es[0]] + es[1..];
    }
  }

  /** The time record `k` starts its session from: its own for the first record,
      and for every later one the end clamp already written over it. */
  function OpeningTime(refs: seq<TimedRef>, k: nat, lim: Limits): (t: Timestamp)
    requires k < |refs| && ValidLimits(lim)
    ensures t.date == refs[k].timestamp.date
  {
    if k == 0 then refs[0].timestamp else ClampEnd(refs[k].timestamp, lim.endHour)
  }

  /** The time the session opened by record `k` ends at before its clamp: the next
      record's, or now after the last record. */
  function ClosingTime(refs: seq<TimedRef>, k: nat, now: Timestamp): Timestamp
    requires k < |refs|
  {
    if k + 1 < |refs| then refs[k + 1].timestamp else now
  }

  /** The `k`-th candidate is on record `k`'s branch, from its clamped opening
      time to the clamped closing time. */
  lemma {:induction false} CandidateAt(refs: seq<TimedRef>, now: Timestamp, today: CalendarDate, lim: Limits)
    requires ValidLimits(lim) && DayFits(refs, today)
    ensures forall k :: 0 <= k < |refs| ==>
      && Candidates(refs, now, today, lim)[k].branch == refs[k].current
      && Candidates(refs, now, today, lim)[k].issue == Issue(refs[k].current)
      && Candidates(refs, now, today, lim)[k].start == ClampStart(OpeningTime(refs, k, lim), today, lim.startHour)
      && Candidates(refs, now, today, lim)[k].end == ClampEnd(ClosingTime(refs, k, now), lim.endHour)
      && Candidates(refs, now, today, lim)[k].duration
         == Elapsed(Candidates(refs, now, today, lim)[k].end, Candidates(refs, now, today, lim)[k].start)
    decreases |refs|
  {
    if refs != [] {
      RestDayFits(refs, now, today, lim);
      var rest := Rest(refs, now, lim);
      CandidateAt(rest, now, today, lim);
      var c := Candidates(refs, now, today, lim);
      assert c == [First(refs, now, today, lim)] + Candidates(rest, now, today, lim);
      forall k | 0 <= k < |refs|
        ensures c[k].branch == refs[k].current && c[k].issue == Issue(refs[k].current)
        ensures c[k].start == ClampStart(OpeningTime(refs, k, lim), today, lim.startHour)
        ensures c[k].end == ClampEnd(ClosingTime(refs, k, now), lim.endHour)
        ensures c[k].duration == Elapsed(c[k].end, c[k].start)
      {
        if k > 0 {
          assert c[k] == Candidates(rest, now, today, lim)[k - 1];
          LaterOpening(refs, k, now, lim);
        }
      }
    }
  }

  /** Record `k > 0` stands at index `k - 1` after the first step, with the same
      branch, opening and closing times. */
  lemma LaterOpening(refs: seq<TimedRef>, k: nat, now: Timestamp, lim: Limits)
    requires 0 < k < |refs| && ValidLimits(lim)
    ensures Rest(refs, now, lim)[k - 1].current == refs[k].current
    ensures OpeningTime(Rest(refs, now, lim), k - 1, lim) == OpeningTime(refs, k, lim)
    ensures ClosingTime(Rest(refs, now, lim), k - 1, now) == ClosingTime(refs, k, now)
  {
  }

  /** The walk is the filter over the candidates. */
  lemma {:induction false} WalkIsReported(refs: seq<TimedRef>, now: Timestamp, today: CalendarDate, lim: Limits)
    requires ValidLimits(lim) && DayFits(refs, today)
    ensures Walk(refs, now, today, lim) == Reported(Candidates(refs, now, today, lim), lim)
    decreases |refs|
  {
    if refs != [] {
      RestDayFits(refs, now, today, lim);
      var rest := Rest(refs, now, lim);
      WalkIsReported(rest, now, today, lim);
      var c := Candidates(refs, now, today, lim);
      assert c == [First(refs, now, today, lim)] + Candidates(rest, now, today, lim);
      assert c[0] == First(refs, now, today, lim) && c[1..] == Candidates(rest, now, today, lim);
    }
  }

  /** A session is reported exactly when it is a candidate longer than the
      minimum: none is dropped that should be kept, none kept that is too short. */
  lemma WalkMembers(refs: seq<TimedRef>, now: Timestamp, today: CalendarDate, lim: Limits)
    requires ValidLimits(lim) && DayFits(refs, today)
    ensures forall e :: e in Walk(refs, now, today, lim) <==> e in Candidates(refs, now, today, lim) && Reportable(e, lim)
  {
    WalkIsReported(refs, now, today, lim);
    ReportedMembers(Candidates(refs, now, today, lim), lim);
  }

  /** `e` is the session record `k` opens: on its branch, from its clamped
      opening time to its clamped closing time. */
  predicate Opens(refs: seq<TimedRef>, k: nat, e: Event, now: Timestamp, today: CalendarDate, lim: Limits)
    requires k < |refs| && ValidLimits(lim) && DayFits(refs, today)
  {
    && e.branch == refs[k].current
    && e.start == ClampStart(OpeningTime(refs, k, lim), today, lim.startHour)
    && e.end == ClampEnd(ClosingTime(refs, k, now), lim.endHour)
  }

  /** Every reported session is the one some record opens: on that record's
      branch, from its clamped opening time to its clamped closing time. */
  lemma WalkBranches(refs: seq<TimedRef>, now: Timestamp, today: CalendarDate, lim: Limits)
    requires ValidLimits(lim) && DayFits(refs, today)
    ensures forall e :: e in Walk(refs, now, today, lim) ==>
      exists k :: 0 <= k < |refs| && Opens(refs, k, e, now, today, lim)
  {
    var c := Candidates(refs, now, today, lim);
    forall e | e in Walk(refs, now, today, lim)
      ensures exists k :: 0 <= k < |refs| && Opens(refs, k, e, now, today, lim)
    {
      assert e in c by { WalkMembers(refs, now, today, lim); }
      var k :| 0 <= k < |c| && c[k] == e;
      assert Opens(refs, k, c[k], now, today, lim) by { CandidateAt(refs, now, today, lim); }
    }
  }

  /** The loop of `generate` over the combined list. */
  method Sessions(combined: seq<TimedRef>, now: Timestamp, today: CalendarDate, lim: Limits) returns (events: seq<Event>)
    requires ValidLimits(lim) && DayFits(combined, today)
    ensures events == Walk(combined, now, today, lim)
  {
    var refs := combined;
    events := [];
    var maxIndex := |refs|;
    var curIndex := 0;
    for i := 0 to maxIndex
      invariant curIndex == i && |refs| == maxIndex
      invariant DayFits(refs[curIndex..], today)
      invariant events + Walk(refs[curIndex..], now, today, lim) == Walk(combined, now, today, lim)
    {
      ghost var before := refs[curIndex..];
      ghost var oldEvents := events;
      var event;
      refs, event := ClampPair(refs, curIndex, now, today, lim);
      curIndex := curIndex + 1;
      if event.duration > lim.minimumMinutes * MicrosPerMinute {
        events := events + [event];
      }
      WalkStep(combined, oldEvents, events, before, event, now, today, lim);
    }
  }

  /** The body of that loop for the record at `c`: pair it with the next record,
      or with a checkout "now" when it is the last; clamp the start of the first
      and the end of the second, write both back, and build the event. */
  method ClampPair(refs: seq<TimedRef>, c: nat, now: Timestamp, today: CalendarDate, lim: Limits)
    returns (written: seq<TimedRef>, event: Event)
    requires c < |refs| && ValidLimits(lim) && DayFits(refs[c..], today)
    ensures |written| == |refs|
    ensures written[c + 1..] == Rest(refs[c..], now, lim)
    ensures event == First(refs[c..], now, today, lim)
  {
    assert refs[c..][0] == refs[c];
    var one := refs[c];
    var two: TimedRef;
    var hasNext := c + 1 < |refs|;
    if hasNext {
      two := refs[c + 1];
    } else {
      two := Pseudo(one, now);
    }
    one := one.(timestamp := ClampStart(one.timestamp, today, lim.startHour));
    two := two.(timestamp := ClampEnd(two.timestamp, lim.endHour));
    written := refs[c := one];
    if hasNext {
      written := written[c + 1 := two];
    }
    StepWrites(refs, c, now, today, lim, one, two, written);
    event := Event(one.timestamp, two.timestamp, Elapsed(two.timestamp, one.timestamp), one.current, Issue(one.current));
  }

  /** One pass of the loop body: the clamped record and the clamped successor
      written back leave `Rest` from the next index on, and the event built from
      them is the walk's first session. */
  lemma StepWrites(refs: seq<TimedRef>, c: nat, now: Timestamp, today: CalendarDate, lim: Limits,
                   one: TimedRef, two: TimedRef, refs': seq<TimedRef>)
    requires c < |refs| && ValidLimits(lim) && DayFits(refs[c..], today)
    requires one == refs[c].(timestamp := ClampStart(refs[c].timestamp, today, lim.startHour))
    requires var next := if c + 1 < |refs| then refs[c + 1] else Pseudo(refs[c], now);
      two == next.(timestamp := ClampEnd(next.timestamp, lim.endHour))
    requires refs' == if c + 1 < |refs| then refs[c := one][c + 1 := two] else refs[c := one]
    ensures |refs'| == |refs|
    ensures refs'[c + 1..] == Rest(refs[c..], now, lim)
    ensures Event(one.timestamp, two.timestamp, Elapsed(two.timestamp, one.timestamp), one.current, Issue(one.current))
      == First(refs[c..], now, today, lim)
  {
    var before := refs[c..];
    assert before[0] == refs[c];
    if c + 1 < |refs| {
      assert before[1] == refs[c + 1];
      WriteBack(refs, c, one, two);
      assert refs[c..][2..] == before[2..];
    } else {
      assert refs'[c + 1..] == [];
    }
  }

  /** Writing the clamped records back leaves the clamped successor, then the
      untouched records, from the next index on. */
  lemma WriteBack<T>(s: seq<T>, i: nat, one: T, two: T)
    requires i + 1 < |s|
    ensures s[i := one][i + 1 := two][i + 1..] == [two] + s[i..][2..]
  {
    var r := s[i := one][i + 1 := two];
    assert forall k :: i + 1 <= k < |r| ==> r[k] == ([two] + s[i..][2..])[k - i - 1];
  }

  /** One pass of the loop keeps the loop's invariant: the events so far followed
      by the walk over what is left make up the whole walk. */
  lemma WalkStep(combined: seq<TimedRef>, oldEvents: seq<Event>, events: seq<Event>, refs: seq<TimedRef>, e: Event,
                 now: Timestamp, today: CalendarDate, lim: Limits)
    requires refs != [] && ValidLimits(lim) && DayFits(refs, today) && DayFits(combined, today)
    requires oldEvents + Walk(refs, now, today, lim) == Walk(combined, now, today, lim)
    requires e == First(refs, now, today, lim)
    requires events == oldEvents + (if Reportable(e, lim) then [e] else [])
    ensures DayFits(Rest(refs, now, lim), today)
    ensures events + Walk(Rest(refs, now, lim), now, today, lim) == Walk(combined, now, today, lim)
  {
    WalkUnfold(refs, now, today, lim);
    var head := if Reportable(e, lim) then [e] else [];
    Regroup(oldEvents, events, head, Walk(Rest(refs, now, lim), now, today, lim), Walk(combined, now, today, lim));
  }

  lemma Regroup<T>(before: seq<T>, after: seq<T>, head: seq<T>, rest: seq<T>, whole: seq<T>)
    requires before + (head + rest) == whole && after == before + head
    ensures after + rest == whole
  {
  }

  lemma WalkUnfold(refs: seq<TimedRef>, now: Timestamp, today: CalendarDate, lim: Limits)
    requires refs != [] && ValidLimits(lim) && DayFits(refs, today)
    ensures DayFits(Rest(refs, now, lim), today)
    ensures var e := First(refs, now, today, lim);
      Walk(refs, now, today, lim) == (if Reportable(e, lim) then [e] else []) + Walk(Rest(refs, now, lim), now, today, lim)
  {
    RestDayFits(refs, now, today, lim);
  }

  // ---------------------------------------------------------------------------
  // Dating, bucketing and ordering

  function Timed(r: Record, t: Timestamp): TimedRef
  {
    TimedRef(r.commit, t, r.message, r.previous, r.current)
  }

  /** Reading every record's timestamp text; the first one that does not parse is
      the error. */
  function DecodeAll(values: seq<Record>, toTime: string -> Option<Timestamp>): (r: Result<seq<TimedRef>, GenerateError>)
    ensures r.Success? ==> |r.value| == |values|
    ensures r.Success? ==> forall i :: 0 <= i < |values| ==>
      toTime(values[i].timestamp).Some? && r.value[i] == Timed(values[i], toTime(values[i].timestamp).value)
    ensures r.Success? <==> forall i :: 0 <= i < |values| ==> toTime(values[i].timestamp).Some?
    decreases |values|
  {
    if values == [] then Success([])
    else
      var last := values[|values| - 1];
      match DecodeAll(values[..|values| - 1], toTime)
      case Failure(e) => Failure(e)
      case Success(ts) =>
        match toTime(last.timestamp)
        case None => Failure(TimestampError(last.timestamp))
        case Some(t) => Success(ts + [Timed(last, t)])
  }

  /** The records dated `d`, in their original order. */
  function OnDate(refs: seq<TimedRef>, d: Date): (r: seq<TimedRef>)
    ensures |r| <= |refs|
    ensures forall x: TimedRef :: x.timestamp.date == d ==> multiset(r)[x] == multiset(refs)[x]
    ensures forall x: TimedRef :: x.timestamp.date != d ==> multiset(r)[x] == 0
    decreases |refs|
  {
    if refs == [] then []
    else
      var rest := OnDate(refs[..|refs| - 1], d);
      var x := refs[|refs| - 1];
      assert refs == refs[..|refs| - 1] + [x];
      if x.timestamp.date == d then rest + [x] else rest
  }

  lemma OnDateMembers(refs: seq<TimedRef>, d: Date)
    ensures forall x :: x in OnDate(refs, d) <==> x in refs && x.timestamp.date == d
  {
    forall x ensures x in OnDate(refs, d) <==> x in refs && x.timestamp.date == d {
      assert x in OnDate(refs, d) <==> multiset(OnDate(refs, d))[x] > 0;
      assert x in refs <==> multiset(refs)[x] > 0;
    }
  }

  /** The two loops' buckets, one for today and one for yesterday. */
  method Bucket(values: seq<Record>, today: CalendarDate, yesterday: CalendarDate, toTime: string -> Option<Timestamp>)
    returns (r: Result<(seq<TimedRef>, seq<TimedRef>), GenerateError>)
    ensures r.Failure? <==> DecodeAll(values, toTime).Failure?
    ensures r.Failure? ==> r.error == DecodeAll(values, toTime).error
    ensures r.Success? ==> r.value == (OnDate(DecodeAll(values, toTime).value, today), OnDate(DecodeAll(values, toTime).value, yesterday))
  {
    var todayRefs: seq<TimedRef> := [];
    var yesterdayRefs: seq<TimedRef> := [];
    ghost var ts: seq<TimedRef> := [];
    for i := 0 to |values|
      invariant DecodeAll(values[..i], toTime) == Success(ts)
      invariant todayRefs == OnDate(ts, today) && yesterdayRefs == OnDate(ts, yesterday)
    {
      var text := values[i].timestamp;
      var parsed := toTime(text);
      DecodeAllStep(values, i, toTime, ts);
      if parsed.None? {
        DecodeFailureSticks(values, i + 1, toTime);
        r := Failure(TimestampError(text));
        return;
      }
      var ref := Timed(values[i], parsed.value);
      OnDateSnoc(ts, ref, today);
      OnDateSnoc(ts, ref, yesterday);
      ts := ts + [ref];
      if ref.timestamp.date == today {
        todayRefs := todayRefs + [ref];
      }
      if ref.timestamp.date == yesterday {
        yesterdayRefs := yesterdayRefs + [ref];
      }
    }
    assert values[..|values|] == values;
    r := Success((todayRefs, yesterdayRefs));
  }

  /** Decoding one more record: the error of a text that does not parse, or the
      decoded prefix with the new record appended. */
  lemma DecodeAllStep(values: seq<Record>, i: nat, toTime: string -> Option<Timestamp>, ts: seq<TimedRef>)
    requires i < |values| && DecodeAll(values[..i], toTime) == Success(ts)
    ensures toTime(values[i].timestamp).None? ==>
      DecodeAll(values[..i + 1], toTime) == Failure(TimestampError(values[i].timestamp))
    ensures toTime(values[i].timestamp).Some? ==>
      DecodeAll(values[..i + 1], toTime) == Success(ts + [Timed(values[i], toTime(values[i].timestamp).value)])
  {
    assert values[..i + 1][..i] == values[..i];
  }

  /** Appending a record appends it to the records of its own date only. */
  lemma OnDateSnoc(ts: seq<TimedRef>, x: TimedRef, d: Date)
    ensures OnDate(ts + [x], d) == if x.timestamp.date == d then OnDate(ts, d) + [x] else OnDate(ts, d)
  {
    assert (ts + [x])[..|ts|] == ts;
  }

  /** Once a prefix fails to decode, the whole list fails with the same error. */
  lemma {:induction false} DecodeFailureSticks(values: seq<Record>, n: nat, toTime: string -> Option<Timestamp>)
    requires n <= |values|
    requires DecodeAll(values[..n], toTime).Failure?
    ensures DecodeAll(values, toTime) == DecodeAll(values[..n], toTime)
    decreases |values| - n
  {
    if n < |values| {
      assert values[..n + 1][..n] == values[..n];
      assert DecodeAll(values[..n + 1], toTime) == DecodeAll(values[..n], toTime);
      DecodeFailureSticks(values, n + 1, toTime);
    } else {
      assert values[..n] == values;
    }
  }

  ghost predicate SortedByTime(s: seq<TimedRef>)
  {
    forall i, j :: 0 <= i < j < |s| ==> Micros(s[i].timestamp) <= Micros(s[j].timestamp)
  }

  /** Placing `x` after every element that is not later than it. */
  function Insert(s: seq<TimedRef>, x: TimedRef): (r: seq<TimedRef>)
    ensures |r| == |s| + 1
    ensures multiset(r) == multiset(s) + multiset{x}
    decreases |s|
  {
    if s == [] then [x]
    else if Micros(x.timestamp) < Micros(s[0].timestamp) then [x] + s
    else
      var t := Insert(s[1..], x);
      assert s == [s[0]] + s[1..];
      [s[0]] + t
  }

  ghost predicate AllAtLeast(s: seq<TimedRef>, m: int)
  {
    forall i :: 0 <= i < |s| ==> m <= Micros(s[i].timestamp)
  }

  /** Inserting an element no earlier than a bound keeps every element no earlier. */
  lemma {:induction false} InsertAtLeast(s: seq<TimedRef>, x: TimedRef, m: int)
    requires AllAtLeast(s, m) && m <= Micros(x.timestamp)
    ensures AllAtLeast(Insert(s, x), m)
    decreases |s|
  {
    if s != [] && Micros(s[0].timestamp) <= Micros(x.timestamp) {
      var t := Insert(s[1..], x);
      assert AllAtLeast(s[1..], m) by {
        forall i | 0 <= i < |s[1..]| ensures m <= Micros(s[1..][i].timestamp) {
          assert s[1..][i] == s[i + 1];
        }
      }
      InsertAtLeast(s[1..], x, m);
      assert Insert(s, x) == [s[0]] + t;
      ConsIndex(s[0], t);
    }
  }

  /** A sorted sequence headed by an element no later than any of it is sorted. */
  lemma ConsSorted(h: TimedRef, t: seq<TimedRef>)
    requires SortedByTime(t) && AllAtLeast(t, Micros(h.timestamp))
    ensures SortedByTime([h] + t)
  {
    var r := [h] + t;
    ConsIndex(h, t);
    forall i, j | 0 <= i < j < |r| ensures Micros(r[i].timestamp) <= Micros(r[j].timestamp) {
      if i == 0 {
        assert Micros(h.timestamp) <= Micros(t[j - 1].timestamp);
      } else {
        assert Micros(t[i - 1].timestamp) <= Micros(t[j - 1].timestamp);
      }
    }
  }

  lemma ConsIndex(h: TimedRef, t: seq<TimedRef>)
    ensures ([h] + t)[0] == h
    ensures forall k :: 1 <= k <= |t| ==> ([h] + t)[k] == t[k - 1]
  {
  }

  /** The tail of a sorted sequence is sorted and no earlier than its head. */
  lemma TailSorted(s: seq<TimedRef>)
    requires SortedByTime(s) && s != []
    ensures SortedByTime(s[1..]) && AllAtLeast(s[1..], Micros(s[0].timestamp))
  {
    forall i | 0 <= i < |s[1..]| ensures s[1..][i] == s[i + 1] {
    }
  }

  /** Inserting into a sorted sequence keeps it sorted. */
  lemma {:induction false} InsertSorted(s: seq<TimedRef>, x: TimedRef)
    requires SortedByTime(s)
    ensures SortedByTime(Insert(s, x))
    decreases |s|
  {
    if s == [] {
    } else if Micros(x.timestamp) < Micros(s[0].timestamp) {
      assert AllAtLeast(s, Micros(x.timestamp)) by {
        forall i | 0 <= i < |s| ensures Micros(x.timestamp) <= Micros(s[i].timestamp) {
          if i > 0 {
            assert Micros(s[0].timestamp) <= Micros(s[i].timestamp);
          }
        }
      }
      ConsSorted(x, s);
    } else {
      TailSorted(s);
      InsertSorted(s[1..], x);
      InsertAtLeast(s[1..], x, Micros(s[0].timestamp));
      ConsSorted(s[0], Insert(s[1..], x));
    }
  }

  /** `sorted(refs, key=timestamp)`: a stable sort, so records with equal
      timestamps keep their order. */
  function SortByTime(s: seq<TimedRef>): (r: seq<TimedRef>)
    ensures |r| == |s|
    ensures multiset(r) == multiset(s)
    ensures SortedByTime(r)
    decreases |s|
  {
    if s == [] then []
    else
      assert s == s[..|s| - 1] + [s[|s| - 1]];
      InsertSorted(SortByTime(s[..|s| - 1]), s[|s| - 1]);
      Insert(SortByTime(s[..|s| - 1]), s[|s| - 1])
  }

  /** Every element of a multiset-equal sequence comes from the original. */
  lemma SameMembers(a: seq<TimedRef>, b: seq<TimedRef>)
    requires multiset(a) == multiset(b)
    ensures forall x :: x in a <==> x in b
  {
    forall x ensures x in a <==> x in b {
      assert x in a <==> multiset(a)[x] > 0;
      assert x in b <==> multiset(b)[x] > 0;
    }
  }

  // ---------------------------------------------------------------------------
  // The whole generation, after the refresh

  /** A sorted bucket holds exactly the records of its date. */
  lemma SortedBucket(ts: seq<TimedRef>, d: Date)
    ensures forall x :: x in SortByTime(OnDate(ts, d)) <==> x in ts && x.timestamp.date == d
  {
    SameMembers(SortByTime(OnDate(ts, d)), OnDate(ts, d));
    OnDateMembers(ts, d);
  }

  /** The list the walk runs over: the latest record of yesterday, then today's
      records in time order. */
  function Combined(ys: seq<TimedRef>, tds: seq<TimedRef>): seq<TimedRef>
    requires |ys| > 0
  {
    [ys[|ys| - 1]] + tds
  }

  lemma CombinedDates(ys: seq<TimedRef>, tds: seq<TimedRef>, today: CalendarDate, yesterday: CalendarDate)
    requires PrevDay(today) == Some(yesterday)
    requires |ys| > 0
    requires forall x :: x in ys ==> x.timestamp.date == yesterday
    requires forall x :: x in tds ==> x.timestamp.date == today
    ensures var c := Combined(ys, tds);
      && c[0].timestamp.date == yesterday
      && (forall k :: 1 <= k < |c| ==> c[k].timestamp.date == today)
      && DayFits(c, today)
  {
    assert ys[|ys| - 1] in ys;
    var c := Combined(ys, tds);
    forall k | 1 <= k < |c| ensures c[k].timestamp.date == today {
      assert c[k] == tds[k - 1];
      assert c[k] in tds;
    }
    PrevDayKeepsDayValid(today);
  }

  /** What follows the bucketing: sort both buckets, carry the latest record of
      yesterday in front of today's, resolve the settings and walk. */
  function Schedule(yesterdayRefs: seq<TimedRef>, todayRefs: seq<TimedRef>, today: CalendarDate,
                    yesterday: CalendarDate, now: Timestamp, settings: Settings): Result<seq<Event>, GenerateError>
    requires PrevDay(today) == Some(yesterday)
    requires forall x :: x in yesterdayRefs ==> x.timestamp.date == yesterday
    requires forall x :: x in todayRefs ==> x.timestamp.date == today
  {
    var ys := SortByTime(yesterdayRefs);
    var tds := SortByTime(todayRefs);
    if |ys| == 0 then Failure(NoYesterdayRecord)
    else
      match Resolve(settings)
      case Failure(e) => Failure(e)
      case Success(lim) =>
        SameMembers(ys, yesterdayRefs);
        SameMembers(tds, todayRefs);
        CombinedDates(ys, tds, today, yesterday);
        Success(Walk(Combined(ys, tds), now, today, lim))
  }

  /** The events of one `generate` call after the refresh, or the error it raises. */
  function Itinerary(values: seq<Record>, today: CalendarDate, now: Timestamp, settings: Settings,
                     toTime: string -> Option<Timestamp>): Result<seq<Event>, GenerateError>
  {
    match PrevDay(today)
    case None => Failure(DateOverflow)
    case Some(yesterday) =>
      match DecodeAll(values, toTime)
      case Failure(e) => Failure(e)
      case Success(ts) =>
        OnDateMembers(ts, yesterday);
        OnDateMembers(ts, today);
        Schedule(OnDate(ts, yesterday), OnDate(ts, today), today, yesterday, now, settings)
  }

  method BuildItinerary(values: seq<Record>, today: CalendarDate, now: Timestamp, settings: Settings,
                        toTime: string -> Option<Timestamp>) returns (r: Result<seq<Event>, GenerateError>)
    ensures r == Itinerary(values, today, now, settings, toTime)
  {
    var prev := PrevDay(today);
    if prev.None? {
      return Failure(DateOverflow);
    }
    var buckets := Bucket(values, today, prev.value, toTime);
    if buckets.Failure? {
      return Failure(buckets.error);
    }
    OnDateMembers(DecodeAll(values, toTime).value, prev.value);
    OnDateMembers(DecodeAll(values, toTime).value, today);
    r := BuildSchedule(buckets.value.1, buckets.value.0, today, prev.value, now, settings);
  }

  method BuildSchedule(yesterdayRefs: seq<TimedRef>, todayRefs: seq<TimedRef>, today: CalendarDate,
                       yesterday: CalendarDate, now: Timestamp, settings: Settings) returns (r: Result<seq<Event>, GenerateError>)
    requires PrevDay(today) == Some(yesterday)
    requires forall x :: x in yesterdayRefs ==> x.timestamp.date == yesterday
    requires forall x :: x in todayRefs ==> x.timestamp.date == today
    ensures r == Schedule(yesterdayRefs, todayRefs, today, yesterday, now, settings)
  {
    var ys := SortByTime(yesterdayRefs);
    var refs := SortByTime(todayRefs);
    if |ys| == 0 {
      return Failure(NoYesterdayRecord);
    }
    SameMembers(ys, yesterdayRefs);
    SameMembers(refs, todayRefs);
    CombinedDates(ys, refs, today, yesterday);
    refs := [ys[|ys| - 1]] + refs;
    var limits := Resolve(settings);
    if limits.Failure? {
      return Failure(limits.error);
    }
    var events := Sessions(refs, now, today, limits.value);
    r := Success(events);
  }

  /** A bucket is empty when no record carries its date. */
  lemma {:induction false} OnDateEmpty(refs: seq<TimedRef>, d: Date)
    requires forall i :: 0 <= i < |refs| ==> refs[i].timestamp.date != d
    ensures OnDate(refs, d) == []
    decreases |refs|
  {
    if refs != [] {
      OnDateEmpty(refs[..|refs| - 1], d);
    }
  }

  /** A repository with no checkout dated yesterday cannot produce an itinerary. */
  lemma NoYesterdayFails(values: seq<Record>, today: CalendarDate, now: Timestamp, settings: Settings,
                         toTime: string -> Option<Timestamp>)
    requires PrevDay(today).Some?
    requires forall i :: 0 <= i < |values| ==> toTime(values[i].timestamp).Some?
    requires forall i :: 0 <= i < |values| ==> toTime(values[i].timestamp).value.date != PrevDay(today).value
    ensures Itinerary(values, today, now, settings, toTime) == Failure(NoYesterdayRecord)
  {
    OnDateEmpty(DecodeAll(values, toTime).value, PrevDay(today).value);
  }

  /** A produced itinerary has at most one event per record of the combined list:
      today's records and the one carried from yesterday. */
  lemma ItineraryBound(values: seq<Record>, today: CalendarDate, now: Timestamp, settings: Settings,
                       toTime: string -> Option<Timestamp>)
    requires Itinerary(values, today, now, settings, toTime).Success?
    ensures DecodeAll(values, toTime).Success? && PrevDay(today).Some?
    ensures |Itinerary(values, today, now, settings, toTime).value| <= 1 + |OnDate(DecodeAll(values, toTime).value, today)|
  {
    var ts := DecodeAll(values, toTime).value;
    var y := PrevDay(today).value;
    var lim := Resolve(settings).value;
    var ys := SortByTime(OnDate(ts, y));
    var tds := SortByTime(OnDate(ts, today));
    SortedBucket(ts, y);
    SortedBucket(ts, today);
    CombinedDates(ys, tds, today, y);
    assert Itinerary(values, today, now, settings, toTime).value == Walk(Combined(ys, tds), now, today, lim);
    WalkLength(Combined(ys, tds), now, today, lim);
  }

  /** The start clamp replaces the day only. On the first of a month the record
      carried from yesterday lies in the previous month, so it is moved to the
      first of that month, not to today: the session it opens starts at least 28
      days before today. */
  lemma ClampStartAcrossMonths(t: Timestamp, today: CalendarDate, h: int)
    requires 0 <= h < 24
    requires today.day == 1 && PrevDay(today) == Some(t.date)
    ensures var r := ClampStart(t, today, Some(h));
      && r == DateTime(Date(t.date.year, t.date.month, 1), h, 0, 0, 0)
      && r.date != today
      && Ordinal(r.date) + 28 <= Ordinal(today)
  {
    PrevDayOrdinal(today);
    assert t.date.day == DaysInMonth(t.date.year, t.date.month);
    var r := ClampStart(t, today, Some(h));
    assert Ordinal(t.date) - Ordinal(r.date) == t.date.day - 1;
  }
}
