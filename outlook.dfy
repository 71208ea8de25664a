/** Turning an itinerary into calendar events: one event per session, or one
    summary event for the whole day. A calendar is a sink that records the events
    saved to it; the O365 account is reduced to whether it is authenticated and
    which calendars it has. Event bodies and Jira lookups are left out, so a
    per-session subject is the branch name. */
module Outlook {
  import opened Wrappers
  import opened Times
  import opened Conf
  import opened Sessions
  import opened Utilities

  datatype OutlookError =
    | NotAuthenticated              // `ValueError`: no access granted yet
    | UnknownCalendar(name: string) // `KeyError`: the configured calendar is not loaded
    | UnsupportedType(kind: string) // `ValueError`: not one of the two itinerary types
    | EmptyItinerary                // `IndexError`: `itinerary[0]` on an empty list

  /** The record `generate_itinerary_single_event` folds the itinerary into. */
  datatype SingleItinerary = SingleItinerary(
    start: Timestamp,
    end: Timestamp,
    branches: seq<string>,
    issues: seq<string>,
    durations: map<string, int>)

  datatype Subject =
    | BranchSubject(branch: string)
    | SummarySubject(count: int, hours: int, minutes: int, seconds: int)

  datatype CalendarEvent = CalendarEvent(subject: Subject, start: Timestamp, end: Timestamp)

  // ---------------------------------------------------------------------------
  // Aggregation

  /** The set of branches worked on (`set(instance["branch"] for ...)`). */
  function Branches(itinerary: seq<Event>): set<string>
  {
    set i | 0 <= i < |itinerary| :: itinerary[i].branch
  }

  /** The distinct branches of the itinerary, in order of first appearance. */
  function DistinctBranches(itinerary: seq<Event>): (r: seq<string>)
    ensures forall i, j :: 0 <= i < j < |r| ==> r[i] != r[j]
    decreases |itinerary|
  {
    if itinerary == [] then []
    else
      var rest := DistinctBranches(itinerary[..|itinerary| - 1]);
      var b := itinerary[|itinerary| - 1].branch;
      if b in rest then rest else rest + [b]
  }

  /** The ordered branches are exactly the set of branches worked on. */
  lemma {:induction false} DistinctBranchesMembers(itinerary: seq<Event>)
    ensures forall b :: b in DistinctBranches(itinerary) <==> b in Branches(itinerary)
    decreases |itinerary|
  {
    if itinerary != [] {
      var init := itinerary[..|itinerary| - 1];
      DistinctBranchesMembers(init);
      assert forall i :: 0 <= i < |init| ==> init[i] == itinerary[i];
      assert Branches(itinerary) == Branches(init) + {itinerary[|itinerary| - 1].branch};
    }
  }

  /** The per-branch totals, built as the loop builds them: first sight of a
      branch stores its duration, later sessions add to it. */
  function Durations(itinerary: seq<Event>): map<string, int>
    decreases |itinerary|
  {
    if itinerary == [] then map[]
    else
      var d := Durations(itinerary[..|itinerary| - 1]);
      var e := itinerary[|itinerary| - 1];
      d[e.branch := if e.branch in d then d[e.branch] + e.duration else e.duration]
  }

  /** The summed duration of the sessions on branch `b`. */
  function BranchTotal(itinerary: seq<Event>, b: string): int
    decreases |itinerary|
  {
    if itinerary == [] then 0
    else
      var e := itinerary[|itinerary| - 1];
      BranchTotal(itinerary[..|itinerary| - 1], b) + (if e.branch == b then e.duration else 0)
  }

  /** The totals are keyed by exactly the branches worked on. */
  lemma {:induction false} DurationsKeys(itinerary: seq<Event>)
    ensures forall b :: b in Durations(itinerary) <==> b in Branches(itinerary)
    decreases |itinerary|
  {
    if itinerary != [] {
      var init := itinerary[..|itinerary| - 1];
      DurationsKeys(init);
      assert forall i :: 0 <= i < |init| ==> init[i] == itinerary[i];
      assert Branches(itinerary) == Branches(init) + {itinerary[|itinerary| - 1].branch};
    }
  }

  /** A branch's total is the sum of the durations of its sessions. */
  lemma {:induction false} DurationsAreTotals(itinerary: seq<Event>)
    ensures forall b :: b in Durations(itinerary) ==> Durations(itinerary)[b] == BranchTotal(itinerary, b)
    decreases |itinerary|
  {
    if itinerary != [] {
      var init := itinerary[..|itinerary| - 1];
      DurationsAreTotals(init);
      DurationsKeys(init);
      forall b | b !in Durations(init) ensures BranchTotal(init, b) == 0 {
        forall i | 0 <= i < |init| ensures init[i].branch != b {
          assert init[i].branch in Branches(init);
        }
        NoSessionsNoTotal(init, b);
      }
    }
  }

  lemma {:induction false} NoSessionsNoTotal(itinerary: seq<Event>, b: string)
    requires forall i :: 0 <= i < |itinerary| ==> itinerary[i].branch != b
    ensures BranchTotal(itinerary, b) == 0
    decreases |itinerary|
  {
    if itinerary != [] {
      NoSessionsNoTotal(itinerary[..|itinerary| - 1], b);
    }
  }

  /** The summed duration of all sessions. */
  function TotalDuration(itinerary: seq<Event>): int
    decreases |itinerary|
  {
    if itinerary == [] then 0
    else TotalDuration(itinerary[..|itinerary| - 1]) + itinerary[|itinerary| - 1].duration
  }

  /** The sum of `totals` over `keys`, a missing key counting as nothing. */
  function SumOver(keys: seq<string>, totals: map<string, int>): int
    decreases |keys|
  {
    if keys == [] then 0
    else
      var k := keys[|keys| - 1];
      SumOver(keys[..|keys| - 1], totals) + (if k in totals then totals[k] else 0)
  }

  /** Storing `v` under a key that `keys` does not hold leaves the sum alone. */
  lemma {:induction false} SumOverOther(keys: seq<string>, totals: map<string, int>, b: string, v: int)
    requires b !in keys
    ensures SumOver(keys, totals[b := v]) == SumOver(keys, totals)
    decreases |keys|
  {
    if keys != [] {
      SumOverOther(keys[..|keys| - 1], totals, b, v);
    }
  }

  /** Storing `v` under a key that distinct `keys` hold once changes the sum by
      the difference. */
  lemma {:induction false} SumOverUpdate(keys: seq<string>, totals: map<string, int>, b: string, v: int)
    requires forall i, j :: 0 <= i < j < |keys| ==> keys[i] != keys[j]
    requires b in keys && b in totals
    ensures SumOver(keys, totals[b := v]) == SumOver(keys, totals) + v - totals[b]
    decreases |keys|
  {
    var init := keys[..|keys| - 1];
    if keys[|keys| - 1] == b {
      assert b !in init;
      SumOverOther(init, totals, b, v);
    } else {
      assert b in init;
      SumOverUpdate(init, totals, b, v);
    }
  }

  /** One step of the fold, on sums: a new key enters with `delta`, a known key
      grows by `delta`; either way the sum grows by `delta`. */
  lemma SumOverStep(ks: seq<string>, d: map<string, int>, b: string, delta: int)
    requires forall i, j :: 0 <= i < j < |ks| ==> ks[i] != ks[j]
    requires b in d <==> b in ks
    ensures var ks' := if b in ks then ks else ks + [b];
      SumOver(ks', d[b := if b in d then d[b] + delta else delta]) == SumOver(ks, d) + delta
  {
    if b in d {
      SumOverUpdate(ks, d, b, d[b] + delta);
    } else {
      SumOverOther(ks, d, b, delta);
      assert (ks + [b])[..|ks|] == ks;
    }
  }

  /** The totals are keyed by exactly the distinct branches. */
  lemma BranchesHaveTotals(itinerary: seq<Event>)
    ensures forall b :: b in Durations(itinerary) <==> b in DistinctBranches(itinerary)
  {
    DurationsKeys(itinerary);
    DistinctBranchesMembers(itinerary);
  }

  lemma DurationsUnfold(itinerary: seq<Event>)
    requires itinerary != []
    ensures var init := itinerary[..|itinerary| - 1];
      var e := itinerary[|itinerary| - 1];
      var d := Durations(init);
      Durations(itinerary) == d[e.branch := if e.branch in d then d[e.branch] + e.duration else e.duration]
  {
  }

  lemma DistinctBranchesUnfold(itinerary: seq<Event>)
    requires itinerary != []
    ensures var ks := DistinctBranches(itinerary[..|itinerary| - 1]);
      var b := itinerary[|itinerary| - 1].branch;
      DistinctBranches(itinerary) == if b in ks then ks else ks + [b]
  {
  }

  /** Conservation: the branch totals add up to the total duration. */
  lemma {:induction false} DurationsConserve(itinerary: seq<Event>)
    ensures SumOver(DistinctBranches(itinerary), Durations(itinerary)) == TotalDuration(itinerary)
    decreases |itinerary|
  {
    if itinerary != [] {
      var init := itinerary[..|itinerary| - 1];
      var e := itinerary[|itinerary| - 1];
      var ks := DistinctBranches(init);
      var d := Durations(init);
      var ks' := if e.branch in ks then ks else ks + [e.branch];
      var d' := d[e.branch := if e.branch in d then d[e.branch] + e.duration else e.duration];
      DurationsConserve(init);
      assert e.branch in d <==> e.branch in ks by {
        BranchesHaveTotals(init);
      }
      SumOverStep(ks, d, e.branch, e.duration);
      assert DistinctBranches(itinerary) == ks' by {
        DistinctBranchesUnfold(itinerary);
      }
      assert Durations(itinerary) == d' by {
        DurationsUnfold(itinerary);
      }
    }
  }

  /** `generate_itinerary_single_event`'s folding: first start, last end, the
      distinct branches, their issues, the per-branch totals. */
  function Aggregate(itinerary: seq<Event>): (r: Result<SingleItinerary, OutlookError>)
    ensures itinerary == [] <==> r == Failure(EmptyItinerary)
    ensures r.Success? ==> r.value.start == itinerary[0].start && r.value.end == itinerary[|itinerary| - 1].end
  {
    if itinerary == [] then Failure(EmptyItinerary)
    else
      var branches := DistinctBranches(itinerary);
      var issues := seq(|branches|, i requires 0 <= i < |branches| => Issue(branches[i]));
      Success(SingleItinerary(itinerary[0].start, itinerary[|itinerary| - 1].end, branches, issues, Durations(itinerary)))
  }

  /** What the single record holds: one issue per distinct branch, taken by the
      last-segment rule; totals keyed by exactly those branches, each the sum of
      its sessions; and the totals add up to the whole itinerary. */
  lemma AggregateContents(itinerary: seq<Event>)
    requires itinerary != []
    ensures var s := Aggregate(itinerary).value;
      && (forall b :: b in s.branches <==> b in Branches(itinerary))
      && (forall i, j :: 0 <= i < j < |s.branches| ==> s.branches[i] != s.branches[j])
      && |s.issues| == |s.branches|
      && (forall i :: 0 <= i < |s.issues| ==> s.issues[i] == Issue(s.branches[i]))
      && s.durations.Keys == Branches(itinerary)
      && (forall b :: b in s.durations ==> s.durations[b] == BranchTotal(itinerary, b))
      && (forall i :: 0 <= i < |s.branches| ==> s.branches[i] in s.durations)
      && SumOver(s.branches, s.durations) == TotalDuration(itinerary)
  {
    var s := Aggregate(itinerary).value;
    assert s.branches == DistinctBranches(itinerary) && s.durations == Durations(itinerary);
    assert forall b :: b in s.branches <==> b in Branches(itinerary) by {
      DistinctBranchesMembers(itinerary);
    }
    assert s.durations.Keys == Branches(itinerary) by {
      DurationsKeys(itinerary);
    }
    assert forall b :: b in s.durations ==> s.durations[b] == BranchTotal(itinerary, b) by {
      DurationsAreTotals(itinerary);
    }
    assert SumOver(s.branches, s.durations) == TotalDuration(itinerary) by {
      DurationsConserve(itinerary);
    }
  }

  /** The summary subject: the number of distinct branches and the span from the
      first start to the last end, as the default `strfdelta` format splits it. */
  function SingleEventSubject(s: SingleItinerary): (r: Subject)
    ensures r.SummarySubject? && r.count == |s.branches|
    ensures r.hours * 3600 + r.minutes * 60 + r.seconds == TotalSeconds(Elapsed(s.end, s.start))
    ensures 0 <= r.minutes < 60 && 0 <= r.seconds < 60
  {
    var rem := TotalSeconds(Elapsed(s.end, s.start));
    DefaultFormat(rem);
    var vs := Decompose(rem, ["H", "M", "S"]);
    assert FirstMissing(["H", "M", "S"], vs).None?;
    assert StrfDelta(TimeDelta(Elapsed(s.end, s.start)), ["H", "M", "S"], "timedelta") == Success(vs);
    SummarySubject(|s.branches|, vs["H"], vs["M"], vs["S"])
  }

  /** The event saved in single-event mode. */
  function SummaryEvent(s: SingleItinerary): CalendarEvent
  {
    CalendarEvent(SingleEventSubject(s), s.start, s.end)
  }

  /** The events saved in multiple-events mode, one per session in order. */
  function PerSessionEvents(itinerary: seq<Event>): (r: seq<CalendarEvent>)
    ensures |r| == |itinerary|
    ensures forall i :: 0 <= i < |r| ==>
      r[i].start == itinerary[i].start && r[i].end == itinerary[i].end && r[i].subject == BranchSubject(itinerary[i].branch)
  {
    seq(|itinerary|, i requires 0 <= i < |itinerary| => CalendarEvent(BranchSubject(itinerary[i].branch), itinerary[i].start, itinerary[i].end))
  }

  /** The single-event fold, with its `durations` loop. */
  method BuildSingleItinerary(itinerary: seq<Event>) returns (r: Result<SingleItinerary, OutlookError>)
    ensures r == Aggregate(itinerary)
  {
    var branches := DistinctBranches(itinerary);
    var issues := seq(|branches|, i requires 0 <= i < |branches| => Issue(branches[i]));
    if |itinerary| == 0 {
      return Failure(EmptyItinerary);
    }
    var start := itinerary[0].start;
    var end := itinerary[|itinerary| - 1].end;
    var durations: map<string, int> := map[];
    for i := 0 to |itinerary|
      invariant durations == Durations(itinerary[..i])
    {
      assert itinerary[..i + 1][..i] == itinerary[..i];
      var instance := itinerary[i];
      if instance.branch !in durations {
        durations := durations[instance.branch := instance.duration];
      } else {
        durations := durations[instance.branch := durations[instance.branch] + instance.duration];
      }
    }
    assert itinerary[..|itinerary|] == itinerary;
    r := Success(SingleItinerary(start, end, branches, issues, durations));
  }

  // ---------------------------------------------------------------------------
  // Calendars and the manager

  /** An O365 calendar, reduced to the events saved into it. */
  class Calendar {
    var events: seq<CalendarEvent>

    constructor()
      ensures events == []
    {
      events := [];
    }

    /** `calendar.new_event()` filled in, then `event.save()`. */
    method Save(e: CalendarEvent)
      modifies this
      ensures events == old(events) + [e]
    {
      events := events + [e];
    }
  }

  class OutlookManager {
    var authenticated: bool
    var calendars: map<string, Calendar>

    constructor(authenticated: bool, calendars: map<string, Calendar>)
      ensures this.authenticated == authenticated && this.calendars == calendars
    {
      this.authenticated := authenticated;
      this.calendars := calendars;
    }

    /** `generate_itinerary_multiple_events`. */
    method GenerateItineraryMultipleEvents(calendar: Calendar, itinerary: seq<Event>)
      modifies calendar
      ensures calendar.events == old(calendar.events) + PerSessionEvents(itinerary)
    {
      for i := 0 to |itinerary|
        invariant calendar.events == old(calendar.events) + PerSessionEvents(itinerary[..i])
      {
        var instance := itinerary[i];
        calendar.Save(CalendarEvent(BranchSubject(instance.branch), instance.start, instance.end));
        assert PerSessionEvents(itinerary[..i + 1]) == PerSessionEvents(itinerary[..i]) + [PerSessionEvents(itinerary)[i]];
      }
      assert itinerary[..|itinerary|] == itinerary;
    }

    /** `generate_itinerary_single_event`: nothing is saved when the fold fails. */
    method GenerateItinerarySingleEvent(calendar: Calendar, itinerary: seq<Event>) returns (r: Result<(), OutlookError>)
      modifies calendar
      ensures r.Failure? <==> Aggregate(itinerary).Failure?
      ensures r.Failure? ==> r.error == EmptyItinerary && calendar.events == old(calendar.events)
      ensures r.Success? ==> calendar.events == old(calendar.events) + [SummaryEvent(Aggregate(itinerary).value)]
    {
      var single := BuildSingleItinerary(itinerary);
      if single.Failure? {
        return Failure(single.error);
      }
      var s := single.value;
      calendar.Save(CalendarEvent(SingleEventSubject(s), s.start, s.end));
      r := Success(());
    }

    /** `generate_itinerary(itinerary, itinerary_type)` with the configured
        calendar name `calendarName`: the checks run in the source's order, and
        only the selected calendar receives events. */
    method GenerateItinerary(itinerary: seq<Event>, itineraryType: string, calendarName: string)
      returns (r: Result<(), OutlookError>)
      modifies calendars.Values
      ensures !authenticated ==> r == Failure(NotAuthenticated)
      ensures authenticated && calendarName !in calendars ==> r == Failure(UnknownCalendar(calendarName))
      ensures authenticated && calendarName in calendars && itineraryType != MultipleEvents && itineraryType != SingleEvent ==>
        r == Failure(UnsupportedType(itineraryType))
      ensures r.Failure? && r.error != EmptyItinerary ==> forall c :: c in calendars.Values ==> c.events == old(c.events)
      ensures forall c :: c in calendars.Values && (calendarName !in calendars || c != calendars[calendarName]) ==>
        c.events == old(c.events)
      ensures authenticated && calendarName in calendars && itineraryType == MultipleEvents ==>
        r.Success? && calendars[calendarName].events == old(calendars[calendarName].events) + PerSessionEvents(itinerary)
      ensures authenticated && calendarName in calendars && itineraryType == SingleEvent ==>
        && (r.Failure? <==> itinerary == [])
        && (r.Failure? ==> r == Failure(EmptyItinerary) && calendars[calendarName].events == old(calendars[calendarName].events))
        && (r.Success? ==> calendars[calendarName].events == old(calendars[calendarName].events) + [SummaryEvent(Aggregate(itinerary).value)])
    {
      if !authenticated {
        return Failure(NotAuthenticated);
      }
      if calendarName !in calendars {
        return Failure(UnknownCalendar(calendarName));
      }
      var calendar := calendars[calendarName];
      if itineraryType == MultipleEvents {
        GenerateItineraryMultipleEvents(calendar, itinerary);
        r := Success(());
      } else if itineraryType == SingleEvent {
        r := GenerateItinerarySingleEvent(calendar, itinerary);
      } else {
        r := Failure(UnsupportedType(itineraryType));
      }
    }
  }
}
