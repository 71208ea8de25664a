# Workday: a verified model of the reflog-to-itinerary engine

Workday reads a git repository's reflog and keeps the `checkout:` lines. It
stores each new line under its digest and cuts each stored line into a record:
commit, timestamp, message, previous branch, current branch. From the records of
yesterday and today it then rebuilds the day's working sessions:

- it sorts each day's records by time;
- it puts the latest record of yesterday in front of today's records;
- it pairs every record with its successor, or with a pseudo record at "now"
  for the last one;
- it clamps the session to the configured start and end hours;
- it keeps only sessions longer than the configured minimum.

The resulting itinerary goes to an Outlook calendar in one of two modes:
- one calendar event per session;
- one summary event for the whole day, with per-branch totals.

Three supporting pieces are modelled as well:
- `strfdelta`, the duration formatter;
- `ExtConfig.sync`, which reconciles stored settings with their defaults;
- the two lookup tables from `src/conf/conf.py`.

The model is split into one module per concern:

| module | file | models |
|---|---|---|
| `Wrappers` | wrappers.dfy | `Option` and `Result` |
| `PyStr` | pystr.dfy | Python's `str.find`, slicing with index normalisation, `split` |
| `Times` | times.dfy | calendar dates, wall-clock timestamps, `date - timedelta(days=1)` |
| `Dicts` | dicts.dfy | Python's insertion-ordered `dict` |
| `Conf` | conf.dfy | `DURATION_MAP`, `HOUR_MAP` and the menu labels |
| `Config` | config.dfy | `ExtConfig.sync` as a class over a key/value map |
| `Reflog` | reflog.dfy | line filter, field extraction, the `hashes` and `parsed` merges |
| `Sessions` | sessions.dfy | the computations inside `generate`: dating, sorting, the session walk, clamping, the filter |
| `Parse` | parse.dfy | `RepositoryParser` as a class, and the data file's per-repository entry |
| `Utilities` | utilities.dfy | `strfdelta` as integer unit decomposition |
| `Outlook` | outlook.dfy | single-event aggregation, the summary subject, per-session events, mode dispatch |

Outside effects are parameters:
- the `git reflog` run is a `GitRun`: its decoded output, a `CalledProcessError` exit (`ExitedNonZero`, caught by `parse`), or an `OSError` because git or the repository directory cannot be reached (`NotStarted`, not caught);
- the md5 digest is a function `digest: string -> string`;
- `datetime.strptime` is a function `toTime: string -> Option<Timestamp>`;
- today's date and the current instant are plain values.

Errors that the source raises as exceptions are `Failure` values here, in the
order the source raises them:
- `DateOverflow`: `OverflowError` computing yesterday;
- `TimestampError`: `ValueError` from `strptime`;
- `NoYesterdayRecord`: `IndexError` at `yesterday_refs[-1]`;
- `UnknownSetting`: `KeyError` in `HOUR_MAP` or `DURATION_MAP`;
- `GitNotStarted`: `OSError` from `check_output` when git cannot be started, which `parse` lets through;
- the `OutlookError` cases.

Behaviour of the code worth noting:

- The start clamp (`src/parse.py:182-188`) replaces only the day of the month, so
  on the first of a month the record carried over from yesterday lands on the
  first of the previous month, not on today (`Sessions.ClampStartAcrossMonths`).
- Field extraction (`src/parse.py:50-56`) never raises: a missing marker makes
  `find` return -1, and the slices use it as an index. So `Reflog.ExtractFields`
  is total.
- Field extraction searches the whole line for ` to` and `to `. A previous branch
  that ends in `to` shifts the current branch (`Reflog.ExtractFieldsPreviousEndsInTo`).
  A previous branch that starts with `to` comes out empty
  (`Reflog.ExtractFieldsPreviousStartsWithTo`).
- The hour menus store the text `None` for "no hour". That text is truthy and is
  not a key of `HOUR_MAP`, so generation fails when it is chosen
  (`Sessions.NoneLabelIsUnknown`).

## Model

| member | source | states |
|---|---|---|
| PyStr.FindSpec | src/parse.py:52-55 | `s.find(sub)` is -1 exactly when `sub` occurs nowhere; otherwise it is an occurrence and no earlier index is one |
| PyStr.Bound | src/parse.py:52-55 | a slice bound is normalised as Python does: negative counts from the end, and it is clamped into the string |
| PyStr.Slice | src/parse.py:52 | `s[i:j]` is the text between the normalised bounds, and empty when they cross |
| PyStr.SliceFromSplits | src/parse.py:53 | `s[:i] + s[i:] == s` for every `i`, and `s[i:]` is as long as the normalised bound leaves |
| PyStr.FirstPiece | src/parse.py:51 | `s.split(" ")[0]` is a prefix of `s` free of the separator, ending at the first separator or at the end |
| PyStr.LastPiece | src/parse.py:204 | `s.split("/")[-1]` is a suffix of `s` free of the separator, starting after the last separator or at the start |
| PyStr.Split | src/parse.py:95 | `split` gives at least one piece; no piece holds the separator; joining the pieces gives back the input |
| PyStr.SplitJoin | src/parse.py:95 | splitting a join of separator-free pieces gives back those pieces, empty ones included |
| PyStr.FindExtend | src/parse.py:52-55 | a needle found in a string is found at the same index in any extension of it |
| PyStr.SliceAfterFirst | src/parse.py:55 | the text from just past a marker's first occurrence is everything after the marker |
| PyStr.MiddleSlice | src/parse.py:54 | the slice from the end of a prefix over the length of the middle piece is that middle piece |
| Times.PrevDay | src/parse.py:120 | the day before exists for every date except 0001-01-01, where Python overflows |
| Times.PrevDayOrdinal | src/parse.py:120 | the day before is exactly one day earlier |
| Times.DaysBeforeMonthStep | src/parse.py:120 | the days-before-month table adds up the month lengths, and December ends the year |
| Times.PrevDayKeepsDayValid | src/parse.py:120 | today's day number is a valid day of yesterday's month, and the months differ only when today is the first |
| Dicts.Empty | src/parse.py:30-31 | a fresh dictionary is empty |
| Dicts.Put | src/parse.py:39 | storing a key sets its value; a new key goes last in iteration order and an existing key keeps its place |
| Dicts.Values | src/parse.py:125 | `values()` lists the values in key insertion order |
| Dicts.ValuesAreItems | src/parse.py:38 | `x in d.values()` holds exactly when some key maps to `x` |
| Conf.TablesInRange | src/conf/conf.py:91-104 | every hour in `HOUR_MAP` is a valid hour of the day, every minimum in `DURATION_MAP` is positive, and the "None" label is not a key of `HOUR_MAP` |
| Config.Synced | src/conf/config.py:21-36 | after syncing, the keys are exactly the defaults; a key already set keeps its value; a missing key gets its default |
| Config.SyncedIdempotent | src/conf/config.py:17-37 | syncing twice is syncing once |
| Config.SyncedFixesComplete | src/conf/config.py:17-37 | a configuration that has exactly the default keys is left unchanged |
| Config.ExtConfig.Update | src/conf/config.py:23-25 | `update(key=value)` writes that one key |
| Config.ExtConfig.Sync | src/conf/config.py:17-37 | the add-defaults loop and the removal loop leave the map equal to `Synced` of the old map |
| Reflog.KeepCheckouts | src/parse.py:95 | the kept lines are exactly the non-empty input lines that contain `checkout:` |
| Reflog.KeepCheckoutsInOrder | src/parse.py:95 | kept lines keep their reflog order |
| Reflog.KeepCheckoutsAppend | src/parse.py:95 | the filter of a concatenation is the concatenation of the filters; with `KeepCheckoutsOne` this fixes the result line by line, repeated lines included |
| Reflog.KeepCheckoutsOne | src/parse.py:95 | one line is kept, as itself, exactly when it is non-empty and contains `checkout:`; otherwise nothing is kept |
| Reflog.ExtractFieldsRoundTrip | src/parse.py:50-56 | cutting a well-formed checkout line gives back its commit, date text, message, previous and current branch |
| Reflog.CommitFieldRoundTrip | src/parse.py:51 | the commit is the text before the first space |
| Reflog.DateFieldRoundTrip | src/parse.py:52 | the timestamp text is the text between the first `{` and the first `}` |
| Reflog.MessageFieldRoundTrip | src/parse.py:53 | the message runs from `checkout: ` to the end of the line |
| Reflog.PreviousFieldRoundTrip | src/parse.py:54 | the previous branch is the text from 5 past `from ` up to ` to` |
| Reflog.CurrentFieldRoundTrip | src/parse.py:55 | the current branch is everything from 3 past `to ` |
| Reflog.ExtractFieldsPreviousEndsInTo | src/parse.py:55 | when the previous branch ends in `to`, the current branch comes out as `to ` plus the real one |
| Reflog.ExtractFieldsPreviousStartsWithTo | src/parse.py:54 | when the previous branch starts with `to`, it comes out empty |
| Reflog.AddLine | src/parse.py:38-39 | after one step the line is a stored value, and a line already stored changes nothing |
| Reflog.MergeHashesKeysAreDigests | src/parse.py:37-39 | every key stays the digest of its line |
| Reflog.MergeHashesKeepsEntries | src/parse.py:37-39 | entries already stored are never overwritten, and they keep their order |
| Reflog.MergeHashesCovers | src/parse.py:37-39 | afterwards every input line is a stored value |
| Reflog.MergeHashesKnown | src/parse.py:38 | lines that are all stored already change nothing |
| Reflog.MergeHashesIdempotent | src/parse.py:37-39 | merging the same reflog twice is merging it once |
| Reflog.MergeHashesNewKeys | src/parse.py:39 | every new key is the digest of some input line |
| Reflog.MergeHashesKeys | src/parse.py:37-39 | the keys afterwards are the old keys plus the digests of the input lines |
| Reflog.ParseKeysContents | src/parse.py:44-63 | walking keys in order gives a record to each visited key that had none, cut from its line, and keeps old records and their order |
| Reflog.MergeParsedContents | src/parse.py:41-63 | afterwards every digest has a record; old records are kept; new ones are cut from their lines |
| Reflog.MergeParsedIdempotent | src/parse.py:44-45 | a second pass over the same digests changes nothing |
| Reflog.ParseKeysAllPresent | src/parse.py:45 | keys that already have records are skipped |
| Parse.RefreshCoherent | src/parse.py:97-98 | a refresh keeps the stored entry coherent: keys are digests, every digest has the record of its line, old lines and records are kept, new lines are stored |
| Parse.RefreshIdempotent | src/parse.py:97-98 | refreshing again with the same reflog changes nothing |
| Parse.DataStore.Store | src/parse.py:100-108 | `data.tracked` gets the repository's entry, and no other entry changes |
| Parse.RepositoryParser.constructor | src/parse.py:28-32 | a new parser starts empty, then takes the stored dictionaries if the repository is tracked |
| Parse.RepositoryParser.Load | src/parse.py:73-79 | a tracked repository's stored dictionaries replace the parser's; otherwise nothing changes |
| Parse.RepositoryParser.MakeHashes | src/parse.py:34-39 | the loop leaves `hashes` equal to the merge of the reflog into it, and `parsed` unchanged |
| Parse.RepositoryParser.MakeParsed | src/parse.py:41-63 | the loop leaves `parsed` equal to the merge of every digest in `hashes`, and `hashes` unchanged |
| Parse.RepositoryParser.Parse | src/parse.py:81-108 | a git run that exits non-zero changes nothing; one that cannot be started changes nothing and raises `GitNotStarted`; otherwise the kept checkout lines are merged and the new state is stored under the repository |
| Parse.RepositoryParser.Generate | src/parse.py:110-211 | the parser is refreshed, then the itinerary is built from the records in `parsed.values()` order; a git run that cannot be started ends it with `GitNotStarted` and no change |
| Parse.ParseTwice | src/parse.py:81-108 | two refreshes with the same reflog leave the parser where one leaves it |
| Sessions.HourSetting | src/parse.py:176-177 | an unset hour setting is no clamp; a set one is its `HOUR_MAP` hour, and a set one missing from the table fails |
| Sessions.Resolve | src/parse.py:176-207 | the start-hour, end-hour and minimum-duration lookups succeed exactly when each setting is in its table, in the source's order; the hours are valid hours and the minimum is the table's value |
| Sessions.NoneLabelIsUnknown | src/parse.py:176-177 | choosing the "None" start-hour label makes generation fail |
| Sessions.Issue | src/parse.py:204 | the issue is a `/`-free suffix of the branch: the whole branch without `/`, and the text after the last `/` otherwise |
| Sessions.ClampStart | src/parse.py:176-188 | with a start hour, a start before it or not on today is moved to that hour sharp on today's day number in the same month; otherwise it is unchanged |
| Sessions.ClampStartNotEarlier | src/parse.py:176-188 | a start on today's date is never moved earlier |
| Sessions.ClampEnd | src/parse.py:189-197 | with an end hour, an end after it is moved to that hour sharp on the same date; otherwise it is unchanged |
| Sessions.ClampEndNotLater | src/parse.py:189-197 | an end is never moved later |
| Sessions.ClampStartAcrossMonths | src/parse.py:182-188 | on the first of a month the carried-over record is moved to the first of the previous month, at least 28 days before today |
| Sessions.Session | src/parse.py:199-205 | a session's duration is end minus start, its branch is the first record's branch, its issue that branch's issue |
| Sessions.Rest | src/parse.py:189-197 | the clamped end is written back into the successor record, which starts the next session; nothing else changes |
| Sessions.RestDayFits | src/parse.py:182-183 | every record left to walk still has a month in which today's day number is valid |
| Sessions.WalkLength | src/parse.py:153-174 | the walk emits at most one session per record |
| Sessions.WalkDurations | src/parse.py:199-210 | every emitted session lasts end minus start, strictly longer than the minimum, and carries its branch's issue |
| Sessions.WalkBranches | src/parse.py:157-205 | every emitted session is the one some record opens: on that record's current branch, from its clamped opening time to the clamped time of the next record or of now |
| Sessions.ReportedMembers | src/parse.py:207-210 | the minimum-duration filter keeps exactly the sessions strictly longer than the minimum |
| Sessions.CandidateAt | src/parse.py:157-205 | the `k`-th unfiltered session is on record `k`'s branch with its issue, starts at record `k`'s clamped opening time (the end clamp already written over it for `k > 0`), ends at record `k + 1`'s clamped time or now, and lasts end minus start |
| Sessions.WalkIsReported | src/parse.py:153-211 | the walk equals the minimum-duration filter applied to the one-per-record sessions |
| Sessions.WalkMembers | src/parse.py:199-210 | a session is emitted exactly when it is one of the per-record sessions and lasts strictly longer than the minimum |
| Sessions.Sessions | src/parse.py:151-211 | the index loop with its in-place clamps emits exactly the sessions of the walk |
| Sessions.ClampPair | src/parse.py:157-205 | one loop pass pairs a record with its successor, or with a checkout "now" for the last one; the event it builds is the walk's first session and the write-back leaves exactly the records the walk carries on with |
| Sessions.DecodeAll | src/parse.py:125-131 | decoding succeeds exactly when every timestamp text parses, and then yields each record with its parsed timestamp, in order |
| Sessions.OnDate | src/parse.py:132-139 | a day's bucket holds every record of that date as often as it occurs, and nothing else |
| Sessions.OnDateMembers | src/parse.py:132-139 | a record is in a day's bucket exactly when it is a record of that date |
| Sessions.Bucket | src/parse.py:122-139 | the bucketing loop fails exactly when decoding fails, with the same error, and otherwise yields today's and yesterday's buckets |
| Sessions.DecodeFailureSticks | src/parse.py:127-130 | the first timestamp that fails to parse is the error, whatever follows it |
| Sessions.Insert | src/parse.py:141-148 | inserting adds exactly the one record: one longer, the same multiset plus the new record |
| Sessions.InsertSorted | src/parse.py:141-148 | inserting into a time-ordered list keeps it time-ordered |
| Sessions.InsertAtLeast | src/parse.py:141-148 | inserting a record no earlier than a bound into records no earlier than it leaves every record no earlier than it |
| Sessions.SortByTime | src/parse.py:141-148 | `sorted` by timestamp yields a time-ordered permutation of its input |
| Sessions.SortedBucket | src/parse.py:141-148 | a sorted bucket holds exactly the records of its date |
| Sessions.CombinedDates | src/parse.py:149 | the combined list starts with a record of yesterday's date, all the rest are today's, and the clamp's day replacement is valid for every record |
| Sessions.BuildItinerary | src/parse.py:119-211 | generation yields exactly the itinerary specified by `Itinerary`: overflow, timestamp, missing-yesterday and settings errors in the source's order, else the walk |
| Sessions.BuildSchedule | src/parse.py:141-211 | sorting, combining and walking yield exactly the specified schedule |
| Sessions.OnDateEmpty | src/parse.py:136-139 | a day without records has an empty bucket |
| Sessions.NoYesterdayFails | src/parse.py:149 | with no record dated yesterday, generation fails with the missing-yesterday error |
| Sessions.ItineraryBound | src/parse.py:149-211 | a produced itinerary has at most one session more than there are records dated today |
| Utilities.TotalSeconds | src/utilities.py:71 | `int(delta.total_seconds())` truncates toward zero |
| Utilities.Remainder | src/utilities.py:68-81 | a `timedelta` gives its whole seconds; a number is scaled by its unit (1, 60, 3600, 86400, 604800); an unknown unit leaves no remainder; a mismatched type fails |
| Utilities.FirstMissing | src/utilities.py:106 | formatting fails exactly when a requested field got no value, and it names the first one |
| Utilities.Strfdelta | src/utilities.py:45-106 | the divmod loop over W, D, H, M, S computes exactly `StrfDelta` |
| Utilities.DecomposeKeys | src/utilities.py:103-105 | exactly the requested fields among W, D, H, M, S get values |
| Utilities.DecomposeRecomposes | src/utilities.py:103-105 | the field values times their unit seconds, plus what is left, give back the starting seconds |
| Utilities.DecomposeRestBound | src/utilities.py:103-105 | for non-negative input the leftover is smaller than every requested unit |
| Utilities.DecomposeFieldBound | src/utilities.py:103-105 | a requested field after a larger requested field stays below that larger unit |
| Utilities.FieldAfter | src/utilities.py:103-105 | for non-negative input every requested field is non-negative and at most the whole input |
| Utilities.DefaultFormat | src/utilities.py:45 | the default format splits seconds into hours, minutes and seconds that recompose exactly, with minutes and seconds below 60 |
| Utilities.HoursAndSecondsExample | src/utilities.py:58 | `"{H}h {S}s"` of 72 hours 800 seconds gives 72 and 800: the largest requested field absorbs larger units |
| Outlook.DistinctBranches | src/external/outlook.py:305 | the branch list has no repeats |
| Outlook.DistinctBranchesMembers | src/external/outlook.py:305 | the branch list holds exactly the branches worked on |
| Outlook.DurationsKeys | src/external/outlook.py:315-319 | the totals are keyed by exactly the branches worked on |
| Outlook.DurationsAreTotals | src/external/outlook.py:315-319 | each branch's total is the sum of its sessions' durations |
| Outlook.DurationsConserve | src/external/outlook.py:315-319 | the branch totals add up to the itinerary's total duration |
| Outlook.Aggregate | src/external/outlook.py:302-313 | an empty itinerary fails at `itinerary[0]`; otherwise the single record spans from the first start to the last end |
| Outlook.AggregateContents | src/external/outlook.py:305-319 | one issue per distinct branch by the last-segment rule, totals keyed by the branches and summing each branch's sessions, and the totals conserve the whole duration |
| Outlook.BuildSingleItinerary | src/external/outlook.py:302-319 | the durations loop builds exactly the aggregated record |
| Outlook.SingleEventSubject | src/external/outlook.py:211-218 | the summary subject counts the distinct branches and splits end minus start into hours, minutes and seconds that recompose exactly |
| Outlook.PerSessionEvents | src/external/outlook.py:294-300 | one calendar event per session, in order, with start and end copied |
| Outlook.Calendar.Save | src/external/outlook.py:300 | saving appends the event to the calendar |
| Outlook.OutlookManager.GenerateItineraryMultipleEvents | src/external/outlook.py:291-300 | the calendar receives exactly the per-session events, appended in order |
| Outlook.OutlookManager.GenerateItinerarySingleEvent | src/external/outlook.py:302-327 | one summary event is saved, or nothing when the itinerary is empty |
| Outlook.OutlookManager.GenerateItinerary | src/external/outlook.py:329-352 | it fails unauthenticated, then for an unknown calendar, then for an unsupported type, each before any event is saved; otherwise it dispatches to the chosen mode, and only the chosen calendar changes |

## Left out

- The `git reflog` subprocess and the byte decoding (`src/parse.py:65-71`, `src/parse.py:94`): how the run ends is an input (`GitRun`), and decoding errors of the output are not modelled.
- MD5 (`src/parse.py:39`): the digest is an abstract function. The lemmas that depend on its being collision-free say so (`Injective`).
- Persistence through `simple_config` (`data.update`, `config.update` writing the JSON files): the data file and the configuration are in-memory maps.
- Sharing between `data.tracked` and the parser's dictionaries: `load` hands the parser the stored dictionaries themselves, and `parse` writes them back after every change. The model copies values, so the aliasing is not represented. It is not observable, because the entry is stored back after each merge.
- `copy.deepcopy` (`src/parse.py:126`): records are values, so each one is copied already.
- The clock, `strptime` and time zones: today and now are parameters, the timestamp parser is a function, and all timestamps share one UTC offset.
- Sessions.SortByTime: Python's `sorted` is stable, and the insertion sort is built the same way (a record goes after those with an equal time), but the contract states only ordering and permutation, not stability.
- Sessions.Sessions: the `if not ref_two` test is modelled as "there is no successor", because a record `dict` is never empty.
- The O365 account: authentication and consent (`src/external/outlook.py:176-204`), token storage, and the calendar listing (`src/external/outlook.py:112-131`). The account is reduced to an `authenticated` flag and a map of named calendars, and `account.schedule()` inside `_calendar` is not modelled.
- Event bodies (`generate_event_body`, `src/external/outlook.py:238-289`) and the Jira lookups (`src/external/outlook.py:225-230`): the per-session subject is the branch name, which is what the source produces when Jira is off or has no such issue.
- Outlook.SingleEventSubject: it keeps the branch count and the H/M/S numbers, not the rendered text with its zero padding.
- Utilities.Strfdelta: the format string is given as the list of field names it mentions; the rendered output string and fractional numeric inputs are left out (numbers are integers).
- Outlook.DistinctBranches: the source builds a `set`, whose iteration order Python does not fix. The model lists branches in order of first appearance. The branch count and the per-branch totals do not depend on that order. The issues list is built in the same order as the branches, so only its multiset and its pairing with the branches are order-free; its order in the source is the set's, which the model does not reproduce.
- Utilities.TotalSeconds: `int(td.total_seconds())` goes through a float. The model truncates the exact microsecond count toward zero, which agrees for durations under 2^32 seconds (about 136 years); beyond that the float quotient can round up to the next whole second, and that rounding is not modelled.
- Menus, validators, the scheduler and the application shell (`src/app/`, `src/validators.py`, `src/workday.py`) are not part of this model.
