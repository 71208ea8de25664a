/** `RepositoryParser` and the part of the data file it uses: for each tracked
    repository, the digest dictionary and the record dictionary. The `git reflog`
    call is a parameter: how that run ended (`GitRun`). */
module Parse {
  import opened Wrappers
  import opened Times
  import opened Dicts
  import opened Reflog
  import opened Sessions

  /** How the `git reflog` run ends: with its decoded output; with a
      `CalledProcessError` (git ran and exited non-zero), which `parse` catches;
      or with an `OSError` (git or the repository directory cannot be reached),
      which nothing catches. */
  datatype GitRun = Output(text: string) | ExitedNonZero | NotStarted

  /** What the data file stores for one repository. */
  datatype Tracked = Tracked(hashes: Dict<string, string>, parsed: Dict<string, Record>)

  ghost predicate ValidTracked(t: Tracked)
  {
    Valid(t.hashes) && Valid(t.parsed)
  }

  /** A stored entry this program could have written: keys are the digests of
      their lines, every record belongs to a stored line and is the record cut from
      that line. */
  ghost predicate Coherent(t: Tracked, digest: string -> string)
  {
    && ValidTracked(t)
    && KeysAreDigests(t.hashes, digest)
    && (forall k :: k in t.parsed.items ==> k in t.hashes.items && t.parsed.items[k] == ExtractFields(t.hashes.items[k]))
  }

  /** One refresh: new lines into the digest dictionary, then records for every
      digest that has none. */
  function Refresh(t: Tracked, lines: seq<string>, digest: string -> string): (r: Tracked)
    requires ValidTracked(t)
    ensures ValidTracked(r)
  {
    var hashes := MergeHashes(t.hashes, lines, digest);
    Tracked(hashes, MergeParsed(t.parsed, hashes))
  }

  /** A refresh keeps a coherent entry coherent, gives every digest a record, keeps
      every stored line and record, and stores every new line. */
  lemma RefreshCoherent(t: Tracked, lines: seq<string>, digest: string -> string)
    requires Coherent(t, digest) && Injective(digest)
    ensures var r := Refresh(t, lines, digest);
      && Coherent(r, digest)
      && r.parsed.items.Keys == r.hashes.items.Keys
      && (forall k :: k in t.hashes.items ==> k in r.hashes.items && r.hashes.items[k] == t.hashes.items[k])
      && (forall k :: k in t.parsed.items ==> k in r.parsed.items && r.parsed.items[k] == t.parsed.items[k])
      && (forall l :: l in lines ==> l in r.hashes.items.Values)
  {
    var h := MergeHashes(t.hashes, lines, digest);
    MergeHashesKeysAreDigests(t.hashes, lines, digest);
    MergeHashesKeepsEntries(t.hashes, lines, digest);
    MergeHashesCovers(t.hashes, lines, digest);
    MergeParsedContents(t.parsed, h);
    var r := Refresh(t, lines, digest);
    forall k | k in r.parsed.items
      ensures k in r.hashes.items && r.parsed.items[k] == ExtractFields(r.hashes.items[k])
    {
      if k in t.parsed.items {
        assert t.hashes.items[k] == h.items[k];
      }
    }
  }

  /** Refreshing again with the same output changes nothing. */
  lemma RefreshIdempotent(t: Tracked, lines: seq<string>, digest: string -> string)
    requires Coherent(t, digest) && Injective(digest)
    ensures Refresh(Refresh(t, lines, digest), lines, digest) == Refresh(t, lines, digest)
  {
    var r := Refresh(t, lines, digest);
    RefreshCoherent(t, lines, digest);
    MergeHashesIdempotent(t.hashes, lines, digest);
    MergeParsedIdempotent(t.parsed, r.hashes);
  }

  /** The in-memory contents of the data file (`data.tracked`). */
  class DataStore {
    var tracked: map<string, Tracked>

    ghost predicate Inv()
      reads this
    {
      forall r :: r in tracked ==> ValidTracked(tracked[r])
    }

    constructor(tracked: map<string, Tracked>)
      requires forall r :: r in tracked ==> ValidTracked(tracked[r])
      ensures this.tracked == tracked && Inv()
    {
      this.tracked := tracked;
    }

    /** `data.update(tracked=...)` for one repository. */
    method Store(repository: string, t: Tracked)
      requires Inv() && ValidTracked(t)
      modifies this
      ensures tracked == old(tracked)[repository := t] && Inv()
    {
      tracked := tracked[repository := t];
    }
  }

  class RepositoryParser {
    const repository: string
    const digest: string -> string
    const data: DataStore
    var hashes: Dict<string, string>
    var parsed: Dict<string, Record>

    ghost predicate Inv()
      reads this
    {
      Valid(hashes) && Valid(parsed)
    }

    function State(): Tracked
      reads this
    {
      Tracked(hashes, parsed)
    }

    /** `RepositoryParser(repository)`: empty dictionaries, then `load()`. */
    constructor(repository: string, digest: string -> string, data: DataStore)
      requires data.Inv()
      ensures this.repository == repository && this.digest == digest && this.data == data
      ensures Inv()
      ensures repository in data.tracked ==> State() == data.tracked[repository]
      ensures repository !in data.tracked ==> State() == Tracked(Empty(), Empty())
    {
      this.repository := repository;
      this.digest := digest;
      this.data := data;
      hashes := Empty();
      parsed := Empty();
      new;
      Load();
    }

    /** `load()`: take the stored dictionaries when the repository is tracked. */
    method Load()
      requires Inv() && data.Inv()
      modifies this
      ensures Inv()
      ensures repository in data.tracked ==> State() == data.tracked[repository]
      ensures repository !in data.tracked ==> State() == old(State())
    {
      if repository in data.tracked {
        hashes := data.tracked[repository].hashes;
        parsed := data.tracked[repository].parsed;
      }
    }

    /** `_make_hashes(reflog)`. */
    method MakeHashes(reflog: seq<string>)
      requires Inv()
      modifies this
      ensures Inv()
      ensures hashes == MergeHashes(old(hashes), reflog, digest) && parsed == old(parsed)
    {
      for i := 0 to |reflog|
        invariant Inv() && parsed == old(parsed)
        invariant hashes == MergeHashes(old(hashes), reflog[..i], digest)
      {
        assert reflog[..i + 1][..i] == reflog[..i];
        var line := reflog[i];
        if line !in hashes.items.Values {
          hashes := Put(hashes, digest(line), line);
        }
      }
      assert reflog[..|reflog|] == reflog;
    }

    /** `_make_parsed()`. */
    method MakeParsed()
      requires Inv()
      modifies this
      ensures Inv()
      ensures parsed == MergeParsed(old(parsed), hashes) && hashes == old(hashes)
    {
      ghost var start := parsed;
      ghost var h := hashes;
      var keys := hashes.keys;
      assert forall k :: k in keys ==> k in h.items by { KeysListed(h); }
      for i := 0 to |keys|
        invariant hashes == h && Valid(parsed)
        invariant parsed == ParseKeys(start, h, keys[..i])
      {
        var key := keys[i];
        ParseKeysNext(start, h, keys, i);
        if key !in parsed.items {
          parsed := Put(parsed, key, ExtractFields(hashes.items[key]));
        }
      }
      assert keys[..|keys|] == keys;
    }

    /** `parse()`. A run that exits non-zero changes nothing; a run that cannot be
        started changes nothing either, and its error is `raised` to the caller. */
    method Parse(run: GitRun) returns (raised: Option<GenerateError>)
      requires Inv() && data.Inv()
      modifies this, data
      ensures Inv() && data.Inv()
      ensures raised == if run.NotStarted? then Some(GitNotStarted) else None
      ensures !run.Output? ==> State() == old(State()) && data.tracked == old(data.tracked)
      ensures run.Output? ==> State() == Refresh(old(State()), CheckoutLines(run.text), digest)
      ensures run.Output? ==> data.tracked == old(data.tracked)[repository := State()]
    {
      match run
      case NotStarted =>
        raised := Some(GitNotStarted);
      case ExitedNonZero =>
        raised := None;
      case Output(text) =>
        var reflog := CheckoutLines(text);
        MakeHashes(reflog);
        MakeParsed();
        data.Store(repository, Tracked(hashes, parsed));
        raised := None;
    }

    /** `generate()`: refresh, then build the itinerary from the records; an
        error raised by the refresh ends it. */
    method Generate(run: GitRun, today: CalendarDate, now: Timestamp, settings: Settings,
                    toTime: string -> Option<Timestamp>) returns (r: Result<seq<Event>, GenerateError>)
      requires Inv() && data.Inv()
      modifies this, data
      ensures Inv() && data.Inv()
      ensures !run.Output? ==> State() == old(State()) && data.tracked == old(data.tracked)
      ensures run.Output? ==> State() == Refresh(old(State()), CheckoutLines(run.text), digest)
      ensures run.Output? ==> data.tracked == old(data.tracked)[repository := State()]
      ensures run.NotStarted? ==> r == Failure(GitNotStarted)
      ensures !run.NotStarted? ==> r == Itinerary(Values(parsed), today, now, settings, toTime)
    {
      var raised := Parse(run);
      if raised.Some? {
        return Failure(raised.value);
      }
      r := BuildItinerary(Values(parsed), today, now, settings, toTime);
    }
  }

  /** Two refreshes with the same reflog leave the parser where one leaves it. */
  method ParseTwice(p: RepositoryParser, run: GitRun)
    requires p.Inv() && p.data.Inv()
    requires Coherent(p.State(), p.digest) && Injective(p.digest)
    modifies p, p.data
    ensures p.Inv()
    ensures run.Output? ==> p.State() == Refresh(old(p.State()), CheckoutLines(run.text), p.digest)
    ensures !run.Output? ==> p.State() == old(p.State())
  {
    ghost var start := p.State();
    var _ := p.Parse(run);
    var _ := p.Parse(run);
    if run.Output? {
      RefreshIdempotent(start, CheckoutLines(run.text), p.digest);
    }
  }
}
