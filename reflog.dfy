/** Reflog ingestion: which lines of `git reflog --date=iso --all` are kept, how a
    kept line is cut into a record, and how new lines are merged into the two
    per-repository dictionaries (digest to line, digest to record). */
module Reflog {
  import opened PyStr
  import opened Dicts

  /** One parsed checkout line; the timestamp is still the text between the braces. */
  datatype Record = Record(commit: string, timestamp: string, message: string, previous: string, current: string)

  /** The lines of the reflog output that are kept: non-empty and containing the
      `checkout:` marker, in output order. */
  function CheckoutLines(output: string): seq<string>
  {
    KeepCheckouts(Split(output, '\n'))
  }

  function KeepCheckouts(lines: seq<string>): (r: seq<string>)
    ensures |r| <= |lines|
    ensures forall l :: l in r <==> l in lines && l != [] && Contains(l, "checkout:")
  {
    if lines == [] then []
    else
      var rest := KeepCheckouts(lines[..|lines| - 1]);
      var l := lines[|lines| - 1];
      assert lines == lines[..|lines| - 1] + [l];
      if l != [] && Contains(l, "checkout:") then rest + [l] else rest
  }

  /** Filtering a concatenation filters each part in turn, so every kept line
      comes out as often as it occurs and in output order. */
  lemma {:induction false} KeepCheckoutsAppend(a: seq<string>, b: seq<string>)
    ensures KeepCheckouts(a + b) == KeepCheckouts(a) + KeepCheckouts(b)
    decreases |b|
  {
    if b == [] {
      assert a + b == a;
    } else {
      var init := b[..|b| - 1];
      KeepCheckoutsAppend(a, init);
      assert (a + b)[..|a + b| - 1] == a + init;
      assert (a + b)[|a + b| - 1] == b[|b| - 1];
    }
  }

  /** A single line is kept exactly when it is non-empty and holds the marker. */
  lemma KeepCheckoutsOne(l: string)
    ensures KeepCheckouts([l]) == if l != [] && Contains(l, "checkout:") then [l] else []
  {
    assert [l][..0] == [];
  }

  /** Kept lines keep their relative order: the result is a subsequence. */
  lemma {:induction false} KeepCheckoutsInOrder(lines: seq<string>, i: int, j: int)
    requires 0 <= i < j < |KeepCheckouts(lines)|
    ensures exists a, b :: 0 <= a < b < |lines| && lines[a] == KeepCheckouts(lines)[i] && lines[b] == KeepCheckouts(lines)[j]
    decreases |lines|
  {
    var init := lines[..|lines| - 1];
    var l := lines[|lines| - 1];
    var rest := KeepCheckouts(init);
    if j < |rest| {
      KeepCheckoutsInOrder(init, i, j);
      var a, b :| 0 <= a < b < |init| && init[a] == rest[i] && init[b] == rest[j];
      assert lines[a] == init[a] && lines[b] == init[b];
    } else {
      assert KeepCheckouts(lines)[i] == rest[i];
      assert rest[i] in init;
      var a :| 0 <= a < |init| && init[a] == rest[i];
      assert lines[a] == init[a];
      assert KeepCheckouts(lines)[j] == l;
    }
  }

  /** Cutting a reflog line into its fields, exactly as the slicing expressions do:
      the text before the first space, the text between the first `{` and the
      first `}`, everything from `checkout: `, the text from 5 past `from ` up to
      ` to`, and everything from 3 past `to `. A missing marker makes `find` give
      -1, which the slices then use as an ordinary bound. */
  function ExtractFields(line: string): Record
  {
    Record(CommitField(line), DateField(line), MessageField(line), PreviousField(line), CurrentField(line))
  }

  function CommitField(line: string): string
  {
    FirstPiece(line, ' ')
  }

  function DateField(line: string): string
  {
    Slice(line, Find(line, "{") + 1, Find(line, "}"))
  }

  function MessageField(line: string): string
  {
    SliceFrom(line, Find(line, "checkout: "))
  }

  function PreviousField(line: string): string
  {
    Slice(line, Find(line, "from ") + 5, Find(line, " to"))
  }

  function CurrentField(line: string): string
  {
    SliceFrom(line, Find(line, "to ") + 3)
  }

  /** A checkout line as `git reflog --date=iso` writes it: the abbreviated commit,
      a space, the ref decorations up to `HEAD@`, the braced date, and the
      checkout message. The literal is kept in the pieces the cut searches for. */
  function CheckoutLine(commit: string, refs: string, date: string, previous: string, current: string): string
  {
    commit + " " + refs + "{" + date + "}: " + "checkout: " + "moving " + "from " + previous + " " + "to " + current
  }

  /** The message part of a checkout line. */
  function CheckoutMessage(previous: string, current: string): string
  {
    "checkout: " + "moving " + "from " + previous + " " + "to " + current
  }

  /** Cutting a checkout line gives back the pieces it was written from, as long
      as no marker the cut searches for shows up before its place: no space in the
      commit, no brace before the date's, and `checkout: `, `from `, ` to` and
      `to ` each first found where the message puts it. */
  lemma ExtractFieldsRoundTrip(commit: string, refs: string, date: string, previous: string, current: string)
    requires ' ' !in commit
    requires '{' !in commit + " " + refs
    requires '}' !in commit + " " + refs + "{" + date
    requires EndsAtFirst(commit + " " + refs + "{" + date + "}: " + "checkout: ", "checkout: ")
    requires EndsAtFirst(commit + " " + refs + "{" + date + "}: " + "checkout: " + "moving " + "from ", "from ")
    requires EndsAtFirst(commit + " " + refs + "{" + date + "}: " + "checkout: " + "moving " + "from " + previous + " to", " to")
    requires EndsAtFirst(commit + " " + refs + "{" + date + "}: " + "checkout: " + "moving " + "from " + previous + " " + "to ", "to ")
    ensures ExtractFields(CheckoutLine(commit, refs, date, previous, current))
      == Record(commit, date, CheckoutMessage(previous, current), previous, current)
  {
    CommitFieldRoundTrip(commit, refs, date, previous, current);
    DateFieldRoundTrip(commit, refs, date, previous, current);
    MessageFieldRoundTrip(commit, refs, date, previous, current);
    PreviousFieldRoundTrip(commit, refs, date, previous, current);
    CurrentFieldRoundTrip(commit, refs, date, previous, current);
  }

  lemma CommitFieldRoundTrip(commit: string, refs: string, date: string, previous: string, current: string)
    requires ' ' !in commit
    ensures CommitField(CheckoutLine(commit, refs, date, previous, current)) == commit
  {
    var rest := refs + "{" + date + "}: " + CheckoutMessage(previous, current);
    assert CheckoutLine(commit, refs, date, previous, current) == commit + [' '] + rest;
    FirstPieceConcat(commit, ' ', rest);
  }

  lemma DateFieldRoundTrip(commit: string, refs: string, date: string, previous: string, current: string)
    requires '{' !in commit + " " + refs
    requires '}' !in commit + " " + refs + "{" + date
    ensures DateField(CheckoutLine(commit, refs, date, previous, current)) == date
  {
    var p1 := commit + " " + refs;
    OpenBraceInLine(commit, refs, date, previous, current);
    CloseBraceInLine(commit, refs, date, previous, current);
    assert CheckoutLine(commit, refs, date, previous, current) == (p1 + "{") + date + ("}: " + CheckoutMessage(previous, current));
    MiddleSlice(p1 + "{", date, "}: " + CheckoutMessage(previous, current));
  }

  lemma OpenBraceInLine(commit: string, refs: string, date: string, previous: string, current: string)
    requires '{' !in commit + " " + refs
    ensures Find(CheckoutLine(commit, refs, date, previous, current), "{") == |commit + " " + refs|
  {
    var p1 := commit + " " + refs;
    var rest := date + "}: " + CheckoutMessage(previous, current);
    assert CheckoutLine(commit, refs, date, previous, current) == p1 + ['{'] + rest;
    FindChar(p1, '{', rest);
  }

  lemma CloseBraceInLine(commit: string, refs: string, date: string, previous: string, current: string)
    requires '}' !in commit + " " + refs + "{" + date
    ensures Find(CheckoutLine(commit, refs, date, previous, current), "}") == |commit + " " + refs + "{" + date|
  {
    var p2 := commit + " " + refs + "{" + date;
    var rest := ": " + CheckoutMessage(previous, current);
    assert CheckoutLine(commit, refs, date, previous, current) == p2 + ['}'] + rest;
    FindChar(p2, '}', rest);
  }

  lemma MessageFieldRoundTrip(commit: string, refs: string, date: string, previous: string, current: string)
    requires EndsAtFirst(commit + " " + refs + "{" + date + "}: " + "checkout: ", "checkout: ")
    ensures MessageField(CheckoutLine(commit, refs, date, previous, current)) == CheckoutMessage(previous, current)
  {
    var p := commit + " " + refs + "{" + date + "}: ";
    var tail := "moving " + "from " + previous + " " + "to " + current;
    assert CheckoutLine(commit, refs, date, previous, current) == p + "checkout: " + tail;
    assert CheckoutMessage(previous, current) == "checkout: " + tail;
    SliceFromFirst(p, "checkout: ", tail);
  }

  lemma PreviousFieldRoundTrip(commit: string, refs: string, date: string, previous: string, current: string)
    requires EndsAtFirst(commit + " " + refs + "{" + date + "}: " + "checkout: " + "moving " + "from ", "from ")
    requires EndsAtFirst(commit + " " + refs + "{" + date + "}: " + "checkout: " + "moving " + "from " + previous + " to", " to")
    ensures PreviousField(CheckoutLine(commit, refs, date, previous, current)) == previous
  {
    var p := commit + " " + refs + "{" + date + "}: " + "checkout: " + "moving ";
    FromMarkerInLine(commit, refs, date, previous, current);
    ToMarkerInLine(commit, refs, date, previous, current);
    assert CheckoutLine(commit, refs, date, previous, current) == (p + "from ") + previous + (" " + "to " + current);
    MiddleSlice(p + "from ", previous, " " + "to " + current);
  }

  lemma FromMarkerInLine(commit: string, refs: string, date: string, previous: string, current: string)
    requires EndsAtFirst(commit + " " + refs + "{" + date + "}: " + "checkout: " + "moving " + "from ", "from ")
    ensures Find(CheckoutLine(commit, refs, date, previous, current), "from ")
      == |commit + " " + refs + "{" + date + "}: " + "checkout: " + "moving "|
  {
    var p := commit + " " + refs + "{" + date + "}: " + "checkout: " + "moving ";
    assert CheckoutLine(commit, refs, date, previous, current) == p + "from " + (previous + " " + "to " + current);
    FindAfter(p, "from ", previous + " " + "to " + current);
  }

  lemma ToMarkerInLine(commit: string, refs: string, date: string, previous: string, current: string)
    requires EndsAtFirst(commit + " " + refs + "{" + date + "}: " + "checkout: " + "moving " + "from " + previous + " to", " to")
    ensures Find(CheckoutLine(commit, refs, date, previous, current), " to")
      == |commit + " " + refs + "{" + date + "}: " + "checkout: " + "moving " + "from " + previous|
  {
    var q := commit + " " + refs + "{" + date + "}: " + "checkout: " + "moving " + "from " + previous;
    assert CheckoutLine(commit, refs, date, previous, current) == q + " to" + (" " + current);
    FindAfter(q, " to", " " + current);
  }

  lemma CurrentFieldRoundTrip(commit: string, refs: string, date: string, previous: string, current: string)
    requires EndsAtFirst(commit + " " + refs + "{" + date + "}: " + "checkout: " + "moving " + "from " + previous + " " + "to ", "to ")
    ensures CurrentField(CheckoutLine(commit, refs, date, previous, current)) == current
  {
    var p := commit + " " + refs + "{" + date + "}: " + "checkout: " + "moving " + "from " + previous + " ";
    assert CheckoutLine(commit, refs, date, previous, current) == p + "to " + current;
    SliceAfterFirst(p, "to ", current);
  }

  /** The cut looks for `to ` anywhere in the line, so a previous branch ending
      in `to` (say `proto`) shifts the current branch: it comes out as `to `
      followed by the real one. */
  lemma ExtractFieldsPreviousEndsInTo(commit: string, refs: string, date: string, stem: string, current: string)
    requires EndsAtFirst(commit + " " + refs + "{" + date + "}: " + "checkout: " + "moving " + "from " + stem + "to ", "to ")
    ensures ExtractFields(CheckoutLine(commit, refs, date, stem + "to", current)).current == "to " + current
  {
    var p := commit + " " + refs + "{" + date + "}: " + "checkout: " + "moving " + "from " + stem;
    assert CheckoutLine(commit, refs, date, stem + "to", current) == p + "to " + ("to " + current);
    SliceAfterFirst(p, "to ", "to " + current);
  }

  /** The cut takes the first ` to` in the line, so a previous branch starting
      with `to` (say `topic`) ends the slice before it starts: the previous
      branch comes out empty. */
  lemma ExtractFieldsPreviousStartsWithTo(commit: string, refs: string, date: string, rest: string, current: string)
    requires EndsAtFirst(commit + " " + refs + "{" + date + "}: " + "checkout: " + "moving " + "from ", "from ")
    requires EndsAtFirst(commit + " " + refs + "{" + date + "}: " + "checkout: " + "moving " + "from " + "to", " to")
    ensures ExtractFields(CheckoutLine(commit, refs, date, "to" + rest, current)).previous == ""
  {
    var p := commit + " " + refs + "{" + date + "}: " + "checkout: " + "moving " + "from " + "to";
    var line := CheckoutLine(commit, refs, date, "to" + rest, current);
    FromMarkerInLine(commit, refs, date, "to" + rest, current);
    assert line == p + (rest + " " + "to " + current);
    FindExtend(p, rest + " " + "to " + current, " to");
  }

  // ---------------------------------------------------------------------------
  // Digest dictionary (`hashes`)

  /** No two lines share a digest. */
  ghost predicate Injective(digest: string -> string)
  {
    forall a, b :: digest(a) == digest(b) ==> a == b
  }

  /** Every key is the digest of the line stored under it. */
  ghost predicate KeysAreDigests(h: Dict<string, string>, digest: string -> string)
  {
    forall k :: k in h.items ==> k == digest(h.items[k])
  }

  /** One step of `_make_hashes`: a line whose exact text is already a value is
      skipped, any other is stored under its digest. */
  function AddLine(h: Dict<string, string>, line: string, digest: string -> string): (r: Dict<string, string>)
    requires Valid(h)
    ensures Valid(r)
    ensures line in r.items.Values
    ensures line in h.items.Values ==> r == h
  {
    if line in h.items.Values then h
    else
      var r := Put(h, digest(line), line);
      assert r.items[digest(line)] == line;
      r
  }

  /** `_make_hashes(reflog)`: the lines folded in, first to last. */
  function MergeHashes(h: Dict<string, string>, lines: seq<string>, digest: string -> string): (r: Dict<string, string>)
    requires Valid(h)
    ensures Valid(r)
    decreases |lines|
  {
    if lines == [] then h
    else AddLine(MergeHashes(h, lines[..|lines| - 1], digest), lines[|lines| - 1], digest)
  }

  /** Merging keeps keys the digests of their lines. */
  lemma {:induction false} MergeHashesKeysAreDigests(h: Dict<string, string>, lines: seq<string>, digest: string -> string)
    requires Valid(h) && KeysAreDigests(h, digest)
    ensures KeysAreDigests(MergeHashes(h, lines, digest), digest)
    decreases |lines|
  {
    if lines != [] {
      MergeHashesKeysAreDigests(h, lines[..|lines| - 1], digest);
    }
  }

  /** Without digest collisions, merging never overwrites an entry that was there
      before: old keys keep their lines, and the old key order is a prefix of the
      new one. */
  lemma {:induction false} MergeHashesKeepsEntries(h: Dict<string, string>, lines: seq<string>, digest: string -> string)
    requires Valid(h) && KeysAreDigests(h, digest) && Injective(digest)
    ensures var r := MergeHashes(h, lines, digest);
      (forall k :: k in h.items ==> k in r.items && r.items[k] == h.items[k]) && h.keys <= r.keys
    decreases |lines|
  {
    if lines != [] {
      var init := lines[..|lines| - 1];
      var m := MergeHashes(h, init, digest);
      MergeHashesKeepsEntries(h, init, digest);
      MergeHashesKeysAreDigests(h, init, digest);
      var l := lines[|lines| - 1];
      if l !in m.items.Values {
        forall k | k in h.items ensures k != digest(l) {
          assert m.items[k] == h.items[k] && k == digest(h.items[k]);
          assert h.items[k] in m.items.Values;
        }
      }
    }
  }

  /** Afterwards every merged line is a value of the dictionary. */
  lemma {:induction false} MergeHashesCovers(h: Dict<string, string>, lines: seq<string>, digest: string -> string)
    requires Valid(h) && KeysAreDigests(h, digest) && Injective(digest)
    ensures forall l :: l in lines ==> l in MergeHashes(h, lines, digest).items.Values
    decreases |lines|
  {
    if lines != [] {
      var init := lines[..|lines| - 1];
      var m := MergeHashes(h, init, digest);
      MergeHashesCovers(h, init, digest);
      MergeHashesKeysAreDigests(h, init, digest);
      MergeHashesKeepsEntries(m, [lines[|lines| - 1]], digest);
      assert MergeHashes(m, [lines[|lines| - 1]], digest) == MergeHashes(h, lines, digest) by {
        assert [lines[|lines| - 1]][..0] == [];
      }
      forall l | l in lines ensures l in MergeHashes(h, lines, digest).items.Values {
        if l in init {
          var k :| k in m.items && m.items[k] == l;
          assert MergeHashes(h, lines, digest).items[k] == l;
        }
      }
    }
  }

  /** Merging lines that are all values already changes nothing. */
  lemma {:induction false} MergeHashesKnown(h: Dict<string, string>, lines: seq<string>, digest: string -> string)
    requires Valid(h)
    requires forall l :: l in lines ==> l in h.items.Values
    ensures MergeHashes(h, lines, digest) == h
    decreases |lines|
  {
    if lines != [] {
      MergeHashesKnown(h, lines[..|lines| - 1], digest);
    }
  }

  /** Ingestion is idempotent: merging the same reflog twice is merging it once. */
  lemma MergeHashesIdempotent(h: Dict<string, string>, lines: seq<string>, digest: string -> string)
    requires Valid(h) && KeysAreDigests(h, digest) && Injective(digest)
    ensures MergeHashes(MergeHashes(h, lines, digest), lines, digest) == MergeHashes(h, lines, digest)
  {
    MergeHashesCovers(h, lines, digest);
    MergeHashesKnown(MergeHashes(h, lines, digest), lines, digest);
  }

  /** Every key added by merging is the digest of a merged line. */
  lemma {:induction false} MergeHashesNewKeys(h: Dict<string, string>, lines: seq<string>, digest: string -> string)
    requires Valid(h)
    ensures forall k :: k in MergeHashes(h, lines, digest).items && k !in h.items ==>
      exists i :: 0 <= i < |lines| && k == digest(lines[i])
    decreases |lines|
  {
    if lines != [] {
      var init := lines[..|lines| - 1];
      MergeHashesNewKeys(h, init, digest);
      forall k | k in MergeHashes(h, lines, digest).items && k !in h.items
        ensures exists i :: 0 <= i < |lines| && k == digest(lines[i])
      {
        if k in MergeHashes(h, init, digest).items {
          var i :| 0 <= i < |init| && k == digest(init[i]);
          assert lines[i] == init[i];
        } else {
          assert k == digest(lines[|lines| - 1]);
        }
      }
    }
  }

  /** The keys after merging are the old keys and the digests of the merged lines;
      so a line that was already present adds no key. */
  lemma MergeHashesKeys(h: Dict<string, string>, lines: seq<string>, digest: string -> string)
    requires Valid(h) && KeysAreDigests(h, digest) && Injective(digest)
    ensures forall k :: k in MergeHashes(h, lines, digest).items <==>
      k in h.items || exists i :: 0 <= i < |lines| && k == digest(lines[i])
  {
    var r := MergeHashes(h, lines, digest);
    MergeHashesNewKeys(h, lines, digest);
    MergeHashesCovers(h, lines, digest);
    MergeHashesKeysAreDigests(h, lines, digest);
    MergeHashesKeepsEntries(h, lines, digest);
    forall i | 0 <= i < |lines| ensures digest(lines[i]) in r.items {
      assert lines[i] in r.items.Values;
      var k :| k in r.items && r.items[k] == lines[i];
    }
  }

  // ---------------------------------------------------------------------------
  // Record dictionary (`parsed`)

  /** `_make_parsed` over the keys `ks` of `h`, in that order: a key that has no
      record yet gets the record cut from its line; existing records stay. */
  function ParseKeys(p: Dict<string, Record>, h: Dict<string, string>, ks: seq<string>): (r: Dict<string, Record>)
    requires Valid(p)
    requires forall k :: k in ks ==> k in h.items
    ensures Valid(r)
    decreases |ks|
  {
    if ks == [] then p
    else
      var q := ParseKeys(p, h, ks[..|ks| - 1]);
      var k := ks[|ks| - 1];
      if k in q.items then q else Put(q, k, ExtractFields(h.items[k]))
  }

  /** One more key: parsed only when it is not already present. */
  lemma ParseKeysNext(p: Dict<string, Record>, h: Dict<string, string>, ks: seq<string>, i: nat)
    requires Valid(p)
    requires i < |ks| && forall j :: j in ks ==> j in h.items
    ensures forall j :: j in ks[..i] ==> j in h.items
    ensures forall j :: j in ks[..i + 1] ==> j in h.items
    ensures var q := ParseKeys(p, h, ks[..i]);
      ParseKeys(p, h, ks[..i + 1]) == if ks[i] in q.items then q else Put(q, ks[i], ExtractFields(h.items[ks[i]]))
  {
    assert ks[..i + 1][..i] == ks[..i];
    assert forall j :: j in ks[..i + 1] ==> j in ks;
  }

  /** `_make_parsed()`: every key of `hashes`, in insertion order. */
  function MergeParsed(p: Dict<string, Record>, h: Dict<string, string>): (r: Dict<string, Record>)
    requires Valid(p) && Valid(h)
    ensures Valid(r)
  {
    ParseKeys(p, h, h.keys)
  }

  lemma {:induction false} ParseKeysContents(p: Dict<string, Record>, h: Dict<string, string>, ks: seq<string>)
    requires Valid(p)
    requires forall k :: k in ks ==> k in h.items
    ensures var r := ParseKeys(p, h, ks);
      && (forall k :: k in r.items <==> k in p.items || k in ks)
      && (forall k :: k in p.items ==> r.items[k] == p.items[k])
      && (forall k :: k in r.items && k !in p.items ==> r.items[k] == ExtractFields(h.items[k]))
      && p.keys <= r.keys
    decreases |ks|
  {
    if ks != [] {
      var init := ks[..|ks| - 1];
      var k := ks[|ks| - 1];
      assert ks == init + [k];
      ParseKeysContents(p, h, init);
      var q := ParseKeys(p, h, init);
      assert ParseKeys(p, h, ks) == if k in q.items then q else Put(q, k, ExtractFields(h.items[k]));
    }
  }

  /** After `_make_parsed` every digest has a record; records already present are
      never recomputed; each new record is the one cut from its line. */
  lemma MergeParsedContents(p: Dict<string, Record>, h: Dict<string, string>)
    requires Valid(p) && Valid(h)
    ensures var r := MergeParsed(p, h);
      && (forall k :: k in r.items <==> k in p.items || k in h.items)
      && (forall k :: k in p.items ==> r.items[k] == p.items[k])
      && (forall k :: k in r.items && k !in p.items ==> r.items[k] == ExtractFields(h.items[k]))
      && p.keys <= r.keys
  {
    assert forall k :: k in h.keys <==> k in h.items by {
      KeysListed(h);
    }
    ParseKeysContents(p, h, h.keys);
  }

  /** Parsing a second time adds nothing. */
  lemma MergeParsedIdempotent(p: Dict<string, Record>, h: Dict<string, string>)
    requires Valid(p) && Valid(h)
    ensures MergeParsed(MergeParsed(p, h), h) == MergeParsed(p, h)
  {
    var q := MergeParsed(p, h);
    MergeParsedContents(p, h);
    ParseKeysAllPresent(q, h, h.keys);
  }

  lemma {:induction false} ParseKeysAllPresent(q: Dict<string, Record>, h: Dict<string, string>, ks: seq<string>)
    requires Valid(q)
    requires forall k :: k in ks ==> k in h.items && k in q.items
    ensures ParseKeys(q, h, ks) == q
    decreases |ks|
  {
    if ks != [] {
      ParseKeysAllPresent(q, h, ks[..|ks| - 1]);
    }
  }
}
