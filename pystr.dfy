/** Python `str` operations that the reflog parser relies on, with Python's own
    semantics: `find` returns -1 when the needle is missing, slice bounds are
    normalised (negative counts from the end, everything is clamped to the string),
    and `split` keeps empty pieces. */
module PyStr {

  /** `sub` occurs in `s` starting at index `j`. */
  ghost predicate OccursAt(s: string, sub: string, j: int)
  {
    0 <= j && j + |sub| <= |s| && s[j..j + |sub|] == sub
  }

  /** `s.find(sub)`: the lowest index at which `sub` occurs, or -1 (`FindSpec`). */
  function Find(s: string, sub: string): (r: int)
    ensures -1 <= r <= |s|
  {
    FindFrom(s, sub, 0)
  }

  /** The scan behind `Find`: the lowest occurrence at index `i` or later. */
  function FindFrom(s: string, sub: string, i: nat): (r: int)
    ensures -1 <= r <= |s|
    ensures r >= 0 ==> i <= r
    decreases |s| - i
  {
    if i + |sub| > |s| then -1
    else if s[i..i + |sub|] == sub then i
    else FindFrom(s, sub, i + 1)
  }

  /** From a start with no occurrence before it, the scan gives -1 exactly when the
      needle occurs nowhere, and otherwise the first occurrence. */
  lemma {:induction false} FindFromSpec(s: string, sub: string, i: nat)
    requires forall j :: 0 <= j < i ==> !OccursAt(s, sub, j)
    ensures var r := FindFrom(s, sub, i);
      && (r == -1 <==> forall j :: !OccursAt(s, sub, j))
      && (r >= 0 ==> OccursAt(s, sub, r) && forall j :: 0 <= j < r ==> !OccursAt(s, sub, j))
    decreases |s| - i
  {
    if i + |sub| > |s| {
    } else if s[i..i + |sub|] == sub {
      assert OccursAt(s, sub, i);
    } else {
      assert !OccursAt(s, sub, i);
      FindFromSpec(s, sub, i + 1);
    }
  }

  /** `s.find(sub)` is -1 exactly when `sub` occurs nowhere; otherwise `sub` occurs
      there and at no earlier index. */
  lemma FindSpec(s: string, sub: string)
    ensures Find(s, sub) == -1 <==> forall j :: !OccursAt(s, sub, j)
    ensures Find(s, sub) >= 0 ==> OccursAt(s, sub, Find(s, sub)) && forall j :: 0 <= j < Find(s, sub) ==> !OccursAt(s, sub, j)
  {
    FindFromSpec(s, sub, 0);
  }

  /** Python's `sub in s`. */
  predicate Contains(s: string, sub: string)
  {
    Find(s, sub) >= 0
  }

  lemma ContainsIffOccurs(s: string, sub: string)
    ensures Contains(s, sub) <==> exists j :: OccursAt(s, sub, j)
  {
    FindSpec(s, sub);
  }

  /** The first occurrence of a needle is found once it is known that it occurs at
      `p` and nowhere before. */
  lemma FindIs(s: string, sub: string, p: int)
    requires OccursAt(s, sub, p)
    requires forall j :: 0 <= j < p ==> !OccursAt(s, sub, j)
    ensures Find(s, sub) == p
  {
    FindSpec(s, sub);
  }

  /** A slice bound after Python's normalisation: negative bounds count from the
      end, and every bound is clamped into [0, n]. */
  function Bound(i: int, n: nat): (b: nat)
    ensures b <= n
    ensures 0 <= i <= n ==> b == i
    ensures i < 0 && 0 <= i + n ==> b == i + n
    ensures i > n ==> b == n
    ensures i + n < 0 ==> b == 0
  {
    if i < 0 then (if i + n < 0 then 0 else i + n)
    else if i > n then n
    else i
  }

  /** `s[i:j]`: empty when the normalised start is not before the normalised stop. */
  function Slice(s: string, i: int, j: int): (r: string)
    ensures Bound(i, |s|) < Bound(j, |s|) ==> r == s[Bound(i, |s|)..Bound(j, |s|)]
    ensures Bound(j, |s|) <= Bound(i, |s|) ==> r == []
  {
    var a, b := Bound(i, |s|), Bound(j, |s|);
    if a < b then s[a..b] else []
  }

  /** `s[i:]`. */
  function SliceFrom(s: string, i: int): string
  {
    s[Bound(i, |s|)..]
  }

  /** `s[:i] + s[i:] == s`, and the suffix is as long as what the bound leaves. */
  lemma SliceFromSplits(s: string, i: int)
    ensures |SliceFrom(s, i)| == |s| - Bound(i, |s|)
    ensures Slice(s, 0, i) + SliceFrom(s, i) == s
  {
    var b := Bound(i, |s|);
    assert Bound(0, |s|) == 0;
    if b == 0 {
      assert Slice(s, 0, i) == [];
    } else {
      assert Slice(s, 0, i) == s[..b];
    }
    assert s[..b] + s[b..] == s;
  }

  /** `s.split(c)[0]`: everything before the first `c`, or all of `s`. */
  function FirstPiece(s: string, c: char): (r: string)
    ensures c !in r
    ensures r <= s
    ensures r == s || s[|r|] == c
  {
    if s == [] || s[0] == c then []
    else [s[0]] + FirstPiece(s[1..], c)
  }

  /** `s.split(c)[-1]`: everything after the last `c`, or all of `s`. */
  function LastPiece(s: string, c: char): (r: string)
    ensures c !in r
    ensures |r| <= |s| && s[|s| - |r|..] == r
    ensures r == s || s[|s| - |r| - 1] == c
  {
    if s == [] then []
    else if s[|s| - 1] == c then []
    else
      var r := LastPiece(s[..|s| - 1], c) + [s[|s| - 1]];
      assert s[..|s| - 1][|s| - 1 - (|r| - 1)..] + [s[|s| - 1]] == s[|s| - |r|..];
      r
  }

  /** `c.join(parts)` for a one-character separator. */
  function Join(parts: seq<string>, c: char): string
  {
    if |parts| == 0 then []
    else if |parts| == 1 then parts[0]
    else parts[0] + [c] + Join(parts[1..], c)
  }

  /** `s.split(c)`: the pieces between separators, empty pieces included; joining
      them again gives back `s`. */
  function Split(s: string, c: char): (r: seq<string>)
    ensures |r| >= 1
    ensures forall k :: 0 <= k < |r| ==> c !in r[k]
    ensures Join(r, c) == s
    decreases |s|
  {
    if s == [] then [[]]
    else if s[0] == c then [[]] + Split(s[1..], c)
    else
      var t := Split(s[1..], c);
      [[s[0]] + t[0]] + t[1..]
  }

  /** Splitting undoes joining: pieces free of the separator come back unchanged. */
  lemma {:induction false} SplitJoin(parts: seq<string>, c: char)
    requires |parts| >= 1
    requires forall k :: 0 <= k < |parts| ==> c !in parts[k]
    ensures Split(Join(parts, c), c) == parts
    decreases |parts|, |parts[0]|
  {
    if |parts| == 1 {
      SplitNoSeparator(parts[0], c);
    } else if parts[0] == [] {
      assert Join(parts, c) == [c] + Join(parts[1..], c);
      SplitJoin(parts[1..], c);
      SplitSeparatorFirst(Join(parts[1..], c), c);
    } else {
      var p0 := parts[0];
      var rest := [p0[1..]] + parts[1..];
      assert Join(parts, c) == [p0[0]] + Join(rest, c) by {
        assert rest[1..] == parts[1..];
        assert Join(rest, c) == p0[1..] + [c] + Join(parts[1..], c);
        assert p0 == [p0[0]] + p0[1..];
      }
      assert forall k :: 0 <= k < |rest| ==> c !in rest[k] by {
        forall k | 0 <= k < |rest| ensures c !in rest[k] {
          if k == 0 { assert forall x :: x in p0[1..] ==> x in p0; } else { assert rest[k] == parts[k]; }
        }
      }
      SplitJoin(rest, c);
      SplitOtherFirst(p0[0], Join(rest, c), c);
      assert [p0[0]] + rest[0] == p0;
      assert [[p0[0]] + rest[0]] + rest[1..] == parts;
    }
  }

  /** A leading separator splits off an empty first piece. */
  lemma SplitSeparatorFirst(s: string, c: char)
    ensures Split([c] + s, c) == [[]] + Split(s, c)
  {
    assert ([c] + s)[1..] == s;
  }

  /** A leading character other than the separator starts the first piece. */
  lemma SplitOtherFirst(x: char, s: string, c: char)
    requires x != c
    ensures Split([x] + s, c) == [[x] + Split(s, c)[0]] + Split(s, c)[1..]
  {
    assert ([x] + s)[1..] == s;
  }

  lemma {:induction false} SplitNoSeparator(s: string, c: char)
    requires c !in s
    ensures Split(s, c) == [s]
    decreases |s|
  {
    if s != [] {
      assert c !in s[1..] by { assert forall x :: x in s[1..] ==> x in s; }
      SplitNoSeparator(s[1..], c);
      assert [s[0]] + s[1..] == s;
    }
  }

  /** A needle found in `a` is found at the same place in any extension of `a`. */
  lemma FindExtend(a: string, b: string, sub: string)
    requires Find(a, sub) >= 0
    ensures Find(a + b, sub) == Find(a, sub)
  {
    var p := Find(a, sub);
    FindSpec(a, sub);
    assert (a + b)[p..p + |sub|] == a[p..p + |sub|];
    forall j | 0 <= j < p ensures !OccursAt(a + b, sub, j) {
      if OccursAt(a + b, sub, j) {
        assert (a + b)[j..j + |sub|] == a[j..j + |sub|];
        assert OccursAt(a, sub, j);
      }
    }
    FindIs(a + b, sub, p);
  }

  /** A one-character needle absent from `a` is first found right after `a`. */
  lemma FindChar(a: string, c: char, b: string)
    ensures c !in a ==> Find(a + [c] + b, [c]) == |a|
  {
    if c !in a {
      var s := a + [c] + b;
      assert s[|a|..|a| + 1] == [c];
      forall j | 0 <= j < |a| ensures !OccursAt(s, [c], j) {
        assert s[j..j + 1] == [a[j]];
      }
      FindIs(s, [c], |a|);
    }
  }

  /** `split(c)[0]` of a string whose first `c` follows `a` is `a`. */
  lemma {:induction false} FirstPieceConcat(a: string, c: char, b: string)
    requires c !in a
    ensures FirstPiece(a + [c] + b, c) == a
    decreases |a|
  {
    if a != [] {
      assert (a + [c] + b)[1..] == a[1..] + [c] + b;
      assert c !in a[1..] by { assert forall x :: x in a[1..] ==> x in a; }
      FirstPieceConcat(a[1..], c, b);
    }
  }

  /** The first occurrence of `sub` in `s` is the one `s` ends with. */
  predicate EndsAtFirst(s: string, sub: string)
  {
    |sub| <= |s| && Find(s, sub) == |s| - |sub|
  }

  /** `s[s.find(sub):]` when `sub` first occurs right after `pre`. */
  lemma SliceFromFirst(pre: string, sub: string, post: string)
    requires EndsAtFirst(pre + sub, sub)
    ensures SliceFrom(pre + sub + post, Find(pre + sub + post, sub)) == sub + post
  {
    FindExtend(pre + sub, post, sub);
    assert (pre + sub + post)[|pre|..] == sub + post;
  }

  /** `s[s.find(sub) + len(sub):]` when `sub` first occurs right after `pre`. */
  lemma SliceAfterFirst(pre: string, sub: string, post: string)
    requires EndsAtFirst(pre + sub, sub)
    ensures SliceFrom(pre + sub + post, Find(pre + sub + post, sub) + |sub|) == post
  {
    FindExtend(pre + sub, post, sub);
    assert (pre + sub + post)[|pre| + |sub|..] == post;
  }

  /** A needle first found at the end of `pre + sub` is found at `|pre|` in any
      extension. */
  lemma FindAfter(pre: string, sub: string, post: string)
    requires EndsAtFirst(pre + sub, sub)
    ensures Find(pre + sub + post, sub) == |pre|
  {
    FindExtend(pre + sub, post, sub);
  }

  /** `s[len(x):len(x) + len(m)]` of `x + m + y` is `m`. */
  lemma MiddleSlice(x: string, m: string, y: string)
    ensures Slice(x + m + y, |x|, |x| + |m|) == m
  {
    assert (x + m + y)[|x|..|x| + |m|] == m;
  }
}
