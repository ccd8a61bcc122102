/**
 Wildcard matching of sensitive paths (src/domains/codebase-knowledge/contracts.ts): the greedy
 search for the parts of a pattern, and when it agrees with what the pattern means.
 */
module Glob {
  import opened Text
  import opened Wrappers

  const STAR: CodeUnit := 0x2A
  const BACKSLASH: CodeUnit := 0x5C

  // ---- what a pattern means

  /** A star stands for any text; every other code unit for itself. */
  ghost predicate WildMatch(v: Str, pattern: Str)
    decreases |pattern|
  {
    if |pattern| == 0 then |v| == 0
    else if pattern[0] == STAR then exists k :: 0 <= k <= |v| && WildMatch(v[k..], pattern[1..])
    else |v| > 0 && v[0] == pattern[0] && WildMatch(v[1..], pattern[1..])
  }

  /** `s.split(separator)` */
  function Split(s: Str, separator: CodeUnit): (r: seq<Str>)
    ensures |r| > 0
  {
    if |s| == 0 then [[]]
    else
      var rest := Split(s[1..], separator);
      if s[0] == separator then [[]] + rest else [[s[0]] + rest[0]] + rest[1..]
  }

  predicate OccursAt(v: Str, part: Str, k: int) {
    0 <= k && k + |part| <= |v| && v[k..k + |part|] == part
  }

  /** The text consists of the parts in order, with any text before each of them. */
  ghost predicate After(v: Str, parts: seq<Str>)
    decreases |parts|
  {
    if |parts| == 0 then |v| == 0
    else exists k :: OccursAt(v, parts[0], k) && After(v[k + |parts[0]|..], parts[1..])
  }

  ghost predicate PartsMatch(v: Str, parts: seq<Str>)
    requires |parts| > 0
  {
    OccursAt(v, parts[0], 0) && After(v[|parts[0]|..], parts[1..])
  }

  lemma PartsMatchAt(v: Str, parts: seq<Str>, k: nat)
    requires |parts| > 0 && k <= |v|
    ensures PartsMatch(v[k..], parts) <==> OccursAt(v, parts[0], k) && After(v[k + |parts[0]|..], parts[1..])
  {
    DropOccurs(v, parts[0], k, 0);
    if OccursAt(v, parts[0], k) {
      DropDrop(v, k, |parts[0]|);
    }
  }

  lemma AfterIsSomewhere(v: Str, parts: seq<Str>)
    requires |parts| > 0
    ensures After(v, parts) <==> exists k :: 0 <= k <= |v| && PartsMatch(v[k..], parts)
  {
    forall k | 0 <= k <= |v|
      ensures PartsMatch(v[k..], parts) <==> OccursAt(v, parts[0], k) && After(v[k + |parts[0]|..], parts[1..])
    {
      PartsMatchAt(v, parts, k);
    }
  }

  lemma DropDrop(v: Str, a: nat, b: nat)
    requires a + b <= |v|
    ensures v[a..][b..] == v[a + b..]
  {
  }

  lemma DropOccurs(v: Str, part: Str, d: nat, k: int)
    requires d <= |v| && k >= 0
    ensures OccursAt(v[d..], part, k) <==> OccursAt(v, part, d + k)
  {
    if d + k + |part| <= |v| {
      assert v[d..][k..k + |part|] == v[d + k..d + k + |part|];
    }
  }

  /** Splitting at the stars keeps the meaning of a pattern. */
  lemma {:induction false} SplitMeans(v: Str, pattern: Str)
    ensures WildMatch(v, pattern) <==> PartsMatch(v, Split(pattern, STAR))
    decreases |pattern|
  {
    if |pattern| == 0 {
      assert v[0..] == v;
    } else {
      var rest := Split(pattern[1..], STAR);
      if pattern[0] == STAR {
        forall k | 0 <= k <= |v|
          ensures WildMatch(v[k..], pattern[1..]) <==> PartsMatch(v[k..], rest)
        {
          SplitMeans(v[k..], pattern[1..]);
        }
        AfterIsSomewhere(v, rest);
        EmptyPartFirst(v, rest);
      } else {
        if |v| > 0 {
          SplitMeans(v[1..], pattern[1..]);
        }
        OneMoreUnit(v, pattern[0], rest);
      }
    }
  }

  lemma EmptyPartFirst(v: Str, rest: seq<Str>)
    ensures PartsMatch(v, [[]] + rest) <==> After(v, rest)
  {
    assert ([[]] + rest)[1..] == rest && v[0..] == v;
  }

  lemma OneMoreUnit(v: Str, c: CodeUnit, rest: seq<Str>)
    requires |rest| > 0
    ensures PartsMatch(v, [[c] + rest[0]] + rest[1..]) <==> |v| > 0 && v[0] == c && PartsMatch(v[1..], rest)
  {
    var part := [c] + rest[0];
    assert ([part] + rest[1..])[1..] == rest[1..];
    if 1 + |rest[0]| <= |v| {
      assert v[0..|part|] == [v[0]] + v[1..][0..|rest[0]|];
      assert v[1..][0..|rest[0]|] == v[0..|part|][1..];
      DropDrop(v, 1, |rest[0]|);
    }
  }

  // ---- the greedy search

  /** `v.indexOf(part, pos)` */
  function IndexFrom(v: Str, part: Str, pos: nat): (r: Option<nat>)
    ensures r.Some? ==> pos <= r.value && r.value + |part| <= |v|
    decreases |v| - pos
  {
    if pos + |part| > |v| then None
    else if OccursAt(v, part, pos) then Some(pos)
    else IndexFrom(v, part, pos + 1)
  }

  lemma {:induction false} IndexFromIsFirst(v: Str, part: Str, pos: nat)
    ensures match IndexFrom(v, part, pos)
      case Some(i) => OccursAt(v, part, i) && forall k :: pos <= k < i ==> !OccursAt(v, part, k)
      case None => forall k :: pos <= k ==> !OccursAt(v, part, k)
    decreases |v| - pos
  {
    if pos + |part| <= |v| && !OccursAt(v, part, pos) {
      IndexFromIsFirst(v, part, pos + 1);
    }
  }

  /** The leftmost search for the parts from `i` on, beginning at `pos`, and the check of the end. */
  predicate Greedy(v: Str, parts: seq<Str>, i: nat, pos: nat)
    decreases |parts| - i
  {
    if i >= |parts| then |parts| == 0 || |parts[|parts| - 1]| == 0 || pos == |v|
    else
      match IndexFrom(v, parts[i], pos)
      case None => false
      case Some(k) => Greedy(v, parts, i + 1, k + |parts[i]|)
  }

  /** What the greedy search computes. */
  predicate GlobMatches(v: Str, pattern: Str) {
    var parts := Split(pattern, STAR);
    OccursAt(v, parts[0], 0) && if |parts| == 1 then v == pattern else Greedy(v, parts, 1, |parts[0]|)
  }

  lemma {:induction false} SplitWithoutStar(s: Str)
    ensures STAR !in s <==> |Split(s, STAR)| == 1
    ensures STAR !in s ==> Split(s, STAR) == [s]
  {
    if |s| > 0 {
      SplitWithoutStar(s[1..]);
      assert s == [s[0]] + s[1..];
    }
  }

  lemma EmptyIsHere(v: Str, pos: nat)
    requires pos <= |v|
    ensures IndexFrom(v, [], pos) == Some(pos)
  {
    assert OccursAt(v, [], pos);
  }

  /** What the search for part `i` decides; the first part has to be found at the beginning. */
  lemma PartDecides(v: Str, pattern: Str, parts: seq<Str>, i: nat, pos: nat)
    requires parts == Split(pattern, STAR) && i < |parts| && |parts| > 1 && (i == 0 ==> pos == 0)
    ensures var goal := if i == 0 then GlobMatches(v, pattern) else Greedy(v, parts, i, pos);
      match IndexFrom(v, parts[i], pos)
      case None => !goal
      case Some(k) => if i == 0 && k != 0 then !goal else goal == Greedy(v, parts, i + 1, k + |parts[i]|)
  {
    IndexFromIsFirst(v, parts[0], 0);
  }

  method GlobMatch(value: Str, pattern: Str) returns (r: bool)
    ensures r == GlobMatches(value, pattern)
  {
    SplitWithoutStar(pattern);
    if STAR !in pattern {
      return value == pattern;
    }
    var parts := Split(pattern, STAR);
    var pos: nat := 0;
    for i := 0 to |parts|
      invariant pos <= |value| && (i == 0 ==> pos == 0)
      invariant GlobMatches(value, pattern)
        == if i == 0 then GlobMatches(value, pattern) else Greedy(value, parts, i, pos)
    {
      var part := parts[i];
      PartDecides(value, pattern, parts, i, pos);
      if |part| == 0 {
        EmptyIsHere(value, pos);
        continue;
      }
      var idx := IndexFrom(value, part, pos);
      if idx.None? {
        return false;
      }
      if i == 0 && idx.value != 0 {
        return false;
      }
      pos := idx.value + |part|;
    }
    return |parts[|parts| - 1]| == 0 || pos == |value|;
  }

  // ---- when the greedy search is right

  /** The parts from `i` on occur in order from `pos` on, and the last of them ends at `end`. */
  ghost predicate Placed(v: Str, parts: seq<Str>, i: nat, pos: int, end: int)
    decreases |parts| - i
  {
    if i >= |parts| then pos == end
    else
      exists k ::
        && pos <= k && k + |parts[i]| <= end && OccursAt(v, parts[i], k)
        && Placed(v, parts, i + 1, k + |parts[i]|, end)
  }

  lemma SliceOccurs(v: Str, part: Str, pos: nat, end: nat, j: int)
    requires pos <= end <= |v| && j >= 0
    ensures OccursAt(v[pos..end], part, j) <==> OccursAt(v, part, pos + j) && pos + j + |part| <= end
    ensures OccursAt(v[pos..end], part, j) ==> v[pos..end][j + |part|..] == v[pos + j + |part|..end]
  {
    if pos + j + |part| <= end {
      var a, b := v[pos..end][j..j + |part|], v[pos + j..pos + j + |part|];
      assert forall x :: 0 <= x < |part| ==> a[x] == v[pos..end][j + x] == v[pos + j + x] == b[x];
      assert a == b;
    }
  }

  lemma SuffixParts(parts: seq<Str>, i: nat)
    requires i < |parts|
    ensures |parts[i..]| == |parts| - i && parts[i..][0] == parts[i] && parts[i..][1..] == parts[i + 1..]
  {
  }

  /** One part, placed in a slice or in the whole text. */
  lemma {:induction false} PlacedOne(v: Str, parts: seq<Str>, i: nat, pos: nat, end: nat, j: int)
    requires i < |parts| && pos <= end <= |v| && j >= 0
    ensures OccursAt(v[pos..end], parts[i], j) && After(v[pos..end][j + |parts[i]|..], parts[i..][1..]) <==>
      pos + j + |parts[i]| <= end && OccursAt(v, parts[i], pos + j)
        && Placed(v, parts, i + 1, pos + j + |parts[i]|, end)
    decreases |parts| - i, 0
  {
    SuffixParts(parts, i);
    SliceOccurs(v, parts[i], pos, end, j);
    if OccursAt(v[pos..end], parts[i], j) {
      PlacedIsAfter(v, parts, i + 1, pos + j + |parts[i]|, end);
    }
  }

  /** Placing the parts in the whole text between two positions is matching the text between them. */
  lemma {:induction false} PlacedIsAfter(v: Str, parts: seq<Str>, i: nat, pos: nat, end: nat)
    requires i <= |parts| && pos <= end <= |v|
    ensures Placed(v, parts, i, pos, end) <==> After(v[pos..end], parts[i..])
    decreases |parts| - i, 1
  {
    if i < |parts| {
      SuffixParts(parts, i);
      if After(v[pos..end], parts[i..]) {
        var j :| OccursAt(v[pos..end], parts[i..][0], j) && After(v[pos..end][j + |parts[i..][0]|..], parts[i..][1..]);
        PlacedOne(v, parts, i, pos, end, j);
      }
      if Placed(v, parts, i, pos, end) {
        var k :| pos <= k && k + |parts[i]| <= end && OccursAt(v, parts[i], k)
          && Placed(v, parts, i + 1, k + |parts[i]|, end);
        PlacedOne(v, parts, i, pos, end, k - pos);
      }
    }
  }

  /** More room in front does no harm: there is a gap before the part. */
  lemma PlacedEarlier(v: Str, parts: seq<Str>, i: nat, pos: nat, pos': nat, end: int)
    requires i < |parts| && pos <= pos' && Placed(v, parts, i, pos', end)
    ensures Placed(v, parts, i, pos, end)
  {
  }

  ghost predicate FirstAt(v: Str, part: Str, pos: nat, k: nat) {
    pos <= k && OccursAt(v, part, k) && forall j :: pos <= j < k ==> !OccursAt(v, part, j)
  }

  /** Taking the leftmost occurrence loses nothing as long as another part follows, wherever the end is. */
  lemma LeftmostSuffices(v: Str, parts: seq<Str>, i: nat, pos: nat, k: nat, end: int)
    requires i + 1 < |parts| && FirstAt(v, parts[i], pos, k)
    ensures Placed(v, parts, i, pos, end) <==> k + |parts[i]| <= end && Placed(v, parts, i + 1, k + |parts[i]|, end)
  {
    if Placed(v, parts, i, pos, end) {
      var j :| pos <= j && j + |parts[i]| <= end && OccursAt(v, parts[i], j)
        && Placed(v, parts, i + 1, j + |parts[i]|, end);
      PlacedEarlier(v, parts, i + 1, k + |parts[i]|, j + |parts[i]|, end);
    }
  }

  /** The last part is placed exactly where it ends at the end. */
  lemma LastPlaced(v: Str, parts: seq<Str>, i: nat, pos: nat, end: int)
    requires i + 1 == |parts|
    ensures Placed(v, parts, i, pos, end) <==> pos <= end - |parts[i]| && OccursAt(v, parts[i], end - |parts[i]|)
  {
    if pos <= end - |parts[i]| && OccursAt(v, parts[i], end - |parts[i]|) {
      assert Placed(v, parts, i + 1, end - |parts[i]| + |parts[i]|, end);
    }
  }

  /** The parts cannot be placed to end before the end of the text. */
  ghost predicate NoShorter(v: Str, parts: seq<Str>, i: nat, pos: nat) {
    forall m :: pos <= m < |v| ==> !Placed(v, parts, i, pos, m)
  }

  /**
   The greedy search succeeds exactly when the parts can be placed and, unless the last is empty, not
   so as to end earlier.
   */
  ghost predicate Exact(v: Str, parts: seq<Str>, i: nat, pos: nat)
    requires |parts| > 0
  {
    Greedy(v, parts, i, pos) <==>
      Placed(v, parts, i, pos, |v|) && (|parts[|parts| - 1]| == 0 || NoShorter(v, parts, i, pos))
  }

  lemma NotFound(v: Str, parts: seq<Str>, i: nat, pos: nat)
    requires i < |parts| && pos <= |v| && IndexFrom(v, parts[i], pos).None?
    ensures Exact(v, parts, i, pos)
  {
    IndexFromIsFirst(v, parts[i], pos);
  }

  lemma LastFound(v: Str, parts: seq<Str>, i: nat, pos: nat, k: nat)
    requires i + 1 == |parts| && pos <= |v| && IndexFrom(v, parts[i], pos) == Some(k) && FirstAt(v, parts[i], pos, k)
    ensures Exact(v, parts, i, pos)
  {
    var part := parts[i];
    LastPlaced(v, parts, i, pos, |v|);
    if |part| == 0 {
      assert OccursAt(v, part, |v|);
    } else {
      forall m | pos <= m < |v|
        ensures Placed(v, parts, i, pos, m) <==> pos <= m - |part| && OccursAt(v, part, m - |part|)
      {
        LastPlaced(v, parts, i, pos, m);
      }
      if k + |part| < |v| {
        assert Placed(v, parts, i, pos, k + |part|);
      }
    }
  }

  lemma ShorterCarries(v: Str, parts: seq<Str>, i: nat, pos: nat, k: nat)
    requires i + 1 < |parts| && FirstAt(v, parts[i], pos, k)
    ensures NoShorter(v, parts, i, pos) <==> NoShorter(v, parts, i + 1, k + |parts[i]|)
  {
    var j, next := i + 1, k + |parts[i]|;
    if NoShorter(v, parts, i, pos) {
      forall m | next <= m < |v|
        ensures !Placed(v, parts, j, next, m)
      {
        LeftmostSuffices(v, parts, i, pos, k, m);
      }
    }
    if NoShorter(v, parts, i + 1, k + |parts[i]|) {
      forall m | pos <= m < |v|
        ensures !Placed(v, parts, i, pos, m)
      {
        LeftmostSuffices(v, parts, i, pos, k, m);
      }
    }
  }

  lemma InnerFound(v: Str, parts: seq<Str>, i: nat, pos: nat, k: nat)
    requires i + 1 < |parts| && pos <= |v| && IndexFrom(v, parts[i], pos) == Some(k) && FirstAt(v, parts[i], pos, k)
    requires Exact(v, parts, i + 1, k + |parts[i]|)
    ensures Exact(v, parts, i, pos)
  {
    assert Greedy(v, parts, i, pos) == Greedy(v, parts, i + 1, k + |parts[i]|);
    LeftmostSuffices(v, parts, i, pos, k, |v|);
    ShorterCarries(v, parts, i, pos, k);
  }

  lemma {:induction false} GreedyExact(v: Str, parts: seq<Str>, i: nat, pos: nat)
    requires i < |parts| && pos <= |v|
    ensures Exact(v, parts, i, pos)
    decreases |parts| - i
  {
    IndexFromIsFirst(v, parts[i], pos);
    match IndexFrom(v, parts[i], pos)
    case None => NotFound(v, parts, i, pos);
    case Some(k) =>
      if i + 1 == |parts| {
        LastFound(v, parts, i, pos, k);
      } else {
        GreedyExact(v, parts, i + 1, k + |parts[i]|);
        InnerFound(v, parts, i, pos, k);
      }
  }

  // ---- theorems

  lemma {:induction false} LastPartOfSplit(s: Str)
    requires |s| > 0
    ensures var parts := Split(s, STAR); (|parts[|parts| - 1]| == 0 <==> s[|s| - 1] == STAR)
  {
    if |s| > 1 {
      LastPartOfSplit(s[1..]);
    } else {
      assert s[1..] == [];
    }
  }

  /** What it means for a prefix of the value to match. */
  lemma PrefixMatches(v: Str, pattern: Str, m: nat)
    requires m <= |v|
    ensures var parts := Split(pattern, STAR);
      WildMatch(v[..m], pattern) <==>
      OccursAt(v, parts[0], 0) && |parts[0]| <= m && Placed(v, parts, 1, |parts[0]|, m)
  {
    var parts := Split(pattern, STAR);
    SplitMeans(v[..m], pattern);
    assert v[0..m] == v[..m];
    SliceOccurs(v, parts[0], 0, m, 0);
    if OccursAt(v[..m], parts[0], 0) {
      PlacedIsAfter(v, parts, 1, |parts[0]|, m);
    }
  }

  /** A prefix of the value matches. */
  ghost predicate ShorterMatches(v: Str, pattern: Str) {
    exists m :: 0 <= m < |v| && WildMatch(v[..m], pattern)
  }

  lemma ShorterPlaced(v: Str, pattern: Str)
    requires OccursAt(v, Split(pattern, STAR)[0], 0)
    ensures ShorterMatches(v, pattern) <==> !NoShorter(v, Split(pattern, STAR), 1, |Split(pattern, STAR)[0]|)
  {
    var parts := Split(pattern, STAR);
    forall m | 0 <= m < |v|
      ensures WildMatch(v[..m], pattern) <==> |parts[0]| <= m && Placed(v, parts, 1, |parts[0]|, m)
    {
      PrefixMatches(v, pattern, m);
    }
  }

  /**
   Exactly when the greedy matcher says yes: the value matches and, unless the pattern ends in
   a star, no proper prefix of the value matches as well.
   */
  lemma GlobExact(v: Str, pattern: Str)
    ensures GlobMatches(v, pattern) <==>
      WildMatch(v, pattern) && ((|pattern| > 0 && pattern[|pattern| - 1] == STAR) || !ShorterMatches(v, pattern))
  {
    var parts := Split(pattern, STAR);
    assert v[..|v|] == v;
    PrefixMatches(v, pattern, |v|);
    SplitWithoutStar(pattern);
    if STAR in pattern {
      LastPartOfSplit(pattern);
      if OccursAt(v, parts[0], 0) {
        GreedyExact(v, parts, 1, |parts[0]|);
        ShorterPlaced(v, pattern);
      }
    } else {
      PlainPattern(v, pattern);
    }
  }

  /** A pattern without stars is matched by itself alone. */
  lemma {:induction false} PlainMatches(v: Str, pattern: Str)
    requires STAR !in pattern
    ensures WildMatch(v, pattern) <==> v == pattern
    decreases |pattern|
  {
    if |pattern| > 0 {
      assert pattern == [pattern[0]] + pattern[1..];
      if |v| > 0 {
        assert v == [v[0]] + v[1..];
        PlainMatches(v[1..], pattern[1..]);
      }
    }
  }

  lemma PlainPattern(v: Str, pattern: Str)
    requires STAR !in pattern
    ensures WildMatch(v, pattern) <==> v == pattern
    ensures GlobMatches(v, pattern) <==> v == pattern
    ensures v == pattern ==> !ShorterMatches(v, pattern)
    ensures !(|pattern| > 0 && pattern[|pattern| - 1] == STAR)
  {
    SplitWithoutStar(pattern);
    PlainMatches(v, pattern);
    assert v == pattern ==> OccursAt(v, pattern, 0);
    forall m | 0 <= m < |v|
      ensures WildMatch(v[..m], pattern) <==> v[..m] == pattern
    {
      PlainMatches(v[..m], pattern);
    }
  }

  /** A yes is always right; and for patterns that end in a star so is a no. */
  lemma GlobSound(v: Str, pattern: Str)
    ensures GlobMatches(v, pattern) ==> WildMatch(v, pattern)
    ensures |pattern| > 0 && pattern[|pattern| - 1] == STAR ==> (GlobMatches(v, pattern) <==> WildMatch(v, pattern))
  {
    GlobExact(v, pattern);
  }

  /** The matcher can say no to a value that matches: `aa` against `*a`. */
  lemma GlobMissesRepeatedSuffix()
    ensures WildMatch([0x61, 0x61], [STAR, 0x61]) && !GlobMatches([0x61, 0x61], [STAR, 0x61])
  {
    var v: Str, p: Str := [0x61, 0x61], [STAR, 0x61];
    assert p[1..] == [0x61] && p[1..][1..] == [];
    assert v[1..] == [0x61] && v[1..][1..] == [];
    assert WildMatch(v[1..], p[1..]);
    assert v[..1] == [0x61] && v[..1][0..] == [0x61] && v[..1][0..][1..] == [];
    assert WildMatch(v[..1][0..], p[1..]);
    assert WildMatch(v[..1], p);
    assert ShorterMatches(v, p);
    GlobExact(v, p);
  }

  // ---- paths

  /**
   The path components from `si` on match the patterns from `pi` on; a lone star stands for any number
   of components.
   */
  ghost predicate PathMatches(patterns: seq<Str>, path: seq<Str>, pi: nat, si: nat)
    decreases |patterns| - pi, 0
  {
    if pi >= |patterns| then si == |path|
    else if patterns[pi] == [STAR] then SomeMatches(patterns, path, pi + 1, si)
    else si < |path| && GlobMatches(path[si], patterns[pi]) && PathMatches(patterns, path, pi + 1, si + 1)
  }

  ghost predicate SomeMatches(patterns: seq<Str>, path: seq<Str>, pi: nat, si: nat)
    decreases |patterns| - pi, 1
  {
    exists i :: si <= i <= |path| && PathMatches(patterns, path, pi, i)
  }

  /** The matcher is exact over its component matcher. */
  method MatchParts(patterns: seq<Str>, path: seq<Str>, pi0: nat, si0: nat) returns (r: bool)
    requires pi0 <= |patterns| && si0 <= |path|
    ensures r <==> PathMatches(patterns, path, pi0, si0)
    decreases |patterns| - pi0
  {
    var pi: nat, si: nat := pi0, si0;
    while pi < |patterns|
      invariant pi0 <= pi <= |patterns| && si <= |path|
      invariant PathMatches(patterns, path, pi0, si0) <==> PathMatches(patterns, path, pi, si)
    {
      var p := patterns[pi];
      if p == [STAR] {
        var next := pi + 1;
        for i := si to |path| + 1
          invariant forall j :: si <= j < i ==> !PathMatches(patterns, path, next, j)
        {
          var found := MatchParts(patterns, path, next, i);
          if found {
            assert SomeMatches(patterns, path, next, si);
            return true;
          }
        }
        assert !SomeMatches(patterns, path, next, si);
        return false;
      }
      if si >= |path| {
        return false;
      }
      var component := GlobMatch(path[si], p);
      if !component {
        return false;
      }
      pi := pi + 1;
      si := si + 1;
    }
    return si == |path|;
  }

  /** The last component of the path, or the whole path if that is empty. */
  function BaseName(path: Str): Str {
    var parts := Split(path, SLASH);
    if |parts[|parts| - 1]| > 0 then parts[|parts| - 1] else path
  }

  ghost predicate SensitiveBy(path: Str, pattern: Str) {
    if SLASH in pattern then PathMatches(Split(pattern, SLASH), Split(path, SLASH), 0, 0)
    else GlobMatches(BaseName(path), pattern)
  }

  method MatchSensitivePattern(path: Str, pattern: Str) returns (r: bool)
    ensures r <==> SensitiveBy(path, pattern)
  {
    if SLASH in pattern {
      var parts, pathParts := Split(pattern, SLASH), Split(path, SLASH);
      r := MatchParts(parts, pathParts, 0, 0);
    } else {
      r := GlobMatch(BaseName(path), pattern);
    }
  }

  function Normalized(path: Str): Str {
    seq(|path|, i requires 0 <= i < |path| => if path[i] == BACKSLASH then SLASH else path[i])
  }

  method IsSensitivePath(path: Str, patterns: seq<Str>) returns (r: bool)
    ensures r <==> |path| > 0 && exists i :: 0 <= i < |patterns| && SensitiveBy(Normalized(path), patterns[i])
  {
    if |path| == 0 {
      return false;
    }
    for i := 0 to |patterns|
      invariant forall j :: 0 <= j < i ==> !SensitiveBy(Normalized(path), patterns[j])
    {
      var hit := MatchSensitivePattern(Normalized(path), patterns[i]);
      if hit {
        return true;
      }
    }
    return false;
  }

  lemma AnythingAfter(v: Str)
    ensures After(v, [[]])
  {
    var parts: seq<Str> := [[]];
    assert OccursAt(v, parts[0], |v|) && After(v[|v| + |parts[0]|..], parts[1..]);
  }

  lemma WordSomewhere(v: Str, word: Str)
    ensures After(v, [word, []]) <==> exists k :: OccursAt(v, word, k)
  {
    var parts: seq<Str> := [word, []];
    assert parts[1..] == [[]];
    forall k | OccursAt(v, word, k)
      ensures After(v[k + |parts[0]|..], parts[1..])
    {
      AnythingAfter(v[k + |word|..]);
    }
  }

  lemma InfixParts(word: Str)
    requires STAR !in word
    ensures Split([STAR] + word + [STAR], STAR) == [[]] + [word, []]
  {
    var pattern := [STAR] + word + [STAR];
    assert pattern[1..] == word + [STAR];
    SplitWordStar(word);
  }

  /** A pattern `*word*` catches exactly the names that contain the word. */
  lemma InfixPattern(v: Str, word: Str)
    requires STAR !in word
    ensures GlobMatches(v, [STAR] + word + [STAR]) <==> exists k :: OccursAt(v, word, k)
  {
    GlobSound(v, [STAR] + word + [STAR]);
    SplitMeans(v, [STAR] + word + [STAR]);
    InfixParts(word);
    EmptyPartFirst(v, [word, []]);
    WordSomewhere(v, word);
  }

  lemma {:induction false} SplitWordStar(word: Str)
    requires STAR !in word
    ensures Split(word + [STAR], STAR) == [word, []]
  {
    var s := word + [STAR];
    if |word| == 0 {
      assert s[1..] == [];
    } else {
      assert s[1..] == word[1..] + [STAR];
      SplitWordStar(word[1..]);
      assert [word[0]] + word[1..] == word;
    }
  }
}
