/**
 Empirical serialization: the policy of src/domains/orchestration/contracts.ts and the blocker
 map that the store builds with it (src/domains/orchestration/sqlite-store.ts).
 */
module Scheduling {
  import opened Text
  import opened Wrappers

  /** The predicted touch of one node. */
  datatype Overlap = Overlap(nodeId: Str, confidence: real, units: seq<Str>, surfaces: seq<Str>)

  datatype Decision = Optimistic | Serialize(blocker: Str)

  predicate Shares(a: seq<Str>, b: seq<Str>) {
    exists x :: x in a && x in b
  }

  predicate Overlapping(a: Overlap, b: Overlap) {
    Shares(a.surfaces, b.surfaces) || Shares(a.units, b.units)
  }

  predicate Listed(overlaps: seq<Overlap>, nodeId: Str) {
    exists i :: 0 <= i < |overlaps| && overlaps[i].nodeId == nodeId
  }

  /** `overlaps.find(o => o.node_id === nodeId)` */
  function First(overlaps: seq<Overlap>, nodeId: Str): (r: Overlap)
    requires Listed(overlaps, nodeId)
    ensures r in overlaps && r.nodeId == nodeId
  {
    if overlaps[0].nodeId == nodeId then overlaps[0]
    else
      assert forall i :: 1 <= i < |overlaps| ==> overlaps[i] == overlaps[1..][i - 1];
      First(overlaps[1..], nodeId)
  }

  predicate IsRival(self: Overlap, other: Overlap, minConfidence: real) {
    other.nodeId != self.nodeId && other.confidence >= minConfidence && Overlapping(other, self)
  }

  /** The ids of the confident overlapping nodes, in evidence order. */
  function RivalIds(self: Overlap, overlaps: seq<Overlap>, minConfidence: real): (r: seq<Str>)
    ensures forall id :: id in r <==> HasRival(self, overlaps, minConfidence, id)
  {
    if |overlaps| == 0 then []
    else
      var rest := RivalIds(self, overlaps[1..], minConfidence);
      RivalsOfRest(self, overlaps, minConfidence);
      if IsRival(self, overlaps[0], minConfidence) then [overlaps[0].nodeId] + rest else rest
  }

  /** The evidence holds a rival of this id. */
  ghost predicate HasRival(self: Overlap, overlaps: seq<Overlap>, minConfidence: real, id: Str) {
    exists i :: 0 <= i < |overlaps| && overlaps[i].nodeId == id && IsRival(self, overlaps[i], minConfidence)
  }

  lemma RivalsOfRest(self: Overlap, overlaps: seq<Overlap>, minConfidence: real)
    requires |overlaps| > 0
    ensures forall id :: HasRival(self, overlaps, minConfidence, id) <==>
      (overlaps[0].nodeId == id && IsRival(self, overlaps[0], minConfidence))
      || HasRival(self, overlaps[1..], minConfidence, id)
  {
    forall id | HasRival(self, overlaps, minConfidence, id)
      ensures (overlaps[0].nodeId == id && IsRival(self, overlaps[0], minConfidence))
        || HasRival(self, overlaps[1..], minConfidence, id)
    {
      var i :| 0 <= i < |overlaps| && overlaps[i].nodeId == id && IsRival(self, overlaps[i], minConfidence);
      assert i > 0 ==> overlaps[1..][i - 1] == overlaps[i];
    }
    forall id | HasRival(self, overlaps[1..], minConfidence, id)
      ensures HasRival(self, overlaps, minConfidence, id)
    {
      var i :| 0 <= i < |overlaps[1..]| && overlaps[1..][i].nodeId == id
        && IsRival(self, overlaps[1..][i], minConfidence);
      assert overlaps[i + 1] == overlaps[1..][i];
    }
  }

  function IndexOf(s: seq<Str>, x: Str): (r: nat)
    requires x in s
    ensures r < |s| && s[r] == x && forall i :: 0 <= i < r ==> s[i] != x
  {
    if s[0] == x then 0 else 1 + IndexOf(s[1..], x)
  }

  function Classify(nodeId: Str, overlaps: seq<Overlap>, minConfidence: real): Decision {
    if !Listed(overlaps, nodeId) then Optimistic
    else
      var self := First(overlaps, nodeId);
      if self.confidence < minConfidence then Optimistic
      else if |self.units| == 0 && |self.surfaces| == 0 then Optimistic
      else
        var rivals := RivalIds(self, overlaps, minConfidence);
        if |rivals| == 0 then Optimistic else PlaceAmong(nodeId, rivals)
  }

  /** The node waits for the one sorted just before it. */
  function PlaceAmong(nodeId: Str, rivals: seq<Str>): Decision {
    SortedHolds([nodeId] + rivals, nodeId);
    var sorted := Sort([nodeId] + rivals);
    var index := IndexOf(sorted, nodeId);
    if index == 0 then Optimistic else Serialize(sorted[index - 1])
  }

  lemma SortedHolds(s: seq<Str>, x: Str)
    ensures x in Sort(s) <==> x in s
  {
    assert x in multiset(Sort(s)) <==> x in multiset(s);
  }

  // ---- what classification decides

  ghost predicate DistinctNodes(overlaps: seq<Overlap>) {
    forall i, j :: 0 <= i < j < |overlaps| ==> overlaps[i].nodeId != overlaps[j].nodeId
  }

  /** Both nodes are confidently predicted to touch something in common. */
  predicate Collide(a: Overlap, b: Overlap, minConfidence: real) {
    && a.nodeId != b.nodeId && a.confidence >= minConfidence && b.confidence >= minConfidence
    && ((exists u :: u in a.units && u in b.units) || (exists x :: x in a.surfaces && x in b.surfaces))
  }

  /** A node that collides with `self` and comes before it. */
  ghost predicate Earlier(self: Overlap, overlaps: seq<Overlap>, minConfidence: real, id: Str) {
    exists i :: 0 <= i < |overlaps| && overlaps[i].nodeId == id && Collide(self, overlaps[i], minConfidence)
      && Less(id, self.nodeId)
  }

  /** Among the earlier colliding nodes, the last one. */
  ghost predicate LastEarlier(self: Overlap, overlaps: seq<Overlap>, minConfidence: real, id: Str) {
    && Earlier(self, overlaps, minConfidence, id)
    && forall other :: Earlier(self, overlaps, minConfidence, other) ==> other == id || Less(other, id)
  }

  lemma FirstDistinct(overlaps: seq<Overlap>, i: nat)
    requires DistinctNodes(overlaps) && i < |overlaps|
    ensures Listed(overlaps, overlaps[i].nodeId) && First(overlaps, overlaps[i].nodeId) == overlaps[i]
  {
    var r := First(overlaps, overlaps[i].nodeId);
    var j :| 0 <= j < |overlaps| && overlaps[j] == r;
  }

  lemma {:induction false} RivalIdsDistinct(self: Overlap, overlaps: seq<Overlap>, minConfidence: real)
    requires DistinctNodes(overlaps)
    ensures NoDuplicates(RivalIds(self, overlaps, minConfidence))
    decreases |overlaps|
  {
    if |overlaps| > 0 {
      var rest := overlaps[1..];
      RivalIdsDistinct(self, rest, minConfidence);
      assert forall i :: 0 <= i < |rest| ==> rest[i] == overlaps[i + 1];
      if IsRival(self, overlaps[0], minConfidence) {
        PrependDistinct(overlaps[0].nodeId, RivalIds(self, rest, minConfidence));
      }
    }
  }

  lemma PrependDistinct(x: Str, s: seq<Str>)
    requires x !in s && NoDuplicates(s)
    ensures NoDuplicates([x] + s)
  {
  }

  lemma BeforeInOrder(sorted: seq<Str>, index: nat, k: nat)
    requires Ascending(sorted) && index < |sorted| && k < |sorted| && Less(sorted[k], sorted[index])
    ensures k < index && (sorted[k] == sorted[index - 1] || Less(sorted[k], sorted[index - 1]))
  {
    if k >= index {
      LessAsymmetric(sorted[k], sorted[index]);
    }
  }

  /** The greatest element of `s` that is smaller than `x`. */
  ghost predicate GreatestBelow(s: seq<Str>, x: Str, p: Str) {
    p in s && Less(p, x) && forall y :: y in s && Less(y, x) ==> y == p || Less(y, p)
  }

  /** The one sorted before `x` is the greatest smaller one. */
  lemma PreviousInOrder(s: seq<Str>, x: Str)
    requires NoDuplicates(s) && x in s && x in Sort(s)
    ensures var sorted, index := Sort(s), IndexOf(Sort(s), x);
      if index == 0 then forall y :: y in s ==> !Less(y, x) else GreatestBelow(s, x, sorted[index - 1])
  {
    SortAscends(s);
    var sorted, index := Sort(s), IndexOf(Sort(s), x);
    forall y | y in s && Less(y, x)
      ensures index > 0 && (y == sorted[index - 1] || Less(y, sorted[index - 1]))
    {
      SortedHolds(s, y);
      var k :| 0 <= k < |sorted| && sorted[k] == y;
      BeforeInOrder(sorted, index, k);
    }
    if index > 0 {
      SortedHolds(s, sorted[index - 1]);
    }
  }

  lemma LessIrreflexive(a: Str)
    ensures !Less(a, a)
  {
    if Less(a, a) {
      LessAsymmetric(a, a);
    }
  }

  lemma EarlierIsRival(self: Overlap, overlaps: seq<Overlap>, minConfidence: real)
    requires self.confidence >= minConfidence
    ensures forall id :: Earlier(self, overlaps, minConfidence, id) <==>
      id in RivalIds(self, overlaps, minConfidence) && Less(id, self.nodeId)
    ensures |self.units| == 0 && |self.surfaces| == 0 ==> RivalIds(self, overlaps, minConfidence) == []
  {
    assert forall o :: Overlapping(o, self) <==> Overlapping(self, o);
    var r := RivalIds(self, overlaps, minConfidence);
    assert |r| > 0 ==> r[0] in r;
  }

  /** The smaller of two last ones would not be last. */
  lemma LastEarlierUnique(self: Overlap, overlaps: seq<Overlap>, minConfidence: real, a: Str, b: Str)
    requires LastEarlier(self, overlaps, minConfidence, a) && LastEarlier(self, overlaps, minConfidence, b)
    ensures a == b
  {
    if Less(a, b) {
      LessAsymmetric(a, b);
    }
  }

  lemma PlaceIsPrevious(nodeId: Str, rivals: seq<Str>)
    requires NoDuplicates(rivals) && nodeId !in rivals
    ensures match PlaceAmong(nodeId, rivals)
      case Optimistic => forall y :: y in rivals ==> !Less(y, nodeId)
      case Serialize(b) => GreatestBelow(rivals, nodeId, b)
  {
    var s := [nodeId] + rivals;
    PrependDistinct(nodeId, rivals);
    SortedHolds(s, nodeId);
    PreviousInOrder(s, nodeId);
    LessIrreflexive(nodeId);
  }

  /** What sorting decides, for a node that is listed once with enough confidence. */
  lemma SortedDecision(self: Overlap, overlaps: seq<Overlap>, minConfidence: real)
    requires DistinctNodes(overlaps) && self.confidence >= minConfidence
    requires Listed(overlaps, self.nodeId) && First(overlaps, self.nodeId) == self
    ensures match Classify(self.nodeId, overlaps, minConfidence)
      case Optimistic => forall id :: !Earlier(self, overlaps, minConfidence, id)
      case Serialize(b) => LastEarlier(self, overlaps, minConfidence, b)
  {
    EarlierIsRival(self, overlaps, minConfidence);
    RivalIdsDistinct(self, overlaps, minConfidence);
    PlaceIsPrevious(self.nodeId, RivalIds(self, overlaps, minConfidence));
  }

  /**
   For evidence with one entry per node, a node is serialized behind `b` exactly when `b` is
   the last of the earlier nodes it collides with.
   */
  lemma ClassifyExact(overlaps: seq<Overlap>, minConfidence: real, i: nat, b: Str)
    requires DistinctNodes(overlaps) && i < |overlaps|
    ensures Classify(overlaps[i].nodeId, overlaps, minConfidence) == Serialize(b)
      <==> LastEarlier(overlaps[i], overlaps, minConfidence, b)
    ensures Classify(overlaps[i].nodeId, overlaps, minConfidence).Optimistic?
      <==> forall id :: !Earlier(overlaps[i], overlaps, minConfidence, id)
  {
    var self := overlaps[i];
    FirstDistinct(overlaps, i);
    if self.confidence >= minConfidence {
      SortedDecision(self, overlaps, minConfidence);
      var decision := Classify(self.nodeId, overlaps, minConfidence);
      if decision.Serialize? && LastEarlier(self, overlaps, minConfidence, b) {
        LastEarlierUnique(self, overlaps, minConfidence, decision.blocker, b);
      }
    }
  }

  // ---- the blocker map

  /** The blocker that the store records for a node of the evidence. */
  function BlockerOf(classify: Str -> Decision, nodeIds: set<Str>, id: Str): Option<Str> {
    if id !in nodeIds then None
    else
      match classify(id)
      case Serialize(b) => if b != id && b in nodeIds then Some(b) else None
      case Optimistic => None
  }

  /** The map holds the recorded blockers of the first `n` entries. */
  ghost predicate HoldsBlockers(
    overlaps: seq<Overlap>, classify: Str -> Decision, nodeIds: set<Str>, blockers: map<Str, Str>, n: nat)
    requires n <= |overlaps|
  {
    && (forall id :: id in blockers ==>
          Listed(overlaps[..n], id) && BlockerOf(classify, nodeIds, id) == Some(blockers[id]))
    && (forall i :: 0 <= i < n && BlockerOf(classify, nodeIds, overlaps[i].nodeId).Some? ==>
          overlaps[i].nodeId in blockers)
  }

  lemma ListedGrows(overlaps: seq<Overlap>, n: nat, id: Str)
    requires n < |overlaps| && (Listed(overlaps[..n], id) || overlaps[n].nodeId == id)
    ensures Listed(overlaps[..n + 1], id)
  {
    if Listed(overlaps[..n], id) {
      var i :| 0 <= i < n && overlaps[..n][i].nodeId == id;
      assert overlaps[..n + 1][i].nodeId == id;
    } else {
      assert overlaps[..n + 1][n].nodeId == id;
    }
  }

  lemma BlockersGrow(
    overlaps: seq<Overlap>, classify: Str -> Decision, nodeIds: set<Str>, blockers: map<Str, Str>, n: nat,
    blockers': map<Str, Str>)
    requires n < |overlaps| && HoldsBlockers(overlaps, classify, nodeIds, blockers, n)
    requires var id := overlaps[n].nodeId;
      blockers' == match BlockerOf(classify, nodeIds, id)
                   case Some(b) => blockers[id := b]
                   case None => blockers
    ensures HoldsBlockers(overlaps, classify, nodeIds, blockers', n + 1)
  {
    forall id | id in blockers'
      ensures Listed(overlaps[..n + 1], id)
    {
      ListedGrows(overlaps, n, id);
    }
  }

  /** The loop of the import over an injected policy. */
  method BuildBlockers(overlaps: seq<Overlap>, classify: Str -> Decision, nodeIds: set<Str>)
    returns (blockers: map<Str, Str>)
    ensures HoldsBlockers(overlaps, classify, nodeIds, blockers, |overlaps|)
  {
    blockers := map[];
    for k := 0 to |overlaps|
      invariant HoldsBlockers(overlaps, classify, nodeIds, blockers, k)
    {
      var id := overlaps[k].nodeId;
      ghost var before := blockers;
      if id in nodeIds {
        var decision := classify(id);
        if decision.Serialize? && decision.blocker != id && decision.blocker in nodeIds {
          blockers := blockers[id := decision.blocker];
        }
      }
      BlockersGrow(overlaps, classify, nodeIds, before, k, blockers);
    }
  }

  /** What the map is for evidence with one entry per node, all of them nodes of the work. */
  ghost predicate BlockerMap(overlaps: seq<Overlap>, minConfidence: real, blockers: map<Str, Str>) {
    && (forall id :: id in blockers ==> Listed(overlaps, id))
    && forall i :: 0 <= i < |overlaps| ==>
         if overlaps[i].nodeId in blockers then
           LastEarlier(overlaps[i], overlaps, minConfidence, blockers[overlaps[i].nodeId])
         else forall id :: !Earlier(overlaps[i], overlaps, minConfidence, id)
  }

  /** For evidence with one entry per node, all of them nodes of the work, the map is exact. */
  lemma BlockersExact(
    overlaps: seq<Overlap>, minConfidence: real, classify: Str -> Decision, nodeIds: set<Str>, blockers: map<Str, Str>)
    requires forall id :: classify(id) == Classify(id, overlaps, minConfidence)
    requires DistinctNodes(overlaps) && forall i :: 0 <= i < |overlaps| ==> overlaps[i].nodeId in nodeIds
    requires HoldsBlockers(overlaps, classify, nodeIds, blockers, |overlaps|)
    ensures BlockerMap(overlaps, minConfidence, blockers)
  {
    WholeSeq(overlaps);
    forall i | 0 <= i < |overlaps|
      ensures if overlaps[i].nodeId in blockers then
        LastEarlier(overlaps[i], overlaps, minConfidence, blockers[overlaps[i].nodeId])
        else forall id :: !Earlier(overlaps[i], overlaps, minConfidence, id)
    {
      var self := overlaps[i];
      var decision := classify(self.nodeId);
      ClassifyExact(overlaps, minConfidence, i, if decision.Serialize? then decision.blocker else self.nodeId);
      LessIrreflexive(self.nodeId);
      assert decision.Serialize? ==> BlockerOf(classify, nodeIds, self.nodeId) == Some(decision.blocker);
    }
  }

  /** Of two colliding nodes at least the later one is blocked. */
  lemma CollidersSerialized(overlaps: seq<Overlap>, minConfidence: real, blockers: map<Str, Str>, i: nat, j: nat)
    requires DistinctNodes(overlaps) && BlockerMap(overlaps, minConfidence, blockers)
    requires i < |overlaps| && j < |overlaps| && Collide(overlaps[i], overlaps[j], minConfidence)
    ensures overlaps[i].nodeId in blockers || overlaps[j].nodeId in blockers
  {
    var a, b := overlaps[i], overlaps[j];
    LessTotal(a.nodeId, b.nodeId);
    assert Collide(b, a, minConfidence);
    assert Less(b.nodeId, a.nodeId) ==> Earlier(a, overlaps, minConfidence, b.nodeId);
    assert Less(a.nodeId, b.nodeId) ==> Earlier(b, overlaps, minConfidence, a.nodeId);
  }

  /** Every blocker is a node of the evidence with a strictly smaller id. */
  lemma BlockersSmaller(overlaps: seq<Overlap>, minConfidence: real, blockers: map<Str, Str>, id: Str)
    requires BlockerMap(overlaps, minConfidence, blockers) && id in blockers
    ensures Less(blockers[id], id) && Listed(overlaps, blockers[id])
  {
    var i :| 0 <= i < |overlaps| && overlaps[i].nodeId == id;
    assert LastEarlier(overlaps[i], overlaps, minConfidence, blockers[id]);
  }

  /** Each id on the chain is blocked by the next. */
  ghost predicate Chain(blockers: map<Str, Str>, chain: seq<Str>) {
    |chain| > 0 && forall k :: 0 <= k < |chain| - 1 ==> chain[k] in blockers && chain[k + 1] == blockers[chain[k]]
  }

  ghost function Below(blockers: map<Str, Str>, id: Str): set<Str> {
    set k | k in blockers && Less(k, id)
  }

  /** Following blockers from any node ends at an unblocked node. */
  lemma ChainEnds(overlaps: seq<Overlap>, minConfidence: real, blockers: map<Str, Str>, id: Str)
    returns (chain: seq<Str>)
    requires BlockerMap(overlaps, minConfidence, blockers)
    ensures Chain(blockers, chain) && chain[0] == id && chain[|chain| - 1] !in blockers
  {
    forall k | k in blockers
      ensures Less(blockers[k], k)
    {
      BlockersSmaller(overlaps, minConfidence, blockers, k);
    }
    chain := DescendingEnds(blockers, id);
  }

  lemma {:induction false} DescendingEnds(blockers: map<Str, Str>, id: Str) returns (chain: seq<Str>)
    requires forall k :: k in blockers ==> Less(blockers[k], k)
    ensures Chain(blockers, chain) && chain[0] == id && chain[|chain| - 1] !in blockers
    decreases |Below(blockers, id)|, if id in blockers then 1 else 0
  {
    chain := [id];
    if id in blockers {
      var next := blockers[id];
      BelowShrinks(blockers, next, id);
      var rest := DescendingEnds(blockers, next);
      chain := [id] + rest;
      assert forall k :: 0 < k < |chain| ==> chain[k] == rest[k - 1];
    }
  }

  lemma BelowShrinks(blockers: map<Str, Str>, next: Str, id: Str)
    requires Less(next, id)
    ensures Below(blockers, next) <= Below(blockers, id)
    ensures next in blockers ==> |Below(blockers, next)| < |Below(blockers, id)|
    ensures |Below(blockers, next)| <= |Below(blockers, id)|
  {
    forall k | k in Below(blockers, next)
      ensures k in Below(blockers, id)
    {
      LessTransitive(k, next, id);
    }
    LessIrreflexive(next);
    SubsetSize(Below(blockers, next), Below(blockers, id));
    if next in blockers {
      assert next in Below(blockers, id) && next !in Below(blockers, next);
      SubsetSize(Below(blockers, next) + {next}, Below(blockers, id));
    }
  }

  lemma {:induction false} SubsetSize(a: set<Str>, b: set<Str>)
    requires a <= b
    ensures |a| <= |b|
  {
    if a != {} {
      var x :| x in a;
      SubsetSize(a - {x}, b - {x});
    }
  }

  /** No chain of blockers comes back to a node it has left. */
  lemma {:induction false} ChainDescends(
    overlaps: seq<Overlap>, minConfidence: real, blockers: map<Str, Str>, chain: seq<Str>, i: nat, j: nat)
    requires BlockerMap(overlaps, minConfidence, blockers) && Chain(blockers, chain) && i < j < |chain|
    ensures Less(chain[j], chain[i])
    decreases j - i
  {
    BlockersSmaller(overlaps, minConfidence, blockers, chain[i]);
    if i + 1 < j {
      ChainDescends(overlaps, minConfidence, blockers, chain, i + 1, j);
      LessTransitive(chain[j], chain[i + 1], chain[i]);
    }
  }
}
