/**
 The sweep for graph structure in worker-bound payloads
 (src/domains/agent-execution/dag-exclusion.ts). A payload is a graph of objects: they may be
 shared and may refer back to themselves.
 */
module DagExclusion {
  import opened Text
  import opened Wrappers

  /** Code units of a text in ASCII. */
  function Ascii(s: string): Str {
    seq(|s|, i requires 0 <= i < |s| => s[i] as int % 0x10000)
  }

  function TopologyKeys(): set<Str> {
    {
      Ascii("depends_on"), Ascii("dependson"), Ascii("dependencies"), Ascii("dag"), Ascii("dag_id"), Ascii("nodes"),
      Ascii("edges"), Ascii("ready_frontier"), Ascii("frontier"), Ascii("downstream"), Ascii("upstream"),
      Ascii("successors"), Ascii("predecessors"), Ascii("topology"), Ascii("graph"), Ascii("sibling_nodes"),
      Ascii("node_graph")
    }
  }

  /** Lower case of ASCII letters, which is all that matters for the keys above. */
  function Lower(s: Str): Str {
    seq(|s|, i requires 0 <= i < |s| => if 0x41 <= s[i] <= 0x5A then s[i] + 0x20 else s[i])
  }

  predicate IsTopologyKey(key: Str) {
    Lower(key) in TopologyKeys()
  }

  // ---- payloads

  datatype Value = Primitive | Ref(id: nat)

  datatype Entry = Entry(key: Str, value: Value)

  /** `Instance` is any object that is neither a plain record nor an array. */
  datatype Object = Plain(entries: seq<Entry>) | List(items: seq<Value>) | Instance

  type Heap = map<nat, Object>

  predicate IsContainer(heap: Heap, v: Value) {
    v.Ref? && v.id in heap && !heap[v.id].Instance?
  }

  /** The item or property at a place; a property is known by its key. */
  datatype Step = Property(i: nat, key: Str) | Index(i: nat)

  /** `w` is the property or item of `v` that the step names. */
  ghost predicate StepsTo(heap: Heap, v: Value, step: Step, w: Value) {
    && IsContainer(heap, v)
    && match heap[v.id]
       case Plain(entries) => step.Property? && step.i < |entries| && entries[step.i] == Entry(step.key, w)
       case List(items) => step.Index? && step.i < |items| && items[step.i] == w
  }

  /** The steps lead from `v` to a property with a topology key. */
  ghost predicate LeadsToTopology(heap: Heap, v: Value, steps: seq<Step>)
    decreases |steps|
  {
    && |steps| > 0
    && if |steps| == 1 then steps[0].Property? && IsTopologyKey(steps[0].key)
      && exists w :: StepsTo(heap, v, steps[0], w)
       else exists w :: StepsTo(heap, v, steps[0], w) && LeadsToTopology(heap, w, steps[1..])
  }

  /** The same without coming twice to an object, or at all to one of `on`. */
  ghost predicate LeadsSimply(heap: Heap, v: Value, steps: seq<Step>, on: set<nat>)
    decreases |steps|
  {
    && |steps| > 0 && v.Ref? && v.id !in on
    && if |steps| == 1 then steps[0].Property? && IsTopologyKey(steps[0].key)
      && exists w :: StepsTo(heap, v, steps[0], w)
       else exists w :: StepsTo(heap, v, steps[0], w) && LeadsSimply(heap, w, steps[1..], on + {v.id})
  }

  /** In the order in which properties and items are gone through; a prefix comes before what it begins. */
  predicate Before(p: seq<Step>, q: seq<Step>)
    decreases |p|
  {
    |q| > 0 && (|p| == 0 || p[0].i < q[0].i || (p[0].i == q[0].i && Before(p[1..], q[1..])))
  }

  /** No simple way to a topology key comes before this one. */
  ghost predicate IsFirst(heap: Heap, v: Value, hit: seq<Step>, on: set<nat>) {
    forall p :: Before(p, hit) ==> !LeadsSimply(heap, v, p, on)
  }

  // ---- the search

  /** Neither the object nor, within `seen`, anything below it has a topology key. */
  ghost predicate Swept(heap: Heap, id: nat, seen: set<nat>) {
    && id in heap
    && match heap[id]
       case Plain(entries) => EntriesSwept(heap, entries, |entries|, seen)
       case List(items) => ItemsSwept(heap, items, |items|, seen)
       case Instance => false
  }

  ghost predicate Known(heap: Heap, v: Value, seen: set<nat>) {
    IsContainer(heap, v) ==> v.id in seen
  }

  ghost predicate EntriesSwept(heap: Heap, entries: seq<Entry>, n: nat, seen: set<nat>)
    requires n <= |entries|
  {
    forall i :: 0 <= i < n ==> !IsTopologyKey(entries[i].key) && Known(heap, entries[i].value, seen)
  }

  ghost predicate ItemsSwept(heap: Heap, items: seq<Value>, n: nat, seen: set<nat>)
    requires n <= |items|
  {
    forall i :: 0 <= i < n ==> Known(heap, items[i], seen)
  }

  /** Everything seen since `before` is swept. */
  ghost predicate AllSwept(heap: Heap, before: set<nat>, seen: set<nat>) {
    before <= seen && forall id :: id in seen && id !in before ==> Swept(heap, id, seen)
  }

  lemma SweptGrows(heap: Heap, before: set<nat>, seen: set<nat>, more: set<nat>)
    requires AllSwept(heap, before, seen) && AllSwept(heap, seen, more)
    ensures AllSwept(heap, before, more)
  {
    forall id | id in more && id !in before
      ensures Swept(heap, id, more)
    {
      if id in seen {
        assert Swept(heap, id, seen);
      }
    }
  }

  /** What one call of the search, with its shared set, has achieved; `on` are the objects it is inside of. */
  ghost predicate Searched(
    heap: Heap, v: Value, on: set<nat>, before: set<nat>, hit: Option<seq<Step>>, seen: set<nat>)
  {
    match hit
    case None => AllSwept(heap, before, seen) && Known(heap, v, seen)
    case Some(steps) => LeadsToTopology(heap, v, steps) && IsFirst(heap, v, steps, on)
  }

  /** The set of objects seen only grows, within the heap; the search ends because of it. */
  method Search(heap: Heap, v: Value, ghost on: set<nat>, seen: set<nat>)
    returns (hit: Option<seq<Step>>, seen': set<nat>)
    requires seen <= heap.Keys && AllSwept(heap, on, seen)
    ensures seen <= seen' <= heap.Keys
    ensures Searched(heap, v, on, seen, hit, seen')
    decreases |heap.Keys - seen|, 1
  {
    if !IsContainer(heap, v) {
      return None, seen;
    }
    if v.id in seen {
      return None, seen;
    }
    seen' := seen + {v.id};
    assert heap.Keys - seen' < heap.Keys - seen;
    SmallerSet(heap.Keys - seen', heap.Keys - seen);
    Entered(heap, on, seen, v.id);
    match heap[v.id] {
      case Plain(entries) => hit, seen' := SearchEntries(heap, v.id, entries, on, seen');
      case List(items) => hit, seen' := SearchItems(heap, v.id, items, on, seen');
    }
    if hit.None? {
      Completed(heap, seen, v.id, seen');
    }
  }

  lemma SmallerSet(a: set<nat>, b: set<nat>)
    requires a < b
    ensures |a| < |b|
  {
    assert b == a + (b - a);
  }

  lemma Entered(heap: Heap, on: set<nat>, seen: set<nat>, id: nat)
    requires AllSwept(heap, on, seen)
    ensures AllSwept(heap, on + {id}, seen + {id})
  {
    forall o | o in seen + {id} && o !in on + {id}
      ensures Swept(heap, o, seen + {id})
    {
      assert Swept(heap, o, seen);
    }
  }

  lemma Completed(heap: Heap, before: set<nat>, id: nat, seen: set<nat>)
    requires AllSwept(heap, before + {id}, seen) && Swept(heap, id, seen)
    ensures AllSwept(heap, before, seen)
  {
  }

  method SearchItems(heap: Heap, id: nat, items: seq<Value>, ghost on: set<nat>, seen: set<nat>)
    returns (hit: Option<seq<Step>>, seen': set<nat>)
    requires seen <= heap.Keys && id in seen && heap[id] == List(items) && AllSwept(heap, on + {id}, seen)
    ensures seen <= seen' <= heap.Keys
    ensures match hit
      case None => AllSwept(heap, seen, seen') && Swept(heap, id, seen')
      case Some(steps) => LeadsToTopology(heap, Ref(id), steps) && IsFirst(heap, Ref(id), steps, on)
    decreases |heap.Keys - seen|, 2
  {
    seen' := seen;
    for index := 0 to |items|
      invariant seen <= seen' <= heap.Keys
      invariant AllSwept(heap, seen, seen') && AllSwept(heap, on + {id}, seen') && ItemsSwept(heap, items, index, seen')
    {
      ghost var before := seen';
      SubsetSize(heap.Keys - seen', heap.Keys - seen);
      hit, seen' := Search(heap, items[index], on + {id}, seen');
      if hit.Some? {
        Prepend(heap, Ref(id), Index(index), items[index], hit.value);
        FirstItem(heap, id, items, index, on, before, hit.value);
        return Some([Index(index)] + hit.value), seen';
      }
      SweptGrows(heap, seen, before, seen');
      SweptGrows(heap, on + {id}, before, seen');
    }
    hit := None;
  }

  method SearchEntries(heap: Heap, id: nat, entries: seq<Entry>, ghost on: set<nat>, seen: set<nat>)
    returns (hit: Option<seq<Step>>, seen': set<nat>)
    requires seen <= heap.Keys && id in seen && heap[id] == Plain(entries) && AllSwept(heap, on + {id}, seen)
    ensures seen <= seen' <= heap.Keys
    ensures match hit
      case None => AllSwept(heap, seen, seen') && Swept(heap, id, seen')
      case Some(steps) => LeadsToTopology(heap, Ref(id), steps) && IsFirst(heap, Ref(id), steps, on)
    decreases |heap.Keys - seen|, 2
  {
    seen' := seen;
    for i := 0 to |entries|
      invariant seen <= seen' <= heap.Keys
      invariant AllSwept(heap, seen, seen') && AllSwept(heap, on + {id}, seen') && EntriesSwept(heap, entries, i, seen')
    {
      var entry := entries[i];
      var step := Property(i, entry.key);
      if IsTopologyKey(entry.key) {
        assert StepsTo(heap, Ref(id), step, entry.value);
        Found(heap, Ref(id), step, entry.value);
        FirstKey(heap, id, entries, i, on, seen');
        return Some([step]), seen';
      }
      ghost var before := seen';
      SubsetSize(heap.Keys - seen', heap.Keys - seen);
      hit, seen' := Search(heap, entry.value, on + {id}, seen');
      if hit.Some? {
        Prepend(heap, Ref(id), step, entry.value, hit.value);
        FirstEntry(heap, id, entries, i, on, before, hit.value);
        return Some([step] + hit.value), seen';
      }
      SweptGrows(heap, seen, before, seen');
      SweptGrows(heap, on + {id}, before, seen');
    }
    hit := None;
  }

  // ---- the first hit

  /** Avoiding fewer objects allows more. */
  lemma {:induction false} AvoidLess(heap: Heap, v: Value, p: seq<Step>, on: set<nat>, less: set<nat>)
    requires LeadsSimply(heap, v, p, on) && less <= on
    ensures LeadsSimply(heap, v, p, less)
    decreases |p|
  {
    if |p| > 1 {
      var w :| StepsTo(heap, v, p[0], w) && LeadsSimply(heap, w, p[1..], on + {v.id});
      AvoidLess(heap, w, p[1..], on + {v.id}, less + {v.id});
    }
  }

  /** From a value known to a set that is swept but for `on`, nothing leads to a topology key without touching `on`. */
  lemma {:induction false} SweptAvoiding(heap: Heap, on: set<nat>, seen: set<nat>, v: Value, p: seq<Step>)
    requires AllSwept(heap, on, seen) && Known(heap, v, seen)
    ensures !LeadsSimply(heap, v, p, on)
    decreases |p|
  {
    if |p| > 0 && v.Ref? && v.id !in on {
      forall w | StepsTo(heap, v, p[0], w)
        ensures !(p[0].Property? && IsTopologyKey(p[0].key)) && !LeadsSimply(heap, w, p[1..], on + {v.id})
      {
        SweptStep(heap, on, seen, v, p[0], w);
        SweptAvoiding(heap, on, seen, w, p[1..]);
        if LeadsSimply(heap, w, p[1..], on + {v.id}) {
          AvoidLess(heap, w, p[1..], on + {v.id}, on);
        }
      }
    }
  }

  lemma SweptStep(heap: Heap, on: set<nat>, seen: set<nat>, v: Value, step: Step, w: Value)
    requires AllSwept(heap, on, seen) && Known(heap, v, seen) && v.Ref? && v.id !in on && StepsTo(heap, v, step, w)
    ensures Known(heap, w, seen) && !(step.Property? && IsTopologyKey(step.key))
  {
    assert Swept(heap, v.id, seen);
  }

  predicate EndsHere(p: seq<Step>) {
    |p| == 1 && p[0].Property? && IsTopologyKey(p[0].key)
  }

  lemma SplitLead(heap: Heap, v: Value, p: seq<Step>, on: set<nat>)
    requires LeadsSimply(heap, v, p, on)
    ensures exists w :: StepsTo(heap, v, p[0], w) && (EndsHere(p) || LeadsSimply(heap, w, p[1..], on + {v.id}))
  {
  }

  /** A way through an earlier entry, all of which are swept. */
  lemma EarlierEntry(heap: Heap, id: nat, entries: seq<Entry>, i: nat, on: set<nat>, seen: set<nat>, p: seq<Step>)
    requires id in heap && heap[id] == Plain(entries) && i <= |entries|
    requires AllSwept(heap, on + {id}, seen) && EntriesSwept(heap, entries, i, seen)
    requires |p| > 0 && p[0].i < i
    ensures !LeadsSimply(heap, Ref(id), p, on)
  {
    if LeadsSimply(heap, Ref(id), p, on) {
      SplitLead(heap, Ref(id), p, on);
      SweptAvoiding(heap, on + {id}, seen, entries[p[0].i].value, p[1..]);
    }
  }

  lemma FirstKey(heap: Heap, id: nat, entries: seq<Entry>, i: nat, on: set<nat>, seen: set<nat>)
    requires id in heap && heap[id] == Plain(entries) && i < |entries|
    requires AllSwept(heap, on + {id}, seen) && EntriesSwept(heap, entries, i, seen)
    ensures IsFirst(heap, Ref(id), [Property(i, entries[i].key)], on)
  {
    var hit := [Property(i, entries[i].key)];
    assert |hit[1..]| == 0;
    forall p: seq<Step> | Before(p, hit)
      ensures !LeadsSimply(heap, Ref(id), p, on)
    {
      assert |p| > 0 ==> !Before(p[1..], hit[1..]);
      if |p| > 0 {
        EarlierEntry(heap, id, entries, i, on, seen, p);
      }
    }
  }

  lemma FirstEntry(heap: Heap, id: nat, entries: seq<Entry>, i: nat, on: set<nat>, seen: set<nat>, hit: seq<Step>)
    requires id in heap && heap[id] == Plain(entries) && i < |entries| && !IsTopologyKey(entries[i].key)
    requires AllSwept(heap, on + {id}, seen) && EntriesSwept(heap, entries, i, seen)
    requires IsFirst(heap, entries[i].value, hit, on + {id})
    ensures IsFirst(heap, Ref(id), [Property(i, entries[i].key)] + hit, on)
  {
    var whole := [Property(i, entries[i].key)] + hit;
    assert whole[1..] == hit;
    forall p: seq<Step> | Before(p, whole)
      ensures !LeadsSimply(heap, Ref(id), p, on)
    {
      if |p| > 0 && p[0].i < i {
        EarlierEntry(heap, id, entries, i, on, seen, p);
      } else if LeadsSimply(heap, Ref(id), p, on) {
        SplitLead(heap, Ref(id), p, on);
      }
    }
  }

  lemma FirstItem(heap: Heap, id: nat, items: seq<Value>, i: nat, on: set<nat>, seen: set<nat>, hit: seq<Step>)
    requires id in heap && heap[id] == List(items) && i < |items|
    requires AllSwept(heap, on + {id}, seen) && ItemsSwept(heap, items, i, seen)
    requires IsFirst(heap, items[i], hit, on + {id})
    ensures IsFirst(heap, Ref(id), [Index(i)] + hit, on)
  {
    var whole := [Index(i)] + hit;
    assert whole[1..] == hit;
    forall p: seq<Step> | Before(p, whole)
      ensures !LeadsSimply(heap, Ref(id), p, on)
    {
      if LeadsSimply(heap, Ref(id), p, on) {
        SplitLead(heap, Ref(id), p, on);
        if p[0].i < i {
          SweptAvoiding(heap, on + {id}, seen, items[p[0].i], p[1..]);
        }
      }
    }
  }

  lemma {:induction false} SubsetSize(a: set<nat>, b: set<nat>)
    requires a <= b
    ensures |a| <= |b|
  {
    assert b == a + (b - a);
  }

  lemma Found(heap: Heap, v: Value, step: Step, w: Value)
    requires step.Property? && IsTopologyKey(step.key) && StepsTo(heap, v, step, w)
    ensures LeadsToTopology(heap, v, [step])
  {
  }

  lemma Prepend(heap: Heap, v: Value, step: Step, w: Value, steps: seq<Step>)
    requires StepsTo(heap, v, step, w) && LeadsToTopology(heap, w, steps)
    ensures LeadsToTopology(heap, v, [step] + steps)
  {
    assert ([step] + steps)[1..] == steps;
  }

  /** From a value known to a fully swept set no steps lead to a topology key, however long they are. */
  lemma {:induction false} SweptIsFree(heap: Heap, seen: set<nat>, v: Value, steps: seq<Step>)
    requires AllSwept(heap, {}, seen) && Known(heap, v, seen)
    ensures !LeadsToTopology(heap, v, steps)
    decreases |steps|
  {
    if |steps| > 0 {
      forall w | StepsTo(heap, v, steps[0], w)
        ensures !(steps[0].Property? && IsTopologyKey(steps[0].key)) && !LeadsToTopology(heap, w, steps[1..])
      {
        SweptStep(heap, {}, seen, v, steps[0], w);
        SweptIsFree(heap, seen, w, steps[1..]);
      }
    }
  }

  /**
   The search ends on every payload, cyclic or shared. It returns nothing exactly when no
   object reachable from the root has a topology key; otherwise steps that lead to one, before
   which no others do in the order of traversal, save by going through an object twice.
   */
  method FindDagTopology(heap: Heap, root: Value) returns (hit: Option<seq<Step>>)
    ensures hit.None? <==> forall steps :: !LeadsToTopology(heap, root, steps)
    ensures hit.Some? ==> LeadsToTopology(heap, root, hit.value) && IsFirst(heap, root, hit.value, {})
  {
    var seen;
    hit, seen := Search(heap, root, {}, {});
    if hit.None? {
      forall steps
        ensures !LeadsToTopology(heap, root, steps)
      {
        SweptIsFree(heap, seen, root, steps);
      }
    } else {
      ghost var steps := hit.value;
      assert LeadsToTopology(heap, root, steps);
    }
  }
}
