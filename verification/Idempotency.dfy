/**
 Caller-scoped idempotency at intake (src/domains/work-intake/idempotency.ts) and the payload
 identity it rests on.
 */
module Idempotency {
  import opened Text
  import opened Wrappers
  import opened JsonString
  import opened Canonical
  import opened CanonicalIdentity

  // ---- the storage key

  function Part(p: Str): Str {
    Decimal(|p|) + [COLON] + p
  }

  /** Length-prefixed components joined by bars. */
  function ScopeKey(callerId: Str, route: Str, key: Str): Str {
    Part(callerId) + ([BAR] + (Part(route) + ([BAR] + Part(key))))
  }

  lemma PartPrefixFree(a: Str, r: Str, b: Str, s: Str)
    requires Part(a) + r == Part(b) + s
    ensures a == b && r == s
  {
    Associate(Decimal(|a|) + [COLON], a, r);
    Associate(Decimal(|b|) + [COLON], b, s);
    SplitAtFirst(COLON, Decimal(|a|), a + r, Decimal(|b|), b + s);
    DecimalInjective(|a|, |b|);
    assert a == (a + r)[..|a|] && b == (b + s)[..|b|];
    assert r == (a + r)[|a|..] && s == (b + s)[|b|..];
  }

  /** No two different triples of strings share a storage key. */
  lemma ScopeKeyInjective(c: Str, r: Str, k: Str, c': Str, r': Str, k': Str)
    requires ScopeKey(c, r, k) == ScopeKey(c', r', k')
    ensures c == c' && r == r' && k == k'
  {
    PartPrefixFree(c, [BAR] + (Part(r) + ([BAR] + Part(k))), c', [BAR] + (Part(r') + ([BAR] + Part(k'))));
    Cancel([BAR], Part(r) + ([BAR] + Part(k)), Part(r') + ([BAR] + Part(k')));
    PartPrefixFree(r, [BAR] + Part(k), r', [BAR] + Part(k'));
    Cancel([BAR], Part(k), Part(k'));
    assert Part(k) + [] == Part(k) && Part(k') + [] == Part(k');
    PartPrefixFree(k, [], k', []);
  }

  // ---- submissions and their hash

  datatype Unit = Unit(id: Str, intent: Str, changeSpec: Str, criteria: seq<Str>, dependsOn: seq<Str>)

  datatype Shape = SingleUnit | HandAuthoredDag

  /** A submission as validation returns it. */
  datatype Submission = Submission(repo: Str, branch: Str, shape: Shape, units: seq<Unit>)

  /** `repo`, `branch`, `shape`, `units` */
  const REPO: Str := [0x72, 0x65, 0x70, 0x6F]
  const BRANCH: Str := [0x62, 0x72, 0x61, 0x6E, 0x63, 0x68]
  const SHAPE: Str := [0x73, 0x68, 0x61, 0x70, 0x65]
  const UNITS: Str := [0x75, 0x6E, 0x69, 0x74, 0x73]
  /** `id`, `intent`, `change_spec`, `acceptance_criteria`, `depends_on` */
  const ID: Str := [0x69, 0x64]
  const INTENT: Str := [0x69, 0x6E, 0x74, 0x65, 0x6E, 0x74]
  const CHANGE_SPEC: Str := [0x63, 0x68, 0x61, 0x6E, 0x67, 0x65, 0x5F, 0x73, 0x70, 0x65, 0x63]
  const ACCEPTANCE_CRITERIA: Str :=
    [0x61, 0x63, 0x63, 0x65, 0x70, 0x74, 0x61, 0x6E, 0x63, 0x65, 0x5F, 0x63, 0x72, 0x69, 0x74, 0x65, 0x72, 0x69, 0x61]
  const DEPENDS_ON: Str := [0x64, 0x65, 0x70, 0x65, 0x6E, 0x64, 0x73, 0x5F, 0x6F, 0x6E]
  /** `single_unit`, `hand_authored_dag` */
  const SINGLE_UNIT: Str := [0x73, 0x69, 0x6E, 0x67, 0x6C, 0x65, 0x5F, 0x75, 0x6E, 0x69, 0x74]
  const HAND_AUTHORED_DAG: Str :=
    [0x68, 0x61, 0x6E, 0x64, 0x5F, 0x61, 0x75, 0x74, 0x68, 0x6F, 0x72, 0x65, 0x64, 0x5F, 0x64, 0x61, 0x67]

  function Strings(s: seq<Str>): Json {
    Array(seq(|s|, i requires 0 <= i < |s| => String(s[i])))
  }

  function UnitJson(u: Unit): Json {
    Object([
      Field(ID, String(u.id)),
      Field(INTENT, String(u.intent)),
      Field(CHANGE_SPEC, String(u.changeSpec)),
      Field(ACCEPTANCE_CRITERIA, Strings(u.criteria)),
      Field(DEPENDS_ON, Strings(u.dependsOn))])
  }

  function Units(units: seq<Unit>): Json {
    Array(seq(|units|, i requires 0 <= i < |units| => UnitJson(units[i])))
  }

  /** The normalized object that is hashed. */
  function SubmissionJson(s: Submission): Json {
    Object([
      Field(REPO, String(s.repo)),
      Field(BRANCH, String(s.branch)),
      Field(SHAPE, String(if s.shape.SingleUnit? then SINGLE_UNIT else HAND_AUTHORED_DAG)),
      Field(UNITS, Units(s.units))])
  }

  lemma KeysDistinct()
    ensures |ID| == 2 && |INTENT| == 6 && |CHANGE_SPEC| == 11 && |ACCEPTANCE_CRITERIA| == 19 && |DEPENDS_ON| == 10
    ensures |REPO| == 4 && |BRANCH| == 6 && |SHAPE| == 5 && |UNITS| == 5 && SHAPE[0] != UNITS[0]
  {
  }

  lemma StringsFit(s: seq<Str>, n: int)
    requires n >= 1
    ensures IsValue(Strings(s)) && Printable(Strings(s)) && NestedAtMost(Strings(s), n)
  {
  }

  lemma UnitFits(u: Unit, n: int)
    requires n >= 2
    ensures IsValue(UnitJson(u)) && Printable(UnitJson(u)) && NestedAtMost(UnitJson(u), n)
  {
    KeysDistinct();
    StringsFit(u.criteria, n - 1);
    StringsFit(u.dependsOn, n - 1);
  }

  lemma UnitsFit(units: seq<Unit>, n: int)
    requires n >= 3
    ensures IsValue(Units(units)) && Printable(Units(units)) && NestedAtMost(Units(units), n)
  {
    forall i | 0 <= i < |units|
      ensures IsValue(UnitJson(units[i])) && Printable(UnitJson(units[i])) && NestedAtMost(UnitJson(units[i]), n - 1)
    {
      UnitFits(units[i], n - 1);
    }
  }

  lemma SubmissionIsValue(s: Submission)
    ensures IsValue(SubmissionJson(s))
  {
    KeysDistinct();
    UnitsFit(s.units, 31);
  }

  /** A normalized submission is always canonicalizable. */
  lemma SubmissionFits(s: Submission)
    ensures IsValue(SubmissionJson(s)) && Canonicalize(SubmissionJson(s), 0).Ok?
  {
    SubmissionIsValue(s);
    UnitsFit(s.units, 31);
    assert Printable(SubmissionJson(s));
    assert NestedAtMost(SubmissionJson(s), 32);
    CanonicalizeSucceeds(SubmissionJson(s), 0);
  }

  function PayloadHash(s: Submission): Digest<Str> {
    SubmissionFits(s);
    Sha256(Canonicalize(SubmissionJson(s), 0).text)
  }

  lemma StringsSame(s: seq<Str>, t: seq<Str>)
    requires IsValue(Strings(s)) && IsValue(Strings(t)) && Same(Strings(s), Strings(t))
    ensures s == t
  {
    forall i | 0 <= i < |s|
      ensures s[i] == t[i]
    {
      assert Same(Strings(s).items[i], Strings(t).items[i]);
    }
  }

  lemma FieldSame(v: Json, w: Json, i: nat)
    requires IsValue(v) && IsValue(w) && Same(v, w) && v.Object? && w.Object?
    requires i < |v.fields| && i < |w.fields| && Paired(v.fields, w.fields, i, i)
    ensures Same(v.fields[i].value, w.fields[i].value)
  {
  }

  lemma UnitSame(u: Unit, w: Unit)
    requires IsValue(UnitJson(u)) && IsValue(UnitJson(w)) && Same(UnitJson(u), UnitJson(w))
    ensures u == w
  {
    var a, b := UnitJson(u), UnitJson(w);
    FieldSame(a, b, 0);
    FieldSame(a, b, 1);
    FieldSame(a, b, 2);
    FieldSame(a, b, 3);
    FieldSame(a, b, 4);
    StringsSame(u.criteria, w.criteria);
    StringsSame(u.dependsOn, w.dependsOn);
  }

  lemma UnitsSame(s: seq<Unit>, t: seq<Unit>)
    requires IsValue(Units(s)) && IsValue(Units(t)) && Same(Units(s), Units(t))
    ensures s == t
  {
    forall i | 0 <= i < |s|
      ensures s[i] == t[i]
    {
      assert Same(Units(s).items[i], Units(t).items[i]);
      UnitSame(s[i], t[i]);
    }
  }

  lemma SubmissionSame(s: Submission, t: Submission)
    requires IsValue(SubmissionJson(s)) && IsValue(SubmissionJson(t)) && Same(SubmissionJson(s), SubmissionJson(t))
    ensures s == t
  {
    var v, w := SubmissionJson(s), SubmissionJson(t);
    FieldSame(v, w, 0);
    FieldSame(v, w, 1);
    FieldSame(v, w, 2);
    FieldSame(v, w, 3);
    UnitsSame(s.units, t.units);
    assert |SINGLE_UNIT| != |HAND_AUTHORED_DAG|;
  }

  /** Two submissions have the same payload hash exactly when they are the same submission. */
  lemma PayloadHashIdentifies(s: Submission, t: Submission)
    ensures PayloadHash(s) == PayloadHash(t) <==> s == t
  {
    if PayloadHash(s) == PayloadHash(t) {
      SubmissionFits(s);
      SubmissionFits(t);
      CanonicalTextIdentifies(SubmissionJson(s), SubmissionJson(t));
      SubmissionSame(s, t);
    }
  }
}
