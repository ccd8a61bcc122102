/** The canonical printer behind payload identity (src/domains/work-intake/payload-hash.ts). */
module Canonical {
  import opened Text
  import opened JsonString

  const MAX_CANONICAL_DEPTH := 32

  /**
   A JavaScript value. A finite number stands for the text `JSON.stringify` gives it; an object
   lists its own enumerable properties in insertion order; `Unsupported` covers functions,
   symbols and big integers.
   */
  datatype Json =
    | Null
    | Bool(b: bool)
    | Number(text: Str)
    | NonFinite
    | String(s: Str)
    | Array(items: seq<Json>)
    | Object(fields: seq<Field>)
    | Undefined
    | Unsupported

  datatype Field = Field(key: Str, value: Json)

  predicate IsNumberUnit(c: CodeUnit) {
    IsDigit(c) || c == 0x2B || c == 0x2D || c == 0x2E || c == 0x45 || c == 0x65
  }

  predicate IsNumberText(t: Str) {
    |t| > 0 && (IsDigit(t[0]) || t[0] == 0x2D) && forall i :: 0 <= i < |t| ==> IsNumberUnit(t[i])
  }

  predicate DistinctKeys(fields: seq<Field>) {
    forall i, j :: 0 <= i < j < |fields| ==> fields[i].key != fields[j].key
  }

  /** Number texts are number texts, and no object has two properties of one name. */
  ghost predicate IsValue(v: Json) {
    match v
    case Number(t) => IsNumberText(t)
    case Array(items) => forall i :: 0 <= i < |items| ==> IsValue(items[i])
    case Object(fields) => DistinctKeys(fields) && forall i :: 0 <= i < |fields| ==> IsValue(fields[i].value)
    case _ => true
  }

  // ---- properties in canonical order

  function Keys(fields: seq<Field>): (r: seq<Str>)
    ensures |r| == |fields| && forall i :: 0 <= i < |fields| ==> r[i] == fields[i].key
  {
    seq(|fields|, i requires 0 <= i < |fields| => fields[i].key)
  }

  /** `record[key]` */
  function Find(fields: seq<Field>, key: Str): (r: Json)
    requires key in Keys(fields)
    ensures Field(key, r) in fields
  {
    if fields[0].key == key then fields[0].value
    else
      assert Keys(fields)[1..] == Keys(fields[1..]);
      Find(fields[1..], key)
  }

  function InOrder(fields: seq<Field>, keys: seq<Str>): (r: seq<Field>)
    requires forall k :: k in keys ==> k in Keys(fields)
    ensures forall f :: f in r ==> f in fields
  {
    if |keys| == 0 then []
    else
      var value := Find(fields, keys[0]);
      if value.Undefined? then InOrder(fields, keys[1..])
      else [Field(keys[0], value)] + InOrder(fields, keys[1..])
  }

  lemma SortKeepsKeys(keys: seq<Str>)
    ensures forall k :: k in Sort(keys) <==> k in keys
  {
    forall k
      ensures k in Sort(keys) <==> k in keys
    {
      assert k in multiset(Sort(keys)) <==> k in multiset(keys);
    }
  }

  /** The defined properties, sorted by key. */
  function CanonicalFields(fields: seq<Field>): (r: seq<Field>)
    ensures forall i :: 0 <= i < |r| ==> r[i] in fields
  {
    SortKeepsKeys(Keys(fields));
    InOrder(fields, Sort(Keys(fields)))
  }

  datatype Exception = RangeError | TypeError
  datatype Canon = Ok(text: Str) | Throws(exception: Exception)
  datatype Canons = Oks(texts: seq<Str>) | Threw(exception: Exception)

  const NULL_TEXT: Str := [0x6E, 0x75, 0x6C, 0x6C]
  const TRUE_TEXT: Str := [0x74, 0x72, 0x75, 0x65]
  const FALSE_TEXT: Str := [0x66, 0x61, 0x6C, 0x73, 0x65]
  const COMMA: CodeUnit := 0x2C
  const OPEN_BRACKET: CodeUnit := 0x5B
  const CLOSE_BRACKET: CodeUnit := 0x5D
  const OPEN_BRACE: CodeUnit := 0x7B
  const CLOSE_BRACE: CodeUnit := 0x7D

  function Join(texts: seq<Str>): Str {
    if |texts| == 0 then []
    else if |texts| == 1 then texts[0]
    else texts[0] + [COMMA] + Join(texts[1..])
  }

  function Wrap(open: CodeUnit, texts: seq<Str>, close: CodeUnit): Str {
    [open] + Join(texts) + [close]
  }

  /** One property of a printed object. */
  function Entry(key: Str, text: Str): Str {
    Quote(key) + [COLON] + text
  }

  function Canonicalize(v: Json, depth: nat): Canon
    decreases v, 1, 0
  {
    if depth > MAX_CANONICAL_DEPTH then Throws(RangeError)
    else
      match v
      case Null => Ok(NULL_TEXT)
      case Number(t) => Ok(t)
      case NonFinite => Throws(TypeError)
      case Bool(b) => Ok(if b then TRUE_TEXT else FALSE_TEXT)
      case String(s) => Ok(Quote(s))
      case Array(items) =>
        (match CanonicalizeItems(v, items, depth + 1)
         case Oks(texts) => Ok(Wrap(OPEN_BRACKET, texts, CLOSE_BRACKET))
         case Threw(e) => Throws(e))
      case Object(fields) =>
        (match CanonicalizeEntries(v, CanonicalFields(fields), depth + 1)
         case Oks(texts) => Ok(Wrap(OPEN_BRACE, texts, CLOSE_BRACE))
         case Threw(e) => Throws(e))
      case Undefined => Throws(TypeError)
      case Unsupported => Throws(TypeError)
  }

  function CanonicalizeItems(v: Json, items: seq<Json>, depth: nat): (r: Canons)
    requires forall i :: 0 <= i < |items| ==> items[i] < v
    decreases v, 0, |items|
  {
    if |items| == 0 then Oks([])
    else
      match Canonicalize(items[0], depth)
      case Ok(text) =>
        (match CanonicalizeItems(v, items[1..], depth)
         case Oks(texts) => Oks([text] + texts)
         case Threw(e) => Threw(e))
      case Throws(e) => Threw(e)
  }

  function CanonicalizeEntries(v: Json, fields: seq<Field>, depth: nat): (r: Canons)
    requires forall i :: 0 <= i < |fields| ==> fields[i].value < v
    decreases v, 0, |fields|
  {
    if |fields| == 0 then Oks([])
    else
      match Canonicalize(fields[0].value, depth)
      case Ok(text) =>
        (match CanonicalizeEntries(v, fields[1..], depth)
         case Oks(texts) => Oks([Entry(fields[0].key, text)] + texts)
         case Threw(e) => Threw(e))
      case Throws(e) => Threw(e)
  }

  // ---- when it succeeds

  /** Nothing that would be printed is undefined, unsupported or a non-finite number. */
  ghost predicate Printable(v: Json) {
    match v
    case Array(items) => forall i :: 0 <= i < |items| ==> Printable(items[i])
    case Object(fields) => forall i :: 0 <= i < |fields| ==> fields[i].value.Undefined? || Printable(fields[i].value)
    case _ => !v.NonFinite? && !v.Undefined? && !v.Unsupported?
  }

  /** Arrays and objects are nested at most `n` deep, not counting undefined properties. */
  ghost predicate NestedAtMost(v: Json, n: int) {
    && n >= 0
    && match v
       case Array(items) => forall i :: 0 <= i < |items| ==> NestedAtMost(items[i], n - 1)
       case Object(fields) =>
         forall i :: 0 <= i < |fields| ==> fields[i].value.Undefined? || NestedAtMost(fields[i].value, n - 1)
       case _ => true
  }

  ghost predicate Fits(v: Json, depth: nat) {
    Printable(v) && NestedAtMost(v, MAX_CANONICAL_DEPTH - depth)
  }

  lemma {:induction false} ItemsSucceed(v: Json, items: seq<Json>, depth: nat)
    requires forall i :: 0 <= i < |items| ==> items[i] < v
    ensures CanonicalizeItems(v, items, depth).Oks? <==>
      forall i :: 0 <= i < |items| ==> Canonicalize(items[i], depth).Ok?
    decreases |items|
  {
    if |items| > 0 {
      ItemsSucceed(v, items[1..], depth);
      assert forall i :: 1 <= i < |items| ==> items[i] == items[1..][i - 1];
    }
  }

  lemma {:induction false} EntriesSucceed(v: Json, fields: seq<Field>, depth: nat)
    requires forall i :: 0 <= i < |fields| ==> fields[i].value < v
    ensures CanonicalizeEntries(v, fields, depth).Oks? <==>
      forall i :: 0 <= i < |fields| ==> Canonicalize(fields[i].value, depth).Ok?
    decreases |fields|
  {
    if |fields| > 0 {
      EntriesSucceed(v, fields[1..], depth);
      assert forall i :: 1 <= i < |fields| ==> fields[i] == fields[1..][i - 1];
    }
  }

  // ---- facts about canonical property lists

  lemma {:induction false} FindDistinct(fields: seq<Field>, i: nat)
    requires DistinctKeys(fields) && i < |fields|
    ensures fields[i].key in Keys(fields) && Find(fields, fields[i].key) == fields[i].value
  {
    assert Keys(fields)[i] == fields[i].key;
    if i > 0 {
      FindDistinct(fields[1..], i - 1);
      assert Keys(fields)[1..] == Keys(fields[1..]);
    }
  }

  lemma {:induction false} InOrderFacts(fields: seq<Field>, keys: seq<Str>)
    requires forall k :: k in keys ==> k in Keys(fields)
    ensures forall f :: f in InOrder(fields, keys) <==>
      f.key in keys && f.value == Find(fields, f.key) && !f.value.Undefined?
  {
    if |keys| > 0 {
      InOrderFacts(fields, keys[1..]);
      FirstAndRest(keys);
    }
  }

  lemma PrependAscends(x: Str, s: seq<Str>)
    requires Ascending(s) && forall j :: 0 <= j < |s| ==> Less(x, s[j])
    ensures Ascending([x] + s)
  {
  }

  /** The properties taken in the order of later keys have greater keys. */
  lemma LaterKeysGreater(fields: seq<Field>, keys: seq<Str>, j: nat)
    requires |keys| > 0 && Ascending(keys) && forall k :: k in keys ==> k in Keys(fields)
    requires j < |InOrder(fields, keys[1..])|
    ensures Less(keys[0], InOrder(fields, keys[1..])[j].key)
  {
    var rest := keys[1..];
    var r := InOrder(fields, rest);
    InOrderFacts(fields, rest);
    assert r[j] in r;
    var m :| 0 <= m < |rest| && rest[m] == r[j].key;
    assert keys[m + 1] == rest[m];
  }

  lemma {:induction false} InOrderAscends(fields: seq<Field>, keys: seq<Str>)
    requires Ascending(keys) && forall k :: k in keys ==> k in Keys(fields)
    ensures Ascending(Keys(InOrder(fields, keys)))
  {
    if |keys| > 0 {
      var r := InOrder(fields, keys[1..]);
      InOrderAscends(fields, keys[1..]);
      if !Find(fields, keys[0]).Undefined? {
        forall j | 0 <= j < |Keys(r)|
          ensures Less(keys[0], Keys(r)[j])
        {
          LaterKeysGreater(fields, keys, j);
        }
        PrependAscends(keys[0], Keys(r));
        assert Keys(InOrder(fields, keys)) == [keys[0]] + Keys(r);
      }
    }
  }

  function DefinedKeys(fields: seq<Field>): set<Str> {
    set i | 0 <= i < |fields| && !fields[i].value.Undefined? :: fields[i].key
  }

  lemma DefinedKeysFind(fields: seq<Field>, k: Str)
    requires DistinctKeys(fields)
    ensures k in DefinedKeys(fields) <==> k in Keys(fields) && !Find(fields, k).Undefined?
  {
    if k in Keys(fields) {
      var i :| 0 <= i < |fields| && Keys(fields)[i] == k;
      FindDistinct(fields, i);
      assert forall j :: 0 <= j < |fields| && fields[j].key == k ==> j == i;
    }
    if k in DefinedKeys(fields) {
      var j :| 0 <= j < |fields| && !fields[j].value.Undefined? && fields[j].key == k;
      assert Keys(fields)[j] == k;
    }
  }

  /** A property is in the canonical list exactly if it is a defined property of the object. */
  lemma CanonicalFieldsHold(fields: seq<Field>, f: Field)
    ensures f in CanonicalFields(fields) <==>
      f.key in Keys(fields) && f.value == Find(fields, f.key) && !f.value.Undefined?
  {
    SortKeepsKeys(Keys(fields));
    InOrderFacts(fields, Sort(Keys(fields)));
  }

  lemma KeyAt(fields: seq<Field>, k: Str)
    ensures k in Keys(fields) <==> exists i :: 0 <= i < |fields| && fields[i].key == k
  {
    if exists i :: 0 <= i < |fields| && fields[i].key == k {
      var i :| 0 <= i < |fields| && fields[i].key == k;
      assert Keys(fields)[i] == k;
    }
  }

  lemma CanonicalKeys(fields: seq<Field>, k: Str)
    requires DistinctKeys(fields)
    ensures k in Keys(CanonicalFields(fields)) <==> k in DefinedKeys(fields)
  {
    var r := CanonicalFields(fields);
    DefinedKeysFind(fields, k);
    KeyAt(r, k);
    if k in Keys(r) {
      var i :| 0 <= i < |r| && r[i].key == k;
      assert r[i] in r;
      CanonicalFieldsHold(fields, r[i]);
    }
    if k in DefinedKeys(fields) {
      CanonicalFieldsHold(fields, Field(k, Find(fields, k)));
      var i :| 0 <= i < |r| && r[i] == Field(k, Find(fields, k));
    }
  }

  /** The canonical list of an object: strictly ascending, all defined properties, each with its value. */
  lemma CanonicalFieldsFacts(fields: seq<Field>)
    requires DistinctKeys(fields)
    ensures var r := CanonicalFields(fields);
      && Ascending(Keys(r)) && ToSet(Keys(r)) == DefinedKeys(fields)
      && forall i :: 0 <= i < |r| ==>
        r[i].key in Keys(fields) && r[i].value == Find(fields, r[i].key) && !r[i].value.Undefined?
  {
    var r := CanonicalFields(fields);
    SortAscends(Keys(fields));
    SortKeepsKeys(Keys(fields));
    InOrderAscends(fields, Sort(Keys(fields)));
    forall k
      ensures k in ToSet(Keys(r)) <==> k in DefinedKeys(fields)
    {
      CanonicalKeys(fields, k);
    }
    forall i | 0 <= i < |r|
      ensures r[i].key in Keys(fields) && r[i].value == Find(fields, r[i].key) && !r[i].value.Undefined?
    {
      assert r[i] in r;
      CanonicalFieldsHold(fields, r[i]);
    }
  }
}
