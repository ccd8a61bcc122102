/**
 What the canonical text identifies: two values have the same text exactly when they are equal
 up to the order of object properties and to properties that are undefined.
 */
module CanonicalIdentity {
  import opened Text
  import opened JsonString
  import opened Canonical

  // ---- when canonicalization succeeds

  /** It succeeds exactly on printable values nested no deeper than the limit allows. */
  lemma {:induction false} CanonicalizeSucceeds(v: Json, depth: nat)
    requires IsValue(v)
    ensures Canonicalize(v, depth).Ok? <==> Fits(v, depth)
    decreases v
  {
    if depth <= MAX_CANONICAL_DEPTH {
      match v
      case Array(items) =>
        forall i | 0 <= i < |items|
          ensures Canonicalize(items[i], depth + 1).Ok? <==> Fits(items[i], depth + 1)
        {
          CanonicalizeSucceeds(items[i], depth + 1);
        }
        ItemsSucceed(v, items, depth + 1);
      case Object(fields) =>
        ObjectSucceeds(v, fields, depth);
      case _ =>
    }
  }

  /** The canonical list holds exactly the defined properties of the object. */
  lemma CanonicalFieldsCover(fields: seq<Field>)
    requires DistinctKeys(fields)
    ensures forall j :: 0 <= j < |CanonicalFields(fields)| ==>
      CanonicalFields(fields)[j] in fields && !CanonicalFields(fields)[j].value.Undefined?
    ensures forall i :: 0 <= i < |fields| && !fields[i].value.Undefined? ==> fields[i] in CanonicalFields(fields)
  {
    var r := CanonicalFields(fields);
    CanonicalFieldsFacts(fields);
    forall i | 0 <= i < |fields| && !fields[i].value.Undefined?
      ensures fields[i] in r
    {
      FindDistinct(fields, i);
      assert fields[i].key in ToSet(Keys(r));
      var j :| 0 <= j < |r| && Keys(r)[j] == fields[i].key;
      assert r[j] == fields[i];
    }
  }

  lemma {:induction false} ObjectSucceeds(v: Json, fields: seq<Field>, depth: nat)
    requires v == Object(fields) && IsValue(v) && depth <= MAX_CANONICAL_DEPTH
    ensures Canonicalize(v, depth).Ok? <==> Fits(v, depth)
    decreases v, 0
  {
    var r := CanonicalFields(fields);
    EntriesSucceed(v, r, depth + 1);
    forall f | f in fields
      ensures Canonicalize(f.value, depth + 1).Ok? <==> Fits(f.value, depth + 1)
    {
      var i :| 0 <= i < |fields| && fields[i] == f;
      CanonicalizeSucceeds(fields[i].value, depth + 1);
    }
    CanonicalFieldsCover(fields);
    FieldsFit(fields, r, depth);
  }

  lemma FieldsFit(fields: seq<Field>, r: seq<Field>, depth: nat)
    requires depth <= MAX_CANONICAL_DEPTH
    requires forall j :: 0 <= j < |r| ==> r[j] in fields && !r[j].value.Undefined?
    requires forall i :: 0 <= i < |fields| && !fields[i].value.Undefined? ==> fields[i] in r
    ensures Fits(Object(fields), depth) <==> forall j :: 0 <= j < |r| ==> Fits(r[j].value, depth + 1)
  {
    if Fits(Object(fields), depth) {
      forall j | 0 <= j < |r|
        ensures Fits(r[j].value, depth + 1)
      {
        assert r[j] in fields;
        var i :| 0 <= i < |fields| && fields[i] == r[j];
      }
    } else {
      var i :| 0 <= i < |fields| && !fields[i].value.Undefined? && !Fits(fields[i].value, depth + 1);
      var j :| 0 <= j < |r| && r[j] == fields[i];
    }
  }

  // ---- normal trees and their text

  /** The value with object properties sorted and undefined ones dropped. */
  function Norm(v: Json): Json {
    match v
    case Array(items) => Array(seq(|items|, i requires 0 <= i < |items| => Norm(items[i])))
    case Object(fields) =>
      var r := CanonicalFields(fields);
      Object(seq(|r|, i requires 0 <= i < |r| => Field(r[i].key, Norm(r[i].value))))
    case _ => v
  }

  ghost predicate IsTree(t: Json) {
    match t
    case Number(text) => IsNumberText(text)
    case Array(items) => forall i :: 0 <= i < |items| ==> IsTree(items[i])
    case Object(fields) => Ascending(Keys(fields)) && forall i :: 0 <= i < |fields| ==> IsTree(fields[i].value)
    case _ => !t.NonFinite? && !t.Undefined? && !t.Unsupported?
  }

  function Print(t: Json): Str
    decreases t, 1, 0
  {
    match t
    case Null => NULL_TEXT
    case Bool(b) => if b then TRUE_TEXT else FALSE_TEXT
    case Number(text) => text
    case String(s) => Quote(s)
    case Array(items) => Wrap(OPEN_BRACKET, PrintItems(t, items), CLOSE_BRACKET)
    case Object(fields) => Wrap(OPEN_BRACE, PrintEntries(t, fields), CLOSE_BRACE)
    case _ => []
  }

  function PrintItems(t: Json, items: seq<Json>): (r: seq<Str>)
    requires forall i :: 0 <= i < |items| ==> items[i] < t
    ensures |r| == |items|
    decreases t, 0, |items|
  {
    if |items| == 0 then [] else [Print(items[0])] + PrintItems(t, items[1..])
  }

  function PrintEntries(t: Json, fields: seq<Field>): (r: seq<Str>)
    requires forall i :: 0 <= i < |fields| ==> fields[i].value < t
    ensures |r| == |fields|
    decreases t, 0, |fields|
  {
    if |fields| == 0 then []
    else [Entry(fields[0].key, Print(fields[0].value))] + PrintEntries(t, fields[1..])
  }

  lemma {:induction false} PrintItemsAt(t: Json, items: seq<Json>, i: nat)
    requires i < |items| && forall j :: 0 <= j < |items| ==> items[j] < t
    ensures PrintItems(t, items)[i] == Print(items[i])
    decreases i
  {
    if i > 0 {
      PrintItemsAt(t, items[1..], i - 1);
    }
  }

  lemma {:induction false} PrintEntriesAt(t: Json, fields: seq<Field>, i: nat)
    requires i < |fields| && forall j :: 0 <= j < |fields| ==> fields[j].value < t
    ensures PrintEntries(t, fields)[i] == Entry(fields[i].key, Print(fields[i].value))
    decreases i
  {
    if i > 0 {
      PrintEntriesAt(t, fields[1..], i - 1);
    }
  }

  lemma {:induction false} CanonicalizeItemsAt(v: Json, items: seq<Json>, depth: nat, i: nat)
    requires forall j :: 0 <= j < |items| ==> items[j] < v
    requires CanonicalizeItems(v, items, depth).Oks?
    ensures |CanonicalizeItems(v, items, depth).texts| == |items|
    ensures i < |items| ==> Canonicalize(items[i], depth) == Ok(CanonicalizeItems(v, items, depth).texts[i])
    decreases |items|
  {
    if |items| > 0 {
      CanonicalizeItemsAt(v, items[1..], depth, if i > 0 then i - 1 else 0);
    }
  }

  lemma {:induction false} CanonicalizeEntriesAt(v: Json, fields: seq<Field>, depth: nat, i: nat)
    requires forall j :: 0 <= j < |fields| ==> fields[j].value < v
    requires CanonicalizeEntries(v, fields, depth).Oks?
    ensures |CanonicalizeEntries(v, fields, depth).texts| == |fields|
    ensures i < |fields| ==>
      Canonicalize(fields[i].value, depth).Ok? &&
      CanonicalizeEntries(v, fields, depth).texts[i]
      == Entry(fields[i].key, Canonicalize(fields[i].value, depth).text)
    decreases |fields|
  {
    if |fields| > 0 {
      CanonicalizeEntriesAt(v, fields[1..], depth, if i > 0 then i - 1 else 0);
    }
  }

  /** The canonical text is the text of the normal tree. */
  lemma {:induction false} CanonicalTextIsPrint(v: Json, depth: nat)
    requires IsValue(v) && Canonicalize(v, depth).Ok?
    ensures IsTree(Norm(v)) && Canonicalize(v, depth).text == Print(Norm(v))
    decreases v, 3
  {
    match v
    case Array(items) => ArrayTextIsPrint(v, items, depth);
    case Object(fields) => ObjectTextIsPrint(v, fields, depth);
    case _ =>
  }

  lemma ItemTexts(t: Json, items: seq<Json>, texts: seq<Str>)
    requires forall i :: 0 <= i < |items| ==> items[i] < t
    requires |texts| == |items| && forall i :: 0 <= i < |items| ==> texts[i] == Print(items[i])
    ensures texts == PrintItems(t, items)
  {
    forall i | 0 <= i < |items|
      ensures texts[i] == PrintItems(t, items)[i]
    {
      PrintItemsAt(t, items, i);
    }
  }

  lemma EntryTexts(t: Json, fields: seq<Field>, texts: seq<Str>)
    requires forall i :: 0 <= i < |fields| ==> fields[i].value < t
    requires |texts| == |fields|
    requires forall i :: 0 <= i < |fields| ==> texts[i] == Entry(fields[i].key, Print(fields[i].value))
    ensures texts == PrintEntries(t, fields)
  {
    forall i | 0 <= i < |fields|
      ensures texts[i] == PrintEntries(t, fields)[i]
    {
      PrintEntriesAt(t, fields, i);
    }
  }

  lemma NormArray(items: seq<Json>)
    ensures Norm(Array(items)).Array? && |Norm(Array(items)).items| == |items|
    ensures forall i :: 0 <= i < |items| ==> Norm(Array(items)).items[i] == Norm(items[i])
  {
  }

  lemma NormObject(fields: seq<Field>)
    requires DistinctKeys(fields)
    ensures Norm(Object(fields)).Object? && Keys(Norm(Object(fields)).fields) == Keys(CanonicalFields(fields))
    ensures Ascending(Keys(Norm(Object(fields)).fields))
      && ToSet(Keys(Norm(Object(fields)).fields)) == DefinedKeys(fields)
    ensures var r := CanonicalFields(fields);
      |Norm(Object(fields)).fields| == |r| &&
      forall i :: 0 <= i < |r| ==> Norm(Object(fields)).fields[i] == Field(r[i].key, Norm(r[i].value))
  {
    CanonicalFieldsFacts(fields);
  }

  lemma {:induction false} ItemTextIsPrint(v: Json, items: seq<Json>, depth: nat, i: nat)
    requires v == Array(items) && IsValue(v) && i < |items| && CanonicalizeItems(v, items, depth).Oks?
    ensures |CanonicalizeItems(v, items, depth).texts| == |items|
    ensures IsTree(Norm(items[i])) && CanonicalizeItems(v, items, depth).texts[i] == Print(Norm(items[i]))
    decreases v, 0
  {
    CanonicalizeItemsAt(v, items, depth, i);
    CanonicalTextIsPrint(items[i], depth);
  }

  lemma {:induction false} ItemsTextIsPrint(v: Json, items: seq<Json>, depth: nat)
    requires v == Array(items) && IsValue(v) && CanonicalizeItems(v, items, depth).Oks?
    ensures Norm(v).Array? && ItemsPrinted(Norm(v).items, CanonicalizeItems(v, items, depth).texts)
    decreases v, 1
  {
    CanonicalizeItemsAt(v, items, depth, 0);
    NormArray(items);
    forall i | 0 <= i < |items| {
      ItemTextIsPrint(v, items, depth, i);
    }
  }

  lemma {:induction false} ArrayTextIsPrint(v: Json, items: seq<Json>, depth: nat)
    requires v == Array(items) && IsValue(v) && Canonicalize(v, depth).Ok?
    ensures IsTree(Norm(v)) && Canonicalize(v, depth).text == Print(Norm(v))
    decreases v, 2
  {
    ItemsTextIsPrint(v, items, depth + 1);
    ArrayPrinted(Norm(v), CanonicalizeItems(v, items, depth + 1).texts);
  }

  ghost predicate ItemsPrinted(items: seq<Json>, texts: seq<Str>) {
    |texts| == |items| && forall i :: 0 <= i < |items| ==> IsTree(items[i]) && texts[i] == Print(items[i])
  }

  ghost predicate EntriesPrinted(fields: seq<Field>, texts: seq<Str>) {
    && |texts| == |fields|
    && forall i :: 0 <= i < |fields| ==>
      IsTree(fields[i].value) && texts[i] == Entry(fields[i].key, Print(fields[i].value))
  }

  lemma ArrayPrinted(t: Json, texts: seq<Str>)
    requires t.Array? && ItemsPrinted(t.items, texts)
    ensures IsTree(t) && Print(t) == Wrap(OPEN_BRACKET, texts, CLOSE_BRACKET)
  {
    ItemTexts(t, t.items, texts);
  }

  lemma ObjectPrinted(t: Json, texts: seq<Str>)
    requires t.Object? && Ascending(Keys(t.fields)) && EntriesPrinted(t.fields, texts)
    ensures IsTree(t) && Print(t) == Wrap(OPEN_BRACE, texts, CLOSE_BRACE)
  {
    EntryTexts(t, t.fields, texts);
  }

  lemma {:induction false} EntryTextIsPrint(v: Json, fields: seq<Field>, depth: nat, i: nat)
    requires v == Object(fields) && IsValue(v) && i < |CanonicalFields(fields)|
    requires CanonicalizeEntries(v, CanonicalFields(fields), depth).Oks?
    ensures |CanonicalizeEntries(v, CanonicalFields(fields), depth).texts| == |CanonicalFields(fields)|
    ensures var f := CanonicalFields(fields)[i];
      && IsTree(Norm(f.value))
      && CanonicalizeEntries(v, CanonicalFields(fields), depth).texts[i] == Entry(f.key, Print(Norm(f.value)))
    decreases v, 0
  {
    var r := CanonicalFields(fields);
    CanonicalizeEntriesAt(v, r, depth, i);
    assert r[i] in fields;
    CanonicalTextIsPrint(r[i].value, depth);
  }

  lemma {:induction false} EntriesTextIsPrint(v: Json, fields: seq<Field>, depth: nat)
    requires v == Object(fields) && IsValue(v) && CanonicalizeEntries(v, CanonicalFields(fields), depth).Oks?
    ensures Norm(v).Object? && Ascending(Keys(Norm(v).fields))
    ensures EntriesPrinted(Norm(v).fields, CanonicalizeEntries(v, CanonicalFields(fields), depth).texts)
    decreases v, 1
  {
    CanonicalizeEntriesAt(v, CanonicalFields(fields), depth, 0);
    NormObject(fields);
    forall i | 0 <= i < |CanonicalFields(fields)| {
      EntryTextIsPrint(v, fields, depth, i);
    }
  }

  lemma {:induction false} ObjectTextIsPrint(v: Json, fields: seq<Field>, depth: nat)
    requires v == Object(fields) && IsValue(v) && Canonicalize(v, depth).Ok?
    ensures IsTree(Norm(v)) && Canonicalize(v, depth).text == Print(Norm(v))
    decreases v, 2
  {
    EntriesTextIsPrint(v, fields, depth + 1);
    ObjectPrinted(Norm(v), CanonicalizeEntries(v, CanonicalFields(fields), depth + 1).texts);
  }

  // ---- the text of a tree determines the tree

  /** What may follow a printed value: nothing, or a closing or separating mark. */
  ghost predicate Delimited(rest: Str) {
    |rest| == 0 || rest[0] == COMMA || rest[0] == CLOSE_BRACKET || rest[0] == CLOSE_BRACE
  }

  /** The kind of value a printed text begins with, told by its first code unit. */
  function FirstUnit(t: Json): CodeUnit
    requires t.Number? ==> |t.text| > 0
  {
    match t
    case Null => 0x6E
    case Bool(b) => if b then 0x74 else 0x66
    case Number(text) => text[0]
    case String(_) => QUOTE
    case Array(_) => OPEN_BRACKET
    case _ => OPEN_BRACE
  }

  lemma PrintBegins(t: Json, rest: Str)
    requires IsTree(t)
    ensures |Print(t)| > 0 && (Print(t) + rest)[0] == Print(t)[0] == FirstUnit(t)
  {
  }

  lemma {:induction false} NumberPrefixFree(a: Str, r: Str, b: Str, s: Str)
    requires IsNumberText(a) && IsNumberText(b) && Delimited(r) && Delimited(s) && a + r == b + s
    ensures a == b && r == s
  {
    var t, u := a + r, b + s;
    assert forall i :: 0 <= i < |a| ==> t[i] == a[i] && IsNumberUnit(t[i]);
    assert forall i :: 0 <= i < |b| ==> u[i] == b[i] && IsNumberUnit(u[i]);
    assert |r| > 0 ==> t[|a|] == r[0] && !IsNumberUnit(r[0]);
    assert |s| > 0 ==> u[|b|] == s[0] && !IsNumberUnit(s[0]);
    assert |a| == |b|;
    assert a == t[..|a|] && b == u[..|b|] && r == t[|a|..] && s == u[|b|..];
  }

  lemma Cancel(a: Str, r: Str, s: Str)
    requires a + r == a + s
    ensures r == s
  {
    assert r == (a + r)[|a|..] && s == (a + s)[|a|..];
  }

  lemma Bracketed(open: CodeUnit, body: Str, close: CodeUnit, rest: Str)
    ensures [open] + body + [close] + rest == [open] + (body + ([close] + rest))
  {
  }

  /** No printed tree is a proper prefix of another in a delimited context. */
  lemma {:induction false} PrintPrefixFree(t: Json, r: Str, u: Json, s: Str)
    requires IsTree(t) && IsTree(u) && Delimited(r) && Delimited(s)
    requires Print(t) + r == Print(u) + s
    ensures t == u && r == s
    decreases t, 1, 0
  {
    PrintBegins(t, r);
    PrintBegins(u, s);
    match t
    case Null => Cancel(NULL_TEXT, r, s);
    case Bool(b) => Cancel(if b then TRUE_TEXT else FALSE_TEXT, r, s);
    case Number(text) => NumberPrefixFree(text, r, u.text, s);
    case String(x) => QuotePrefixFree(x, r, u.s, s);
    case Array(items) =>
      Bracketed(OPEN_BRACKET, Join(PrintItems(t, items)), CLOSE_BRACKET, r);
      Bracketed(OPEN_BRACKET, Join(PrintItems(u, u.items)), CLOSE_BRACKET, s);
      Cancel([OPEN_BRACKET], Join(PrintItems(t, items)) + ([CLOSE_BRACKET] + r),
        Join(PrintItems(u, u.items)) + ([CLOSE_BRACKET] + s));
      ItemsPrefixFree(t, items, r, u, u.items, s);
    case Object(fields) =>
      Bracketed(OPEN_BRACE, Join(PrintEntries(t, fields)), CLOSE_BRACE, r);
      Bracketed(OPEN_BRACE, Join(PrintEntries(u, u.fields)), CLOSE_BRACE, s);
      Cancel([OPEN_BRACE], Join(PrintEntries(t, fields)) + ([CLOSE_BRACE] + r),
        Join(PrintEntries(u, u.fields)) + ([CLOSE_BRACE] + s));
      EntriesPrefixFree(t, fields, r, u, u.fields, s);
  }

  /** What follows the first of a joined list. */
  function Following(texts: seq<Str>, close: CodeUnit, rest: Str): Str
    requires |texts| > 0
  {
    if |texts| == 1 then [close] + rest else [COMMA] + (Join(texts[1..]) + ([close] + rest))
  }

  lemma JoinSplit(texts: seq<Str>, close: CodeUnit, rest: Str)
    requires |texts| > 0
    ensures Join(texts) + ([close] + rest) == texts[0] + Following(texts, close, rest)
  {
    if |texts| > 1 {
      var more, tail := Join(texts[1..]), [close] + rest;
      Associate(texts[0] + [COMMA], more, tail);
      Associate(texts[0], [COMMA], more + tail);
    }
  }

  /** A joined list is empty exactly when its closing mark comes first. */
  lemma JoinBegins(texts: seq<Str>, close: CodeUnit, rest: Str)
    requires |texts| > 0 ==> |texts[0]| > 0 && texts[0][0] != close
    ensures |texts| == 0 ==> Join(texts) + ([close] + rest) == [close] + rest
    ensures |Join(texts) + ([close] + rest)| > 0
    ensures (Join(texts) + ([close] + rest))[0] == close <==> |texts| == 0
  {
    if |texts| > 0 {
      JoinSplit(texts, close, rest);
    }
  }

  lemma FollowingCancel(a: seq<Str>, r: Str, b: seq<Str>, s: Str, close: CodeUnit)
    requires |a| > 0 && |b| > 0 && close != COMMA
    requires Following(a, close, r) == Following(b, close, s)
    ensures |a| == 1 <==> |b| == 1
    ensures |a| == 1 ==> r == s
    ensures |a| > 1 ==> Join(a[1..]) + ([close] + r) == Join(b[1..]) + ([close] + s)
  {
    var x, y := Following(a, close, r), Following(b, close, s);
    assert x[0] == (if |a| == 1 then close else COMMA) && y[0] == (if |b| == 1 then close else COMMA);
    if |a| == 1 {
      Cancel([close], r, s);
    } else {
      Cancel([COMMA], Join(a[1..]) + ([close] + r), Join(b[1..]) + ([close] + s));
    }
  }

  lemma {:induction false} ItemsPrefixFree(t: Json, xs: seq<Json>, r: Str, u: Json, ys: seq<Json>, s: Str)
    requires forall i :: 0 <= i < |xs| ==> xs[i] < t && IsTree(xs[i])
    requires forall i :: 0 <= i < |ys| ==> ys[i] < u && IsTree(ys[i])
    requires Join(PrintItems(t, xs)) + ([CLOSE_BRACKET] + r) == Join(PrintItems(u, ys)) + ([CLOSE_BRACKET] + s)
    ensures xs == ys && r == s
    decreases t, 0, |xs|
  {
    var a, b := PrintItems(t, xs), PrintItems(u, ys);
    if |xs| > 0 { PrintBegins(xs[0], []); }
    if |ys| > 0 { PrintBegins(ys[0], []); }
    JoinBegins(a, CLOSE_BRACKET, r);
    JoinBegins(b, CLOSE_BRACKET, s);
    if |xs| == 0 {
      Cancel([CLOSE_BRACKET], r, s);
    } else {
      JoinSplit(a, CLOSE_BRACKET, r);
      JoinSplit(b, CLOSE_BRACKET, s);
      PrintPrefixFree(xs[0], Following(a, CLOSE_BRACKET, r), ys[0], Following(b, CLOSE_BRACKET, s));
      FollowingCancel(a, r, b, s, CLOSE_BRACKET);
      FirstAndRest(xs);
      FirstAndRest(ys);
      if |xs| > 1 {
        assert a[1..] == PrintItems(t, xs[1..]) && b[1..] == PrintItems(u, ys[1..]);
        ItemsPrefixFree(t, xs[1..], r, u, ys[1..], s);
      }
    }
  }

  function EntryText(f: Field): Str {
    Entry(f.key, Print(f.value))
  }

  lemma {:induction false} EntryPrefixFree(f: Field, r: Str, g: Field, s: Str)
    requires IsTree(f.value) && IsTree(g.value) && Delimited(r) && Delimited(s)
    requires EntryText(f) + r == EntryText(g) + s
    ensures f == g && r == s
    decreases f.value, 2
  {
    EntryShape(f, r);
    EntryShape(g, s);
    QuotePrefixFree(f.key, [COLON] + (Print(f.value) + r), g.key, [COLON] + (Print(g.value) + s));
    Cancel([COLON], Print(f.value) + r, Print(g.value) + s);
    PrintPrefixFree(f.value, r, g.value, s);
  }

  lemma EntryShape(f: Field, rest: Str)
    ensures EntryText(f) + rest == Quote(f.key) + ([COLON] + (Print(f.value) + rest))
    ensures |EntryText(f)| > 0 && EntryText(f)[0] == QUOTE
  {
    Associate(Quote(f.key) + [COLON], Print(f.value), rest);
    Associate(Quote(f.key), [COLON], Print(f.value) + rest);
  }

  lemma FirstEntry(t: Json, xs: seq<Field>)
    requires |xs| > 0 && forall i :: 0 <= i < |xs| ==> xs[i].value < t
    ensures var a := PrintEntries(t, xs);
      a[0] == EntryText(xs[0]) && a[1..] == PrintEntries(t, xs[1..]) && |a[0]| > 0 && a[0][0] == QUOTE
  {
    EntryShape(xs[0], []);
  }

  lemma {:induction false} EntriesPrefixFree(t: Json, xs: seq<Field>, r: Str, u: Json, ys: seq<Field>, s: Str)
    requires forall i :: 0 <= i < |xs| ==> xs[i].value < t && IsTree(xs[i].value)
    requires forall i :: 0 <= i < |ys| ==> ys[i].value < u && IsTree(ys[i].value)
    requires Join(PrintEntries(t, xs)) + ([CLOSE_BRACE] + r) == Join(PrintEntries(u, ys)) + ([CLOSE_BRACE] + s)
    ensures xs == ys && r == s
    decreases t, 0, |xs|
  {
    var a, b := PrintEntries(t, xs), PrintEntries(u, ys);
    if |xs| > 0 { FirstEntry(t, xs); }
    if |ys| > 0 { FirstEntry(u, ys); }
    JoinBegins(a, CLOSE_BRACE, r);
    JoinBegins(b, CLOSE_BRACE, s);
    if |xs| == 0 {
      Cancel([CLOSE_BRACE], r, s);
    } else {
      JoinSplit(a, CLOSE_BRACE, r);
      JoinSplit(b, CLOSE_BRACE, s);
      EntryPrefixFree(xs[0], Following(a, CLOSE_BRACE, r), ys[0], Following(b, CLOSE_BRACE, s));
      FollowingCancel(a, r, b, s, CLOSE_BRACE);
      FirstAndRest(xs);
      FirstAndRest(ys);
      if |xs| > 1 {
        EntriesPrefixFree(t, xs[1..], r, u, ys[1..], s);
      }
    }
  }

  // ---- equality of values

  /** The two objects have a defined property of the same name at these places. */
  predicate Paired(fs: seq<Field>, gs: seq<Field>, i: int, j: int) {
    && 0 <= i < |fs| && 0 <= j < |gs|
    && fs[i].key == gs[j].key && !fs[i].value.Undefined? && !gs[j].value.Undefined?
  }

  /** Equal up to the order of object properties and to undefined properties. */
  ghost predicate Same(v: Json, w: Json)
    requires IsValue(v) && IsValue(w)
  {
    match v
    case Array(items) =>
      w.Array? && |w.items| == |items| && forall i :: 0 <= i < |items| ==> Same(items[i], w.items[i])
    case Object(fields) =>
      && w.Object? && DefinedKeys(w.fields) == DefinedKeys(fields)
      && forall i, j :: Paired(fields, w.fields, i, j) ==> Same(fields[i].value, w.fields[j].value)
    case _ => v == w
  }

  lemma {:induction false} SameIffNorm(v: Json, w: Json)
    requires IsValue(v) && IsValue(w) && Printable(v) && Printable(w)
    ensures Same(v, w) <==> Norm(v) == Norm(w)
    decreases v, 1
  {
    match v
    case Array(items) =>
      if w.Array? && |w.items| == |items| {
        forall i | 0 <= i < |items|
          ensures Same(items[i], w.items[i]) <==> Norm(items[i]) == Norm(w.items[i])
        {
          SameIffNorm(items[i], w.items[i]);
        }
        NormArray(items);
        NormArray(w.items);
        if forall i :: 0 <= i < |items| ==> Same(items[i], w.items[i]) {
          assert Norm(v).items == Norm(w).items;
        } else {
          var i :| 0 <= i < |items| && !Same(items[i], w.items[i]);
          assert Norm(v).items[i] != Norm(w).items[i];
        }
      }
    case Object(fields) =>
      if w.Object? {
        ObjectSameIffNorm(fields, w.fields);
      }
    case _ =>
  }

  lemma {:induction false} ObjectSameIffNorm(fs: seq<Field>, gs: seq<Field>)
    requires IsValue(Object(fs)) && IsValue(Object(gs)) && Printable(Object(fs)) && Printable(Object(gs))
    ensures Same(Object(fs), Object(gs)) <==> Norm(Object(fs)) == Norm(Object(gs))
    decreases Object(fs), 0
  {
    NormObject(fs);
    NormObject(gs);
    var a, b := Norm(Object(fs)).fields, Norm(Object(gs)).fields;
    forall i, j | Paired(fs, gs, i, j)
      ensures Same(fs[i].value, gs[j].value) <==> Norm(fs[i].value) == Norm(gs[j].value)
    {
      SameIffNorm(fs[i].value, gs[j].value);
    }
    if DefinedKeys(fs) == DefinedKeys(gs) {
      AscendingUnique(Keys(a), Keys(b));
      if Same(Object(fs), Object(gs)) {
        SameGivesNorm(fs, gs);
      }
      if a == b {
        NormGivesSame(fs, gs);
      }
    }
  }

  /** Where a property of the canonical list sits in the object. */
  lemma CanonicalOrigin(fields: seq<Field>, m: nat) returns (i: nat)
    requires DistinctKeys(fields) && m < |CanonicalFields(fields)|
    ensures i < |fields| && fields[i] == CanonicalFields(fields)[m] && !fields[i].value.Undefined?
  {
    CanonicalFieldsCover(fields);
    i :| 0 <= i < |fields| && fields[i] == CanonicalFields(fields)[m];
  }

  lemma SameGivesNorm(fs: seq<Field>, gs: seq<Field>)
    requires IsValue(Object(fs)) && IsValue(Object(gs)) && Same(Object(fs), Object(gs))
    requires Keys(CanonicalFields(fs)) == Keys(CanonicalFields(gs))
    requires forall i, j :: Paired(fs, gs, i, j) ==>
      (Same(fs[i].value, gs[j].value) <==> Norm(fs[i].value) == Norm(gs[j].value))
    ensures Norm(Object(fs)) == Norm(Object(gs))
  {
    NormObject(fs);
    NormObject(gs);
    var r, q := CanonicalFields(fs), CanonicalFields(gs);
    var a, b := Norm(Object(fs)).fields, Norm(Object(gs)).fields;
    assert |r| == |q|;
    forall m | 0 <= m < |r|
      ensures a[m] == b[m]
    {
      var i := CanonicalOrigin(fs, m);
      var j := CanonicalOrigin(gs, m);
      assert Keys(r)[m] == Keys(q)[m];
      assert Paired(fs, gs, i, j);
    }
  }

  lemma NormGivesSame(fs: seq<Field>, gs: seq<Field>)
    requires IsValue(Object(fs)) && IsValue(Object(gs)) && Norm(Object(fs)) == Norm(Object(gs))
    requires DefinedKeys(fs) == DefinedKeys(gs)
    requires forall i, j :: Paired(fs, gs, i, j) ==>
      (Same(fs[i].value, gs[j].value) <==> Norm(fs[i].value) == Norm(gs[j].value))
    ensures Same(Object(fs), Object(gs))
  {
    NormObject(fs);
    NormObject(gs);
    var r, q := CanonicalFields(fs), CanonicalFields(gs);
    var a, b := Norm(Object(fs)).fields, Norm(Object(gs)).fields;
    forall i, j | Paired(fs, gs, i, j)
      ensures Same(fs[i].value, gs[j].value)
    {
      var m := CanonicalPlace(fs, i);
      var n := CanonicalOrigin(gs, m);
      assert a[m] == b[m];
      assert n == j;
    }
  }

  /** Where a defined property of the object sits in the canonical list. */
  lemma CanonicalPlace(fields: seq<Field>, i: nat) returns (m: nat)
    requires DistinctKeys(fields) && i < |fields| && !fields[i].value.Undefined?
    ensures m < |CanonicalFields(fields)| && CanonicalFields(fields)[m] == fields[i]
  {
    CanonicalFieldsCover(fields);
    m :| 0 <= m < |CanonicalFields(fields)| && CanonicalFields(fields)[m] == fields[i];
  }

  // ---- the theorem

  /**
   The canonical text is uniquely decodable: values that can be canonicalized have the same
   text exactly when they are equal up to property order and undefined properties.
   */
  lemma CanonicalTextIdentifies(v: Json, w: Json)
    requires IsValue(v) && IsValue(w) && Canonicalize(v, 0).Ok? && Canonicalize(w, 0).Ok?
    ensures Canonicalize(v, 0) == Canonicalize(w, 0) <==> Same(v, w)
  {
    CanonicalTextIsPrint(v, 0);
    CanonicalTextIsPrint(w, 0);
    CanonicalizeSucceeds(v, 0);
    CanonicalizeSucceeds(w, 0);
    SameIffNorm(v, w);
    if Canonicalize(v, 0) == Canonicalize(w, 0) {
      assert Print(Norm(v)) + [] == Print(Norm(w)) + [];
      PrintPrefixFree(Norm(v), [], Norm(w), []);
    }
  }
}
