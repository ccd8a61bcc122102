/** `canonicalize` as it is written: loops over the items of an array and over the sorted keys of an object. */
module CanonicalPrinter {
  import opened Text
  import opened JsonString
  import opened Canonical

  /** Texts already produced, before those of the rest. */
  function Prefixed(texts: seq<Str>, rest: Canons): Canons {
    match rest
    case Oks(more) => Oks(texts + more)
    case Threw(e) => Threw(e)
  }

  lemma PrefixedNext(texts: seq<Str>, text: Str, rest: Canons)
    ensures Prefixed(texts + [text], rest) == Prefixed(texts, Prefixed([text], rest))
  {
    if rest.Oks? {
      assert texts + [text] + rest.texts == texts + ([text] + rest.texts);
    }
  }

  lemma PrefixedEnds(texts: seq<Str>)
    ensures Prefixed(texts, Oks([])) == Oks(texts) && Prefixed([], Oks(texts)) == Oks(texts)
  {
    assert texts + [] == texts && [] + texts == texts;
  }

  lemma PrefixedNone(rest: Canons)
    ensures Prefixed([], rest) == rest
  {
    if rest.Oks? {
      PrefixedEnds(rest.texts);
    }
  }

  method CanonicalizeValue(value: Json, depth: nat) returns (r: Canon)
    ensures r == Canonicalize(value, depth)
    decreases value, 1
  {
    if depth > MAX_CANONICAL_DEPTH {
      return Throws(RangeError);
    }
    match value
    case Null => return Ok(NULL_TEXT);
    case Number(text) => return Ok(text);
    case NonFinite => return Throws(TypeError);
    case Bool(b) => return Ok(if b then TRUE_TEXT else FALSE_TEXT);
    case String(s) => return Ok(Quote(s));
    case Array(items) =>
      var texts := CanonicalizeArray(value, items, depth + 1);
      return if texts.Oks? then Ok(Wrap(OPEN_BRACKET, texts.texts, CLOSE_BRACKET)) else Throws(texts.exception);
    case Object(fields) =>
      var entries := CanonicalizeObject(value, fields, depth + 1);
      return if entries.Oks? then Ok(Wrap(OPEN_BRACE, entries.texts, CLOSE_BRACE)) else Throws(entries.exception);
    case Undefined => return Throws(TypeError);
    case Unsupported => return Throws(TypeError);
  }

  method CanonicalizeArray(value: Json, items: seq<Json>, depth: nat) returns (r: Canons)
    requires value == Array(items)
    ensures r == CanonicalizeItems(value, items, depth)
    decreases value, 0
  {
    ghost var whole := CanonicalizeItems(value, items, depth);
    var texts: seq<Str> := [];
    PrefixedNone(whole);
    assert items[0..] == items;
    for i := 0 to |items|
      invariant forall j :: i <= j < |items| ==> items[j] < value
      invariant Prefixed(texts, CanonicalizeItems(value, items[i..], depth)) == whole
    {
      assert items[i..][0] == items[i] && items[i..][1..] == items[i + 1..];
      var text := CanonicalizeValue(items[i], depth);
      if text.Throws? {
        return Threw(text.exception);
      }
      PrefixedNext(texts, text.text, CanonicalizeItems(value, items[i + 1..], depth));
      texts := texts + [text.text];
    }
    assert items[|items|..] == [];
    PrefixedEnds(texts);
    return Oks(texts);
  }

  lemma InOrderBelow(value: Json, fields: seq<Field>, keys: seq<Str>)
    requires value == Object(fields) && forall k :: k in keys ==> k in Keys(fields)
    ensures forall i :: 0 <= i < |InOrder(fields, keys)| ==> InOrder(fields, keys)[i].value < value
  {
    var r := InOrder(fields, keys);
    forall i | 0 <= i < |r|
      ensures r[i].value < value
    {
      assert r[i] in fields;
    }
  }

  /** The entries of the properties with these keys. */
  function EntriesOf(value: Json, fields: seq<Field>, keys: seq<Str>, depth: nat): Canons
    requires value == Object(fields) && forall k :: k in keys ==> k in Keys(fields)
  {
    InOrderBelow(value, fields, keys);
    CanonicalizeEntries(value, InOrder(fields, keys), depth)
  }

  lemma EntriesStep(value: Json, fields: seq<Field>, keys: seq<Str>, depth: nat)
    requires value == Object(fields) && (forall k :: k in keys ==> k in Keys(fields)) && |keys| > 0
    ensures var entryValue, rest := Find(fields, keys[0]), EntriesOf(value, fields, keys[1..], depth);
      EntriesOf(value, fields, keys, depth) ==
      if entryValue.Undefined? then rest
      else match Canonicalize(entryValue, depth)
        case Ok(text) => Prefixed([Entry(keys[0], text)], rest)
        case Throws(e) => Threw(e)
  {
    var entryValue, rest := Find(fields, keys[0]), InOrder(fields, keys[1..]);
    InOrderBelow(value, fields, keys);
    InOrderBelow(value, fields, keys[1..]);
    if !entryValue.Undefined? {
      assert ([Field(keys[0], entryValue)] + rest)[1..] == rest;
    }
  }

  method CanonicalizeObject(value: Json, fields: seq<Field>, depth: nat) returns (r: Canons)
    requires value == Object(fields)
    ensures r == CanonicalizeEntries(value, CanonicalFields(fields), depth)
    decreases value, 0
  {
    SortKeepsKeys(Keys(fields));
    var keys := Sort(Keys(fields));
    ghost var whole := EntriesOf(value, fields, keys, depth);
    var entries: seq<Str> := [];
    PrefixedNone(whole);
    assert keys[0..] == keys;
    for i := 0 to |keys|
      invariant Prefixed(entries, EntriesOf(value, fields, keys[i..], depth)) == whole
    {
      assert keys[i..][0] == keys[i] && keys[i..][1..] == keys[i + 1..];
      EntriesStep(value, fields, keys[i..], depth);
      var entryValue := Find(fields, keys[i]);
      if entryValue.Undefined? {
        continue;
      }
      var text := CanonicalizeValue(entryValue, depth);
      if text.Throws? {
        return Threw(text.exception);
      }
      PrefixedNext(entries, Entry(keys[i], text.text), EntriesOf(value, fields, keys[i + 1..], depth));
      entries := entries + [Entry(keys[i], text.text)];
    }
    assert keys[|keys|..] == [];
    PrefixedEnds(entries);
    return Oks(entries);
  }
}
