/**
 JSON text as section 2 of RFC 8259 gives it, without white space: which text is a text of which
 value. The canonical printer writes the JSON text of the normal form.
 */
module JsonGrammar {
  import opened Text
  import opened JsonString
  import opened Canonical
  import opened CanonicalIdentity

  /** The texts with commas between them. */
  function Separated(texts: seq<Str>): Str {
    if |texts| == 0 then []
    else if |texts| == 1 then texts[0]
    else Separated(texts[..|texts| - 1]) + [0x2C] + texts[|texts| - 1]
  }

  /** The shortest way to write the string between quotes without control units and lone surrogates. */
  ghost predicate StringText(s: Str, t: Str) {
    exists body ::
      && t == [0x22] + body + [0x22] && Clean(body) && Denotes(body, s)
      && forall other :: Clean(other) && Denotes(other, s) ==> NoShorter(other, body)
  }

  ghost predicate MemberText(f: Field, t: Str)
    decreases f, 0
  {
    exists name, text :: StringText(f.key, name) && TextOf(f.value, text) && t == name + [0x3A] + text
  }

  ghost predicate ItemTexts(items: seq<Json>, texts: seq<Str>)
    decreases items, 0
  {
    |texts| == |items| && forall i :: 0 <= i < |items| ==> TextOf(items[i], texts[i])
  }

  ghost predicate MemberTexts(fields: seq<Field>, texts: seq<Str>)
    decreases fields, 1
  {
    |texts| == |fields| && forall i :: 0 <= i < |fields| ==> MemberText(fields[i], texts[i])
  }

  /** The text is a JSON text of the value; only printable values have one. */
  ghost predicate TextOf(v: Json, t: Str)
    decreases v, 2
  {
    match v
    case Null => t == [0x6E, 0x75, 0x6C, 0x6C]
    case Bool(b) => t == if b then [0x74, 0x72, 0x75, 0x65] else [0x66, 0x61, 0x6C, 0x73, 0x65]
    case Number(text) => t == text
    case String(s) => StringText(s, t)
    case Array(items) => exists texts :: ItemTexts(items, texts) && t == [0x5B] + Separated(texts) + [0x5D]
    case Object(fields) => exists texts :: MemberTexts(fields, texts) && t == [0x7B] + Separated(texts) + [0x7D]
    case _ => false
  }

  lemma {:induction false} SeparatedFront(first: Str, texts: seq<Str>)
    requires |texts| > 0
    ensures Separated([first] + texts) == first + [COMMA] + Separated(texts)
  {
    var all := [first] + texts;
    var last := texts[|texts| - 1];
    if |texts| == 1 {
      assert all[..1] == [first] && all[1] == texts[0];
    } else {
      var front := texts[..|texts| - 1];
      SeparatedFront(first, front);
      assert all[..|all| - 1] == [first] + front;
      assert first + [COMMA] + Separated(front) + [COMMA] + last
        == first + [COMMA] + (Separated(front) + [COMMA] + last);
    }
  }

  lemma {:induction false} JoinSeparates(texts: seq<Str>)
    ensures Join(texts) == Separated(texts)
  {
    if |texts| > 1 {
      JoinSeparates(texts[1..]);
      SeparatedFront(texts[0], texts[1..]);
      assert texts == [texts[0]] + texts[1..];
    }
  }

  lemma QuoteIsText(s: Str)
    ensures StringText(s, Quote(s))
  {
    QuoteDenotes(s);
    forall other | Clean(other) && Denotes(other, s)
      ensures NoShorter(other, QuoteBody(s))
    {
      QuoteShortest(other, s);
    }
  }

  lemma {:induction false} PrintIsText(t: Json)
    requires IsTree(t)
    ensures TextOf(t, Print(t))
    decreases t, 1
  {
    match t
    case String(s) => QuoteIsText(s);
    case Array(items) => ArrayIsText(t);
    case Object(fields) => ObjectIsText(t);
    case _ =>
  }

  lemma {:induction false} ArrayIsText(t: Json)
    requires t.Array? && IsTree(t)
    ensures TextOf(t, Print(t))
    decreases t, 0
  {
    var texts := PrintItems(t, t.items);
    forall i | 0 <= i < |t.items|
      ensures TextOf(t.items[i], texts[i])
    {
      PrintItemsAt(t, t.items, i);
      PrintIsText(t.items[i]);
    }
    assert ItemTexts(t.items, texts);
    JoinSeparates(texts);
  }

  lemma EntryIsText(f: Field, text: Str)
    requires TextOf(f.value, text)
    ensures MemberText(f, Entry(f.key, text))
  {
    QuoteIsText(f.key);
    assert StringText(f.key, Quote(f.key));
  }

  lemma {:induction false} ObjectIsText(t: Json)
    requires t.Object? && IsTree(t)
    ensures TextOf(t, Print(t))
    decreases t, 0
  {
    var texts := PrintEntries(t, t.fields);
    forall i | 0 <= i < |t.fields|
      ensures MemberText(t.fields[i], texts[i])
    {
      PrintEntriesAt(t, t.fields, i);
      PrintIsText(t.fields[i].value);
      EntryIsText(t.fields[i], Print(t.fields[i].value));
    }
    assert MemberTexts(t.fields, texts);
    JoinSeparates(texts);
  }

  /** Whenever the canonical printer succeeds its text is the JSON text of the value's normal form. */
  lemma CanonicalIsJson(v: Json)
    requires IsValue(v) && Canonicalize(v, 0).Ok?
    ensures IsTree(Norm(v)) && TextOf(Norm(v), Canonicalize(v, 0).text)
  {
    CanonicalTextIsPrint(v, 0);
    PrintIsText(Norm(v));
  }
}
