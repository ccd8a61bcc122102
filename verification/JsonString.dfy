/**
 `JSON.stringify` on strings: quoting as in section 7 of RFC 8259, with control characters and
 lone surrogates written as `\u` escapes, and its inverse.
 */
module JsonString {
  import opened Text
  import opened Wrappers

  const QUOTE: CodeUnit := 0x22
  const BACKSLASH: CodeUnit := 0x5C
  const LOWER_U: CodeUnit := 0x75

  predicate IsLead(c: CodeUnit) {
    0xD800 <= c <= 0xDBFF
  }

  predicate IsTrail(c: CodeUnit) {
    0xDC00 <= c <= 0xDFFF
  }

  function HexDigit(n: nat): CodeUnit
    requires n < 16
  {
    if n < 10 then 0x30 + n else 0x61 + n - 10
  }

  function HexValue(c: CodeUnit): Option<nat> {
    if 0x30 <= c <= 0x39 then Some(c - 0x30)
    else if 0x61 <= c <= 0x66 then Some(c - 0x61 + 10)
    else None
  }

  function UnicodeEscape(c: CodeUnit): Str {
    [BACKSLASH, LOWER_U, HexDigit(c / 16 / 16 / 16), HexDigit(c / 16 / 16 % 16), HexDigit(c / 16 % 16),
     HexDigit(c % 16)]
  }

  /** The letter after the backslash of a two-character escape. */
  function ShortEscape(c: CodeUnit): Option<CodeUnit> {
    if c == 0x08 then Some(0x62)
    else if c == 0x09 then Some(0x74)
    else if c == 0x0A then Some(0x6E)
    else if c == 0x0C then Some(0x66)
    else if c == 0x0D then Some(0x72)
    else if c == QUOTE then Some(QUOTE)
    else if c == BACKSLASH then Some(BACKSLASH)
    else None
  }

  function ShortUnescape(letter: CodeUnit): Option<CodeUnit> {
    if letter == 0x62 then Some(0x08)
    else if letter == 0x74 then Some(0x09)
    else if letter == 0x6E then Some(0x0A)
    else if letter == 0x66 then Some(0x0C)
    else if letter == 0x72 then Some(0x0D)
    else if letter == QUOTE then Some(QUOTE)
    else if letter == BACKSLASH then Some(BACKSLASH)
    else None
  }

  function EscapeUnit(c: CodeUnit): Str {
    if ShortEscape(c).Some? then [BACKSLASH, ShortEscape(c).value]
    else if c < 0x20 || IsLead(c) || IsTrail(c) then UnicodeEscape(c)
    else [c]
  }

  function QuoteBody(s: Str): Str {
    if |s| == 0 then []
    else if |s| > 1 && IsLead(s[0]) && IsTrail(s[1]) then [s[0], s[1]] + QuoteBody(s[2..])
    else EscapeUnit(s[0]) + QuoteBody(s[1..])
  }

  function Quote(s: Str): Str {
    [QUOTE] + QuoteBody(s) + [QUOTE]
  }

  function Prepend(c: CodeUnit, r: Option<(Str, Str)>): Option<(Str, Str)> {
    if r.None? then None else Some(([c] + r.value.0, r.value.1))
  }

  function HexFour(t: Str): Option<CodeUnit>
    requires |t| == 4
  {
    var a, b, c, d := HexValue(t[0]), HexValue(t[1]), HexValue(t[2]), HexValue(t[3]);
    if a.None? || b.None? || c.None? || d.None? then None
    else
      assert a.value < 16 && b.value < 16 && c.value < 16 && d.value < 16;
      Some(a.value * 4096 + b.value * 256 + c.value * 16 + d.value)
  }

  /** Decodes up to the closing quote; returns the string and the text after the quote. */
  function Unquote(t: Str): Option<(Str, Str)>
    decreases |t|
  {
    if |t| == 0 then None
    else if t[0] == QUOTE then Some(([], t[1..]))
    else if t[0] != BACKSLASH then Prepend(t[0], Unquote(t[1..]))
    else if |t| < 2 then None
    else if t[1] == LOWER_U then
      if |t| < 6 || HexFour(t[2..6]).None? then None else Prepend(HexFour(t[2..6]).value, Unquote(t[6..]))
    else if ShortUnescape(t[1]).None? then None
    else Prepend(ShortUnescape(t[1]).value, Unquote(t[2..]))
  }

  lemma HexDigitRoundTrip(n: nat)
    requires n < 16
    ensures HexValue(HexDigit(n)) == Some(n)
  {
  }

  lemma HexFourDigits(a: nat, b: nat, c: nat, d: nat)
    requires a < 16 && b < 16 && c < 16 && d < 16
    ensures HexFour([HexDigit(a), HexDigit(b), HexDigit(c), HexDigit(d)]) == Some(((a * 16 + b) * 16 + c) * 16 + d)
  {
    HexDigitRoundTrip(a);
    HexDigitRoundTrip(b);
    HexDigitRoundTrip(c);
    HexDigitRoundTrip(d);
  }

  lemma HexRoundTrip(c: CodeUnit)
    ensures HexFour(UnicodeEscape(c)[2..6]) == Some(c)
  {
    var c1 := c / 16;
    var c2 := c1 / 16;
    var c3 := c2 / 16;
    var t := UnicodeEscape(c);
    assert t[2..6] == [HexDigit(c3), HexDigit(c2 % 16), HexDigit(c1 % 16), HexDigit(c % 16)];
    HexFourDigits(c3, c2 % 16, c1 % 16, c % 16);
  }

  lemma UnquoteRaw(c: CodeUnit, rest: Str)
    requires c != QUOTE && c != BACKSLASH
    ensures Unquote([c] + rest) == Prepend(c, Unquote(rest))
  {
    assert ([c] + rest)[1..] == rest;
  }

  lemma UnquoteShort(letter: CodeUnit, rest: Str)
    requires letter != LOWER_U && ShortUnescape(letter).Some?
    ensures Unquote([BACKSLASH, letter] + rest) == Prepend(ShortUnescape(letter).value, Unquote(rest))
  {
    assert ([BACKSLASH, letter] + rest)[2..] == rest;
  }

  lemma UnquoteHex(c: CodeUnit, rest: Str)
    ensures Unquote(UnicodeEscape(c) + rest) == Prepend(c, Unquote(rest))
  {
    var e := UnicodeEscape(c);
    var t := e + rest;
    HexRoundTrip(c);
    assert t[2..6] == e[2..6];
    assert t[6..] == rest;
  }

  /** Decoding one escaped code unit gives it back. */
  lemma UnquoteUnit(c: CodeUnit, rest: Str)
    ensures Unquote(EscapeUnit(c) + rest) == Prepend(c, Unquote(rest))
  {
    if ShortEscape(c).Some? {
      UnquoteShort(ShortEscape(c).value, rest);
    } else if c < 0x20 || IsLead(c) || IsTrail(c) {
      UnquoteHex(c, rest);
    } else {
      UnquoteRaw(c, rest);
    }
  }

  lemma Associate(a: Str, b: Str, c: Str)
    ensures a + b + c == a + (b + c)
  {
  }

  lemma UnquotePair(lead: CodeUnit, trail: CodeUnit, rest: Str)
    requires IsLead(lead) && IsTrail(trail)
    ensures Unquote([lead, trail] + rest) == Prepend(lead, Prepend(trail, Unquote(rest)))
  {
    UnquoteRaw(trail, rest);
    UnquoteRaw(lead, [trail] + rest);
    assert [lead, trail] + rest == [lead] + ([trail] + rest);
  }

  /** Quoting loses nothing, and the end of the quoted text is found again in any context. */
  lemma {:induction false} QuoteRoundTrip(s: Str, rest: Str)
    ensures Unquote(QuoteBody(s) + ([QUOTE] + rest)) == Some((s, rest))
    decreases |s|
  {
    var tail := [QUOTE] + rest;
    if |s| == 0 {
      assert [] + tail == tail && tail[1..] == rest;
    } else if |s| > 1 && IsLead(s[0]) && IsTrail(s[1]) {
      QuoteRoundTrip(s[2..], rest);
      Associate([s[0], s[1]], QuoteBody(s[2..]), tail);
      UnquotePair(s[0], s[1], QuoteBody(s[2..]) + tail);
      assert s == [s[0]] + ([s[1]] + s[2..]);
    } else {
      QuoteRoundTrip(s[1..], rest);
      Associate(EscapeUnit(s[0]), QuoteBody(s[1..]), tail);
      UnquoteUnit(s[0], QuoteBody(s[1..]) + tail);
      assert s == [s[0]] + s[1..];
    }
  }

  lemma QuoteThenRest(s: Str, rest: Str)
    ensures |Quote(s)| > 0 && (Quote(s) + rest)[0] == QUOTE
    ensures (Quote(s) + rest)[1..] == QuoteBody(s) + ([QUOTE] + rest)
  {
    assert Quote(s) + rest == [QUOTE] + (QuoteBody(s) + ([QUOTE] + rest));
  }

  /** A quoted string is determined by any text it begins, and so is what follows it. */
  lemma QuotePrefixFree(s: Str, rest: Str, s': Str, rest': Str)
    requires Quote(s) + rest == Quote(s') + rest'
    ensures s == s' && rest == rest'
  {
    QuoteThenRest(s, rest);
    QuoteThenRest(s', rest');
    QuoteRoundTrip(s, rest);
    QuoteRoundTrip(s', rest');
  }

  // ---- what the quoted text is

  /** No control unit, and no half of a surrogate pair without the other. */
  predicate Clean(t: Str) {
    && (forall i :: 0 <= i < |t| ==> t[i] >= 0x20)
    && (forall i :: 0 <= i < |t| && IsLead(t[i]) ==> i + 1 < |t| && IsTrail(t[i + 1]))
    && (forall i :: 0 <= i < |t| && IsTrail(t[i]) ==> i > 0 && IsLead(t[i - 1]))
  }

  /** The text between the quotes stands for the string. */
  predicate Denotes(t: Str, s: Str) {
    Unquote(t + [QUOTE]) == Some((s, []))
  }

  /** What is left of a clean text after its beginning, unless that cuts a pair, is clean. */
  lemma CleanRest(t: Str, k: nat)
    requires Clean(t) && 0 < k <= |t| && !IsLead(t[k - 1])
    ensures Clean(t[k..])
  {
    var r := t[k..];
    assert forall i :: 0 <= i < |r| ==> r[i] == t[k + i];
  }

  lemma CleanConcat(a: Str, b: Str)
    requires Clean(a) && Clean(b)
    ensures Clean(a + b)
  {
  }

  lemma HexDigitsPlain(n: nat)
    requires n < 16
    ensures HexDigit(n) >= 0x30 && HexDigit(n) <= 0x66
  {
  }

  predicate Plain(c: CodeUnit) {
    c >= 0x20 && !IsLead(c) && !IsTrail(c)
  }

  lemma PlainIsClean(t: Str)
    requires forall i :: 0 <= i < |t| ==> Plain(t[i])
    ensures Clean(t)
  {
  }

  lemma UnicodeEscapeClean(c: CodeUnit)
    ensures Clean(UnicodeEscape(c))
  {
    HexDigitsPlain(c / 16 / 16 / 16);
    HexDigitsPlain(c / 16 / 16 % 16);
    HexDigitsPlain(c / 16 % 16);
    HexDigitsPlain(c % 16);
    PlainIsClean(UnicodeEscape(c));
  }

  lemma EscapeUnitClean(c: CodeUnit)
    ensures Clean(EscapeUnit(c)) && 0 < |EscapeUnit(c)| <= 6
  {
    UnicodeEscapeClean(c);
    if EscapeUnit(c) != UnicodeEscape(c) {
      PlainIsClean(EscapeUnit(c));
    }
  }

  lemma {:induction false} QuoteBodyClean(s: Str)
    ensures Clean(QuoteBody(s))
    decreases |s|
  {
    if |s| > 0 {
      if |s| > 1 && IsLead(s[0]) && IsTrail(s[1]) {
        QuoteBodyClean(s[2..]);
        CleanConcat([s[0], s[1]], QuoteBody(s[2..]));
      } else {
        EscapeUnitClean(s[0]);
        QuoteBodyClean(s[1..]);
        CleanConcat(EscapeUnit(s[0]), QuoteBody(s[1..]));
      }
    }
  }

  lemma HexValueIsDigit(c: CodeUnit)
    requires HexValue(c).Some?
    ensures HexValue(c).value < 16 && c == HexDigit(HexValue(c).value)
  {
  }

  /** Four hexadecimal digits that stand for a unit are those of its escape. */
  lemma HexFourIsEscape(t: Str)
    requires |t| == 4 && HexFour(t).Some?
    ensures [BACKSLASH, LOWER_U] + t == UnicodeEscape(HexFour(t).value)
  {
    HexValueIsDigit(t[0]);
    HexValueIsDigit(t[1]);
    HexValueIsDigit(t[2]);
    HexValueIsDigit(t[3]);
    var a, b, c, d := HexValue(t[0]).value, HexValue(t[1]).value, HexValue(t[2]).value, HexValue(t[3]).value;
    Digits(a, b, c, d);
  }

  lemma Digits(a: nat, b: nat, c: nat, d: nat)
    requires a < 16 && b < 16 && c < 16 && d < 16
    ensures var v := a * 4096 + b * 256 + c * 16 + d;
      v % 16 == d && v / 16 % 16 == c && v / 16 / 16 % 16 == b && v / 16 / 16 / 16 == a
  {
    var v := a * 4096 + b * 256 + c * 16 + d;
    assert v / 16 == a * 256 + b * 16 + c;
    assert v / 16 / 16 == a * 16 + b;
  }

  lemma ShortIsInverse(letter: CodeUnit)
    requires ShortUnescape(letter).Some?
    ensures EscapeUnit(ShortUnescape(letter).value) == [BACKSLASH, letter]
    ensures !IsLead(ShortUnescape(letter).value) && !IsTrail(ShortUnescape(letter).value)
  {
  }

  /** A text is at least as long as the quoted form, and equally long only if it is the quoted form. */
  predicate NoShorter(t: Str, body: Str) {
    |t| > |body| || t == body
  }

  lemma PrefixNoShorter(a: Str, t: Str, b: Str, body: Str)
    requires NoShorter(t, body) && (|a| > |b| || a == b)
    ensures NoShorter(a + t, b + body)
  {
  }

  /** One more unit in front, written in some way no shorter than its own escape. */
  lemma UnitInFront(written: Str, t: Str, c: CodeUnit, s: Str)
    requires NoShorter(t, QuoteBody(s)) && NoShorter(written, EscapeUnit(c))
    requires IsLead(c) && |s| > 0 && IsTrail(s[0]) ==> |written| == 6
    ensures NoShorter(written + t, QuoteBody([c] + s))
  {
    var all := [c] + s;
    assert all[1..] == s;
    if |all| > 1 && IsLead(all[0]) && IsTrail(all[1]) {
      assert all[2..] == s[1..];
      assert QuoteBody(s) == EscapeUnit(s[0]) + QuoteBody(s[1..]);
      EscapeUnitClean(s[0]);
    } else {
      PrefixNoShorter(written, t, EscapeUnit(c), QuoteBody(s));
    }
  }

  lemma NoQuoteFirst(t: Str, s: Str)
    requires Denotes(t, s) && |t| > 0
    ensures t[0] != QUOTE
  {
    assert |(t + [QUOTE])[1..]| == |t|;
  }

  /** The three ways to write one unit: as itself, with a short escape, with four digits. */
  predicate Written(w: Str, c: CodeUnit) {
    || (w == [c] && c != QUOTE && c != BACKSLASH)
    || (|w| == 2 && w == EscapeUnit(c) && !IsLead(c) && !IsTrail(c) && !IsLead(w[1]))
    || (w == UnicodeEscape(c) && !IsLead(w[5]))
  }

  lemma UnicodeEscapePlain(c: CodeUnit)
    ensures !IsLead(UnicodeEscape(c)[5])
  {
    HexDigitsPlain(c % 16);
  }

  lemma BackslashAlone(u: Str)
    requires |u| == 2 && u[0] == BACKSLASH && u[1] != LOWER_U
    ensures Unquote(u).None?
  {
    assert u[2..] == [];
  }

  /** A text begins with some unit, written in one of the three ways, and goes on with the rest of the string. */
  lemma FirstWritten(t: Str, s: Str) returns (k: nat)
    requires Denotes(t, s) && |t| > 0
    ensures 0 < k <= |t| && |s| > 0 && Written(t[..k], s[0]) && Denotes(t[k..], s[1..])
    ensures t[0] != BACKSLASH ==> k == 1
  {
    var u := t + [QUOTE];
    NoQuoteFirst(t, s);
    if t[0] != BACKSLASH {
      k := 1;
      assert u[1..] == t[1..] + [QUOTE];
      assert t[..1] == [t[0]];
    } else if u[1] == LOWER_U {
      k := 6;
      assert |t| >= 6;
      assert u[2..6] == t[2..6] && u[6..] == t[6..] + [QUOTE];
      HexFourIsEscape(t[2..6]);
      UnicodeEscapePlain(HexFour(t[2..6]).value);
      assert t[..6] == [BACKSLASH, LOWER_U] + t[2..6];
    } else {
      k := 2;
      if |t| == 1 {
        BackslashAlone(u);
      }
      assert u[2..] == t[2..] + [QUOTE];
      ShortIsInverse(t[1]);
      assert t[..2] == [BACKSLASH, t[1]];
    }
    assert s[1..] == Unquote(t[k..] + [QUOTE]).value.0;
  }

  /**
   Among all texts that stand for a string, hold no control unit and no lone surrogate, and write
   their hexadecimal digits in lower case, the quoted form is the shortest, and the only one so short.
   */
  lemma {:induction false} QuoteShortest(t: Str, s: Str)
    requires Clean(t) && Denotes(t, s)
    ensures NoShorter(t, QuoteBody(s))
    decreases |t|
  {
    if |t| == 0 {
      assert t + [QUOTE] == [QUOTE];
    } else {
      var k := FirstWritten(t, s);
      assert t == t[..k] + t[k..] && s == [s[0]] + s[1..];
      if IsLead(t[0]) {
        PairInFront(t, s);
        QuoteShortest(t[2..], s[2..]);
        PrefixNoShorter([s[0], s[1]], t[2..], [s[0], s[1]], QuoteBody(s[2..]));
      } else {
        assert t[k - 1] == t[..k][k - 1];
        CleanRest(t, k);
        QuoteShortest(t[k..], s[1..]);
        WrittenNoShorter(t, k, s[0]);
        UnitInFront(t[..k], t[k..], s[0], s[1..]);
      }
    }
  }

  lemma WrittenNoShorter(t: Str, k: nat, c: CodeUnit)
    requires Clean(t) && 0 < k <= |t| && Written(t[..k], c) && !IsLead(t[0])
    ensures NoShorter(t[..k], EscapeUnit(c)) && (IsLead(c) ==> |t[..k]| == 6)
  {
    EscapeUnitClean(c);
    if |t[..k]| == 1 {
      assert t[0] == t[..k][0];
    }
  }

  /** A clean text that begins with a lead surrogate begins with a pair, and so does the string. */
  lemma PairInFront(t: Str, s: Str)
    requires Clean(t) && Denotes(t, s) && |t| > 0 && IsLead(t[0])
    ensures |t| > 1 && |s| > 1 && s[0] == t[0] && s[1] == t[1] && IsTrail(t[1])
    ensures Clean(t[2..]) && Denotes(t[2..], s[2..])
    ensures t == [s[0], s[1]] + t[2..]
  {
    var k := FirstWritten(t, s);
    assert t[..1] == [t[0]];
    var l := FirstWritten(t[1..], s[1..]);
    assert t[1..][..1] == [t[1]];
    assert t[1..][1..] == t[2..] && s[1..][1..] == s[2..];
    CleanRest(t, 2);
  }

  /** The quoted form stands for its string, and is one of those texts. */
  lemma QuoteDenotes(s: Str)
    ensures Denotes(QuoteBody(s), s) && Clean(QuoteBody(s))
  {
    QuoteBodyClean(s);
    QuoteRoundTrip(s, []);
    assert [QUOTE] + [] == [QUOTE];
  }

  lemma PlainFirst(s: Str)
    requires Clean(s) && |s| > 0 && QUOTE !in s && BACKSLASH !in s && !IsLead(s[0])
    ensures QuoteBody(s) == [s[0]] + QuoteBody(s[1..])
  {
    assert EscapeUnit(s[0]) == [s[0]];
  }

  lemma PairFirst(s: Str)
    requires Clean(s) && |s| > 0 && IsLead(s[0])
    ensures |s| > 1 && QuoteBody(s) == [s[0], s[1]] + QuoteBody(s[2..]) && Clean(s[2..])
  {
    CleanRest(s, 2);
  }

  /** A string without quote, backslash, control units and lone surrogates is quoted as itself. */
  lemma {:induction false} PlainIsItself(s: Str)
    requires Clean(s) && QUOTE !in s && BACKSLASH !in s
    ensures QuoteBody(s) == s
    decreases |s|
  {
    if |s| > 0 {
      var k := if IsLead(s[0]) then 2 else 1;
      if IsLead(s[0]) {
        PairFirst(s);
      } else {
        PlainFirst(s);
        CleanRest(s, 1);
      }
      assert forall x :: x in s[k..] ==> x in s;
      PlainIsItself(s[k..]);
      assert s == s[..k] + s[k..];
    }
  }
}
