/** String and number tokens of JSON text, as `JSON.stringify` writes them in
    web/offline-core.js and as Python's `json.dumps` writes them in app/domain/events.py.
    Text is a sequence of UTF-16 code units. */
module JsonText {
  import opened Common

  type Unit = x: int | 0 <= x < 0x10000
  type Text = seq<Unit>

  const QUOTE: Unit := 34
  const BACKSLASH: Unit := 92

  predicate IsLead(u: Unit) {
    0xD800 <= u <= 0xDBFF
  }

  predicate IsTrail(u: Unit) {
    0xDC00 <= u <= 0xDFFF
  }

  predicate StartsWithPair(s: Text) {
    |s| >= 2 && IsLead(s[0]) && IsTrail(s[1])
  }

  // ---- escapes, section 7 of RFC 8259

  function HexUnit(d: nat): Unit
    requires d < 16
  {
    if d < 10 then 48 + d else 87 + d
  }

  /** `\u` and four lower-case digits. */
  function LongEscape(u: Unit): (t: Text)
    ensures |t| == 6
  {
    [BACKSLASH, 117, HexUnit(u / 0x1000), HexUnit(u / 0x100 % 16), HexUnit(u / 16 % 16), HexUnit(u % 16)]
  }

  /** The letter of a two-unit escape, or 0. */
  function ShortLetter(u: Unit): Unit {
    if u == QUOTE || u == BACKSLASH then u
    else if u == 8 then 98
    else if u == 9 then 116
    else if u == 10 then 110
    else if u == 12 then 102
    else if u == 13 then 114
    else 0
  }

  /** One unit that is not half of a surrogate pair, as JavaScript writes it. */
  function QuoteUnit(u: Unit): (t: Text)
    ensures 1 <= |t| <= 6
  {
    if ShortLetter(u) != 0 then [BACKSLASH, ShortLetter(u)]
    else if u < 32 || IsLead(u) || IsTrail(u) then LongEscape(u)
    else [u]
  }

  /** The inside of a quoted string in JavaScript: pairs stay raw, lone surrogates do not. */
  function QuoteBody(s: Text): Text {
    if s == [] then []
    else if StartsWithPair(s) then s[..2] + QuoteBody(s[2..])
    else QuoteUnit(s[0]) + QuoteBody(s[1..])
  }

  function Quote(s: Text): Text {
    [QUOTE] + QuoteBody(s) + [QUOTE]
  }

  /** One unit as Python writes it: everything outside space to tilde is escaped. */
  function PyQuoteUnit(u: Unit): (t: Text)
    ensures 1 <= |t| <= 6
  {
    if ShortLetter(u) != 0 then [BACKSLASH, ShortLetter(u)]
    else if u < 32 || u > 126 then LongEscape(u)
    else [u]
  }

  function PyQuoteBody(s: Text): Text {
    if s == [] then [] else PyQuoteUnit(s[0]) + PyQuoteBody(s[1..])
  }

  function PyQuote(s: Text): Text {
    [QUOTE] + PyQuoteBody(s) + [QUOTE]
  }

  // ---- reading a string back

  function HexValue(u: Unit): Option<nat> {
    if 48 <= u <= 57 then Some(u - 48)
    else if 97 <= u <= 102 then Some(u - 87)
    else None
  }

  function ReadLong(t: Text): Option<Unit>
    requires |t| >= 6
  {
    var a, b, c, d := HexValue(t[2]), HexValue(t[3]), HexValue(t[4]), HexValue(t[5]);
    if a.Some? && b.Some? && c.Some? && d.Some? then
      HexRange(a.value, b.value, c.value, d.value);
      Some(a.value * 0x1000 + b.value * 0x100 + c.value * 16 + d.value)
    else None
  }

  lemma HexRange(a: nat, b: nat, c: nat, d: nat)
    requires a < 16 && b < 16 && c < 16 && d < 16
    ensures 0 <= a * 0x1000 + b * 0x100 + c * 16 + d < 0x10000
  {
  }

  /** The unit behind an escape letter. */
  function ReadShort(letter: Unit): Option<Unit> {
    if letter == QUOTE || letter == BACKSLASH then Some(letter)
    else if letter == 98 then Some(8)
    else if letter == 116 then Some(9)
    else if letter == 110 then Some(10)
    else if letter == 102 then Some(12)
    else if letter == 114 then Some(13)
    else None
  }

  /** Reads one possibly escaped unit. */
  function ReadUnit(t: Text): (r: Option<(Unit, Text)>)
    ensures r.Some? ==> |r.value.1| < |t|
  {
    if t == [] || t[0] == QUOTE then None
    else if t[0] != BACKSLASH then Some((t[0], t[1..]))
    else if |t| >= 6 && t[1] == 117 then
      var u := ReadLong(t);
      if u.Some? then Some((u.value, t[6..])) else None
    else if |t| >= 2 then
      var u := ReadShort(t[1]);
      if u.Some? then Some((u.value, t[2..])) else None
    else None
  }

  /** Reads up to the closing quotation mark. */
  function ReadBody(t: Text): (r: Option<(Text, Text)>)
    ensures r.Some? ==> |r.value.1| < |t|
    decreases |t|
  {
    if t == [] then None
    else if t[0] == QUOTE then Some(([], t[1..]))
    else
      var u := ReadUnit(t);
      if u.None? then None
      else
        var r := ReadBody(u.value.1);
        if r.None? then None else Some(([u.value.0] + r.value.0, r.value.1))
  }

  function ReadString(t: Text): (r: Option<(Text, Text)>)
    ensures r.Some? ==> |r.value.1| < |t|
  {
    if t == [] || t[0] != QUOTE then None else ReadBody(t[1..])
  }

  lemma HexReads(d: nat)
    requires d < 16
    ensures HexValue(HexUnit(d)) == Some(d)
  {
  }

  lemma HexSplit(u: Unit)
    ensures u == u / 0x1000 * 0x1000 + u / 0x100 % 16 * 0x100 + u / 16 % 16 * 16 + u % 16
  {
    assert u / 0x100 == u / 0x1000 * 16 + u / 0x100 % 16;
    assert u / 16 == u / 0x100 * 16 + u / 16 % 16;
  }

  lemma LongEscapeReads(u: Unit, rest: Text)
    ensures ReadUnit(LongEscape(u) + rest) == Some((u, rest))
  {
    var t := LongEscape(u) + rest;
    HexReads(u / 0x1000);
    HexReads(u / 0x100 % 16);
    HexReads(u / 16 % 16);
    HexReads(u % 16);
    HexSplit(u);
    assert ReadLong(t) == Some(u);
    assert t[6..] == rest;
  }

  lemma ShortEscapeReads(u: Unit, rest: Text)
    requires ShortLetter(u) != 0
    ensures ReadUnit([BACKSLASH, ShortLetter(u)] + rest) == Some((u, rest))
  {
  }

  lemma RawReads(u: Unit, rest: Text)
    requires u != QUOTE && u != BACKSLASH
    ensures ReadUnit([u] + rest) == Some((u, rest))
  {
  }

  lemma QuoteUnitReads(u: Unit, rest: Text)
    ensures ReadUnit(QuoteUnit(u) + rest) == Some((u, rest))
  {
    if ShortLetter(u) != 0 {
      ShortEscapeReads(u, rest);
    } else if u < 32 || IsLead(u) || IsTrail(u) {
      LongEscapeReads(u, rest);
    } else {
      RawReads(u, rest);
    }
  }

  /** One read unit in front of a body that reads back. */
  lemma {:induction false} ReadStep(t: Text, u: Unit, tail: Text, s: Text, rest: Text)
    requires t != [] && t[0] != QUOTE
    requires ReadUnit(t) == Some((u, tail)) && ReadBody(tail) == Some((s, rest))
    ensures ReadBody(t) == Some(([u] + s, rest))
  {
  }

  lemma FirstIsNoQuote(u: Unit)
    ensures QuoteUnit(u)[0] != QUOTE
  {
  }

  lemma {:induction false} PairReads(a: Unit, b: Unit, tail: Text, s: Text, rest: Text)
    requires IsLead(a) && IsTrail(b) && ReadBody(tail) == Some((s, rest))
    ensures ReadBody([a, b] + tail) == Some(([a, b] + s, rest))
  {
    RawReads(b, tail);
    ReadStep([b] + tail, b, tail, s, rest);
    RawReads(a, [b] + tail);
    ReadStep([a] + ([b] + tail), a, [b] + tail, [b] + s, rest);
    assert [a] + ([b] + tail) == [a, b] + tail && [a] + ([b] + s) == [a, b] + s;
  }

  lemma {:induction false} UnitReads(u: Unit, tail: Text, s: Text, rest: Text)
    requires ReadBody(tail) == Some((s, rest))
    ensures ReadBody(QuoteUnit(u) + tail) == Some(([u] + s, rest))
  {
    QuoteUnitReads(u, tail);
    FirstIsNoQuote(u);
    ReadStep(QuoteUnit(u) + tail, u, tail, s, rest);
  }

  lemma Regroup(a: Text, b: Text, c: Text, rest: Text)
    ensures (a + b) + c + rest == a + (b + c + rest)
  {
  }

  lemma {:induction false} QuoteBodyReads(s: Text, rest: Text)
    ensures ReadBody(QuoteBody(s) + [QUOTE] + rest) == Some((s, rest))
    decreases |s|
  {
    if s == [] {
      assert ([QUOTE] + rest)[1..] == rest;
      assert [] + [QUOTE] + rest == [QUOTE] + rest;
    } else {
      var n := if StartsWithPair(s) then 2 else 1;
      var head := if StartsWithPair(s) then s[..2] else QuoteUnit(s[0]);
      var tail := QuoteBody(s[n..]) + [QUOTE] + rest;
      QuoteBodyReads(s[n..], rest);
      Regroup(head, QuoteBody(s[n..]), [QUOTE], rest);
      if StartsWithPair(s) {
        PairReads(s[0], s[1], tail, s[2..], rest);
        assert s[..2] == [s[0], s[1]];
      } else {
        UnitReads(s[0], tail, s[1..], rest);
        assert s[..1] == [s[0]];
      }
      assert s == s[..n] + s[n..];
    }
  }

  /** Every string, paired or lone surrogates included, reads back. */
  lemma QuoteReads(s: Text, rest: Text)
    ensures ReadString(Quote(s) + rest) == Some((s, rest))
  {
    QuoteBodyReads(s, rest);
    assert (Quote(s) + rest)[1..] == QuoteBody(s) + [QUOTE] + rest;
  }

  // ---- Python's strings read back as well

  lemma PyQuoteUnitReads(u: Unit, rest: Text)
    ensures ReadUnit(PyQuoteUnit(u) + rest) == Some((u, rest)) && PyQuoteUnit(u)[0] != QUOTE
  {
    if ShortLetter(u) != 0 {
      ShortEscapeReads(u, rest);
    } else if u < 32 || u > 126 {
      LongEscapeReads(u, rest);
    } else {
      RawReads(u, rest);
    }
  }

  lemma {:induction false} PyQuoteBodyReads(s: Text, rest: Text)
    ensures ReadBody(PyQuoteBody(s) + [QUOTE] + rest) == Some((s, rest))
    decreases |s|
  {
    if s == [] {
      assert ([QUOTE] + rest)[1..] == rest;
      assert [] + [QUOTE] + rest == [QUOTE] + rest;
    } else {
      var head, tail := PyQuoteUnit(s[0]), PyQuoteBody(s[1..]) + [QUOTE] + rest;
      PyQuoteBodyReads(s[1..], rest);
      Regroup(head, PyQuoteBody(s[1..]), [QUOTE], rest);
      PyQuoteUnitReads(s[0], tail);
      ReadStep(head + tail, s[0], tail, s[1..], rest);
      assert s == [s[0]] + s[1..];
    }
  }

  lemma PyQuoteReads(s: Text, rest: Text)
    ensures ReadString(PyQuote(s) + rest) == Some((s, rest))
  {
    PyQuoteBodyReads(s, rest);
    assert (PyQuote(s) + rest)[1..] == PyQuoteBody(s) + [QUOTE] + rest;
  }

  // ---- where the two languages agree

  /** Unit by unit, the strings that both sides write alike: up to tilde, or a surrogate that is
      not half of a pair. */
  predicate Agreeable(s: Text) {
    if s == [] then true
    else !StartsWithPair(s) && (s[0] <= 126 || IsLead(s[0]) || IsTrail(s[0])) && Agreeable(s[1..])
  }

  /** JavaScript never writes more units than Python, and as many only for agreeable strings,
      which both write alike. */
  lemma {:induction false} QuoteLengths(s: Text)
    ensures |QuoteBody(s)| <= |PyQuoteBody(s)|
    ensures |QuoteBody(s)| == |PyQuoteBody(s)| ==> Agreeable(s)
    ensures Agreeable(s) ==> QuoteBody(s) == PyQuoteBody(s)
    decreases |s|
  {
    if StartsWithPair(s) {
      QuoteLengths(s[2..]);
      assert s[1..][0] == s[1] && s[1..][1..] == s[2..];
      assert |PyQuoteBody(s)| == 12 + |PyQuoteBody(s[2..])|;
    } else if s != [] {
      QuoteLengths(s[1..]);
    }
  }

  // ---- integers

  function Digits(n: nat): (t: Text)
    ensures t != [] && forall i :: 0 <= i < |t| ==> 48 <= t[i] <= 57
  {
    if n < 10 then [48 + n] else Digits(n / 10) + [48 + n % 10]
  }

  /** The decimal text of an integer. */
  function Decimal(i: int): (t: Text)
    ensures t != []
  {
    if i < 0 then [45] + Digits(-i) else Digits(i)
  }

  predicate NumberUnit(u: Unit) {
    48 <= u <= 57 || u == 45 || u == 43 || u == 46 || u == 101
  }

  /** Digits, signs, point and exponent letter, starting like a number. */
  predicate NumberText(t: Text) {
    t != [] && (48 <= t[0] <= 57 || t[0] == 45) && forall i :: 0 <= i < |t| ==> NumberUnit(t[i])
  }

  function DigitsValue(t: Text): int {
    if t == [] then 0
    else
      var last: int := t[|t| - 1];
      10 * DigitsValue(t[..|t| - 1]) + last - 48
  }

  function DecimalValue(t: Text): int {
    if t != [] && t[0] == 45 then -DigitsValue(t[1..]) else DigitsValue(t)
  }

  lemma {:induction false} DigitsRead(n: nat)
    ensures DigitsValue(Digits(n)) == n
  {
    var t := Digits(n);
    if n < 10 {
      assert t[..0] == [];
    } else {
      DigitsRead(n / 10);
      assert t[..|t| - 1] == Digits(n / 10);
    }
  }

  /** A decimal text is a number text and gives its integer back. */
  lemma DecimalReads(i: int)
    ensures NumberText(Decimal(i)) && DecimalValue(Decimal(i)) == i
  {
    if i < 0 {
      DigitsRead(-i);
      assert Decimal(i)[1..] == Digits(-i);
    } else {
      DigitsRead(i);
      assert 48 <= Digits(i)[0] <= 57;
    }
  }
}
