/** The canonical texts in plain terms: the words, brackets and separators, the escapes, and the
    order of keys, for `canonicalJson` and `integrityHash` of web/offline-core.js and for
    `canonical_json` of app/domain/events.py. */
module JsonLaws {
  import opened Ordering
  import opened JsonText
  import opened CanonicalJson
  import opened JsonAgreement

  // ---- words and brackets

  lemma WordsAre()
    ensures Canonical(Null) == ['n' as int, 'u' as int, 'l' as int, 'l' as int]
    ensures Canonical(Undefined) == Canonical(NonFinite) == Canonical(Null)
    ensures Canonical(Bool(true)) == ['t' as int, 'r' as int, 'u' as int, 'e' as int]
    ensures Canonical(Bool(false)) == ['f' as int, 'a' as int, 'l' as int, 's' as int, 'e' as int]
    ensures Canonical(Arr([])) == ['[' as int, ']' as int]
    ensures Canonical(Obj([])) == ['{' as int, '}' as int]
  {
  }

  lemma {:induction false} JoinCons(t: Text, ts: seq<Text>)
    ensures Join([t] + ts) == if ts == [] then t else t + [COMMA] + Join(ts)
  {
    assert ([t] + ts)[1..] == ts;
  }

  lemma Bracketed(open: Text, member: Text, rest: Text, close: Text)
    requires |open| == 1
    ensures open + (member + [COMMA] + rest) + close == open + member + [COMMA] + (open + rest + close)[1..]
  {
    assert (open + rest + close)[1..] == rest + close;
  }

  lemma {:induction false} TextsCons(v: Value, vs: seq<Value>)
    ensures Texts([v] + vs) == [Canonical(v)] + Texts(vs)
  {
    assert ([v] + vs)[1..] == vs;
  }

  /** An array is its elements between brackets, with commas and no spaces. */
  lemma {:induction false} ArrayTextIs(v: Value, vs: seq<Value>)
    ensures Canonical(Arr([v] + vs)) ==
            if vs == [] then ['[' as int] + Canonical(v) + [']' as int]
            else ['[' as int] + Canonical(v) + [',' as int] + Canonical(Arr(vs))[1..]
  {
    TextsCons(v, vs);
    JoinCons(Canonical(v), Texts(vs));
    Bracketed([LBRACKET], Canonical(v), Join(Texts(vs)), [RBRACKET]);
    assert Canonical(Arr([v] + vs)) == [LBRACKET] + Join(Texts([v] + vs)) + [RBRACKET];
    assert Canonical(Arr(vs)) == [LBRACKET] + Join(Texts(vs)) + [RBRACKET];
  }

  /** `a` comes before `b` by UTF-16 code unit. */
  ghost predicate KeyBefore(a: Text, b: Text) {
    a < b || exists k :: DifferAt(a, b, k) && a[k] < b[k]
  }

  lemma {:induction false} KeyBeforeIs(a: Text, b: Text)
    requires KeyBefore(a, b)
    ensures LexLeq<int>(IntLeq, a, b)
  {
    LexLeqIs<int>(IntLeq, a, b);
    if !(a < b) {
      var k :| DifferAt(a, b, k) && a[k] < b[k];
      assert DifferAt<int>(a, b, k) && IntLeq(a[k], b[k]);
    }
  }

  lemma {:induction false} EntriesHaveKeys(fs: seq<Field>, e: Entry)
    requires e in Entries(fs)
    ensures exists f :: f in fs && f.key == e.key
  {
    var i :| 0 <= i < |fs| && Entries(fs)[i] == e;
    if i == 0 {
      assert fs[0] in fs;
    } else {
      assert Entries(fs[1..])[i - 1] == e;
      EntriesHaveKeys(fs[1..], e);
    }
  }

  lemma {:induction false} SmallestFirst(f: Field, fs: seq<Field>)
    requires forall g :: g in fs ==> KeyBefore(f.key, g.key)
    ensures Sort(EntryLeq, Entries([f] + fs)) == [Entry(f.key, Canonical(f.value))] + Sort(EntryLeq, Entries(fs))
  {
    var e, rest := Entry(f.key, Canonical(f.value)), Sort(EntryLeq, Entries(fs));
    EntriesCons(f, fs);
    assert Entries([f] + fs)[1..] == Entries(fs);
    if rest != [] {
      SortKeepsMembers(EntryLeq, Entries(fs));
      assert rest[0] in rest;
      EntriesHaveKeys(fs, rest[0]);
      var g :| g in fs && g.key == rest[0].key;
      KeyBeforeIs(f.key, g.key);
    }
  }

  /** The text of the members, sorted by key. */
  function Members(fs: seq<Field>): seq<Text> {
    Map(Member, Sort(EntryLeq, Entries(fs)))
  }

  lemma {:induction false} SmallestMemberFirst(f: Field, fs: seq<Field>)
    requires forall g :: g in fs ==> KeyBefore(f.key, g.key)
    ensures Members([f] + fs) == [Quote(f.key) + [COLON] + Canonical(f.value)] + Members(fs)
    ensures |Members(fs)| == |fs|
  {
    SmallestFirst(f, fs);
    MapCons(Member, Entry(f.key, Canonical(f.value)), Sort(EntryLeq, Entries(fs)));
  }

  /** An object, in whatever order its keys were inserted, starts with the smallest key by UTF-16 code
      unit, quoted, a colon and the value; the rest follows after a comma, as an object of its own. */
  lemma {:induction false} ObjectTextIs(f: Field, fs: seq<Field>, inserted: seq<Field>)
    requires DistinctKeys(inserted) && multiset(inserted) == multiset([f] + fs)
    requires forall g :: g in fs ==> KeyBefore(f.key, g.key)
    ensures var first := Quote(f.key) + [':' as int] + Canonical(f.value);
            Canonical(Obj(inserted)) ==
            if fs == [] then ['{' as int] + first + ['}' as int]
            else ['{' as int] + first + [',' as int] + Canonical(Obj(fs))[1..]
  {
    var first := Quote(f.key) + [COLON] + Canonical(f.value);
    KeyOrderIsForgotten(inserted, [f] + fs);
    SmallestMemberFirst(f, fs);
    JoinCons(first, Members(fs));
    Bracketed([LBRACE], first, Join(Members(fs)), [RBRACE]);
    assert Canonical(Obj([f] + fs)) == [LBRACE] + Join(Members([f] + fs)) + [RBRACE];
    assert Canonical(Obj(fs)) == [LBRACE] + Join(Members(fs)) + [RBRACE];
  }

  // ---- escapes

  /** The code unit of a lower-case hexadecimal digit. */
  function HexCode(d: nat): int
    requires d < 16
  {
    "0123456789abcdef"[d] as int
  }

  predicate IsLongEscape(u: Unit, t: Text) {
    t == ['\\' as int, 'u' as int, HexCode(u / 4096), HexCode(u / 256 % 16), HexCode(u / 16 % 16), HexCode(u % 16)]
  }

  /** The five control characters, quotation mark and backslash that have an escape of two units. */
  predicate IsShortEscape(u: Unit, t: Text) {
    || (u == 8 && t == ['\\' as int, 'b' as int])
    || (u == 9 && t == ['\\' as int, 't' as int])
    || (u == 10 && t == ['\\' as int, 'n' as int])
    || (u == 12 && t == ['\\' as int, 'f' as int])
    || (u == 13 && t == ['\\' as int, 'r' as int])
    || (u == '"' as int && t == ['\\' as int, '"' as int])
    || (u == '\\' as int && t == ['\\' as int, '\\' as int])
  }

  lemma HexUnitsAre(d: nat)
    requires d < 16
    ensures HexUnit(d) == HexCode(d)
  {
  }

  lemma LongEscapeIs(u: Unit)
    ensures IsLongEscape(u, LongEscape(u))
  {
    HexUnitsAre(u / 4096);
    HexUnitsAre(u / 256 % 16);
    HexUnitsAre(u / 16 % 16);
    HexUnitsAre(u % 16);
  }

  /** JavaScript escapes other control characters and lone surrogates by their number, and nothing
      else; Python so escapes everything below the space and above the tilde. */
  lemma EscapesAre(u: Unit)
    ensures var short := u in {8, 9, 10, 12, 13, 34, 92};
            && (short ==> IsShortEscape(u, QuoteUnit(u)) && PyQuoteUnit(u) == QuoteUnit(u))
            && (!short && (u < 32 || 0xD800 <= u <= 0xDFFF) ==> IsLongEscape(u, QuoteUnit(u)))
            && (!short && u >= 32 && !(0xD800 <= u <= 0xDFFF) ==> QuoteUnit(u) == [u])
            && (!short && (u < 32 || u > 126) ==> IsLongEscape(u, PyQuoteUnit(u)))
            && (!short && 32 <= u <= 126 ==> PyQuoteUnit(u) == [u])
  {
    LongEscapeIs(u);
  }

  /** A quoted string is its units between quotation marks, one after the other; only JavaScript
      keeps a surrogate pair. */
  lemma {:induction false} QuotedIs(u: Unit, s: Text)
    ensures Quote(s) == ['"' as int] + QuoteBody(s) + ['"' as int]
    ensures PyQuote(s) == ['"' as int] + PyQuoteBody(s) + ['"' as int]
    ensures var pair := 0xD800 <= u <= 0xDBFF && s != [] && 0xDC00 <= s[0] <= 0xDFFF;
            && (!pair ==> QuoteBody([u] + s) == QuoteUnit(u) + QuoteBody(s))
            && (pair ==> QuoteBody([u] + s) == [u, s[0]] + QuoteBody(s[1..]))
    ensures PyQuoteBody([u] + s) == PyQuoteUnit(u) + PyQuoteBody(s)
  {
    var t := [u] + s;
    assert t[1..] == s;
    if StartsWithPair(t) {
      assert t[2..] == s[1..] && t[..2] == [u, s[0]];
    }
  }

  // ---- what is hashed, and where the orders of keys differ

  /** The event type, a NUL, and the canonical text. */
  lemma {:induction false} HashedTextIs(eventType: Text, payload: Value)
    ensures var text := HashedText(eventType, payload);
            && |text| == |eventType| + 1 + |Canonical(payload)|
            && text[..|eventType|] == eventType && text[|eventType|] == 0
            && text[|eventType| + 1..] == Canonical(payload)
  {
  }

  /** A key that starts with a surrogate pair comes before one that starts with a unit from U+E000 on
      for the client, and after it for the server. */
  lemma OrdersDiffer(lead: Unit, trail: Unit, s: Text, u: Unit, t: Text, x: Text, y: Text)
    requires 0xD800 <= lead <= 0xDBFF && 0xDC00 <= trail <= 0xDFFF && u >= 0xE000
    ensures var a, b := Entry([lead, trail] + s, x), Entry([u] + t, y);
            && EntryLeq(a, b) && !EntryLeq(b, a)
            && PyEntryLeq(b, a) && !PyEntryLeq(a, b)
  {
    var a, b := [lead, trail] + s, [u] + t;
    assert a[2..] == s && b[1..] == t;
    assert CodePoints(a) == [0x10000 + (lead - 0xD800) * 0x400 + (trail - 0xDC00)] + CodePoints(s);
    assert CodePoints(b) == [u as int] + CodePoints(t);
  }
}
