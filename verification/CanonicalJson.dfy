/** `canonicalJson` of web/offline-core.js and its server counterpart in app/domain/events.py:
    unique decoding, the hashed text, and where the two texts agree. */
module CanonicalJson {
  import opened Common
  import opened Ordering
  import opened JsonText

  /** A JavaScript value. `Int` is a safe integer; `Float` is any other finite number, given by
      the text JavaScript prints for it; `NonFinite` is NaN or an infinity. */
  datatype Value =
    | Undefined | Null | NonFinite
    | Bool(b: bool) | Int(i: int) | Float(token: Text)
    | Str(s: Text) | Arr(elems: seq<Value>) | Obj(fields: seq<Field>)

  datatype Field = Field(key: Text, value: Value)

  /** A field whose value has been printed. */
  datatype Entry = Entry(key: Text, text: Text)

  const COMMA: Unit := 44
  const COLON: Unit := 58
  const LBRACKET: Unit := 91
  const RBRACKET: Unit := 93
  const LBRACE: Unit := 123
  const RBRACE: Unit := 125
  const NULL: Text := [110, 117, 108, 108]
  const TRUE: Text := [116, 114, 117, 101]
  const FALSE: Text := [102, 97, 108, 115, 101]
  const MAX_SAFE: int := 9007199254740991

  predicate Safe(i: int) {
    -MAX_SAFE <= i <= MAX_SAFE
  }

  predicate IntLeq(a: int, b: int) {
    a <= b
  }

  /** Key order of `Array.prototype.sort`: by UTF-16 code unit. */
  predicate EntryLeq(a: Entry, b: Entry) {
    LexLeq<int>(IntLeq, a.key, b.key)
  }

  predicate FieldLeq(a: Field, b: Field) {
    LexLeq<int>(IntLeq, a.key, b.key)
  }

  function Join(ts: seq<Text>): Text {
    if ts == [] then [] else if |ts| == 1 then ts[0] else ts[0] + [COMMA] + Join(ts[1..])
  }

  function Member(e: Entry): Text {
    Quote(e.key) + [COLON] + e.text
  }

  // ---- the printer

  function Canonical(v: Value): Text {
    match v
    case Undefined => NULL
    case Null => NULL
    case NonFinite => NULL
    case Bool(b) => if b then TRUE else FALSE
    case Int(i) => Decimal(i)
    case Float(token) => token
    case Str(s) => Quote(s)
    case Arr(elems) => [LBRACKET] + Join(Texts(elems)) + [RBRACKET]
    case Obj(fields) => [LBRACE] + Join(Map(Member, Sort(EntryLeq, Entries(fields)))) + [RBRACE]
  }

  function Texts(vs: seq<Value>): (ts: seq<Text>)
    ensures |ts| == |vs|
  {
    if vs == [] then [] else [Canonical(vs[0])] + Texts(vs[1..])
  }

  function Entries(fs: seq<Field>): (es: seq<Entry>)
    ensures |es| == |fs|
  {
    if fs == [] then [] else [Entry(fs[0].key, Canonical(fs[0].value))] + Entries(fs[1..])
  }

  // ---- what the text keeps of a value

  /** The value up to key order, with undefined and non-finite numbers as null. */
  function Normalize(v: Value): Value {
    match v
    case Undefined => Null
    case NonFinite => Null
    case Arr(elems) => Arr(NormalizeAll(elems))
    case Obj(fields) => Obj(Sort(FieldLeq, NormalizeFields(fields)))
    case _ => v
  }

  function NormalizeAll(vs: seq<Value>): (ns: seq<Value>)
    ensures |ns| == |vs|
  {
    if vs == [] then [] else [Normalize(vs[0])] + NormalizeAll(vs[1..])
  }

  function NormalizeFields(fs: seq<Field>): (ns: seq<Field>)
    ensures |ns| == |fs|
  {
    if fs == [] then [] else [Field(fs[0].key, Normalize(fs[0].value))] + NormalizeFields(fs[1..])
  }

  /** The number behind a number text. */
  function NumberOf(token: Text): Value {
    var i := DecimalValue(token);
    if Safe(i) && Decimal(i) == token then Int(i) else Float(token)
  }

  /** Integers are safe and float texts are not those of safe integers. */
  predicate Printable(v: Value) {
    match v
    case Int(i) => Safe(i)
    case Float(token) => NumberText(token) && NumberOf(token).Float?
    case Arr(elems) => forall i :: 0 <= i < |elems| ==> Printable(elems[i])
    case Obj(fields) => forall i :: 0 <= i < |fields| ==> Printable(fields[i].value)
    case _ => true
  }

  // ---- the decoder

  type Parsed = Option<(Value, Text)>

  function NumberSpan(t: Text): (k: nat)
    ensures k <= |t|
    ensures forall i :: 0 <= i < k ==> NumberUnit(t[i])
    ensures k < |t| ==> !NumberUnit(t[k])
  {
    if t == [] || !NumberUnit(t[0]) then 0 else 1 + NumberSpan(t[1..])
  }

  function ParseScalar(t: Text): (r: Parsed)
    ensures r.Some? ==> |r.value.1| < |t|
  {
    if NULL <= t then Some((Null, t[4..]))
    else if TRUE <= t then Some((Bool(true), t[4..]))
    else if FALSE <= t then Some((Bool(false), t[5..]))
    else
      var k := NumberSpan(t);
      if k == 0 then None else Some((NumberOf(t[..k]), t[k..]))
  }

  function ParseValue(t: Text): (r: Parsed)
    ensures r.Some? ==> |r.value.1| < |t|
    decreases |t|, 1
  {
    if t == [] then None
    else if t[0] == QUOTE then
      var s := ReadString(t);
      if s.None? then None else Some((Str(s.value.0), s.value.1))
    else if t[0] == LBRACKET then
      if |t| >= 2 && t[1] == RBRACKET then Some((Arr([]), t[2..]))
      else
        var es := ParseElems(t[1..]);
        if es.None? then None else Some((Arr(es.value.0), es.value.1))
    else if t[0] == LBRACE then
      if |t| >= 2 && t[1] == RBRACE then Some((Obj([]), t[2..]))
      else
        var fs := ParseFields(t[1..]);
        if fs.None? then None else Some((Obj(fs.value.0), fs.value.1))
    else ParseScalar(t)
  }

  function ParseElems(t: Text): (r: Option<(seq<Value>, Text)>)
    ensures r.Some? ==> |r.value.1| < |t|
    decreases |t|, 2
  {
    var v := ParseValue(t);
    if v.None? || v.value.1 == [] then None
    else if v.value.1[0] == RBRACKET then Some(([v.value.0], v.value.1[1..]))
    else if v.value.1[0] == COMMA then
      var more := ParseElems(v.value.1[1..]);
      if more.None? then None else Some(([v.value.0] + more.value.0, more.value.1))
    else None
  }

  function ParseFields(t: Text): (r: Option<(seq<Field>, Text)>)
    ensures r.Some? ==> |r.value.1| < |t|
    decreases |t|, 2
  {
    var key := ReadString(t);
    if key.None? || key.value.1 == [] || key.value.1[0] != COLON then None
    else
      var v := ParseValue(key.value.1[1..]);
      if v.None? || v.value.1 == [] then None
      else
        var field := Field(key.value.0, v.value.0);
        if v.value.1[0] == RBRACE then Some(([field], v.value.1[1..]))
        else if v.value.1[0] == COMMA then
          var more := ParseFields(v.value.1[1..]);
          if more.None? then None else Some(([field] + more.value.0, more.value.1))
        else None
  }

  // ---- decoding what was printed

  /** No number goes on into `rest`. */
  predicate Terminated(rest: Text) {
    rest == [] || !NumberUnit(rest[0])
  }

  /** Whatever follows, `text` is read as `n` and no further. */
  ghost predicate ReadsAs(text: Text, n: Value) {
    forall rest :: Terminated(rest) ==> ParseValue(text + rest) == Some((n, rest))
  }

  ghost predicate AllReadAs(ts: seq<Text>, ns: seq<Value>) {
    |ts| == |ns| && (ts != [] ==> ReadsAs(ts[0], ns[0]) && AllReadAs(ts[1..], ns[1..]))
  }

  ghost predicate MatchedPair(e: Entry, f: Field) {
    e.key == f.key && ReadsAs(e.text, f.value)
  }

  /** Entries and fields with the same keys, the texts reading as the values. */
  ghost predicate Matched(es: seq<Entry>, fs: seq<Field>) {
    |es| == |fs| && (es != [] ==> MatchedPair(es[0], fs[0]) && Matched(es[1..], fs[1..]))
  }

  lemma {:induction false} SpanStops(t: Text, rest: Text)
    requires forall i :: 0 <= i < |t| ==> NumberUnit(t[i])
    requires Terminated(rest)
    ensures NumberSpan(t + rest) == |t|
  {
    if t == [] {
      assert t + rest == rest;
    } else {
      SpanStops(t[1..], rest);
      assert (t + rest)[1..] == t[1..] + rest;
    }
  }

  lemma NumberScalar(token: Text, rest: Text)
    requires NumberText(token) && Terminated(rest)
    ensures ParseScalar(token + rest) == Some((NumberOf(token), rest))
  {
    SpanStops(token, rest);
    var t := token + rest;
    assert t[0] == token[0];
    assert NULL[0] == 110 && TRUE[0] == 116 && FALSE[0] == 102;
    assert t[..|token|] == token && t[|token|..] == rest;
  }

  lemma NumberReads(token: Text)
    requires NumberText(token)
    ensures ReadsAs(token, NumberOf(token))
  {
    forall rest | Terminated(rest)
      ensures ParseValue(token + rest) == Some((NumberOf(token), rest))
    {
      NumberScalar(token, rest);
      assert (token + rest)[0] == token[0];
    }
  }

  lemma WordReads()
    ensures ReadsAs(NULL, Null) && ReadsAs(TRUE, Bool(true)) && ReadsAs(FALSE, Bool(false))
  {
    forall rest
      ensures ParseValue(NULL + rest) == Some((Null, rest))
    {
      assert (NULL + rest)[4..] == rest && (NULL + rest)[0] == 110;
    }
    forall rest
      ensures ParseValue(TRUE + rest) == Some((Bool(true), rest))
    {
      assert (TRUE + rest)[4..] == rest && (TRUE + rest)[0] == 116;
    }
    forall rest
      ensures ParseValue(FALSE + rest) == Some((Bool(false), rest))
    {
      assert (FALSE + rest)[5..] == rest && (FALSE + rest)[0] == 102;
    }
  }

  lemma StringReads(s: Text)
    ensures ReadsAs(Quote(s), Str(s))
  {
    forall rest
      ensures ParseValue(Quote(s) + rest) == Some((Str(s), rest))
    {
      QuoteReads(s, rest);
      assert (Quote(s) + rest)[0] == QUOTE;
    }
  }

  /** A readable text is not empty and opens no closing bracket. */
  lemma ReadableStart(text: Text, n: Value)
    requires ReadsAs(text, n)
    ensures text != [] && text[0] != RBRACKET
  {
    assert Terminated([]) && text + [] == text;
    assert ParseValue(text) == Some((n, []));
  }

  lemma MarkSplits(a: Text, mark: Unit, rest: Text)
    ensures a + [mark] + rest == a + ([mark] + rest)
  {
  }

  lemma CommaSplits(a: Text, b: Text, c: Text, rest: Text)
    ensures a + [COMMA] + b + c + rest == a + ([COMMA] + (b + c + rest))
  {
  }

  /** A bracketed text with what follows, cut after the opening mark. */
  lemma BracketSplits(open: Unit, body: Text, close: Unit, rest: Text)
    ensures var t := [open] + body + [close] + rest;
            && t[0] == open && t[1..] == body + [close] + rest
            && (body == [] ==> t[1] == close && t[2..] == rest)
            && (body != [] ==> t[1] == body[0])
  {
  }

  /** Reading elements whose first text and whose continuation are known. */
  lemma {:induction false} ElemsStep(text: Text, n: Value, mark: Unit, tail: Text)
    requires ReadsAs(text, n) && !NumberUnit(mark)
    ensures mark == RBRACKET ==> ParseElems(text + ([mark] + tail)) == Some(([n], tail))
    ensures mark == COMMA && ParseElems(tail).Some? ==>
              ParseElems(text + ([mark] + tail)) == Some(([n] + ParseElems(tail).value.0, ParseElems(tail).value.1))
  {
  }

  ghost predicate ElemsReadAs(body: Text, ns: seq<Value>) {
    forall rest :: ParseElems(body + [RBRACKET] + rest) == Some((ns, rest))
  }

  lemma LastElem(text: Text, n: Value)
    requires ReadsAs(text, n)
    ensures ElemsReadAs(text, [n])
  {
    forall rest
      ensures ParseElems(text + [RBRACKET] + rest) == Some(([n], rest))
    {
      ElemsStep(text, n, RBRACKET, rest);
      MarkSplits(text, RBRACKET, rest);
    }
  }

  lemma OneMoreElem(text: Text, n: Value, body: Text, ns: seq<Value>)
    requires ReadsAs(text, n) && ElemsReadAs(body, ns)
    ensures ElemsReadAs(text + [COMMA] + body, [n] + ns)
  {
    forall rest
      ensures ParseElems(text + [COMMA] + body + [RBRACKET] + rest) == Some(([n] + ns, rest))
    {
      ElemsStep(text, n, COMMA, body + [RBRACKET] + rest);
      CommaSplits(text, body, [RBRACKET], rest);
    }
  }

  lemma {:induction false} ElemsParse(ts: seq<Text>, ns: seq<Value>)
    requires ts != [] && AllReadAs(ts, ns)
    ensures ElemsReadAs(Join(ts), ns)
    decreases |ts|
  {
    if |ts| == 1 {
      LastElem(ts[0], ns[0]);
      assert ns == [ns[0]];
    } else {
      ElemsParse(ts[1..], ns[1..]);
      OneMoreElem(ts[0], ns[0], Join(ts[1..]), ns[1..]);
      assert ns == [ns[0]] + ns[1..];
    }
  }

  lemma {:induction false} JoinStart(ts: seq<Text>)
    requires ts != [] && ts[0] != []
    ensures Join(ts) != [] && Join(ts)[0] == ts[0][0]
  {
  }

  lemma {:induction false} ArrayReads(ts: seq<Text>, ns: seq<Value>)
    requires AllReadAs(ts, ns)
    ensures ReadsAs([LBRACKET] + Join(ts) + [RBRACKET], Arr(ns))
  {
    forall rest | Terminated(rest)
      ensures ParseValue([LBRACKET] + Join(ts) + [RBRACKET] + rest) == Some((Arr(ns), rest))
    {
      BracketSplits(LBRACKET, Join(ts), RBRACKET, rest);
      if ts != [] {
        ElemsParse(ts, ns);
        ReadableStart(ts[0], ns[0]);
        JoinStart(ts);
      }
    }
  }

  /** Whatever follows, the text of a member is read as this field and no further. */
  ghost predicate MemberReadsAs(m: Text, f: Field) {
    forall rest :: Terminated(rest) ==> MemberThen(m + rest, f, rest)
  }

  predicate MemberThen(t: Text, f: Field, rest: Text) {
    var key := ReadString(t);
    && key.Some? && key.value.0 == f.key && key.value.1 != [] && key.value.1[0] == COLON
    && ParseValue(key.value.1[1..]) == Some((f.value, rest))
  }

  ghost predicate MembersReadAs(ms: seq<Text>, fs: seq<Field>) {
    |ms| == |fs| && (ms != [] ==> MemberReadsAs(ms[0], fs[0]) && MembersReadAs(ms[1..], fs[1..]))
  }

  /** A quoted key, a colon and the text of a value are such a member. */
  lemma {:induction false} MemberReads(quoted: Text, text: Text, f: Field)
    requires forall rest :: ReadString(quoted + rest) == Some((f.key, rest))
    requires ReadsAs(text, f.value)
    ensures MemberReadsAs(quoted + [COLON] + text, f)
  {
    forall rest | Terminated(rest)
      ensures MemberThen(quoted + [COLON] + text + rest, f, rest)
    {
      var after := [COLON] + (text + rest);
      assert quoted + [COLON] + text + rest == quoted + after;
      assert ReadString(quoted + after) == Some((f.key, after));
      assert after[1..] == text + rest;
    }
  }

  /** Reading fields whose first member and whose continuation are known. */
  lemma {:induction false} FieldsStep(m: Text, f: Field, mark: Unit, tail: Text)
    requires MemberReadsAs(m, f) && !NumberUnit(mark)
    ensures mark == RBRACE ==> ParseFields(m + ([mark] + tail)) == Some(([f], tail))
    ensures mark == COMMA && ParseFields(tail).Some? ==>
              ParseFields(m + ([mark] + tail)) == Some(([f] + ParseFields(tail).value.0, ParseFields(tail).value.1))
  {
    assert MemberThen(m + ([mark] + tail), f, [mark] + tail);
    assert ([mark] + tail)[1..] == tail;
  }

  ghost predicate FieldsReadAs(body: Text, fs: seq<Field>) {
    forall rest :: ParseFields(body + [RBRACE] + rest) == Some((fs, rest))
  }

  lemma LastField(m: Text, f: Field)
    requires MemberReadsAs(m, f)
    ensures FieldsReadAs(m, [f])
  {
    forall rest
      ensures ParseFields(m + [RBRACE] + rest) == Some(([f], rest))
    {
      FieldsStep(m, f, RBRACE, rest);
      MarkSplits(m, RBRACE, rest);
    }
  }

  lemma OneMoreField(m: Text, f: Field, body: Text, fs: seq<Field>)
    requires MemberReadsAs(m, f) && FieldsReadAs(body, fs)
    ensures FieldsReadAs(m + [COMMA] + body, [f] + fs)
  {
    forall rest
      ensures ParseFields(m + [COMMA] + body + [RBRACE] + rest) == Some(([f] + fs, rest))
    {
      FieldsStep(m, f, COMMA, body + [RBRACE] + rest);
      CommaSplits(m, body, [RBRACE], rest);
    }
  }

  lemma {:induction false} FieldsParse(ms: seq<Text>, fs: seq<Field>)
    requires ms != [] && MembersReadAs(ms, fs)
    ensures FieldsReadAs(Join(ms), fs)
    decreases |ms|
  {
    if |ms| == 1 {
      LastField(ms[0], fs[0]);
      assert fs == [fs[0]];
    } else {
      FieldsParse(ms[1..], fs[1..]);
      OneMoreField(ms[0], fs[0], Join(ms[1..]), fs[1..]);
      assert fs == [fs[0]] + fs[1..];
    }
  }

  /** A member opens no closing brace. */
  lemma MemberStart(m: Text, f: Field)
    requires MemberReadsAs(m, f)
    ensures m != [] && m[0] != RBRACE
  {
    assert Terminated([]) && m + [] == m;
    assert MemberThen(m, f, []);
  }

  lemma {:induction false} ObjectReads(ms: seq<Text>, fs: seq<Field>)
    requires MembersReadAs(ms, fs)
    ensures ReadsAs([LBRACE] + Join(ms) + [RBRACE], Obj(fs))
  {
    forall rest | Terminated(rest)
      ensures ParseValue([LBRACE] + Join(ms) + [RBRACE] + rest) == Some((Obj(fs), rest))
    {
      BracketSplits(LBRACE, Join(ms), RBRACE, rest);
      if ms != [] {
        FieldsParse(ms, fs);
        MemberStart(ms[0], fs[0]);
        JoinStart(ms);
      }
    }
  }

  lemma {:induction false} MembersRead(es: seq<Entry>, fs: seq<Field>)
    requires Matched(es, fs)
    ensures MembersReadAs(Map(Member, es), fs)
    decreases |es|
  {
    if es != [] {
      MembersRead(es[1..], fs[1..]);
      assert Map(Member, es)[1..] == Map(Member, es[1..]);
      forall rest
        ensures ReadString(Quote(es[0].key) + rest) == Some((fs[0].key, rest))
      {
        QuoteReads(es[0].key, rest);
      }
      MemberReads(Quote(es[0].key), es[0].text, fs[0]);
    }
  }

  // ---- sorting entries and fields alike

  lemma {:induction false} MatchedCons(e: Entry, f: Field, es: seq<Entry>, fs: seq<Field>)
    requires MatchedPair(e, f) && Matched(es, fs)
    ensures Matched([e] + es, [f] + fs)
  {
  }

  /** Both orders look at the keys only, and compare them alike. */
  ghost predicate SameKeyOrder(leq: (Entry, Entry) -> bool, fieldLeq: (Field, Field) -> bool) {
    forall e: Entry, e': Entry, f: Field, f': Field ::
      e.key == f.key && e'.key == f'.key ==> leq(e, e') == fieldLeq(f, f')
  }

  lemma {:induction false} InsertMatched(leq: (Entry, Entry) -> bool, fieldLeq: (Field, Field) -> bool, e: Entry,
                                         f: Field, es: seq<Entry>, fs: seq<Field>)
    requires SameKeyOrder(leq, fieldLeq) && MatchedPair(e, f) && Matched(es, fs)
    ensures Matched(Insert(leq, e, es), Insert(fieldLeq, f, fs))
    decreases |es|
  {
    if es == [] || leq(e, es[0]) {
      assert es != [] ==> fieldLeq(f, fs[0]);
      MatchedCons(e, f, es, fs);
      assert es == [] ==> [e] + es == [e] && [f] + fs == [f];
    } else {
      assert !fieldLeq(f, fs[0]);
      InsertMatched(leq, fieldLeq, e, f, es[1..], fs[1..]);
      MatchedCons(es[0], fs[0], Insert(leq, e, es[1..]), Insert(fieldLeq, f, fs[1..]));
    }
  }

  lemma {:induction false} SortMatched(leq: (Entry, Entry) -> bool, fieldLeq: (Field, Field) -> bool, es: seq<Entry>,
                                       fs: seq<Field>)
    requires SameKeyOrder(leq, fieldLeq) && Matched(es, fs)
    ensures Matched(Sort(leq, es), Sort(fieldLeq, fs))
    decreases |es|
  {
    if es != [] {
      SortMatched(leq, fieldLeq, es[1..], fs[1..]);
      InsertMatched(leq, fieldLeq, es[0], fs[0], Sort(leq, es[1..]), Sort(fieldLeq, fs[1..]));
    }
  }

  // ---- unique decoding

  lemma {:induction false} CanonicalReads(v: Value)
    requires Printable(v)
    ensures ReadsAs(Canonical(v), Normalize(v))
    decreases v
  {
    match v
    case Int(i) =>
      DecimalReads(i);
      NumberReads(Decimal(i));
    case Float(token) =>
      NumberReads(token);
    case Str(s) =>
      StringReads(s);
    case Arr(elems) =>
      TextsRead(elems);
      ArrayReads(Texts(elems), NormalizeAll(elems));
    case Obj(fields) =>
      EntriesRead(fields);
      SortMatched(EntryLeq, FieldLeq, Entries(fields), NormalizeFields(fields));
      MembersRead(Sort(EntryLeq, Entries(fields)), Sort(FieldLeq, NormalizeFields(fields)));
      ObjectReads(Map(Member, Sort(EntryLeq, Entries(fields))), Sort(FieldLeq, NormalizeFields(fields)));
    case _ =>
      WordReads();
  }

  lemma {:induction false} TextsRead(vs: seq<Value>)
    requires forall i :: 0 <= i < |vs| ==> Printable(vs[i])
    ensures AllReadAs(Texts(vs), NormalizeAll(vs))
    decreases vs
  {
    if vs != [] {
      CanonicalReads(vs[0]);
      TextsRead(vs[1..]);
    }
  }

  lemma {:induction false} EntriesRead(fs: seq<Field>)
    requires forall i :: 0 <= i < |fs| ==> Printable(fs[i].value)
    ensures Matched(Entries(fs), NormalizeFields(fs))
    decreases fs
  {
    if fs != [] {
      CanonicalReads(fs[0].value);
      EntriesRead(fs[1..]);
    }
  }

  /** The decoder gives back every value up to key order. */
  lemma {:induction false} Decodes(v: Value)
    requires Printable(v)
    ensures ParseValue(Canonical(v)) == Some((Normalize(v), []))
  {
    CanonicalReads(v);
    assert Terminated([]) && Canonical(v) + [] == Canonical(v);
  }

  // ---- one text for one value

  lemma KeyOrder()
    ensures TotalPreorder(EntryLeq) && TotalPreorder(FieldLeq)
  {
    assert TotalOrder(IntLeq);
    forall a: Text, b: Text
      ensures LexLeq<int>(IntLeq, a, b) || LexLeq<int>(IntLeq, b, a)
    {
      LexTotal<int>(IntLeq, a, b);
    }
    forall a: Text, b: Text, c: Text | LexLeq<int>(IntLeq, a, b) && LexLeq<int>(IntLeq, b, c)
      ensures LexLeq<int>(IntLeq, a, c)
    {
      LexTransitive<int>(IntLeq, a, b, c);
    }
  }

  lemma {:induction false} EntriesCons(f: Field, fs: seq<Field>)
    ensures Entries([f] + fs) == [Entry(f.key, Canonical(f.value))] + Entries(fs)
  {
  }

  lemma {:induction false} EntriesInsert(f: Field, fs: seq<Field>)
    ensures Entries(Insert(FieldLeq, f, fs)) == Insert(EntryLeq, Entry(f.key, Canonical(f.value)), Entries(fs))
  {
    if fs == [] || FieldLeq(f, fs[0]) {
      EntriesCons(f, fs);
      assert fs == [] ==> [f] + fs == [f];
    } else {
      EntriesInsert(f, fs[1..]);
      EntriesCons(fs[0], Insert(FieldLeq, f, fs[1..]));
    }
  }

  /** Printing commutes with sorting by key. */
  lemma {:induction false} EntriesSort(fs: seq<Field>)
    ensures Entries(Sort(FieldLeq, fs)) == Sort(EntryLeq, Entries(fs))
  {
    if fs != [] {
      EntriesSort(fs[1..]);
      EntriesInsert(fs[0], Sort(FieldLeq, fs[1..]));
    }
  }

  /** Normalizing changes no text. */
  lemma {:induction false} NormalPrintsSame(v: Value)
    ensures Canonical(Normalize(v)) == Canonical(v)
    decreases v
  {
    match v
    case Arr(elems) =>
      NormalTextsSame(elems);
    case Obj(fields) =>
      NormalEntriesSame(fields);
      EntriesSort(NormalizeFields(fields));
      KeyOrder();
      SortSorted(EntryLeq, Entries(fields));
      SortOfSorted(EntryLeq, Sort(EntryLeq, Entries(fields)));
    case _ =>
  }

  lemma {:induction false} NormalTextsSame(vs: seq<Value>)
    ensures Texts(NormalizeAll(vs)) == Texts(vs)
    decreases vs
  {
    if vs != [] {
      NormalPrintsSame(vs[0]);
      NormalTextsSame(vs[1..]);
    }
  }

  lemma {:induction false} NormalEntriesSame(fs: seq<Field>)
    ensures Entries(NormalizeFields(fs)) == Entries(fs)
    decreases fs
  {
    if fs != [] {
      NormalPrintsSame(fs[0].value);
      NormalEntriesSame(fs[1..]);
    }
  }

  /** Two values have one text exactly if they are equal up to key order. */
  lemma {:induction false} SameTextIff(v: Value, w: Value)
    requires Printable(v) && Printable(w)
    ensures Canonical(v) == Canonical(w) <==> Normalize(v) == Normalize(w)
  {
    Decodes(v);
    Decodes(w);
    NormalPrintsSame(v);
    NormalPrintsSame(w);
  }

  ghost predicate DistinctKeys(fs: seq<Field>) {
    forall f, g :: f in fs && g in fs && f.key == g.key ==> f == g
  }

  lemma DistinctKeysNoTies(fs: seq<Field>)
    requires DistinctKeys(fs)
    ensures NoTies(FieldLeq, fs)
  {
    forall f, g | f in fs && g in fs && FieldLeq(f, g) && FieldLeq(g, f)
      ensures f == g
    {
      LexAntisymmetric<int>(IntLeq, f.key, g.key);
    }
  }

  lemma {:induction false} SameFieldsSameSort(fs: seq<Field>, gs: seq<Field>)
    requires DistinctKeys(fs) && multiset(fs) == multiset(gs)
    ensures Sort(FieldLeq, fs) == Sort(FieldLeq, gs)
  {
    KeyOrder();
    DistinctKeysNoTies(fs);
    SortForgetsOrder(FieldLeq, fs, gs);
  }

  /** The order in which the keys of an object were inserted does not show. */
  lemma KeyOrderIsForgotten(fs: seq<Field>, gs: seq<Field>)
    requires DistinctKeys(fs) && multiset(fs) == multiset(gs)
    ensures Canonical(Obj(fs)) == Canonical(Obj(gs))
  {
    SameFieldsSameSort(fs, gs);
    EntriesSort(fs);
    EntriesSort(gs);
  }

  // ---- the hashed text

  /** What `integrityHash` feeds to the hash: the event type, a NUL, the canonical text. */
  function HashedText(eventType: Text, payload: Value): Text {
    eventType + [0] + Canonical(payload)
  }

  lemma NoNulBefore(a: Text, x: Text, i: nat)
    requires 0 !in a && i < |a|
    ensures (a + [0] + x)[i] != 0
  {
  }

  lemma FirstNul(a: Text, b: Text, x: Text, y: Text)
    requires 0 !in a && 0 !in b
    requires a + [0] + x == b + [0] + y
    ensures a == b && x == y
  {
    var t := a + [0] + x;
    var m: nat, n: nat := |a|, |b|;
    assert t[m] == 0 && t[n] == 0;
    if m < n {
      NoNulBefore(b, y, m);
    } else if n < m {
      NoNulBefore(a, x, n);
    }
    assert a == t[..m] && b == t[..n];
    assert x == t[m + 1..] && y == t[n + 1..];
  }

  /** The hashed text determines the event type and the payload, as long as no type holds a NUL. */
  lemma {:induction false} HashedTextDetermines(eventType: Text, payload: Value, eventType': Text, payload': Value)
    requires Printable(payload) && Printable(payload')
    requires 0 !in eventType && 0 !in eventType'
    ensures HashedText(eventType, payload) == HashedText(eventType', payload')
       <==> eventType == eventType' && Normalize(payload) == Normalize(payload')
  {
    SameTextIff(payload, payload');
    if HashedText(eventType, payload) == HashedText(eventType', payload') {
      FirstNul(eventType, eventType', Canonical(payload), Canonical(payload'));
    }
  }
}
