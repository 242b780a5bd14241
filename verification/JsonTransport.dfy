/** The way of a payload from the client, which hashes it before sending (web/offline-core.js), to
    the server, which hashes what it received (app/domain/events.py): exactly when the two hashed
    texts are one. */
module JsonTransport {
  import opened Common
  import opened Ordering
  import opened JsonText
  import opened CanonicalJson
  import opened JsonAgreement

  // ---- what arrives

  /** The value that the server reads from `JSON.stringify(v)`. Undefined fields are missing;
      undefined elements and non-finite numbers are null. A float becomes the one that Python
      prints as `py` of JavaScript's token. */
  function Wire(py: Text -> Text, v: Value): (w: Value)
    ensures Shared(w)
  {
    match v
    case Undefined => Null
    case NonFinite => Null
    case Float(token) => Float(py(token))
    case Arr(elems) => Arr(WireAll(py, elems))
    case Obj(fields) => Obj(WireFields(py, fields))
    case _ => v
  }

  function WireAll(py: Text -> Text, vs: seq<Value>): (ws: seq<Value>)
    ensures |ws| == |vs| && forall i :: 0 <= i < |ws| ==> Shared(ws[i])
  {
    if vs == [] then [] else [Wire(py, vs[0])] + WireAll(py, vs[1..])
  }

  function WireFields(py: Text -> Text, fs: seq<Field>): (ws: seq<Field>)
    ensures forall i :: 0 <= i < |ws| ==> Shared(ws[i].value)
  {
    if fs == [] then []
    else if fs[0].value.Undefined? then WireFields(py, fs[1..])
    else [Field(fs[0].key, Wire(py, fs[0].value))] + WireFields(py, fs[1..])
  }

  /** Every float of the value is one for Python too, and printing what was read back changes its
      text no more. */
  predicate Prints(py: Text -> Text, v: Value) {
    match v
    case Float(token) => NumberText(py(token)) && NumberOf(py(token)).Float? && py(py(token)) == py(token)
    case Arr(elems) => forall i :: 0 <= i < |elems| ==> Prints(py, elems[i])
    case Obj(fields) => forall i :: 0 <= i < |fields| ==> Prints(py, fields[i].value)
    case _ => true
  }

  /** Nothing is lost on the way: no object has an undefined field, and Python prints each float
      as JavaScript does. */
  predicate Intact(py: Text -> Text, v: Value) {
    match v
    case Float(token) => py(token) == token
    case Arr(elems) => AllIntact(py, elems)
    case Obj(fields) => FieldsIntact(py, fields)
    case _ => true
  }

  predicate AllIntact(py: Text -> Text, vs: seq<Value>) {
    vs == [] || (Intact(py, vs[0]) && AllIntact(py, vs[1..]))
  }

  predicate FieldsIntact(py: Text -> Text, fs: seq<Field>) {
    fs == [] || (!fs[0].value.Undefined? && Intact(py, fs[0].value) && FieldsIntact(py, fs[1..]))
  }

  lemma {:induction false} WirePrintable(py: Text -> Text, v: Value)
    requires Printable(v) && Prints(py, v)
    ensures Printable(Wire(py, v))
    decreases v
  {
    match v
    case Arr(elems) => WireAllPrintable(py, elems);
    case Obj(fields) => WireFieldsPrintable(py, fields);
    case _ =>
  }

  lemma {:induction false} WireAllPrintable(py: Text -> Text, vs: seq<Value>)
    requires forall i :: 0 <= i < |vs| ==> Printable(vs[i]) && Prints(py, vs[i])
    ensures forall i :: 0 <= i < |WireAll(py, vs)| ==> Printable(WireAll(py, vs)[i])
    decreases vs
  {
    if vs != [] {
      WirePrintable(py, vs[0]);
      WireAllPrintable(py, vs[1..]);
    }
  }

  lemma {:induction false} WireFieldsPrintable(py: Text -> Text, fs: seq<Field>)
    requires forall i :: 0 <= i < |fs| ==> Printable(fs[i].value) && Prints(py, fs[i].value)
    ensures forall i :: 0 <= i < |WireFields(py, fs)| ==> Printable(WireFields(py, fs)[i].value)
    decreases fs
  {
    if fs != [] {
      WirePrintable(py, fs[0].value);
      WireFieldsPrintable(py, fs[1..]);
    }
  }

  // ---- the server's text is decodable too

  predicate PyFieldLeq(a: Field, b: Field) {
    LexLeq<int>(IntLeq, CodePoints(a.key), CodePoints(b.key))
  }

  /** The value with its fields in the server's order. */
  function PyNormalize(v: Value): Value {
    match v
    case Arr(elems) => Arr(PyNormalizeAll(elems))
    case Obj(fields) => Obj(Sort(PyFieldLeq, PyNormalizeFields(fields)))
    case _ => v
  }

  function PyNormalizeAll(vs: seq<Value>): (ns: seq<Value>)
    ensures |ns| == |vs|
  {
    if vs == [] then [] else [PyNormalize(vs[0])] + PyNormalizeAll(vs[1..])
  }

  function PyNormalizeFields(fs: seq<Field>): (ns: seq<Field>)
    ensures |ns| == |fs|
  {
    if fs == [] then [] else [Field(fs[0].key, PyNormalize(fs[0].value))] + PyNormalizeFields(fs[1..])
  }

  lemma PyStringReads(s: Text)
    ensures ReadsAs(PyQuote(s), Str(s))
  {
    forall rest
      ensures ParseValue(PyQuote(s) + rest) == Some((Str(s), rest))
    {
      PyQuoteReads(s, rest);
      assert (PyQuote(s) + rest)[0] == QUOTE;
    }
  }

  lemma {:induction false} PyMembersRead(es: seq<Entry>, fs: seq<Field>)
    requires Matched(es, fs)
    ensures MembersReadAs(Map(PyMember, es), fs)
    decreases |es|
  {
    if es != [] {
      PyMembersRead(es[1..], fs[1..]);
      assert Map(PyMember, es)[1..] == Map(PyMember, es[1..]);
      forall rest
        ensures ReadString(PyQuote(es[0].key) + rest) == Some((fs[0].key, rest))
      {
        PyQuoteReads(es[0].key, rest);
      }
      MemberReads(PyQuote(es[0].key), es[0].text, fs[0]);
    }
  }

  /** Whatever follows, the server's text is read as the value in the server's order of fields. */
  lemma {:induction false} PyCanonicalReads(v: Value)
    requires Shared(v) && Printable(v)
    ensures ReadsAs(PyCanonical(v), PyNormalize(v))
    decreases v
  {
    match v
    case Int(i) =>
      DecimalReads(i);
      NumberReads(Decimal(i));
    case Float(token) =>
      NumberReads(token);
    case Str(s) =>
      PyStringReads(s);
    case Arr(elems) =>
      PyTextsRead(elems);
      ArrayReads(PyTexts(elems), PyNormalizeAll(elems));
    case Obj(fields) =>
      PyEntriesRead(fields);
      SortMatched(PyEntryLeq, PyFieldLeq, PyEntries(fields), PyNormalizeFields(fields));
      PyMembersRead(Sort(PyEntryLeq, PyEntries(fields)), Sort(PyFieldLeq, PyNormalizeFields(fields)));
      ObjectReads(Map(PyMember, Sort(PyEntryLeq, PyEntries(fields))), Sort(PyFieldLeq, PyNormalizeFields(fields)));
    case _ =>
      WordReads();
  }

  lemma {:induction false} PyTextsRead(vs: seq<Value>)
    requires forall i :: 0 <= i < |vs| ==> Shared(vs[i]) && Printable(vs[i])
    ensures AllReadAs(PyTexts(vs), PyNormalizeAll(vs))
    decreases vs
  {
    if vs != [] {
      PyCanonicalReads(vs[0]);
      PyTextsRead(vs[1..]);
    }
  }

  lemma {:induction false} PyEntriesRead(fs: seq<Field>)
    requires forall i :: 0 <= i < |fs| ==> Shared(fs[i].value) && Printable(fs[i].value)
    ensures Matched(PyEntries(fs), PyNormalizeFields(fs))
    decreases fs
  {
    if fs != [] {
      PyCanonicalReads(fs[0].value);
      PyEntriesRead(fs[1..]);
    }
  }

  // ---- what the way costs

  /** The number of fields and of floats that Python prints otherwise. */
  function Weight(py: Text -> Text, v: Value): nat {
    match v
    case Float(token) => if py(token) == token then 0 else 1
    case Arr(elems) => WeightAll(py, elems)
    case Obj(fields) => WeightFields(py, fields)
    case _ => 0
  }

  function WeightAll(py: Text -> Text, vs: seq<Value>): nat {
    if vs == [] then 0 else Weight(py, vs[0]) + WeightAll(py, vs[1..])
  }

  function WeightFields(py: Text -> Text, fs: seq<Field>): nat {
    if fs == [] then 0 else 1 + Weight(py, fs[0].value) + WeightFields(py, fs[1..])
  }

  lemma {:induction false} InsertWeighs(py: Text -> Text, leq: (Field, Field) -> bool, f: Field, fs: seq<Field>)
    ensures WeightFields(py, Insert(leq, f, fs)) == 1 + Weight(py, f.value) + WeightFields(py, fs)
  {
    if fs == [] || leq(f, fs[0]) {
      assert fs == [] ==> [f] + fs == [f];
      assert ([f] + fs)[1..] == fs;
    } else {
      InsertWeighs(py, leq, f, fs[1..]);
      assert ([fs[0]] + Insert(leq, f, fs[1..]))[1..] == Insert(leq, f, fs[1..]);
    }
  }

  /** Sorting does not change the weight. */
  lemma {:induction false} SortWeighs(py: Text -> Text, leq: (Field, Field) -> bool, fs: seq<Field>)
    ensures WeightFields(py, Sort(leq, fs)) == WeightFields(py, fs)
  {
    if fs != [] {
      SortWeighs(py, leq, fs[1..]);
      InsertWeighs(py, leq, fs[0], Sort(leq, fs[1..]));
    }
  }

  lemma {:induction false} NormalWeighs(py: Text -> Text, v: Value)
    ensures Weight(py, Normalize(v)) == Weight(py, v)
    decreases v
  {
    match v
    case Arr(elems) => NormalAllWeigh(py, elems);
    case Obj(fields) =>
      NormalFieldsWeigh(py, fields);
      SortWeighs(py, FieldLeq, NormalizeFields(fields));
    case _ =>
  }

  lemma {:induction false} NormalAllWeigh(py: Text -> Text, vs: seq<Value>)
    ensures WeightAll(py, NormalizeAll(vs)) == WeightAll(py, vs)
    decreases vs
  {
    if vs != [] {
      NormalWeighs(py, vs[0]);
      NormalAllWeigh(py, vs[1..]);
    }
  }

  lemma {:induction false} NormalFieldsWeigh(py: Text -> Text, fs: seq<Field>)
    ensures WeightFields(py, NormalizeFields(fs)) == WeightFields(py, fs)
    decreases fs
  {
    if fs != [] {
      NormalWeighs(py, fs[0].value);
      NormalFieldsWeigh(py, fs[1..]);
    }
  }

  lemma {:induction false} PyNormalWeighs(py: Text -> Text, v: Value)
    ensures Weight(py, PyNormalize(v)) == Weight(py, v)
    decreases v
  {
    match v
    case Arr(elems) => PyNormalAllWeigh(py, elems);
    case Obj(fields) =>
      PyNormalFieldsWeigh(py, fields);
      SortWeighs(py, PyFieldLeq, PyNormalizeFields(fields));
    case _ =>
  }

  lemma {:induction false} PyNormalAllWeigh(py: Text -> Text, vs: seq<Value>)
    ensures WeightAll(py, PyNormalizeAll(vs)) == WeightAll(py, vs)
    decreases vs
  {
    if vs != [] {
      PyNormalWeighs(py, vs[0]);
      PyNormalAllWeigh(py, vs[1..]);
    }
  }

  lemma {:induction false} PyNormalFieldsWeigh(py: Text -> Text, fs: seq<Field>)
    ensures WeightFields(py, PyNormalizeFields(fs)) == WeightFields(py, fs)
    decreases fs
  {
    if fs != [] {
      PyNormalWeighs(py, fs[0].value);
      PyNormalFieldsWeigh(py, fs[1..]);
    }
  }

  /** The way to the server never adds weight, and takes none exactly from intact values. */
  lemma {:induction false} WireWeighs(py: Text -> Text, v: Value)
    requires Prints(py, v)
    ensures Weight(py, Wire(py, v)) <= Weight(py, v)
    ensures Weight(py, Wire(py, v)) == Weight(py, v) <==> Intact(py, v)
    decreases v
  {
    match v
    case Arr(elems) => WireAllWeigh(py, elems);
    case Obj(fields) => WireFieldsWeigh(py, fields);
    case _ =>
  }

  lemma {:induction false} WireAllWeigh(py: Text -> Text, vs: seq<Value>)
    requires forall i :: 0 <= i < |vs| ==> Prints(py, vs[i])
    ensures WeightAll(py, WireAll(py, vs)) <= WeightAll(py, vs)
    ensures WeightAll(py, WireAll(py, vs)) == WeightAll(py, vs) <==> AllIntact(py, vs)
    decreases vs
  {
    if vs != [] {
      WireWeighs(py, vs[0]);
      WireAllWeigh(py, vs[1..]);
    }
  }

  lemma {:induction false} WireFieldsWeigh(py: Text -> Text, fs: seq<Field>)
    requires forall i :: 0 <= i < |fs| ==> Prints(py, fs[i].value)
    ensures WeightFields(py, WireFields(py, fs)) <= WeightFields(py, fs)
    ensures WeightFields(py, WireFields(py, fs)) == WeightFields(py, fs) <==> FieldsIntact(py, fs)
    decreases fs
  {
    if fs != [] {
      WireWeighs(py, fs[0].value);
      WireFieldsWeigh(py, fs[1..]);
    }
  }

  // ---- intact values print the same before and after

  lemma {:induction false} IntactPrintsSame(py: Text -> Text, v: Value)
    requires Intact(py, v)
    ensures Canonical(Wire(py, v)) == Canonical(v) && Alike(Wire(py, v)) == Alike(v)
    decreases v
  {
    match v
    case Arr(elems) =>
      IntactTextsSame(py, elems);
      ArrayAlike(elems);
      ArrayAlike(WireAll(py, elems));
    case Obj(fields) =>
      IntactEntriesSame(py, fields);
      ObjectAlike(fields);
      ObjectAlike(WireFields(py, fields));
    case _ =>
  }

  lemma {:induction false} IntactTextsSame(py: Text -> Text, vs: seq<Value>)
    requires AllIntact(py, vs)
    ensures Texts(WireAll(py, vs)) == Texts(vs) && AllAlike(WireAll(py, vs)) == AllAlike(vs)
    decreases vs
  {
    if vs != [] {
      IntactPrintsSame(py, vs[0]);
      IntactTextsSame(py, vs[1..]);
    }
  }

  lemma {:induction false} IntactEntriesSame(py: Text -> Text, fs: seq<Field>)
    requires FieldsIntact(py, fs)
    ensures Entries(WireFields(py, fs)) == Entries(fs) && FieldsAlike(WireFields(py, fs)) == FieldsAlike(fs)
    decreases fs
  {
    if fs != [] {
      IntactPrintsSame(py, fs[0].value);
      IntactEntriesSame(py, fs[1..]);
    }
  }

  // ---- the agreement

  lemma {:induction false} SameTextIsIntact(py: Text -> Text, v: Value)
    requires Printable(v) && Prints(py, v)
    requires Canonical(v) == PyCanonical(Wire(py, v))
    ensures Intact(py, v)
  {
    var w := Wire(py, v);
    WirePrintable(py, v);
    Decodes(v);
    PyCanonicalReads(w);
    assert Terminated([]) && PyCanonical(w) + [] == PyCanonical(w);
    assert Normalize(v) == PyNormalize(w);
    NormalWeighs(py, v);
    PyNormalWeighs(py, w);
    WireWeighs(py, v);
  }

  /** Client and server hash the same text for a payload exactly if no object in it has an
      undefined field, Python prints its floats as JavaScript does, and its strings and keys hold
      only units up to tilde and surrogates that are not part of a pair. Undefined elements and
      non-finite numbers do no harm. */
  lemma {:induction false} HashedTextsAgreeIff(py: Text -> Text, v: Value)
    requires Printable(v) && Prints(py, v) && !v.Undefined?
    ensures Canonical(v) == PyCanonical(Wire(py, v)) <==> Intact(py, v) && Alike(v)
  {
    if Canonical(v) == PyCanonical(Wire(py, v)) {
      SameTextIsIntact(py, v);
    }
    if Intact(py, v) {
      IntactPrintsSame(py, v);
      TextsAgreeIff(Wire(py, v));
    }
  }

  /** An undefined field is printed as null by the client and is missing at the server. */
  lemma UndefinedFieldDisagrees(py: Text -> Text, key: Text)
    ensures Canonical(Obj([Field(key, Undefined)])) != PyCanonical(Wire(py, Obj([Field(key, Undefined)])))
  {
    HashedTextsAgreeIff(py, Obj([Field(key, Undefined)]));
  }

  /** JavaScript prints 1e-7 where Python prints 1e-07. */
  lemma SmallFloatDisagrees(py: Text -> Text)
    requires py([49, 101, 45, 55]) == [49, 101, 45, 48, 55]
    ensures Canonical(Float([49, 101, 45, 55])) != PyCanonical(Wire(py, Float([49, 101, 45, 55])))
  {
  }
}
