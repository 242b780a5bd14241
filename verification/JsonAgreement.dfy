/** The server's canonical text, `canonical_json` of app/domain/events.py, and exactly when it is
    the client's `canonicalJson` of web/offline-core.js. */
module JsonAgreement {
  import opened Ordering
  import opened JsonText
  import opened CanonicalJson

  /** The code points of a string: a surrogate pair is one. */
  function CodePoints(s: Text): (c: seq<int>)
    decreases |s|
  {
    if s == [] then []
    else if StartsWithPair(s) then
      [0x10000 + (s[0] - 0xD800) * 0x400 + (s[1] - 0xDC00)] + CodePoints(s[2..])
    else [s[0]] + CodePoints(s[1..])
  }

  /** Key order of Python's `sort_keys`: by code point. */
  predicate PyEntryLeq(a: Entry, b: Entry) {
    LexLeq<int>(IntLeq, CodePoints(a.key), CodePoints(b.key))
  }

  function PyMember(e: Entry): Text {
    PyQuote(e.key) + [COLON] + e.text
  }

  /** Values that the server can hold: nothing is undefined or a non-finite number. */
  predicate Shared(v: Value) {
    match v
    case Undefined => false
    case NonFinite => false
    case Arr(elems) => forall i :: 0 <= i < |elems| ==> Shared(elems[i])
    case Obj(fields) => forall i :: 0 <= i < |fields| ==> Shared(fields[i].value)
    case _ => true
  }

  /** `json.dumps` with sorted keys, compact separators and ASCII output; the token of a float is
      Python's. */
  function PyCanonical(v: Value): Text
    requires Shared(v)
  {
    match v
    case Null => NULL
    case Bool(b) => if b then TRUE else FALSE
    case Int(i) => Decimal(i)
    case Float(token) => token
    case Str(s) => PyQuote(s)
    case Arr(elems) => [LBRACKET] + Join(PyTexts(elems)) + [RBRACKET]
    case Obj(fields) => [LBRACE] + Join(Map(PyMember, Sort(PyEntryLeq, PyEntries(fields)))) + [RBRACE]
  }

  function PyTexts(vs: seq<Value>): (ts: seq<Text>)
    requires forall i :: 0 <= i < |vs| ==> Shared(vs[i])
    ensures |ts| == |vs|
  {
    if vs == [] then [] else [PyCanonical(vs[0])] + PyTexts(vs[1..])
  }

  function PyEntries(fs: seq<Field>): (es: seq<Entry>)
    requires forall i :: 0 <= i < |fs| ==> Shared(fs[i].value)
    ensures |es| == |fs|
  {
    if fs == [] then [] else [Entry(fs[0].key, PyCanonical(fs[0].value))] + PyEntries(fs[1..])
  }

  /** Every string and every key is written alike by both sides. */
  predicate Alike(v: Value) {
    match v
    case Str(s) => Agreeable(s)
    case Arr(elems) => forall i :: 0 <= i < |elems| ==> Alike(elems[i])
    case Obj(fields) => forall i :: 0 <= i < |fields| ==> Agreeable(fields[i].key) && Alike(fields[i].value)
    case _ => true
  }

  predicate AllAlike(vs: seq<Value>) {
    vs == [] || (Alike(vs[0]) && AllAlike(vs[1..]))
  }

  predicate FieldsAlike(fs: seq<Field>) {
    fs == [] || (Agreeable(fs[0].key) && Alike(fs[0].value) && FieldsAlike(fs[1..]))
  }

  lemma {:induction false} AllAlikeIff(vs: seq<Value>)
    ensures AllAlike(vs) <==> forall i :: 0 <= i < |vs| ==> Alike(vs[i])
  {
    if vs != [] {
      AllAlikeIff(vs[1..]);
      if AllAlike(vs) {
        forall i | 0 <= i < |vs|
          ensures Alike(vs[i])
        {
          assert i > 0 ==> vs[i] == vs[1..][i - 1];
        }
      }
    }
  }

  predicate FieldAlike(f: Field) {
    Agreeable(f.key) && Alike(f.value)
  }

  lemma {:induction false} FieldsAlikeIff(fs: seq<Field>)
    ensures FieldsAlike(fs) <==> forall i :: 0 <= i < |fs| ==> FieldAlike(fs[i])
  {
    if fs != [] {
      FieldsAlikeIff(fs[1..]);
      if FieldsAlike(fs) {
        forall i | 0 <= i < |fs|
          ensures FieldAlike(fs[i])
        {
          assert i > 0 ==> fs[i] == fs[1..][i - 1];
        }
      } else if FieldAlike(fs[0]) {
        var i :| 0 <= i < |fs[1..]| && !FieldAlike(fs[1..][i]);
        assert !FieldAlike(fs[i + 1]);
      }
    }
  }

  lemma {:induction false} ArrayAlike(vs: seq<Value>)
    ensures AllAlike(vs) == Alike(Arr(vs))
  {
    AllAlikeIff(vs);
  }

  lemma {:induction false} ObjectAlike(fs: seq<Field>)
    ensures FieldsAlike(fs) == Alike(Obj(fs))
  {
    FieldsAlikeIff(fs);
  }

  // ---- lengths

  function Total(ts: seq<Text>): nat {
    if ts == [] then 0 else |ts[0]| + Total(ts[1..])
  }

  lemma {:induction false} JoinLength(ts: seq<Text>)
    requires ts != []
    ensures |Join(ts)| == Total(ts) + |ts| - 1
  {
    if |ts| > 1 {
      JoinLength(ts[1..]);
    } else {
      assert Total(ts[1..]) == 0;
    }
  }

  lemma MapCons(f: Entry -> Text, e: Entry, es: seq<Entry>)
    ensures Map(f, [e] + es) == [f(e)] + Map(f, es)
    ensures Total(Map(f, [e] + es)) == |f(e)| + Total(Map(f, es))
  {
  }

  lemma {:induction false} InsertTotal(f: Entry -> Text, leq: (Entry, Entry) -> bool, e: Entry, es: seq<Entry>)
    ensures Total(Map(f, Insert(leq, e, es))) == |f(e)| + Total(Map(f, es))
  {
    if es == [] || leq(e, es[0]) {
      MapCons(f, e, es);
      assert es == [] ==> [e] + es == [e];
    } else {
      InsertTotal(f, leq, e, es[1..]);
      MapCons(f, es[0], Insert(leq, e, es[1..]));
      MapCons(f, es[0], es[1..]);
      assert es == [es[0]] + es[1..];
    }
  }

  /** Sorting members does not change how much text they make. */
  lemma {:induction false} SortTotal(f: Entry -> Text, leq: (Entry, Entry) -> bool, es: seq<Entry>)
    ensures Total(Map(f, Sort(leq, es))) == Total(Map(f, es))
  {
    if es != [] {
      SortTotal(f, leq, es[1..]);
      InsertTotal(f, leq, es[0], Sort(leq, es[1..]));
      MapCons(f, es[0], es[1..]);
      assert es == [es[0]] + es[1..];
    }
  }

  // ---- keys

  /** An agreeable string holds no pair, so units and code points are one. */
  lemma {:induction false} AgreeableCodePoints(s: Text)
    requires Agreeable(s)
    ensures CodePoints(s) == s
  {
    if s != [] {
      AgreeableCodePoints(s[1..]);
      assert s == [s[0]] + s[1..];
    }
  }

  lemma {:induction false} SameOrder(es: seq<Entry>)
    requires forall e :: e in es ==> Agreeable(e.key)
    ensures Sort(EntryLeq, es) == Sort(PyEntryLeq, es)
  {
    forall e | e in es
      ensures AgreeOn(EntryLeq, PyEntryLeq, e, es)
    {
      forall g | g in es
        ensures EntryLeq(e, g) == PyEntryLeq(e, g)
      {
        AgreeableCodePoints(e.key);
        AgreeableCodePoints(g.key);
      }
    }
    SortCongruence(EntryLeq, PyEntryLeq, es);
  }

  lemma {:induction false} SameMembers(es: seq<Entry>)
    requires forall e :: e in es ==> Agreeable(e.key)
    ensures Map(Member, Sort(EntryLeq, es)) == Map(PyMember, Sort(PyEntryLeq, es))
  {
    SameOrder(es);
    var sorted := Sort(EntryLeq, es);
    SortKeepsMembers(EntryLeq, es);
    forall i | 0 <= i < |sorted|
      ensures Member(sorted[i]) == PyMember(sorted[i])
    {
      assert sorted[i] in sorted;
      QuoteLengths(sorted[i].key);
    }
    assert Map(Member, sorted) == Map(PyMember, sorted);
  }

  // ---- the agreement

  /** What is proved of the two texts of one value: the client's is no longer, as long only for
      alike values, and equal for those. */
  ghost predicate Compared(text: Text, pyText: Text, alike: bool) {
    && |text| <= |pyText|
    && (|text| == |pyText| ==> alike)
    && (alike ==> text == pyText)
  }

  lemma {:induction false} CompareScalar(v: Value)
    requires Shared(v) && !v.Arr? && !v.Obj?
    ensures Compared(Canonical(v), PyCanonical(v), Alike(v))
  {
    if v.Str? {
      QuoteLengths(v.s);
    }
  }

  lemma {:induction false} Compare(v: Value)
    requires Shared(v)
    ensures Compared(Canonical(v), PyCanonical(v), Alike(v))
    decreases v
  {
    if v.Arr? {
      CompareTexts(v.elems);
      CompareArrays(v.elems);
    } else if v.Obj? {
      CompareEntries(v.fields);
      CompareObjects(v.fields);
    } else {
      CompareScalar(v);
    }
  }

  lemma {:induction false} CompareTexts(vs: seq<Value>)
    requires forall i :: 0 <= i < |vs| ==> Shared(vs[i])
    ensures Total(Texts(vs)) <= Total(PyTexts(vs))
    ensures Total(Texts(vs)) == Total(PyTexts(vs)) ==> AllAlike(vs)
    ensures AllAlike(vs) ==> Texts(vs) == PyTexts(vs)
    decreases vs
  {
    if vs != [] {
      Compare(vs[0]);
      CompareTexts(vs[1..]);
      assert Texts(vs)[1..] == Texts(vs[1..]) && PyTexts(vs)[1..] == PyTexts(vs[1..]);
    }
  }

  lemma BracketsCompare(open: Unit, close: Unit, body: Text, pyBody: Text, alike: bool)
    requires Compared(body, pyBody, alike)
    ensures Compared([open] + body + [close], [open] + pyBody + [close], alike)
  {
  }

  lemma {:induction false} CompareArrays(vs: seq<Value>)
    requires forall i :: 0 <= i < |vs| ==> Shared(vs[i])
    requires Total(Texts(vs)) <= Total(PyTexts(vs))
    requires Total(Texts(vs)) == Total(PyTexts(vs)) ==> AllAlike(vs)
    requires AllAlike(vs) ==> Texts(vs) == PyTexts(vs)
    ensures Compared(Canonical(Arr(vs)), PyCanonical(Arr(vs)), Alike(Arr(vs)))
  {
    ArrayAlike(vs);
    JoinsCompare(Texts(vs), PyTexts(vs), AllAlike(vs));
    BracketsCompare(LBRACKET, RBRACKET, Join(Texts(vs)), Join(PyTexts(vs)), AllAlike(vs));
  }

  lemma {:induction false} JoinsCompare(ts: seq<Text>, pyTs: seq<Text>, alike: bool)
    requires |ts| == |pyTs| && Total(ts) <= Total(pyTs)
    requires Total(ts) == Total(pyTs) ==> alike
    requires alike ==> ts == pyTs
    ensures Compared(Join(ts), Join(pyTs), alike)
  {
    if ts != [] {
      JoinLength(ts);
      JoinLength(pyTs);
    }
  }

  /** The members of an object, not yet sorted. */
  ghost predicate ComparedEntries(es: seq<Entry>, pyEs: seq<Entry>, alike: bool) {
    && Total(Map(Member, es)) <= Total(Map(PyMember, pyEs))
    && (Total(Map(Member, es)) == Total(Map(PyMember, pyEs)) ==> alike)
    && (alike ==> es == pyEs && forall e :: e in es ==> Agreeable(e.key))
  }

  lemma {:induction false} CompareEntries(fs: seq<Field>)
    requires forall i :: 0 <= i < |fs| ==> Shared(fs[i].value)
    ensures ComparedEntries(Entries(fs), PyEntries(fs), FieldsAlike(fs))
    decreases fs
  {
    if fs != [] {
      Compare(fs[0].value);
      QuoteLengths(fs[0].key);
      CompareEntries(fs[1..]);
      MapCons(Member, Entry(fs[0].key, Canonical(fs[0].value)), Entries(fs[1..]));
      MapCons(PyMember, Entry(fs[0].key, PyCanonical(fs[0].value)), PyEntries(fs[1..]));
    }
  }

  lemma {:induction false} CompareObjects(fs: seq<Field>)
    requires forall i :: 0 <= i < |fs| ==> Shared(fs[i].value)
    requires ComparedEntries(Entries(fs), PyEntries(fs), FieldsAlike(fs))
    ensures Compared(Canonical(Obj(fs)), PyCanonical(Obj(fs)), Alike(Obj(fs)))
  {
    ObjectAlike(fs);
    CompareMembers(Entries(fs), PyEntries(fs), FieldsAlike(fs));
    BracketsCompare(LBRACE, RBRACE, Join(Map(Member, Sort(EntryLeq, Entries(fs)))),
                    Join(Map(PyMember, Sort(PyEntryLeq, PyEntries(fs)))), FieldsAlike(fs));
  }

  lemma {:induction false} CompareMembers(es: seq<Entry>, pyEs: seq<Entry>, alike: bool)
    requires |es| == |pyEs| && ComparedEntries(es, pyEs, alike)
    ensures Compared(Join(Map(Member, Sort(EntryLeq, es))), Join(Map(PyMember, Sort(PyEntryLeq, pyEs))), alike)
  {
    SortTotal(Member, EntryLeq, es);
    SortTotal(PyMember, PyEntryLeq, pyEs);
    if alike {
      SameMembers(es);
    }
    JoinsCompare(Map(Member, Sort(EntryLeq, es)), Map(PyMember, Sort(PyEntryLeq, pyEs)), alike);
  }

  /** The two printers write one value alike exactly if all of its strings and keys hold only
      units up to tilde and surrogates that are not part of a pair. */
  lemma {:induction false} TextsAgreeIff(v: Value)
    requires Shared(v)
    ensures Canonical(v) == PyCanonical(v) <==> Alike(v)
  {
    Compare(v);
  }

  /** In particular printable ASCII is safe. */
  lemma {:induction false} PrintableAsciiAgrees(s: Text)
    requires forall i :: 0 <= i < |s| ==> 32 <= s[i] <= 126
    ensures Agreeable(s)
  {
    if s != [] {
      assert forall i :: 0 <= i < |s[1..]| ==> s[1..][i] == s[i + 1];
      PrintableAsciiAgrees(s[1..]);
    }
  }

  /** An accented letter or an emoji in a payload gives two different texts. */
  lemma AccentsDisagree()
    ensures Canonical(Str([233])) != PyCanonical(Str([233]))
    ensures Canonical(Str([0xD83D, 0xDE00])) != PyCanonical(Str([0xD83D, 0xDE00]))
  {
  }
}
