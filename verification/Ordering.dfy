/** Total orders, library sorting (`sorted`, `list.sort`, `Array.prototype.sort`) and
    the order of strings by code unit. */
module Ordering {

  ghost predicate TotalPreorder<T(!new)>(leq: (T, T) -> bool) {
    && (forall a, b :: leq(a, b) || leq(b, a))
    && (forall a, b, c :: leq(a, b) && leq(b, c) ==> leq(a, c))
  }

  ghost predicate TotalOrder<T(!new)>(leq: (T, T) -> bool) {
    && TotalPreorder(leq)
    && (forall a, b :: leq(a, b) && leq(b, a) ==> a == b)
  }

  /** No two different elements of `s` have the same place in the order. */
  ghost predicate NoTies<T>(leq: (T, T) -> bool, s: seq<T>) {
    forall a, b :: a in s && b in s && leq(a, b) && leq(b, a) ==> a == b
  }

  ghost predicate Sorted<T>(leq: (T, T) -> bool, s: seq<T>) {
    forall i, j :: 0 <= i < j < |s| ==> leq(s[i], s[j])
  }

  function Insert<T>(leq: (T, T) -> bool, x: T, s: seq<T>): (r: seq<T>)
    ensures multiset(r) == multiset(s) + multiset{x}
    ensures |r| == |s| + 1
  {
    if s == [] then [x]
    else if leq(x, s[0]) then
      [x] + s
    else
      assert s == [s[0]] + s[1..];
      [s[0]] + Insert(leq, x, s[1..])
  }

  /** What a call of the library sort returns; equal elements keep their order. */
  function Sort<T>(leq: (T, T) -> bool, s: seq<T>): (r: seq<T>)
    ensures multiset(r) == multiset(s)
    ensures |r| == |s|
  {
    if s == [] then []
    else
      assert s == [s[0]] + s[1..];
      Insert(leq, s[0], Sort(leq, s[1..]))
  }

  lemma {:induction false} InsertKeepsMembers<T>(leq: (T, T) -> bool, x: T, s: seq<T>)
    ensures forall y :: y in Insert(leq, x, s) <==> y == x || y in s
  {
    forall y
      ensures y in Insert(leq, x, s) <==> y == x || y in s
    {
      assert y in Insert(leq, x, s) <==> y in multiset(Insert(leq, x, s));
      assert y in s <==> y in multiset(s);
    }
  }

  lemma {:induction false} SortKeepsMembers<T>(leq: (T, T) -> bool, s: seq<T>)
    ensures forall y :: y in Sort(leq, s) <==> y in s
  {
    forall y
      ensures y in Sort(leq, s) <==> y in s
    {
      assert y in Sort(leq, s) <==> y in multiset(Sort(leq, s));
      assert y in s <==> y in multiset(s);
    }
  }

  lemma {:induction false} InsertSorted<T(!new)>(leq: (T, T) -> bool, x: T, s: seq<T>)
    requires TotalPreorder(leq)
    requires Sorted(leq, s)
    ensures Sorted(leq, Insert(leq, x, s))
  {
    if s != [] && !leq(x, s[0]) {
      InsertSorted(leq, x, s[1..]);
      InsertKeepsMembers(leq, x, s[1..]);
      var tail := Insert(leq, x, s[1..]);
      forall j | 0 <= j < |tail|
        ensures leq(s[0], tail[j])
      {
        assert tail[j] in tail;
        if tail[j] != x {
          assert tail[j] in s[1..];
        }
      }
    } else if s != [] {
      forall j | 0 <= j < |s|
        ensures leq(x, s[j])
      {
        assert j == 0 || leq(s[0], s[j]);
      }
    }
  }

  lemma {:induction false} SortSorted<T(!new)>(leq: (T, T) -> bool, s: seq<T>)
    requires TotalPreorder(leq)
    ensures Sorted(leq, Sort(leq, s))
  {
    if s != [] {
      SortSorted(leq, s[1..]);
      InsertSorted(leq, s[0], Sort(leq, s[1..]));
    }
  }

  /** The head of a sorted listing comes before every member. */
  lemma HeadIsLeast<T(!new)>(leq: (T, T) -> bool, s: seq<T>, x: T)
    requires TotalPreorder(leq) && Sorted(leq, s)
    requires x in multiset(s)
    ensures s != [] && leq(s[0], x)
  {
  }

  lemma RemoveHead<T>(s: seq<T>)
    requires s != []
    ensures multiset(s[1..]) == multiset(s) - multiset{s[0]}
    ensures s[0] in multiset(s)
  {
    assert s == [s[0]] + s[1..];
  }

  /** A multiset without ties has one sorted listing, so sorting forgets the order it was given. */
  lemma {:induction false} SortedUnique<T(!new)>(leq: (T, T) -> bool, a: seq<T>, b: seq<T>)
    requires TotalPreorder(leq) && NoTies(leq, a)
    requires Sorted(leq, a) && Sorted(leq, b)
    requires multiset(a) == multiset(b)
    ensures a == b
  {
    assert |a| == |multiset(a)| == |multiset(b)| == |b|;
    if a != [] {
      RemoveHead(a);
      RemoveHead(b);
      HeadIsLeast(leq, a, b[0]);
      HeadIsLeast(leq, b, a[0]);
      assert b[0] in a by {
        assert b[0] in multiset(a);
      }
      assert a[0] == b[0];
      assert NoTies(leq, a[1..]);
      SortedUnique(leq, a[1..], b[1..]);
      assert a == [a[0]] + a[1..] && b == [b[0]] + b[1..];
    }
  }

  lemma {:induction false} SortForgetsOrder<T(!new)>(leq: (T, T) -> bool, a: seq<T>, b: seq<T>)
    requires TotalPreorder(leq) && NoTies(leq, a)
    requires multiset(a) == multiset(b)
    ensures Sort(leq, a) == Sort(leq, b)
  {
    SortSorted(leq, a);
    SortSorted(leq, b);
    SortKeepsMembers(leq, a);
    SortedUnique(leq, Sort(leq, a), Sort(leq, b));
  }

  lemma {:induction false} SortOfSorted<T(!new)>(leq: (T, T) -> bool, s: seq<T>)
    requires Sorted(leq, s)
    ensures Sort(leq, s) == s
  {
    if s != [] {
      SortOfSorted(leq, s[1..]);
      assert s == [s[0]] + s[1..];
    }
  }

  /** Two orders compare `x` alike with every element of `s`. */
  ghost predicate AgreeOn<T>(leq: (T, T) -> bool, leq': (T, T) -> bool, x: T, s: seq<T>) {
    forall y :: y in s ==> leq(x, y) == leq'(x, y)
  }

  lemma {:induction false} InsertCongruence<T>(leq: (T, T) -> bool, leq': (T, T) -> bool, x: T, s: seq<T>)
    requires AgreeOn(leq, leq', x, s)
    ensures Insert(leq, x, s) == Insert(leq', x, s)
  {
    if s != [] {
      assert s[0] in s;
      InsertCongruence(leq, leq', x, s[1..]);
    }
  }

  /** Two orders that agree on the elements sort them alike. */
  lemma {:induction false} SortCongruence<T>(leq: (T, T) -> bool, leq': (T, T) -> bool, s: seq<T>)
    requires forall x :: x in s ==> AgreeOn(leq, leq', x, s)
    ensures Sort(leq, s) == Sort(leq', s)
  {
    if s != [] {
      var tail := s[1..];
      forall x | x in tail
        ensures AgreeOn(leq, leq', x, tail)
      {
        assert x in s && AgreeOn(leq, leq', x, s);
      }
      SortCongruence(leq, leq', tail);
      assert s[0] in s && AgreeOn(leq, leq', s[0], s);
      AgreeOnSorted(leq, leq', s[0], tail);
      InsertCongruence(leq, leq', s[0], Sort(leq, tail));
    }
  }

  lemma {:induction false} AgreeOnSorted<T>(leq: (T, T) -> bool, leq': (T, T) -> bool, x: T, s: seq<T>)
    requires AgreeOn(leq, leq', x, s)
    ensures AgreeOn(leq, leq', x, Sort(leq, s))
  {
    forall y | y in Sort(leq, s)
      ensures leq(x, y) == leq'(x, y)
    {
      assert y in multiset(Sort(leq, s));
      assert y in multiset(s);
    }
  }

  // ---- mapping

  function Map<S, T>(f: S -> T, s: seq<S>): (r: seq<T>)
    ensures |r| == |s|
    ensures forall i :: 0 <= i < |s| ==> r[i] == f(s[i])
  {
    seq(|s|, i requires 0 <= i < |s| => f(s[i]))
  }

  lemma MapAppend<S, T>(f: S -> T, a: seq<S>, b: seq<S>)
    ensures Map(f, a + b) == Map(f, a) + Map(f, b)
  {
  }

  /** Taking one occurrence of `x` out of `s`. */
  lemma TakeOut<S>(s: seq<S>, x: S) returns (before: seq<S>, after: seq<S>)
    requires x in multiset(s)
    ensures s == before + [x] + after
    ensures multiset(before + after) == multiset(s) - multiset{x}
  {
    assert x in s;
    var j :| 0 <= j < |s| && s[j] == x;
    before, after := s[..j], s[j + 1..];
    assert s == before + [x] + after;
    assert multiset(s) == multiset(before + after) + multiset{x};
  }

  lemma {:induction false} MapPermutation<S, T>(f: S -> T, a: seq<S>, b: seq<S>)
    requires multiset(a) == multiset(b)
    ensures multiset(Map(f, a)) == multiset(Map(f, b))
    decreases |a|
  {
    if a == [] {
      assert |multiset(b)| == 0;
    } else {
      RemoveHead(a);
      var before, after := TakeOut(b, a[0]);
      MapPermutation(f, a[1..], before + after);
      MapAppend(f, before, after);
      MapAppend(f, before + [a[0]], after);
      MapAppend(f, before, [a[0]]);
      assert Map(f, [a[0]]) == [f(a[0])];
      assert Map(f, a) == [f(a[0])] + Map(f, a[1..]);
    }
  }

  // ---- no repeated elements

  ghost predicate NoRepeats<T>(s: seq<T>) {
    forall i, j :: 0 <= i < j < |s| ==> s[i] != s[j]
  }

  lemma {:induction false} NoRepeatsMultiset<T>(s: seq<T>)
    ensures NoRepeats(s) <==> forall x :: x in multiset(s) ==> multiset(s)[x] == 1
  {
    if s != [] {
      var t := s[1..];
      assert s == [s[0]] + t;
      NoRepeatsMultiset(t);
      assert multiset(s) == multiset(t) + multiset{s[0]};
      if NoRepeats(s) {
        assert NoRepeats(t) by {
          forall i, j | 0 <= i < j < |t|
            ensures t[i] != t[j]
          {
            assert s[i + 1] != s[j + 1];
          }
        }
        assert s[0] !in t;
        assert s[0] !in multiset(t);
      } else {
        var i, j :| 0 <= i < j < |s| && s[i] == s[j];
        if i == 0 {
          assert s[j] == t[j - 1];
          assert s[0] in multiset(t);
          assert multiset(s)[s[0]] >= 2;
        } else {
          assert t[i - 1] == t[j - 1];
          assert !NoRepeats(t);
          var x :| x in multiset(t) && multiset(t)[x] != 1;
          assert multiset(s)[x] != 1;
        }
      }
    }
  }

  // ---- strings compared unit by unit

  /** `a` comes before `b` in a dictionary whose letters are ordered by `leq`. */
  predicate LexLeq<T(==)>(leq: (T, T) -> bool, a: seq<T>, b: seq<T>) {
    if a == [] then true
    else if b == [] then false
    else if a[0] == b[0] then LexLeq(leq, a[1..], b[1..])
    else leq(a[0], b[0])
  }

  /** The first place where the two differ, where both go on. */
  ghost predicate DifferAt<T>(a: seq<T>, b: seq<T>, k: int) {
    0 <= k < |a| && k < |b| && a[..k] == b[..k] && a[k] != b[k]
  }

  /** In plain terms: `a` is a prefix, or smaller at the first place where the two differ. */
  lemma TailsDiffer<T>(a: seq<T>, b: seq<T>, k: nat)
    requires a != [] && b != [] && a[0] == b[0]
    ensures DifferAt(a[1..], b[1..], k) <==> DifferAt(a, b, k + 1)
  {
    if k + 1 < |a| && k + 1 < |b| {
      assert a[..k + 1] == [a[0]] + a[1..][..k] && b[..k + 1] == [b[0]] + b[1..][..k];
    }
  }

  /** In plain terms: `a` is a prefix, or smaller at the first place where the two differ. */
  lemma {:induction false} LexLeqIs<T>(leq: (T, T) -> bool, a: seq<T>, b: seq<T>)
    ensures LexLeq(leq, a, b) <==> a <= b || exists k :: DifferAt(a, b, k) && leq(a[k], b[k])
  {
    if a != [] && b != [] && a[0] == b[0] {
      LexLeqIs(leq, a[1..], b[1..]);
      assert a == [a[0]] + a[1..] && b == [b[0]] + b[1..];
      if k :| DifferAt(a[1..], b[1..], k) && leq(a[1..][k], b[1..][k]) {
        TailsDiffer(a, b, k);
      }
      if k :| DifferAt(a, b, k) && leq(a[k], b[k]) {
        assert k > 0;
        TailsDiffer(a, b, k - 1);
      }
    } else if a != [] && b != [] {
      assert DifferAt(a, b, 0);
      if k :| DifferAt(a, b, k) && leq(a[k], b[k]) {
        assert k > 0 ==> a[..k][0] == b[..k][0];
      }
    }
  }

  lemma {:induction false} LexTotal<T(!new)>(leq: (T, T) -> bool, a: seq<T>, b: seq<T>)
    requires TotalOrder(leq)
    ensures LexLeq(leq, a, b) || LexLeq(leq, b, a)
  {
    if a != [] && b != [] && a[0] == b[0] {
      LexTotal(leq, a[1..], b[1..]);
    }
  }

  lemma {:induction false} LexAntisymmetric<T(!new)>(leq: (T, T) -> bool, a: seq<T>, b: seq<T>)
    requires TotalOrder(leq)
    requires LexLeq(leq, a, b) && LexLeq(leq, b, a)
    ensures a == b
  {
    if a != [] && b != [] {
      if a[0] == b[0] {
        LexAntisymmetric(leq, a[1..], b[1..]);
        assert a == [a[0]] + a[1..] && b == [b[0]] + b[1..];
      }
    }
  }

  lemma {:induction false} LexTransitive<T(!new)>(leq: (T, T) -> bool, a: seq<T>, b: seq<T>, c: seq<T>)
    requires TotalOrder(leq)
    requires LexLeq(leq, a, b) && LexLeq(leq, b, c)
    ensures LexLeq(leq, a, c)
  {
    if a != [] && b != [] && c != [] && a[0] == b[0] && b[0] == c[0] {
      LexTransitive(leq, a[1..], b[1..], c[1..]);
    }
  }

  lemma LexIsTotalOrder<T(!new)>(leq: (T, T) -> bool)
    requires TotalOrder(leq)
    ensures TotalOrder((a: seq<T>, b: seq<T>) => LexLeq(leq, a, b))
  {
    forall a: seq<T>, b: seq<T>
      ensures LexLeq(leq, a, b) || LexLeq(leq, b, a)
      ensures LexLeq(leq, a, b) && LexLeq(leq, b, a) ==> a == b
    {
      LexTotal(leq, a, b);
      if LexLeq(leq, a, b) && LexLeq(leq, b, a) {
        LexAntisymmetric(leq, a, b);
      }
    }
    forall a: seq<T>, b: seq<T>, c: seq<T> | LexLeq(leq, a, b) && LexLeq(leq, b, c)
      ensures LexLeq(leq, a, c)
    {
      LexTransitive(leq, a, b, c);
    }
  }

  predicate CharLeq(a: char, b: char) {
    a <= b
  }

  predicate StringLeq(a: string, b: string) {
    LexLeq(CharLeq, a, b)
  }

  lemma StringOrder()
    ensures TotalOrder(StringLeq)
  {
    assert TotalOrder(CharLeq);
    LexIsTotalOrder(CharLeq);
    forall a: string, b: string, c: string
      ensures StringLeq(a, b) || StringLeq(b, a)
      ensures StringLeq(a, b) && StringLeq(b, a) ==> a == b
      ensures StringLeq(a, b) && StringLeq(b, c) ==> StringLeq(a, c)
    {
      LexTotal(CharLeq, a, b);
      if StringLeq(a, b) && StringLeq(b, a) {
        LexAntisymmetric(CharLeq, a, b);
      }
      if StringLeq(a, b) && StringLeq(b, c) {
        LexTransitive(CharLeq, a, b, c);
      }
    }
  }

  /** The order of strings: by the first unit that differs, and a prefix first. */
  lemma StringLeqIs(a: string, b: string)
    ensures StringLeq(a, b) <==> a <= b || exists k :: DifferAt(a, b, k) && a[k] < b[k]
  {
    LexLeqIs(CharLeq, a, b);
    forall k | DifferAt(a, b, k)
      ensures CharLeq(a[k], b[k]) <==> a[k] < b[k]
    {
    }
  }
}
