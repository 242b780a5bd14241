/** `_strip_outer_parentheses` of scripts/verify_memory_parity.py: an index scan that peels
    matched outer parentheses off a policy expression, against a definition of matching by
    balanced contents. */
module Parentheses {

  /** Opening minus closing parentheses. */
  function Depth(s: string): int {
    if s == "" then 0
    else Depth(s[..|s| - 1]) + (if s[|s| - 1] == '(' then 1 else if s[|s| - 1] == ')' then -1 else 0)
  }

  predicate Balanced(s: string) {
    Depth(s) == 0 && forall k :: 0 <= k <= |s| ==> Depth(s[..k]) >= 0
  }

  function Wrap(s: string): string {
    "(" + s + ")"
  }

  /** The first and the last character of `s` are parentheses that match each other. */
  predicate Wrapped(s: string) {
    |s| >= 2 && s == Wrap(s[1..|s| - 1]) && Balanced(s[1..|s| - 1])
  }

  /** What is left once no outer pair matches. */
  function Stripped(s: string): (r: string)
    ensures |r| <= |s|
  {
    if Wrapped(s) then Stripped(s[1..|s| - 1]) else s
  }

  lemma {:induction false} DepthConcat(a: string, b: string)
    ensures Depth(a + b) == Depth(a) + Depth(b)
  {
    if b == "" {
      assert a + b == a;
    } else {
      var c := a + b;
      assert c[..|c| - 1] == a + b[..|b| - 1];
      DepthConcat(a, b[..|b| - 1]);
    }
  }

  lemma WrapPrefixDepth(t: string, k: nat)
    requires 1 <= k <= |t| + 1
    ensures Depth(Wrap(t)[..k]) == 1 + Depth(t[..k - 1])
  {
    assert Wrap(t)[..k] == "(" + t[..k - 1];
    assert Depth("(") == 1 by {
      assert "("[..0] == "";
    }
    DepthConcat("(", t[..k - 1]);
  }

  lemma {:induction false} WrapDepth(t: string)
    ensures Depth(Wrap(t)) == Depth(t)
  {
    WrapPrefixDepth(t, |t| + 1);
    assert t[..|t|] == t;
    var s := Wrap(t);
    assert s[..|s| - 1] == s[..|t| + 1];
  }

  /** The scan's verdict, a depth that stays positive until the very end, is exactly that
      the outer pair matches. */
  lemma {:induction false} WrappedIffDepthStaysPositive(s: string)
    requires |s| >= 2 && s[0] == '(' && s[|s| - 1] == ')'
    ensures Wrapped(s) <==> Depth(s) == 0 && forall k :: 1 <= k < |s| ==> Depth(s[..k]) > 0
  {
    var t := s[1..|s| - 1];
    assert s == Wrap(t);
    WrapDepth(t);
    if Balanced(t) {
      forall k | 1 <= k < |s|
        ensures Depth(s[..k]) > 0
      {
        WrapPrefixDepth(t, k);
      }
    }
    if Depth(s) == 0 && forall k :: 1 <= k < |s| ==> Depth(s[..k]) > 0 {
      forall k | 0 <= k <= |t|
        ensures Depth(t[..k]) >= 0
      {
        WrapPrefixDepth(t, k + 1);
      }
    }
  }

  /** The inner loop of the strip: it stops at the first closing parenthesis that returns to
      depth zero before the end. */
  method OuterPairMatches(expression: string) returns (matches: bool)
    requires |expression| > 0 && expression[0] == '(' && expression[|expression| - 1] == ')'
    ensures matches == Wrapped(expression)
  {
    var depth := 0;
    var wrapsEntireExpression := true;
    var index := 0;
    while index < |expression| && wrapsEntireExpression
      invariant 0 <= index <= |expression|
      invariant wrapsEntireExpression ==> depth == Depth(expression[..index])
      invariant wrapsEntireExpression ==> forall k :: 1 <= k <= index && k < |expression| ==> Depth(expression[..k]) > 0
      invariant !wrapsEntireExpression ==> exists k :: 1 <= k < |expression| && Depth(expression[..k]) <= 0
      decreases |expression| - index, wrapsEntireExpression
    {
      assert expression[..index + 1][..index] == expression[..index];
      var character := expression[index];
      if character == '(' {
        depth := depth + 1;
      } else if character == ')' {
        depth := depth - 1;
        if depth == 0 && index != |expression| - 1 {
          wrapsEntireExpression := false;
          assert Depth(expression[..index + 1]) <= 0;
        }
      }
      index := index + 1;
    }
    assert expression[..|expression|] == expression;
    assert |expression| >= 2;
    WrappedIffDepthStaysPositive(expression);
    matches := wrapsEntireExpression && depth == 0;
  }

  method StripOuterParentheses(input: string) returns (expression: string)
    ensures expression == Stripped(input)
  {
    expression := input;
    while |expression| > 0 && expression[0] == '(' && expression[|expression| - 1] == ')'
      invariant Stripped(expression) == Stripped(input)
      decreases |expression|
    {
      var wrapsEntireExpression := OuterPairMatches(expression);
      if !wrapsEntireExpression {
        break;
      }
      expression := expression[1..|expression| - 1];
    }
  }

  // ---- what the source promises of the result

  /** The characters `i` places from either end are "(" and ")". */
  predicate Layer(s: string, i: nat) {
    2 * i + 1 < |s| && s[i] == '(' && s[|s| - 1 - i] == ')'
  }

  /** `n` outer pairs of `s` match: `n` opening and `n` closing parentheses around
      balanced contents. */
  ghost predicate Peels(s: string, n: nat) {
    && 2 * n <= |s|
    && (forall i: nat :: i < n ==> Layer(s, i))
    && (n > 0 ==> Balanced(s[n..|s| - n]))
  }

  lemma BalancedWrap(t: string)
    requires Balanced(t)
    ensures Balanced(Wrap(t)) && Wrapped(Wrap(t))
  {
    var s := Wrap(t);
    assert s[1..|s| - 1] == t;
    WrapDepth(t);
    forall k | 0 <= k <= |s|
      ensures Depth(s[..k]) >= 0
    {
      if k == |s| {
        assert s[..k] == s;
      } else if k > 0 {
        WrapPrefixDepth(t, k);
      }
    }
  }

  lemma InnerSlice(s: string, n: nat)
    requires 2 * n + 2 <= |s|
    ensures s[1..|s| - 1][n..|s| - 2 - n] == s[n + 1..|s| - 1 - n]
  {
    var t := s[1..|s| - 1];
    var a, b := t[n..|t| - n], s[n + 1..|s| - 1 - n];
    assert |a| == |b| && forall i :: 0 <= i < |a| ==> a[i] == b[i];
  }

  lemma InnerLayer(s: string, i: nat)
    requires |s| >= 2
    ensures Layer(s[1..|s| - 1], i) == Layer(s, i + 1)
  {
  }

  lemma OuterLayer(s: string)
    requires |s| >= 2
    ensures Layer(s, 0) <==> s == Wrap(s[1..|s| - 1])
  {
  }

  lemma PeelsInside(s: string, n: nat)
    requires Peels(s, n + 1)
    ensures Peels(s[1..|s| - 1], n) && s == Wrap(s[1..|s| - 1])
  {
    var t := s[1..|s| - 1];
    assert Layer(s, 0);
    OuterLayer(s);
    InnerSlice(s, n);
    forall i: nat | i < n
      ensures Layer(t, i)
    {
      InnerLayer(s, i);
    }
  }

  lemma PeelsOutside(s: string, n: nat)
    requires Wrapped(s) && Peels(s[1..|s| - 1], n)
    ensures Peels(s, n + 1)
  {
    var t := s[1..|s| - 1];
    forall i: nat | i < n + 1
      ensures Layer(s, i)
    {
      if i == 0 {
        OuterLayer(s);
      } else {
        assert Layer(t, i - 1);
        InnerLayer(s, i - 1);
      }
    }
    CenterOutside(s, n);
  }

  lemma CenterOutside(s: string, n: nat)
    requires Wrapped(s) && 2 * n + 2 <= |s|
    requires n > 0 ==> Balanced(s[1..|s| - 1][n..|s| - 2 - n])
    ensures Balanced(s[n + 1..|s| - 1 - n])
  {
    InnerSlice(s, n);
    var t := s[1..|s| - 1];
    assert t[0..|t| - 0] == t;
  }

  lemma {:induction false} PeelsBalanced(s: string, n: nat)
    requires Peels(s, n + 1)
    ensures Balanced(s[1..|s| - 1])
    decreases n
  {
    PeelsInside(s, n);
    var t := s[1..|s| - 1];
    if n > 0 {
      PeelsBalanced(t, n - 1);
      PeelsInside(t, n - 1);
      BalancedWrap(t[1..|t| - 1]);
    }
  }

  /** Peeling `n + 1` pairs is a matched outer pair and `n` pairs inside it. */
  lemma PeelsStep(s: string, n: nat)
    requires Peels(s, n + 1)
    ensures Wrapped(s) && Peels(s[1..|s| - 1], n)
  {
    PeelsInside(s, n);
    PeelsBalanced(s, n);
  }

  /** How many times the strip peels. */
  ghost function PeelCount(s: string): nat
    decreases |s|
  {
    if Wrapped(s) then 1 + PeelCount(s[1..|s| - 1]) else 0
  }

  lemma {:induction false} CountPeels(s: string)
    ensures Peels(s, PeelCount(s))
    decreases |s|
  {
    if Wrapped(s) {
      CountPeels(s[1..|s| - 1]);
      PeelsOutside(s, PeelCount(s[1..|s| - 1]));
    }
  }

  lemma {:induction false} StripPeels(s: string)
    ensures 2 * PeelCount(s) <= |s| && Stripped(s) == s[PeelCount(s)..|s| - PeelCount(s)]
    decreases |s|
  {
    if Wrapped(s) {
      StripPeels(s[1..|s| - 1]);
      InnerSlice(s, PeelCount(s[1..|s| - 1]));
    }
  }

  lemma {:induction false} NoMorePeels(s: string, n: nat)
    requires Peels(s, n)
    ensures n <= PeelCount(s)
    decreases n
  {
    if n > 0 {
      PeelsStep(s, n - 1);
      NoMorePeels(s[1..|s| - 1], n - 1);
    }
  }

  /** The strip removes the largest number of outer pairs that match each other. */
  lemma {:induction false} StripIsMaximal(s: string)
    ensures exists n: nat ::
              && Peels(s, n)
              && Stripped(s) == s[n..|s| - n]
              && forall m: nat :: Peels(s, m) ==> m <= n
  {
    CountPeels(s);
    StripPeels(s);
    forall m: nat | Peels(s, m)
      ensures m <= PeelCount(s)
    {
      NoMorePeels(s, m);
    }
  }

  /** The result is never wrapped, so a second strip changes nothing; balance survives. */
  lemma {:induction false} StripResult(s: string)
    ensures !Wrapped(Stripped(s))
    ensures Stripped(Stripped(s)) == Stripped(s)
    ensures Balanced(s) ==> Balanced(Stripped(s))
  {
    if Wrapped(s) {
      StripResult(s[1..|s| - 1]);
    }
  }

  /** Parentheses around an expression do not show in the result exactly if it is balanced:
      around an unbalanced one they match other partners. */
  lemma {:induction false} WrappingIsIgnoredIff(s: string)
    ensures Stripped(Wrap(s)) == Stripped(s) <==> Balanced(s)
  {
    assert Wrap(s)[1..|Wrap(s)| - 1] == s;
    if !Balanced(s) {
      assert !Wrapped(Wrap(s));
    }
  }
}
