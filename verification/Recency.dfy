/** Least-recently-used contents of one set as a list, oldest first, and the stack-distance law it obeys. */
module Recency {

  ghost predicate Differ<T>(list: seq<T>, i: int, j: int) {
    0 <= i < j < |list| ==> list[i] != list[j]
  }

  ghost predicate Distinct<T>(list: seq<T>) {
    forall i, j :: Differ(list, i, j)
  }

  /** The elements after position i. */
  ghost function After<T>(list: seq<T>, i: int): set<T>
    requires -1 <= i
  {
    set j | i < j < |list| :: list[j]
  }

  ghost function Elems<T>(list: seq<T>): set<T> {
    After(list, -1)
  }

  /** The first position of x at or after k. */
  function IndexFrom<T(==)>(list: seq<T>, x: T, k: nat): (i: nat)
    requires exists j :: k <= j < |list| && list[j] == x
    ensures k <= i < |list| && list[i] == x && forall j :: k <= j < i ==> list[j] != x
    decreases |list| - k
  {
    if list[k] == x then k else IndexFrom(list, x, k + 1)
  }

  /** The position of x, or |list|. */
  function IndexOf<T(==)>(list: seq<T>, x: T): (i: nat)
    ensures i <= |list| && (i < |list| <==> x in list) && (i < |list| ==> list[i] == x)
  {
    if x in list then IndexFrom(list, x, 0) else |list|
  }

  function Without<T>(list: seq<T>, i: nat): (r: seq<T>)
    requires i <= |list|
    ensures i == |list| ==> r == list
  {
    if i == |list| then list
    else seq(|list| - 1, j requires 0 <= j < |list| - 1 => if j < i then list[j] else list[j + 1])
  }

  lemma WithoutIsErase<T>(list: seq<T>, i: nat)
    requires i < |list|
    ensures Without(list, i) == list[..i] + list[i + 1..]
  {
  }

  /** Touching x moves it to the end; a new x first pushes out the oldest element of a full list. */
  function Touch<T(==)>(list: seq<T>, cap: nat, x: T): seq<T>
    requires 0 < cap
  {
    if x in list || |list| < cap then Push(list, x) else list[1..] + [x]
  }

  function Contents<T(==)>(trace: seq<T>, cap: nat): seq<T>
    requires 0 < cap
  {
    if trace == [] then [] else
    Touch(Contents(trace[..|trace| - 1], cap), cap, trace[|trace| - 1])
  }

  lemma ContentsStep<T>(trace: seq<T>, cap: nat, x: T)
    requires 0 < cap
    ensures Contents(trace + [x], cap) == Touch(Contents(trace, cap), cap, x)
  {
    assert (trace + [x])[..|trace|] == trace;
  }

  /** x at the end, and nowhere else. */
  function Push<T(==)>(s: seq<T>, x: T): seq<T> {
    Without(s, IndexOf(s, x)) + [x]
  }

  /** All elements ever touched, ordered by last touch. */
  function Stack<T(==)>(trace: seq<T>): seq<T> {
    if trace == [] then [] else Push(Stack(trace[..|trace| - 1]), trace[|trace| - 1])
  }

  /** c is what remains of the stack s for a list of capacity cap: its last elements. */
  ghost predicate IsTop<T>(c: seq<T>, s: seq<T>, cap: nat) {
    |c| == (if |s| <= cap then |s| else cap) && forall j :: TopAt(c, s, j)
  }

  ghost predicate TopAt<T>(c: seq<T>, s: seq<T>, j: int) {
    0 <= j < |c| <= |s| ==> c[j] == s[|s| - |c| + j]
  }

  /** The distinct elements touched since x was last touched. */
  function DistinctSince<T(==)>(trace: seq<T>, x: T): set<T> {
    if trace == [] || trace[|trace| - 1] == x then {} else
    DistinctSince(trace[..|trace| - 1], x) + {trace[|trace| - 1]}
  }

  lemma IndexIs<T>(s: seq<T>, i: nat)
    requires Distinct(s) && i < |s|
    ensures IndexOf(s, s[i]) == i
  {
    assert Differ(s, i, IndexOf(s, s[i])) && Differ(s, IndexOf(s, s[i]), i);
  }

  lemma PushDistinct<T>(s: seq<T>, x: T)
    requires Distinct(s)
    ensures Distinct(Push(s, x))
  {
    var at, p := IndexOf(s, x), Push(s, x);
    forall i, j ensures Differ(p, i, j) {
      if 0 <= i < j < |p| {
        var k := if i < at then i else i + 1;
        assert p[i] == s[k];
        assert Differ(s, k, at) && Differ(s, at, k);
        assert Differ(s, k, if j < at then j else j + 1);
      }
    }
  }

  /** Where the elements of Push(s, x) below the last come from. */
  lemma PushIndex<T>(s: seq<T>, x: T, j: nat)
    requires j < |Push(s, x)|
    ensures Push(s, x)[j] == var at := IndexOf(s, x);
      if j == |Push(s, x)| - 1 then x else if j < at then s[j] else s[j + 1]
  {
  }

  lemma PushAfterSubset<T>(s: seq<T>, x: T, i: int, k: int)
    requires -1 <= i < |Push(s, x)| - 1 && k == if i < IndexOf(s, x) then i else i + 1
    ensures After(Push(s, x), i) <= After(s, k) + {x}
  {
    var p := Push(s, x);
    forall y | y in After(p, i) ensures y in After(s, k) + {x} {
      var j :| i < j < |p| && p[j] == y;
      PushIndex(s, x, j);
    }
  }

  /** An element above place i stays above it. */
  lemma PushAt<T>(s: seq<T>, x: T, i: int, j: nat)
    requires -1 <= i < |Push(s, x)| - 1 && j < |s|
    requires (if i < IndexOf(s, x) then i else i + 1) < j
    ensures s[j] in After(Push(s, x), i)
  {
    var p, at := Push(s, x), IndexOf(s, x);
    var l := if j < at then j else if j == at then |p| - 1 else j - 1;
    PushIndex(s, x, l);
    assert p[l] == s[j];
  }

  lemma PushAfterSuperset<T>(s: seq<T>, x: T, i: int, k: int)
    requires -1 <= i < |Push(s, x)| - 1 && k == if i < IndexOf(s, x) then i else i + 1
    ensures After(s, k) + {x} <= After(Push(s, x), i)
  {
    var p := Push(s, x);
    assert p[|p| - 1] == x;
    forall y | y in After(s, k) ensures y in After(p, i) {
      var j :| k < j < |s| && s[j] == y;
      PushAt(s, x, i, j);
    }
  }

  /** Pushing x keeps every other element where it was relative to the rest, under x. */
  lemma PushAfter<T>(s: seq<T>, x: T, i: int) returns (k: int)
    requires Distinct(s) && -1 <= i < |Push(s, x)| - 1
    ensures -1 <= k < |s| && After(Push(s, x), i) == After(s, k) + {x}
    ensures 0 <= i ==> 0 <= k && s[k] == Push(s, x)[i] != x
    ensures i == -1 ==> After(s, k) + {x} == Elems(s) + {x}
  {
    var at := IndexOf(s, x);
    k := if i < at then i else i + 1;
    PushAfterSubset(s, x, i, k);
    PushAfterSuperset(s, x, i, k);
    if 0 <= i {
      PushIndex(s, x, i);
      assert Differ(s, k, at) && Differ(s, at, k);
    }
  }

  lemma {:induction false} StackElements<T>(trace: seq<T>)
    ensures Distinct(Stack(trace)) && Elems(Stack(trace)) == Elems(trace)
  {
    if trace != [] {
      var before, x := trace[..|trace| - 1], trace[|trace| - 1];
      StackElements(before);
      PushDistinct(Stack(before), x);
      var _ := PushAfter(Stack(before), x, -1);
      AppendElems(before, x);
      assert trace == before + [x];
    }
  }

  lemma AppendElems<T>(s: seq<T>, x: T)
    ensures Elems(s + [x]) == Elems(s) + {x}
  {
    assert x == (s + [x])[|s|];
    forall y | y in Elems(s) ensures y in Elems(s + [x]) {
      var j :| 0 <= j < |s| && s[j] == y;
      assert y == (s + [x])[j];
    }
  }

  /** What lies above an element on the stack is what was touched since. */
  lemma {:induction false} AfterIsSince<T>(trace: seq<T>, i: nat)
    requires i < |Stack(trace)|
    ensures After(Stack(trace), i) == DistinctSince(trace, Stack(trace)[i])
  {
    var before, x := trace[..|trace| - 1], trace[|trace| - 1];
    StackElements(before);
    if i + 1 < |Stack(trace)| {
      var k := PushAfter(Stack(before), x, i);
      AfterIsSince(before, k);
    }
  }

  lemma {:induction false} CountAfter<T>(s: seq<T>, i: int)
    requires Distinct(s) && -1 <= i < |s|
    ensures |After(s, i)| == |s| - 1 - i
    decreases |s| - i
  {
    if i + 1 < |s| {
      CountAfter(s, i + 1);
      forall j | i + 1 < j < |s| ensures s[j] != s[i + 1] {
        assert Differ(s, i + 1, j);
      }
      assert After(s, i) == After(s, i + 1) + {s[i + 1]};
    } else {
      assert After(s, i) == {};
    }
  }

  /** Membership in the top of a stack is a matter of position. */
  lemma TopPositions<T>(c: seq<T>, s: seq<T>, cap: nat, x: T)
    requires Distinct(s) && IsTop(c, s, cap)
    ensures x in c <==> x in s && IndexOf(s, x) >= |s| - |c|
    ensures x in c ==> IndexOf(c, x) == IndexOf(s, x) - (|s| - |c|)
  {
    var base := |s| - |c|;
    if x in c {
      assert TopAt(c, s, IndexOf(c, x));
      IndexIs(s, base + IndexOf(c, x));
    }
    if x in s && IndexOf(s, x) >= base {
      assert TopAt(c, s, IndexOf(s, x) - base);
    }
  }

  lemma TouchSize<T>(c: seq<T>, s: seq<T>, cap: nat, x: T)
    requires 0 < cap && Distinct(s) && IsTop(c, s, cap)
    ensures |Touch(c, cap, x)| == if |Push(s, x)| <= cap then |Push(s, x)| else cap
  {
    TopPositions(c, s, cap, x);
  }

  /** How far below the top of a stack its list begins, before and after x is pushed on both. */
  lemma PushBase<T>(c: seq<T>, s: seq<T>, cap: nat, x: T)
    requires Distinct(s) && IsTop(c, s, cap) && (x in c || |c| < cap)
    ensures |Push(s, x)| - |Push(c, x)| == |s| - |c| && IndexOf(c, x) == IndexOf(s, x) - (|s| - |c|)
  {
    TopPositions(c, s, cap, x);
  }

  lemma PushTopBelow<T>(c: seq<T>, s: seq<T>, x: T, j: nat)
    requires |c| <= |s| && |Push(s, x)| - |Push(c, x)| == |s| - |c| && IndexOf(c, x) == IndexOf(s, x) - (|s| - |c|)
    requires j < |Push(c, x)| - 1 && TopAt(c, s, if j < IndexOf(c, x) then j else j + 1)
    ensures TopAt(Push(c, x), Push(s, x), j)
  {
    PushIndex(c, x, j);
    PushIndex(s, x, |s| - |c| + j);
  }

  /** x was in the list or there was room: both lists take x to their end. */
  lemma PushTopAt<T>(c: seq<T>, s: seq<T>, cap: nat, x: T, j: nat)
    requires 0 < cap && Distinct(s) && IsTop(c, s, cap) && (x in c || |c| < cap) && j < |Push(c, x)|
    ensures TopAt(Push(c, x), Push(s, x), j)
  {
    PushBase(c, s, cap, x);
    if j < |Push(c, x)| - 1 {
      assert TopAt(c, s, if j < IndexOf(c, x) then j else j + 1);
      PushTopBelow(c, s, x, j);
    }
  }

  /** A full list without x loses its oldest element. */
  lemma DropTopAt<T>(c: seq<T>, s: seq<T>, cap: nat, x: T, j: nat)
    requires 0 < cap && Distinct(s) && IsTop(c, s, cap) && x !in c && |c| == cap && j < cap
    ensures TopAt(c[1..] + [x], Push(s, x), j)
  {
    TopPositions(c, s, cap, x);
    PushIndex(s, x, |Push(s, x)| - cap + j);
    assert TopAt(c, s, j + 1);
  }

  lemma TouchTop<T>(c: seq<T>, s: seq<T>, cap: nat, x: T)
    requires 0 < cap && Distinct(s) && IsTop(c, s, cap)
    ensures IsTop(Touch(c, cap, x), Push(s, x), cap)
  {
    var l := Touch(c, cap, x);
    TouchSize(c, s, cap, x);
    forall j ensures TopAt(l, Push(s, x), j) {
      if 0 <= j < |l| {
        if x in c || |c| < cap {
          PushTopAt(c, s, cap, x, j);
        } else {
          DropTopAt(c, s, cap, x, j);
        }
      }
    }
  }

  /** The list of capacity cap is the top of the stack. */
  lemma {:induction false} ContentsAreTop<T>(trace: seq<T>, cap: nat)
    requires 0 < cap
    ensures IsTop(Contents(trace, cap), Stack(trace), cap)
  {
    if trace != [] {
      var before := trace[..|trace| - 1];
      ContentsAreTop(before, cap);
      StackElements(before);
      TouchTop(Contents(before, cap), Stack(before), cap, trace[|trace| - 1]);
    }
  }

  lemma TopDistinct<T>(c: seq<T>, s: seq<T>, cap: nat)
    requires Distinct(s) && IsTop(c, s, cap)
    ensures Distinct(c) && Elems(c) <= Elems(s)
  {
    forall i, j ensures Differ(c, i, j) {
      assert TopAt(c, s, i) && TopAt(c, s, j) && Differ(s, i + |s| - |c|, j + |s| - |c|);
    }
    forall y | y in Elems(c) ensures y in Elems(s) {
      var j :| 0 <= j < |c| && c[j] == y;
      assert TopAt(c, s, j) && y == s[j + |s| - |c|];
    }
  }

  /** LRU keeps distinct elements, at most cap of them, each of them touched before. */
  lemma {:induction false} ContentsDistinct<T>(trace: seq<T>, cap: nat)
    requires 0 < cap
    ensures Distinct(Contents(trace, cap)) && |Contents(trace, cap)| <= cap
    ensures Elems(Contents(trace, cap)) <= Elems(trace)
  {
    ContentsAreTop(trace, cap);
    StackElements(trace);
    TopDistinct(Contents(trace, cap), Stack(trace), cap);
  }

  /** The stack-distance law: x is present iff it was touched before and fewer than cap distinct elements
      were touched since. */
  lemma {:induction false} StackDistance<T>(trace: seq<T>, cap: nat, x: T)
    requires 0 < cap
    ensures x in Contents(trace, cap) <==> x in trace && |DistinctSince(trace, x)| < cap
  {
    var s := Stack(trace);
    StackElements(trace);
    ContentsAreTop(trace, cap);
    TopPositions(Contents(trace, cap), s, cap, x);
    assert x in s <==> x in Elems(s);
    assert x in trace <==> x in Elems(trace);
    if x in s {
      AfterIsSince(trace, IndexOf(s, x));
      CountAfter(s, IndexOf(s, x));
    }
  }

  lemma OldestCount<T>(c: seq<T>, s: seq<T>, cap: nat)
    requires 0 < cap && Distinct(s) && IsTop(c, s, cap) && |c| == cap
    ensures c[0] == s[|s| - cap] && |After(s, |s| - cap)| == cap - 1
  {
    assert TopAt(c, s, 0);
    CountAfter(s, |s| - cap);
  }

  /** The element a full list loses next is the resident whose last touch is furthest back. */
  lemma {:induction false} OldestIsFurthest<T>(trace: seq<T>, cap: nat)
    requires 0 < cap && |Contents(trace, cap)| == cap
    ensures |DistinctSince(trace, Contents(trace, cap)[0])| == cap - 1
  {
    var s := Stack(trace);
    var i := |s| - cap;
    assert 0 <= i && Contents(trace, cap)[0] == s[i] && |After(s, i)| == cap - 1 by {
      StackElements(trace);
      ContentsAreTop(trace, cap);
      OldestCount(Contents(trace, cap), s, cap);
    }
    AfterIsSince(trace, i);
  }
}
