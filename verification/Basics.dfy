/** Small notions that several modules share. */
module Basics {

  datatype Option<+T> = None | Some(value: T)

  const U64: nat := 0x1_0000_0000_0000_0000

  // ---------- lists and their elements ----------

  function Elems<T>(s: seq<T>): (r: set<T>)
  {
    set x | x in s
  }

  ghost predicate Distinct<T>(s: seq<T>)
  {
    forall i, j :: 0 <= i < j < |s| ==> s[i] != s[j]
  }

  lemma ElemsJoin<T>(x: seq<T>, y: seq<T>)
    ensures Elems(x + y) == Elems(x) + Elems(y)
  {}

  lemma Joins<T>(s: seq<T>, x: T)
    requires Distinct(s) && x !in s
    ensures Distinct(s + [x]) && Elems(s + [x]) == Elems(s) + {x}
  {}

  lemma ElemsNone<T>(s: seq<T>, all: set<T>)
    ensures all - Elems(s[..0]) == all
  {}

  lemma ElemsNext<T>(s: seq<T>, i: nat, all: set<T>)
    requires i < |s|
    ensures all - Elems(s[..i]) - {s[i]} == all - Elems(s[..i + 1])
  {
    assert s[..i + 1] == s[..i] + [s[i]];
  }

  /** A list without repetitions has as many elements as entries. */
  lemma {:induction false} DistinctSize<T>(s: seq<T>)
    requires Distinct(s)
    ensures |Elems(s)| == |s|
  {
    if |s| != 0 {
      var front, last := s[..|s| - 1], s[|s| - 1];
      DistinctSize(front);
      assert s == front + [last];
      Joins(front, last);
    }
  }

  // ---------- least and greatest numbers ----------

  predicate AllUpTo(s: set<nat>, x: nat)
  {
    forall y :: y in s ==> y <= x
  }

  predicate AllFrom(s: set<nat>, x: nat)
  {
    forall y :: y in s ==> x <= y
  }

  lemma {:induction false} FindMax(s: set<nat>) returns (x: nat)
    requires s != {}
    ensures x in s && AllUpTo(s, x)
  {
    x :| x in s;
    var t := s - {x};
    if t != {} {
      var m := FindMax(t);
      assert s == t + {x};
      x := if m <= x then x else m;
    }
  }

  lemma {:induction false} FindMin(s: set<nat>) returns (x: nat)
    requires s != {}
    ensures x in s && AllFrom(s, x)
  {
    x :| x in s;
    var t := s - {x};
    if t != {} {
      var m := FindMin(t);
      assert s == t + {x};
      x := if m <= x then m else x;
    }
  }

  lemma HasMax(s: set<nat>)
    requires s != {}
    ensures exists x :: x in s && AllUpTo(s, x)
  {
    var x := FindMax(s);
  }

  lemma HasMin(s: set<nat>)
    requires s != {}
    ensures exists x :: x in s && AllFrom(s, x)
  {
    var x := FindMin(s);
  }

  function MaxOf(s: set<nat>): (x: nat)
    requires s != {}
    ensures x in s && AllUpTo(s, x)
  {
    HasMax(s);
    var x :| x in s && AllUpTo(s, x);
    x
  }

  function MinOf(s: set<nat>): (x: nat)
    requires s != {}
    ensures x in s && AllFrom(s, x)
  {
    HasMin(s);
    var x :| x in s && AllFrom(s, x);
    x
  }
}
