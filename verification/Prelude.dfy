/** Shared vocabulary: optional values and a few facts about sequences. */
module Prelude {

  datatype Option<+T> = None | Some(value: T)

  /** A value, or the error that stands for the program's error return. */
  datatype Result<+T, +E> = Ok(value: T) | Err(error: E)
  {
    predicate IsFailure() { Err? }

    function PropagateFailure<U>(): Result<U, E>
      requires Err?
    {
      Err(error)
    }

    function Extract(): T
      requires Ok?
    {
      value
    }
  }

  /** The elements of `s` that satisfy `keep`, in their original order. */
  function Filter<T>(s: seq<T>, keep: T -> bool): (r: seq<T>)
  {
    if s == [] then []
    else Filter(s[..|s| - 1], keep) + (if keep(s[|s| - 1]) then [s[|s| - 1]] else [])
  }

  ghost predicate AllPrefixes<T>(s: seq<T>, holds: seq<T> -> bool)
  {
    forall n: nat :: n <= |s| ==> holds(s[..n])
  }

  lemma AllPrefixesSplit<T>(s: seq<T>, holds: seq<T> -> bool)
    requires s != []
    ensures AllPrefixes(s, holds) <==> AllPrefixes(s[..|s| - 1], holds) && holds(s)
  {
    var init := s[..|s| - 1];
    assert s[..|s|] == s;
    forall n: nat | n <= |init| ensures init[..n] == s[..n] {}
  }

  ghost predicate AllSteps<T>(s: seq<T>, holds: (seq<T>, T) -> bool)
  {
    forall n: nat :: n < |s| ==> holds(s[..n], s[n])
  }

  lemma AllStepsSplit<T>(s: seq<T>, holds: (seq<T>, T) -> bool)
    requires s != []
    ensures AllSteps(s, holds) <==> AllSteps(s[..|s| - 1], holds) && holds(s[..|s| - 1], s[|s| - 1])
  {
    var init := s[..|s| - 1];
    forall n: nat | n < |init| ensures init[..n] == s[..n] && init[n] == s[n] {}
  }

  lemma ConcatAssoc<T>(a: seq<T>, b: seq<T>, c: seq<T>)
    ensures a + (b + c) == (a + b) + c
  {
  }

  predicate NoDuplicates<T(==)>(s: seq<T>)
  {
    forall i, j :: 0 <= i < j < |s| ==> s[i] != s[j]
  }

  function ToSet<T>(s: seq<T>): set<T>
  {
    set x | x in s
  }

  lemma {:induction false} SetBoundedBySequence<T>(s: seq<T>)
    ensures |ToSet(s)| <= |s|
  {
    if s == [] {
      assert ToSet(s) == {};
    } else {
      var init := s[..|s| - 1];
      SetBoundedBySequence(init);
      assert s == init + [s[|s| - 1]];
      assert ToSet(s) == ToSet(init) + {s[|s| - 1]};
    }
  }

  lemma {:induction false} NoDuplicatesCount<T>(s: seq<T>)
    requires NoDuplicates(s)
    ensures |ToSet(s)| == |s|
  {
    if s == [] {
      assert ToSet(s) == {};
    } else {
      var init := s[..|s| - 1];
      NoDuplicatesCount(init);
      assert s == init + [s[|s| - 1]];
      assert ToSet(s) == ToSet(init) + {s[|s| - 1]};
      assert s[|s| - 1] !in init;
    }
  }

  lemma SubsetSize<T>(a: set<T>, b: set<T>)
    requires a <= b
    ensures |a| <= |b|
  {
    assert b == a + (b - a);
  }
}
