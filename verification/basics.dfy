/** Small shared vocabulary: optional values, results, and predicates on sequences. */
module Basics {

  /** A value that may be missing: a dictionary key that is absent, a search that finds nothing. */
  datatype Option<+T> = None | Some(value: T) {

    predicate IsFailure() {
      None?
    }

    function PropagateFailure<U>(): Option<U>
      requires None?
    {
      None
    }

    function Extract(): T
      requires Some?
    {
      value
    }

    /** The value, or `default` when it is missing (Python's `dict.get(key, default)`). */
    function GetOr(default: T): T {
      match this
      case Some(v) => v
      case None => default
    }
  }

  /** The outcome of an operation that raises in the source: `Err` stands for the exception. */
  datatype Result<+T, +E> = Ok(value: T) | Err(error: E) {

    predicate IsFailure() {
      Err?
    }

    function PropagateFailure<U>(): Result<U, E>
      requires Err?
    {
      Err(error)
    }

    function Extract(): T
      requires Ok?
    {
      value
    }
  }

  /** No element occurs twice. */
  predicate NoDuplicates<T(==)>(s: seq<T>) {
    forall i, j :: 0 <= i < j < |s| ==> s[i] != s[j]
  }

  /**
   * `x` is one of `xs`. This is `x in xs` written as a recursion, so that a proof about a
   * table of literals unfolds the table only as far as it needs to.
   */
  predicate IsOneOf<T(==)>(x: T, xs: seq<T>)
    decreases |xs|
  {
    xs != [] && (x == xs[0] || IsOneOf(x, xs[1..]))
  }

  lemma {:induction false} IsOneOfIsMembership<T>(x: T, xs: seq<T>)
    ensures IsOneOf(x, xs) <==> x in xs
    decreases |xs|
  {
    if xs != [] {
      IsOneOfIsMembership(x, xs[1..]);
      assert x in xs <==> x == xs[0] || x in xs[1..];
    }
  }

  /** `sub` is obtained from `s` by leaving elements out, the others kept in their order. */
  predicate IsSubsequence<T(==)>(sub: seq<T>, s: seq<T>)
    decreases |s|
  {
    if sub == [] then true
    else if s == [] then false
    else (sub[0] == s[0] && IsSubsequence(sub[1..], s[1..])) || IsSubsequence(sub, s[1..])
  }

  lemma {:induction false} SubsequenceElements<T>(sub: seq<T>, s: seq<T>)
    requires IsSubsequence(sub, s)
    ensures forall x :: x in sub ==> x in s
    decreases |s|
  {
    if sub == [] {
    } else if sub[0] == s[0] && IsSubsequence(sub[1..], s[1..]) {
      SubsequenceElements(sub[1..], s[1..]);
      forall x | x in sub ensures x in s {
        if x != sub[0] {
          assert x in sub[1..];
        }
      }
    } else {
      SubsequenceElements(sub, s[1..]);
    }
  }

  /**
   * The elements of `s` that satisfy `P`, in their order: a list comprehension with a
   * condition. Each such element is kept as often as it occurs in `s`.
   */
  function Filter<T(==)>(s: seq<T>, P: T -> bool): (r: seq<T>)
    ensures IsSubsequence(r, s)
    ensures forall k :: 0 <= k < |r| ==> P(r[k])
    ensures forall x :: x in s && P(x) ==> x in r
    decreases |s|
  {
    if s == [] then []
    else
      var rest := Filter(s[1..], P);
      assert forall x :: x in s ==> x == s[0] || x in s[1..];
      if P(s[0]) then
        assert ([s[0]] + rest)[1..] == rest;
        [s[0]] + rest
      else rest
  }

  /** `Filter` keeps every element that satisfies `P` as often as it occurs, and no other. */
  lemma {:induction false} FilterCounts<T>(s: seq<T>, P: T -> bool, x: T)
    ensures multiset(Filter(s, P))[x] == if P(x) then multiset(s)[x] else 0
    decreases |s|
  {
    if s != [] {
      FilterCounts(s[1..], P, x);
      assert s == [s[0]] + s[1..];
      assert multiset(s) == multiset{s[0]} + multiset(s[1..]);
      if P(s[0]) {
        assert Filter(s, P) == [s[0]] + Filter(s[1..], P);
        assert multiset(Filter(s, P)) == multiset{s[0]} + multiset(Filter(s[1..], P));
      }
    }
  }

  /** The position of the first occurrence of `x` in `s`. */
  function FirstIndex<T(==)>(s: seq<T>, x: T): (k: nat)
    requires x in s
    ensures k < |s| && s[k] == x
    ensures forall j :: 0 <= j < k ==> s[j] != x
    decreases |s|
  {
    if s[0] == x then 0
    else
      assert s == [s[0]] + s[1..];
      1 + FirstIndex(s[1..], x)
  }
}
