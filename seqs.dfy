/** Sequence helpers that stand for Python built-ins (`in`, `list.index`, `min` with a key). */
module Seqs {

  /** Absolute value, `abs` on Python integers. */
  function Abs(x: int): nat
  {
    if x < 0 then -x else x
  }

  /** No element occurs twice. */
  ghost predicate NoDup<T>(s: seq<T>)
  {
    forall i, j :: 0 <= i < j < |s| ==> s[i] != s[j]
  }

  /** The set of elements of a sequence. */
  ghost function Elems<T>(s: seq<T>): set<T>
  {
    set x | x in s
  }

  lemma ElemsAppend<T>(s: seq<T>, x: T)
    ensures Elems(s + [x]) == Elems(s) + {x}
  {
  }

  /** A duplicate-free sequence has as many elements as distinct values. */
  lemma {:induction false} NoDupCard<T>(s: seq<T>)
    requires NoDup(s)
    ensures |Elems(s)| == |s|
  {
    if s != [] {
      var init := s[..|s| - 1];
      assert s == init + [s[|s| - 1]];
      assert NoDup(init);
      NoDupCard(init);
      ElemsAppend(init, s[|s| - 1]);
      assert s[|s| - 1] !in Elems(init);
    }
  }

  /** `s.index(x)`: the position of the first occurrence of `x`. */
  function IndexOf<T(==)>(s: seq<T>, x: T): (i: nat)
    requires x in s
    ensures i < |s| && s[i] == x
    ensures forall j :: 0 <= j < i ==> s[j] != x
  {
    if s[0] == x then 0 else 1 + IndexOf(s[1..], x)
  }

  /** In a duplicate-free sequence the first occurrence of `s[i]` is `i` itself. */
  lemma IndexOfUnique<T>(s: seq<T>, i: nat)
    requires NoDup(s) && i < |s|
    ensures IndexOf(s, s[i]) == i
  {
  }

  /** `min(range(len(keys)), key=keys.__getitem__)`: the first position holding the least key. */
  function FirstMinIndex(keys: seq<int>): (i: nat)
    requires |keys| > 0
    ensures i < |keys|
    ensures forall j :: 0 <= j < |keys| ==> keys[i] <= keys[j]
    ensures forall j :: 0 <= j < i ==> keys[i] < keys[j]
  {
    if |keys| == 1 then 0
    else
      var rest := 1 + FirstMinIndex(keys[1..]);
      if keys[0] <= keys[rest] then 0 else rest
  }

  /** Python's true division `x / n` of two counts, with `n` positive. */
  function Ratio(x: nat, n: nat): (r: real)
    requires n > 0
    ensures 0.0 <= r
    ensures x <= n ==> r <= 1.0
    ensures r * n as real == x as real
  {
    x as real / n as real
  }
}
