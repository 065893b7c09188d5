/** Order-preserving selection on sequences: the shape of both the per-frame
    grouping and the lost-box skipping in the visualizer. */
module Seqs {

  /** The elements of `s` that satisfy `p`, in their original order. */
  function Filter<T>(s: seq<T>, p: T -> bool): (r: seq<T>)
    ensures |r| <= |s|
    ensures forall x :: x in r ==> x in s && p(x)
    decreases |s|
  {
    if s == [] then []
    else
      var r' := Filter(s[..|s| - 1], p);
      if p(s[|s| - 1]) then r' + [s[|s| - 1]] else r'
  }

  /** Filtering one more element extends the result by that element exactly when it is kept. */
  lemma FilterSnoc<T>(s: seq<T>, x: T, p: T -> bool)
    ensures Filter(s + [x], p) == if p(x) then Filter(s, p) + [x] else Filter(s, p)
  {
    assert (s + [x])[..|s|] == s;
  }

  /** Every kept value occurs in the result exactly as often as in the input; no other value occurs. */
  lemma {:induction false} FilterCount<T>(s: seq<T>, p: T -> bool, x: T)
    ensures multiset(Filter(s, p))[x] == if p(x) then multiset(s)[x] else 0
  {
    if s != [] {
      var init := s[..|s| - 1];
      FilterCount(init, p, x);
      assert s == init + [s[|s| - 1]];
    }
  }

  /** The result is empty exactly when no element of the input is kept. */
  lemma {:induction false} FilterEmpty<T>(s: seq<T>, p: T -> bool)
    ensures Filter(s, p) == [] <==> forall x :: x in s ==> !p(x)
  {
    if s != [] {
      var init := s[..|s| - 1];
      FilterEmpty(init, p);
      assert s == init + [s[|s| - 1]];
      if p(s[|s| - 1]) {
        assert Filter(s, p)[|Filter(s, p)| - 1] == s[|s| - 1];
      }
    }
  }
}
