/** `sorted(boxmap.items())`: the frames of the accumulated map in ascending order. */
module FrameOrder {
  import opened Grouping

  /** Strictly increasing. */
  predicate Ascending(s: seq<int>)
  {
    forall k, l :: 0 <= k < l < |s| ==> s[k] < s[l]
  }

  /** Adds `x` to an ascending sequence, keeping it ascending and without duplicates. */
  function InsertSorted(x: int, s: seq<int>): (r: seq<int>)
    requires Ascending(s)
    ensures Ascending(r)
    ensures forall y :: y in r <==> y == x || y in s
  {
    if s == [] then [x]
    else if x < s[0] then [x] + s
    else if x == s[0] then s
    else
      var t := InsertSorted(x, s[1..]);
      assert forall k :: 0 <= k < |t| ==> t[k] > s[0] by {
        forall k | 0 <= k < |t|
          ensures t[k] > s[0]
        {
          assert t[k] in t;
          if t[k] != x {
            var i :| 0 <= i < |s[1..]| && s[1..][i] == t[k];
            assert s[i + 1] == t[k];
          }
        }
      }
      assert s == [s[0]] + s[1..];
      [s[0]] + t
  }

  /** An ascending enumeration of the frames the entries are on: such an
      enumeration exists, and by `AscendingUnique` it is the only one. */
  function SortedFrames(es: seq<Entry>): (r: seq<int>)
    ensures Ascending(r)
    ensures forall f :: f in r <==> f in FramesOf(es)
    decreases |es|
  {
    if es == [] then []
    else
      var init := es[..|es| - 1];
      var last := es[|es| - 1];
      assert es == init + [last];
      FramesOfSnoc(init, last);
      InsertSorted(last.0.frame, SortedFrames(init))
  }

  /** There is only one ascending enumeration of a set of frames, so the drain
      order is determined by the keys alone, whatever order they were inserted in. */
  lemma {:induction false} AscendingUnique(r: seq<int>, t: seq<int>)
    requires Ascending(r) && Ascending(t)
    requires forall x :: x in r <==> x in t
    ensures r == t
    decreases |r|
  {
    if r != [] {
      assert r[0] in r;
    }
    if t != [] {
      assert t[0] in t;
    }
    if r != [] && t != [] {
      assert r[0] == t[0];
      assert r == [r[0]] + r[1..] && t == [t[0]] + t[1..];
      forall x
        ensures x in r[1..] <==> x in t[1..]
      {
        if x in r[1..] {
          assert x in r && x > r[0];
          assert x in t && x != t[0];
        }
        if x in t[1..] {
          assert x in t && x > t[0];
          assert x in r && x != r[0];
        }
      }
      AscendingUnique(r[1..], t[1..]);
    }
  }
}
