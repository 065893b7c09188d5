/** The colour palette and `zip(items, itertools.cycle(colors))`. */
module Palette {
  import opened Boxes

  /** The default palette, in cycling order. */
  const DefaultColors: seq<Color> :=
    ["#FF00FF", "#FF0000", "#FF8000", "#FFD100", "#008000",
     "#0080FF", "#0000FF", "#000080", "#800080"]

  /** The default stroke width. */
  const DefaultWidth: int := 1

  /** `zip(xs, cycle(colors))` with the cycle standing at position `k`: the zip
      stops with the shorter side, and cycling an empty palette yields nothing. */
  function ZipCycle<T>(xs: seq<T>, colors: seq<Color>, k: nat): (r: seq<(T, Color)>)
    requires colors == [] || k < |colors|
    ensures colors == [] ==> r == []
    ensures colors != [] ==> |r| == |xs|
    decreases |xs|
  {
    if xs == [] || colors == [] then []
    else [(xs[0], colors[k])] + ZipCycle(xs[1..], colors, if k + 1 < |colors| then k + 1 else 0)
  }

  /** `zip(xs, itertools.cycle(colors))`. */
  function Cycled<T>(xs: seq<T>, colors: seq<Color>): seq<(T, Color)>
  {
    ZipCycle(xs, colors, 0)
  }

  lemma MulAtLeast(c: int, n: int)
    requires n > 0 && c > 0
    ensures c * n >= n
  {
    if c > 1 {
      MulAtLeast(c - 1, n);
      assert c * n == (c - 1) * n + n;
    }
  }

  /** Going once round the palette lands on the same colour. */
  lemma ModWrap(a: nat, n: nat)
    requires n > 0
    ensures (a + n) % n == a % n
  {
    var q, r := a / n, a % n;
    var q2, r2 := (a + n) / n, (a + n) % n;
    assert a == q * n + r;
    assert a + n == q2 * n + r2;
    var c := q + 1 - q2;
    assert c * n == q * n + n - q2 * n;
    assert c * n == r2 - r;
    if c > 0 {
      MulAtLeast(c, n);
    } else if c < 0 {
      MulAtLeast(-c, n);
    }
  }

  lemma {:induction false} ZipCycleAt<T>(xs: seq<T>, colors: seq<Color>, k: nat, i: nat)
    requires colors != [] && k < |colors| && i < |xs|
    ensures ZipCycle(xs, colors, k)[i] == (xs[i], colors[(k + i) % |colors|])
  {
    if i > 0 {
      var k' := if k + 1 < |colors| then k + 1 else 0;
      ZipCycleAt(xs[1..], colors, k', i - 1);
      if k + 1 == |colors| {
        ModWrap(i - 1, |colors|);
      }
    }
  }

  /** With a non-empty palette every item gets exactly one colour, the i-th
      item `colors[i mod |colors|]`; with an empty one there are no pairs. */
  lemma ColorOf<T>(xs: seq<T>, colors: seq<Color>, i: nat)
    requires i < |xs|
    ensures colors == [] ==> Cycled(xs, colors) == []
    ensures colors != [] ==>
      |Cycled(xs, colors)| == |xs| && Cycled(xs, colors)[i] == (xs[i], colors[i % |colors|])
  {
    if colors != [] {
      ZipCycleAt(xs, colors, 0, i);
    }
  }
}
