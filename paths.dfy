/** The drivers around `highlight_box`: `highlight_boxes` on one image, and the
    generators `highlight_path` and `highlight_paths` over an image collection.
    A generator is the finite sequence of (image, frame) pairs it yields; when
    `images[frame]` fails, `missing` names that frame and the pairs are those
    yielded before the failure. */
module Paths {
  import opened Boxes
  import opened Seqs
  import opened Render
  import opened Palette
  import opened Grouping
  import opened FrameOrder

  /** One `highlight_box` call whose result the caller throws away: the image
      it was given and the box, colour, stroke width and font passed on. */
  datatype Call = Call(target: Image, box: Box, color: Color, width: int, font: Option<Font>)

  /** Renders the entries in turn, each call drawing on the previous call's result. */
  function Chain(im: Image, es: seq<Entry>, width: int, font: Option<Font>): Image
    decreases |es|
  {
    if es == [] then im
    else
      var last := es[|es| - 1];
      Highlighted(Chain(im, es[..|es| - 1], width, font), last.0, last.1, width, font)
  }

  /** One more entry renders on top of the chain so far. */
  lemma ChainSnoc(im: Image, es: seq<Entry>, e: Entry, width: int, font: Option<Font>)
    ensures Chain(im, es + [e], width, font) == Highlighted(Chain(im, es, width, font), e.0, e.1, width, font)
  {
    assert (es + [e])[..|es|] == es;
  }

  /** The layers the entries would add, in order. */
  function LayersOf(es: seq<Entry>, width: int, font: Option<Font>): seq<Layer>
  {
    seq(|es|, k requires 0 <= k < |es| => LayerOf(es[k].0, es[k].1, width, font))
  }

  /** Chained rendering keeps the picture and stacks exactly one layer per entry, in entry order. */
  lemma {:induction false} ChainLayers(im: Image, es: seq<Entry>, width: int, font: Option<Font>)
    ensures Chain(im, es, width, font) == Image(im.picture, im.layers + LayersOf(es, width, font))
    decreases |es|
  {
    if es != [] {
      var init, last := es[..|es| - 1], es[|es| - 1];
      assert es == init + [last];
      ChainSnoc(im, init, last, width, font);
      ChainLayers(im, init, width, font);
      assert LayersOf(es, width, font) == LayersOf(init, width, font) + [LayerOf(last.0, last.1, width, font)];
    }
  }

  /** The test "this entry is drawn". */
  predicate DrawnEntry(e: Entry)
  {
    Drawable(e.0)
  }

  /** The entries whose box is not lost, in order. */
  function NotLost(es: seq<Entry>): seq<Entry>
  {
    Filter(es, DrawnEntry)
  }

  /** A frame whose boxes are all lost comes out as the image it started as. */
  lemma AllLostUntouched(im: Image, es: seq<Entry>, width: int, font: Option<Font>)
    requires forall e :: e in es ==> IsLost(e.0)
    ensures Chain(im, NotLost(es), width, font) == im
  {
    FilterEmpty(es, DrawnEntry);
  }

  /** `highlight_boxes` as written: each (box, colour) of the cycled palette is
      rendered onto the given image and the result dropped; the image itself is returned. */
  method HighlightBoxes(image: Image, boxes: seq<Box>, colors: seq<Color> := DefaultColors,
                        width: int := DefaultWidth, font: Option<Font> := None)
    returns (result: Image, calls: seq<Call>)
    ensures result == image
    ensures colors == [] ==> calls == []
    ensures colors != [] ==> |calls| == |boxes|
    ensures colors != [] ==>
      forall k :: 0 <= k < |boxes| ==> calls[k] == Call(image, boxes[k], colors[k % |colors|], width, font)
  {
    var pairs := Cycled(boxes, colors);
    calls := [];
    var i := 0;
    while i < |pairs|
      invariant 0 <= i <= |pairs|
      invariant |calls| == i
      invariant forall k :: 0 <= k < i ==> calls[k] == Call(image, pairs[k].0, pairs[k].1, width, font)
    {
      var (box, color) := pairs[i];
      calls := calls + [Call(image, box, color, width, font)];
      i := i + 1;
    }
    result := image;
    if colors != [] {
      forall k | 0 <= k < |boxes|
        ensures calls[k] == Call(image, boxes[k], colors[k % |colors|], width, font)
      {
        ColorOf(boxes, colors, k);
      }
    }
  }

  /** `highlight_boxes` as intended: every render draws on the previous result. */
  method HighlightBoxesComposited(image: Image, boxes: seq<Box>, colors: seq<Color> := DefaultColors,
                                  width: int := DefaultWidth, font: Option<Font> := None)
    returns (result: Image)
    ensures result == Chain(image, Cycled(boxes, colors), width, font)
  {
    var pairs := Cycled(boxes, colors);
    result := image;
    var i := 0;
    while i < |pairs|
      invariant 0 <= i <= |pairs|
      invariant result == Chain(image, pairs[..i], width, font)
    {
      var (box, color) := pairs[i];
      assert pairs[..i + 1] == pairs[..i] + [pairs[i]];
      ChainSnoc(image, pairs[..i], pairs[i], width, font);
      result := HighlightBox(result, box, color, width, font);
      i := i + 1;
    }
    assert pairs[..i] == pairs;
  }

  /** The composited image of `highlight_boxes` carries one layer per box, the
      k-th in colour `colors[k mod |colors|]`, over the untouched input. */
  lemma CompositedLayers(image: Image, boxes: seq<Box>, colors: seq<Color>, width: int, font: Option<Font>, k: nat)
    requires colors != [] && k < |boxes|
    ensures var r := Chain(image, Cycled(boxes, colors), width, font);
      && r.picture == image.picture
      && |r.layers| == |image.layers| + |boxes|
      && r.layers[..|image.layers|] == image.layers
      && r.layers[|image.layers| + k] == LayerOf(boxes[k], colors[k % |colors|], width, font)
  {
    var pairs := Cycled(boxes, colors);
    ColorOf(boxes, colors, k);
    assert |pairs| == |boxes| && pairs[k] == (boxes[k], colors[k % |colors|]);
    ChainLayers(image, pairs, width, font);
    var added := LayersOf(pairs, width, font);
    assert |added| == |boxes| && added[k] == LayerOf(boxes[k], colors[k % |colors|], width, font);
    var layers := image.layers + added;
    assert layers[..|image.layers|] == image.layers;
    assert layers[|image.layers| + k] == added[k];
  }

  /** One box is enough for the two `highlight_boxes` to disagree: the
      composited image differs from the input that the code as written returns. */
  lemma HighlightBoxesDropsDrawing(image: Image, box: Box, colors: seq<Color>, width: int, font: Option<Font>)
    requires colors != []
    ensures Chain(image, Cycled([box], colors), width, font) != image
  {
    CompositedLayers(image, [box], colors, width, font, 0);
  }

  /** The `highlight_box` calls `highlight_path` makes along `path`: one per box that is not lost. */
  function PathCalls(images: map<int, Image>, path: seq<Box>, color: Color, width: int, font: Option<Font>): seq<Call>
    requires forall k :: 0 <= k < |path| ==> path[k].frame in images
    decreases |path|
  {
    if path == [] then []
    else
      var b := path[|path| - 1];
      PathCalls(images, path[..|path| - 1], color, width, font) + (if Drawable(b) then [Call(images[b.frame], b, color, width, font)] else [])
  }

  function CallBoxes(calls: seq<Call>): seq<Box>
  {
    seq(|calls|, k requires 0 <= k < |calls| => calls[k].box)
  }

  /** Rendering is invoked for exactly the boxes that are not lost, in path
      order, each on its own frame's image in the given colour. */
  lemma {:induction false} PathCallsDrawable(images: map<int, Image>, path: seq<Box>, color: Color, width: int, font: Option<Font>)
    requires forall k :: 0 <= k < |path| ==> path[k].frame in images
    ensures CallBoxes(PathCalls(images, path, color, width, font)) == Filter(path, Drawable)
    ensures forall c :: c in PathCalls(images, path, color, width, font) ==>
      c.box.frame in images && c.target == images[c.box.frame] && c.color == color && c.width == width && c.font == font
    decreases |path|
  {
    if path != [] {
      var init := path[..|path| - 1];
      var b := path[|path| - 1];
      PathCallsDrawable(images, init, color, width, font);
      assert path == init + [b];
      FilterSnoc(init, b, Drawable);
      var calls := PathCalls(images, path, color, width, font);
      var before := PathCalls(images, init, color, width, font);
      if Drawable(b) {
        assert calls == before + [Call(images[b.frame], b, color, width, font)];
        assert CallBoxes(calls) == CallBoxes(before) + [b];
      } else {
        assert calls == before;
      }
    }
  }

  /** `highlight_path` as written: one pair per box in path order, the image
      looked up for the box's frame; rendering happens for boxes that are not
      lost but its result is not what is yielded. */
  method HighlightPath(images: map<int, Image>, path: seq<Box>, color: Color := DefaultColors[0],
                       width: int := DefaultWidth, font: Option<Font> := None)
    returns (out: seq<(Image, int)>, calls: seq<Call>, missing: Option<int>)
    ensures |out| <= |path|
    ensures forall k :: 0 <= k < |out| ==>
      path[k].frame in images && out[k] == (images[path[k].frame], path[k].frame)
    ensures calls == PathCalls(images, path[..|out|], color, width, font)
    ensures missing.None? ==> |out| == |path|
    ensures missing.Some? ==>
      |out| < |path| && missing.value == path[|out|].frame && missing.value !in images
  {
    out, calls, missing := [], [], None;
    var i := 0;
    while i < |path| && missing.None?
      invariant 0 <= i <= |path| && |out| == i
      invariant forall k :: 0 <= k < i ==>
        path[k].frame in images && out[k] == (images[path[k].frame], path[k].frame)
      invariant calls == PathCalls(images, path[..i], color, width, font)
      invariant missing.Some? ==> i < |path| && missing.value == path[i].frame && missing.value !in images
      decreases |path| - i, if missing.None? then 1 else 0
    {
      var box := path[i];
      var lost := match box.lost case Some(l) => l case None => false;
      if box.frame !in images {
        missing := Some(box.frame);
      } else {
        var image := images[box.frame];
        assert path[..i + 1][..i] == path[..i];
        if !lost {
          calls := calls + [Call(image, box, color, width, font)];
        }
        out := out + [(image, box.frame)];
        i := i + 1;
      }
    }
  }

  /** `highlight_path` as intended: the yielded image is the rendered one for a
      box that is not lost, the looked-up one for a lost box. */
  method HighlightPathDrawn(images: map<int, Image>, path: seq<Box>, color: Color := DefaultColors[0],
                            width: int := DefaultWidth, font: Option<Font> := None)
    returns (out: seq<(Image, int)>, missing: Option<int>)
    ensures |out| <= |path|
    ensures forall k :: 0 <= k < |out| ==> path[k].frame in images
    ensures forall k :: 0 <= k < |out| ==>
      out[k] == (if IsLost(path[k]) then images[path[k].frame]
                 else Highlighted(images[path[k].frame], path[k], color, width, font), path[k].frame)
    ensures missing.None? ==> |out| == |path|
    ensures missing.Some? ==>
      |out| < |path| && missing.value == path[|out|].frame && missing.value !in images
  {
    out, missing := [], None;
    var i := 0;
    while i < |path| && missing.None?
      invariant 0 <= i <= |path| && |out| == i
      invariant forall k :: 0 <= k < i ==> path[k].frame in images
      invariant forall k :: 0 <= k < i ==>
        out[k] == (if IsLost(path[k]) then images[path[k].frame]
                   else Highlighted(images[path[k].frame], path[k], color, width, font), path[k].frame)
      invariant missing.Some? ==> i < |path| && missing.value == path[i].frame && missing.value !in images
      decreases |path| - i, if missing.None? then 1 else 0
    {
      var box := path[i];
      var lost := match box.lost case Some(l) => l case None => false;
      if box.frame !in images {
        missing := Some(box.frame);
      } else {
        var image := images[box.frame];
        if !lost {
          image := HighlightBox(image, box, color, width, font);
        }
        out := out + [(image, box.frame)];
        i := i + 1;
      }
    }
  }

  /** For a box that is not lost the rendered image is never the looked-up one,
      so the pair `highlight_path` yields as written always lacks the drawing. */
  lemma HighlightPathDropsDrawing(image: Image, box: Box, color: Color, width: int, font: Option<Font>)
    ensures Highlighted(image, box, color, width, font) != image
  {
    HighlightedLayer(image, box, color, width, font);
  }

  /** The (box, colour) entries `highlight_paths` accumulates: path i in colour
      `colors[i mod |colors|]`, path after path, box after box. */
  function Scheduled(paths: seq<seq<Box>>, colors: seq<Color>): seq<Entry>
  {
    Entries(Cycled(paths, colors))
  }

  /** The frames of the yielded pairs. */
  function YieldedFrames(out: seq<(Image, int)>): set<int>
  {
    set k | 0 <= k < |out| :: out[k].1
  }

  /** The per-frame step of `highlight_paths`: render the entries that are not
      lost in list order, each on the previous result. */
  method DrawFrame(base: Image, boxes: seq<Entry>, width: int, font: Option<Font>) returns (im: Image)
    ensures im == Chain(base, NotLost(boxes), width, font)
  {
    im := base;
    var j := 0;
    while j < |boxes|
      invariant 0 <= j <= |boxes|
      invariant im == Chain(base, NotLost(boxes[..j]), width, font)
    {
      var (box, color) := boxes[j];
      var lost := match box.lost case Some(l) => l case None => false;
      assert boxes[..j + 1] == boxes[..j] + [boxes[j]];
      FilterSnoc(boxes[..j], boxes[j], DrawnEntry);
      if !lost {
        ChainSnoc(base, NotLost(boxes[..j]), boxes[j], width, font);
        im := HighlightBox(im, box, color, width, font);
      }
      j := j + 1;
    }
    assert boxes[..j] == boxes;
  }

  /** The drain loop of `highlight_paths`: visit the frames in the given order,
      look each one's image up and draw its group on it. */
  method Drain(images: map<int, Image>, boxmap: map<int, seq<Entry>>, order: seq<int>, width: int, font: Option<Font>)
    returns (out: seq<(Image, int)>, missing: Option<int>)
    requires forall k :: 0 <= k < |order| ==> order[k] in boxmap
    ensures |out| <= |order|
    ensures forall k :: 0 <= k < |out| ==> out[k].1 == order[k] && order[k] in images
    ensures forall k :: 0 <= k < |out| ==>
      out[k].0 == Chain(images[order[k]], NotLost(boxmap[order[k]]), width, font)
    ensures missing.None? ==> |out| == |order|
    ensures missing.Some? ==> |out| < |order| && missing.value == order[|out|] && missing.value !in images
  {
    out, missing := [], None;
    var i := 0;
    while i < |order| && missing.None?
      invariant 0 <= i <= |order| && |out| == i
      invariant forall k :: 0 <= k < i ==> out[k].1 == order[k] && order[k] in images
      invariant forall k :: 0 <= k < i ==>
        out[k].0 == Chain(images[order[k]], NotLost(boxmap[order[k]]), width, font)
      invariant missing.Some? ==> i < |order| && missing.value == order[i] && missing.value !in images
      decreases |order| - i, if missing.None? then 1 else 0
    {
      var frame := order[i];
      if frame !in images {
        missing := Some(frame);
      } else {
        var im := DrawFrame(images[frame], boxmap[frame], width, font);
        out := out + [(im, frame)];
        i := i + 1;
      }
    }
  }

  /** `highlight_paths`: accumulate the coloured boxes by frame, then yield one
      pair per frame in ascending frame order, the frame's image with its boxes
      that are not lost rendered in accumulation order, each on the previous result. */
  method HighlightPaths(images: map<int, Image>, paths: seq<seq<Box>>, colors: seq<Color> := DefaultColors,
                        width: int := DefaultWidth, font: Option<Font> := None)
    returns (out: seq<(Image, int)>, missing: Option<int>)
    ensures forall k :: 0 <= k < |out| ==> out[k].1 in images
    ensures forall k :: 0 <= k < |out| ==>
      out[k].0 == Chain(images[out[k].1], NotLost(OfFrame(Scheduled(paths, colors), out[k].1)), width, font)
    ensures forall k, l :: 0 <= k < l < |out| ==> out[k].1 < out[l].1
    ensures missing.None? ==> YieldedFrames(out) == FramesOf(Scheduled(paths, colors))
    ensures missing.Some? ==>
      && missing.value in FramesOf(Scheduled(paths, colors))
      && missing.value !in images
      && YieldedFrames(out) == set f | f in FramesOf(Scheduled(paths, colors)) && f < missing.value
  {
    var entries := Scheduled(paths, colors);
    var boxmap := Accumulate(Cycled(paths, colors));
    var order := SortedFrames(entries);
    out, missing := Drain(images, boxmap, order, width, font);
    DrainedFrames(out, order, FramesOf(entries), missing);
  }

  /** How the drain order turns into the frame guarantees of `HighlightPaths`. */
  lemma DrainedFrames(out: seq<(Image, int)>, order: seq<int>, keys: set<int>, missing: Option<int>)
    requires Ascending(order) && forall f :: f in order <==> f in keys
    requires |out| <= |order| && forall k :: 0 <= k < |out| ==> out[k].1 == order[k]
    requires missing.None? ==> |out| == |order|
    requires missing.Some? ==> |out| < |order| && missing.value == order[|out|]
    ensures forall k, l :: 0 <= k < l < |out| ==> out[k].1 < out[l].1
    ensures missing.None? ==> YieldedFrames(out) == keys
    ensures missing.Some? ==> missing.value in keys
    ensures missing.Some? ==> YieldedFrames(out) == set f | f in keys && f < missing.value
  {
    if missing.None? {
      forall f | f in keys
        ensures f in YieldedFrames(out)
      {
        var k :| 0 <= k < |order| && order[k] == f;
        assert out[k].1 == f;
      }
    } else {
      var m := missing.value;
      assert order[|out|] in order;
      forall f | f in keys && f < m
        ensures f in YieldedFrames(out)
      {
        var k :| 0 <= k < |order| && order[k] == f;
        assert k < |out|;
        assert out[k].1 == f;
      }
    }
  }
}
