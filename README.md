# Box and path highlighting of `vision/visualize.py`, modelled in Dafny

The visualizer draws tracked boxes onto video frames. `highlight_box` draws one
rectangle (dashed when the box is occluded) and, when a font is given, one
outlined label per attribute, stacked down the left side of the box.
`highlight_boxes` applies it to several boxes on one image, cycling a colour
palette. `highlight_path` walks one path of boxes across an image collection
and yields an (image, frame) pair per box. `highlight_paths` merges several
paths: it groups their boxes by frame, then yields one pair per frame in
ascending frame order, with every box of that frame that is not lost drawn in.

The model keeps the bookkeeping and abstracts the pixels:

- An `Image` is the picture it started from plus the layers drawn over it,
  oldest first. `highlight_box` returns a new image with one more `Layer`. The
  layer records the rectangle, colour, stroke width, line style and the
  `draw.text` calls of the labels. So "what was drawn, where, in which order"
  is a value that can be compared.
- A `Font` carries only its measurement, a total function from text to
  (width, height) in pixels, standing for `draw.textsize`. "No font" is `None`.
- A `Box` has its corners, frame, `occluded` flag, an optional `lost` flag
  (absent counts as not lost) and its attribute texts.
- A generator is the finite sequence of pairs it yields, plus `missing`: the
  frame whose `images[frame]` lookup failed, if one did. The pairs are then
  the ones yielded before the failure.
- When the source calls `highlight_box` and throws the result away, the model
  records the call as a `Call(target image, box, colour, width, font)` event.

Modules: `Boxes` (box data), `Seqs` (order-preserving filter), `Render`
(`highlight_box`), `Palette` (the palette and `zip`/`cycle`), `Grouping` (the
accumulation phase of `highlight_paths`), `FrameOrder` (`sorted` over the
frame keys), `Paths` (`highlight_boxes`, `highlight_path`, `highlight_paths`).

Points where the code's behaviour is easy to misread, and which the model follows:

- Label x is `max(xtl - w - 3, 0)`, clamped at 0 (vision/visualize.py:77).
- An empty palette makes both `zip(..., itertools.cycle(colors))` calls empty
  (vision/visualize.py:102, 133). `highlight_boxes` then makes no render call
  and `highlight_paths` yields nothing.
- `highlight_boxes` and `highlight_path` do not return or yield drawn images
  (see Findings), although their docstrings say they highlight the boxes
  (vision/visualize.py:99-101, 108-110).
- The source's default arguments (`color = colors[0]`, `colors = colors`,
  `width = defaultwidth`, `font = None`; vision/visualize.py:41, 97, 106, 123)
  are the methods' default parameter values `DefaultColors[0]`,
  `DefaultColors`, `DefaultWidth` and `None`.

## Model

| member | source | states |
|---|---|---|
| `Render.StyleOf` | vision/visualize.py:57-61 | the line style is dashed exactly when the box is occluded, solid exactly when it is not |
| `Render.Outline` | vision/visualize.py:79-93 | a label is seven text draws: six black ones at offsets (0,+1), (+1,+1), (+1,0), (0,-1), (-1,-1), (-1,0), then the white one at the position itself; the black ones are distinct neighbours of the position and none covers it |
| `Render.LabelX` | vision/visualize.py:77 | a label's x is the larger of `left - w - 3` and 0, so it is never negative |
| `Render.LabelTop` | vision/visualize.py:73-94 | the k-th label's y is the box top plus the sum of the earlier labels' heights plus 3 each, so it is at least `top + 3k` |
| `Render.Labels` | vision/visualize.py:72-94 | the labels of n attributes are exactly 7n text draws |
| `Render.LabelsAt` | vision/visualize.py:74-94 | draws 7k to 7k+6 are the outline of the k-th attribute at (`max(left - w_k - 3, 0)`, `top + Σ_{j<k}(h_j + 3)`) |
| `Render.LabelsStack` | vision/visualize.py:73-94 | labels stack downward: each later label starts at least 3 pixels per label lower, and the next one exactly the current label's height plus 3 lower |
| `Render.HighlightedLayer` | vision/visualize.py:41-95 | `highlight_box` leaves the input's layers untouched and adds one layer on top; that layer is dashed exactly when the box is occluded and holds 7 draws per attribute with a font, none without |
| `Render.HighlightBox` | vision/visualize.py:41-95 | the method with the label loop and its running `ypos` returns exactly the image the layout functions describe |
| `Palette.ZipCycle` | vision/visualize.py:102 | `zip(xs, cycle(colors))` yields one pair per item with a non-empty palette and nothing with an empty one |
| `Palette.ZipCycleAt` | vision/visualize.py:102 | with the cycle at position k, the i-th pair is `(xs[i], colors[(k + i) mod len(colors)])` |
| `Palette.ColorOf` | vision/visualize.py:133 | the i-th box or path is paired with `colors[i mod len(colors)]`, each exactly once; an empty palette yields no pairs |
| `Grouping.OfFramePartition` | vision/visualize.py:132-140 | frame f's group holds each entry on f exactly as often as the encounter sequence does and no other entry; it is empty exactly when no box is on f |
| `Grouping.OfFrameSnoc` | vision/visualize.py:137-140 | a new entry is appended to its own frame's group and no other group changes |
| `Grouping.FramesOfSnoc` | vision/visualize.py:137-138 | a new entry adds its frame to the key set and nothing else |
| `Grouping.GroupedSnoc` | vision/visualize.py:137-140 | the insert-or-append step keeps `boxmap` equal to the grouping of the entries seen so far |
| `Grouping.Accumulate` | vision/visualize.py:132-140 | after the nested loop, `boxmap`'s keys are exactly the frames of all coloured boxes and `boxmap[f]` is the entries on f in path-then-box encounter order |
| `FrameOrder.SortedFrames` | vision/visualize.py:142 | the drain order `highlight_paths` computes: strictly ascending, with exactly the frame keys as elements |
| `FrameOrder.AscendingUnique` | vision/visualize.py:142 | two strictly ascending enumerations of the same frames are equal, so the drain order depends only on the keys, not on path or box order |
| `Paths.ChainSnoc` | vision/visualize.py:150 | one more render call draws on the result of the previous ones |
| `Paths.ChainLayers` | vision/visualize.py:143-150 | chained rendering keeps the frame's picture and adds exactly one layer per rendered entry, in entry order |
| `Paths.AllLostUntouched` | vision/visualize.py:143-151 | a frame whose boxes are all lost yields the untouched `images[frame]` |
| `Paths.DrawFrame` | vision/visualize.py:143-150 | the inner loop renders exactly the entries that are not lost, in list order, each on the previous result, with a missing `lost` counting as not lost |
| `Paths.Drain` | vision/visualize.py:142-151 | the drain loop yields, for each frame in order, the frame's image with its group drawn in, and stops at the first frame whose image lookup fails |
| `Paths.DrainedFrames` | vision/visualize.py:142-151 | draining a strictly ascending enumeration of the keys yields strictly ascending frames covering all keys, or all keys below the first missing frame |
| `Paths.HighlightPaths` | vision/visualize.py:123-151 | one pair per distinct frame of all boxes, in strictly ascending frame order; each pair is the frame's image with that frame's non-lost entries rendered in encounter order in their path's colour; a missing image stops the output right after all smaller frames |
| `Paths.HighlightBoxes` | vision/visualize.py:97-104 | as written: returns the very image it was given and makes one render call per box, the k-th box in colour `colors[k mod len(colors)]` on that same image with the given width and font; an empty palette makes no calls |
| `Paths.HighlightBoxesComposited` | vision/visualize.py:102-103 | corrected: chaining the renders gives the composite of all boxes in their cycled colours |
| `Paths.CompositedLayers` | vision/visualize.py:102-104 | the composite keeps the input's layers and adds one layer per box, the k-th in colour `colors[k mod len(colors)]` |
| `Paths.HighlightBoxesDropsDrawing` | vision/visualize.py:103-104 | for a single box the composite differs from the input image that the code as written returns |
| `Paths.PathCallsDrawable` | vision/visualize.py:113-120 | `highlight_path` renders exactly the boxes that are not lost, in path order, each on its own frame's image in the path's colour with the given width and font |
| `Paths.HighlightPath` | vision/visualize.py:106-121 | as written: one pair per box in path order, the i-th being `(images[path[i].frame], path[i].frame)`, with no sorting or de-duplication; render calls only for boxes that are not lost; a missing image stops the output at that box |
| `Paths.HighlightPathDrawn` | vision/visualize.py:113-121 | corrected: the i-th pair carries the rendered image when the box is not lost and the looked-up image when it is |
| `Paths.HighlightPathDropsDrawing` | vision/visualize.py:118-121 | a rendered image is never the image it was drawn on, so the pair yielded as written never shows the box |

## Left out

- `fig2img` and the matplotlib figure and axes setup are not modelled. They
  convert a plotting canvas to pixels, and pixels are not modelled.
- Pixel output is not modelled. A render is the layer it adds, and the
  rectangle is its corner (in half-pixel units), size, colour, width and style.
- The stroke width is an integer. A fractional width is not modelled.
- `draw.text` glyph rendering and `draw.textsize` are not modelled. Measurement
  is the font's abstract (width, height) function.
- `str(attribute).decode("utf-8")` is not modelled. It works only on Python 2
  byte strings, so attributes are taken to be text already.
- Logging calls are not modelled. They have no effect on the output.
- `save` is not modelled. It is file I/O through a caller-supplied function.
- Generator laziness and single-pass iteration are not modelled. Each generator
  is the finite sequence it would yield, and a lookup failure ends it.
- Render failures are not modelled: invalid geometry and glyphs the font cannot
  render. They come from the plotting and font libraries.

## Findings

| source | as written | input that shows it | evidently intended | confidence | as-written member | corrected member |
|---|---|---|---|---|---|---|
| vision/visualize.py:103-104 | `highlight_boxes` drops each `highlight_box` result and returns its input. `highlight_box` builds a new image and never draws on its argument, so no box appears. | one box and a non-empty palette: the result is the input image, not the image with the box drawn | chain the renders (`image = highlight_box(image, ...)`) and return the composite, as `highlight_paths` does at line 150 | high; not executed | `Paths.HighlightBoxes`, `Paths.HighlightBoxesDropsDrawing` | `Paths.HighlightBoxesComposited`, `Paths.CompositedLayers` |
| vision/visualize.py:120-121 | `highlight_path` drops the `highlight_box` result and yields the looked-up `images[box.frame]`, so no box appears. | a path of one box that is not lost, whose frame is in `images`: the yielded image is `images[frame]`, not the image with the box drawn | yield the rendered image for boxes that are not lost | high; not executed | `Paths.HighlightPath`, `Paths.HighlightPathDropsDrawing` | `Paths.HighlightPathDrawn` |
