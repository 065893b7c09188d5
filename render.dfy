/** `highlight_box`: one rectangle and its outlined labels drawn over an image.
    Pixels are not modelled: an image is the picture it started from and the
    layers drawn over it, so that what was drawn, in which order, is visible. */
module Render {
  import opened Boxes
  import opened Palette

  datatype LineStyle = Solid | Dashed

  datatype Fill = Black | White

  /** One `draw.text` call: top-left position, text and fill. */
  datatype TextDraw = TextDraw(x: int, y: int, text: string, fill: Fill)

  /** What one `highlight_box` call puts over an image. The rectangle's corner
      is in half-pixel units (`2 * left - width`), because the source shifts it
      by half the stroke width; `w` and `h` are its size in pixels. */
  datatype Layer = Layer(x2: int, y2: int, w: int, h: int, color: Color, width: int,
                         style: LineStyle, texts: seq<TextDraw>)

  /** An image: the picture it started from and the layers drawn over it, oldest first. */
  datatype Image = Image(picture: int, layers: seq<Layer>)

  /** A font, of which only text measurement (`draw.textsize`) matters here:
      the (width, height) in pixels of a text. */
  datatype Font = Font(textsize: string -> (nat, nat))

  /** The stroke of the rectangle: dashed for an occluded box, solid otherwise. */
  function StyleOf(occluded: bool): (s: LineStyle)
    ensures s == Dashed <==> occluded
    ensures s == Solid <==> !occluded
  {
    if occluded then Dashed else Solid
  }

  /** Where the six black copies of a label sit relative to the white one, in draw order. */
  const OutlineOffsets: seq<(int, int)> := [(0, 1), (1, 1), (1, 0), (0, -1), (-1, -1), (-1, 0)]

  /** One label: six black copies one pixel around the position, then the white text on top. */
  function Outline(text: string, x: int, y: int): (r: seq<TextDraw>)
    ensures |r| == 7
    ensures forall j :: 0 <= j < 6 ==>
      r[j] == TextDraw(x + OutlineOffsets[j].0, y + OutlineOffsets[j].1, text, Black)
    ensures r[6] == TextDraw(x, y, text, White)
    ensures forall j :: 0 <= j < 6 ==>
      -1 <= r[j].x - x <= 1 && -1 <= r[j].y - y <= 1 && (r[j].x, r[j].y) != (x, y)
    ensures forall j, k :: 0 <= j < k < 6 ==> (r[j].x, r[j].y) != (r[k].x, r[k].y)
  {
    [TextDraw(x, y + 1, text, Black),
     TextDraw(x + 1, y + 1, text, Black),
     TextDraw(x + 1, y, text, Black),
     TextDraw(x, y - 1, text, Black),
     TextDraw(x - 1, y - 1, text, Black),
     TextDraw(x - 1, y, text, Black),
     TextDraw(x, y, text, White)]
  }

  /** Left edge of a label `w` pixels wide: three pixels left of the box, never left of the image. */
  function LabelX(xtl: int, w: nat): (x: nat)
    ensures x >= xtl - w - 3
    ensures x == 0 || x == xtl - w - 3
  {
    if xtl - w - 3 > 0 then xtl - w - 3 else 0
  }

  /** Top of the `k`-th label: the box top plus, per earlier label, its measured height and three pixels. */
  function LabelTop(box: Box, font: Font, k: nat): (y: int)
    requires k <= |box.attributes|
    ensures y >= box.ytl + 3 * k
  {
    if k == 0 then box.ytl
    else LabelTop(box, font, k - 1) + font.textsize(box.attributes[k - 1]).1 + 3
  }

  /** The text draws of the first `n` labels of `box`. */
  function Labels(box: Box, font: Font, n: nat): (r: seq<TextDraw>)
    requires n <= |box.attributes|
    ensures |r| == 7 * n
  {
    if n == 0 then []
    else
      var a := box.attributes[n - 1];
      Labels(box, font, n - 1) + Outline(a, LabelX(box.xtl, font.textsize(a).0), LabelTop(box, font, n - 1))
  }

  /** Draws `7 * k` to `7 * k + 6` are the outline of the `k`-th attribute at its position. */
  lemma {:induction false} LabelsAt(box: Box, font: Font, n: nat, k: nat, j: nat)
    requires k < n <= |box.attributes| && j < 7
    ensures Labels(box, font, n)[7 * k + j] ==
      Outline(box.attributes[k], LabelX(box.xtl, font.textsize(box.attributes[k]).0), LabelTop(box, font, k))[j]
  {
    if k < n - 1 {
      LabelsAt(box, font, n - 1, k, j);
    }
  }

  /** Labels stack downward: each starts at least its predecessors' heights plus three pixels each lower. */
  lemma {:induction false} LabelsStack(box: Box, font: Font, k: nat, l: nat)
    requires k <= l <= |box.attributes|
    ensures LabelTop(box, font, l) >= LabelTop(box, font, k) + 3 * (l - k)
    ensures l == k + 1 ==> LabelTop(box, font, l) == LabelTop(box, font, k) + font.textsize(box.attributes[k]).1 + 3
  {
    if k < l {
      LabelsStack(box, font, k, l - 1);
    }
  }

  /** The layer `highlight_box` adds for `box`. */
  function LayerOf(box: Box, color: Color, width: int, font: Option<Font>): Layer
  {
    Layer(2 * box.xtl - width, 2 * box.ytl - width, box.xbr - box.xtl, box.ybr - box.ytl,
          color, width, StyleOf(box.occluded),
          if font.Some? then Labels(box, font.value, |box.attributes|) else [])
  }

  /** The image `highlight_box` returns: a new image, the input with one layer on top. */
  function Highlighted(image: Image, box: Box, color: Color, width: int, font: Option<Font>): Image
  {
    Image(image.picture, image.layers + [LayerOf(box, color, width, font)])
  }

  /** The layer drawn for a box: its stroke is dashed exactly when the box is occluded,
      and it holds seven text draws per attribute when a font is given, none otherwise. */
  lemma HighlightedLayer(image: Image, box: Box, color: Color, width: int, font: Option<Font>)
    ensures var r := Highlighted(image, box, color, width, font);
      && r.picture == image.picture
      && |r.layers| == |image.layers| + 1
      && r.layers[..|image.layers|] == image.layers
      && (r.layers[|image.layers|].style == Dashed <==> box.occluded)
      && |r.layers[|image.layers|].texts| == (if font.Some? then 7 * |box.attributes| else 0)
  {
    assert (image.layers + [LayerOf(box, color, width, font)])[..|image.layers|] == image.layers;
  }

  /** `highlight_box`: the label loop walks the attributes, measuring each,
      placing it left of the box and moving the running top down by its height plus three. */
  method HighlightBox(image: Image, box: Box, color: Color := DefaultColors[0],
                      width: int := DefaultWidth, font: Option<Font> := None)
    returns (im: Image)
    ensures im == Highlighted(image, box, color, width, font)
  {
    var linestyle := Dashed;
    if !box.occluded {
      linestyle := Solid;
    }
    var texts: seq<TextDraw> := [];
    if font.Some? {
      var ypos := box.ytl;
      var i := 0;
      while i < |box.attributes|
        invariant 0 <= i <= |box.attributes|
        invariant ypos == LabelTop(box, font.value, i)
        invariant texts == Labels(box, font.value, i)
      {
        var attribute := box.attributes[i];
        var size := font.value.textsize(attribute);
        var xpos := LabelX(box.xtl, size.0);
        texts := texts + Outline(attribute, xpos, ypos);
        ypos := ypos + size.1 + 3;
        i := i + 1;
      }
    }
    var layer := Layer(2 * box.xtl - width, 2 * box.ytl - width, box.xbr - box.xtl, box.ybr - box.ytl,
                       color, width, linestyle, texts);
    im := Image(image.picture, image.layers + [layer]);
  }
}
