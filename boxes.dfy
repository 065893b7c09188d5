/** The tracked boxes the visualizer draws. */
module Boxes {

  datatype Option<T> = None | Some(value: T)

  /** A colour name such as "#FF00FF". */
  type Color = string

  /** One tracked object on one frame: its corners (left, top, right, bottom),
      the frame it belongs to, whether it is occluded, the optional `lost`
      attribute (absent when the box has none) and the label texts. */
  datatype Box = Box(xtl: int, ytl: int, xbr: int, ybr: int, frame: int,
                     occluded: bool, lost: Option<bool>, attributes: seq<string>)

  /** The `lost` value the generators read: a box without the attribute counts as not lost. */
  predicate IsLost(b: Box)
  {
    match b.lost
    case None => false
    case Some(l) => l
  }

  /** A box that the generators hand to the renderer. */
  predicate Drawable(b: Box)
  {
    !IsLost(b)
  }
}
