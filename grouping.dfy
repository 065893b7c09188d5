/** The first phase of `highlight_paths`: boxes of all coloured paths grouped
    by frame in encounter order, and the ascending order the frames are drained in. */
module Grouping {
  import opened Boxes
  import opened Seqs

  /** A box tagged with the colour of the path it came from. */
  type Entry = (Box, Color)

  /** The boxes of one path, each tagged with the path's colour. */
  function Tagged(path: seq<Box>, color: Color): seq<Entry>
  {
    seq(|path|, k requires 0 <= k < |path| => (path[k], color))
  }

  /** The tagged boxes in encounter order: path after path, box after box. */
  function Entries(coloured: seq<(seq<Box>, Color)>): seq<Entry>
    decreases |coloured|
  {
    if coloured == [] then []
    else
      var last := coloured[|coloured| - 1];
      Entries(coloured[..|coloured| - 1]) + Tagged(last.0, last.1)
  }

  /** The frames some entry is on. */
  function FramesOf(es: seq<Entry>): set<int>
  {
    set e | e in es :: e.0.frame
  }

  /** The test "this entry's box is on frame `f`". */
  function OnFrame(f: int): Entry -> bool
  {
    (e: Entry) => e.0.frame == f
  }

  /** The entries on frame `f`, in encounter order. */
  function OfFrame(es: seq<Entry>, f: int): seq<Entry>
  {
    Filter(es, OnFrame(f))
  }

  /** The grouping is a partition: frame `f`'s group holds each entry on `f`
      exactly as often as the input does and nothing else, and it is empty
      exactly when no box is on `f`. */
  lemma OfFramePartition(es: seq<Entry>, f: int, e: Entry)
    ensures multiset(OfFrame(es, f))[e] == if e.0.frame == f then multiset(es)[e] else 0
    ensures OfFrame(es, f) == [] <==> f !in FramesOf(es)
  {
    FilterCount(es, OnFrame(f), e);
    FilterEmpty(es, OnFrame(f));
  }

  /** `boxmap` holds exactly the frames of `es`, each with its entries in encounter order. */
  ghost predicate Grouped(boxmap: map<int, seq<Entry>>, es: seq<Entry>)
  {
    && boxmap.Keys == FramesOf(es)
    && forall f :: f in boxmap ==> boxmap[f] == OfFrame(es, f)
  }

  /** One more entry joins its own frame's group and no other. */
  lemma OfFrameSnoc(es: seq<Entry>, e: Entry, g: int)
    ensures OfFrame(es + [e], g) == if e.0.frame == g then OfFrame(es, g) + [e] else OfFrame(es, g)
  {
    FilterSnoc(es, e, OnFrame(g));
  }

  lemma FramesOfSnoc(es: seq<Entry>, e: Entry)
    ensures FramesOf(es + [e]) == FramesOf(es) + {e.0.frame}
  {
    assert e in es + [e];
    forall f | f in FramesOf(es + [e])
      ensures f in FramesOf(es) + {e.0.frame}
    {
      var d :| d in es + [e] && d.0.frame == f;
      if d != e {
        assert d in es;
      }
    }
  }

  /** Inserting or appending one more entry keeps the map grouped. */
  lemma GroupedSnoc(boxmap: map<int, seq<Entry>>, es: seq<Entry>, e: Entry)
    requires Grouped(boxmap, es)
    ensures var f := e.0.frame;
      Grouped(boxmap[f := if f in boxmap then boxmap[f] + [e] else [e]], es + [e])
  {
    var f := e.0.frame;
    var m := boxmap[f := if f in boxmap then boxmap[f] + [e] else [e]];
    FramesOfSnoc(es, e);
    forall g | g in m
      ensures m[g] == OfFrame(es + [e], g)
    {
      OfFrameSnoc(es, e, g);
      if g == f && f !in boxmap {
        OfFramePartition(es, f, e);
      }
    }
  }

  lemma TaggedSnoc(path: seq<Box>, color: Color, j: nat)
    requires j < |path|
    ensures Tagged(path[..j + 1], color) == Tagged(path[..j], color) + [(path[j], color)]
  {
  }

  lemma EntriesSnoc(coloured: seq<(seq<Box>, Color)>, i: nat)
    requires i < |coloured|
    ensures Entries(coloured[..i + 1]) == Entries(coloured[..i]) + Tagged(coloured[i].0[..|coloured[i].0|], coloured[i].1)
  {
    assert coloured[..i + 1][..i] == coloured[..i];
    assert coloured[i].0[..|coloured[i].0|] == coloured[i].0;
  }

  /** The accumulation loop of `highlight_paths`: insert a new frame's first
      entry, or append to the frame's list. */
  method Accumulate(coloured: seq<(seq<Box>, Color)>) returns (boxmap: map<int, seq<Entry>>)
    ensures boxmap.Keys == FramesOf(Entries(coloured))
    ensures forall f :: f in boxmap ==> boxmap[f] == OfFrame(Entries(coloured), f)
  {
    boxmap := map[];
    ghost var seen: seq<Entry> := [];
    var i := 0;
    while i < |coloured|
      invariant 0 <= i <= |coloured|
      invariant seen == Entries(coloured[..i])
      invariant Grouped(boxmap, seen)
    {
      var (path, color) := coloured[i];
      var j := 0;
      while j < |path|
        invariant 0 <= j <= |path|
        invariant seen == Entries(coloured[..i]) + Tagged(path[..j], color)
        invariant Grouped(boxmap, seen)
      {
        var box := path[j];
        GroupedSnoc(boxmap, seen, (box, color));
        TaggedSnoc(path, color, j);
        if box.frame !in boxmap {
          boxmap := boxmap[box.frame := [(box, color)]];
        } else {
          boxmap := boxmap[box.frame := boxmap[box.frame] + [(box, color)]];
        }
        seen := seen + [(box, color)];
        j := j + 1;
      }
      EntriesSnoc(coloured, i);
      i := i + 1;
    }
    assert coloured[..i] == coloured;
  }
}
