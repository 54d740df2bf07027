/** The GP0 command set in its own terms: how many words each command takes and what it asks
    for, by the fields of its words and apart from the decoder's tables. */
module Gp0Laws {
  import opened Gp0

  /** An image of w by h pixels, 0 standing for 1024 and 512, comes in words of two pixels,
      the last of them half used if the number of pixels is odd. */
  lemma UploadLaw(irq: bool, head: seq<bv32>, data: seq<bv32>)
    requires |head| == 3 && head[0] >> 24 == 0xA0
    requires var w0, h0 := (head[2] & 0xFFFF) as int, (head[2] >> 16) as int;
             var w, h := if w0 == 0 then 1024 else w0, if h0 == 0 then 512 else h0;
             2 * |data| - 2 < w * h <= 2 * |data|
    ensures FeedAll(irq, Idle, head + data) == Out(Idle, [Upload(head[1], head[2], data)])
  {
    hide FeedAll, ImageWords, Byte;
    ByteIs(head[0]);
    ImageWordsIs(head[2], |data|);
    FeedUpload(irq, head, data);
  }

  lemma ByteIs(w: bv32)
    ensures Byte(w) as bv32 == w >> 24
  {
  }

  lemma ImageWordsIs(dims: bv32, n: int)
    requires var w0, h0 := (dims & 0xFFFF) as int, (dims >> 16) as int;
             var w, h := if w0 == 0 then 1024 else w0, if h0 == 0 then 512 else h0;
             2 * n - 2 < w * h <= 2 * n
    ensures ImageWords(dims) == n
  {
    var w0, h0 := (dims & 0xFFFF) as int, (dims >> 16) as int;
    var w, h := if w0 == 0 then 1024 else w0, if h0 == 0 then 512 else h0;
    HalfUp(w * h, n);
  }

  lemma HalfUp(x: int, n: int)
    requires 2 * n - 2 < x <= 2 * n
    ensures (x + 1) / 2 == n
  {
  }

  /** The words of a drawing command other than a polyline.  Polygons have a vertex for each
      corner, a texture word with each when textured and, when shaded, a colour with each but
      the first; lines have two vertices and, when shaded, a second colour; rectangles have a
      texture word when textured and a size word unless their size is fixed. */
  function DrawWords(c: bv8): int {
    var corners := if c & 0x08 != 0 then 4 else 3;
    if c == 0x02 then 3
    else if c & 0xE0 == 0x20 then
      1 + corners + (if c & 0x04 != 0 then corners else 0) + (if c & 0x10 != 0 then corners - 1 else 0)
    else if c & 0xE8 == 0x40 then if c & 0x10 != 0 then 4 else 3
    else if c & 0xE0 == 0x60 then 2 + (if c & 0x04 != 0 then 1 else 0) + (if c & 0x18 == 0 then 1 else 0)
    else 0
  }

  lemma DrawLaw(irq: bool, words: seq<bv32>)
    requires |words| > 0 && |words| == DrawWords((words[0] >> 24) as bv8)
    ensures FeedAll(irq, Idle, words) == Out(Idle, [Draw(words)])
  {
    hide FeedAll, Total, DrawWords;
    DrawWordsAreTotal(words[0]);
    FeedCommand(irq, words);
    hide Byte;
  }

  lemma DrawWordsAreTotal(w: bv32)
    requires DrawWords((w >> 24) as bv8) > 0
    ensures Total(w) == DrawWords((w >> 24) as bv8) > 1
    ensures Byte(w) != 0xA0 && Byte(w) != 0xC0 && !IsCopy(Byte(w)) && !IsPolyline(Byte(w))
  {
  }

  /** A copy takes its source, its target and its size, in this order. */
  lemma CopyLaw(irq: bool, words: seq<bv32>)
    requires |words| == 4 && (words[0] >> 24) & 0xE0 == 0x80
    ensures FeedAll(irq, Idle, words) == Out(Idle, [Copy(words[1], words[2], words[3])])
  {
    hide FeedAll, Total;
    TransferTotals(words[0]);
    FeedCommand(irq, words);
  }

  /** Reading back takes the place and the size. */
  lemma ReadBackLaw(irq: bool, words: seq<bv32>)
    requires |words| == 3 && words[0] >> 24 == 0xC0
    ensures FeedAll(irq, Idle, words) == Out(Idle, [ReadBack(words[1], words[2])])
  {
    hide FeedAll, Total;
    TransferTotals(words[0]);
    FeedCommand(irq, words);
  }

  lemma TransferTotals(w: bv32)
    ensures (w >> 24) & 0xE0 == 0x80 ==> Total(w) == 4 && IsCopy(Byte(w)) && Byte(w) != 0xA0 && Byte(w) != 0xC0
    ensures w >> 24 == 0xC0 ==> Total(w) == 3 && Byte(w) == 0xC0
  {
  }

  /** Settings, the interrupt request, and words that do nothing. */
  lemma SingleLaw(irq: bool, w: bv32)
    requires var c := w >> 24;
             c != 0x02 && c != 0xA0 && c != 0xC0 && !(0x20 <= c < 0xA0) && !(0xA0 < c < 0xB0) && !(0xC0 < c < 0xD0)
    ensures var c := w >> 24;
            FeedAll(irq, Idle, [w]) ==
            Out(Idle, if 0xE1 <= c <= 0xE6 then [Setting(w)] else if c == 0x1F && irq then [Interrupt] else [])
  {
    hide FeedAll, Total, Immediate;
    FeedOne(irq, Idle, w);
    SingleTotal(irq, w);
  }

  lemma SingleTotal(irq: bool, w: bv32)
    requires var c := w >> 24;
             c != 0x02 && c != 0xA0 && c != 0xC0 && !(0x20 <= c < 0xA0) && !(0xA0 < c < 0xB0) && !(0xC0 < c < 0xD0)
    ensures var c := w >> 24;
            Total(w) == 1 &&
            Immediate(irq, w) == if 0xE1 <= c <= 0xE6 then [Setting(w)] else if c == 0x1F && irq then [Interrupt] else []
  {
  }

  /** The interrupt is requested on the rising edge of the flag only, and the flag stays up. */
  lemma EdgeLaw(raised: bool, w: bv32, v: bv32)
    requires w >> 24 == 0x1F && v >> 24 == 0x1F
    ensures Watch(true, Idle, raised, [w, v]) == View(Idle, true, if raised then [] else [Interrupt])
  {
    hide Feed;
    assert [w, v][..1] == [w] && [w][..0] == [];
    EdgeFeeds(w);
    EdgeFeeds(v);
    assert Watch(true, Idle, raised, []) == View(Idle, raised, []);
    assert Watch(true, Idle, raised, [w]) == View(Idle, true, if raised then [] else [Interrupt]);
  }

  lemma EdgeFeeds(w: bv32)
    requires w >> 24 == 0x1F
    ensures Feed(true, Idle, w) == Out(Idle, [Interrupt])
  {
    hide Total, Immediate;
    SingleTotal(true, w);
  }

  // ---- Polylines ---------------------------------------------------------------------------

  function X(v: bv32): bv16 { (v & 0xFFFF) as bv16 }

  function Y(v: bv32): bv16 { (v >> 16) as bv16 }

  function Tint(c: bv32): bv32 { c & 0xFF_FFFF }

  /** A line for each vertex after the first, from the vertex before it. */
  function Lines(v: seq<bv32>, color: seq<bv32>, shaded: bool, semi: bool): seq<Event>
    requires |color| == |v| > 0
  {
    seq(|v| - 1, i requires 0 <= i < |v| - 1 =>
      Line(X(v[i]), Y(v[i]), Tint(color[i]), X(v[i + 1]), Y(v[i + 1]), Tint(color[i + 1]), shaded, semi))
  }

  predicate Ends(w: bv32) { w & 0xF000_F000 == 0x5000_5000 }

  predicate Semi(c: bv32) { (c >> 24) & 2 != 0 }

  /** The state after vertex v in the colour c. */
  function At(shaded: bool, semi: bool, c: bv32, v: bv32): Ready {
    Poly(shaded, semi, X(v), Y(v), Tint(c), 0, shaded)
  }

  lemma FieldsAre(v: bv32)
    ensures LoX(v) == X(v) && HiY(v) == Y(v) && Rgb(v) == Tint(v) && IsTerminator(v) == Ends(v)
  {
  }

  lemma HeadIs(c: bv32)
    requires (c >> 24) & 0xE8 == 0x48
    ensures IsPolyline(Byte(c)) && IsShaded(Byte(c)) == ((c >> 24) & 0x10 != 0) && (Byte(c) & 0x02 != 0) == Semi(c)
    ensures Byte(c) != 0xA0 && Byte(c) != 0xC0 && !IsCopy(Byte(c))
  {
  }

  lemma LinesSplit(v: seq<bv32>, color: seq<bv32>, shaded: bool, semi: bool)
    requires |color| == |v| > 1
    ensures Lines(v, color, shaded, semi) ==
            [Line(X(v[0]), Y(v[0]), Tint(color[0]), X(v[1]), Y(v[1]), Tint(color[1]), shaded, semi)] +
            Lines(v[1..], color[1..], shaded, semi)
  {
    hide X, Y, Tint;
  }

  lemma EndStops(irq: bool, s: Ready, end: bv32)
    requires s.Poly? && Ends(end)
    ensures Feed(irq, s, end) == Out(Idle, [])
  {
    hide Ends, IsTerminator;
    FieldsAre(end);
  }

  lemma StrokeStep(irq: bool, shaded: bool, semi: bool, c: bv32, v: bv32, c1: bv32, w: bv32)
    requires !Ends(w) && (if shaded then !Ends(c1) else c1 == c)
    ensures FeedAll(irq, At(shaded, semi, c, v), if shaded then [c1, w] else [w]) ==
            Out(At(shaded, semi, c1, w), [Line(X(v), Y(v), Tint(c), X(w), Y(w), Tint(c1), shaded, semi)])
  {
    hide FeedAll, X, Y, Tint, LoX, HiY, Rgb, Ends, IsTerminator;
    FieldsAre(c1);
    FieldsAre(w);
    var s := At(shaded, semi, c, v);
    if shaded {
      FeedOne(irq, s, c1);
      var s1 := Feed(irq, s, c1).s;
      FeedOne(irq, s1, w);
      FeedAllJoins(irq, s, [c1], [w]);
      assert [c1] + [w] == [c1, w];
    } else {
      FeedOne(irq, s, w);
    }
  }

  /** The words of the vertices v: each after its colour, if the line is shaded. */
  function Vertices(v: seq<bv32>, color: seq<bv32>, shaded: bool): seq<bv32>
    requires |v| == |color|
  {
    if v == [] then []
    else (if shaded then [color[0], v[0]] else [v[0]]) + Vertices(v[1..], color[1..], shaded)
  }

  predicate Open(v: seq<bv32>, color: seq<bv32>, shaded: bool)
    requires |v| == |color|
  {
    forall i :: 0 <= i < |v| ==> !Ends(v[i]) && (shaded ==> !Ends(color[i]))
  }

  /** After the first segment, up to the word that ends the polyline. */
  lemma {:induction false} StrokesFollow(irq: bool, semi: bool, shaded: bool, v: seq<bv32>, color: seq<bv32>, end: bv32)
    requires |v| == |color| > 0 && Ends(end) && Open(v[1..], color[1..], shaded)
    requires shaded || forall i :: 0 <= i < |v| ==> color[i] == color[0]
    ensures FeedAll(irq, At(shaded, semi, color[0], v[0]), Vertices(v[1..], color[1..], shaded) + [end]) ==
            Out(Idle, Lines(v, color, shaded, semi))
    decreases |v|
  {
    hide FeedAll, Feed, At, X, Y, Tint, Ends, Lines, StateOk;
    var s := At(shaded, semi, color[0], v[0]);
    if |v| == 1 {
      assert [] + [end] == [end];
      FeedOne(irq, s, end);
      LastVertex(irq, semi, shaded, v, color, end);
    } else {
      var step := if shaded then [color[1], v[1]] else [v[1]];
      var more := Vertices(v[2..], color[2..], shaded) + [end];
      assert v[1..][1..] == v[2..] && color[1..][1..] == color[2..];
      assert Vertices(v[1..], color[1..], shaded) + [end] == step + more;
      StrokeStep(irq, shaded, semi, color[0], v[0], color[1], v[1]);
      FeedAllJoins(irq, s, step, more);
      StrokesFollow(irq, semi, shaded, v[1..], color[1..], end);
      LinesSplit(v, color, shaded, semi);
    }
  }

  lemma LastVertex(irq: bool, semi: bool, shaded: bool, v: seq<bv32>, color: seq<bv32>, end: bv32)
    requires |v| == |color| == 1 && Ends(end)
    ensures Feed(irq, At(shaded, semi, color[0], v[0]), end) == Out(Idle, Lines(v, color, shaded, semi))
  {
    hide Feed, Ends, X, Y, Tint;
    EndStops(irq, At(shaded, semi, color[0], v[0]), end);
  }

  /** A polyline: the command with the first colour, the first two vertices, which are drawn at
      once, and further vertices, each joined to the one before it.  A shaded one has a colour
      before every vertex, a flat one is all in the first colour. */
  lemma PolylineLaw(irq: bool, v: seq<bv32>, color: seq<bv32>, end: bv32)
    requires |v| == |color| >= 2 && (color[0] >> 24) & 0xE8 == 0x48 && Ends(end)
    requires var shaded := (color[0] >> 24) & 0x10 != 0;
             Open(v[2..], color[2..], shaded) && (shaded || forall i :: 0 <= i < |v| ==> color[i] == color[0])
    ensures var shaded := (color[0] >> 24) & 0x10 != 0;
            var first := if shaded then [color[0], v[0], color[1], v[1]] else [color[0], v[0], v[1]];
            FeedAll(irq, Idle, first + Vertices(v[2..], color[2..], shaded) + [end]) ==
            Out(Idle, [Draw(first)] + Lines(v[1..], color[1..], shaded, Semi(color[0])))
  {
    hide FeedAll, Complete, Total, At, Ends, Lines, Vertices, Semi;
    var shaded := (color[0] >> 24) & 0x10 != 0;
    var first := if shaded then [color[0], v[0], color[1], v[1]] else [color[0], v[0], v[1]];
    var more := Vertices(v[2..], color[2..], shaded) + [end];
    FirstStroke(first, shaded);
    FeedCommand(irq, first);
    assert v[1..][1..] == v[2..] && color[1..][1..] == color[2..];
    StrokesFollow(irq, Semi(color[0]), shaded, v[1..], color[1..], end);
    FeedAllJoins(irq, Idle, first, more);
    assert first + Vertices(v[2..], color[2..], shaded) + [end] == first + more;
  }

  lemma FirstStroke(w: seq<bv32>, shaded: bool)
    requires |w| == (if shaded then 4 else 3) && (w[0] >> 24) & 0xE8 == 0x48
    requires shaded == ((w[0] >> 24) & 0x10 != 0)
    ensures Total(w[0]) == |w|
    ensures Complete(w) == Out(At(shaded, Semi(w[0]), if shaded then w[2] else w[0], w[|w| - 1]), [Draw(w)])
  {
    hide X, Y, Tint, LoX, HiY, Rgb, Byte, Semi, CmdSize, IsPolyline, IsShaded;
    HeadIs(w[0]);
    FieldsAre(w[|w| - 1]);
    FieldsAre(if shaded then w[2] else w[0]);
  }
}
