// The VRAM-to-VRAM copy of GP0 commands 80h-9Fh, on the shadow of video memory
// (src/gpu_commands.c:543-627).  When neither rectangle wraps, rows are moved whole in an
// order that survives overlap; otherwise the copy goes pixel by pixel.

module VramCopy {

  const WIDTH := 1024
  const HEIGHT := 512
  const PIXELS := 524288

  type Word = w: int | 0 <= w < 0x1_0000_0000
  type Pixel = p: int | 0 <= p < 0x1_0000
  type Place = p: int | 0 <= p < PIXELS
  type Image = v: seq<Pixel> | |v| == PIXELS witness seq(PIXELS, i => 0)

  /** A decoded copy command. */
  datatype Command = Command(sx: int, sy: int, dx: int, dy: int, w: int, h: int)

  type Copy = c: Command |
    && 0 <= c.sx < WIDTH && 0 <= c.sy < HEIGHT && 0 <= c.dx < WIDTH && 0 <= c.dy < HEIGHT
    && 0 < c.w <= WIDTH && 0 < c.h <= HEIGHT
    witness Command(0, 0, 0, 0, 1, 1)

  /** The parameter words, with their masks; a size of 0 stands for the largest. */
  function Decode(src: Word, dst: Word, size: Word): Copy {
    var w, h := size % WIDTH, size / 0x1_0000 % HEIGHT;
    Command(src % WIDTH, src / 0x1_0000 % HEIGHT, dst % WIDTH, dst / 0x1_0000 % HEIGHT,
            if w == 0 then WIDTH else w, if h == 0 then HEIGHT else h)
  }

  function Flat(x: int, y: int): Place
    requires 0 <= x < WIDTH && 0 <= y < HEIGHT
  {
    y * WIDTH + x
  }

  datatype Step = Step(row: int, col: int)

  predicate Inside(c: Copy, s: Step) {
    0 <= s.row < c.h && 0 <= s.col < c.w
  }

  function Src(c: Copy, s: Step): Place {
    Flat((c.sx + s.col) % WIDTH, (c.sy + s.row) % HEIGHT)
  }

  function Dst(c: Copy, s: Step): Place {
    Flat((c.dx + s.col) % WIDTH, (c.dy + s.row) % HEIGHT)
  }

  /** The step that would write a pixel. */
  function Writer(c: Copy, p: Place): Step {
    Step((p / WIDTH - c.dy) % HEIGHT, (p % WIDTH - c.dx) % WIDTH)
  }

  lemma FlatSplits(x: int, y: int)
    requires 0 <= x < WIDTH
    ensures (y * WIDTH + x) % WIDTH == x && (y * WIDTH + x) / WIDTH == y
  {
  }

  lemma MeetX(a: int, b: int)
    ensures a % WIDTH == b % WIDTH <==> (a - b) % WIDTH == 0
  {
  }

  lemma MeetY(a: int, b: int)
    ensures a % HEIGHT == b % HEIGHT <==> (a - b) % HEIGHT == 0
  {
  }

  lemma BackX(d: int, k: int)
    ensures ((d + k) % WIDTH - d) % WIDTH == k % WIDTH
  {
  }

  lemma BackY(d: int, k: int)
    ensures ((d + k) % HEIGHT - d) % HEIGHT == k % HEIGHT
  {
  }

  lemma OutX(d: int, k: int)
    ensures (d + (k - d) % WIDTH) % WIDTH == k % WIDTH
  {
    MeetX(d + (k - d) % WIDTH, k);
    assert d + (k - d) % WIDTH - k == -WIDTH * ((k - d) / WIDTH);
  }

  lemma OutY(d: int, k: int)
    ensures (d + (k - d) % HEIGHT) % HEIGHT == k % HEIGHT
  {
    MeetY(d + (k - d) % HEIGHT, k);
    assert d + (k - d) % HEIGHT - k == -HEIGHT * ((k - d) / HEIGHT);
  }

  lemma WriterWrites(c: Copy, p: Place)
    ensures Dst(c, Writer(c, p)) == p
  {
    OutX(c.dx, p % WIDTH);
    OutY(c.dy, p / WIDTH);
    Small(p % WIDTH, p / WIDTH);
    assert Flat(p % WIDTH, p / WIDTH) == p;
  }

  lemma OneWriter(c: Copy, s: Step)
    requires Inside(c, s)
    ensures Writer(c, Dst(c, s)) == s
  {
    FlatSplits((c.dx + s.col) % WIDTH, (c.dy + s.row) % HEIGHT);
    BackX(c.dx, s.col);
    BackY(c.dy, s.row);
    Small(s.col, s.row);
  }

  lemma Small(x: int, y: int)
    requires 0 <= x < WIDTH && 0 <= y < HEIGHT
    ensures x % WIDTH == x && y % HEIGHT == y
  {
  }

  /** What a copy should do: every destination pixel takes the old value of its source, and
    * every other pixel keeps its own. */
  function Copied(v: Image, c: Copy): Image {
    CopiedRows(v, c, 0, c.h)
  }

  /** The same for the destination rows `lo` up to `hi` alone. */
  function CopiedRows(v: Image, c: Copy, lo: int, hi: int): Image {
    seq(PIXELS, p requires 0 <= p < PIXELS => CopiedPixel(v, c, lo, hi, p))
  }

  function CopiedPixel(v: Image, c: Copy, lo: int, hi: int, p: Place): Pixel {
    var s := Writer(c, p);
    if Inside(c, s) && lo <= s.row < hi then v[Src(c, s)] else v[p]
  }

  // ---------------------------------------------------------------------------
  // Pixel by pixel
  // ---------------------------------------------------------------------------

  predicate Before(a: Step, b: Step) {
    a.row < b.row || (a.row == b.row && a.col < b.col)
  }

  /** The steps of the pixel loops: `rows` whole rows, then `cols` pixels of the next. */
  function Steps(c: Copy, rows: int, cols: int): (steps: seq<Step>)
    requires 0 <= rows && 0 <= cols <= c.w
    ensures forall s :: s in steps <==>
              0 <= s.row && 0 <= s.col && ((s.row < rows && s.col < c.w) || (s.row == rows && s.col < cols))
    ensures forall i, j :: 0 <= i < j < |steps| ==> Before(steps[i], steps[j])
    decreases rows, cols
  {
    if cols > 0 then Steps(c, rows, cols - 1) + [Step(rows, cols - 1)]
    else if rows > 0 then Steps(c, rows - 1, c.w)
    else []
  }

  function Sequential(v: Image, c: Copy, steps: seq<Step>): Image {
    if steps == [] then v
    else
      var last := |steps| - 1;
      var u := Sequential(v, c, steps[..last]);
      u[Dst(c, steps[last]) := u[Src(c, steps[last])]]
  }

  function Forward(v: Image, c: Copy): Image {
    Sequential(v, c, Steps(c, c.h, 0))
  }

  /** A step reads a pixel that an earlier step has changed. */
  predicate Reads(c: Copy, earlier: Step, later: Step) {
    Src(c, later) == Dst(c, earlier) && Src(c, earlier) != Dst(c, earlier)
  }

  ghost predicate Safe(c: Copy, steps: seq<Step>) {
    forall i, j :: 0 <= i < j < |steps| ==> !Reads(c, steps[i], steps[j])
  }

  predicate Orderly(c: Copy, steps: seq<Step>) {
    && (forall i :: 0 <= i < |steps| ==> Inside(c, steps[i]))
    && (forall i, j :: 0 <= i < j < |steps| ==> Before(steps[i], steps[j]))
  }

  lemma DistinctWriters(c: Copy, a: Step, b: Step)
    requires Inside(c, a) && Inside(c, b) && a != b
    ensures Dst(c, a) != Dst(c, b)
  {
    OneWriter(c, a);
    OneWriter(c, b);
  }

  /** Safe steps leave each destination pixel with the old value of its source. */
  lemma {:induction false} SafeCopies(v: Image, c: Copy, steps: seq<Step>, p: Place)
    requires Orderly(c, steps) && Safe(c, steps)
    ensures Sequential(v, c, steps)[p] == if Writer(c, p) in steps then v[Src(c, Writer(c, p))] else v[p]
    decreases |steps|
  {
    hide Dst, Src, Writer, Flat;
    WriterWrites(c, p);
    if steps != [] {
      var last := |steps| - 1;
      var rest, s := steps[..last], steps[last];
      assert forall t :: t in steps <==> t in rest || t == s;
      SafeCopies(v, c, rest, p);
      if p == Dst(c, s) {
        OneWriter(c, s);
        var q := Src(c, s);
        SafeCopies(v, c, rest, q);
        WriterWrites(c, q);
        if Writer(c, q) in rest {
          var i :| 0 <= i < last && steps[i] == Writer(c, q);
          assert !Reads(c, steps[i], steps[last]);
        }
      }
    }
  }

  function Spot(q: Place): Image {
    seq(PIXELS, p requires 0 <= p < PIXELS => if p == q then 1 else 0)
  }

  /** Unsafe steps get some pixel of some image wrong. */
  lemma {:induction false} UnsafeSmears(c: Copy, steps: seq<Step>) returns (v: Image, s: Step)
    requires Orderly(c, steps) && !Safe(c, steps)
    ensures s in steps && Sequential(v, c, steps)[Dst(c, s)] != v[Src(c, s)]
    decreases |steps|
  {
    hide Dst, Src, Writer, Flat;
    var last := |steps| - 1;
    var rest := steps[..last];
    if !Safe(c, rest) {
      v, s := UnsafeSmears(c, rest);
      var i :| 0 <= i < last && steps[i] == s;
      assert Before(steps[i], steps[last]);
      DistinctWriters(c, s, steps[last]);
    } else {
      forall i, j | 0 <= i < j < last ensures !Reads(c, steps[i], steps[j]) {
        assert rest[i] == steps[i] && rest[j] == steps[j];
      }
      var i, j :| 0 <= i < j < |steps| && Reads(c, steps[i], steps[j]);
      assert j == last;
      s := steps[last];
      v := Spot(Src(c, steps[i]));
      SafeCopies(v, c, rest, Src(c, s));
      OneWriter(c, steps[i]);
      assert rest[i] == steps[i];
    }
  }

  // ---------------------------------------------------------------------------
  // Which copies smear
  // ---------------------------------------------------------------------------

  /** The destination lies ahead of the source in copying order, close enough to be read
    * again: some rows down and overlapping sideways, or along the same rows to the right. */
  predicate Smears(c: Copy) {
    var ex, ey := (c.dx - c.sx) % WIDTH, (c.dy - c.sy) % HEIGHT;
    || (0 < ey < c.h && (ex < c.w || WIDTH - ex < c.w))
    || (ey == 0 && 0 < ex < c.w)
  }

  lemma Meets(c: Copy, a: Step, b: Step)
    requires Inside(c, a) && Inside(c, b)
    ensures Src(c, b) == Dst(c, a) <==>
              && (b.col - a.col - (c.dx - c.sx)) % WIDTH == 0
              && (b.row - a.row - (c.dy - c.sy)) % HEIGHT == 0
  {
    var x0, x1 := c.sx + b.col, c.dx + a.col;
    var y0, y1 := c.sy + b.row, c.dy + a.row;
    MeetX(x0, x1);
    MeetY(y0, y1);
    assert x0 - x1 == b.col - a.col - (c.dx - c.sx) && y0 - y1 == b.row - a.row - (c.dy - c.sy);
    FlatSplits(x0 % WIDTH, y0 % HEIGHT);
    FlatSplits(x1 % WIDTH, y1 % HEIGHT);
  }

  /** Congruent differences, when one is known to be small. */
  lemma Offset(x: int, d: int)
    ensures (x - d) % WIDTH == 0 && -WIDTH < x < WIDTH ==> x == d % WIDTH || x == d % WIDTH - WIDTH
    ensures (x - d) % HEIGHT == 0 && 0 <= x < HEIGHT ==> x == d % HEIGHT
    ensures x == d % WIDTH || x == d % WIDTH - WIDTH ==> (x - d) % WIDTH == 0
    ensures x == d % HEIGHT ==> (x - d) % HEIGHT == 0
  {
  }

  lemma ReadsAgainSmears(c: Copy, a: Step, b: Step)
    requires Inside(c, a) && Inside(c, b) && Before(a, b) && Reads(c, a, b)
    ensures Smears(c)
  {
    hide Src, Dst;
    Meets(c, a, b);
    Meets(c, a, a);
    Offset(b.col - a.col, c.dx - c.sx);
    Offset(b.row - a.row, c.dy - c.sy);
    Offset(0, c.dx - c.sx);
    Offset(0, c.dy - c.sy);
  }

  lemma SmearsReadsAgain(c: Copy) returns (a: Step, b: Step)
    requires Smears(c)
    ensures Inside(c, a) && Inside(c, b) && Before(a, b) && Reads(c, a, b)
  {
    hide Src, Dst;
    var ex, ey := (c.dx - c.sx) % WIDTH, (c.dy - c.sy) % HEIGHT;
    if ex < c.w {
      a, b := Step(0, 0), Step(ey, ex);
    } else {
      a, b := Step(0, WIDTH - ex), Step(ey, 0);
    }
    Offset(b.col - a.col, c.dx - c.sx);
    Offset(b.row - a.row, c.dy - c.sy);
    Offset(0, c.dx - c.sx);
    Offset(0, c.dy - c.sy);
    Meets(c, a, b);
    Meets(c, a, a);
  }

  lemma SafeUnlessSmears(c: Copy)
    ensures Orderly(c, Steps(c, c.h, 0))
    ensures Safe(c, Steps(c, c.h, 0)) <==> !Smears(c)
  {
    var steps := Steps(c, c.h, 0);
    assert Orderly(c, steps) by {
      forall i | 0 <= i < |steps| ensures Inside(c, steps[i]) {
        assert steps[i] in steps;
      }
    }
    hide Steps, Smears, Reads;
    forall i, j | 0 <= i < j < |steps| && Reads(c, steps[i], steps[j]) ensures Smears(c) {
      ReadsAgainSmears(c, steps[i], steps[j]);
    }
    if Smears(c) {
      var a, b := SmearsReadsAgain(c);
      assert a in steps && b in steps;
      var i :| 0 <= i < |steps| && steps[i] == a;
      var j :| 0 <= j < |steps| && steps[j] == b;
      assert i < j by {
        assert j < i ==> Before(b, a);
      }
    }
  }

  /** The pixel loops do what a copy should do, on every image, exactly when they do not smear. */
  lemma ForwardIsExact(c: Copy)
    ensures (forall v: Image :: Forward(v, c) == Copied(v, c)) <==> !Smears(c)
  {
    SafeUnlessSmears(c);
    var steps := Steps(c, c.h, 0);
    hide Sequential, Steps, Src, Dst, Writer, Smears, Safe, Orderly;
    if !Smears(c) {
      forall v: Image ensures Forward(v, c) == Copied(v, c) {
        forall p: Place ensures Forward(v, c)[p] == Copied(v, c)[p] {
          SafeCopies(v, c, steps, p);
        }
      }
    } else {
      var v, s := UnsafeSmears(c, steps);
      OneWriter(c, s);
      assert Copied(v, c)[Dst(c, s)] == v[Src(c, s)];
    }
  }

  /** Rectangles with no pixel in common, wrapped as they may be, never smear. */
  lemma DisjointIsExact(c: Copy)
    requires forall a, b :: Inside(c, a) && Inside(c, b) ==> Src(c, b) != Dst(c, a)
    ensures !Smears(c)
  {
    if Smears(c) {
      var a, b := SmearsReadsAgain(c);
    }
  }

  // ---------------------------------------------------------------------------
  // Row by row
  // ---------------------------------------------------------------------------

  /** Neither rectangle crosses an edge. */
  predicate Whole(c: Copy) {
    c.sx + c.w <= WIDTH && c.dx + c.w <= WIDTH && c.sy + c.h <= HEIGHT && c.dy + c.h <= HEIGHT
  }

  function RowMoved(v: Image, d: Place, s: Place, n: int): Image
    requires 0 <= n && d + n <= PIXELS && s + n <= PIXELS
  {
    seq(PIXELS, p requires 0 <= p < PIXELS => if d <= p < d + n then v[s + (p - d)] else v[p])
  }

  function SrcRow(c: Copy, row: int): (p: Place)
    requires Whole(c) && 0 <= row < c.h
    ensures p + c.w <= PIXELS
  {
    Flat(c.sx, c.sy + row)
  }

  function DstRow(c: Copy, row: int): (p: Place)
    requires Whole(c) && 0 <= row < c.h
    ensures p + c.w <= PIXELS
  {
    Flat(c.dx, c.dy + row)
  }

  /** In a whole rectangle, a row of steps is a run of pixels. */
  lemma RowIsRun(c: Copy, row: int, col: int)
    requires Whole(c) && 0 <= row < c.h && 0 <= col < c.w
    ensures Src(c, Step(row, col)) == SrcRow(c, row) + col
    ensures Dst(c, Step(row, col)) == DstRow(c, row) + col
  {
    Small(c.sx + col, c.sy + row);
    Small(c.dx + col, c.dy + row);
  }

  /** Different rows never meet, whatever their columns. */
  lemma RowsApart(c: Copy, a: Step, b: Step)
    requires Whole(c) && Inside(c, a) && Inside(c, b) && c.dy + a.row != c.sy + b.row
    ensures Dst(c, a) != Src(c, b)
  {
    RowIsRun(c, a.row, a.col);
    RowIsRun(c, b.row, b.col);
  }

  /** The rows copied so far have left alone what a step reads. */
  lemma ReadsOld(v: Image, c: Copy, lo: int, hi: int, s: Step)
    requires Whole(c) && Inside(c, s)
    requires c.sy + s.row < c.dy + lo || c.dy + hi <= c.sy + s.row
    ensures CopiedRows(v, c, lo, hi)[Src(c, s)] == v[Src(c, s)]
  {
    hide Writer, Src, Dst;
    var w := Writer(c, Src(c, s));
    WriterWrites(c, Src(c, s));
    if Inside(c, w) && lo <= w.row < hi {
      RowsApart(c, w, s);
    }
  }

  /** `row` is the next one below rows `lo` up to `hi`, or the next above, making `lo'` up to
    * `hi'`; and none of those rows lies where `row` is read. */
  predicate Extends(c: Copy, row: int, lo: int, hi: int, lo': int, hi': int) {
    && 0 <= row < c.h && 0 <= lo <= hi <= c.h
    && ((row == hi && lo' == lo && hi' == hi + 1) || (row == lo - 1 && lo' == lo - 1 && hi' == hi))
    && (c.sy + row < c.dy + lo || c.dy + hi <= c.sy + row)
  }

  lemma RowStepAt(v: Image, c: Copy, row: int, lo: int, hi: int, lo': int, hi': int, p: Place)
    requires Whole(c) && Extends(c, row, lo, hi, lo', hi')
    ensures RowMoved(CopiedRows(v, c, lo, hi), DstRow(c, row), SrcRow(c, row), c.w)[p] == CopiedPixel(v, c, lo', hi', p)
  {
    hide Writer, Src, Dst, SrcRow, DstRow, Flat;
    if DstRow(c, row) <= p < DstRow(c, row) + c.w {
      var step := Step(row, p - DstRow(c, row));
      RowIsRun(c, row, step.col);
      OneWriter(c, step);
      ReadsOld(v, c, lo, hi, step);
    } else if Inside(c, Writer(c, p)) {
      WriterWrites(c, p);
      RowIsRun(c, Writer(c, p).row, Writer(c, p).col);
    }
  }

  /** Moving one row extends the rows copied so far. */
  lemma RowStep(v: Image, c: Copy, row: int, lo: int, hi: int, lo': int, hi': int)
    requires Whole(c) && Extends(c, row, lo, hi, lo', hi')
    ensures RowMoved(CopiedRows(v, c, lo, hi), DstRow(c, row), SrcRow(c, row), c.w) == CopiedRows(v, c, lo', hi')
  {
    hide RowMoved, CopiedPixel, SrcRow, DstRow, Whole;
    forall p: Place
      ensures RowMoved(CopiedRows(v, c, lo, hi), DstRow(c, row), SrcRow(c, row), c.w)[p] == CopiedRows(v, c, lo', hi')[p]
    {
      RowStepAt(v, c, row, lo, hi, lo', hi', p);
    }
  }

  lemma NoRows(v: Image, c: Copy, lo: int)
    ensures CopiedRows(v, c, lo, lo) == v
  {
  }

  /** What the command makes of an image: across an edge the pixels are copied one after
    * another, and otherwise all at once. */
  function Outcome(v: Image, c: Copy): Image {
    if Whole(c) then Copied(v, c) else Forward(v, c)
  }

  class Shadow {
    const pixels: array<Pixel>

    ghost predicate Valid()
      reads this
    {
      pixels.Length == PIXELS
    }

    constructor ()
      ensures Valid() && fresh(pixels)
    {
      pixels := new Pixel[PIXELS](i => 0);
    }

    /** `memmove`: the two runs may overlap. */
    method Move(d: Place, s: Place, n: int)
      requires Valid() && 0 <= n && d + n <= PIXELS && s + n <= PIXELS
      modifies pixels
      ensures pixels[..] == RowMoved(old(pixels[..]), d, s, n)
    {
      forall p | d <= p < d + n {
        pixels[p] := pixels[s + (p - d)];
      }
    }

    /** `memcpy`: only defined for runs that do not overlap. */
    method CopyRun(d: Place, s: Place, n: int)
      requires Valid() && 0 <= n && d + n <= PIXELS && s + n <= PIXELS
      requires d + n <= s || s + n <= d
      modifies pixels
      ensures pixels[..] == RowMoved(old(pixels[..]), d, s, n)
    {
      for i := 0 to n
        invariant pixels[..] == RowMoved(old(pixels[..]), d, s, i)
      {
        pixels[d + i] := pixels[s + i];
      }
    }

    method MoveRows(c: Copy)
      requires Valid() && Whole(c) && c.sy == c.dy
      modifies pixels
      ensures pixels[..] == Copied(old(pixels[..]), c)
    {
      hide CopiedRows, RowMoved, SrcRow, DstRow;
      ghost var was: Image := pixels[..];
      NoRows(was, c, 0);
      for row := 0 to c.h
        invariant pixels[..] == CopiedRows(was, c, 0, row)
      {
        RowStep(was, c, row, 0, row, 0, row + 1);
        Move(DstRow(c, row), SrcRow(c, row), c.w);
      }
    }

    method CopyUpwards(c: Copy)
      requires Valid() && Whole(c) && c.sy < c.dy
      modifies pixels
      ensures pixels[..] == Copied(old(pixels[..]), c)
    {
      hide CopiedRows, RowMoved;
      ghost var was: Image := pixels[..];
      NoRows(was, c, c.h);
      for row := c.h downto 0
        invariant pixels[..] == CopiedRows(was, c, row, c.h)
      {
        RowStep(was, c, row, row + 1, c.h, row, c.h);
        CopyRun(DstRow(c, row), SrcRow(c, row), c.w);
      }
    }

    method CopyDownwards(c: Copy)
      requires Valid() && Whole(c)
      requires c.dy < c.sy || c.sy + c.h <= c.dy || (c.sy == c.dy && (c.sx >= c.dx + c.w || c.dx >= c.sx + c.w))
      modifies pixels
      ensures pixels[..] == Copied(old(pixels[..]), c)
    {
      hide CopiedRows, RowMoved;
      ghost var was: Image := pixels[..];
      NoRows(was, c, 0);
      for row := 0 to c.h
        invariant pixels[..] == CopiedRows(was, c, 0, row)
      {
        RowStep(was, c, row, 0, row, 0, row + 1);
        CopyRun(DstRow(c, row), SrcRow(c, row), c.w);
      }
    }

    /** The pixel loops of the wrapping path. */
    method CopyPixels(c: Copy)
      requires Valid()
      modifies pixels
      ensures pixels[..] == Forward(old(pixels[..]), c)
    {
      hide Src, Dst;
      for row := 0 to c.h
        invariant pixels[..] == Sequential(old(pixels[..]), c, Steps(c, row, 0))
      {
        for col := 0 to c.w
          invariant pixels[..] == Sequential(old(pixels[..]), c, Steps(c, row, col))
        {
          LastStep(old(pixels[..]), c, row, col);
          pixels[Dst(c, Step(row, col))] := pixels[Src(c, Step(row, col))];
        }
      }
    }

    /** The whole command. */
    method Execute(src: Word, dst: Word, size: Word)
      requires Valid()
      modifies pixels
      ensures pixels[..] == Outcome(old(pixels[..]), Decode(src, dst, size))
    {
      hide Copied, Forward;
      var c := Decode(src, dst, size);
      if c.sx + c.w <= WIDTH && c.dx + c.w <= WIDTH && c.sy + c.h <= HEIGHT && c.dy + c.h <= HEIGHT {
        if c.sy == c.dy && !(c.sx >= c.dx + c.w || c.dx >= c.sx + c.w) {
          MoveRows(c);
        } else if c.dy > c.sy && c.dy < c.sy + c.h {
          CopyUpwards(c);
        } else {
          CopyDownwards(c);
        }
      } else {
        CopyPixels(c);
      }
    }
  }

  lemma LastStep(v: Image, c: Copy, row: int, col: int)
    requires 0 <= row && 0 <= col < c.w
    ensures var u := Sequential(v, c, Steps(c, row, col));
            Sequential(v, c, Steps(c, row, col + 1)) == u[Dst(c, Step(row, col)) := u[Src(c, Step(row, col))]]
  {
    var steps := Steps(c, row, col + 1);
    assert steps[..|steps| - 1] == Steps(c, row, col) && steps[|steps| - 1] == Step(row, col);
  }

  /** The two paths are not the same operation: a copy that smears does so only when it
    * crosses an edge, where a single pass in pixel order is all there is. */
  lemma CommandIsExact(c: Copy)
    ensures (forall v: Image :: Outcome(v, c) == Copied(v, c)) <==> Whole(c) || !Smears(c)
  {
    hide Smears, Whole, Forward, Copied;
    ForwardIsExact(c);
    if !Whole(c) && Smears(c) {
      var v: Image :| Forward(v, c) != Copied(v, c);
      assert Outcome(v, c) != Copied(v, c);
    }
  }

  /** Two pixels moved one to the right across the right edge: the second takes the new
    * value of the first. */
  lemma SmearExample()
    ensures var c: Copy := Command(1023, 0, 0, 0, 2, 1);
            !Whole(c) && Smears(c) && exists v: Image :: Outcome(v, c) != Copied(v, c)
  {
    CommandIsExact(Command(1023, 0, 0, 0, 2, 1));
  }

  // ---------------------------------------------------------------------------
  // The command in coordinates
  // ---------------------------------------------------------------------------

  /** The fields of the parameter words: columns in ten bits, rows in nine bits of the upper
    * half, and whatever is between them does not matter. */
  lemma DecodeLaw(src: Word, dst: Word, size: Word, c: Copy, a: nat, b: nat, d: nat, e: nat, f: nat, g: nat)
    requires a < 64 && b < 128 && d < 64 && e < 128 && f < 64 && g < 128
    requires src == c.sx + 1024 * a + 65536 * (c.sy + 512 * b)
    requires dst == c.dx + 1024 * d + 65536 * (c.dy + 512 * e)
    requires size == (if c.w == 1024 then 0 else c.w) + 1024 * f + 65536 * ((if c.h == 512 then 0 else c.h) + 512 * g)
    ensures Decode(src, dst, size) == c
  {
    Fields(src, c.sx, a, c.sy, b);
    Fields(dst, c.dx, d, c.dy, e);
    Fields(size, if c.w == 1024 then 0 else c.w, f, if c.h == 512 then 0 else c.h, g);
  }

  lemma Fields(w: int, x: int, a: nat, y: int, b: nat)
    requires 0 <= x < 1024 && a < 64 && 0 <= y < 512 && w == x + 1024 * a + 65536 * (y + 512 * b)
    ensures w % 1024 == x && w / 65536 % 512 == y
  {
    var low := x + 1024 * a;
    assert w == x + 1024 * (a + 64 * (y + 512 * b));
    assert w / 65536 == y + 512 * b;
  }

  /** The pixel in a row and a column of the target rectangle gets the one in the same row and
    * column of the source rectangle; both wrap around at the edges of the image. */
  lemma CopiedLaw(v: Image, c: Copy, row: int, col: int)
    requires 0 <= row < c.h && 0 <= col < c.w
    ensures var from, to := (c.sy + row) % 512 * 1024 + (c.sx + col) % 1024, (c.dy + row) % 512 * 1024 + (c.dx + col) % 1024;
            0 <= from < PIXELS && 0 <= to < PIXELS && Copied(v, c)[to] == v[from]
  {
    OneWriter(c, Step(row, col));
  }

  /** Pixels outside the target rectangle stay. */
  lemma OutsideLaw(v: Image, c: Copy, x: int, y: int)
    requires 0 <= x < 1024 && 0 <= y < 512 && ((x - c.dx) % 1024 >= c.w || (y - c.dy) % 512 >= c.h)
    ensures Copied(v, c)[y * 1024 + x] == v[y * 1024 + x]
  {
    FlatSplits(x, y);
  }
}
