/** The GP0 command stream: words fed one at a time, and whole DMA blocks dispatched by
    command.  Everything handed to the drawing backend is an event in a log. */
module Gp0 {

  function Byte(w: bv32): bv8 { (w >> 24) as bv8 }

  // ---- Command sizes -----------------------------------------------------------------

  /** gpu_cmd_size: words of a command; 0 stands for polylines, LoadImage and StoreImage. */
  function CmdSize(c: bv8): nat {
    if c == 0x02 then 3
    else if 0x20 <= c < 0x40 then PolygonSize(c)
    else if 0x40 <= c < 0x48 then 3
    else if 0x50 <= c < 0x58 then 4
    else if 0x48 <= c < 0x60 then 0
    else if 0x60 <= c < 0x80 then RectangleSize(c)
    else if 0x80 <= c < 0xA0 then 4
    else if 0xA0 <= c < 0xB0 || 0xC0 <= c < 0xD0 then 0
    else 1
  }

  function PolygonSize(c: bv8): nat {
    if c < 0x24 then 4 else if c < 0x28 then 7 else if c < 0x2C then 5 else if c < 0x30 then 9
    else if c < 0x34 then 6 else if c < 0x38 then 9 else if c < 0x3C then 8 else 12
  }

  function RectangleSize(c: bv8): nat {
    if c < 0x64 then 3 else if c < 0x68 then 4 else if c & 4 == 0 then 2 else 3
  }

  /** The table agrees with the flags in the command byte: one word of colour and command,
      one vertex word per corner, a texture word each when textured, and a colour word for
      each corner after the first when shaded. */
  lemma PolygonSizeFollowsFlags(c: bv8)
    requires 0x20 <= c < 0x40
    ensures var corners := if c & 0x08 != 0 then 4 else 3;
            PolygonSize(c) == 1 + corners + (if c & 0x04 != 0 then corners else 0) +
                              (if c & 0x10 != 0 then corners - 1 else 0)
  {
  }

  /** A rectangle has a texture word when textured and a size word when of variable size. */
  lemma RectangleSizeFollowsFlags(c: bv8)
    requires 0x60 <= c < 0x80
    ensures RectangleSize(c) == 2 + (if c & 0x04 != 0 then 1 else 0) + (if c & 0x18 == 0 then 1 else 0)
  {
  }

  predicate IsPolyline(c: bv8) { c & 0xE0 == 0x40 && c & 0x08 != 0 }

  predicate IsCopy(c: bv8) { c & 0xE0 == 0x80 }

  predicate IsShaded(c: bv8) { c & 0x10 != 0 }

  /** Words that are collected before the command with first word w acts; 1 if it acts at once. */
  function Total(w: bv32): (n: nat)
    ensures 1 <= n <= 12
    ensures Byte(w) == 0xA0 || Byte(w) == 0xC0 ==> n == 3
    ensures IsCopy(Byte(w)) ==> n == 4
    ensures IsPolyline(Byte(w)) ==> n == if IsShaded(Byte(w)) then 4 else 3
  {
    var c := Byte(w);
    if c == 0xA0 || c == 0xC0 then 3
    else if IsCopy(c) then 4
    else if IsPolyline(c) then if IsShaded(c) then 4 else 3
    else if CmdSize(c) == 0 then 1
    else CmdSize(c)
  }

  /** Data words of an image of the given dimensions; 0 stands for 1024 and 512. */
  function ImageWords(dims: bv32): (n: nat)
    ensures n > 0
  {
    var w0, h0 := (dims & 0xFFFF) as int, (dims >> 16) as int;
    var w := if w0 <= 0 then 1024 else w0;
    var h := if h0 <= 0 then 512 else h0;
    ProductPositive(w, h);
    (w * h + 1) / 2
  }

  lemma ProductPositive(w: int, h: int)
    requires w > 0 && h > 0
    ensures w * h > 0
  {
  }

  // ---- The decoder as a function ---------------------------------------------------------

  datatype Event =
    | Draw(words: seq<bv32>)
    | Line(x0: bv16, y0: bv16, color0: bv32, x1: bv16, y1: bv16, color1: bv32, shaded: bool, semi: bool)
    | Copy(source: bv32, target: bv32, dims: bv32)
    | Upload(at: bv32, dims: bv32, data: seq<bv32>)
    | ReadBack(at: bv32, dims: bv32)
    | Setting(word: bv32)
    | Interrupt

  datatype State =
    | Idle
    | Params(words: seq<bv32>, need: nat)
    | Image(at: bv32, dims: bv32, got: seq<bv32>, left: nat)
    | Poly(shaded: bool, semi: bool, x: bv16, y: bv16, color: bv32, next: bv32, wantColor: bool)

  predicate StateOk(s: State) {
    match s
    case Params(words, need) => |words| > 0 && need > 0 && |words| + need == Total(words[0])
    case Image(_, _, _, left) => left > 0
    case Poly(shaded, _, _, _, _, next, wantColor) => (wantColor ==> shaded) && (wantColor || !shaded ==> next == 0)
    case _ => true
  }

  type Ready = s: State | StateOk(s) witness Idle

  datatype Out = Out(s: Ready, events: seq<Event>)

  function LoX(w: bv32): bv16 { (w & 0xFFFF) as bv16 }

  function HiY(w: bv32): bv16 { (w >> 16) as bv16 }

  function Rgb(w: bv32): bv32 { w & 0x00FF_FFFF }

  predicate IsTerminator(w: bv32) { w & 0xF000_F000 == 0x5000_5000 }

  /** All words of a command are there. */
  function Complete(words: seq<bv32>): (o: Out)
    requires |words| > 1 && |words| == Total(words[0])
    ensures o.events != [Interrupt]
  {
    var c := Byte(words[0]);
    if c == 0xA0 then Out(Image(words[1], words[2], [], ImageWords(words[2])), [])
    else if c == 0xC0 then Out(Idle, [ReadBack(words[1], words[2])])
    else if IsCopy(c) then Out(Idle, [Copy(words[1], words[2], words[3])])
    else if IsPolyline(c) then Out(FirstSegment(words), [Draw(words)])
    else Out(Idle, [Draw(words)])
  }

  function FirstSegment(words: seq<bv32>): Ready
    requires |words| > 1 && IsPolyline(Byte(words[0])) && |words| == Total(words[0])
  {
    var shaded := IsShaded(Byte(words[0]));
    var xy := if shaded then words[3] else words[2];
    Poly(shaded, Byte(words[0]) & 0x02 != 0, LoX(xy), HiY(xy), Rgb(if shaded then words[2] else words[0]), 0, shaded)
  }

  /** A vertex of a polyline: a line to it from the one before. */
  function Segment(s: Ready, w: bv32): Out
    requires s.Poly? && !(s.shaded && s.wantColor)
  {
    var color1 := if s.shaded then s.next else s.color;
    Out(Poly(s.shaded, s.semi, LoX(w), HiY(w), color1, 0, s.shaded),
        [Line(s.x, s.y, s.color, LoX(w), HiY(w), color1, s.shaded, s.semi)])
  }

  /** One word.  irq says whether command 1Fh reaches the interrupt. */
  function Feed(irq: bool, s: Ready, w: bv32): Out {
    match s
    case Image(at, dims, got, left) =>
      if left == 1 then Out(Idle, [Upload(at, dims, got + [w])])
      else Out(Image(at, dims, got + [w], left - 1), [])
    case Poly(shaded, _, _, _, _, _, wantColor) =>
      if IsTerminator(w) then Out(Idle, [])
      else if shaded && wantColor then Out(s.(next := Rgb(w), wantColor := false), [])
      else Segment(s, w)
    case Params(words, need) =>
      if need == 1 then Complete(words + [w]) else Out(Params(words + [w], need - 1), [])
    case Idle =>
      if Total(w) > 1 then Out(Params([w], Total(w) - 1), []) else Out(Idle, Immediate(irq, w))
  }

  /** What a one-word command does. */
  function Immediate(irq: bool, w: bv32): seq<Event> {
    var c := Byte(w);
    if 0xE1 <= c <= 0xE6 then [Setting(w)]
    else if c == 0x1F && irq then [Interrupt]
    else []
  }

  function FeedAll(irq: bool, s: Ready, ws: seq<bv32>): Out {
    if ws == [] then Out(s, [])
    else
      var o := FeedAll(irq, s, ws[..|ws| - 1]);
      var o' := Feed(irq, o.s, ws[|ws| - 1]);
      Out(o'.s, o.events + o'.events)
  }

  /** Feeding is the same wherever the stream is cut. */
  lemma {:induction false} FeedAllJoins(irq: bool, s: Ready, a: seq<bv32>, b: seq<bv32>)
    ensures var o := FeedAll(irq, s, a);
            var o' := FeedAll(irq, o.s, b);
            FeedAll(irq, s, a + b) == Out(o'.s, o.events + o'.events)
    decreases |b|
  {
    hide Feed, StateOk;
    if b == [] {
      assert a + b == a;
    } else {
      var n := |b| - 1;
      FeedAllJoins(irq, s, a, b[..n]);
      assert (a + b)[..|a + b| - 1] == a + b[..n];
    }
  }

  // ---- Interrupt command ---------------------------------------------------------------------

  /** No word taken as a command has the byte 1Fh. */
  ghost predicate NoInterrupt(s: Ready, ws: seq<bv32>) {
    forall i :: 0 <= i < |ws| && FeedAll(true, s, ws[..i]).s.Idle? ==> Byte(ws[i]) != 0x1F
  }

  /** What leaves the decoder: its state, the interrupt flag of GPUSTAT, and the events.  A
      request raises an interrupt on the rising edge of the flag only. */
  datatype View = View(s: Ready, raised: bool, events: seq<Event>)

  function Seen(raised: bool, events: seq<Event>): seq<Event> {
    if raised && events == [Interrupt] then [] else events
  }

  function Watch(irq: bool, s: Ready, raised: bool, ws: seq<bv32>): View {
    if ws == [] then View(s, raised, [])
    else
      var v := Watch(irq, s, raised, ws[..|ws| - 1]);
      var o := Feed(irq, v.s, ws[|ws| - 1]);
      View(o.s, v.raised || o.events == [Interrupt], v.events + Seen(v.raised, o.events))
  }

  /** Watching only adds the flag. */
  lemma {:induction false} WatchFeeds(s: Ready, raised: bool, ws: seq<bv32>)
    ensures Watch(true, s, raised, ws).s == FeedAll(true, s, ws).s
    ensures var o := FeedAll(false, s, ws);
            Watch(false, s, raised, ws) == View(o.s, raised, o.events)
    decreases |ws|
  {
    hide Feed;
    if ws != [] {
      var n := |ws| - 1;
      WatchFeeds(s, raised, ws[..n]);
      FeedInterrupt(FeedAll(false, s, ws[..n]).s, ws[n]);
    }
  }

  /** Where 1Fh does not reach the interrupt the decoder takes the same states.  The events
      and the flag are the same exactly when the flag was up already or no word taken as a
      command is 1Fh; otherwise one interrupt is missing and the flag stays down. */
  lemma {:induction false} InterruptsMatter(s: Ready, raised: bool, ws: seq<bv32>)
    ensures var v, v' := Watch(true, s, raised, ws), Watch(false, s, raised, ws);
            && v.s == v'.s
            && (v == v' <==> raised || NoInterrupt(s, ws))
            && (v.events == v'.events <==> raised || NoInterrupt(s, ws))
            && (v != v' ==> v.raised && !v'.raised && |v.events| == |v'.events| + 1)
    decreases |ws|
  {
    hide Feed, FeedAll;
    WatchFeeds(s, raised, ws);
    if ws != [] {
      var n := |ws| - 1;
      InterruptsMatter(s, raised, ws[..n]);
      WatchFeeds(s, raised, ws[..n]);
      NoInterruptStep(s, ws);
      FeedInterrupt(Watch(true, s, raised, ws[..n]).s, ws[n]);
      hide NoInterrupt;
      OneInterrupt(s, raised, ws);
    }
  }

  /** Watching has put the flag up exactly if there was a 1Fh. */
  lemma {:induction false} OneInterrupt(s: Ready, raised: bool, ws: seq<bv32>)
    ensures Watch(true, s, raised, ws).raised <==> raised || !NoInterrupt(s, ws)
    decreases |ws|
  {
    hide Feed, FeedAll;
    if ws != [] {
      var n := |ws| - 1;
      OneInterrupt(s, raised, ws[..n]);
      WatchFeeds(s, raised, ws[..n]);
      NoInterruptStep(s, ws);
      FeedInterrupt(Watch(true, s, raised, ws[..n]).s, ws[n]);
    }
  }

  lemma NoInterruptStep(s: Ready, ws: seq<bv32>)
    requires ws != []
    ensures var n := |ws| - 1;
            NoInterrupt(s, ws) <==>
            NoInterrupt(s, ws[..n]) && (FeedAll(true, s, ws[..n]).s.Idle? ==> Byte(ws[n]) != 0x1F)
  {
    hide FeedAll, Byte;
    var n := |ws| - 1;
    assert forall i :: 0 <= i <= n ==> ws[..n][..i] == ws[..i];
    if NoInterrupt(s, ws) {
      forall i | 0 <= i < n && FeedAll(true, s, ws[..n][..i]).s.Idle? ensures Byte(ws[..n][i]) != 0x1F {
        assert ws[..n][..i] == ws[..i];
      }
    }
  }

  lemma FeedInterrupt(s: Ready, w: bv32)
    ensures Feed(true, s, w).s == Feed(false, s, w).s
    ensures if s.Idle? && Byte(w) == 0x1F then Feed(true, s, w).events == [Interrupt] && Feed(false, s, w).events == []
            else Feed(true, s, w) == Feed(false, s, w) && Feed(true, s, w).events != [Interrupt]
  {
    hide Total, Complete;
    InterruptTotal(w);
  }

  lemma InterruptTotal(w: bv32)
    ensures Byte(w) == 0x1F ==> Total(w) == 1 && Immediate(true, w) == [Interrupt] && Immediate(false, w) == []
    ensures Byte(w) != 0x1F ==> Immediate(true, w) == Immediate(false, w) != [Interrupt]
  {
  }

  // ---- Whole commands --------------------------------------------------------------------------

  lemma {:induction false} FeedParams(irq: bool, words: seq<bv32>, more: seq<bv32>)
    requires |words| > 0 && |more| > 0 && |words| + |more| == Total(words[0])
    ensures FeedAll(irq, Params(words, |more|), more) == Complete(words + more)
    decreases |more|
  {
    hide FeedAll, Complete, Total, Segment, Immediate;
    var w, rest := more[0], more[1..];
    assert more == [w] + rest;
    FeedAllJoins(irq, Params(words, |more|), [w], rest);
    FeedOne(irq, Params(words, |more|), w);
    if rest == [] {
      assert more == [w] && words + more == words + [w];
    } else {
      FeedParams(irq, words + [w], rest);
      assert words + [w] + rest == words + more;
    }
  }

  lemma FeedOne(irq: bool, s: Ready, w: bv32)
    ensures FeedAll(irq, s, [w]) == Feed(irq, s, w)
  {
    assert [w][..0] == [];
    assert FeedAll(irq, s, []) == Out(s, []);
  }

  /** A whole command from the idle state. */
  lemma FeedCommand(irq: bool, words: seq<bv32>)
    requires |words| > 1 && |words| == Total(words[0])
    ensures FeedAll(irq, Idle, words) == Complete(words)
  {
    hide Complete, Total;
    var w, rest := words[0], words[1..];
    assert words == [w] + rest;
    FeedAllJoins(irq, Idle, [w], rest);
    FeedOne(irq, Idle, w);
    FeedParams(irq, [w], rest);
  }

  /** The beginning of a command only collects words. */
  lemma {:induction false} FeedPartial(irq: bool, words: seq<bv32>)
    requires 0 < |words| < Total(words[0])
    ensures FeedAll(irq, Idle, words) == Out(Params(words, Total(words[0]) - |words|), [])
    decreases |words|
  {
    hide Complete, Total;
    var n := |words| - 1;
    if n == 0 {
      FeedOne(irq, Idle, words[0]);
      assert words == [words[0]];
    } else {
      FeedPartial(irq, words[..n]);
      assert words[..n] + [words[n]] == words;
    }
  }

  lemma {:induction false} FeedImage(irq: bool, at: bv32, dims: bv32, got: seq<bv32>, data: seq<bv32>)
    requires |data| > 0
    ensures FeedAll(irq, Image(at, dims, got, |data|), data) == Out(Idle, [Upload(at, dims, got + data)])
    decreases |data|
  {
    var w, rest := data[0], data[1..];
    assert data == [w] + rest;
    FeedAllJoins(irq, Image(at, dims, got, |data|), [w], rest);
    FeedOne(irq, Image(at, dims, got, |data|), w);
    if rest == [] {
      assert got + data == got + [w];
    } else {
      FeedImage(irq, at, dims, got + [w], rest);
      assert got + [w] + rest == got + data;
    }
  }

  /** A whole image transfer from the idle state. */
  lemma FeedUpload(irq: bool, head: seq<bv32>, data: seq<bv32>)
    requires |head| == 3 && Byte(head[0]) == 0xA0 && |data| == ImageWords(head[2])
    ensures FeedAll(irq, Idle, head + data) == Out(Idle, [Upload(head[1], head[2], data)])
  {
    hide Total, ImageWords;
    FeedAllJoins(irq, Idle, head, data);
    FeedCommand(irq, head);
    FeedImage(irq, head[1], head[2], [], data);
    assert [] + data == data;
  }

  // ---- The decoder as it runs ---------------------------------------------------------------------

  const BUFFER_WORDS := 16

  /** Commands that the translator draws; it ignores all others. */
  predicate IsDraw(c: bv8) { c == 0x02 || 0x20 <= c < 0x80 }

  lemma CompleteKinds(words: seq<bv32>)
    requires |words| > 1 && |words| == Total(words[0])
    ensures var c := Byte(words[0]);
            (c == 0xA0 || c == 0xC0 ==> |words| == 3) && (IsCopy(c) ==> |words| == 4) &&
            (c != 0xA0 && c != 0xC0 && !IsCopy(c) ==> IsDraw(c)) && (IsPolyline(c) ==> |words| >= 3)
  {
  }

  lemma NothingFed(s: Ready)
    ensures forall ws: seq<bv32> :: ws == [] ==> FeedAll(false, s, ws) == Out(s, [])
  {
  }

  /** How the block dispatcher's table relates to the words a command collects. */
  lemma SizeIsTotal(w: bv32)
    ensures var c, size := Byte(w), CmdSize(Byte(w));
            (size > 0 ==> Total(w) == size && !IsPolyline(c) && c != 0xA0 && c != 0xC0) &&
            (size == 0 ==> c != 0x1F && c > 0x1F) &&
            (size > 0 && c <= 0x7F ==> (size > 1 <==> IsDraw(c)) && !IsCopy(c)) &&
            (size > 0 && c > 0x7F && !IsCopy(c) ==> size == 1 && c != 0x1F)
  {
  }

  lemma PrefixCollects(data: seq<bv32>, i: nat, k: nat, s0: Ready)
    requires i < k <= |data| && k - i < Total(data[i]) && FeedAll(false, s0, data[..i]).s == Idle
    ensures FeedAll(false, s0, data[..k]).s.Params?
  {
    hide FeedAll, Total;
    FeedAllJoins(false, s0, data[..i], data[i..k]);
    assert data[..i] + data[i..k] == data[..k];
    FeedPartial(false, data[i..k]);
  }

  lemma WholeCommand(data: seq<bv32>, i: nat, j: nat, s0: Ready)
    requires i < j <= |data| && 1 < j - i == Total(data[i]) && FeedAll(false, s0, data[..i]).s == Idle
    requires Byte(data[i]) == 0xC0 || IsCopy(Byte(data[i]))
    ensures FeedAll(false, s0, data[..j]).s == Idle
  {
    hide FeedAll, Total, Byte;
    FeedAllJoins(false, s0, data[..i], data[i..j]);
    assert data[..i] + data[i..j] == data[..j];
    FeedCommand(false, data[i..j]);
  }

  lemma OneWord(data: seq<bv32>, i: nat, s0: Ready)
    requires i < |data| && Total(data[i]) == 1 && FeedAll(false, s0, data[..i]).s == Idle
    ensures FeedAll(false, s0, data[..i + 1]).s == Idle
  {
    hide FeedAll, Total;
    FeedAllJoins(false, s0, data[..i], [data[i]]);
    assert data[..i] + [data[i]] == data[..i + 1];
    FeedOne(false, Idle, data[i]);
  }

  /** A command of the lower half, handed to the translator at once. */
  lemma DrawnAtOnce(words: seq<bv32>)
    requires words != [] && |words| == CmdSize(Byte(words[0])) && Byte(words[0]) <= 0x7F
    ensures FeedAll(false, Idle, words) == Out(Idle, if |words| > 1 then [Draw(words)] else [])
    ensures |words| > 1 <==> IsDraw(Byte(words[0]))
  {
    hide FeedAll, Total, CmdSize, Byte;
    SizeIsTotal(words[0]);
    if |words| > 1 {
      FeedCommand(false, words);
    } else {
      assert words == [words[0]];
      FeedOne(false, Idle, words[0]);
    }
  }

  class Decoder {
    const buffer: array<bv32>
    var ptr: nat
    var remaining: nat
    var transferWords: nat
    var at: bv32
    var dims: bv32
    var received: seq<bv32>
    var polyline: bool
    var shaded: bool
    var semi: bool
    var x: bv16
    var y: bv16
    var color: bv32
    var next: bv32
    var wantColor: bool
    /** GPUSTAT bit 24. */
    var raised: bool
    /** What the backend has been asked to do.  The words of an image transfer count as one
        upload when the last has arrived. */
    var log: seq<Event>

    ghost predicate Valid()
      reads this, buffer
    {
      buffer.Length == BUFFER_WORDS &&
      (transferWords > 0 ==> !polyline && remaining == 0) && (polyline ==> remaining == 0) &&
      (polyline && wantColor ==> shaded) &&
      (remaining > 0 ==> 0 < ptr <= BUFFER_WORDS && ptr + remaining == Total(buffer[0]))
    }

    ghost function Abs(): Ready
      requires Valid()
      reads this, buffer
    {
      if transferWords > 0 then Image(at, dims, received, transferWords)
      else if polyline then Poly(shaded, semi, x, y, color, if shaded && !wantColor then next else 0, wantColor)
      else if remaining > 0 then Params(buffer[..ptr], remaining)
      else Idle
    }

    constructor ()
      ensures Valid() && fresh(buffer) && Abs() == Idle && log == [] && !raised
    {
      buffer := new bv32[BUFFER_WORDS](_ => 0);
      ptr, remaining, transferWords, at, dims, received := 0, 0, 0, 0, 0, [];
      polyline, shaded, semi, x, y, color, next, wantColor := false, false, false, 0, 0, 0, 0, false;
      raised, log := false, [];
    }

    /** The state, the flag and the log after one more word. */
    twostate predicate Fed(irq: bool, w: bv32)
      requires old(Valid())
      reads this, buffer
    {
      var o := Feed(irq, old(Abs()), w);
      Valid() && Abs() == o.s && log == old(log) + Seen(old(raised), o.events) &&
      raised == (old(raised) || o.events == [Interrupt])
    }

    /** GP1 command 02h takes the flag down. */
    method Acknowledge()
      requires Valid()
      modifies this`raised
      ensures Valid() && Abs() == old(Abs()) && !raised
    {
      raised := false;
    }

    /** GPU_WriteGP0. */
    method Write(w: bv32)
      requires Valid()
      modifies this, buffer
      ensures Fed(true, w)
    {
      if transferWords > 0 {
        received := received + [w];
        transferWords := transferWords - 1;
        if transferWords == 0 { log := log + [Upload(at, dims, received)]; }
      } else if polyline {
        WritePolyline(w);
      } else if remaining > 0 {
        WriteParam(w);
      } else {
        WriteCommand(w);
      }
    }

    method WritePolyline(w: bv32)
      requires Valid() && Abs().Poly?
      modifies this`polyline, this`next, this`wantColor, this`x, this`y, this`color, this`log
      ensures Fed(true, w)
    {
      hide LoX, HiY, Rgb, IsTerminator, Total, Complete, Immediate, Segment;
      if IsTerminator(w) {
        polyline := false;
      } else if shaded && wantColor {
        next, wantColor := Rgb(w), false;
      } else {
        DrawSegment(w);
      }
    }

    method DrawSegment(w: bv32)
      requires Valid() && Abs().Poly? && !(shaded && wantColor)
      modifies this`wantColor, this`x, this`y, this`color, this`log
      ensures Valid() && Abs() == Segment(old(Abs()), w).s
      ensures |Segment(old(Abs()), w).events| == 1 && !Segment(old(Abs()), w).events[0].Interrupt?
      ensures log == old(log) + Segment(old(Abs()), w).events
    {
      hide LoX, HiY;
      var color1 := if shaded then next else color;
      log := log + [Line(x, y, color, LoX(w), HiY(w), color1, shaded, semi)];
      x, y, color, wantColor := LoX(w), HiY(w), color1, wantColor || shaded;
    }

    method WriteParam(w: bv32)
      requires Valid() && Abs().Params?
      modifies this, buffer
      ensures Fed(true, w)
    {
      hide Total, ImageWords;
      ghost var words := buffer[..ptr];
      buffer[ptr] := w;
      ptr, remaining := ptr + 1, remaining - 1;
      assert buffer[..ptr] == words + [w];
      if remaining == 0 { Act(); }
    }

    /** All words of the command are in the buffer. */
    method Act()
      requires Valid() && transferWords == 0 && !polyline && remaining == 0
      requires 1 < ptr <= BUFFER_WORDS && ptr == Total(buffer[0])
      modifies this
      ensures raised == old(raised)
      ensures Valid() && Abs() == Complete(old(buffer[..ptr])).s && log == old(log) + Complete(old(buffer[..ptr])).events
    {
      hide ImageWords, Byte, Total, FirstSegment;
      ghost var words := buffer[..ptr];
      assert words[0] == buffer[0];
      CompleteKinds(words);
      var c := Byte(buffer[0]);
      if c == 0xA0 {
        at, dims, received, transferWords := buffer[1], buffer[2], [], ImageWords(buffer[2]);
      } else if c == 0xC0 {
        log := log + [ReadBack(buffer[1], buffer[2])];
      } else if IsCopy(c) {
        log := log + [Copy(buffer[1], buffer[2], buffer[3])];
      } else {
        Translate(buffer[..ptr]);
        if IsPolyline(c) { StartPolyline(); }
      }
    }

    /** The first segment was drawn; the next one starts where it ended. */
    method StartPolyline()
      requires Valid() && Abs() == Idle && 1 < ptr <= BUFFER_WORDS && ptr == Total(buffer[0])
      requires IsPolyline(Byte(buffer[0]))
      modifies this`polyline, this`shaded, this`semi, this`x, this`y, this`color, this`wantColor
      ensures Valid() && Abs() == FirstSegment(buffer[..ptr])
    {
      hide Total;
      var c := Byte(buffer[0]);
      polyline, shaded, semi := true, IsShaded(c), c & 0x02 != 0;
      var xy := if shaded then buffer[3] else buffer[2];
      x, y := LoX(xy), HiY(xy);
      color := Rgb(if shaded then buffer[2] else buffer[0]);
      wantColor := shaded;
    }

    /** Translate_GP0_to_GS: only drawing commands have an effect. */
    method Translate(words: seq<bv32>)
      requires words != []
      modifies this`log
      ensures log == old(log) + if IsDraw(Byte(words[0])) then [Draw(words)] else []
    {
      if IsDraw(Byte(words[0])) { log := log + [Draw(words)]; }
    }

    method WriteCommand(w: bv32)
      requires Valid() && Abs() == Idle
      modifies this, buffer
      ensures Fed(true, w)
    {
      hide ImageWords;
      var c := Byte(w);
      if Total(w) > 1 {
        buffer[0] := w;
        ptr, remaining := 1, Total(w) - 1;
        assert buffer[..1] == [w];
      } else if 0xE1 <= c <= 0xE6 {
        log := log + [Setting(w)];
      } else if c == 0x1F {
        if !raised {
          raised := true;
          log := log + [Interrupt];
        }
      }
    }

    // ---- DMA blocks ------------------------------------------------------------------------------

    /** From state s0 and log l0 on, the words ws have been consumed. */
    ghost predicate Upto(s0: Ready, l0: seq<Event>, r0: bool, ws: seq<bv32>)
      reads this, buffer
    {
      Valid() && Abs() == FeedAll(false, s0, ws).s && log == l0 + FeedAll(false, s0, ws).events && raised == r0
    }

    predicate Busy()
      reads this
    {
      transferWords > 0 || remaining > 0 || polyline
    }

    /** GPU_WriteGP0 for a word that is not taken as command 1Fh. */
    method WriteNext(w: bv32, ghost s0: Ready, ghost l0: seq<Event>, ghost r0: bool, ghost ws: seq<bv32>)
      requires Upto(s0, l0, r0, ws) && (Abs() == Idle ==> Byte(w) != 0x1F)
      modifies this, buffer
      ensures Upto(s0, l0, r0, ws + [w])
    {
      hide Feed, Byte;
      FeedInterrupt(Abs(), w);
      FeedAllJoins(false, s0, ws, [w]);
      FeedOne(false, Abs(), w);
      Write(w);
    }

    /** Words i to j of a command that fits into Total words, from the idle state. */
    method WriteSome(data: seq<bv32>, i: nat, j: nat, ghost s0: Ready, ghost l0: seq<Event>, ghost r0: bool)
      requires i < j <= |data| && Upto(s0, l0, r0, data[..i]) && Abs() == Idle && j - i <= Total(data[i])
      requires Total(data[i]) > 1
      modifies this, buffer
      ensures Upto(s0, l0, r0, data[..j])
    {
      hide Total, Byte, FeedAll;
      InterruptTotal(data[i]);
      for k := i to j
        invariant Upto(s0, l0, r0, data[..k])
        invariant k > i && k - i < Total(data[i]) ==> Abs().Params?
        invariant k == i ==> Abs() == Idle
      {
        assert data[..k] + [data[k]] == data[..k + 1];
        WriteNext(data[k], s0, l0, r0, data[..k]);
        if k + 1 - i < Total(data[i]) { PrefixCollects(data, i, k + 1, s0); }
      }
    }

    /** Word by word until the decoder is idle again. */
    method WriteUntilIdle(data: seq<bv32>, i: nat, ghost s0: Ready, ghost l0: seq<Event>, ghost r0: bool) returns (j: nat)
      requires i < |data| && Upto(s0, l0, r0, data[..i]) && (Abs() == Idle ==> Byte(data[i]) != 0x1F)
      modifies this, buffer
      ensures i < j <= |data| && Upto(s0, l0, r0, data[..j]) && (j < |data| ==> Abs() == Idle)
    {
      hide Byte, FeedAll;
      j := i;
      while j < |data|
        invariant i <= j <= |data| && Upto(s0, l0, r0, data[..j])
        invariant j > i ==> Abs() != Idle
      {
        assert data[..j] + [data[j]] == data[..j + 1];
        WriteNext(data[j], s0, l0, r0, data[..j]);
        j := j + 1;
        if !Busy() { break; }
      }
    }

    /** A whole command is handed over at once. */
    ghost method Consumed(data: seq<bv32>, i: nat, j: nat, o: Out, s0: Ready, l0: seq<Event>, r0: bool)
      requires i < j <= |data| && FeedAll(false, Idle, data[i..j]) == o && o.s == Idle
      requires Valid() && Abs() == Idle && FeedAll(false, s0, data[..i]).s == Idle
      requires log == l0 + FeedAll(false, s0, data[..i]).events + o.events && raised == r0
      ensures Upto(s0, l0, r0, data[..j])
    {
      hide FeedAll;
      FeedAllJoins(false, s0, data[..i], data[i..j]);
      assert data[..i] + data[i..j] == data[..j];
    }

    /** One command of the block. */
    method Dispatch(data: seq<bv32>, i: nat, ghost s0: Ready, ghost l0: seq<Event>, ghost r0: bool) returns (j: nat)
      requires i < |data| && Upto(s0, l0, r0, data[..i]) && Abs() == Idle
      modifies this, buffer
      ensures i < j <= |data| && Upto(s0, l0, r0, data[..j]) && (j < |data| ==> Abs() == Idle)
    {
      hide Byte, FeedAll, Total, CmdSize, ImageWords;
      var c := Byte(data[i]);
      SizeIsTotal(data[i]);
      if CmdSize(c) == 0 {
        if c == 0xA0 && i + 3 <= |data| && i + 3 + ImageWords(data[i + 2]) <= |data| {
          j := i + 3 + ImageWords(data[i + 2]);
          var image := data[i + 3..j];
          FeedUpload(false, data[i..i + 3], image);
          assert data[i..i + 3] + image == data[i..j];
          log := log + [Upload(data[i + 1], data[i + 2], image)];
          Consumed(data, i, j, Out(Idle, [Upload(data[i + 1], data[i + 2], image)]), s0, l0, r0);
        } else if c == 0xC0 {
          j := if i + 3 <= |data| then i + 3 else |data|;
          WriteSome(data, i, j, s0, l0, r0);
          if j < |data| { WholeCommand(data, i, j, s0); }
        } else {
          j := WriteUntilIdle(data, i, s0, l0, r0);
        }
      } else if c <= 0x7F {
        j := DispatchDraw(data, i, CmdSize(c), s0, l0, r0);
      } else if IsCopy(c) {
        j := if i + 4 <= |data| then i + 4 else |data|;
        WriteSome(data, i, j, s0, l0, r0);
        if j < |data| { WholeCommand(data, i, j, s0); }
      } else {
        j := i + 1;
        assert data[..i] + [data[i]] == data[..j];
        WriteNext(data[i], s0, l0, r0, data[..i]);
        OneWord(data, i, s0);
      }
    }

    /** A drawing command, or one of the low command bytes that do nothing. */
    method DispatchDraw(data: seq<bv32>, i: nat, size: nat, ghost s0: Ready, ghost l0: seq<Event>, ghost r0: bool) returns (j: nat)
      requires i < |data| && Upto(s0, l0, r0, data[..i]) && Abs() == Idle
      requires size == CmdSize(Byte(data[i])) > 0 && Byte(data[i]) <= 0x7F
      modifies this, buffer
      ensures i < j <= |data| && Upto(s0, l0, r0, data[..j]) && (j < |data| ==> Abs() == Idle)
    {
      hide Byte, FeedAll, Total, CmdSize;
      SizeIsTotal(data[i]);
      if i + size <= |data| {
        j := i + size;
        DrawnAtOnce(data[i..j]);
        Translate(data[i..j]);
        Consumed(data, i, j, Out(Idle, if size > 1 then [Draw(data[i..j])] else []), s0, l0, r0);
      } else {
        j := |data|;
        WriteSome(data, i, j, s0, l0, r0);
      }
    }

    /** GPU_ProcessDmaBlock: the block is fed to the decoder as it would be word by word, but
        for the interrupt. */
    method ProcessDmaBlock(data: seq<bv32>)
      requires Valid()
      modifies this, buffer
      ensures Valid() && Abs() == FeedAll(false, old(Abs()), data).s
      ensures log == old(log) + FeedAll(false, old(Abs()), data).events && raised == old(raised)
    {
      hide FeedAll, Byte;
      ghost var s0, l0, r0 := Abs(), log, raised;
      NothingFed(s0);
      var i := 0;
      if data != [] && Busy() { i := WriteUntilIdle(data, 0, s0, l0, r0); }
      while i < |data|
        invariant i <= |data| && Upto(s0, l0, r0, data[..i]) && (i < |data| ==> Abs() == Idle)
      {
        i := Dispatch(data, i, s0, l0, r0);
      }
      assert data[..|data|] == data;
    }

    /** However a stream is cut into DMA blocks, the decoder ends in the state that feeding it
        word by word gives, and the flag and the events are the same exactly when the flag was
        up already or no command byte is 1Fh. */
    method ProcessBlocks(blocks: seq<seq<bv32>>)
      requires Valid()
      modifies this, buffer
      ensures var v := Watch(true, old(Abs()), old(raised), Flatten(blocks));
              && Valid() && Abs() == v.s
              && (log == old(log) + v.events && raised == v.raised <==>
                  old(raised) || NoInterrupt(old(Abs()), Flatten(blocks)))
              && (log == old(log) + v.events <==> old(raised) || NoInterrupt(old(Abs()), Flatten(blocks)))
    {
      hide FeedAll, NoInterrupt;
      ghost var s0, l0, r0 := Abs(), log, raised;
      NothingFed(s0);
      var i := 0;
      while i < |blocks|
        invariant i <= |blocks| && Upto(s0, l0, r0, Flatten(blocks[..i]))
      {
        FeedAllJoins(false, s0, Flatten(blocks[..i]), blocks[i]);
        assert blocks[..i + 1][..i] == blocks[..i];
        ProcessDmaBlock(blocks[i]);
        i := i + 1;
      }
      assert blocks[..|blocks|] == blocks;
      InterruptsMatter(s0, r0, Flatten(blocks));
      WatchFeeds(s0, r0, Flatten(blocks));
    }
  }

  function Flatten(blocks: seq<seq<bv32>>): seq<bv32> {
    if blocks == [] then [] else Flatten(blocks[..|blocks| - 1]) + blocks[|blocks| - 1]
  }
}
