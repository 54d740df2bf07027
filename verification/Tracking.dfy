/** What the emitter's compile-time register state claims about the machine. */
module Tracking {
  import opened Mips
  import opened Psx
  import opened Native

  datatype RegStatus = RegStatus(value: bv32, isConst: bool, isDirty: bool) {
    predicate Lazy() { isConst && isDirty }
  }

  const VAR := RegStatus(0, false, false)

  type VregTable = s: seq<RegStatus> | |s| == 32 witness seq(32, _ => VAR)

  /** home[r] is the native register that holds PSX register r for the whole block:
      a pinned S register or a dynamic slot.  0 means that r lives in cpu.regs[]. */
  type HomeMap = s: seq<Reg> | |s| == 32 witness seq(32, _ => 0)

  ghost predicate ValidHomes(home: HomeMap) {
    home[0] == 0 &&
    (forall r: Reg :: home[r] == 0 || 8 <= home[r] <= 15 || 20 <= home[r] <= 23) &&
    forall a: Reg, b: Reg :: home[a] == home[b] != 0 ==> a == b
  }

  predicate IsPinnedHome(h: Reg) { 20 <= h <= 23 }

  predicate Plain(home: HomeMap, r: Reg) { r != 0 && home[r] == 0 }

  /** Native register that emit_use_reg answers with. */
  function HomeOr(home: HomeMap, r: Reg, scratch: Reg): Reg {
    if r == 0 || home[r] != 0 then home[r] else scratch
  }

  /** The emitter's register tables.  The slot masks are kept by PSX register:
      loaded says whose home holds its value, dirty whose word in cpu.regs[] may be
      older than its home; a pinned register is always both.  t8 and t9 are the
      registers cached in T8 and T9, or -1.

      The last three fields are not in the tables of the source and decide nothing: stale8
      and stale9 mark a cached copy that the register has moved on from, and misread says
      that such a copy has been used. */
  datatype View = View(home: HomeMap, vregs: VregTable, mask: set<Reg>,
                       loaded: set<Reg>, dirty: set<Reg>, t8: int, t9: int,
                       stale8: bool, stale9: bool, misread: bool) {
    ghost predicate Shape() {
      ValidHomes(home) && !vregs[0].isConst && dirty <= loaded &&
      (forall r: Reg :: IsPinnedHome(home[r]) ==> r in loaded && r in dirty) &&
      (forall r: Reg :: vregs[r].Lazy() ==> r in mask)
    }

    /** Value x is where later code will look for register r. */
    ghost predicate Stored(m: Machine, r: Reg, x: bv32) {
      (home[r] != 0 && r in loaded ==> m.gpr[home[r]] == x) &&
      (home[r] == 0 || r !in dirty ==> Ld(m, CpuReg(r)) == x)
    }

    ghost predicate Tracks(m: Machine, r: Reg, x: bv32) {
      (vregs[r].isConst ==> vregs[r].value == x) && (!vregs[r].Lazy() ==> Stored(m, r, x))
    }

    ghost predicate Cached(m: Machine, c: int, h: Reg, stale: bool) {
      0 <= c < 32 ==> Plain(home, c) && (stale || m.gpr[h] == Ld(m, CpuReg(c)))
    }

    /** Nothing is cached, and no stale copy has been used. */
    predicate Quiet() { t8 == -1 && t9 == -1 && !misread }

    lemma HomeFacts(r: Reg)
      requires Shape()
      ensures Writable(home[r]) && home[r] != T8 && home[r] != T9 && home[r] != AT && home[0] == 0
      ensures !vregs[0].isConst
    {
    }

    function Clean(r: Reg): (v: View)
      ensures Shape() ==> v.Shape()
    {
      this.(vregs := vregs[r := vregs[r].(isDirty := false)], mask := mask - {r})
    }

    function Forget(r: Reg): (v: View)
      ensures Shape() ==> v.Shape()
    {
      this.(vregs := vregs[r := RegStatus(vregs[r].value, false, false)], mask := mask - {r})
    }

    function Defer(r: Reg, x: bv32): (v: View)
      ensures Shape() && r != 0 ==> v.Shape()
    {
      this.(vregs := vregs[r := RegStatus(x, true, true)], mask := mask + {r})
    }

    /** Register r has just been given the constant x. */
    function Know(r: Reg, x: bv32): (v: View)
      ensures Shape() && r != 0 ==> v.Shape()
    {
      this.(vregs := vregs[r := RegStatus(x, true, false)])
    }

    function DropPsx(r: Reg): (v: View)
      ensures Shape() ==> v.Shape()
    {
      this.(t8 := if t8 == r then -1 else t8, t9 := if t9 == r then -1 else t9)
    }

    function DropHw(h: Reg): (v: View)
      ensures Shape() ==> v.Shape()
    {
      if h == T8 then this.(t8 := -1) else this.(t9 := -1)
    }

    /** The home of r has just been written. */
    function Written(r: Reg): (v: View)
      ensures Shape() ==> v.Shape()
    {
      this.(loaded := loaded + {r}, dirty := dirty + {r})
    }

    /** Nothing is cached. */
    function DropAll(): (v: View)
      ensures Succeeds(this, v) && v.vregs == vregs
    {
      this.(t8 := -1, t9 := -1)
    }

    /** The home of r has just been loaded from cpu.regs[]. */
    function Filled(r: Reg): (v: View)
      ensures Shape() ==> v.Shape()
    {
      this.(loaded := loaded + {r})
    }

    /** Scratch register h caches r. */
    function Cache(h: Reg, r: Reg): (v: View)
      ensures Shape() ==> v.Shape()
    {
      if h == T8 then this.(t8 := r, stale8 := false) else this.(t9 := r, stale9 := false)
    }

    /** T8 caches r and nothing else does. */
    function Moved(r: Reg): (v: View)
      ensures Shape() ==> v.Shape()
    {
      this.(t8 := r, t9 := if t9 == r then -1 else t9, stale8 := false)
    }

    /** cpu.regs[r] changes behind the cached copies of r. */
    function Outdated(r: Reg): (v: View)
      ensures Shape() ==> v.Shape()
    {
      this.(stale8 := stale8 || t8 == r, stale9 := stale9 || t9 == r)
    }

    // ---- What the emitter's operations make of the tables ----------------------------

    /** mark_vreg_const_lazy. */
    function Deferred(r: Reg, x: bv32): (v: View)
      ensures Succeeds(this, v)
      ensures Quiet() ==> v.Quiet()
    {
      if r == 0 then this else Defer(r, x)
    }

    /** A lazy constant of r is written to its home, or through scratch to cpu.regs[]. */
    function Materialized(r: Reg, scratch: Reg): (v: View)
      ensures Succeeds(this, v) && SameConsts(this, v) && !v.vregs[r].Lazy()
    {
      if home[r] != 0 then Clean(r).Written(r) else DropHw(scratch).Outdated(r).Clean(r)
    }

    /** What scratch register h caches. */
    function In(h: Reg): int { if h == T8 then t8 else if h == T9 then t9 else -1 }

    /** Register r is read through scratch, from the cached copy if there is one. */
    function Read(r: Reg, scratch: Reg): (v: View)
      ensures Succeeds(this, v) && SameConsts(this, v) && v.vregs == vregs
    {
      if In(scratch) != r then Cache(scratch, r)
      else this.(misread := misread || if scratch == T8 then stale8 else stale9)
    }

    function Loaded(r: Reg): (v: View)
      ensures Succeeds(this, v) && SameConsts(this, v) && v.vregs == vregs
      ensures v.t8 == t8 && v.t9 == t9 && r in v.loaded
    {
      if r in loaded then this else Filled(r)
    }

    /** emit_use_reg. */
    function Used(r: Reg, scratch: Reg): (v: View)
      ensures Succeeds(this, v) && SameConsts(this, v) && (Shape() ==> !v.vregs[r].Lazy())
      ensures Quiet() && !Plain(home, r) ==> v.Quiet()
    {
      if r == 0 then this
      else if vregs[r].Lazy() then Materialized(r, scratch)
      else if home[r] != 0 then Loaded(r)
      else Read(r, scratch)
    }

    /** emit_load_psx_reg. */
    function Copied(h: Reg, r: Reg): (v: View)
      ensures Succeeds(this, v) && SameConsts(this, v)
      ensures Quiet() && !Plain(home, r) ==> v.Quiet()
    {
      if r == 0 then DropHw(h)
      else if vregs[r].Lazy() then
        if home[r] != 0 then DropHw(h).Clean(r).Written(r) else Materialized(r, h)
      else if home[r] != 0 then Loaded(r).DropHw(h)
      else Read(r, h)
    }

    /** A lazy constant of r is stored at its home, through AT if that is cpu.regs[]. */
    function LazyStored(r: Reg): (v: View)
      ensures Succeeds(this, v) && SameConsts(this, v)
      ensures v.vregs == vregs[r := vregs[r].(isDirty := false)] && v.mask == mask - {r} && v.misread == misread
    {
      if home[r] != 0 then Clean(r).Written(r) else DropPsx(r).Clean(r)
    }

    /** mark_vreg_var. */
    function AsVar(r: Reg): (v: View)
      ensures Succeeds(this, v) && (Shape() ==> !v.vregs[r].isConst)
      ensures forall q: Reg :: q != r ==> v.vregs[q] == vregs[q]
      ensures Quiet() ==> v.Quiet()
      ensures !vregs[r].Lazy() ==> v.t8 == t8 && !v.vregs[r].Lazy()
    {
      if r == 0 then this else (if vregs[r].Lazy() then LazyStored(r) else this).Forget(r)
    }

    /** emit_sync_reg: a result for $0 went to T8 without a note in the source's tables. */
    function Synced(r: Reg): (v: View)
      ensures Succeeds(this, v) && v.vregs == vregs
      ensures Quiet() && !Plain(home, r) ==> v.Quiet()
    {
      if r == 0 then this.(stale8 := true) else if home[r] != 0 then Written(r) else Moved(r)
    }

    /** emit_cpu_field_to_psx_reg. */
    function FieldRead(r: Reg): (v: View)
      ensures Succeeds(this, v)
      ensures Quiet() ==> v.Quiet()
    {
      var v := AsVar(r);
      if r == 0 then v else if home[r] != 0 then v.Written(r) else v.DropPsx(r)
    }

    /** mark_vreg_const followed by emit_materialize_psx_imm. */
    function Linked(r: Reg, x: bv32): (v: View)
      ensures Succeeds(this, v)
      ensures Quiet() ==> v.Quiet()
    {
      if r == 0 then this
      else if home[r] != 0 then Know(r, x).Written(r)
      else Know(r, x).DropPsx(r)
    }
  }

  /** What every operation does to the tables. */
  ghost predicate Succeeds(v: View, v': View) {
    v'.home == v.home && (v.misread ==> v'.misread) && (v.Shape() ==> v'.Shape())
  }

  ghost predicate SameConsts(v: View, v': View) {
    v'.home == v.home &&
    forall q: Reg ::
      v'.vregs[q].isConst == v.vregs[q].isConst && v'.vregs[q].value == v.vregs[q].value &&
      (v'.vregs[q].Lazy() ==> v.vregs[q].Lazy())
  }

  /** Registers in live, HI and LO of p are tracked. */
  ghost predicate Holds(v: View, m: Machine, p: Regs, live: set<Reg>) {
    p.r[0] == 0 && m.gpr[0] == 0 && Ld(m, CpuHi) == p.hi && Ld(m, CpuLo) == p.lo &&
    forall r: Reg :: r != 0 && r in live ==> v.Tracks(m, r, p.r[r])
  }

  /** The whole agreement between p and the machine. */
  ghost predicate Agrees(v: View, m: Machine, p: Regs, live: set<Reg>) {
    Holds(v, m, p, live) && v.Cached(m, v.t8, T8, v.stale8) && v.Cached(m, v.t9, T9, v.stale9)
  }

  // ---- How agreement survives each bookkeeping step ---------------------------

  /** Nothing that decides where q is, or what is there, differs. */
  ghost predicate Untouched(v: View, m: Machine, v': View, m': Machine, q: Reg) {
    v'.home[q] == v.home[q] && v'.vregs[q] == v.vregs[q] &&
    (q in v'.dirty <==> q in v.dirty) && (q in v'.loaded <==> q in v.loaded) &&
    Ld(m', CpuReg(q)) == Ld(m, CpuReg(q)) && m'.gpr[v.home[q]] == m.gpr[v.home[q]]
  }

  /** Agreement may be shown register by register. */
  lemma HoldsBut(v: View, m: Machine, p: Regs, live: set<Reg>, r: Reg, v': View, m': Machine, p': Regs)
    requires Holds(v, m, p, live - {r})
    requires forall q: Reg :: q != r ==> Untouched(v, m, v', m', q) && p'.r[q] == p.r[q]
    requires r != 0 && m'.gpr[0] == 0 && (r in live ==> v'.Tracks(m', r, p'.r[r]))
    requires Ld(m', CpuHi) == p'.hi && Ld(m', CpuLo) == p'.lo
    ensures Holds(v', m', p', live)
  {
    forall q: Reg | q != 0 && q in live
      ensures v'.Tracks(m', q, p'.r[q])
    {
      if q != r {
        assert Untouched(v, m, v', m', q);
        assert v.Tracks(m, q, p.r[q]);
      }
    }
  }

  /** A lazy constant has been written to the home of its register. */
  lemma MaterializedHome(v: View, m: Machine, p: Regs, live: set<Reg>, r: Reg)
    requires v.Shape() && Agrees(v, m, p, live) && v.vregs[r].Lazy() && v.home[r] != 0
    ensures var v' := v.Clean(r).Written(r);
            v'.Shape() && Agrees(v', Set(m, v.home[r], v.vregs[r].value), p, live)
  {
    var v', m' := v.Clean(r).Written(r), Set(m, v.home[r], v.vregs[r].value);
    forall q: Reg | q != r ensures Untouched(v, m, v', m', q) {
      assert v.home[q] == v.home[r] ==> q == r;
    }
    assert r in live ==> v.Tracks(m, r, p.r[r]);
    HoldsBut(v, m, p, live, r, v', m', p);
  }

  /** The same through scratch register h; a copy of r cached elsewhere is marked or dropped. */
  lemma MaterializedPlain(v: View, m: Machine, p: Regs, live: set<Reg>, r: Reg, h: Reg, v1: View)
    requires v.Shape() && Agrees(v, m, p, live) && Plain(v.home, r) && v.vregs[r].Lazy()
    requires v1 == v.(t8 := v1.t8, t9 := v1.t9, stale8 := v1.stale8, stale9 := v1.stale9)
    requires h == T8 || h == T9 || h == AT
    requires v1.t8 == -1 || (v1.t8 == v.t8 && h != T8 && (v1.stale8 || (v1.stale8 == v.stale8 && v1.t8 != r)))
    requires v1.t9 == -1 || (v1.t9 == v.t9 && h != T9 && (v1.stale9 || (v1.stale9 == v.stale9 && v1.t9 != r)))
    ensures var x := v.vregs[r].value;
            Agrees(v1.Clean(r), Store(Set(m, h, x), CpuReg(r), x), p, live)
  {
    var x := v.vregs[r].value;
    var v', m' := v1.Clean(r), Store(Set(m, h, x), CpuReg(r), x);
    forall q: Reg | q != r ensures Untouched(v, m, v', m', q) { }
    assert r in live ==> v.Tracks(m, r, p.r[r]);
    HoldsBut(v, m, p, live, r, v', m', p);
  }

  /** A home is loaded from cpu.regs[] on first use. */
  lemma HomeFilled(v: View, m: Machine, p: Regs, live: set<Reg>, r: Reg)
    requires v.Shape() && Agrees(v, m, p, live) && v.home[r] != 0 && r !in v.loaded
    ensures var v' := v.Filled(r);
            v'.Shape() && Agrees(v', Set(m, v.home[r], Ld(m, CpuReg(r))), p, live)
  {
    var v', m' := v.Filled(r), Set(m, v.home[r], Ld(m, CpuReg(r)));
    forall q: Reg | q != r ensures Untouched(v, m, v', m', q) {
      assert v.home[q] == v.home[r] ==> q == r;
    }
    assert r in live ==> v.Tracks(m, r, p.r[r]);
    HoldsBut(v, m, p, live, r, v', m', p);
  }

  /** A scratch register is overwritten; it then caches c, or nothing. */
  lemma ScratchSet(v: View, m: Machine, p: Regs, live: set<Reg>, h: Reg, x: bv32, c: int, stale: bool)
    requires v.Shape() && Agrees(v, m, p, live) && (h == T8 || h == T9)
    requires 0 <= c < 32 ==> Plain(v.home, c) && (stale || Ld(m, CpuReg(c)) == x)
    ensures var v' := if h == T8 then v.(t8 := c, stale8 := stale) else v.(t9 := c, stale9 := stale);
            v'.Shape() && Agrees(v', Set(m, h, x), p, live)
  {
    var v' := if h == T8 then v.(t8 := c, stale8 := stale) else v.(t9 := c, stale9 := stale);
    var m' := Set(m, h, x);
    forall q: Reg | q != 0 && q in live ensures v'.Tracks(m', q, p.r[q]) {
      assert v.Tracks(m, q, p.r[q]);
    }
  }

  lemma ScratchFilled(v: View, m: Machine, p: Regs, live: set<Reg>, h: Reg, r: Reg)
    requires v.Shape() && Agrees(v, m, p, live) && (h == T8 || h == T9) && Plain(v.home, r)
    ensures Agrees(v.Cache(h, r), Set(m, h, Ld(m, CpuReg(r))), p, live)
  {
    ScratchSet(v, m, p, live, h, Ld(m, CpuReg(r)), r, false);
  }

  lemma ScratchDropped(v: View, m: Machine, p: Regs, live: set<Reg>, h: Reg, x: bv32)
    requires v.Shape() && Agrees(v, m, p, live) && (h == T8 || h == T9)
    ensures v.DropHw(h).Shape() && Agrees(v.DropHw(h), Set(m, h, x), p, live)
  {
    ScratchSet(v, m, p, live, h, x, -1, if h == T8 then v.stale8 else v.stale9);
  }

  /** Using a cached copy changes nothing. */
  lemma ReadKeeps(v: View, m: Machine, p: Regs, live: set<Reg>, r: Reg, h: Reg)
    requires v.In(h) == r && Agrees(v, m, p, live) && (h == T8 || h == T9)
    ensures Agrees(v.Read(r, h), m, p, live)
  {
    hide Holds;
    SameHolds(v, v.Read(r, h), m, p, live);
  }

  lemma AtSet(v: View, m: Machine, p: Regs, live: set<Reg>, x: bv32)
    requires v.Shape() && Agrees(v, m, p, live)
    ensures Agrees(v, Set(m, AT, x), p, live)
  {
    forall q: Reg | q != 0 && q in live ensures v.Tracks(Set(m, AT, x), q, p.r[q]) {
      assert v.Tracks(m, q, p.r[q]);
    }
  }

  lemma HiLoAt(v: View, m: Machine, p: Regs, live: set<Reg>)
    requires Agrees(v, m, p, live)
    ensures Ld(m, CpuHi) == p.hi && Ld(m, CpuLo) == p.lo && p.r[0] == 0 && m.gpr[0] == 0
  {
  }

  /** $0 need not be live. */
  lemma AgreesZero(v: View, m: Machine, p: Regs, live: set<Reg>)
    requires Agrees(v, m, p, live - {0})
    ensures Agrees(v, m, p, live)
  {
  }

  /** What agreement says of one register. */
  lemma AgreesAt(v: View, m: Machine, p: Regs, live: set<Reg>, r: Reg)
    requires Agrees(v, m, p, live) && (r == 0 || r in live)
    ensures if r == 0 then p.r[r] == 0 else v.Tracks(m, r, p.r[r])
    ensures r != 0 && v.t8 == r && !v.stale8 ==> m.gpr[T8] == Ld(m, CpuReg(r))
    ensures r != 0 && v.t9 == r && !v.stale9 ==> m.gpr[T9] == Ld(m, CpuReg(r))
  {
  }

  /** The home of r, or cpu.regs[] through scratch T8, receives the result x of an
      instruction: agreement moves from p to p with r := x. */
  lemma HomeWritten(v: View, m: Machine, p: Regs, live: set<Reg>, r: Reg, x: bv32)
    requires v.Shape() && Agrees(v, m, p, live - {r}) && v.home[r] != 0 && !v.vregs[r].isConst
    ensures v.Written(r).Shape()
    ensures Agrees(v.Written(r), Set(m, v.home[r], x), Write(p, r, x), live)
  {
    var v', m' := v.Written(r), Set(m, v.home[r], x);
    forall q: Reg | q != r ensures Untouched(v, m, v', m', q) {
      assert v.home[q] == v.home[r] ==> q == r;
    }
    HoldsBut(v, m, p, live, r, v', m', Write(p, r, x));
  }

  lemma PlainWritten(v: View, m: Machine, p: Regs, live: set<Reg>, r: Reg, h: Reg, v': View)
    requires v.Shape() && Agrees(v, m, p, live - {r}) && Plain(v.home, r) && !v.vregs[r].isConst
    requires (h == T8 && v' == v.Moved(r)) || (h == AT && v' == v.DropPsx(r))
    ensures Agrees(v', Store(m, CpuReg(r), m.gpr[h]), Write(p, r, m.gpr[h]), live)
  {
    var m' := Store(m, CpuReg(r), m.gpr[h]);
    forall q: Reg | q != r ensures Untouched(v, m, v', m', q) { }
    HoldsBut(v, m, p, live, r, v', m', Write(p, r, m.gpr[h]));
  }

  /** A result for $0 goes to T8: what is cached there counts as stale. */
  lemma ZeroSynced(v: View, m: Machine, p: Regs, live: set<Reg>, x: bv32)
    requires v.Shape() && Agrees(v, m, p, live - {0})
    ensures Agrees(v.Synced(0), Set(m, T8, x), p, live)
  {
    AgreesZero(v, m, p, live);
    ScratchSet(v, m, p, live, T8, x, v.t8, true);
  }

  /** The three ways in which a result x of an instruction reaches register r. */
  lemma ResultSynced(v: View, m: Machine, p: Regs, live: set<Reg>, r: Reg, x: bv32)
    requires v.Shape() && Agrees(v, m, p, live - {r}) && !v.vregs[r].isConst
    ensures var m1 := Set(m, if r == 0 then T8 else HomeOr(v.home, r, T8), x);
            Agrees(v.Synced(r), if Plain(v.home, r) then Store(m1, CpuReg(r), x) else m1, Write(p, r, x), live)
  {
    hide Agrees, v.Shape;
    if r == 0 {
      ZeroSynced(v, m, p, live, x);
    } else if v.home[r] != 0 {
      HomeWritten(v, m, p, live, r, x);
    } else {
      ScratchDropped(v, m, p, live - {r}, T8, x);
      PlainWritten(v.DropHw(T8), Set(m, T8, x), p, live, r, T8, v.Moved(r));
    }
  }

  /** A register is set to a constant that it then keeps, in its home or through AT. */
  lemma KnownHome(v: View, m: Machine, p: Regs, live: set<Reg>, r: Reg, x: bv32)
    requires v.Shape() && Agrees(v, m, p, live - {r}) && r != 0 && v.home[r] != 0
    ensures v.Know(r, x).Written(r).Shape()
    ensures Agrees(v.Know(r, x).Written(r), Set(m, v.home[r], x), Write(p, r, x), live)
  {
    var v', m' := v.Know(r, x).Written(r), Set(m, v.home[r], x);
    forall q: Reg | q != r ensures Untouched(v, m, v', m', q) {
      assert v.home[q] == v.home[r] ==> q == r;
    }
    HoldsBut(v, m, p, live, r, v', m', Write(p, r, x));
  }

  lemma KnownPlain(v: View, m: Machine, p: Regs, live: set<Reg>, r: Reg, x: bv32)
    requires v.Shape() && Agrees(v, m, p, live - {r}) && Plain(v.home, r)
    ensures Agrees(v.Know(r, x).DropPsx(r), Store(Set(m, AT, x), CpuReg(r), x), Write(p, r, x), live)
  {
    var v', m' := v.Know(r, x).DropPsx(r), Store(Set(m, AT, x), CpuReg(r), x);
    forall q: Reg | q != r ensures Untouched(v, m, v', m', q) { }
    HoldsBut(v, m, p, live, r, v', m', Write(p, r, x));
  }

  /** The frame, cpu.pc and cpu.current_pc hold no register. */
  lemma AsideStored(v: View, m: Machine, p: Regs, live: set<Reg>, l: Loc, x: bv32)
    requires v.Shape() && Agrees(v, m, p, live) && (l.Frame? || l == CpuPc || l == CpuCurrentPc)
    ensures Agrees(v, Store(m, l, x), p, live)
  {
    forall q: Reg | q != 0 && q in live ensures v.Tracks(Store(m, l, x), q, p.r[q]) {
      assert v.Tracks(m, q, p.r[q]);
    }
  }

  /** Two machines that differ at most in scratch registers, the frame, and d. */
  ghost predicate AlikeBut(v: View, m: Machine, m': Machine, d: Reg) {
    (forall r: Reg :: v.home[r] != d ==> m'.gpr[v.home[r]] == m.gpr[v.home[r]]) &&
    (forall r: Reg :: Ld(m', CpuReg(r)) == Ld(m, CpuReg(r)))
  }

  /** With nothing cached, scratch registers and the frame do not matter. */
  lemma Alike(v: View, m: Machine, p: Regs, live: set<Reg>, m': Machine, p': Regs)
    requires v.Shape() && Agrees(v, m, p, live) && AlikeBut(v, m, m', T8)
    requires p'.r == p.r && p'.hi == Ld(m', CpuHi) && p'.lo == Ld(m', CpuLo) && m'.gpr[0] == 0
    ensures Agrees(v.DropAll(), m', p', live)
  {
    forall r: Reg | r != 0 && r in live ensures v.DropAll().Tracks(m', r, p'.r[r]) {
      assert v.Tracks(m, r, p.r[r]);
      assert v.home[r] != T8;
    }
  }

  /** HI or LO receives x. */
  lemma HiLoStored(v: View, m: Machine, p: Regs, live: set<Reg>, at: Loc, x: bv32)
    requires Agrees(v, m, p, live) && (at == CpuHi || at == CpuLo)
    ensures Agrees(v, Store(m, at, x), if at == CpuHi then p.(hi := x) else p.(lo := x), live)
  {
    forall r: Reg | r != 0 && r in live
      ensures v.Tracks(Store(m, at, x), r, p.r[r])
    {
      assert v.Tracks(m, r, p.r[r]);
    }
  }

  /** The value in cpu.regs[] of a register whose home is newer does not matter. */
  lemma StaleStored(v: View, m: Machine, p: Regs, live: set<Reg>, r: Reg, x: bv32)
    requires v.Shape() && Agrees(v, m, p, live) && v.home[r] != 0 && r in v.dirty
    ensures Agrees(v, Store(m, CpuReg(r), x), p, live)
  {
    var m' := Store(m, CpuReg(r), x);
    forall q: Reg | q != r ensures Untouched(v, m, v, m', q) { }
    assert r in live ==> v.Tracks(m, r, p.r[r]);
    HoldsBut(v, m, p, live, r, v, m', p);
  }

  /** A clean constant stops being tracked as one. */
  lemma Forgotten(v: View, m: Machine, p: Regs, live: set<Reg>, r: Reg)
    requires v.Shape() && Agrees(v, m, p, live) && !v.vregs[r].Lazy()
    ensures v.Forget(r).Shape() && Agrees(v.Forget(r), m, p, live)
  {
    forall q: Reg | q != 0 && q in live ensures v.Forget(r).Tracks(m, q, p.r[q]) {
      assert v.Tracks(m, q, p.r[q]);
    }
  }

  /** A constant that no code has computed yet is given up, and its register with it. */
  lemma LazyForgotten(v: View, m: Machine, p: Regs, live: set<Reg>, r: Reg)
    requires v.Shape() && Agrees(v, m, p, live)
    ensures v.Forget(r).Shape() && Agrees(v.Forget(r), m, p, live - {r})
  {
    forall q: Reg | q != 0 && q in live - {r} ensures v.Forget(r).Tracks(m, q, p.r[q]) {
      assert v.Tracks(m, q, p.r[q]);
    }
  }

  /** A register becomes a constant that no code computes yet. */
  lemma MadeLazy(v: View, m: Machine, p: Regs, live: set<Reg>, r: Reg, x: bv32)
    requires v.Shape() && Agrees(v, m, p, live - {r}) && r != 0
    ensures v.Defer(r, x).Shape() && Agrees(v.Defer(r, x), m, Write(p, r, x), live)
  {
    var v' := v.Defer(r, x);
    forall q: Reg | q != r ensures Untouched(v, m, v', m, q) { }
    HoldsBut(v, m, p, live, r, v', m, Write(p, r, x));
  }

  /** Fewer live registers are easier to agree on, and $0 need not be live. */
  lemma Weaken(v: View, m: Machine, p: Regs, live: set<Reg>, live': set<Reg>)
    requires Agrees(v, m, p, live) && live' - {0} <= live
    ensures Agrees(v, m, p, live')
  {
    forall r: Reg | r != 0 && r in live' ensures v.Tracks(m, r, p.r[r]) { }
  }

  // ---- Where the scratch cache goes stale ----------------------------------------------

  /** A result for $0 goes to T8 without a note in the tables.  They stay truthful exactly
      when T8 caches nothing or the result is the value it caches. */
  lemma ZeroWriteIsTruthful(v: View, m: Machine, p: Regs, live: set<Reg>, x: bv32)
    requires v.Shape() && Agrees(v, m, p, live) && !v.stale8
    ensures Agrees(v, Set(m, T8, x), p, live) <==> (0 <= v.t8 < 32 ==> x == Ld(m, CpuReg(v.t8)))
  {
    hide Holds, v.Shape;
    ScratchDropped(v, m, p, live, T8, x);
    SameHolds(v.DropHw(T8), v, Set(m, T8, x), p, live);
  }

  /** A constant of a register without a home is written through T8 while T9 still caches
      the register: the tables stay truthful exactly when the constant is the old value. */
  lemma ConstThroughT8IsTruthful(v: View, m: Machine, p: Regs, live: set<Reg>, r: Reg)
    requires v.Shape() && Agrees(v, m, p, live) && !v.stale9
    requires Plain(v.home, r) && v.vregs[r].Lazy() && v.t9 == r
    ensures var x := v.vregs[r].value;
            Agrees(v.DropHw(T8).Clean(r), Store(Set(m, T8, x), CpuReg(r), x), p, live) <==> x == Ld(m, CpuReg(r))
  {
    hide Holds, v.Shape;
    var x := v.vregs[r].value;
    var m' := Store(Set(m, T8, x), CpuReg(r), x);
    MaterializedPlain(v, m, p, live, r, T8, v.(t8 := -1, t9 := -1));
    SameHolds(v.(t8 := -1, t9 := -1).Clean(r), v.DropHw(T8).Clean(r), m', p, live);
    assert m'.gpr[T9] == m.gpr[T9] == Ld(m, CpuReg(r)) && Ld(m', CpuReg(r)) == x;
  }

  lemma SameHolds(v: View, v': View, m: Machine, p: Regs, live: set<Reg>)
    requires Holds(v, m, p, live)
    requires v' == v.(t8 := v'.t8, t9 := v'.t9, stale8 := v'.stale8, stale9 := v'.stale9, misread := v'.misread)
    ensures Holds(v', m, p, live)
  {
    forall r: Reg | r != 0 && r in live ensures v'.Tracks(m, r, p.r[r]) {
      assert v.Tracks(m, r, p.r[r]);
    }
  }
}
