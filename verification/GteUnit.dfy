/** The geometry engine as it runs: commands update the register files in place. */
module GteUnit {
  import opened Gte
  import Division = GteDivide

  class Unit {
    var d: File
    var c: File
    var flag: set<int>

    function St(): State
      reads this
    {
      State(d, c, flag)
    }

    constructor ()
      ensures St() == RESET && Ranges(St())
    {
      d, c, flag := seq(32, _ => 0), seq(32, _ => 0), {};
      new;
      ResetInRange();
    }

    // ---- Flags ---------------------------------------------------------------------

    method SetFlag(bit: int)
      modifies this`flag
      ensures flag == old(flag) + {bit}
    {
      flag := flag + {bit};
    }

    method CheckMac(v: int, n: int)
      modifies this`flag
      ensures flag == old(flag) + MacFlags(v, n)
    {
      if v >= TOP44 { SetFlag(31 - n); }
      if v < -TOP44 { SetFlag(28 - n); }
    }

    method CheckMac0(v: int)
      modifies this`flag
      ensures flag == old(flag) + Mac0Flags(v)
    {
      if v > 0x7FFF_FFFF { SetFlag(16); }
      if v < -0x8000_0000 { SetFlag(15); }
    }

    /** Clamps v, and raises the bit when that changes it. */
    method Saturate(v: int, lo: int, hi: int, bit: int) returns (r: int)
      requires lo <= hi
      modifies this`flag
      ensures r == Clamp(v, lo, hi) && flag == old(flag) + Outside(v, lo, hi, bit)
    {
      if v < lo || v > hi { SetFlag(bit); }
      r := if v < lo then lo else if v > hi then hi else v;
    }

    // ---- Shared steps ------------------------------------------------------------------

    method StoreMacIr(m1: int, m2: int, m3: int, sf: bool, lm: bool)
      modifies this`d, this`flag
      ensures St() == Gte.StoreMacIr(old(St()), m1, m2, m3, sf, lm)
    {
      hide Clamp, Outside, MacFlags, Wrap32, Shift;
      CheckMac(m1, 1);
      CheckMac(m2, 2);
      CheckMac(m3, 3);
      d := d[25 := Wrap32(Shift(m1, sf))][26 := Wrap32(Shift(m2, sf))][27 := Wrap32(Shift(m3, sf))];
      StoreIr(lm);
    }

    /** IR1-IR3 from MAC1-MAC3. */
    method StoreIr(lm: bool)
      modifies this`d, this`flag
      ensures St() == StoreMacs(old(St()), old(d[25]), old(d[26]), old(d[27]), lm)
    {
      hide Clamp, Outside;
      var x := Saturate(d[25], IrLow(lm), 0x7FFF, 24);
      var y := Saturate(d[26], IrLow(lm), 0x7FFF, 23);
      var z := Saturate(d[27], IrLow(lm), 0x7FFF, 22);
      assert d[25 := d[25]][26 := d[26]][27 := d[27]] == d;
      d := d[9 := x][10 := y][11 := z];
    }

    method PushColor()
      modifies this`d, this`flag
      ensures St() == Gte.PushColor(old(St()))
    {
      hide Clamp, Outside, Packed, Byte;
      var r := Saturate(d[25] / 16, 0, 255, 21);
      var g := Saturate(d[26] / 16, 0, 255, 20);
      var b := Saturate(d[27] / 16, 0, 255, 19);
      d := d[20 := d[21]][21 := d[22]][22 := Packed(r, g, b, Byte(d[6], 3))];
    }

    method PushSz(v: int)
      modifies this`d, this`flag
      ensures St() == Gte.PushSz(old(St()), v)
    {
      hide Clamp, Outside;
      var z := Saturate(v, 0, 0xFFFF, 18);
      d := d[16 := d[17]][17 := d[18]][18 := d[19]][19 := z];
    }

    method PushSxy(x: int, y: int)
      modifies this`d, this`flag
      ensures St() == Gte.PushSxy(old(St()), x, y)
    {
      hide Clamp, Outside, Wrap32;
      var sx := Saturate(x, -0x400, 0x3FF, 14);
      var sy := Saturate(y, -0x400, 0x3FF, 13);
      d := d[12 := d[13]][13 := d[14]][14 := Wrap32(sx % 0x1_0000 + sy * 0x1_0000)];
    }

    /** One channel: the exact sum, with the 44-bit accumulator watched at every step. */
    method Channel(t: I32, p1: int, p2: int, p3: int, ch: int) returns (sum: int)
      modifies this`flag
      ensures sum == Row(t, p1, p2, p3, ch).sum && flag == old(flag) + Row(t, p1, p2, p3, ch).flags
    {
      hide MacFlags, Wrap44;
      sum := t * 0x1000;
      var hw := Wrap44(sum);
      CheckMac(sum, ch);
      sum := sum + p1;
      CheckMac(hw + p1, ch);
      hw := Wrap44(hw + p1);
      sum := sum + p2;
      CheckMac(hw + p2, ch);
      hw := Wrap44(hw + p2);
      sum := sum + p3;
      CheckMac(hw + p3, ch);
    }

    method MatrixChannel(mx: nat, v: nat, cv: nat, i: nat) returns (sum: int)
      requires i < 3
      modifies this`flag
      ensures sum == MatrixRow(old(St()), mx, v, cv, i).sum && flag == old(flag) + MatrixRow(old(St()), mx, v, cv, i).flags
    {
      hide Row, Matrix, Vector, Translation;
      var s := St();
      sum := Channel(Translation(s, cv, i), Matrix(s, mx, i, 0) * Vector(s, v, 0), Matrix(s, mx, i, 1) * Vector(s, v, 1),
                     Matrix(s, mx, i, 2) * Vector(s, v, 2), i + 1);
    }

    /** The operands do not include FLAG. */
    lemma OperandsIgnoreFlag(s: State, s': State, mx: nat, v: nat, cv: nat)
      requires s'.d == s.d && s'.c == s.c
      ensures forall i | 0 <= i < 3 :: MatrixRow(s', mx, v, cv, i) == MatrixRow(s, mx, v, cv, i)
      ensures forall i | 0 <= i < 3 :: FarRow(s', mx, v, i) == FarRow(s, mx, v, i)
    {
    }

    // ---- Commands --------------------------------------------------------------------------

    method Mvmva(sf: bool, lm: bool, mx: nat, v: nat, cv: nat)
      modifies this`d, this`flag
      ensures St() == Gte.Mvmva(old(St()), sf, lm, mx, v, cv)
    {
      hide MatrixRow, FarRow, FarFlags, Gte.StoreMacIr;
      ghost var s0 := St();
      if cv == 2 {
        FarMvmva(sf, lm, mx, v);
      } else {
        var m1 := MatrixChannel(mx, v, cv, 0);
        OperandsIgnoreFlag(s0, St(), mx, v, cv);
        var m2 := MatrixChannel(mx, v, cv, 1);
        OperandsIgnoreFlag(s0, St(), mx, v, cv);
        var m3 := MatrixChannel(mx, v, cv, 2);
        ghost var raised := flag;
        StoreMacIr(m1, m2, m3, sf, lm);
        FlagsCommute(s0, raised, m1, m2, m3, sf, lm);
        assert raised == s0.flag + (MatrixRow(s0, mx, v, cv, 0).flags + MatrixRow(s0, mx, v, cv, 1).flags +
                                    MatrixRow(s0, mx, v, cv, 2).flags);
      }
    }

    /** The far colour: two products; the first product only leaves its flags. */
    method FarMvmva(sf: bool, lm: bool, mx: nat, v: nat)
      modifies this`d, this`flag
      ensures St() == Gte.Mvmva(old(St()), sf, lm, mx, v, 2)
    {
      hide FarRow, FarFlags, Gte.StoreMacIr;
      var s0 := St();
      StoreMacIr(FarRow(s0, mx, v, 0), FarRow(s0, mx, v, 1), FarRow(s0, mx, v, 2), sf, lm);
      for i := 0 to 3
        invariant d == Gte.StoreMacIr(s0, FarRow(s0, mx, v, 0), FarRow(s0, mx, v, 1), FarRow(s0, mx, v, 2), sf, lm).d
        invariant c == s0.c
        invariant flag == Gte.StoreMacIr(s0, FarRow(s0, mx, v, 0), FarRow(s0, mx, v, 1), FarRow(s0, mx, v, 2), sf, lm).flag +
          (if i > 0 then FarFlags(s0, sf, mx, v, 0) else {}) + (if i > 1 then FarFlags(s0, sf, mx, v, 1) else {}) +
          (if i > 2 then FarFlags(s0, sf, mx, v, 2) else {})
      {
        FarFlag(s0, sf, mx, v, i);
      }
      StoreKeepsC(s0, FarRow(s0, mx, v, 0), FarRow(s0, mx, v, 1), FarRow(s0, mx, v, 2), sf, lm);
    }

    method FarFlag(s0: State, sf: bool, mx: nat, v: nat, i: nat)
      requires i < 3
      modifies this`flag
      ensures flag == old(flag) + FarFlags(s0, sf, mx, v, i)
    {
      hide Clamp, Outside, MacFlags, Matrix, Vector, Translation;
      var b := Translation(s0, 2, i) * 0x1000 + Matrix(s0, mx, i, 0) * Vector(s0, v, 0);
      CheckMac(b, i + 1);
      var _ := Saturate(Wrap32(Shift(b, sf)), -0x8000, 0x7FFF, 24 - i);
    }

    lemma StoreKeepsC(s: State, m1: int, m2: int, m3: int, sf: bool, lm: bool)
      ensures Gte.StoreMacIr(s, m1, m2, m3, sf, lm).c == s.c
    {
    }

    /** Flags raised before a store are there after it. */
    lemma FlagsCommute(s: State, flags: set<int>, m1: int, m2: int, m3: int, sf: bool, lm: bool)
      ensures forall extra | flags == s.flag + extra ::
        Gte.StoreMacIr(s.(flag := flags), m1, m2, m3, sf, lm) == Gte.StoreMacIr(s, m1, m2, m3, sf, lm).Raise(extra)
    {
      hide MacFlags, IrFlags, SatIr, Wrap32, Shift;
    }

    method Interpolate(a1: int, a2: int, a3: int, sf: bool, lm: bool)
      modifies this`d, this`flag
      ensures St() == Gte.Interpolate(old(St()), a1, a2, a3, sf, lm)
    {
      hide Clamp, Outside, MacFlags, Gte.StoreMacIr, Wrap32, Shift;
      ghost var s0 := St();
      var d1, d2, d3 := c[21] * 0x1000 - a1, c[22] * 0x1000 - a2, c[23] * 0x1000 - a3;
      CheckMac(d1, 1);
      CheckMac(d2, 2);
      CheckMac(d3, 3);
      var x := Saturate(Wrap32(Shift(d1, sf)), -0x8000, 0x7FFF, 24);
      var y := Saturate(Wrap32(Shift(d2, sf)), -0x8000, 0x7FFF, 23);
      var z := Saturate(Wrap32(Shift(d3, sf)), -0x8000, 0x7FFF, 22);
      var ir0 := Wrap16(d[8]);
      ghost var raised := flag;
      StoreMacIr(x * ir0 + a1, y * ir0 + a2, z * ir0 + a3, sf, lm);
      FlagsCommute(s0, raised, x * ir0 + a1, y * ir0 + a2, z * ir0 + a3, sf, lm);
    }

    /** MAC1-MAC3, IR1-IR3 and the depth of RTPS. */
    method RtpsDepth(v: nat, sf: bool, lm: bool)
      modifies this`d, this`flag
      ensures St() == Gte.RtpsDepth(old(St()), v, sf, lm)
    {
      hide MatrixRow, Clamp, Outside, Wrap32, Shift, Wrap44, Gte.PushSz;
      ghost var s0 := St();
      var m1 := MatrixChannel(0, v, 0, 0);
      OperandsIgnoreFlag(s0, St(), 0, v, 0);
      var m2 := MatrixChannel(0, v, 0, 1);
      OperandsIgnoreFlag(s0, St(), 0, v, 0);
      var m3 := MatrixChannel(0, v, 0, 2);
      var a1, a2, a3 := Wrap32(Shift(m1, sf)), Wrap32(Shift(m2, sf)), Wrap32(Shift(m3, sf));
      d := d[25 := a1][26 := a2][27 := a3];
      var x := Saturate(a1, IrLow(lm), 0x7FFF, 24);
      var y := Saturate(a2, IrLow(lm), 0x7FFF, 23);
      var _ := Saturate(m3 / 0x1000, -0x8000, 0x7FFF, 22);
      d := d[9 := x][10 := y][11 := Clamp(a3, IrLow(lm), 0x7FFF)];
      ghost var bits := MatrixRow(s0, 0, v, 0, 0).flags + MatrixRow(s0, 0, v, 0, 1).flags + MatrixRow(s0, 0, v, 0, 2).flags +
                        IrFlags(a1, 1, lm) + IrFlags(a2, 2, lm) + Outside(m3 / 0x1000, -0x8000, 0x7FFF, 22);
      assert flag == s0.flag + bits;
      PushSz(Wrap44(m3) / 0x1000);
    }

    /** Divide, project, and for the last vertex the depth cue. */
    method RtpsProject(last: bool)
      modifies this`d, this`flag
      ensures St() == Gte.RtpsProject(old(St()), last)
    {
      hide Clamp, Outside, Wrap32, Project, Division.Divided, Mac0Flags, Half, Gte.PushSxy, Wrap16;
      ghost var s0 := St();
      var q, overflow := Division.Divide(Half(c[26]), Half(d[19]));
      if overflow { SetFlag(17); }
      var x, y := Project(q, Wrap16(d[9]), c[24]), Project(q, Wrap16(d[10]), c[25]);
      CheckMac0(x);
      CheckMac0(y);
      assert flag == s0.flag + ((if overflow then {17} else {}) + Mac0Flags(x) + Mac0Flags(y));
      PushSxy(Wrap32(x / 0x1_0000), Wrap32(y / 0x1_0000));
      if last { DepthCue(q); }
    }

    method DepthCue(q: nat)
      requires q <= Division.LIMIT
      modifies this`d, this`flag
      ensures var s := old(St());
              var z := Project(q, Wrap16(s.c[27]), s.c[28]);
              St() == s.(d := s.d[24 := Wrap32(z)][8 := Clamp(z / 0x1000, 0, 0x1000)])
                       .Raise(Mac0Flags(z) + Outside(z / 0x1000, 0, 0x1000, 12))
    {
      hide Clamp, Outside, Wrap32, Project, Mac0Flags;
      var z := Project(q, Wrap16(c[27]), c[28]);
      CheckMac0(z);
      var ir0 := Saturate(z / 0x1000, 0, 0x1000, 12);
      d := d[24 := Wrap32(z)][8 := ir0];
    }

    method RtpsCore(v: nat, sf: bool, lm: bool, last: bool)
      modifies this`d, this`flag
      ensures St() == Gte.RtpsCore(old(St()), v, sf, lm, last)
    {
      hide Gte.RtpsDepth, Gte.RtpsProject;
      RtpsDepth(v, sf, lm);
      RtpsProject(last);
    }

    method SetMac0(v: int)
      modifies this`d, this`flag
      ensures St() == Gte.SetMac0(old(St()), v)
    {
      CheckMac0(v);
      d := d[24 := Wrap32(v)];
    }

    method Average(v: int)
      modifies this`d, this`flag
      ensures St() == Gte.Average(old(St()), v)
    {
      hide Clamp, Outside, Wrap32;
      SetMac0(v);
      var z := Saturate(v / 0x1000, 0, 0xFFFF, 18);
      d := d[7 := z];
    }

    method Tint(sf: bool, lm: bool)
      modifies this`d, this`flag
      ensures St() == Gte.Tint(old(St()), sf, lm)
    {
      hide Gte.StoreMacIr, Gte.PushColor, Tinted;
      StoreMacIr(Tinted(St(), 0), Tinted(St(), 1), Tinted(St(), 2), sf, lm);
      PushColor();
    }

    method Blend(a1: int, a2: int, a3: int, sf: bool, lm: bool)
      modifies this`d, this`flag
      ensures St() == Gte.PushColor(Gte.Interpolate(old(St()), a1, a2, a3, sf, lm))
    {
      hide Gte.Interpolate, Gte.PushColor;
      Interpolate(a1, a2, a3, sf, lm);
      PushColor();
    }

    method TintFar(sf: bool, lm: bool)
      modifies this`d, this`flag
      ensures St() == Gte.TintFar(old(St()), sf, lm)
    {
      hide Gte.Interpolate, Gte.PushColor, Tinted;
      Blend(Tinted(St(), 0), Tinted(St(), 1), Tinted(St(), 2), sf, lm);
    }

    method Cue(rgb: I32, sf: bool, lm: bool)
      modifies this`d, this`flag
      ensures St() == Gte.Cue(old(St()), rgb, sf, lm)
    {
      hide Gte.Interpolate, Gte.PushColor, Byte;
      Blend(Byte(rgb, 0) * 0x1_0000, Byte(rgb, 1) * 0x1_0000, Byte(rgb, 2) * 0x1_0000, sf, lm);
    }

    method Lit(v: nat, sf: bool, lm: bool)
      modifies this`d, this`flag
      ensures St() == Gte.Lit(old(St()), v, sf, lm)
    {
      hide Gte.Mvmva;
      Mvmva(sf, lm, 1, v, 3);
      Mvmva(sf, lm, 2, 3, 1);
    }

    /** One vertex of the lighting commands: 0 NCS, 1 NCCS, 2 NCDS. */
    method Shade(kind: nat, v: nat, sf: bool, lm: bool)
      requires kind < 3
      modifies this`d, this`flag
      ensures var s := old(St());
              St() == if kind == 0 then Ncs(s, v, sf, lm) else if kind == 1 then Nccs(s, v, sf, lm) else Ncds(s, v, sf, lm)
    {
      hide Gte.Lit, Gte.Tint, Gte.TintFar, Gte.PushColor;
      Lit(v, sf, lm);
      if kind == 0 { PushColor(); } else if kind == 1 { Tint(sf, lm); } else { TintFar(sf, lm); }
    }

    method Shade3(kind: nat, sf: bool, lm: bool)
      requires kind < 3
      modifies this`d, this`flag
      ensures var s := old(St());
              St() == if kind == 0 then Ncs(Ncs(Ncs(s, 0, sf, lm), 1, sf, lm), 2, sf, lm)
                      else if kind == 1 then Nccs(Nccs(Nccs(s, 0, sf, lm), 1, sf, lm), 2, sf, lm)
                      else Ncds(Ncds(Ncds(s, 0, sf, lm), 1, sf, lm), 2, sf, lm)
    {
      hide Ncs, Nccs, Ncds;
      Shade(kind, 0, sf, lm);
      Shade(kind, 1, sf, lm);
      Shade(kind, 2, sf, lm);
    }

    /** The commands that multiply IR1-IR3: OP, SQR, GPF, GPL. */
    method Multiply(k: Command)
      requires k.func in {0x0C, 0x28, 0x3D, 0x3E}
      modifies this`d, this`flag
      ensures St() == Perform(old(St()), k)
    {
      hide Gte.StoreMacIr, Gte.PushColor, Gte.Scale;
      var s := St();
      var sf, lm := k.sf, k.lm;
      if k.func == 0x0C {
        var d1, d2, d3 := Lo(c[0]), Lo(c[2]), Lo(c[4]);
        StoreMacIr(s.Ir(3) * d2 - s.Ir(2) * d3, s.Ir(1) * d3 - s.Ir(3) * d1, s.Ir(2) * d1 - s.Ir(1) * d2, sf, lm);
      } else if k.func == 0x28 {
        StoreMacIr(s.Ir(1) * s.Ir(1), s.Ir(2) * s.Ir(2), s.Ir(3) * s.Ir(3), sf, lm);
      } else if k.func == 0x3D {
        StoreMacIr(s.Ir(1) * s.Ir(0), s.Ir(2) * s.Ir(0), s.Ir(3) * s.Ir(0), sf, lm);
        PushColor();
      } else {
        StoreMacIr(s.Ir(1) * s.Ir(0) + Gte.Scale(d[25], sf), s.Ir(2) * s.Ir(0) + Gte.Scale(d[26], sf),
                   s.Ir(3) * s.Ir(0) + Gte.Scale(d[27], sf), sf, lm);
        PushColor();
      }
    }

    method Light(k: Command)
      requires k.func in {0x13, 0x14, 0x16, 0x1B, 0x1C, 0x1E, 0x20, 0x29, 0x3F}
      modifies this`d, this`flag
      ensures St() == Perform(old(St()), k)
    {
      hide Ncs, Nccs, Ncds, Gte.Tint, Gte.TintFar, Gte.Mvmva;
      var sf, lm := k.sf, k.lm;
      match k.func
      case 0x13 => Shade(2, 0, sf, lm);
      case 0x16 => Shade3(2, sf, lm);
      case 0x1B => Shade(1, 0, sf, lm);
      case 0x1E => Shade(0, 0, sf, lm);
      case 0x20 => Shade3(0, sf, lm);
      case 0x3F => Shade3(1, sf, lm);
      case 0x29 => TintFar(sf, lm);
      case _ =>
        Mvmva(sf, lm, 2, 3, 1);
        if k.func == 0x14 { TintFar(sf, lm); } else { Tint(sf, lm); }
    }

    method Geometry(k: Command)
      requires k.func in {0x01, 0x06, 0x10, 0x11, 0x12, 0x2A, 0x2D, 0x2E, 0x30}
      modifies this`d, this`flag
      ensures St() == Perform(old(St()), k)
    {
      hide Gte.RtpsCore, Gte.SetMac0, Gte.Average, Gte.Cue, Gte.Mvmva, NclipValue, Sum3, Gte.Interpolate, Gte.PushColor;
      var sf, lm := k.sf, k.lm;
      match k.func
      case 0x01 => RtpsCore(0, sf, lm, true);
      case 0x06 => SetMac0(NclipValue(St()));
      case 0x10 => Cue(d[6], sf, lm);
      case 0x11 => Blend(St().Ir(1) * 0x1000, St().Ir(2) * 0x1000, St().Ir(3) * 0x1000, sf, lm);
      case 0x12 => Mvmva(sf, lm, k.mx, k.v, k.cv);
      case 0x2A =>
        Cue(d[20], sf, lm);
        Cue(d[20], sf, lm);
        Cue(d[20], sf, lm);
      case 0x2D => Average(Wrap16(c[29]) * Sum3(St()));
      case 0x2E => Average(Wrap16(c[30]) * (Unsigned(d[16]) + Sum3(St())));
      case _ =>
        RtpsCore(0, sf, lm, false);
        RtpsCore(1, sf, lm, false);
        RtpsCore(2, sf, lm, true);
    }

    /** GTE_Execute: a command keeps the registers in range. */
    method Execute(k: Command)
      requires Ranges(St())
      modifies this
      ensures St() == Gte.Execute(old(St()), k) && Ranges(St())
    {
      hide Ranges;
      ghost var s0 := St();
      flag := {};
      if k.func in {0x0C, 0x28, 0x3D, 0x3E} { Multiply(k); }
      else if k.func in {0x13, 0x14, 0x16, 0x1B, 0x1C, 0x1E, 0x20, 0x29, 0x3F} { Light(k); }
      else if k.func in {0x01, 0x06, 0x10, 0x11, 0x12, 0x2A, 0x2D, 0x2E, 0x30} { Geometry(k); }
      else { NotACommand(St(), k); }
      hide Perform;
      flag := Summary(flag);
      ApplyKeepsRanges(s0, Run(k));
    }

    lemma NotACommand(s: State, k: Command)
      requires k.func !in {0x0C, 0x28, 0x3D, 0x3E, 0x13, 0x14, 0x16, 0x1B, 0x1C, 0x1E, 0x20, 0x29, 0x3F,
                           0x01, 0x06, 0x10, 0x11, 0x12, 0x2A, 0x2D, 0x2E, 0x30}
      ensures Perform(s, k) == s
    {
    }
  }
}
