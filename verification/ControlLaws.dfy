/** Branches, jumps and their delay slots, stated apart from the functions that both the
    interpreter and the compiler use. */
module ControlLaws {
  import opened Numbers
  import opened Mips
  import opened Psx
  import opened BlockScan
  import opened Interpreter
  import opened MipsLaws

  /** BEQ, BNE, BLEZ, BGTZ, and BLTZ or BGEZ by the lowest bit of the rt field. */
  ghost predicate Holds(w: Word, p: Regs)
    requires w.I?
  {
    var a := Signed(p.r[w.rs]);
    match w.op
    case 0x04 => p.r[w.rs] == p.r[w.rt]
    case 0x05 => p.r[w.rs] != p.r[w.rt]
    case 0x06 => a <= 0
    case 0x07 => a > 0
    case _ => if w.rt % 2 == 1 then a >= 0 else a < 0
  }

  lemma BranchLaw(w: Word, p: Regs)
    requires w.I? && IsBranch(w)
    ensures Jumps(w, p) <==> Holds(w, p)
  {
    hide Signed, Negative;
    NegativeIs(p.r[w.rs]);
    SignedZero(p.r[w.rs]);
  }

  lemma SignedZero(v: bv32)
    ensures Signed(v) == 0 <==> v == 0
  {
    NumberZero(v);
  }

  /** A branch goes its offset in words beyond the delay slot, J and JAL to the word they name
      in the delay slot's 256 MB region, JR and JALR to the address in the register. */
  lemma TargetLaw(w: Word, p: Regs, next: bv32)
    requires IsPsxWord(w) && IsBranch(w)
    ensures w.I? ==> JumpTarget(w, p, next) == next + (SignExt(w.imm) << 2)
    ensures w.J? ==> JumpTarget(w, p, next) & 0x0FFF_FFFF == (w.target as bv32) << 2
    ensures w.J? ==> JumpTarget(w, p, next) & 0xF000_0000 == next & 0xF000_0000
    ensures w.R? ==> JumpTarget(w, p, next) == p.r[w.rs]
  {
    hide RegionTarget, Offset, Add;
    if w.J? { RegionIs(next, w.target); }
    if w.I? { OffsetIs(w, next); }
  }

  lemma RegionIs(next: bv32, target: bv26)
    ensures RegionTarget(next, target) & 0x0FFF_FFFF == (target as bv32) << 2
    ensures RegionTarget(next, target) & 0xF000_0000 == next & 0xF000_0000
  {
  }

  lemma OffsetIs(w: Word, next: bv32)
    requires w.I?
    ensures Add(next, Offset(w)) == next + (SignExt(w.imm) << 2)
  {
    hide SignExt, Offset;
    AddIs(next, Offset(w));
    OffsetShifts(w);
  }

  lemma OffsetShifts(w: Word)
    requires w.I?
    ensures Offset(w) == SignExt(w.imm) << 2
  {
    hide SignExt;
  }

  lemma AddIs(a: bv32, b: bv32)
    ensures Add(a, b) == a + b
  {
  }

  /** JAL, BLTZAL and BGEZAL link in $31, JALR in rd. */
  lemma LinkLaw(w: Word)
    requires IsPsxWord(w) && IsBranch(w)
    ensures w.J? ==> LinkOf(w) == if w.op == 3 then 31 else 0
    ensures w.I? ==> LinkOf(w) == if w.op == 1 && w.rt in {16, 17} then 31 else 0
    ensures w.R? ==> LinkOf(w) == if w.fn == 0x09 then w.rd else 0
  {
  }

  /** What an instruction that is no branch and does not trap costs. */
  function Cost(w: Word): nat {
    if w.R? && w.fn in {0x18, 0x19} then 6 else if w.R? && w.fn in {0x1A, 0x1B} then 2 else 1
  }

  /** A branch and its delay slot: the return address is that of the word after the slot, the
      slot sees it, and afterwards execution goes on at the target or after the slot. */
  lemma BranchThenSlot(fetch: bv32 -> Word, c: Cpu, l: Regs)
    requires c.branch == 0 && InFragment(fetch(c.pc)) && IsBranch(fetch(c.pc))
    requires Puts(c.regs, l, LinkOf(fetch(c.pc)), c.pc + 8)
    requires var d := fetch(c.pc + 4);
             InFragment(d) && IsAluWord(d) && !Traps(d, l)
    ensures var w, d, e := fetch(c.pc), fetch(c.pc + 4), Chain(fetch, c, 2);
            e.regs == Exec(d, l) && e.branch == 0 && e.cycles == c.cycles + 1 + Cost(d) &&
            e.pc == if w.I? && !Holds(w, c.regs) then c.pc + 8 else JumpTarget(w, c.regs, c.pc + 4)
  {
    hide *;
    AddFour(c.pc);
    SlotFollows(fetch, c, l, c.pc + 4, c.pc + 8);
  }

  lemma SlotFollows(fetch: bv32 -> Word, c: Cpu, l: Regs, next: bv32, after: bv32)
    requires c.branch == 0 && InFragment(fetch(c.pc)) && IsBranch(fetch(c.pc))
    requires next == Add(c.pc, 4) && after == Add(next, 4) && Puts(c.regs, l, LinkOf(fetch(c.pc)), after)
    requires InFragment(fetch(next)) && IsAluWord(fetch(next)) && !Traps(fetch(next), l)
    ensures var w, d, e := fetch(c.pc), fetch(next), Chain(fetch, c, 2);
            e.regs == Exec(d, l) && e.branch == 0 && e.cycles == c.cycles + 1 + Cost(d) &&
            e.pc == if w.I? && !Holds(w, c.regs) then after else JumpTarget(w, c.regs, next)
  {
    hide Exec, Holds, JumpTarget, Traps, IsAluWord, Puts, LinkOf, Cost, Next, IsBranch, IsPsxWord, Add;
    var w, d := fetch(c.pc), fetch(next);
    BranchNext(w, c, l, next, after);
    SlotNext(d, Next(w, c));
    NotAlu(w);
    assert Chain(fetch, c, 1) == Next(w, c);
    assert Chain(fetch, c, 2) == Next(d, Next(w, c));
  }

  /** The branch itself, outside a delay slot. */
  lemma BranchNext(w: Word, c: Cpu, l: Regs, next: bv32, after: bv32)
    requires c.branch == 0 && InFragment(w) && IsBranch(w)
    requires next == Add(c.pc, 4) && after == Add(next, 4) && Puts(c.regs, l, LinkOf(w), after)
    ensures var e := Next(w, c);
            e.regs == l && e.pc == next && e.cycles == c.cycles + 1 &&
            if w.I? && !Holds(w, c.regs) then e.branch == 0
            else e.branch == 2 && e.target == JumpTarget(w, c.regs, next)
  {
    hide Exec, Holds, JumpTarget, Jumps, IsPsxWord, IsAluWord, Puts, Write, LinkOf, Add, CycleCost;
    if w.I? { BranchLaw(w, c.regs); }
    JumpAlways(w, c.regs);
    PutsIsWrite(c.regs, l, LinkOf(w), after);
    NotAlu(w);
  }

  /** An instruction after which a pending branch, if there is one, goes to its target. */
  lemma SlotNext(d: Word, c: Cpu)
    requires InFragment(d) && IsAluWord(d) && (c.branch == 0 || c.branch == 2)
    ensures var e := Next(d, c);
            e.regs == Exec(d, c.regs) && e.branch == 0 && e.cycles == c.cycles + Cost(d) &&
            e.pc == if c.branch == 2 then c.target else Add(c.pc, 4)
  {
    hide Exec, Add;
  }

  lemma AddFour(pc: bv32)
    ensures Add(pc, 4) == pc + 4 && Add(pc + 4, 4) == pc + 8
  {
  }

  lemma JumpAlways(w: Word, p: Regs)
    requires IsBranch(w)
    ensures !w.I? ==> Jumps(w, p)
  {
  }

  lemma PutsIsWrite(p: Regs, l: Regs, d: Reg, x: bv32)
    requires Puts(p, l, d, x)
    ensures l == Write(p, d, x)
  {
    assert l.r == Write(p, d, x).r;
  }

  lemma NotAlu(w: Word)
    requires IsPsxWord(w) && IsBranch(w)
    ensures !IsAluWord(w) && CycleCost(w) == 1
  {
  }
}
