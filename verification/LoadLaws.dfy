/** Loads, which write one instruction late, stated apart from the steps of the pipeline that
    the run of the whole block and the run without its dead words both go through. */
module LoadLaws {
  import opened Mips
  import opened Psx
  import opened BlockScan
  import opened Interpreter
  import opened MipsLaws
  import opened ControlLaws
  import opened Dce

  /** No load is under way. */
  predicate Quiet<D>(s: State<D>) {
    s.delayReg == 0 == s.commitReg && s.delayVal == 0 == s.commitVal
  }

  /** LH, LHU and SH need an even address, LW, SW, LWC2 and SWC2 a multiple of four. */
  predicate Unaligned(op: int, address: bv32) {
    (op in {0x21, 0x25, 0x29} && address & 1 == 1) || (op in {0x23, 0x2B, 0x32, 0x3A} && address & 3 != 0)
  }

  lemma UnalignedIs(op: int, address: bv32)
    ensures Misaligned(op, address) <==> Unaligned(op, address)
  {
    OddIs(address);
  }

  lemma OddIs(address: bv32)
    ensures address & 1 == 1 <==> address & 1 != 0
  {
  }

  /** A load with nothing under way changes no register yet. */
  lemma LoadLaw<D>(dv: Devices<D>, w: Word, pc: bv32, s: State<D>, address: bv32)
    requires IsPsxWord(w) && IsLoad(w) && Quiet(s) && address == Add(s.regs.r[w.rs], SignExt(w.imm))
    ensures var base := if w.op in {0x22, 0x26} then s.regs.r[w.rt] else 0;
            var (x, dev) := dv.load(w.op, address, base, s.dev);
            Step(dv, w, pc, s) ==
            if Unaligned(w.op, address) then Trap
            else if w.rt == 0 then Go(s)
            else Go(s.(dev := dev, delayReg := w.rt, delayVal := x))
  {
    hide Add, SignExt, Misaligned, Unaligned;
    UnalignedIs(w.op, address);
    LoadExecutes(dv, w, pc, s);
  }

  /** Loads and stores are neither ALU words nor branches. */
  lemma LoadExecutes<D>(dv: Devices<D>, w: Word, pc: bv32, s: State<D>)
    requires IsPsxWord(w)
    ensures IsLoad(w) ==> Execute(dv, w, pc, s) == ExecLoad(dv, w, s)
    ensures IsStore(w) ==> Execute(dv, w, pc, s) == ExecStore(dv, w, s)
  {
    hide ExecLoad, ExecStore, ExecBranch, ExecCop, Traps, Exec;
  }

  /** The instruction after a load still finds the old value; from then on the loaded one is
      there, unless that instruction wrote the register. */
  lemma LoadDelay<D>(dv: Devices<D>, d: Word, pc: bv32, s: State<D>)
    requires IsPsxWord(d) && IsAluWord(d) && !Traps(d, s.regs)
    requires s.commitReg == 0 && s.commitVal == 0 && s.delayReg != 0
    ensures Step(dv, d, pc, s).Go?
    ensures var s1 := Step(dv, d, pc, s).s;
            s1.regs == Exec(d, s.regs) && s1.dev == s.dev && s1.jump == s.jump &&
            Commit(s1) == s1.(regs := if WritesGpr(d, s.delayReg) then Exec(d, s.regs)
                                      else Write(Exec(d, s.regs), s.delayReg, s.delayVal),
                              delayReg := 0, delayVal := 0, commitReg := 0, commitVal := 0)
  {
    hide Exec, Traps, Write, WritesGpr;
    AluIsNoLoad(d);
  }

  lemma AluIsNoLoad(d: Word)
    requires IsPsxWord(d) && IsAluWord(d)
    ensures !IsLoad(d) && !IsBranch(d) && !IsStore(d)
  {
  }

  /** The registers that an ALU word writes: those that Exec can change. */
  lemma WritesLaw(d: Word, p: Regs, r: Reg)
    requires IsPsxWord(d) && IsAluWord(d) && r != 0
    ensures !WritesGpr(d, r) ==> Exec(d, p).r[r] == p.r[r]
    ensures WritesGpr(d, r) ==> r == (if d.I? then d.rt else d.rd) && !(d.R? && d.fn in {0x11, 0x13, 0x18, 0x19, 0x1A, 0x1B})
  {
    hide Alu, AluImm, Shift, ProductHi, ProductLo, DivHi, DivLo;
  }

  /** A second load to the same register: the first one never arrives, but LWL and LWR merge
      their bytes into what it loaded. */
  lemma LoadAfterLoad<D>(dv: Devices<D>, w: Word, pc: bv32, s: State<D>, address: bv32)
    requires IsPsxWord(w) && IsLoad(w) && w.rt != 0 && address == Add(s.regs.r[w.rs], SignExt(w.imm))
    requires s.commitReg == 0 && s.commitVal == 0 && s.delayReg == w.rt && !Unaligned(w.op, address)
    ensures var (x, dev) := dv.load(w.op, address, if w.op in {0x22, 0x26} then s.delayVal else 0, s.dev);
            Step(dv, w, pc, s).Go? &&
            var s1 := Step(dv, w, pc, s).s;
            s1.regs == s.regs && s1.dev == dev && s1.delayReg == w.rt && s1.delayVal == x &&
            Commit(s1).regs == s.regs && Commit(s1).commitReg == w.rt && Commit(s1).commitVal == x
  {
    hide Add, SignExt, Misaligned, Unaligned, Write, WritesGpr;
    UnalignedIs(w.op, address);
    LoadExecutes(dv, w, pc, Commit(s));
  }

  /** A second load to another register: the first one arrives in between. */
  lemma LoadsApart<D>(dv: Devices<D>, w: Word, pc: bv32, s: State<D>, address: bv32)
    requires IsPsxWord(w) && IsLoad(w) && w.rt != 0 && address == Add(s.regs.r[w.rs], SignExt(w.imm))
    requires s.commitReg == 0 && s.commitVal == 0 && s.delayReg != 0 && s.delayReg != w.rt && !Unaligned(w.op, address)
    ensures var base := if w.op in {0x22, 0x26} then s.regs.r[w.rt] else 0;
            var (x, dev) := dv.load(w.op, address, base, s.dev);
            Step(dv, w, pc, s).Go? &&
            var s1 := Step(dv, w, pc, s).s;
            s1.regs == s.regs && s1.dev == dev && s1.delayReg == w.rt && s1.delayVal == x &&
            Puts(s.regs, Commit(s1).regs, s.delayReg, s.delayVal)
  {
    hide Add, SignExt, Misaligned, Unaligned, WritesGpr, Puts, Write;
    UnalignedIs(w.op, address);
    LoadExecutes(dv, w, pc, Commit(s));
    WritePuts(s.regs, s.delayReg, s.delayVal);
  }

  /** Stores send the register to the address, or raise an exception. */
  lemma StoreLaw<D>(dv: Devices<D>, w: Word, pc: bv32, s: State<D>, address: bv32)
    requires IsPsxWord(w) && IsStore(w) && Quiet(s) && address == Add(s.regs.r[w.rs], SignExt(w.imm))
    ensures Step(dv, w, pc, s) ==
            if Unaligned(w.op, address) then Trap
            else Go(s.(dev := dv.store(w.op, address, s.regs.r[w.rt], s.dev)))
  {
    hide Add, SignExt, Misaligned, Unaligned;
    UnalignedIs(w.op, address);
    LoadExecutes(dv, w, pc, s);
  }

  /** Moves to and from the coprocessors.  MFC0 is late like a load, MFC2 and CFC2 are not;
      all other COP0 and COP2 words are handed over whole. */
  lemma MoveLaw<D>(dv: Devices<D>, w: Word, pc: bv32, s: State<D>)
    requires IsPsxWord(w) && w.I? && w.op in {0x10, 0x12} && Quiet(s)
    ensures Step(dv, w, pc, s).Go?
    ensures var s1, x := Step(dv, w, pc, s).s, dv.read(w, s.dev);
            if w.op == 0x10 && w.rs == 0 then s1 == if w.rt == 0 then s else s.(delayReg := w.rt, delayVal := x)
            else if w.op == 0x12 && w.rs in {0, 2} then Puts(s.regs, s1.regs, w.rt, x) && s1 == s.(regs := s1.regs)
            else s1 == s.(dev := dv.write(w, if w.rs == 4 || (w.rs == 6 && w.op == 0x12) then s.regs.r[w.rt] else 0, s.dev))
  {
    hide Puts, Write, WritesGpr;
    CopExecutes(dv, w, pc, s);
    WritePuts(s.regs, w.rt, dv.read(w, s.dev));
  }

  lemma CopExecutes<D>(dv: Devices<D>, w: Word, pc: bv32, s: State<D>)
    requires IsPsxWord(w) && w.I? && w.op in {0x10, 0x12, 0x32, 0x3A}
    ensures Execute(dv, w, pc, s) == ExecCop(dv, w, s)
  {
    hide ExecLoad, ExecStore, ExecBranch, ExecCop, Traps, Exec;
  }

  /** LWC2 hands the word at the address to the coprocessor, SWC2 stores what it reads there. */
  lemma TransferLaw<D>(dv: Devices<D>, w: Word, pc: bv32, s: State<D>, address: bv32)
    requires IsPsxWord(w) && w.I? && w.op in {0x32, 0x3A} && Quiet(s)
    requires address == Add(s.regs.r[w.rs], SignExt(w.imm))
    ensures var (x, dev) := dv.load(w.op, address, 0, s.dev);
            Step(dv, w, pc, s) ==
            if address & 3 != 0 then Trap
            else if w.op == 0x32 then Go(s.(dev := dv.write(w, x, dev)))
            else Go(s.(dev := dv.store(w.op, address, dv.read(w, s.dev), s.dev)))
  {
    hide Add, SignExt, Misaligned;
    UnalignedIs(w.op, address);
    CopExecutes(dv, w, pc, s);
  }

  /** Every instruction other than a load that changes a register is one that cancels a load to
      it; only BLTZAL and BGEZAL are left out. */
  lemma ChangeCancels<D>(dv: Devices<D>, w: Word, pc: bv32, s: State<D>, r: Reg)
    requires IsPsxWord(w) && !IsLoad(w) && r != 0 && Execute(dv, w, pc, s).Go?
    requires !(w.I? && w.op == 1)
    ensures Execute(dv, w, pc, s).s.regs.r[r] != s.regs.r[r] ==> WritesGpr(w, r)
  {
    hide Exec, Traps, Add, Jumps, JumpTarget, Misaligned, IsAluWord, ExecStore, WritesGpr, Address;
    if IsAluWord(w) {
      WritesLaw(w, s.regs, r);
    } else if IsBranch(w) {
      LinkCancels(w, r);
    } else if IsStore(w) {
      assert ExecStore(dv, w, s).s.regs == s.regs by { StoreKeepsRegisters(dv, w, s); }
    } else {
      ReadCancels(w, r);
    }
  }

  lemma LinkCancels(w: Word, r: Reg)
    requires IsPsxWord(w) && IsBranch(w) && !(w.I? && w.op == 1) && r != 0
    ensures r == LinkOf(w) ==> WritesGpr(w, r)
  {
  }

  lemma StoreKeepsRegisters<D>(dv: Devices<D>, w: Word, s: State<D>)
    requires IsStore(w) && ExecStore(dv, w, s).Go?
    ensures ExecStore(dv, w, s).s.regs == s.regs
  {
  }

  /** MFC2 and CFC2 write rt at once. */
  lemma ReadCancels(w: Word, r: Reg)
    requires IsPsxWord(w)
    ensures w.I? && w.op == 0x12 && (w.rs == 0 || w.rs == 2) && r == w.rt ==> WritesGpr(w, r)
  {
  }

  // ---- Whole blocks -----------------------------------------------------------------------------

  /** The interpreter of branches and this one at the same instruction. */
  predicate Tells<D>(c: Cpu, s: State<D>, jump: Jump) {
    s.regs == c.regs && Quiet(s) && c.branch in {0, 2} && s.jump == if c.branch == 2 then To(c.target) else jump
  }

  lemma StepTells<D>(dv: Devices<D>, w: Word, c: Cpu, s: State<D>, jump: Jump)
    requires !Stops(w, c) && Tells(c, s, jump)
    ensures Step(dv, w, c.pc, s).Go? && Step(dv, w, c.pc, s).s.dev == s.dev
    ensures Tells(Next(w, c), Step(dv, w, c.pc, s).s, s.jump)
    ensures c.branch == 2 && !IsBranch(w) ==> Step(dv, w, c.pc, s).s.jump == To(Next(w, c).pc)
  {
    hide Step, Next, IsAluWord, IsBranch, IsPsxWord, Exec, Traps, Jumps, JumpTarget, Write, LinkOf, Add;
    if IsAluWord(w) {
      AluStep(dv, w, c.pc, s);
      SlotNext(w, c);
    } else {
      BranchStep(dv, w, c.pc, s);
      BranchMoves(w, c);
    }
  }

  lemma AluStep<D>(dv: Devices<D>, w: Word, pc: bv32, s: State<D>)
    requires InFragment(w) && IsAluWord(w) && !Traps(w, s.regs) && Quiet(s)
    ensures Step(dv, w, pc, s) == Go(s.(regs := Exec(w, s.regs))) && !IsBranch(w)
  {
    hide Exec, Traps, IsAluWord, IsPsxWord, WritesGpr;
    AluIsNoLoad(w);
  }

  lemma BranchStep<D>(dv: Devices<D>, w: Word, pc: bv32, s: State<D>)
    requires InFragment(w) && !IsAluWord(w) && Quiet(s)
    ensures IsBranch(w)
    ensures Step(dv, w, pc, s) == Go(s.(regs := Write(s.regs, LinkOf(w), Add(pc, 8)),
                                        jump := if Jumps(w, s.regs) then To(JumpTarget(w, s.regs, Add(pc, 4))) else s.jump))
  {
    hide Jumps, JumpTarget, Write, LinkOf, Add, IsAluWord, IsBranch, IsPsxWord, WritesGpr;
  }

  lemma BranchMoves(w: Word, c: Cpu)
    requires InFragment(w) && !IsAluWord(w) && c.branch in {0, 2}
    ensures IsBranch(w) && Next(w, c).regs == Write(c.regs, LinkOf(w), Add(c.pc, 8))
    ensures if Jumps(w, c.regs) then Next(w, c).branch == 2 && Next(w, c).target == JumpTarget(w, c.regs, Add(c.pc, 4))
            else Next(w, c).branch == 0
  {
    hide Jumps, JumpTarget, Write, LinkOf, Add, IsAluWord, IsBranch, IsPsxWord, CycleCost;
    AddEightIs(c.pc);
  }

  lemma AddEightIs(pc: bv32)
    ensures Add(Add(pc, 4), 4) == Add(pc, 8)
  {
  }

  /** A block whose words the interpreter of branches executes in order leaves its registers
      here, and after the delay slot of a branch taken the place it goes to. */
  lemma {:induction false} RunLaw<D>(dv: Devices<D>, fetch: bv32 -> Word, c: Cpu, block: seq<Word>, k: nat, s: State<D>, jump: Jump)
    requires k < |block| && Tells(Chain(fetch, c, k), s, jump)
    requires forall j :: k <= j < |block| ==>
      block[j] == fetch(Chain(fetch, c, j).pc) && !Stops(block[j], Chain(fetch, c, j))
    requires forall j :: k < j < |block| ==> Chain(fetch, c, j).pc == Chain(fetch, c, j - 1).pc + 4
    ensures Dce.Run(dv, block, k, Chain(fetch, c, k).pc, s).Done?
    ensures var d, e, t := Chain(fetch, c, |block| - 1), Chain(fetch, c, |block|), Dce.Run(dv, block, k, Chain(fetch, c, k).pc, s).s;
            t.regs == e.regs && t.dev == s.dev && Quiet(t) &&
            (d.branch == 2 && !IsBranch(block[|block| - 1]) ==> t.jump == To(e.pc))
    decreases |block| - k
  {
    hide Stops, Step, Next, Tells, IsBranch, Quiet;
    var d := Chain(fetch, c, k);
    var s1 := NextState(dv, block[k], d, s, jump);
    ChainStep(fetch, c, k);
    if k + 1 < |block| {
      AddFour(d.pc);
      RunLaw(dv, fetch, c, block, k + 1, s1, s.jump);
    } else {
      TellsRegs(Chain(fetch, c, k + 1), s1, s.jump);
    }
  }

  lemma NextState<D>(dv: Devices<D>, w: Word, c: Cpu, s: State<D>, jump: Jump) returns (t: State<D>)
    requires !Stops(w, c) && Tells(c, s, jump)
    ensures Step(dv, w, c.pc, s) == Go(t) && Tells(Next(w, c), t, s.jump) && t.dev == s.dev
    ensures c.branch == 2 && !IsBranch(w) ==> t.jump == To(Next(w, c).pc)
  {
    hide Stops, Step, Next, Tells, IsBranch;
    StepTells(dv, w, c, s, jump);
    t := Step(dv, w, c.pc, s).s;
  }

  lemma ChainStep(fetch: bv32 -> Word, c: Cpu, k: nat)
    ensures var d := Chain(fetch, c, k);
            !Stops(fetch(d.pc), d) ==> Chain(fetch, c, k + 1) == Next(fetch(d.pc), d)
  {
    hide Stops, Next;
  }

  lemma TellsRegs<D>(c: Cpu, s: State<D>, jump: Jump)
    requires Tells(c, s, jump)
    ensures s.regs == c.regs && Quiet(s)
  {
  }
}
