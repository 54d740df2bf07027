/** Dead code elimination against the full interpreter: loads that write one instruction
    late, loads cancelled by a later write, memory and coprocessors as an abstract device. */
module Dce {
  import opened Mips
  import opened Psx
  import opened BlockScan
  import opened Interpreter

  /** Memory, GTE and COP0 together, seen only through what instructions do with them.
      Reading may change the state (an I/O port), so every access returns a new one. */
  datatype Devices<!D> = Devices(
    load: (int, bv32, bv32, D) -> (bv32, D),
    store: (int, bv32, bv32, D) -> D,
    read: (Word, D) -> bv32,
    write: (Word, bv32, D) -> D)

  datatype Jump = Straight | To(target: bv32)

  /** delayReg and commitReg are the two stages of a load on its way to a register; 0 is none,
      and the value of an empty stage, which nothing reads, is kept 0. */
  datatype State<D> = State(regs: Regs, dev: D, jump: Jump,
                            delayReg: Reg, delayVal: bv32, commitReg: Reg, commitVal: bv32)

  datatype Result<D> = Go(s: State<D>) | Trap

  // ---- One instruction ---------------------------------------------------------------

  /** A load under way reaches its register, unless a younger one goes to the same register. */
  function Arrive<D>(s: State<D>): State<D> {
    if s.commitReg == 0 then s
    else
      s.(regs := if s.delayReg != s.commitReg then Write(s.regs, s.commitReg, s.commitVal) else s.regs,
         commitReg := 0, commitVal := 0)
  }

  /** The load pipeline moves on before the instruction executes. */
  function Commit<D>(s: State<D>): State<D> {
    var s1 := Arrive(s);
    if s1.delayReg == 0 then s1
    else s1.(commitReg := s1.delayReg, commitVal := s1.delayVal, delayReg := 0, delayVal := 0)
  }

  predicate IsLoad(w: Word) { w.I? && 0x20 <= w.op <= 0x26 }

  predicate IsStore(w: Word) { w.I? && (0x28 <= w.op <= 0x2B || w.op == 0x2E) }

  /** instruction_writes_gpr of the interpreter, for a register other than $0. */
  predicate WritesGpr(w: Word, r: Reg) {
    match w
    case R(_, _, _, rd, _, fn) =>
      !(0x18 <= fn <= 0x1B || fn == 0x08 || fn == 0x11 || fn == 0x13 || fn == 0x0C || fn == 0x0D) && rd == r
    case I(op, rs, rt, _) =>
      (0x08 <= op <= 0x0F || 0x20 <= op <= 0x26 || (op == 0x12 && (rs == 0 || rs == 2)) || (op == 0x10 && rs == 0)) &&
      rt == r
    case J(op, _) => op == 3 && r == 31
    case _ => false
  }

  /** A load on its way to a register that this instruction writes never arrives. */
  function Cancel<D>(w: Word, s: State<D>): State<D> {
    if s.commitReg != 0 && !IsLoad(w) && WritesGpr(w, s.commitReg) then s.(commitReg := 0, commitVal := 0) else s
  }

  function Address(w: Word, p: Regs): bv32
    requires w.I?
  {
    Add(p.r[w.rs], SignExt(w.imm))
  }

  predicate Misaligned(op: int, address: bv32) {
    ((op == 0x21 || op == 0x25 || op == 0x29) && address & 1 != 0) ||
    ((op == 0x23 || op == 0x2B || op == 0x32 || op == 0x3A) && address & 3 != 0)
  }

  /** What LWL and LWR merge into: the load still under way, if it goes to the same register. */
  function Merged<D>(w: Word, s: State<D>): bv32
    requires w.I?
  {
    if s.commitReg == w.rt && w.rt != 0 then s.commitVal else s.regs.r[w.rt]
  }

  function ExecLoad<D>(dv: Devices<D>, w: Word, s: State<D>): Result<D>
    requires IsLoad(w)
  {
    var address := Address(w, s.regs);
    if Misaligned(w.op, address) then Trap
    else if w.rt == 0 then Go(s)
    else
      var base := if w.op == 0x22 || w.op == 0x26 then Merged(w, s) else 0;
      var (x, dev) := dv.load(w.op, address, base, s.dev);
      Go(s.(dev := dev, delayReg := w.rt, delayVal := x))
  }

  function ExecStore<D>(dv: Devices<D>, w: Word, s: State<D>): Result<D>
    requires IsStore(w)
  {
    var address := Address(w, s.regs);
    if Misaligned(w.op, address) then Trap
    else Go(s.(dev := dv.store(w.op, address, s.regs.r[w.rt], s.dev)))
  }

  /** COP0 and COP2 (the GTE), with LWC2 and SWC2. */
  function ExecCop<D>(dv: Devices<D>, w: Word, s: State<D>): Result<D>
    requires w.I?
  {
    if w.op == 0x10 then
      if w.rs == 0 then
        Go(if w.rt == 0 then s else s.(delayReg := w.rt, delayVal := dv.read(w, s.dev)))
      else if w.rs == 4 then Go(s.(dev := dv.write(w, s.regs.r[w.rt], s.dev)))
      else Go(s.(dev := dv.write(w, 0, s.dev)))
    else if w.op == 0x12 then
      if w.rs == 0 || w.rs == 2 then Go(s.(regs := Write(s.regs, w.rt, dv.read(w, s.dev))))
      else if w.rs == 4 || w.rs == 6 then Go(s.(dev := dv.write(w, s.regs.r[w.rt], s.dev)))
      else Go(s.(dev := dv.write(w, 0, s.dev)))
    else if w.op == 0x32 || w.op == 0x3A then
      var address := Address(w, s.regs);
      if Misaligned(w.op, address) then Trap
      else if w.op == 0x32 then
        var (x, dev) := dv.load(w.op, address, 0, s.dev);
        Go(s.(dev := dv.write(w, x, dev)))
      else Go(s.(dev := dv.store(w.op, address, dv.read(w, s.dev), s.dev)))
    else Trap
  }

  function ExecBranch<D>(w: Word, pc: bv32, s: State<D>): Result<D>
    requires IsBranch(w)
  {
    var jump := if Jumps(w, s.regs) then To(JumpTarget(w, s.regs, Add(pc, 4))) else s.jump;
    Go(s.(regs := Write(s.regs, LinkOf(w), Add(pc, 8)), jump := jump))
  }

  /** SYSCALL, BREAK and all other words raise an exception. */
  function Execute<D>(dv: Devices<D>, w: Word, pc: bv32, s: State<D>): Result<D> {
    if IsAluWord(w) then if Traps(w, s.regs) then Trap else Go(s.(regs := Exec(w, s.regs)))
    else if IsBranch(w) then ExecBranch(w, pc, s)
    else if IsLoad(w) then ExecLoad(dv, w, s)
    else if IsStore(w) then ExecStore(dv, w, s)
    else if w.I? then ExecCop(dv, w, s)
    else Trap
  }

  function Step<D>(dv: Devices<D>, w: Word, pc: bv32, s: State<D>): Result<D> {
    match Execute(dv, w, pc, Commit(s))
    case Trap => Trap
    case Go(s') => Go(Cancel(w, s'))
  }

  // ---- Blocks ---------------------------------------------------------------------------

  datatype Outcome<D> = Done(s: State<D>) | Trapped(at: nat)

  /** Runs the words from k on; the word at k has address pc. */
  function Run<D>(dv: Devices<D>, block: seq<Word>, k: nat, pc: bv32, s: State<D>): (o: Outcome<D>)
    requires k <= |block|
    ensures o.Trapped? ==> k <= o.at < |block|
    decreases |block| - k
  {
    if k == |block| then Done(s)
    else
      match Step(dv, block[k], pc, s)
      case Trap => Trapped(k)
      case Go(s') => Run(dv, block, k + 1, Add(pc, 4), s')
  }

  /** The block as compiled: nothing is emitted for dead words. */
  function Thinned(block: seq<Word>): (t: seq<Word>)
    ensures |t| == |block|
  {
    seq(|block|, i requires 0 <= i < |block| => if Dead(block[i], LiveAt(block, i + 1)) then NOP else block[i])
  }

  // ---- Simulation -----------------------------------------------------------------------

  ghost predicate SameRegs(p: Regs, q: Regs, live: set<Reg>) {
    p.hi == q.hi && p.lo == q.lo && p.r[0] == q.r[0] == 0 && forall r: Reg :: r in live ==> p.r[r] == q.r[r]
  }

  /** s is the original run, t the thinned one, between Commit and the end of an instruction. */
  ghost predicate Alike<D>(s: State<D>, t: State<D>, live: set<Reg>) {
    SameRegs(s.regs, t.regs, live) && t == s.(regs := t.regs)
  }

  /** Between instructions: a load to a dead register that the original run has cancelled
      may still be under way in the thinned one. */
  ghost predicate Related<D>(s: State<D>, t: State<D>, live: set<Reg>) {
    SameRegs(s.regs, t.regs, live) &&
    (t == s.(regs := t.regs) ||
     (s.commitReg == 0 && s.commitVal == 0 && t.commitReg != 0 && t.commitReg !in live &&
      t == s.(regs := t.regs, commitReg := t.commitReg, commitVal := t.commitVal)))
  }

  lemma CommitAligns<D>(s: State<D>, t: State<D>, live: set<Reg>)
    requires Related(s, t, live)
    ensures Alike(Commit(s), Commit(t), live)
  {
    hide SameRegs, Arrive, Related;
    ArriveAligns(s, t, live);
  }

  lemma ArriveAligns<D>(s: State<D>, t: State<D>, live: set<Reg>)
    requires Related(s, t, live)
    ensures Alike(Arrive(s), Arrive(t), live)
  {
    hide Write, SameRegs;
    if s.commitReg == 0 && t.commitReg != 0 {
      WriteDead(s.regs, t.regs, live, t.commitReg, t.commitVal);
    } else if s.commitReg != 0 {
      Narrow(s.regs, t.regs, live, live - {s.commitReg});
      WriteAligns(s.regs, t.regs, live, s.commitReg, s.commitVal);
    }
  }

  lemma WriteAligns(p: Regs, q: Regs, live: set<Reg>, d: Reg, x: bv32)
    requires SameRegs(p, q, live - {d})
    ensures SameRegs(Write(p, d, x), Write(q, d, x), live)
  {
  }

  lemma WriteDead(p: Regs, q: Regs, live: set<Reg>, d: Reg, x: bv32)
    requires SameRegs(p, q, live) && d !in live
    ensures SameRegs(p, Write(q, d, x), live) && SameRegs(Write(p, d, x), q, live)
  {
  }

  lemma ReadAligns(p: Regs, q: Regs, live: set<Reg>, w: Word, r: Reg)
    requires SameRegs(p, q, live) && DceReads(w) <= live && r in RawReads(w)
    ensures p.r[r] == q.r[r]
  {
  }

  /** Execution reads live registers only, and what it writes is the same. */
  lemma ExecuteAligns<D>(dv: Devices<D>, w: Word, pc: bv32, s: State<D>, t: State<D>, live: set<Reg>, after: set<Reg>)
    requires IsPsxWord(w) && Alike(s, t, live) && DceReads(w) <= live && after - {DceDest(w)} <= live
    ensures match Execute(dv, w, pc, s)
            case Trap => Execute(dv, w, pc, t) == Trap
            case Go(s') => Execute(dv, w, pc, t).Go? && Alike(s', Execute(dv, w, pc, t).s, after)
  {
    hide Exec, Traps, ExecLoad, ExecStore, ExecCop, Jumps, JumpTarget, SameRegs, Write, DceReads, DceDest, IsAluWord,
         IsBranch, LinkOf, IsLoad, IsStore, IsPsxWord, Add;
    if IsAluWord(w) {
      AluAligns(w, s.regs, t.regs, live, after);
    } else if IsBranch(w) {
      BranchAligns(w, pc, s.regs, t.regs, live, after);
    } else if IsLoad(w) {
      LoadAligns(dv, w, s, t, live, after);
    } else if IsStore(w) {
      StoreAligns(dv, w, s, t, live, after);
    } else if w.I? {
      if w.op == 0x10 || w.op == 0x12 || w.op == 0x32 || w.op == 0x3A { CopAligns(dv, w, s, t, live, after); }
      else { OtherTraps(dv, w, s, t); }
    }
  }

  lemma Narrow(p: Regs, q: Regs, live: set<Reg>, after: set<Reg>)
    requires SameRegs(p, q, live) && after - {0} <= live
    ensures SameRegs(p, q, after)
  {
  }

  lemma LoadAligns<D>(dv: Devices<D>, w: Word, s: State<D>, t: State<D>, live: set<Reg>, after: set<Reg>)
    requires IsLoad(w) && Alike(s, t, live) && DceReads(w) <= live && after - {DceDest(w)} <= live
    ensures match ExecLoad(dv, w, s)
            case Trap => ExecLoad(dv, w, t) == Trap
            case Go(s') => ExecLoad(dv, w, t).Go? && Alike(s', ExecLoad(dv, w, t).s, after)
  {
    hide SameRegs, Misaligned, Add, SignExt;
    ReadAligns(s.regs, t.regs, live, w, w.rs);
    if w.op == 0x22 || w.op == 0x26 { ReadAligns(s.regs, t.regs, live, w, w.rt); }
    Narrow(s.regs, t.regs, live, after);
  }

  lemma StoreAligns<D>(dv: Devices<D>, w: Word, s: State<D>, t: State<D>, live: set<Reg>, after: set<Reg>)
    requires IsStore(w) && Alike(s, t, live) && DceReads(w) <= live && after - {DceDest(w)} <= live
    ensures match ExecStore(dv, w, s)
            case Trap => ExecStore(dv, w, t) == Trap
            case Go(s') => ExecStore(dv, w, t).Go? && Alike(s', ExecStore(dv, w, t).s, after)
  {
    hide SameRegs, Misaligned, Add, SignExt;
    ReadAligns(s.regs, t.regs, live, w, w.rs);
    ReadAligns(s.regs, t.regs, live, w, w.rt);
    Narrow(s.regs, t.regs, live, after);
  }

  lemma CopAligns<D>(dv: Devices<D>, w: Word, s: State<D>, t: State<D>, live: set<Reg>, after: set<Reg>)
    requires w.I? && Alike(s, t, live) && DceReads(w) <= live && after - {DceDest(w)} <= live
    requires w.op == 0x10 || w.op == 0x12 || w.op == 0x32 || w.op == 0x3A
    ensures match ExecCop(dv, w, s)
            case Trap => ExecCop(dv, w, t) == Trap
            case Go(s') => ExecCop(dv, w, t).Go? && Alike(s', ExecCop(dv, w, t).s, after)
  {
    hide SameRegs, Misaligned, Add, SignExt, Write, Address;
    assert DceDest(w) == 0;
    Narrow(s.regs, t.regs, live, after);
    if w.op == 0x32 || w.op == 0x3A {
      ReadAligns(s.regs, t.regs, live, w, w.rs);
      assert Address(w, s.regs) == Address(w, t.regs) by { AddressOf(w, s.regs, t.regs); }
    } else if w.rs == 4 || (w.op == 0x12 && w.rs == 6) {
      ReadAligns(s.regs, t.regs, live, w, w.rt);
    } else {
      Narrow(s.regs, t.regs, live, after - {w.rt});
      WriteAligns(s.regs, t.regs, after, w.rt, dv.read(w, s.dev));
    }
  }

  lemma OtherTraps<D>(dv: Devices<D>, w: Word, s: State<D>, t: State<D>)
    requires w.I? && w.op != 0x10 && w.op != 0x12 && w.op != 0x32 && w.op != 0x3A
    ensures ExecCop(dv, w, s) == Trap == ExecCop(dv, w, t)
  {
  }

  lemma AddressOf(w: Word, p: Regs, q: Regs)
    requires w.I? && p.r[w.rs] == q.r[w.rs]
    ensures Address(w, p) == Address(w, q)
  {
  }

  lemma AluAligns(w: Word, p: Regs, q: Regs, live: set<Reg>, after: set<Reg>)
    requires IsPsxWord(w) && IsAluWord(w) && SameRegs(p, q, live) && DceReads(w) <= live && after - {DceDest(w)} <= live
    ensures Traps(w, p) == Traps(w, q) && SameRegs(Exec(w, p), Exec(w, q), after)
  {
    hide AddOverflows, SubOverflows, Alu, AluImm, Shift, ProductHi, ProductLo, DivHi, DivLo, SignExt, SameRegs, Write;
    var rest := after - {DceDest(w)};
    Narrow(p, q, live, rest);
    if w.rs in RawReads(w) { ReadAligns(p, q, live, w, w.rs); }
    if w.R? && w.rt in RawReads(w) { ReadAligns(p, q, live, w, w.rt); }
    HiLoAligns(p, q, live);
    if w.I? {
      LuiIgnores(p.r[w.rs], q.r[w.rs], w.imm);
      WriteAligns(p, q, after, w.rt, AluImm(w.op, p.r[w.rs], w.imm));
    } else if w.fn == 0x11 || w.fn == 0x13 || 0x18 <= w.fn <= 0x1B {
      assert DceDest(w) == 0;
      Narrow(p, q, live, after);
      SetHiLoAligns(p, q, after, Exec(w, p), Exec(w, q));
    } else {
      var a, b := p.r[w.rs], p.r[w.rt];
      WriteAligns(p, q, after, w.rd, if IsShift(w.fn) then Shift(w.fn, b, w.sa)
        else if w.fn == 0x10 then p.hi else if w.fn == 0x12 then p.lo else Alu(w.fn, a, b));
    }
  }

  lemma LuiIgnores(a: bv32, b: bv32, imm: bv16)
    ensures AluImm(0x0F, a, imm) == AluImm(0x0F, b, imm)
  {
  }

  lemma HiLoAligns(p: Regs, q: Regs, live: set<Reg>)
    requires SameRegs(p, q, live)
    ensures p.hi == q.hi && p.lo == q.lo
  {
  }

  lemma SetHiLoAligns(p: Regs, q: Regs, live: set<Reg>, p': Regs, q': Regs)
    requires SameRegs(p, q, live) && p'.r == p.r && q'.r == q.r && p'.hi == q'.hi && p'.lo == q'.lo
    ensures SameRegs(p', q', live)
  {
  }

  lemma BranchAligns(w: Word, pc: bv32, p: Regs, q: Regs, live: set<Reg>, after: set<Reg>)
    requires IsPsxWord(w) && IsBranch(w) && SameRegs(p, q, live) && DceReads(w) <= live && after - {DceDest(w)} <= live
    ensures Jumps(w, p) == Jumps(w, q) && JumpTarget(w, p, Add(pc, 4)) == JumpTarget(w, q, Add(pc, 4))
    ensures SameRegs(Write(p, LinkOf(w), Add(pc, 8)), Write(q, LinkOf(w), Add(pc, 8)), after)
  {
    hide Add, Offset, RegionTarget;
  }

  /** A live instruction does the same in both runs. */
  lemma LiveAligns<D>(dv: Devices<D>, w: Word, pc: bv32, s: State<D>, t: State<D>, after: set<Reg>)
    requires IsPsxWord(w) && !Dead(w, after) && Related(s, t, Before(w, after))
    ensures match Step(dv, w, pc, s)
            case Trap => Step(dv, w, pc, t) == Trap
            case Go(s') => Step(dv, w, pc, t).Go? && Related(s', Step(dv, w, pc, t).s, after)
  {
    hide Commit, Execute, SameRegs, WritesGpr, IsLoad, IsPsxWord, DceReads, DceDest, DcePure;
    CommitAligns(s, t, Before(w, after));
    ExecuteAligns(dv, w, pc, Commit(s), Commit(t), Before(w, after), after);
  }

  /** A dead instruction that does not trap leaves the runs related when one skips it. */
  lemma DeadAligns<D>(dv: Devices<D>, w: Word, pc: bv32, s: State<D>, t: State<D>, after: set<Reg>)
    requires IsPsxWord(w) && Dead(w, after) && Related(s, t, after)
    ensures Step(dv, NOP, pc, t).Go?
    ensures Step(dv, w, pc, s).Go? ==> Related(Step(dv, w, pc, s).s, Step(dv, NOP, pc, t).s, after)
  {
    hide Commit, SameRegs;
    CommitAligns(s, t, after);
    var s1, t1 := Commit(s), Commit(t);
    NopKeeps(dv, pc, t1);
    if Execute(dv, w, pc, s1).Go? { DeadExecutes(dv, w, pc, s1, t1, after); }
  }

  lemma NopKeeps<D>(dv: Devices<D>, pc: bv32, t: State<D>)
    ensures Execute(dv, NOP, pc, t) == Go(t) && Cancel(NOP, t) == t
  {
  }

  lemma DeadExecutes<D>(dv: Devices<D>, w: Word, pc: bv32, s: State<D>, t: State<D>, after: set<Reg>)
    requires IsPsxWord(w) && Dead(w, after) && Alike(s, t, after) && Execute(dv, w, pc, s).Go?
    ensures Related(Cancel(w, Execute(dv, w, pc, s).s), t, after)
  {
    hide SameRegs, Write, Exec, Traps;
    var d := DceDest(w);
    PureIsAlu(dv, w, pc, s);
    var x := ExecWrites(w, s.regs);
    WriteDead(s.regs, t.regs, after, d, x);
  }

  lemma PureIsAlu<D>(dv: Devices<D>, w: Word, pc: bv32, s: State<D>)
    requires IsPsxWord(w) && DcePure(w) && Execute(dv, w, pc, s).Go?
    ensures IsAluWord(w) && !IsLoad(w) && Execute(dv, w, pc, s) == Go(s.(regs := Exec(w, s.regs)))
    ensures DceDest(w) != 0 ==> forall r: Reg :: r != 0 ==> (WritesGpr(w, r) <==> r == DceDest(w))
  {
    hide Exec, Traps;
  }

  lemma ExecWrites(w: Word, p: Regs) returns (x: bv32)
    requires IsPsxWord(w) && IsAluWord(w) && DcePure(w) && DceDest(w) != 0
    ensures Exec(w, p) == Write(p, DceDest(w), x)
  {
    x := Exec(w, p).r[DceDest(w)];
  }

  // ---- Whole blocks ---------------------------------------------------------------------

  /** From related states the thinned run does what the original does, as long as the original
      does not trap at a dead instruction; if it does, the thinned run goes past that one. */
  lemma {:induction false} Simulation<D>(dv: Devices<D>, block: seq<Word>, k: nat, pc: bv32, s: State<D>, t: State<D>)
    requires k <= |block| && (forall i :: 0 <= i < |block| ==> IsPsxWord(block[i]))
    requires Related(s, t, LiveAt(block, k))
    ensures var o := Run(dv, block, k, pc, s);
            var o' := Run(dv, Thinned(block), k, pc, t);
            if o.Trapped? && o.at in DeadSet(block) then o'.Trapped? ==> o'.at > o.at else o' == o
    decreases |block| - k
  {
    hide Step, Related, Dead, Before, LiveAt, IsPsxWord;
    if k == |block| {
      EndEqual(s, t, block);
    } else {
      var w, after := block[k], LiveAt(block, k + 1);
      LiveAtStep(block, k);
      if Dead(w, after) {
        DeadBefore(w, after);
        DeadAligns(dv, w, pc, s, t, after);
      } else {
        LiveAligns(dv, w, pc, s, t, after);
      }
      if Step(dv, w, pc, s).Go? {
        Simulation(dv, block, k + 1, Add(pc, 4), Step(dv, w, pc, s).s, Step(dv, Thinned(block)[k], pc, t).s);
      }
    }
  }

  /** At the end of the block every register is live, so related states are equal. */
  lemma EndEqual<D>(s: State<D>, t: State<D>, block: seq<Word>)
    requires Related(s, t, LiveAt(block, |block|))
    ensures s == t
  {
    LiveAtEnd(block);
    assert forall r: Reg :: r in ALL;
    assert s.regs.r == t.regs.r;
  }

  /** Dropping the dead words of a block changes nothing that a run can see - registers, HI
      and LO, devices, the branch taken, the loads under way, and where it traps - exactly
      when the run does not trap at a dead word. */
  lemma EliminationIsExact<D>(dv: Devices<D>, block: seq<Word>, pc: bv32, s: State<D>)
    requires (forall i :: 0 <= i < |block| ==> IsPsxWord(block[i])) && s.regs.r[0] == 0
    ensures var o := Run(dv, block, 0, pc, s);
            Run(dv, Thinned(block), 0, pc, s) == o <==> !(o.Trapped? && o.at in DeadSet(block))
  {
    Simulation(dv, block, 0, pc, s, s);
  }

  /** ADD $8, $9, $9 before another write to $8 is dead; with 7FFFFFFFh in $9 it overflows,
      and dropping it hides the exception. */
  lemma DeadAddHidesOverflow<D>(dv: Devices<D>, pc: bv32, s: State<D>)
    requires s.commitReg == 0 == s.delayReg && s.regs.r[9] == 0x7FFF_FFFF
    ensures var block := [R(0, 9, 9, 8, 0, 0x20), I(0x09, 0, 8, 0)];
            Run(dv, block, 0, pc, s) == Trapped(0) && Run(dv, Thinned(block), 0, pc, s).Done?
  {
    var add, next := R(0, 9, 9, 8, 0, 0x20), I(0x09, 0, 8, 0);
    var block := [add, next];
    LiveAtEnd(block);
    LiveAtStep(block, 1);
    assert Dead(add, LiveAt(block, 1)) && !Dead(next, ALL);
    assert Traps(add, s.regs);
    NopKeeps(dv, pc, s);
    assert Thinned(block)[0] == NOP && Thinned(block)[1] == next;
    assert Step(dv, NOP, pc, s) == Go(s);
    assert Step(dv, next, Add(pc, 4), s).Go?;
    assert Run(dv, Thinned(block), 1, Add(pc, 4), s).Done?;
  }
}
