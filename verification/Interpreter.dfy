/** run_interpreter_chain: the program counter, branch delay slots and cycle counting
    around the register instructions of Psx. */
module Interpreter {
  import opened Mips
  import opened Psx
  import opened BlockScan

  /** branch: 0 no branch pending, 1 or 2 a branch to target whose delay slot is next. */
  datatype Cpu = Cpu(regs: Regs, pc: bv32, target: bv32, branch: int, cycles: nat)

  /** The instructions modelled here: register arithmetic, branches and jumps. */
  predicate InFragment(w: Word) {
    IsPsxWord(w) && (IsAluWord(w) || IsBranch(w))
  }

  function CycleCost(w: Word): nat {
    if w.R? && (w.fn == 0x18 || w.fn == 0x19) then 6
    else if w.R? && (w.fn == 0x1A || w.fn == 0x1B) then 2
    else if w.I? && (0x20 <= w.op <= 0x26 || w.op == 0x32) then 2
    else 1
  }

  function Offset(w: Word): bv32
    requires w.I?
  {
    SignExt(w.imm) << 2
  }

  predicate IsRegisterJump(w: Word) { w.R? && (w.fn == 0x08 || w.fn == 0x09) }

  /** Whether the branch or jump w is taken. */
  predicate Jumps(w: Word, p: Regs)
    requires IsBranch(w)
  {
    if !w.I? then true
    else
      var a, b := p.r[w.rs], p.r[w.rt];
      if w.op == 0x04 then a == b
      else if w.op == 0x05 then a != b
      else if w.op == 0x06 then !Positive(a)
      else if w.op == 0x07 then Positive(a)
      else (w.rt % 2 == 0) == Negative(a)
  }

  predicate Positive(v: bv32) { v != 0 && !Negative(v) }

  /** Where it goes; next is the address of the delay slot. */
  function JumpTarget(w: Word, p: Regs, next: bv32): bv32
    requires IsBranch(w)
  {
    match w
    case J(_, target) => RegionTarget(next, target)
    case I(_, _, _, _) => Add(next, Offset(w))
    case R(_, rs, _, _, _, _) => p.r[rs]
    case _ => 0
  }

  function RegionTarget(next: bv32, target: bv26): bv32 {
    (next & 0xF000_0000) | ((target as bv32) << 2)
  }

  /** The register that receives the return address; 0 stands for none. */
  function LinkOf(w: Word): Reg {
    match w
    case J(op, _) => if op == 3 then 31 else 0
    case I(op, _, rt, _) => if op == 1 && (rt == 0x10 || rt == 0x11) then 31 else 0
    case R(_, _, _, rd, _, fn) => if fn == 0x09 then rd else 0
    case _ => 0
  }

  /** One trip round the interpreter's loop, for an instruction that does not trap. */
  function Next(w: Word, c: Cpu): (c': Cpu)
    requires InFragment(w)
    ensures c'.cycles == c.cycles + CycleCost(w)
  {
    var next := Add(c.pc, 4);
    var c1 := c.(pc := next, cycles := c.cycles + CycleCost(w));
    if IsAluWord(w) then Settle(c1.(regs := Exec(w, c.regs)))
    else
      var c2 := c1.(regs := Write(c.regs, LinkOf(w), Add(next, 4)));
      if Jumps(w, c.regs) then Settle(c2.(branch := 1, target := JumpTarget(w, c.regs, next)))
      else Settle(c2)
  }

  /** Branches are executed after the delay slot. */
  function Settle(c: Cpu): Cpu {
    if c.branch == 2 then c.(pc := c.target, branch := 0)
    else if c.branch == 1 then c.(branch := 2)
    else c
  }

  /** The next instruction is outside the fragment or raises an exception. */
  predicate Stops(w: Word, c: Cpu) {
    !InFragment(w) || (IsAluWord(w) && Traps(w, c.regs))
  }

  /** n instructions of the interpreter; it stands still where it stops. */
  function Chain(fetch: bv32 -> Word, c: Cpu, n: nat): Cpu {
    if n == 0 then c
    else
      var d := Chain(fetch, c, n - 1);
      var w := fetch(d.pc);
      if Stops(w, d) then d else Next(w, d)
  }

  lemma {:induction false} ChainJoins(fetch: bv32 -> Word, c: Cpu, n: nat, k: nat)
    ensures Chain(fetch, c, n + k) == Chain(fetch, Chain(fetch, c, n), k)
  {
    hide Stops, Next;
    if k > 0 { ChainJoins(fetch, c, n, k - 1); }
  }
}
