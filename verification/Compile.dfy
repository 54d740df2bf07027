/** The pieces of compile_block: skipping a dead word, and how a run of the emitted code
    gets out of it while more code is appended and open branches are patched. */
module Compile {
  import opened Mips
  import opened Psx
  import opened Native
  import opened Tracking
  import opened Slots
  import opened BlockScan
  import opened Interpreter
  import opened Emission
  import opened Exits
  import opened Branches
  import opened Plan

  /** A dead word: nothing is emitted and its destination d is no longer tracked.  A constant
      of d that no code has computed yet is lost. */
  method Skip(e: Emitter, d: Reg, ghost p: Regs, ghost known: set<Reg>)
    requires e.Ok() && e.Matches(p, known)
    modifies e`st
    ensures e.Ok() && e.Extends() && e.st == old(e.st).Forget(d)
    ensures e.Matches(p, if old(e.st).vregs[d].Lazy() then known - {d} else known)
  {
    hide Agrees, Falls, ReservedOf, e.st.Shape;
    if e.Following() {
      if e.st.vregs[d].Lazy() { LazyForgotten(e.st, e.mach, p, known, d); }
      else { Forgotten(e.st, e.mach, p, known, d); }
    }
    e.st := e.st.Forget(d);
  }

  /** More cycles than any super-block takes. */
  const MAX_CYCLES := 2048

  lemma SmallCharge(n: nat)
    requires n < MAX_CYCLES
    ensures n as bv32 < MAX_CHARGE
  {
    assert n as bv32 < 2048;
  }

  // ---- Side exits ------------------------------------------------------------------------

  /** A conditional branch whose taken path is compiled at the end of the super-block. */
  datatype Deferred = Deferred(at: nat, target: bv32, cycles: nat, saved: View)

  /** Where the run under the emitter is: still on the path being compiled, gone by the
      branch of d but its exit not compiled yet, or out of the compiled code. */
  datatype Trip =
    | Going
    | Departed(d: Deferred, m: Machine, c: Cpu, n: nat)
    | Landed(at: nat, m: Machine, from: int, exit: Exit)

  /** How a run leaves the block: destination and machine, and the interpreter there. */
  datatype Exit = Exit(dest: Dest, m: Machine, c: Cpu, n: nat, cycles: nat)

  const BNE_AT := Br(0x05, AT, 0, 0)

  /** The interpreter reaches c after the n first words, at the start of an instruction
      at pc, having spent `cycles`. */
  ghost predicate Reached(fetch: bv32 -> Word, c0: Cpu, c: Cpu, n: nat, pc: bv32, cycles: nat) {
    n > 0 && Straight(fetch, c0, n) && c == Chain(fetch, c0, n) && c.branch == 0 && c.pc == pc && c.cycles == c0.cycles + cycles
  }

  ghost predicate DepartedAt(code: seq<Word>, m0: Machine, d: Deferred, m: Machine) {
    d.at + 1 < |code| && code[d.at] == BNE_AT && code[d.at + 1] == NOP &&
    Falls(code, 0, m0, d.at, m) && m.gpr[AT] != 0 == m.gpr[0] && Fixed(m) == Fixed(m0)
  }

  /** The run from m0 comes to index at in state m, by falling through or by one branch. */
  ghost predicate Comes(code: seq<Word>, m0: Machine, at: nat, m: Machine, from: int) {
    if from < 0 then Falls(code, 0, m0, at, m)
    else
      from + 1 < at && from + 1 < |code| && code[from] == BNE_AT.(off := at - from - 1) && code[from + 1] == NOP &&
      Falls(code, 0, m0, from, m) && m.gpr[AT] != 0 == m.gpr[0]
  }

  ghost predicate LandedAt(code: seq<Word>, m0: Machine, at: nat, m: Machine, from: int, x: Exit) {
    at < |code| && Comes(code, m0, at, m, from) && RunFrom(code, at, m) == Left(x.dest, x.m)
  }

  lemma LandedRuns(code: seq<Word>, m0: Machine, at: nat, m: Machine, from: int, x: Exit)
    requires LandedAt(code, m0, at, m, from, x)
    ensures RunFrom(code, 0, m0) == Left(x.dest, x.m)
  {
    hide RunFrom, Falls, Step;
    if from < 0 {
      FallsRuns(code, 0, m0, at, m);
    } else {
      FallsRuns(code, 0, m0, from, m);
      BranchGoes(code, from, at, m);
    }
  }

  lemma BranchGoes(code: seq<Word>, from: nat, at: nat, m: Machine)
    requires from + 1 < |code| && code[from] == BNE_AT.(off := at - from - 1) && code[from + 1] == NOP
    requires from + 1 < at && m.gpr[AT] != 0 == m.gpr[0]
    ensures RunFrom(code, from, m) == RunFrom(code, at, m)
  {
    hide Step;
    NopStep(m);
  }

  /** b continues a, except that branches before k other than `from` may be patched. */
  ghost predicate Later(a: seq<Word>, b: seq<Word>, k: nat, from: int) {
    k <= |a| <= |b| && Patched(a, b, k) && (forall i :: k <= i < |a| ==> b[i] == a[i]) &&
    (0 <= from && from + 1 < k ==> b[from] == a[from] && b[from + 1] == a[from + 1])
  }

  lemma {:induction false} RunExtends(a: seq<Word>, b: seq<Word>, k: nat, pc: nat, m: Machine)
    requires k <= pc && |a| <= |b| && (forall i :: k <= i < |a| ==> b[i] == a[i])
    requires RunFrom(a, pc, m).Left?
    ensures RunFrom(b, pc, m) == RunFrom(a, pc, m)
    decreases |a| - pc
  {
    hide Step, Taken;
    if a[pc].Goto? {
    } else if a[pc].Br? {
      var m' := Step(a[pc + 1], m);
      if Taken(a[pc], m) {
        RunExtends(a, b, k, pc + 1 + a[pc].off, m');
      } else {
        RunExtends(a, b, k, pc + 2, m');
      }
    } else {
      RunExtends(a, b, k, pc + 1, Step(a[pc], m));
    }
  }

  lemma LandedKeeps(a: seq<Word>, b: seq<Word>, m0: Machine, at: nat, m: Machine, from: int, x: Exit)
    requires LandedAt(a, m0, at, m, from, x) && Later(a, b, at, from)
    ensures LandedAt(b, m0, at, m, from, x)
  {
    hide Falls, RunFrom;
    RunExtends(a, b, at, at, m);
    if from < 0 {
      FallsPatched(a, b, 0, m0, at, m);
    } else {
      FallsPatched(a, b, 0, m0, from, m);
    }
  }

  lemma DepartedKeeps(a: seq<Word>, b: seq<Word>, m0: Machine, d: Deferred, m: Machine)
    requires DepartedAt(a, m0, d, m) && |a| <= |b| && Patched(a, b, |a|)
    requires b[d.at] == a[d.at] && b[d.at + 1] == a[d.at + 1]
    ensures DepartedAt(b, m0, d, m)
  {
    hide Falls;
    FallsPatched(a, b, 0, m0, d.at, m);
  }
}
