/** compile_block: a super-block of up to four sub-blocks and its deferred side exits.

    Beside the compiler's own state runs the interpreter: `cpu` is its state after the
    instructions compiled so far, while the machine under the emitter follows it. */
module SuperBlock {
  import opened Mips
  import opened Psx
  import opened Native
  import opened Tracking
  import opened Slots
  import opened BlockScan
  import opened Interpreter
  import opened Emission
  import opened Exits
  import opened Instructions
  import opened Branches
  import opened Plan
  import opened Compile
  import Dce

  /** What the interpreter is about to do after the delay slot at pc. */
  ghost predicate Awaits(pending: Pending, c: Cpu, m: Machine, pc: bv32) {
    match pending
    case Nothing => c.branch == 0
    case Always(t) => if c.branch == 2 then c.target == t else c.branch == 0 && t == Add(pc, 4)
    case Cond(t) => if Ld(m, COND) != 0 then c.branch == 2 && c.target == t else c.branch == 0
    case Through(g) => c.branch == 2 && c.target == Ld(m, CpuPc) && (g.Guess? ==> g.pc == c.target)
  }

  /** Where control goes after the delay slot; pc is the address after it. */
  function Destination(pending: Pending, m: Machine, pc: bv32): bv32 {
    match pending
    case Nothing => pc
    case Always(t) => t
    case Cond(t) => if Ld(m, COND) != 0 then t else pc
    case Through(_) => Ld(m, CpuPc)
  }

  lemma Resolves(pending: Pending, c: Cpu, m: Machine, m': Machine, w: Word)
    requires InFragment(w) && IsAluWord(w) && Awaits(pending, c, m, c.pc) && ReservedOf(m') == ReservedOf(m)
    ensures var c' := Next(w, c);
            c'.branch == 0 && c'.pc == Destination(pending, m', Add(c.pc, 4))
    ensures pending.Through? && pending.guess.Guess? ==> pending.guess.pc == Ld(m', CpuPc)
    ensures pending.Cond? && Ld(m', COND) != 0 ==> c.branch == 2
  {
    hide Exec, Add;
    assert ReservedOf(m').cond == Ld(m', COND) && ReservedOf(m).cond == Ld(m, COND);
    assert ReservedOf(m').pc == Ld(m', CpuPc) && ReservedOf(m).pc == Ld(m, CpuPc);
  }

  // ---- Side exits ------------------------------------------------------------------------

  /** Every deferred branch is in the code, unpatched, with the register tables at it. */
  ghost predicate Marked(code: seq<Word>, home: HomeMap, ds: seq<Deferred>) {
    (forall i :: 0 <= i < |ds| ==> MarkedOne(code, home, ds[i])) &&
    forall i, j :: 0 <= i < j < |ds| ==> ds[i].at != ds[j].at
  }

  ghost predicate MarkedOne(code: seq<Word>, home: HomeMap, d: Deferred) {
    d.at + 1 < |code| && code[d.at] == BNE_AT && code[d.at + 1] == NOP &&
    d.saved.Shape() && d.saved.home == home && d.cycles < MAX_CYCLES
  }

  lemma MarkedKeeps(a: seq<Word>, b: seq<Word>, home: HomeMap, ds: seq<Deferred>)
    requires Marked(a, home, ds) && a <= b
    ensures Marked(b, home, ds)
  {
    hide MarkedOne;
    forall i | 0 <= i < |ds| ensures MarkedOne(b, home, ds[i]) {
      assert MarkedOne(a, home, ds[i]);
      MarkedOneKeeps(a, b, home, ds[i]);
    }
  }

  lemma MarkedOneKeeps(a: seq<Word>, b: seq<Word>, home: HomeMap, d: Deferred)
    requires MarkedOne(a, home, d) && a <= b
    ensures MarkedOne(b, home, d)
  {
  }

  /** The branch of d, patched to go to the end of the code. */
  function Patch(a: seq<Word>, d: Deferred): seq<Word>
    requires d.at < |a|
  {
    a[d.at := BNE_AT.(off := |a| - d.at - 1)]
  }

  /** A run that left by the branch of d stands where the tables saved in d say. */
  ghost predicate Away(code: seq<Word>, fetch: bv32 -> Word, slots: SlotMap, m0: Machine, c0: Cpu, trip: Trip)
    requires trip.Departed?
  {
    DepartedAt(code, m0, trip.d, trip.m) && !trip.d.saved.misread &&
    Agrees(trip.d.saved, trip.m, ThinAt(fetch, c0, trip.n), Known(fetch, c0.pc, slots, trip.n)) &&
    Reached(fetch, c0, trip.c, trip.n, trip.d.target, trip.d.cycles) && Branched(fetch, c0, trip.n)
  }

  lemma AwayKeeps(a: seq<Word>, b: seq<Word>, fetch: bv32 -> Word, slots: SlotMap, m0: Machine, c0: Cpu, trip: Trip)
    requires trip.Departed? && Away(a, fetch, slots, m0, c0, trip) && a <= b
    ensures Away(b, fetch, slots, m0, c0, trip)
  {
    hide Agrees, Reached, ThinAt, Known, Branched;
    DepartedKeeps(a, b, m0, trip.d, trip.m);
  }

  /** The property of a finished exit: the interpreter has executed the first n words, its
      cycles are charged, its next pc is where control goes, and the registers hold what
      those words leave behind when dead ones are skipped. */
  ghost predicate Faithful(fetch: bv32 -> Word, slots: SlotMap, m0: Machine, c0: Cpu, x: Exit) {
    Reached(fetch, c0, x.c, x.n, x.c.pc, x.cycles) && x.cycles < MAX_CYCLES &&
    HandsOver(m0, x.m, x.cycles as bv32, ThinAt(fetch, c0, x.n), Known(fetch, c0.pc, slots, x.n), x.c.pc) &&
    (x.dest == Dispatch || x.dest == ExitTo(x.m, x.c.pc))
  }

  lemma NothingMarked(code: seq<Word>, home: HomeMap)
    ensures Marked(code, home, [])
  {
  }

  /** block_scan from word n on. */
  method ScanAt(fetch: bv32 -> Word, base: bv32, n: nat) returns (scan: Scan)
    ensures scan.dead == DeadSet(BlockAt(fetch, base, n))
    ensures |scan.uses| == 32 && scan.uses == UsesOf(BlockAt(fetch, base, n))
    ensures scan.writeFirst == WriteFirstSet(BlockAt(fetch, base, n))
  {
    hide LiveAt, Uses, WriteFirst, WrittenIn, ReadIn, IsBranch, IsTrap, WordAt, DeadSet, Extent;
    var words := WordsFrom(fetch, base, n);
    scan := BlockScan.Run(words, SCAN_MAX);
    assert words[..scan.count] == BlockAt(fetch, base, n);
  }

  method SlotsFor(uses: UseCounts) returns (s: SlotMap)
    ensures s.Valid() && IsAssignment(uses, s)
  {
    hide Score, Unscored, s.Valid;
    var used;
    s, used := Slots.Assign(uses);
  }

  /** The entry of a block: slots are assigned and filled. */
  method Begin(s: SlotMap, writeFirst: set<Reg>, ghost m0: Machine, ghost p: Regs)
    returns (e: Emitter)
    requires s.Valid() && AtHome(m0, p, ALL)
    ensures fresh(e) && e.Ok() && e.start == 0 && e.startMach == m0 && e.st == Entered(s, writeFirst)
    ensures Fixed(e.mach) == Fixed(m0) && e.Matches(p, ALL) && !e.taken
  {
    hide Agrees, Falls, ReservedOf, AtHome, s.Valid;
    EntryShape(s);
    EntryAgrees(s, m0, p, ALL);
    e := new Emitter(EntryView(s), m0);
    FallsHere(e.code, m0);
    HomeZero(m0, p);
    LoadSlots(e, s, writeFirst, p, ALL);
  }

  lemma HomeZero(m: Machine, p: Regs)
    requires AtHome(m, p, ALL)
    ensures m.gpr[0] == 0 == p.r[0]
  {
  }

  class Compiler {
    const e: Emitter
    const fetch: bv32 -> Word
    const base: bv32
    const slots: SlotMap
    ghost const m0: Machine
    ghost const c0: Cpu

    /** Words taken so far, and the address of the next one. */
    var index: nat
    var pc: bv32
    var cycles: nat
    var mults: nat
    var pending: Pending
    /** The current sub-block: its first word and its dead words. */
    var subStart: nat
    var dead: set<int>
    var deferred: seq<Deferred>
    var ended: bool

    ghost var cpu: Cpu
    /** The interpreter came to an instruction that raises an exception. */
    ghost var stopped: bool
    ghost var trip: Trip

    // ---- Invariants ------------------------------------------------------------------

    ghost predicate Static()
      reads e
    {
      slots.Valid() && e.Ok() && e.start == 0 && e.startMach == m0 && e.st.home == slots.Homes() &&
      Fixed(e.mach) == Fixed(m0)
    }

    ghost predicate Scanned()
      reads `index, `subStart, `pc, `dead
    {
      subStart <= index && pc == PcAt(base, index) && dead == DeadSet(BlockAt(fetch, base, subStart))
    }

    /** Deferred exits so far; h says that a stale scratch register voids everything. */
    ghost predicate SideExits(code: seq<Word>, taken: bool, h: bool, n: nat)
      reads `trip, `deferred, `stopped
    {
      Marked(code, slots.Homes(), deferred) && !trip.Landed? &&
      (h || stopped ||
       if trip.Going? then !taken
       else taken && trip.d in deferred && trip.n <= n && Away(code, fetch, slots, m0, c0, trip))
    }

    /** The first n words are compiled as planned, and the path went on after each. */
    ghost predicate Planned(n: nat)
      reads e
    {
      base == c0.pc && e.st == Walk(fetch, base, slots, n) && Accepted(fetch, base, slots, n) &&
      GoesOn(fetch, base, slots, n) && e.Matches(ThinAt(fetch, c0, n), Known(fetch, base, slots, n))
    }

    ghost predicate Core()
      reads `index, `pc, `cycles, `subStart, `dead, `deferred, `cpu, `stopped, `trip, e
    {
      Static() && Scanned() && Planned(index) && SideExits(e.code, e.taken, e.st.misread, index) && cycles <= 6 * index &&
      cpu == Chain(fetch, c0, index) && c0.regs.r[0] == 0 &&
      (stopped ==> !e.Following() && StopsInside(fetch, c0, index)) &&
      (e.Following() ==> Straight(fetch, c0, index) && cpu.cycles == c0.cycles + cycles)
    }

    ghost predicate Bounds()
      reads this
    {
      index <= 200 && index - subStart <= 64 &&
      (pending.Nothing? ==> index < 200 && index - subStart < 64) &&
      subStart == StartOf(fetch, base, index) && |deferred| == Depth(fetch, base, index) &&
      (pending.Nothing? <==> !InSlot(fetch, base, index)) &&
      (pending.Cond? <==> index > 0 && RunTime(fetch, base, slots, index - 1)) && !Ends(fetch, base, slots, index)
    }

    /** Between two instructions. */
    ghost predicate Valid()
      reads this, e
    {
      Core() && Bounds() && (e.Following() ==> cpu.pc == pc && Awaits(pending, cpu, e.mach, pc))
    }

    // ---- Beginning ---------------------------------------------------------------------

    /** The block starts at base; the machine m0 is at home in the interpreter's state c0. */
    constructor (fetch: bv32 -> Word, base: bv32, ghost m0: Machine, ghost c0: Cpu)
      requires AtHome(m0, c0.regs, ALL) && c0.pc == base && c0.branch == 0
      ensures Valid() && fresh(e) && !ended
      ensures this.fetch == fetch && this.base == base && this.m0 == m0 && this.c0 == c0
      ensures slots.Valid() && SlotsFit(fetch, base, slots)
    {
      hide Agrees, Falls, ReservedOf, AtHome, Marked, Fixed, StopsInside, Straight, Chain, BlockAt, DeadSet, UsesOf,
           WriteFirstSet, Entered, IsAssignment, Walk, Accepted, GoesOn, Ends, ThinAt, Known, InSlot, StartOf, Depth, RunTime,
           PcAt;
      var scan := ScanAt(fetch, base, 0);
      var s := SlotsFor(scan.uses);
      HomeZero(m0, c0.regs);
      PlanStarts(fetch, c0, s);
      var em := Begin(s, scan.writeFirst, m0, c0.regs);
      e := em;
      this.fetch, this.base, slots, this.m0, this.c0 := fetch, base, s, m0, c0;
      index, pc, cycles, mults, pending := 0, base, 0, 0, Nothing;
      subStart, dead := 0, scan.dead;
      deferred, ended := [], false;
      cpu, stopped, trip := c0, false, Going;
      new;
      NothingMarked(e.code, slots.Homes());
    }

    // ---- Single instructions ------------------------------------------------------------

    lemma SideExitsKeep(a: seq<Word>, taken: bool, h: bool, b: seq<Word>, taken': bool, h': bool)
      requires SideExits(a, taken, h, index) && a <= b && (h ==> h') && (h' || stopped || taken' == taken)
      ensures SideExits(b, taken', h', index)
    {
      hide Marked, Away;
      MarkedKeeps(a, b, slots.Homes(), deferred);
      if trip.Departed? && !h' && !stopped { AwayKeeps(a, b, fetch, slots, m0, c0, trip); }
    }

    /** If the next instruction would raise an exception, the run is not followed further. */
    ghost method StopIfTraps(w: Word)
      requires Core() && InFragment(w) && IsAluWord(w) && w == fetch(pc) && (e.Following() ==> cpu.pc == pc)
      modifies this`stopped, e`taken
      ensures Static() && Scanned() && Planned(index) && SideExits(e.code, e.taken, e.st.misread, index)
      ensures stopped ==> !e.Following() && StopsInside(fetch, c0, index + 1)
      ensures e.Following() ==> old(e.Following()) && Straight(fetch, c0, index + 1) && cpu.cycles == c0.cycles + cycles
    {
      hide Agrees, Falls, Marked, Away, Traps, Chain, Walk, Accepted, GoesOn, ThinAt, Known, StopsInside, Straight, DeadSet,
           BlockAt, IsAluWord, IsPsxWord, PcAt;
      if stopped { StopsLater(fetch, c0, index); }
      if e.Following() {
        if Traps(w, cpu.regs) {
          StopsHere(fetch, c0, index, w);
          stopped := true;
          e.taken := true;
        } else {
          StraightOn(fetch, c0, index, w);
        }
      }
    }

    /** The code for w is there, but the compiler has not moved on. */
    ghost predicate Half(w: Word)
      reads `index, `pc, `cycles, `subStart, `dead, `deferred, `cpu, `stopped, `trip, e
    {
      Static() && Scanned() && Planned(index + 1) && SideExits(e.code, e.taken, e.st.misread, index) && cycles <= 6 * index &&
      cpu == Chain(fetch, c0, index) && c0.regs.r[0] == 0 && w == fetch(pc) &&
      (stopped ==> !e.Following() && StopsInside(fetch, c0, index + 1)) &&
      (e.Following() ==> Straight(fetch, c0, index + 1) && cpu.pc == pc && cpu.cycles == c0.cycles + cycles)
    }

    /** The compiler moves on to the next word. */
    method Advance(w: Word)
      requires InFragment(w) && Half(w)
      modifies this`index, this`pc, this`cycles, this`mults, this`cpu
      ensures index == old(index) + 1 && pc == Add(old(pc), 4)
      ensures Core() && (e.Following() ==> cpu == Next(w, old(cpu)))
    {
      hide *;
      HalfWord(w);
      SideExitsOn(e.code, e.taken, e.st.misread, index);
      mults := mults + if w.R? && (w.fn == 0x18 || w.fn == 0x19) then 1 else 0;
      index, pc, cycles, cpu := index + 1, Add(pc, 4), cycles + CycleCost(w), Chain(fetch, c0, index + 1);
      CoreAgain();
    }

    lemma SideExitsOn(code: seq<Word>, taken: bool, h: bool, n: nat)
      requires SideExits(code, taken, h, n)
      ensures SideExits(code, taken, h, n + 1)
    {
      hide Marked, Away;
    }

    /** Core, put together. */
    lemma CoreAgain()
      requires Static() && Planned(index) && SideExits(e.code, e.taken, e.st.misread, index) && c0.regs.r[0] == 0
      requires subStart <= index && pc == PcAt(base, index) && dead == DeadSet(BlockAt(fetch, base, subStart))
      requires cycles <= 6 * index && cpu == Chain(fetch, c0, index)
      requires stopped ==> !e.Following() && StopsInside(fetch, c0, index)
      requires e.Following() ==> Straight(fetch, c0, index) && cpu.cycles == c0.cycles + cycles
      ensures Core()
    {
      hide Static, Planned, SideExits, DeadSet, BlockAt, PcAt, Chain, StopsInside, Straight;
    }

    /** What Half says of the state that Advance comes to. */
    lemma HalfWord(w: Word)
      requires InFragment(w) && Half(w)
      ensures Static() && Planned(index + 1) && SideExits(e.code, e.taken, e.st.misread, index) && c0.regs.r[0] == 0
      ensures subStart <= index && Add(pc, 4) == PcAt(base, index + 1) && dead == DeadSet(BlockAt(fetch, base, subStart))
      ensures cycles + CycleCost(w) <= 6 * (index + 1)
      ensures stopped ==> !e.Following() && StopsInside(fetch, c0, index + 1)
      ensures e.Following() ==>
        Straight(fetch, c0, index + 1) && Chain(fetch, c0, index + 1) == Next(w, cpu) &&
        Chain(fetch, c0, index + 1).cycles == c0.cycles + cycles + CycleCost(w)
    {
      hide Agrees, Falls, ReservedOf, Marked, Away, Chain, Next, StopsInside, Straight, Stops, Static, CycleCost, Add, Planned,
           InFragment, IsBranch, IsAluWord, PcAt, WordAt, DeadSet, BlockAt, e.Ok, slots.Valid, slots.Homes;
      if e.Following() {
        StraightLast(fetch, c0, index, w);
        ChainStep(fetch, c0, index, w);
      }
      CostBound(w);
      PcStep(base, index);
    }

    /** Compiles one register instruction. */
    method One(w: Word) returns (ok: bool)
      requires Core() && InFragment(w) && IsAluWord(w) && w == fetch(pc) && (e.Following() ==> cpu.pc == pc)
      requires subStart == StartOf(fetch, base, index) && !Ends(fetch, base, slots, index)
      modifies this`index, this`pc, this`cycles, this`mults, this`cpu, this`stopped, e
      ensures ok ==> index == old(index) + 1 && pc == Add(old(pc), 4)
      ensures !ok ==> index == old(index) && Declined(fetch, base, slots, index)
      ensures ok ==> Core() && ReservedOf(e.mach) == old(ReservedOf(e.mach))
      ensures ok && e.Following() ==> old(e.Following()) && cpu == Next(w, old(cpu))
    {
      hide Agrees, Falls, ReservedOf, Core, Half, Next, Add, Declined, Ends, StartOf;
      ok := OneHalf(w);
      if ok { Advance(w); }
    }

    method OneHalf(w: Word) returns (ok: bool)
      requires Core() && InFragment(w) && IsAluWord(w) && w == fetch(pc) && (e.Following() ==> cpu.pc == pc)
      requires subStart == StartOf(fetch, base, index) && !Ends(fetch, base, slots, index)
      modifies this`stopped, e
      ensures ok ==> Half(w) && ReservedOf(e.mach) == old(ReservedOf(e.mach))
      ensures !ok ==> Declined(fetch, base, slots, index)
      ensures ok && e.Following() ==> old(e.Following())
    {
      hide Agrees, Falls, ReservedOf, Marked, Away, Traps, Chain, Next, StopsInside, Straight, Exec, Static, DeadSet, BlockAt,
           SideExits, Covers, Add, IsAluWord, IsPsxWord, Walk, Accepted, GoesOn, ThinAt, Known, DceDest, AfterWord,
           KnownOverflow, Declined, Ends, WordAt, StartOf, PcAt, DeadAt;
      var skip := index - subStart in dead;
      WordHere(w);
      StopIfTraps(w);
      AluPlan(fetch, c0, slots, index);
      ok := Emits(w, skip, ThinAt(fetch, c0, index), Known(fetch, base, slots, index), Known(fetch, base, slots, index + 1));
      if ok { PlanStep(fetch, c0, slots, index); }
    }

    /** The next word as planned. */
    lemma WordHere(w: Word)
      requires Scanned() && w == fetch(pc) && subStart == StartOf(fetch, base, index)
      ensures w == WordAt(fetch, base, index) && DeadAt(fetch, base, index) == (index - subStart in dead)
    {
      hide DeadSet, BlockAt, PcAt, StartOf;
    }

    /** Translates w; what the emitter and the side exits guarantee afterwards. */
    method Emits(w: Word, skip: bool, ghost p: Regs, ghost before: set<Reg>, ghost live: set<Reg>) returns (ok: bool)
      requires InFragment(w) && IsAluWord(w) && Static() && e.Matches(p, before)
      requires !skip ==> Covers(before, w, live) && (e.Following() ==> !Traps(w, p))
      requires skip ==> live == if e.st.vregs[DceDest(w)].Lazy() then before - {DceDest(w)} else before
      requires SideExits(e.code, e.taken, e.st.misread, index)
      modifies e
      ensures Static() && SideExits(e.code, e.taken, e.st.misread, index)
      ensures !ok <==> !skip && KnownOverflow(old(e.st), w)
      ensures ok ==> e.Matches(if skip then p else Exec(w, p), live) && e.st == AfterWord(old(e.st), w, pc, skip)
      ensures ReservedOf(e.mach) == old(ReservedOf(e.mach)) && (e.Following() ==> old(e.Following()))
    {
      hide Agrees, Falls, ReservedOf, e.st.Shape, slots.Valid, slots.Homes, Traps, Exec, SideExits, Covers, IsAluWord,
           IsPsxWord, KnownOverflow, After, AfterBranch, DceDest;
      if skip {
        Skip(e, DceDest(w), p, before);
        ok := true;
      } else {
        ok := EmitInstruction(e, w, mults % 2 == 0, p, before, live);
      }
      SideExitsKeep(old(e.code), old(e.taken), old(e.st.misread), e.code, e.taken, e.st.misread);
      FixedSame(old(e.mach), e.mach);
    }

    // ---- Branches ------------------------------------------------------------------------

    /** Emits the part of a branch that comes before its delay slot. */
    method BranchEmits(w: Word, ghost p: Regs, ghost before: set<Reg>, ghost live: set<Reg>) returns (pend: Pending)
      requires IsPsxWord(w) && IsBranch(w) && Static() && e.Matches(p, before) && CoversBranch(before, w, live)
      modifies e
      ensures Static() && e.taken == old(e.taken) && old(e.code) <= e.code && (old(e.st.misread) ==> e.st.misread)
      ensures e.Matches(Write(p, LinkOf(w), Add(pc, 8)), live) && e.st == AfterBranch(old(e.st), w, pc)
      ensures e.Following() ==> Decided(pend, w, p, e.mach, pc)
      ensures !pend.Nothing? && (pend.Cond? <==> w.I? && !IsFolded(old(e.st), w))
    {
      hide Agrees, Falls, ReservedOf, e.st.Shape, slots.Valid, slots.Homes, IsPsxWord, IsBranch, CoversBranch, Add, Fixed,
           JumpTarget, Jumps, e.st.Linked, e.st.Copied, Compared;
      BranchShape(w, before, live);
      BranchGoal(w, p, Add(pc, 4));
      if IsRegisterJump(w) {
        var guess := EmitRegisterJump(e, w, pc, p, before, live);
        pend := Through(guess);
      } else if IsFolded(e.st, w) {
        var target := EmitFolded(e, w, pc, p, before, live);
        pend := Always(target);
      } else {
        EmitConditional(e, w, pc, p, before, live);
        pend := Cond(Add(Add(pc, 4), Offset(w)));
      }
      FixedKept(old(e.mach), e.mach);
    }

    /** A branch; its delay slot is next. */
    method AtBranch(w: Word)
      requires Valid() && pending.Nothing? && InFragment(w) && IsBranch(w) && w == fetch(pc)
      modifies this`index, this`pc, this`cycles, this`mults, this`cpu, this`pending, e
      ensures Valid() && !pending.Nothing? && index == old(index) + 1
    {
      hide Agrees, Falls, ReservedOf, Core, Half, Next, Add, IsBranch, IsPsxWord, Awaits, Ends, StartOf, Depth, InSlot, RunTime;
      ghost var c := cpu;
      var pend := BranchHalf(w);
      pending := pend;
      Advance(w);
      PastBranch(fetch, base, slots, index - 1);
    }

    /** The code for a branch is there, and its delay slot is next. */
    method BranchHalf(w: Word) returns (pend: Pending)
      requires Valid() && pending.Nothing? && InFragment(w) && IsBranch(w) && w == fetch(pc)
      modifies e
      ensures Half(w) && !pend.Nothing? && w == WordAt(fetch, base, index) && !InSlot(fetch, base, index)
      ensures pend.Cond? <==> RunTime(fetch, base, slots, index)
      ensures e.Following() ==> Awaits(pend, Next(w, cpu), e.mach, Add(pc, 4)) && Next(w, cpu).pc == Add(pc, 4)
    {
      hide Agrees, Falls, ReservedOf, Marked, Away, Chain, Next, StopsInside, Straight, Static, DeadSet, BlockAt,
           CoversBranch, Add, IsBranch, IsPsxWord, Awaits, Decided, Stops, Walk, Accepted, GoesOn, ThinAt, Known,
           DceDest, AfterBranch, KnownOverflow, Declined, Ends, WordAt, StartOf, Depth, DeadAt, PcAt, InSlot, Jumps, JumpTarget,
           SideExits, IsFolded, IsAluWord;
      WordHere(w);
      BranchPlan(fetch, c0, slots, index);
      AwaitsNothing(cpu, e.mach, pc);
      AluIsNoBranch(w);
      ghost var p := ThinAt(fetch, c0, index);
      pend := BranchEmits(w, p, Known(fetch, base, slots, index), Known(fetch, base, slots, index + 1));
      SideExitsKeep(old(e.code), old(e.taken), old(e.st.misread), e.code, e.taken, e.st.misread);
      if stopped { StopsLater(fetch, c0, index); }
      PlanStep(fetch, c0, slots, index);
      if e.Following() {
        DecidedSame(pend, w, p, cpu.regs, e.mach, pc);
        BranchNext(w, cpu);
        StraightOn(fetch, c0, index, w);
        DecidedAwaits(pend, w, cpu, e.mach);
      }
    }

    // ---- Delay slots and exits -------------------------------------------------------------

    /** A branch and its delay slot are done. */
    ghost predicate Resolved()
      reads this, e
    {
      Core() && 0 < index <= 201 && AfterSlot(fetch, base, index) && !InSlot(fetch, base, index) &&
      StartOf(fetch, base, index) == index && Depth(fetch, base, index) == |deferred| + 1 &&
      (pending.Cond? <==> RunTime(fetch, base, slots, index - 2)) &&
      (e.Following() ==> cpu.branch == 0 && cpu.pc == Destination(pending, e.mach, pc)) &&
      (e.Following() && pending.Through? && pending.guess.Guess? ==> pending.guess.pc == Ld(e.mach, CpuPc)) &&
      (e.Following() && pending.Cond? && Ld(e.mach, COND) != 0 ==> Branched(fetch, c0, index))
    }

    method DelaySlot(w: Word) returns (ok: bool)
      requires Valid() && !pending.Nothing? && InFragment(w) && IsAluWord(w) && w == fetch(pc)
      modifies this`index, this`pc, this`cycles, this`mults, this`cpu, this`stopped, e
      ensures ok ==> Resolved() && index == old(index) + 1
      ensures !ok ==> index == old(index) && Declined(fetch, base, slots, index)
    {
      hide Agrees, Falls, ReservedOf, Core, Next, Add, Awaits, Destination, InFragment, IsAluWord, Chain, StartOf, Depth,
           IsBranch, Ends, Declined, RunTime, WordAt;
      ghost var c, m := cpu, e.mach;
      CoreWord(w);
      ok := One(w);
      if ok {
        AluIsNoBranch(w);
        PastDelaySlot(fetch, base, index - 1);
        if e.Following() { Resolves(pending, c, m, e.mach, w); }
      }
    }

    /** Core, taken apart. */
    lemma CoreWord(w: Word)
      requires Core() && w == fetch(pc)
      ensures w == WordAt(fetch, base, index) && cpu == Chain(fetch, c0, index)
    {
      hide Agrees, Falls, Marked, Away, Chain, StopsInside, Straight, Static, SideExits, Planned, PcAt, DeadSet, BlockAt;
    }

    /** The registers are handed over and control goes to the interpreter's next instruction,
        for every run that the exits in todo do not still have to catch. */
    ghost predicate Leaving(todo: seq<Deferred>)
      reads `trip, `stopped, `index, e
    {
      slots.Valid() && e.Ok() && e.taken && e.st.home == slots.Homes() && Marked(e.code, slots.Homes(), todo) &&
      (stopped ==> StopsInside(fetch, c0, index)) && Finished() &&
      (Reuses(fetch, base, slots, index) || stopped || Caught(e.code, todo))
    }

    /** The path ends here, as planned. */
    ghost predicate Finished()
      reads `index
    {
      base == c0.pc && Accepted(fetch, base, slots, index) && GoesOn(fetch, base, slots, index) &&
      Ends(fetch, base, slots, index)
    }

    ghost predicate Caught(code: seq<Word>, todo: seq<Deferred>)
      reads `trip, `index
    {
      match trip
      case Going => false
      case Departed(d, _, _, n) => d in todo && n <= index && Away(code, fetch, slots, m0, c0, trip)
      case Landed(at, m, from, x) =>
        LandedAt(code, m0, at, m, from, x) && Faithful(fetch, slots, m0, c0, x) && OnTheWay(x) && Ahead(todo, at, from)
    }

    /** An exit at the end of the path, or from a branch before it. */
    ghost predicate OnTheWay(x: Exit)
      reads `index
    {
      x.n <= index && (x.n == index || Branched(fetch, c0, x.n))
    }

    /** The exit of the path compiled last, to a target known at compile time. */
    method LeaveTo(target: bv32)
      requires Core() && 0 < index <= 202 && Ends(fetch, base, slots, index)
      requires e.Following() ==> cpu.branch == 0 && cpu.pc == target
      modifies this`trip, e
      ensures Leaving(deferred)
    {
      hide Agrees, Falls, ReservedOf, Marked, Away, Chain, StopsInside, Straight, Scanned, Walk, Accepted, GoesOn, Ends, ThinAt,
           Known, e.st.Shape, slots.Valid, slots.Homes, RunFrom, HandsOver, AtHome, Charged, Caught, SideExits, Reached;
      SmallCharge(cycles);
      ghost var a, m, following, misread := e.code, e.mach, e.Following(), e.st.misread;
      ghost var p, known := ThinAt(fetch, c0, index), Known(fetch, base, slots, index);
      if following { HasReached(target); }
      ghost var m' := BranchEpilogue(e, slots, cycles as bv32, target, p, known);
      if following {
        LandHere(a, m, Exit(ExitTo(m', target), m', cpu, index, cycles));
      } else {
        StillAway(a, old(e.taken), misread);
      }
    }

    /** The exit after a register jump. */
    method LeaveThrough(guess: Guess)
      requires Core() && 0 < index <= 202 && Ends(fetch, base, slots, index)
      requires e.Following() ==> cpu.branch == 0 && cpu.pc == Ld(e.mach, CpuPc) && (guess.Guess? ==> guess.pc == cpu.pc)
      modifies this`trip, e
      ensures Leaving(deferred)
    {
      hide Agrees, Falls, ReservedOf, Marked, Away, Chain, StopsInside, Straight, Scanned, Walk, Accepted, GoesOn, Ends, ThinAt,
           Known, e.st.Shape, slots.Valid, slots.Homes, RunFrom, HandsOver, AtHome, Charged, Caught, SideExits, Reached;
      SmallCharge(cycles);
      ghost var a, m, following, misread := e.code, e.mach, e.Following(), e.st.misread;
      ghost var p, known := ThinAt(fetch, c0, index), Known(fetch, base, slots, index);
      var guessed, pc' := guess.Guess?, if guess.Guess? then guess.pc else 0;
      if following { HasReached(cpu.pc); }
      ghost var m' := RegisterExit(e, slots, cycles as bv32, guessed, pc', p, known);
      if following {
        LandHere(a, m, Exit(if guessed then ExitTo(m', cpu.pc) else Dispatch, m', cpu, index, cycles));
      } else {
        StillAway(a, old(e.taken), misread);
      }
    }

    lemma HasReached(target: bv32)
      requires Core() && e.Following() && index > 0 && cpu.branch == 0 && cpu.pc == target
      ensures Reached(fetch, c0, cpu, index, target, cycles)
    {
      hide Agrees, Falls, Marked, Away, Chain, StopsInside, Straight, Scanned, Walk, Accepted, GoesOn, ThinAt, Known, SideExits,
           Static;
    }

    /** The saved condition comes back from the frame. */
    method ReloadCondition()
      requires Core()
      modifies e`code, e`mach
      ensures Core() && e.Following() == old(e.Following())
      ensures e.mach.gpr[AT] == Ld(old(e.mach), COND)
    {
      hide Agrees, Falls, ReservedOf, Marked, Away, Chain, StopsInside, Straight, Scanned, Walk, Accepted, GoesOn, ThinAt, Known,
           e.st.Shape, slots.Valid, slots.Homes, SideExits, Fixed;
      if e.Following() {
        AtSet(e.st, e.mach, ThinAt(fetch, c0, index), Known(fetch, base, slots, index), Ld(e.mach, COND));
      }
      e.EmitLw(AT, COND);
      FixedSame(old(e.mach), e.mach);
      SideExitsKeep(old(e.code), e.taken, e.st.misread, e.code, e.taken, e.st.misread);
    }

    /** The branch to a taken path that is compiled later; the tables are saved for it. */
    method BranchAway(target: bv32)
      requires Resolved() && pending == Cond(target)
      modifies this`trip, this`deferred, e
      ensures Core() && (e.Following() ==> cpu.branch == 0 && cpu.pc == pc)
      ensures |deferred| == |old(deferred)| + 1 && deferred[..|old(deferred)|] == old(deferred)
    {
      hide Agrees, Falls, ReservedOf, Marked, Away, Chain, StopsInside, Straight, Scanned, Walk, Accepted, GoesOn, ThinAt, Known,
           e.st.Shape, slots.Valid, slots.Homes, SideExits, Fixed, Reached, Branched, AfterSlot, InSlot, StartOf, Depth, RunTime;
      ReloadCondition();
      var d := Deferred(|e.code|, target, cycles, e.st);
      ghost var a, m, taken := e.code, e.mach, e.taken;
      EmitBneAt();
      SmallCycles(cycles, index);
      if OnPath(taken) && m.gpr[AT] != 0 {
        ReachedHere(target);
        AwayHere(a, d, m);
      }
      Defer(d, a, m, taken);
    }

    lemma ReachedHere(target: bv32)
      requires c0.pc == base && cpu == Chain(fetch, c0, index) && index > 0 && cpu.branch == 0 && cpu.pc == target
      requires Straight(fetch, c0, index) && cpu.cycles == c0.cycles + cycles
      ensures Reached(fetch, c0, cpu, index, target, cycles)
    {
      hide Chain, Straight;
    }

    ghost predicate OnPath(taken: bool)
      reads `stopped, e
    {
      !taken && !e.st.misread
    }

    /** The run has just left by the branch of d. */
    lemma AwayHere(a: seq<Word>, d: Deferred, m: Machine)
      requires e.code == a + [BNE_AT, NOP] && d.at == |a| && index > 0 && !d.saved.misread
      requires Falls(a, 0, m0, |a|, m) && m.gpr[AT] != 0 == m.gpr[0] && Fixed(m) == Fixed(m0)
      requires Agrees(d.saved, m, ThinAt(fetch, c0, index), Known(fetch, c0.pc, slots, index))
      requires Reached(fetch, c0, cpu, index, d.target, d.cycles) && Branched(fetch, c0, index)
      ensures Away(e.code, fetch, slots, m0, c0, Departed(d, m, cpu, index))
    {
      hide Falls, Agrees, Reached, Fixed, Branched, ThinAt, Known;
      FallsPatched(a, e.code, 0, m0, |a|, m);
    }

    /** d joins the deferred exits; a run that goes there leaves the current path. */
    method Defer(d: Deferred, ghost a: seq<Word>, ghost m: Machine, ghost taken: bool)
      requires SideExits(a, taken, e.st.misread, index) && e.code == a + [BNE_AT, NOP] && d.at == |a| && d.cycles < MAX_CYCLES
      requires d.saved.Shape() && d.saved.home == slots.Homes() && e.taken == (taken || m.gpr[AT] != 0)
      requires OnPath(taken) && m.gpr[AT] != 0 ==> Away(e.code, fetch, slots, m0, c0, Departed(d, m, cpu, index))
      modifies this`trip, this`deferred
      ensures SideExits(e.code, e.taken, e.st.misread, index)
      ensures |deferred| == |old(deferred)| + 1 && deferred[..|old(deferred)|] == old(deferred)
    {
      hide Away, Marked, d.saved.Shape;
      MarkedAnd(a, e.code, slots.Homes(), deferred, d);
      if trip.Departed? && !e.st.misread && !stopped { AwayKeeps(a, e.code, fetch, slots, m0, c0, trip); }
      deferred := deferred + [d];
      if OnPath(taken) && m.gpr[AT] != 0 && !stopped { trip := Departed(d, m, cpu, index); }
    }

    /** BNE AT, $0 with its offset open, and a NOP. */
    method EmitBneAt()
      requires Static()
      modifies e`code, e`taken
      ensures Static() && e.code == old(e.code) + [BNE_AT, NOP]
      ensures e.taken == (old(e.taken) || e.mach.gpr[AT] != 0)
    {
      hide ReservedOf, Falls, e.st.Shape, slots.Valid, slots.Homes;
      ghost var zero := e.mach.gpr[AT] == 0;
      NopStep(e.mach);
      if !e.taken && zero { BneFalls(e.code, e.start, e.startMach, e.mach); }
      e.code := e.code + [BNE_AT, NOP];
      if !zero { e.taken := true; }
    }

    /** The run left through the exit just compiled after a. */
    ghost method LandHere(a: seq<Word>, m: Machine, x: Exit)
      requires a <= e.code && Falls(a, 0, m0, |a|, m) && RunFrom(e.code, |a|, m) == Left(x.dest, x.m)
      requires SideExits(a, false, false, index) && x.n == index && x.cycles < MAX_CYCLES
      requires Fixed(m) == Fixed(m0)
      requires HandsOver(m, x.m, x.cycles as bv32, ThinAt(fetch, c0, x.n), Known(fetch, c0.pc, slots, x.n), x.c.pc)
      requires Reached(fetch, c0, x.c, x.n, x.c.pc, x.cycles)
      requires x.dest == Dispatch || x.dest == ExitTo(x.m, x.c.pc)
      modifies this`trip
      ensures Caught(e.code, deferred) && Marked(e.code, slots.Homes(), deferred)
    {
      hide Falls, RunFrom, AtHome, Charged, MarkedOne, Reached, ExitTo, Marked, Fixed, LandedAt, Away, ThinAt, Known, Branched;
      JustLanded(a, e.code, m0, m, x);
      MarkedBefore(a, slots.Homes(), deferred);
      MarkedKeeps(a, e.code, slots.Homes(), deferred);
      trip := Landed(|a|, m, -1, x);
    }

    /** The run did not come to the exit just compiled after a. */
    lemma StillAway(a: seq<Word>, taken: bool, h: bool)
      requires SideExits(a, taken, h, index) && a <= e.code && (taken || h)
      ensures Marked(e.code, slots.Homes(), deferred) && (h || stopped || Caught(e.code, deferred))
    {
      hide Marked, Away;
      MarkedKeeps(a, e.code, slots.Homes(), deferred);
      if trip.Departed? && !h && !stopped { AwayKeeps(a, e.code, fetch, slots, m0, c0, trip); }
    }

    // ---- Deferred exits -----------------------------------------------------------------------

    /** One taken path: its branch is patched to come here, and the tables go back to what
        they were at the branch.  (The source restores the constants and the dirty masks
        only; nothing that follows looks at the loaded mask or the scratch cache.) */
    method EmitTaken(d: Deferred, ghost following: bool, ghost m: Machine, ghost p: Regs, ghost known: set<Reg>)
      returns (ghost m': Machine)
      requires slots.Valid() && d.at < |e.code| && d.cycles < MAX_CYCLES && m.gpr[0] == 0
      requires d.saved.Shape() && d.saved.home == slots.Homes()
      requires following ==> Agrees(d.saved, m, p, known) && !d.saved.misread
      modifies e
      ensures e.Ok() && e.st.home == slots.Homes() && e.taken
      ensures Patch(old(e.code), d) <= e.code
      ensures following ==>
        RunFrom(e.code, old(|e.code|), m) == Left(ExitTo(m', d.target), m') &&
        HandsOver(m, m', d.cycles as bv32, p, known, d.target)
    {
      hide Agrees, Falls, ReservedOf, slots.Valid, slots.Homes, RunFrom, HandsOver, Charged, e.st.Shape, d.saved.Shape;
      SmallCharge(d.cycles);
      e.code := Patch(e.code, d);
      e.st := d.saved;
      e.start, e.startMach, e.mach, e.taken := |e.code|, m, m, !following;
      FallsHere(e.code, m);
      m' := BranchEpilogue(e, slots, d.cycles as bv32, d.target, p, known);
    }

    method TakenExit(d: Deferred, ghost rest: seq<Deferred>)
      requires Leaving([d] + rest)
      modifies this`trip, e
      ensures Leaving(rest)
    {
      hide Agrees, Falls, ReservedOf, Marked, MarkedOne, Away, StopsInside, Straight, Caught, Fixed, Reached, Branched, Finished,
           Walk, ThinAt, Known, slots.Valid, slots.Homes, RunFrom, HandsOver, Charged, e.st.Shape, d.saved.Shape, LandedAt,
           Reuses;
      ghost var a := e.code;
      MarkedHead(a, slots.Homes(), d, rest);
      ghost var chosen := !Reuses(fetch, base, slots, index) && !stopped && trip.Departed? && trip.d == d;
      ghost var m := if chosen then trip.m else e.mach;
      ghost var n := if chosen then trip.n else 0;
      if chosen { Chosen(a, [d] + rest); }
      ghost var m' := EmitTaken(d, chosen, m, ThinAt(fetch, c0, n), Known(fetch, c0.pc, slots, n));
      Patches(a, e.code, slots.Homes(), d, rest);
      if chosen {
        SmallCharge(d.cycles);
        LandTaken(a, d, rest, m, Exit(ExitTo(m', d.target), m', trip.c, n, d.cycles));
      } else if !Reuses(fetch, base, slots, index) && !stopped {
        CaughtKeeps(a, e.code, d, rest);
      }
    }

    lemma Chosen(a: seq<Word>, todo: seq<Deferred>)
      requires trip.Departed? && Caught(a, todo)
      ensures Agrees(trip.d.saved, trip.m, ThinAt(fetch, c0, trip.n), Known(fetch, c0.pc, slots, trip.n))
      ensures !trip.d.saved.misread && trip.m.gpr[0] == 0 && Fixed(trip.m) == Fixed(m0)
      ensures Reached(fetch, c0, trip.c, trip.n, trip.c.pc, trip.d.cycles) && trip.c.pc == trip.d.target
      ensures trip.n <= index && Branched(fetch, c0, trip.n) && DepartedAt(a, m0, trip.d, trip.m)
    {
      hide Agrees, Falls, Fixed, Straight, Chain, ThinAt, Known, Branched;
    }

    /** The run that left by the branch of d has been caught. */
    ghost method LandTaken(a: seq<Word>, d: Deferred, rest: seq<Deferred>, m: Machine, x: Exit)
      requires DepartedAt(a, m0, d, m) && Marked(a, slots.Homes(), [d] + rest)
      requires Patch(a, d) <= e.code && RunFrom(e.code, |a|, m) == Left(x.dest, x.m)
      requires x.cycles < MAX_CYCLES && OnTheWay(x)
      requires Fixed(m) == Fixed(m0)
      requires HandsOver(m, x.m, x.cycles as bv32, ThinAt(fetch, c0, x.n), Known(fetch, c0.pc, slots, x.n), x.c.pc)
      requires Reached(fetch, c0, x.c, x.n, x.c.pc, x.cycles)
      requires x.dest == Dispatch || x.dest == ExitTo(x.m, x.c.pc)
      modifies this`trip
      ensures Caught(e.code, rest)
    {
      hide Falls, RunFrom, AtHome, Charged, MarkedOne, Reached, ExitTo, Fixed, LandedAt, DepartedAt, ThinAt, Known, OnTheWay;
      TakenLands(a, e.code, m0, d, m, x);
      AheadOfTaken(a, slots.Homes(), d, rest);
      trip := Landed(|a|, m, d.at, x);
    }

    /** Patching and compiling the exit of another branch does not matter to the run. */
    lemma CaughtKeeps(a: seq<Word>, b: seq<Word>, d: Deferred, rest: seq<Deferred>)
      requires d.at < |a| && Patch(a, d) <= b
      requires Caught(a, [d] + rest) && Marked(a, slots.Homes(), [d] + rest) && (trip.Departed? ==> trip.d != d)
      ensures Caught(b, rest)
    {
      hide Agrees, Reached, MarkedOne, LandedAt, Faithful, DepartedAt, ThinAt, Known, OnTheWay, Branched;
      match trip
      case Departed(d', m, _, _) =>
        assert d' in rest;
        DepartedStays(a, b, m0, slots.Homes(), d, rest, d', m);
      case Landed(at, m, from, x) =>
        assert ([d] + rest)[0] == d;
        forall i | 0 <= i < |rest| ensures rest[i].at < at && rest[i].at != from {
          assert ([d] + rest)[i + 1] == rest[i];
        }
        LandedStays(a, b, m0, d, at, m, from, x, slots.Homes());
    }

    /** emit_deferred_taken_all. */
    method DeferredExits()
      requires Leaving(deferred)
      modifies this`trip, this`deferred, e
      ensures Leaving([])
    {
      hide Leaving;
      while deferred != []
        invariant Leaving(deferred)
        decreases |deferred|
      {
        var d, rest := deferred[0], deferred[1..];
        assert deferred == [d] + rest;
        TakenExit(d, rest);
        deferred := rest;
      }
    }

    /** The exits may be compiled in another order. */
    lemma LeavingRotates(d: Deferred, ds: seq<Deferred>)
      requires Leaving(ds + [d])
      ensures Leaving([d] + ds)
    {
      hide LandedAt, Faithful, Away, MarkedOne, e.Ok, Finished, slots.Valid, slots.Homes, StopsInside, Straight, Reuses, OnTheWay;
      var a, b := ds + [d], [d] + ds;
      assert a[|ds|] == d;
      forall i | 0 <= i < |b| ensures b[i] in a && b[i] == a[if i == 0 then |ds| else i - 1] { }
      forall x | x in a ensures x in b {
        var i :| 0 <= i < |a| && a[i] == x;
        assert x == b[if i == |ds| then 0 else i + 1];
      }
    }

    // ---- The compile loop ------------------------------------------------------------------

    /** A conditional branch that cannot be continued past: its taken path comes first. */
    method LastBranch(target: bv32)
      requires Resolved() && pending == Cond(target) && Ends(fetch, base, slots, index)
      modifies this`trip, this`deferred, e
      ensures Leaving(deferred)
    {
      hide Core, Leaving, MarkedOne, Ends, AfterSlot, InSlot, StartOf, Depth, RunTime, Branched, Destination;
      BranchAway(target);
      LeaveTo(pc);
      var n := |deferred| - 1;
      assert deferred[..n] + [deferred[n]] == deferred;
      LeavingRotates(deferred[n], deferred[..n]);
      deferred := [deferred[n]] + deferred[..n];
    }

    /** The fall-through path goes on with a sub-block of its own. */
    method Continue()
      requires Core() && 0 < index < 200 && StartOf(fetch, base, index) == index && !InSlot(fetch, base, index)
      requires !RunTime(fetch, base, slots, index - 1)
      requires |deferred| == Depth(fetch, base, index) && !Ends(fetch, base, slots, index)
      requires e.Following() ==> cpu.branch == 0 && cpu.pc == pc
      modifies this`pending, this`subStart, this`dead
      ensures Valid() && pending == Nothing
    {
      hide Agrees, Falls, ReservedOf, Marked, Away, Chain, StopsInside, Straight, Static, SideExits, DeadSet, BlockAt, Planned,
           PcAt, Ends, StartOf, Depth, InSlot, RunTime;
      var scan := ScanAt(fetch, base, index);
      pending, subStart, dead := Nothing, index, scan.dead;
    }

    /** What follows a delay slot. */
    method AfterDelaySlot()
      requires Resolved() && !pending.Nothing? && !ended
      modifies this`pending, this`subStart, this`dead, this`trip, this`deferred, this`ended, e
      ensures if ended then Leaving(deferred) else Valid()
    {
      hide Core, Leaving, Agrees, Falls, StartOf, Depth, InSlot, RunTime, Branched;
      match pending
      case Always(t) =>
        LeaveTo(t);
        ended := true;
      case Through(guess) =>
        LeaveThrough(guess);
        ended := true;
      case Cond(t) =>
        if |deferred| < MAX_CONTINUATIONS && index < MAX_SUPER_INSNS {
          NoBranchHere();
          BranchAway(t);
          Continue();
        } else {
          LastBranch(t);
          ended := true;
        }
    }

    lemma NoBranchHere()
      requires index > 0 && !InSlot(fetch, base, index)
      ensures !RunTime(fetch, base, slots, index - 1)
    {
    }

    /** An ordinary instruction; the path also ends where the sub-block or the super-block is full. */
    method AtOrdinary(w: Word) returns (ok: bool)
      requires Valid() && pending.Nothing? && InFragment(w) && IsAluWord(w) && w == fetch(pc) && !ended
      modifies this`index, this`pc, this`cycles, this`mults, this`cpu, this`stopped, this`trip, this`ended, e
      ensures !ok ==> index == old(index) && Declined(fetch, base, slots, index)
      ensures ok ==> if ended then Leaving(deferred) else Valid() && index == old(index) + 1
    {
      hide Core, Leaving, Agrees, Falls, Next, Add, InFragment, IsAluWord, ReservedOf, Ends, StartOf, Depth, InSlot, RunTime,
           Declined, IsBranch, WordAt, Awaits, Chain;
      ghost var c, m := cpu, e.mach;
      CoreWord(w);
      AluIsNoBranch(w);
      ok := One(w);
      if !ok { return; }
      PastOrdinary(fetch, base, slots, index - 1);
      if e.Following() { Resolves(Nothing, c, m, e.mach, w); }
      AwaitsNothing(cpu, e.mach, pc);
      if index - subStart >= SCAN_MAX || index >= MAX_SUPER_INSNS {
        LeaveTo(pc);
        ended := true;
      }
    }

    /** One word of the PSX code; false if it cannot be compiled. */
    method Step() returns (ok: bool)
      requires Valid() && !ended
      modifies this, e
      ensures !ok ==> Refused(fetch, base, slots, index)
      ensures ok ==> if ended then Leaving(deferred) else Valid() && index == old(index) + 1
    {
      hide Core, Leaving, Agrees, Falls, Awaits, IsAluWord, IsBranch, Resolved, Ends, StartOf, Depth, RunTime, WordAt, InSlot,
           IsPsxWord, Accepted, GoesOn;
      Situation();
      var w := fetch(pc);
      CoreWord(w);
      if !InFragment(w) { return false; }
      if !pending.Nothing? {
        if !IsAluWord(w) {
          IsOneOrOther(w);
          return false;
        }
        ok := DelaySlot(w);
        if ok {
          AfterDelaySlot();
        }
      } else if IsBranch(w) {
        AtBranch(w);
        ok := true;
      } else {
        ok := AtOrdinary(w);
      }
    }

    lemma Situation()
      requires Valid()
      ensures Accepted(fetch, base, slots, index) && GoesOn(fetch, base, slots, index + 1)
    {
      hide Agrees, Falls, Marked, Away, Chain, StopsInside, Straight, Static, SideExits, Walk, ThinAt, Known, Declined, Ends,
           PcAt, DeadSet, BlockAt, StartOf, Depth, RunTime, InSlot, Awaits;
    }

    /** When nothing is left to compile the run has left. */
    lemma Outcome()
      requires Leaving([])
      ensures !Reuses(fetch, base, slots, index) ==> Follows(e.code, fetch, slots, m0, c0, index)
      ensures Complete(fetch, base, slots, index)
    {
      hide LandedAt, Faithful, Away, e.Ok, Accepted, Ends, GoesOn, slots.Valid, slots.Homes, StopsInside, Straight, RunFrom, Reuses, Branched;
      if trip.Landed? && !Reuses(fetch, base, slots, index) && !stopped {
        LandedRuns(e.code, m0, trip.at, trip.m, trip.from, trip.exit);
        assert LeavesWell(e.code, fetch, slots, m0, c0, trip.exit);
      }
    }

    /** The whole super-block. */
    method Run() returns (ok: bool)
      requires Valid() && !ended
      modifies this, e
      ensures !ok ==> Refused(fetch, base, slots, index)
      ensures ok ==> Leaving([])
    {
      hide Core, Leaving, Awaits, Refused, Ends, StartOf, Depth, RunTime, InSlot;
      while !ended
        invariant if ended then Leaving(deferred) else Valid()
        decreases if ended then 0 else 201 - index
      {
        ok := Step();
        if !ok { return; }
      }
      DeferredExits();
      ok := true;
    }
  }

  lemma MarkedHead(a: seq<Word>, home: HomeMap, d: Deferred, rest: seq<Deferred>)
    requires Marked(a, home, [d] + rest)
    ensures MarkedOne(a, home, d) && d.at + 1 < |a| && d.saved.Shape() && d.saved.home == home && d.cycles < MAX_CYCLES
  {
    assert ([d] + rest)[0] == d;
  }

  /** The other deferred branches stay marked. */
  lemma Patches(a: seq<Word>, b: seq<Word>, home: HomeMap, d: Deferred, rest: seq<Deferred>)
    requires Marked(a, home, [d] + rest) && d.at < |a| && Patch(a, d) <= b
    ensures Marked(b, home, rest)
  {
    hide d.saved.Shape;
    var all := [d] + rest;
    assert all[0] == d && MarkedOne(a, home, d);
    forall i | 0 <= i < |rest| ensures MarkedOne(b, home, rest[i]) {
      assert all[i + 1] == rest[i] && MarkedOne(a, home, all[i + 1]);
    }
    forall i, j | 0 <= i < j < |rest| ensures rest[i].at != rest[j].at {
      assert all[i + 1] == rest[i] && all[j + 1] == rest[j];
    }
  }

  lemma AheadOfTaken(a: seq<Word>, home: HomeMap, d: Deferred, rest: seq<Deferred>)
    requires Marked(a, home, [d] + rest)
    ensures Ahead(rest, |a|, d.at)
  {
    var all := [d] + rest;
    assert all[0] == d;
    forall i | 0 <= i < |rest| ensures rest[i].at < |a| && rest[i].at != d.at {
      assert all[i + 1] == rest[i] && MarkedOne(a, home, all[i + 1]);
    }
  }

  lemma TakenLands(a: seq<Word>, b: seq<Word>, m0: Machine, d: Deferred, m: Machine, x: Exit)
    requires DepartedAt(a, m0, d, m) && Patch(a, d) <= b
    requires RunFrom(b, |a|, m) == Left(x.dest, x.m)
    ensures LandedAt(b, m0, |a|, m, d.at, x)
  {
    hide Falls, Fixed;
    FallsPatched(a, b, 0, m0, d.at, m);
  }

  lemma DepartedStays(a: seq<Word>, b: seq<Word>, m0: Machine, home: HomeMap, d: Deferred, rest: seq<Deferred>,
                      d': Deferred, m: Machine)
    requires Marked(a, home, [d] + rest) && d' in rest && DepartedAt(a, m0, d', m)
    requires d.at < |a| && Patch(a, d) <= b
    ensures DepartedAt(b, m0, d', m)
  {
    hide Falls, Fixed, d.saved.Shape;
    var all := [d] + rest;
    var i :| 0 <= i < |rest| && rest[i] == d';
    assert all[0] == d && MarkedOne(a, home, all[0]) && all[i + 1] == d' && MarkedOne(a, home, all[i + 1]);
    DepartedKeeps(a, b, m0, d', m);
  }

  lemma LandedStays(a: seq<Word>, b: seq<Word>, m0: Machine, d: Deferred, at: nat, m: Machine, from: int, x: Exit,
                    home: HomeMap)
    requires LandedAt(a, m0, at, m, from, x) && MarkedOne(a, home, d) && d.at < at && d.at != from
    requires Patch(a, d) <= b
    ensures LandedAt(b, m0, at, m, from, x)
  {
    hide Falls, RunFrom, d.saved.Shape;
    LandedKeeps(a, b, m0, at, m, from, x);
  }

  lemma MarkedAnd(a: seq<Word>, b: seq<Word>, home: HomeMap, ds: seq<Deferred>, d: Deferred)
    requires Marked(a, home, ds) && b == a + [BNE_AT, NOP] && d.at == |a|
    requires d.saved.Shape() && d.saved.home == home && d.cycles < MAX_CYCLES
    ensures Marked(b, home, ds + [d])
  {
    hide MarkedOne;
    MarkedKeeps(a, b, home, ds);
    assert MarkedOne(b, home, d) by { MarkedNew(a, b, home, d); }
    forall i | 0 <= i < |ds| ensures ds[i].at < |a| {
      assert MarkedOne(a, home, ds[i]);
      MarkedIn(a, home, ds[i]);
    }
  }

  lemma MarkedNew(a: seq<Word>, b: seq<Word>, home: HomeMap, d: Deferred)
    requires b == a + [BNE_AT, NOP] && d.at == |a|
    requires d.saved.Shape() && d.saved.home == home && d.cycles < MAX_CYCLES
    ensures MarkedOne(b, home, d)
  {
  }

  lemma MarkedIn(code: seq<Word>, home: HomeMap, d: Deferred)
    requires MarkedOne(code, home, d)
    ensures d.at + 1 < |code|
  {
  }

  lemma BneFalls(code: seq<Word>, start: nat, m: Machine, m': Machine)
    requires start <= |code| && Falls(code, start, m, |code|, m') && m'.gpr[AT] == 0 == m'.gpr[0]
    ensures Falls(code + [BNE_AT, NOP], start, m, |code| + 2, m')
  {
    hide Falls, Step;
    NopStep(m');
    FallsBranch(code, BNE_AT, NOP, start, m, m');
  }

  lemma SmallCycles(cycles: nat, index: nat)
    requires cycles <= 6 * index && index <= 202
    ensures cycles < MAX_CYCLES
  {
  }

  /** Exits still to be compiled lie before `at`, and none is the branch `from`. */
  ghost predicate Ahead(todo: seq<Deferred>, at: nat, from: int) {
    forall i :: 0 <= i < |todo| ==> todo[i].at < at && todo[i].at != from
  }

  lemma MarkedBefore(code: seq<Word>, home: HomeMap, ds: seq<Deferred>)
    requires Marked(code, home, ds)
    ensures Ahead(ds, |code|, -1)
  {
    forall i | 0 <= i < |ds| ensures ds[i].at < |code| {
      assert MarkedOne(code, home, ds[i]);
    }
  }

  lemma JustLanded(a: seq<Word>, b: seq<Word>, m0: Machine, m: Machine, x: Exit)
    requires a <= b && Falls(a, 0, m0, |a|, m) && RunFrom(b, |a|, m) == Left(x.dest, x.m)
    ensures LandedAt(b, m0, |a|, m, -1, x)
  {
    hide Falls;
    FallsPatched(a, b, 0, m0, |a|, m);
  }

  /** What a compiled branch knows before its delay slot. */
  ghost predicate Decided(pend: Pending, w: Word, p: Regs, m: Machine, pc: bv32)
    requires IsBranch(w)
  {
    var target := JumpTarget(w, p, Add(pc, 4));
    match pend
    case Nothing => false
    case Always(t) => t == if Jumps(w, p) then target else Add(pc, 8)
    case Cond(t) => t == target && (Ld(m, COND) != 0 <==> Jumps(w, p))
    case Through(g) => Ld(m, CpuPc) == target && Jumps(w, p) && (g.Guess? ==> g.pc == target)
  }

  lemma BranchShape(w: Word, before: set<Reg>, live: set<Reg>)
    requires IsPsxWord(w) && IsBranch(w) && CoversBranch(before, w, live)
    ensures IsRegisterJump(w) ==> !w.I? && !w.J? && (w.rs == 0 || w.rs in before) && w.rs in Accesses(w) + {0}
    ensures !IsRegisterJump(w) ==> w.I? || w.J?
    ensures DceReads(w) <= Accesses(w)
  {
  }

  lemma BranchGoal(w: Word, p: Regs, next: bv32)
    requires IsPsxWord(w) && IsBranch(w)
    ensures IsRegisterJump(w) ==> Jumps(w, p) && JumpTarget(w, p, next) == p.r[w.rs]
    ensures w.I? ==> JumpTarget(w, p, next) == Add(next, Offset(w))
  {
  }

  /** What is decided for registers alike is decided for both. */
  lemma DecidedSame(pend: Pending, w: Word, p: Regs, q: Regs, m: Machine, pc: bv32)
    requires IsBranch(w) && Decided(pend, w, p, m, pc) && Jumps(w, p) == Jumps(w, q)
    requires JumpTarget(w, p, Add(pc, 4)) == JumpTarget(w, q, Add(pc, 4))
    ensures Decided(pend, w, q, m, pc)
  {
    hide Jumps, JumpTarget, Add;
  }

  lemma AwaitsNothing(c: Cpu, m: Machine, pc: bv32)
    ensures Awaits(Nothing, c, m, pc) <==> c.branch == 0
  {
  }

  lemma FixedKept(m: Machine, m': Machine)
    ensures ReservedOf(m') == ReservedOf(m) ==> Fixed(m') == Fixed(m)
  {
  }

  lemma BranchNext(w: Word, c: Cpu)
    requires InFragment(w) && IsBranch(w)
    ensures !Stops(w, c)
    ensures c.branch == 0 ==> Next(w, c).pc == Add(c.pc, 4)
  {
    hide JumpTarget, Jumps;
    AddEight(c.pc);
  }

  lemma DecidedAwaits(pend: Pending, w: Word, c: Cpu, m: Machine)
    requires InFragment(w) && IsBranch(w) && Decided(pend, w, c.regs, m, c.pc) && c.branch == 0
    ensures Awaits(pend, Next(w, c), m, Add(c.pc, 4))
  {
    hide JumpTarget, Jumps, Add;
    AddEight(c.pc);
  }

  lemma CostBound(w: Word)
    ensures CycleCost(w) <= 6
  {
  }

  lemma PcStep(base: bv32, n: nat)
    ensures PcAt(base, n + 1) == Add(PcAt(base, n), 4)
  {
  }

  lemma FixedSame(m: Machine, m': Machine)
    requires ReservedOf(m') == ReservedOf(m)
    ensures Fixed(m') == Fixed(m)
  {
  }

  lemma ChainStep(fetch: bv32 -> Word, c0: Cpu, n: nat, w: Word)
    requires var c := Chain(fetch, c0, n); w == fetch(c.pc) && InFragment(w) && !Stops(w, c)
    ensures var c := Chain(fetch, c0, n);
            Chain(fetch, c0, n + 1) == Next(w, c) && Next(w, c).cycles == c.cycles + CycleCost(w)
  {
    hide Stops, Exec, JumpTarget, Jumps;
  }

  lemma IsOneOrOther(w: Word)
    requires InFragment(w) && !IsAluWord(w)
    ensures IsBranch(w)
  {
  }

  /** The interpreter passes the n-th word. */
  lemma StraightOn(fetch: bv32 -> Word, c0: Cpu, n: nat, w: Word)
    requires var c := Chain(fetch, c0, n);
             Straight(fetch, c0, n) && c.pc == PcAt(c0.pc, n) && w == fetch(c.pc) && !Stops(w, c)
    ensures Straight(fetch, c0, n + 1)
  {
    hide Stops, Chain;
  }

  lemma StraightLast(fetch: bv32 -> Word, c0: Cpu, n: nat, w: Word)
    requires Straight(fetch, c0, n + 1) && w == fetch(Chain(fetch, c0, n).pc)
    ensures !Stops(w, Chain(fetch, c0, n))
  {
    hide Stops, Chain;
    assert Chain(fetch, c0, n).pc == PcAt(c0.pc, n);
  }

  /** It comes to the n-th word, which stops it. */
  lemma StopsHere(fetch: bv32 -> Word, c0: Cpu, n: nat, w: Word)
    requires var c := Chain(fetch, c0, n);
             Straight(fetch, c0, n) && c.pc == PcAt(c0.pc, n) && w == fetch(c.pc) && Stops(w, c)
    ensures StopsInside(fetch, c0, n + 1)
  {
    hide Straight, Stops, Chain;
    assert StopsAt(fetch, c0, n);
  }

  lemma StopsLater(fetch: bv32 -> Word, c0: Cpu, n: nat)
    requires StopsInside(fetch, c0, n)
    ensures StopsInside(fetch, c0, n + 1)
  {
    hide StopsAt;
  }

  // ---- compile_block --------------------------------------------------------------------------

  /** The run of code from m0 leaves through x, faithfully to the interpreter. */
  ghost predicate LeavesWell(code: seq<Word>, fetch: bv32 -> Word, slots: SlotMap, m0: Machine, c0: Cpu, x: Exit) {
    RunFrom(code, 0, m0) == Left(x.dest, x.m) && Faithful(fetch, slots, m0, c0, x)
  }

  /** From m0 the code leaves well, after all the words or by the taken path of a branch
      before, unless the interpreter stops on the way. */
  ghost predicate Follows(code: seq<Word>, fetch: bv32 -> Word, slots: SlotMap, m0: Machine, c0: Cpu, words: nat) {
    StopsInside(fetch, c0, words) ||
    exists x :: LeavesWell(code, fetch, slots, m0, c0, x) && x.n <= words && (x.n == words || Branched(fetch, c0, x.n))
  }

  /** Compiles the super-block at base, `words` words long.  Whatever machine enters it at
      home in a state of the interpreter, the emitted code either leaves through an exit
      faithful to the interpreter, or the interpreter, still among these words, meets an
      exception.  This holds unless a word reads a stale scratch register, which the words
      and the slots decide (`Reuses`).  They also decide how long the block is, and that it is
      compiled exactly if no word before its end is declined: `OneOutcome`. */
  method CompileBlock(fetch: bv32 -> Word, base: bv32, ghost m0: Machine, ghost c0: Cpu)
    returns (code: seq<Word>, ok: bool, slots: SlotMap, words: nat)
    requires AtHome(m0, c0.regs, ALL) && c0.pc == base && c0.branch == 0
    ensures slots.Valid() && SlotsFit(fetch, base, slots)
    ensures ok && !Reuses(fetch, base, slots, words) ==> Follows(code, fetch, slots, m0, c0, words)
    ensures if ok then Complete(fetch, base, slots, words) else Refused(fetch, base, slots, words)
  {
    hide *;
    var c := new Compiler(fetch, base, m0, c0);
    ok := c.Run();
    code, slots, words := c.e.code, c.slots, c.index;
    if ok { c.Outcome(); }
  }
}
