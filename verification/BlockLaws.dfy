/** What the compiler's first pass assumes of single words, against the interpreter; which
    registers get slots; and how the tables of compiled blocks spread addresses. */
module BlockLaws {
  import Arithmetic
  import Numbers
  import MipsLaws
  import opened Mips
  import opened BlockScan
  import opened Interpreter
  import opened Psx
  import Instructions
  import Dce
  import Slots
  import JumpTable
  import PageTable
  import DirectLinks
  import opened Native
  import opened Exits
  import opened Plan
  import opened Compile
  import SuperBlock
  import Handover

  /** The words with a delay slot, and the instructions modelled here. */
  lemma FragmentLaw(w: Word)
    requires IsPsxWord(w)
    ensures IsBranch(w) <==> w.J? || (w.R? && w.fn in {0x08, 0x09}) || (w.I? && w.op in {1, 4, 5, 6, 7})
    ensures IsTrap(w) <==> w.R? && w.fn in {0x0C, 0x0D}
    ensures InFragment(w) <==>
      IsBranch(w) || (w.I? && w.op in {8, 9, 10, 11, 12, 13, 14, 15}) ||
      (w.R? && w.fn in {0x00, 0x02, 0x03, 0x04, 0x06, 0x07, 0x10, 0x11, 0x12, 0x13, 0x18, 0x19, 0x1A, 0x1B,
                        0x20, 0x21, 0x22, 0x23, 0x24, 0x25, 0x26, 0x27, 0x2A, 0x2B})
  {
  }

  /** The registers marked as written are those the interpreter writes, at once or later, and
      the one a branch links in. */
  lemma WritesLaw(w: Word, r: Reg)
    requires IsPsxWord(w)
    ensures r in ScanWrites(w) <==> r != 0 && (Dce.WritesGpr(w, r) || LinkOf(w) == r)
  {
  }

  /** A destination that kills liveness is one written at once: any written register but that
      of a load or of a move from a coprocessor. */
  lemma DestLaw(w: Word, r: Reg)
    requires IsPsxWord(w) && r != 0
    ensures DceDest(w) == r <==> r in ScanWrites(w) && !(w.I? && (0x20 <= w.op <= 0x26 || w.op == 0x10 || w.op == 0x12))
  {
  }

  /** The registers that computing words read are those that they are compiled to read; what
      the others read is told by their fields. */
  lemma ReadsLaw(w: Word)
    requires IsPsxWord(w)
    ensures IsAluWord(w) ==> DceReads(w) == Instructions.Reads(w) - {0}
    ensures w.J? ==> DceReads(w) == {}
    ensures w.R? && w.fn in {0x08, 0x09} ==> DceReads(w) == {w.rs} - {0}
    ensures w.I? && w.op in {4, 5} ==> DceReads(w) == {w.rs, w.rt} - {0}
    ensures w.I? && w.op in {1, 6, 7} ==> DceReads(w) == {w.rs} - {0}
    ensures Dce.IsLoad(w) ==> DceReads(w) == (if w.op in {0x22, 0x26} then {w.rs, w.rt} else {w.rs}) - {0}
    ensures Dce.IsStore(w) ==> DceReads(w) == {w.rs, w.rt} - {0}
  {
    if w.I? {
      ImmediateReads(w);
    }
  }

  lemma ImmediateReads(w: Word)
    requires IsPsxWord(w) && w.I?
    ensures IsAluWord(w) ==> DceReads(w) == Instructions.Reads(w) - {0}
  {
  }

  /** Computing words may be dropped unless they change HI or LO. */
  lemma PureLaw(w: Word)
    requires IsPsxWord(w)
    ensures IsAluWord(w) ==> (DcePure(w) <==> !(w.R? && w.fn in {0x11, 0x13, 0x18, 0x19, 0x1A, 0x1B}))
    ensures DcePure(w) && w.I? ==> IsAluWord(w)
    ensures DcePure(w) ==> !IsBranch(w) && !IsTrap(w)
  {
  }

  /** From word i on a word that stays overwrites r at word j, and none that stays reads it
      up to and with that one. */
  ghost predicate OverwrittenAt(block: seq<Word>, i: nat, r: Reg, j: int) {
    i <= j < |block| && j !in DeadSet(block) && DceDest(block[j]) == r != 0 &&
    forall k :: i <= k <= j && k !in DeadSet(block) ==> r !in DceReads(block[k])
  }

  ghost predicate Overwritten(block: seq<Word>, i: nat, r: Reg) {
    exists j :: OverwrittenAt(block, i, r, j)
  }

  /** A word is dead exactly if all it does is to write a register that the words left in the
      block overwrite before they read it. */
  lemma DeadLaw(block: seq<Word>, i: nat)
    requires i < |block|
    ensures i in DeadSet(block) <==> DcePure(block[i]) && DceDest(block[i]) != 0 && Overwritten(block, i + 1, DceDest(block[i]))
  {
    hide DcePure, DceDest, LiveAt, Overwritten;
    if DceDest(block[i]) != 0 { LiveLaw(block, i + 1, DceDest(block[i])); }
  }

  lemma {:induction false} LiveLaw(block: seq<Word>, i: nat, r: Reg)
    requires i <= |block| && r != 0
    ensures r in LiveAt(block, i) <==> !Overwritten(block, i, r)
    decreases |block| - i
  {
    hide DceReads, DcePure, DceDest, LiveAt, DeadSet, Dead;
    if i == |block| {
      LiveAtEnd(block);
    } else {
      LiveAtStep(block, i);
      LiveLaw(block, i + 1, r);
      DeadIs(block, i);
      Further(block, i, r);
    }
  }

  lemma DeadIs(block: seq<Word>, i: nat)
    requires i < |block|
    ensures i in DeadSet(block) <==> Dead(block[i], LiveAt(block, i + 1))
  {
    hide Dead, LiveAt;
  }

  /** Being overwritten, one word further on. */
  lemma Further(block: seq<Word>, i: nat, r: Reg)
    requires i < |block| && r != 0
    ensures Overwritten(block, i, r) <==>
      if i in DeadSet(block) then Overwritten(block, i + 1, r)
      else r !in DceReads(block[i]) && (DceDest(block[i]) == r || Overwritten(block, i + 1, r))
  {
    hide DceReads, DceDest, DeadSet;
    if Overwritten(block, i, r) {
      var j :| OverwrittenAt(block, i, r, j);
      if j > i { assert OverwrittenAt(block, i + 1, r, j); }
    }
    if Overwritten(block, i + 1, r) && (i in DeadSet(block) || r !in DceReads(block[i])) {
      var j :| OverwrittenAt(block, i + 1, r, j);
      assert OverwrittenAt(block, i, r, j);
    }
    if i !in DeadSet(block) && r !in DceReads(block[i]) && DceDest(block[i]) == r {
      assert OverwrittenAt(block, i, r, i);
    }
  }

  /** Between two registers that could have a slot, the one that has one is used more, or as
      much and has the lower number; and no register used once has one. */
  lemma SlotLaw(uses: Slots.UseCounts, s: Slots.SlotMap, r: Reg, q: Reg)
    requires Slots.IsAssignment(uses, s) && s.psxSlot[r] >= 0
    ensures r != 0 && r !in {28, 29, 30, 31} && uses[r] >= 2
    ensures q != 0 && q !in {28, 29, 30, 31} && s.psxSlot[q] < 0 ==> uses[q] < 2 || uses[q] < uses[r] || (uses[q] == uses[r] && r < q)
    ensures 0 <= s.psxSlot[q] && s.psxSlot[r] < s.psxSlot[q] ==> uses[q] < uses[r] || (uses[q] == uses[r] && r < q)
  {
    hide Slots.Score;
    var n: nat :| n <= Slots.SLOTS && Slots.Best(uses, s, n);
    Slots.SlotOf(uses, s, n, r);
    ScoreIs(uses, r);
    ScoreIs(uses, q);
    if s.psxSlot[q] >= 0 { Slots.SlotOf(uses, s, n, q); }
    var i := s.psxSlot[r];
    assert s.slotPsx[i] == r;
    if s.psxSlot[q] < 0 { assert Slots.Beats(uses, s.slotPsx[i], q); }
    if 0 <= s.psxSlot[q] && i < s.psxSlot[q] { assert Slots.Beats(uses, s.slotPsx[i], s.slotPsx[s.psxSlot[q]]); }
  }

  lemma ScoreIs(uses: Slots.UseCounts, r: Reg)
    ensures Slots.Score(uses, r) == if r == 0 || r in {28, 29, 30, 31} || uses[r] < 2 then 0 else uses[r]
  {
  }

  // ---- Ends and exits ----------------------------------------------------------------------

  /** The branches among the first n words. */
  function BranchCount(fetch: bv32 -> Word, base: bv32, n: nat): nat {
    if n == 0 then 0 else BranchCount(fetch, base, n - 1) + if IsBranch(WordAt(fetch, base, n - 1)) then 1 else 0
  }

  /** A block ends after the delay slot of a jump, of a branch that is decided while compiling
      or of its fourth branch, after 64 words without a branch, or with its 200th word, unless
      that one is a branch, which takes its delay slot along. */
  lemma EndLaw(fetch: bv32 -> Word, base: bv32, slots: Slots.SlotMap, n: nat)
    requires Complete(fetch, base, slots, n)
    ensures 0 < n <= 201 && !IsBranch(WordAt(fetch, base, n - 1))
    ensures var slot := n >= 2 && IsBranch(WordAt(fetch, base, n - 2));
            n >= 200 ||
            (slot && (!RunTime(fetch, base, slots, n - 2) || BranchCount(fetch, base, n) == 4)) ||
            (!slot && n >= 64 && forall k :: 0 <= k && n - 65 <= k < n ==> !IsBranch(WordAt(fetch, base, k)))
  {
    hide WordAt, RunTime, Accepted, IsBranch, InFragment;
    LastIsNoBranch(fetch, base, slots, n);
    AtMost201(fetch, base, slots, n);
    if AfterSlot(fetch, base, n) {
      if RunTime(fetch, base, slots, n - 2) && n < 200 {
        FewBefore(fetch, base, slots, n, n - 1);
        DepthCounts(fetch, base, n);
      }
    } else {
      SinceStart(fetch, base, n);
    }
  }

  lemma LastIsNoBranch(fetch: bv32 -> Word, base: bv32, slots: Slots.SlotMap, n: nat)
    requires Complete(fetch, base, slots, n)
    ensures n > 0 && !IsBranch(WordAt(fetch, base, n - 1))
  {
    hide WordAt, RunTime, IsBranch, InFragment, Plan.Walk, DeadAt, Instructions.KnownOverflow;
    if AfterSlot(fetch, base, n) {
      assert !Declined(fetch, base, slots, n - 1);
      assert InSlot(fetch, base, n - 1);
    }
  }

  lemma AtMost201(fetch: bv32 -> Word, base: bv32, slots: Slots.SlotMap, n: nat)
    requires GoesOn(fetch, base, slots, n)
    ensures n <= 201
  {
    hide Ends;
    FullEnds(fetch, base, slots);
  }

  lemma FullEnds(fetch: bv32 -> Word, base: bv32, slots: Slots.SlotMap)
    ensures Ends(fetch, base, slots, 200) || Ends(fetch, base, slots, 201)
  {
    hide WordAt, RunTime, IsBranch;
    assert InSlot(fetch, base, 200) ==> AfterSlot(fetch, base, 201);
  }

  lemma {:induction false} FewBefore(fetch: bv32 -> Word, base: bv32, slots: Slots.SlotMap, n: nat, i: nat)
    requires GoesOn(fetch, base, slots, n) && i < n
    ensures Depth(fetch, base, i) <= 3
    decreases i
  {
    hide WordAt, RunTime, IsBranch, AfterSlot;
    if i > 0 {
      FewBefore(fetch, base, slots, n, i - 1);
      assert !Ends(fetch, base, slots, i);
    }
  }

  lemma {:induction false} DepthCounts(fetch: bv32 -> Word, base: bv32, n: nat)
    ensures n > 0 ==> Depth(fetch, base, n) == BranchCount(fetch, base, n - 1)
  {
    hide WordAt, IsBranch;
    if n > 1 {
      DepthCounts(fetch, base, n - 1);
    }
  }

  /** No branch since the word before the sub-block that word n continues. */
  lemma {:induction false} SinceStart(fetch: bv32 -> Word, base: bv32, n: nat)
    ensures var s := StartOf(fetch, base, n);
            forall k :: 0 <= k && s - 1 <= k && k + 1 < n ==> !IsBranch(WordAt(fetch, base, k))
    decreases n
  {
    hide WordAt, IsBranch;
    if n != 0 && !AfterSlot(fetch, base, n) { SinceStart(fetch, base, n - 1); }
  }

  /** Leaving takes the interpreter's cycles off the counter in $18; the block that follows is
      entered while the counter is positive, and the run stops where it is not. */
  lemma CounterLaw(fetch: bv32 -> Word, slots: Slots.SlotMap, m0: Machine, c0: Cpu, x: Exit) returns (cycles: bv32)
    requires SuperBlock.Faithful(fetch, slots, m0, c0, x)
    ensures 0 <= x.c.cycles - c0.cycles < 2048 && cycles == (x.c.cycles - c0.cycles) as bv32
    ensures x.m.gpr[18] == Sub(m0.gpr[18], cycles)
    ensures x.dest == Dispatch || x.dest == if Numbers.Signed(x.m.gpr[18]) > 0 then LinkTo(x.c.pc) else Abort
  {
    hide *;
    Handover.FaithfulParts(fetch, slots, m0, c0, x);
    MaxCyclesIs();
    cycles := x.cycles as bv32;
    CounterFrom(m0, x.m, cycles);
    ExitToIs(x.m, x.c.pc);
  }

  lemma MaxCyclesIs()
    ensures MAX_CYCLES == 2048
  {
  }

  lemma CounterFrom(m0: Machine, m: Machine, c: bv32)
    requires Fixed(m) == Fixed(m0).(s2 := Charged(Fixed(m0).s2, c))
    ensures m.gpr[18] == Sub(m0.gpr[18], c)
  {
    hide *;
    CounterIs(m);
    CounterIs(m0);
    ChargedIs(m0.gpr[18], c);
  }

  lemma ChargedIs(s2: bv32, c: bv32)
    ensures Charged(s2, c) == Sub(s2, c)
  {
    hide *;
    ChargedAdds(s2, c);
    AddNegated(s2, c);
    SubIs(s2, c);
  }

  lemma ChargedAdds(s2: bv32, c: bv32)
    ensures Charged(s2, c) == Add(s2, Sub(0, c))
  {
    hide Add, Sub;
  }

  lemma SubIs(a: bv32, b: bv32)
    ensures Sub(a, b) == a - b
  {
  }

  lemma CounterIs(m: Machine)
    ensures Fixed(m).s2 == m.gpr[18]
  {
  }

  lemma ExitToIs(m: Machine, pc: bv32)
    ensures ExitTo(m, pc) == if Numbers.Signed(m.gpr[18]) > 0 then LinkTo(pc) else Abort
  {
    hide Numbers.Signed, Negative;
    MipsLaws.NumberZero(m.gpr[18]);
    MipsLaws.NegativeIs(m.gpr[18]);
  }

  /** A link is the J instruction to the two-word exit of a block not yet there, or past the
      22 words with which a compiled block begins; a jump stays in the 256 MB of its delay slot. */
  lemma LinkLaw(base: nat, site: nat, native: nat)
    requires DirectLinks.OneRegion(base) && site + 1 < 0x10_0000 && (native != 0 ==> native + 22 < 0x10_0000)
    ensures var w, to := DirectLinks.Jump(base, DirectLinks.Dest(native)), if native == 0 then 2 else native + 22;
            w / 0x400_0000 == 2 &&
            4 * (base + site + 1) / 0x1000_0000 * 0x1000_0000 + 4 * (w % 0x400_0000) == 4 * (base + to)
  {
    DirectLinks.JumpLands(base, site, DirectLinks.Dest(native));
    Regions(base + site + 1);
  }

  lemma Regions(a: nat)
    ensures 4 * a / 0x1000_0000 == a / 0x400_0000
  {
  }

  // ---- Tables ----------------------------------------------------------------------------

  /** Two words of one page never meet in a row of the jump table, nor do words at one place of
      two pages of the same 16 MB. */
  lemma HashLaw(p: JumpTable.Pc, q: JumpTable.Pc)
    requires JumpTable.Hash(p) == JumpTable.Hash(q) && p / 0x100_0000 == q / 0x100_0000
    ensures p / 0x1000 == q / 0x1000 || p % 0x1000 == q % 0x1000 ==> p == q
  {
    var a, b, c, d := p / 0x1000 % 0x1000, p % 0x1000, q / 0x1000 % 0x1000, q % 0x1000;
    hide JumpTable.Exclusive, Arithmetic.Pow2;
    Power12();
    ExclusiveCancels(a, b, c, d, 12);
    Parts(p);
    Parts(q);
  }

  lemma Parts(p: JumpTable.Pc)
    ensures p / 0x1000 == p / 0x100_0000 * 0x1000 + p / 0x1000 % 0x1000 && p == p / 0x1000 * 0x1000 + p % 0x1000
  {
    assert p / 0x1000 / 0x1000 == p / 0x100_0000;
  }

  lemma {:induction false} ExclusiveCancels(a: nat, b: nat, c: nat, d: nat, k: nat)
    requires a < Arithmetic.Pow2(k) && b < Arithmetic.Pow2(k) && c < Arithmetic.Pow2(k) && d < Arithmetic.Pow2(k)
    requires JumpTable.Exclusive(a, b, k) == JumpTable.Exclusive(c, d, k)
    ensures (a == c ==> b == d) && (b == d ==> a == c)
    decreases k
  {
    if k > 0 { ExclusiveCancels(a / 2, b / 2, c / 2, d / 2, k - 1); }
  }

  lemma Power12()
    ensures Arithmetic.Pow2(12) == 0x1000
  {
    assert Arithmetic.Pow2(6) == 64;
  }

  /** Code is cached from the 2 MB of RAM and the 512 KB of BIOS, in whatever segment. */
  lemma CachedLaw(pc: PageTable.JumpTable.Pc, segment: nat, phys: nat)
    requires phys < 0x2000_0000 && pc == 0x2000_0000 * segment + phys
    ensures PageTable.PageOf(pc) >= 0 <==> phys < 0x20_0000 || 0x1FC0_0000 <= phys < 0x1FC8_0000
    ensures PageTable.Place(pc) == phys / 4
  {
  }
}
