/** Pass 1 of the compiler: where a block ends, which instructions are dead, and how
    registers are used. */
module BlockScan {
  import opened Mips

  const SCAN_MAX := 64

  /** A word as the PSX fetches it; native-only words are none. */
  predicate IsPsxWord(w: Word) {
    match w
    case R(op, _, _, _, _, fn) => op == 0 && 0 <= fn < 64
    case I(op, _, _, _) => 0 < op < 64 && op != 2 && op != 3
    case J(op, _) => op == 2 || op == 3
    case _ => false
  }

  const ALL: set<Reg> := set r: Reg | true

  // ---- dce_dest_gpr, dce_read_mask, dce_is_pure, scan_write_mask --------------------

  /** Destination that kills liveness; loads are left out because they write one
      instruction late. */
  function DceDest(w: Word): Reg {
    match w
    case R(_, _, _, rd, _, fn) =>
      if 0x18 <= fn <= 0x1B || fn == 0x08 || fn == 0x11 || fn == 0x13 || fn == 0x0C || fn == 0x0D then 0
      else rd
    case J(op, _) => if op == 3 then 31 else 0
    case I(op, _, rt, _) =>
      if op == 1 then (if rt == 0x10 || rt == 0x11 then 31 else 0)
      else if 0x08 <= op <= 0x0F then rt
      else 0
    case _ => 0
  }

  function DceReads(w: Word): set<Reg> {
    RawReads(w) - {0}
  }

  function RawReads(w: Word): set<Reg> {
    match w
    case R(_, rs, rt, _, _, fn) =>
      if fn <= 0x03 then {rt}
      else if fn == 0x10 || fn == 0x12 || fn == 0x0C || fn == 0x0D then {}
      else if fn == 0x08 || fn == 0x09 || fn == 0x11 || fn == 0x13 then {rs}
      else {rs, rt}
    case J(_, _) => {}
    case I(op, rs, rt, _) =>
      if op == 0x0F then {}
      else if op == 0x04 || op == 0x05 then {rs, rt}
      else if op == 0x06 || op == 0x07 || op == 0x01 then {rs}
      else if 0x08 <= op <= 0x0E then {rs}
      else if 0x20 <= op <= 0x26 then (if op == 0x22 || op == 0x26 then {rs, rt} else {rs})
      else if 0x28 <= op <= 0x2E || op == 0x3A then {rs, rt}
      else if op == 0x10 && rs == 0x04 then {rt}
      else if op == 0x12 && rs < 16 then (if rs == 0x04 || rs == 0x06 then {rt} else {})
      else if op == 0x32 then {rs}
      else {}
    case _ => {}
  }

  predicate DcePure(w: Word) {
    match w
    case R(_, _, _, _, _, fn) => fn <= 0x07 || fn == 0x10 || fn == 0x12 || 0x20 <= fn <= 0x2B
    case I(op, _, _, _) => 0x08 <= op <= 0x0F
    case _ => false
  }

  function ScanWrites(w: Word): set<Reg> {
    (match w
     case R(_, _, _, rd, _, fn) =>
       if 0x18 <= fn <= 0x1B || fn == 0x08 || fn == 0x11 || fn == 0x13 || fn == 0x0C || fn == 0x0D then {}
       else {rd}
     case J(op, _) => if op == 3 then {31} else {}
     case I(op, rs, rt, _) =>
       if op == 1 then (if rt == 0x10 || rt == 0x11 then {31} else {})
       else if 0x08 <= op <= 0x0F || 0x20 <= op <= 0x26 then {rt}
       else if op == 0x10 && rs == 0 then {rt}
       else if op == 0x12 && (rs == 0 || rs == 2) then {rt}
       else {}
     case _ => {}) - {0}
  }

  // ---- Block boundary ------------------------------------------------------------

  predicate IsBranch(w: Word) {
    w.J? || (w.R? && (w.fn == 0x08 || w.fn == 0x09)) || (w.I? && (w.op == 1 || 0x04 <= w.op <= 0x07))
  }

  predicate IsTrap(w: Word) {
    w.R? && (w.fn == 0x0C || w.fn == 0x0D)
  }

  /** n words are one block: nothing before the last two ends it, and it stops after the
      delay slot of a branch, at SYSCALL or BREAK, or because it is full. */
  ghost predicate IsBlock(code: seq<Word>, n: nat, max: nat) {
    n <= |code| && n <= max && n <= SCAN_MAX &&
    (forall i :: 0 <= i < n - 1 ==> !IsTrap(code[i])) &&
    (forall i :: 0 <= i < n - 2 ==> !IsBranch(code[i])) &&
    (n == |code| || n == max || n == SCAN_MAX ||
     (n >= 1 && IsTrap(code[n - 1])) || (n >= 2 && IsBranch(code[n - 2])))
  }

  /** Where the block ends that goes on at word i. */
  function Extent(code: seq<Word>, max: nat, i: nat): (n: nat)
    requires i <= max <= |code|
    ensures i <= n <= max
    decreases max - i
  {
    if i >= max || i >= SCAN_MAX then i
    else if IsBranch(code[i]) then if i + 1 < max && i + 1 < SCAN_MAX then i + 2 else i + 1
    else if IsTrap(code[i]) then i + 1
    else Extent(code, max, i + 1)
  }

  // ---- Liveness --------------------------------------------------------------------

  /** Registers live before word i of a block, all of them being live at its end. */
  function LiveAt(block: seq<Word>, i: nat): set<Reg>
    requires i <= |block|
    decreases |block| - i
  {
    if i == |block| then ALL
    else Before(block[i], LiveAt(block, i + 1))
  }

  predicate Dead(w: Word, after: set<Reg>) {
    DceDest(w) != 0 && DceDest(w) !in after && DcePure(w)
  }

  function Before(w: Word, after: set<Reg>): set<Reg> {
    if Dead(w, after) then after
    else if DceDest(w) != 0 then after - {DceDest(w)} + DceReads(w)
    else after + DceReads(w)
  }

  lemma DeadBefore(w: Word, after: set<Reg>)
    requires Dead(w, after)
    ensures Before(w, after) == after
  {
  }

  function DeadSet(block: seq<Word>): set<int> {
    set i | 0 <= i < |block| && Dead(block[i], LiveAt(block, i + 1))
  }

  // ---- Register use -------------------------------------------------------------------

  function Accesses(w: Word): set<Reg> { DceReads(w) + ScanWrites(w) }

  /** How many of the first n words name r. */
  function Uses(block: seq<Word>, n: nat, r: Reg): nat
    requires n <= |block|
  {
    if n == 0 then 0
    else Uses(block, n - 1, r) + if r in Accesses(block[n - 1]) then 1 else 0
  }

  predicate ReadIn(block: seq<Word>, n: nat, r: Reg)
    requires n <= |block|
  {
    exists i :: 0 <= i < n && r in DceReads(block[i])
  }

  predicate WrittenIn(block: seq<Word>, n: nat, r: Reg)
    requires n <= |block|
  {
    exists i :: 0 <= i < n && r in ScanWrites(block[i])
  }

  /** Within the first n words r is written before anything reads it. */
  ghost predicate WriteFirst(block: seq<Word>, n: nat, r: Reg)
    requires n <= |block|
  {
    exists i :: 0 <= i < n && r in ScanWrites(block[i]) && !ReadIn(block, i + 1, r)
  }

  datatype Scan = Scan(count: nat, dead: set<int>, written: set<Reg>, read: set<Reg>,
                       writeFirst: set<Reg>, uses: seq<nat>)

  /** block_scan: boundary, register use, backward liveness. */
  method Run(code: seq<Word>, max: nat) returns (s: Scan)
    requires max <= |code|
    ensures IsBlock(code, s.count, max) && (max > 0 ==> s.count > 0) && s.count == Extent(code, max, 0)
    ensures s.dead == DeadSet(code[..s.count])
    ensures |s.uses| == 32
    ensures forall r: Reg :: s.uses[r] == Capped(Uses(code[..s.count], s.count, r))
    ensures forall r: Reg :: r in s.writeFirst <==> WriteFirst(code[..s.count], s.count, r)
    ensures forall r: Reg :: r in s.written <==> WrittenIn(code[..s.count], s.count, r)
    ensures forall r: Reg :: r in s.read <==> ReadIn(code[..s.count], s.count, r)
  {
    hide DceDest, DcePure, DceReads, ScanWrites, IsBranch, IsTrap, LiveAt;
    var count := Boundary(code, max);
    var block := code[..count];
    var written, read, writeFirst, uses := Usage(block);
    var dead := Liveness(block);
    s := Scan(count, dead, written, read, writeFirst, uses);
  }

  /** Phase 1. */
  method Boundary(code: seq<Word>, max: nat) returns (count: nat)
    requires max <= |code|
    ensures IsBlock(code, count, max) && (max > 0 ==> count > 0) && count == Extent(code, max, 0)
  {
    count := 0;
    var inDelaySlot := false;
    var i := 0;
    while i < max && i < SCAN_MAX
      invariant count == i <= max && i <= SCAN_MAX
      invariant forall j :: 0 <= j < i ==> !IsTrap(code[j])
      invariant forall j :: 0 <= j < i - 1 ==> !IsBranch(code[j])
      invariant inDelaySlot <==> i > 0 && IsBranch(code[i - 1])
      invariant Extent(code, max, 0) == Extent(code, max, if inDelaySlot then i - 1 else i)
    {
      count := i + 1;
      if inDelaySlot { break; }
      if IsBranch(code[i]) { inDelaySlot := true; }
      else if IsTrap(code[i]) { break; }
      i := i + 1;
    }
  }

  /** The counters are bytes that stop at 255. */
  function Capped(n: nat): nat { if n < 255 then n else 255 }

  /** Phase 2. */
  method Usage(block: seq<Word>) returns (written: set<Reg>, read: set<Reg>, writeFirst: set<Reg>, uses: seq<nat>)
    ensures |uses| == 32
    ensures forall r: Reg :: uses[r] == Capped(Uses(block, |block|, r))
    ensures forall r: Reg :: r in writeFirst <==> WriteFirst(block, |block|, r)
    ensures forall r: Reg :: r in written <==> WrittenIn(block, |block|, r)
    ensures forall r: Reg :: r in read <==> ReadIn(block, |block|, r)
  {
    hide DceDest, DcePure, DceReads, ScanWrites, WriteFirst, ReadIn, WrittenIn;
    written, read, writeFirst := {}, {}, {};
    uses := seq(32, _ => 0);
    var i := 0;
    NothingYet(block);
    while i < |block|
      invariant 0 <= i <= |block| && |uses| == 32
      invariant forall r: Reg :: uses[r] == Capped(Uses(block, i, r))
      invariant forall r: Reg :: r in writeFirst <==> WriteFirst(block, i, r)
      invariant forall r: Reg :: r in written <==> WrittenIn(block, i, r)
      invariant forall r: Reg :: r in read <==> ReadIn(block, i, r)
    {
      var wmask, rmask := ScanWrites(block[i]), DceReads(block[i]);
      UsageStep(block, i);
      writeFirst := writeFirst + (wmask - (written + read + rmask));
      written := written + wmask;
      read := read + rmask;
      uses := Count(uses, rmask + wmask);
      i := i + 1;
    }
  }

  lemma NothingYet(block: seq<Word>)
    ensures forall r: Reg :: !WriteFirst(block, 0, r) && !WrittenIn(block, 0, r) && !ReadIn(block, 0, r)
  {
  }

  lemma UsageStep(block: seq<Word>, i: nat)
    requires i < |block|
    ensures forall r: Reg :: WrittenIn(block, i + 1, r) <==> WrittenIn(block, i, r) || r in ScanWrites(block[i])
    ensures forall r: Reg :: ReadIn(block, i + 1, r) <==> ReadIn(block, i, r) || r in DceReads(block[i])
    ensures forall r: Reg :: WriteFirst(block, i + 1, r) <==>
      WriteFirst(block, i, r) ||
      (r in ScanWrites(block[i]) - (DceReads(block[i])) && !WrittenIn(block, i, r) && !ReadIn(block, i, r))
  {
    hide DceReads, ScanWrites;
    forall r: Reg
      ensures WrittenIn(block, i + 1, r) <==> WrittenIn(block, i, r) || r in ScanWrites(block[i])
      ensures ReadIn(block, i + 1, r) <==> ReadIn(block, i, r) || r in DceReads(block[i])
      ensures WriteFirst(block, i + 1, r) <==>
        WriteFirst(block, i, r) ||
        (r in ScanWrites(block[i]) - (DceReads(block[i])) && !WrittenIn(block, i, r) && !ReadIn(block, i, r))
    {
      MaskStep(block, i, r);
      WriteFirstStep(block, i, r);
    }
  }

  lemma MaskStep(block: seq<Word>, i: nat, r: Reg)
    requires i < |block|
    ensures WrittenIn(block, i + 1, r) <==> WrittenIn(block, i, r) || r in ScanWrites(block[i])
    ensures ReadIn(block, i + 1, r) <==> ReadIn(block, i, r) || r in DceReads(block[i])
  {
    hide DceReads, ScanWrites;
  }

  lemma WriteFirstStep(block: seq<Word>, i: nat, r: Reg)
    requires i < |block|
    ensures WriteFirst(block, i + 1, r) <==>
      WriteFirst(block, i, r) ||
      (r in ScanWrites(block[i]) - (DceReads(block[i])) && !WrittenIn(block, i, r) && !ReadIn(block, i, r))
  {
    hide DceReads, ScanWrites;
    MaskStep(block, i, r);
    if WrittenIn(block, i, r) && !ReadIn(block, i, r) {
      var k :| 0 <= k < i && r in ScanWrites(block[k]);
      assert !ReadIn(block, k + 1, r);
    }
  }

  /** Counts one more use of each register in a, up to 255. */
  method Count(uses: seq<nat>, a: set<Reg>) returns (uses': seq<nat>)
    requires |uses| == 32
    ensures |uses'| == 32
    ensures forall r: Reg :: uses'[r] == if r in a && uses[r] < 255 then uses[r] + 1 else uses[r]
  {
    uses' := uses;
    for r := 0 to 32
      invariant |uses'| == 32
      invariant forall q: Reg :: uses'[q] == if q < r && q in a && uses[q] < 255 then uses[q] + 1 else uses[q]
    {
      if r in a && uses'[r] < 255 { uses' := uses'[r := uses'[r] + 1]; }
    }
  }

  lemma LiveAtEnd(block: seq<Word>)
    ensures LiveAt(block, |block|) == ALL
  {
  }

  lemma LiveAtStep(block: seq<Word>, i: nat)
    requires i < |block|
    ensures LiveAt(block, i) == Before(block[i], LiveAt(block, i + 1))
  {
  }

  /** Phase 3: backward liveness. */
  method Liveness(block: seq<Word>) returns (dead: set<int>)
    ensures dead == DeadSet(block)
  {
    hide DceDest, DcePure, DceReads, LiveAt;
    dead := {};
    var live := ALL;
    LiveAtEnd(block);
    var i := |block|;
    while i > 0
      invariant 0 <= i <= |block| && live == LiveAt(block, i)
      invariant forall k :: k in dead <==> i <= k < |block| && Dead(block[k], LiveAt(block, k + 1))
    {
      i := i - 1;
      LiveAtStep(block, i);
      var w := block[i];
      var dest := DceDest(w);
      if dest != 0 && dest !in live && DcePure(w) {
        dead := dead + {i};
      } else {
        if dest != 0 { live := live - {dest}; }
        live := live + DceReads(w);
      }
    }
  }
}
