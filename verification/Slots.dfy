/** Where PSX registers live natively: pinned S registers and the eight dynamic
    slots T0-T7 of a block. */
module Slots {
  import opened Mips
  import opened Tracking

  const SLOTS := 8
  const T0: Reg := 8

  /** Native register that permanently holds PSX register r, or 0. */
  function Pinned(r: Reg): Reg {
    if r == 28 then 22 else if r == 29 then 20 else if r == 30 then 23 else if r == 31 then 21 else 0
  }

  type SlotTable = s: seq<int> | |s| == SLOTS && forall i :: 0 <= i < SLOTS ==> -1 <= s[i] < 32
    witness seq(SLOTS, _ => -1)

  type SlotIndex = s: seq<int> | |s| == 32 && forall r :: 0 <= r < 32 ==> -1 <= s[r] < SLOTS
    witness seq(32, _ => -1)

  /** slotPsx[i] is the register in slot i, psxSlot[r] the slot of register r; -1 is none. */
  datatype SlotMap = SlotMap(slotPsx: SlotTable, psxSlot: SlotIndex) {
    /** Each table is the inverse of the other, and no $0 or pinned register has a slot. */
    ghost predicate Valid() {
      (forall i :: 0 <= i < SLOTS && slotPsx[i] >= 0 ==>
        slotPsx[i] != 0 && psxSlot[slotPsx[i]] == i && Pinned(slotPsx[i]) == 0) &&
      (forall r :: 0 <= r < 32 && psxSlot[r] >= 0 ==> slotPsx[psxSlot[r]] == r)
    }

    function Homes(): (h: HomeMap) {
      seq(32, r requires 0 <= r < 32 =>
        if Pinned(r) != 0 then Pinned(r) else if psxSlot[r] >= 0 then T0 + psxSlot[r] else 0)
    }

    lemma HomesValid()
      requires Valid()
      ensures ValidHomes(Homes())
      ensures forall r: Reg :: IsPinnedHome(Homes()[r]) <==> Pinned(r) != 0
      ensures forall r: Reg :: psxSlot[r] >= 0 ==> r != 0 && Pinned(r) == 0 && Homes()[r] == T0 + psxSlot[r]
    {
      var home := Homes();
      forall r: Reg | psxSlot[r] >= 0
        ensures r != 0 && Pinned(r) == 0 && home[r] == T0 + psxSlot[r]
      {
        assert slotPsx[psxSlot[r]] == r;
      }
      forall a: Reg, b: Reg | home[a] == home[b] != 0
        ensures a == b
      {
        if psxSlot[a] >= 0 && psxSlot[b] >= 0 { assert slotPsx[psxSlot[a]] == a; }
      }
    }
  }

  // ---- dyn_assign_slots ------------------------------------------------------------

  type UseCounts = s: seq<nat> | |s| == 32 witness seq(32, _ => 0)

  /** A register needs two uses to earn a slot; $0 and pinned registers never get one. */
  function Score(uses: UseCounts, r: Reg): nat {
    if r == 0 || uses[r] < 2 || Pinned(r) != 0 then 0 else uses[r]
  }

  /** a is served before b: more uses, or as many and a lower number. */
  predicate Beats(uses: UseCounts, a: Reg, b: Reg) {
    Score(uses, a) > Score(uses, b) || (Score(uses, a) == Score(uses, b) && a < b)
  }

  /** The first n slots hold the n best registers, in order. */
  ghost predicate Best(uses: UseCounts, s: SlotMap, n: nat)
    requires n <= SLOTS
  {
    s.Valid() &&
    (forall i :: 0 <= i < SLOTS ==> (s.slotPsx[i] >= 0 <==> i < n)) &&
    (forall i :: 0 <= i < n ==> Score(uses, s.slotPsx[i]) >= 2) &&
    (forall i, j :: 0 <= i < j < n ==> Beats(uses, s.slotPsx[i], s.slotPsx[j])) &&
    (forall i, r: Reg :: 0 <= i < n && s.psxSlot[r] < 0 ==> Beats(uses, s.slotPsx[i], r))
  }

  /** The slots are filled with the best registers, as long as one has a score. */
  ghost predicate IsAssignment(uses: UseCounts, s: SlotMap) {
    exists n: nat :: n <= SLOTS && Best(uses, s, n) && (n < SLOTS ==> Unscored(uses, s))
  }

  ghost predicate Unscored(uses: UseCounts, s: SlotMap) {
    forall r: Reg :: s.psxSlot[r] < 0 ==> Score(uses, r) == 0
  }

  /** The unassigned register with the highest score, lowest number first; -1 if none scores. */
  method FindBest(uses: UseCounts, s: SlotMap) returns (best: int)
    ensures -1 <= best < 32
    ensures best >= 0 ==> Score(uses, best) > 0 && s.psxSlot[best] < 0
    ensures best >= 0 ==> forall r: Reg :: r != best && s.psxSlot[r] < 0 ==> Beats(uses, best, r)
    ensures best < 0 ==> forall r: Reg :: s.psxSlot[r] < 0 ==> Score(uses, r) == 0
  {
    best := -1;
    var bestScore := 0;
    for r := 1 to 32
      invariant -1 <= best < r
      invariant bestScore == if best < 0 then 0 else Score(uses, best)
      invariant best >= 0 ==> bestScore > 0 && s.psxSlot[best] < 0
      invariant forall q: Reg :: q < r && q != best && s.psxSlot[q] < 0 ==>
        if best < 0 then Score(uses, q) == 0 else Beats(uses, best, q)
    {
      if Score(uses, r) > bestScore && s.psxSlot[r] < 0 {
        best, bestScore := r, Score(uses, r);
      }
    }
  }

  method Assign(uses: UseCounts) returns (s: SlotMap, n: nat)
    ensures n <= SLOTS && Best(uses, s, n)
    ensures n < SLOTS ==> Unscored(uses, s)
  {
    hide Score;
    s, n := SlotMap(seq(SLOTS, _ => -1), seq(32, _ => -1)), 0;
    while n < SLOTS
      invariant n <= SLOTS && Best(uses, s, n)
      decreases SLOTS - n
    {
      var best := FindBest(uses, s);
      if best < 0 { return; }
      BestStep(uses, s, n, best);
      s := SlotMap(s.slotPsx[n := best], s.psxSlot[best := n]);
      n := n + 1;
    }
  }

  lemma BestStep(uses: UseCounts, s: SlotMap, n: nat, best: Reg)
    requires n < SLOTS && Best(uses, s, n) && Score(uses, best) > 0 && s.psxSlot[best] < 0
    requires forall r: Reg :: r != best && s.psxSlot[r] < 0 ==> Beats(uses, best, r)
    ensures Best(uses, SlotMap(s.slotPsx[n := best], s.psxSlot[best := n]), n + 1)
  {
  }

  // ---- Which registers have a slot ----------------------------------------------------

  /** The registers served before r. */
  ghost function Preceding(uses: UseCounts, r: Reg): set<Reg> {
    set q: Reg | Beats(uses, q, r)
  }

  /** The registers of the first n slots. */
  ghost function Served(s: SlotMap, n: nat): set<Reg>
    requires n <= SLOTS
  {
    set r: Reg | 0 <= s.psxSlot[r] < n
  }

  lemma {:induction false} ServedCount(uses: UseCounts, s: SlotMap, n: nat, k: nat)
    requires k <= n <= SLOTS && Best(uses, s, n)
    ensures |Served(s, k)| == k
    decreases k
  {
    hide Score, Beats;
    if k == 0 {
      assert Served(s, 0) == {};
    } else {
      hide Best;
      ServedCount(uses, s, n, k - 1);
      ServedStep(uses, s, n, k - 1);
    }
  }

  lemma ServedStep(uses: UseCounts, s: SlotMap, n: nat, k: nat)
    requires k < n <= SLOTS && Best(uses, s, n)
    ensures var r: Reg := s.slotPsx[k]; r !in Served(s, k) && Served(s, k + 1) == Served(s, k) + {r}
  {
    hide Score, Beats;
    forall r: Reg ensures s.psxSlot[r] == k <==> s.slotPsx[k] == r { }
  }

  /** A register has a slot exactly when it is used twice and fewer than eight are served
      before it, and their number is its slot. */
  lemma SlotByRank(uses: UseCounts, s: SlotMap, r: Reg)
    requires IsAssignment(uses, s)
    ensures s.psxSlot[r] ==
      if Score(uses, r) >= 2 && |Preceding(uses, r)| < SLOTS then |Preceding(uses, r)| else -1
  {
    hide Score, Served, Preceding, s.Valid;
    var n: nat :| n <= SLOTS && Best(uses, s, n) && (n < SLOTS ==> Unscored(uses, s));
    ScoreOneIsZero(uses, r);
    if s.psxSlot[r] >= 0 {
      var k := s.psxSlot[r];
      SlotOf(uses, s, n, r);
      PrecedingOfServed(uses, s, n, r);
      ServedCount(uses, s, n, k);
    } else if Score(uses, r) >= 2 {
      PrecedingOfUnserved(uses, s, n, r);
      ServedCount(uses, s, n, n);
      Subset(Served(s, n), Preceding(uses, r));
    }
  }

  /** So the use counts determine the slots. */
  lemma AssignmentIsUnique(uses: UseCounts, s: SlotMap, t: SlotMap)
    requires IsAssignment(uses, s) && IsAssignment(uses, t)
    ensures s == t
  {
    hide Score, Preceding, Unscored, Beats;
    forall r: Reg ensures s.psxSlot[r] == t.psxSlot[r] {
      SlotByRank(uses, s, r);
      SlotByRank(uses, t, r);
    }
    assert s.psxSlot == t.psxSlot;
    forall i | 0 <= i < SLOTS ensures s.slotPsx[i] == t.slotPsx[i] { }
    assert s.slotPsx == t.slotPsx;
  }

  lemma ScoreOneIsZero(uses: UseCounts, r: Reg)
    ensures Score(uses, r) < 2 ==> Score(uses, r) == 0
  {
  }

  lemma SlotOf(uses: UseCounts, s: SlotMap, n: nat, r: Reg)
    requires n <= SLOTS && Best(uses, s, n) && s.psxSlot[r] >= 0
    ensures s.psxSlot[r] < n && s.slotPsx[s.psxSlot[r]] == r && Score(uses, r) >= 2
  {
    hide Score, Beats;
  }

  lemma Subset(a: set<Reg>, b: set<Reg>)
    requires a <= b
    ensures |a| <= |b|
  {
    if a != b { assert b == a + (b - a); }
  }

  /** A register in a slot is preceded by those in the slots before it. */
  lemma PrecedingOfServed(uses: UseCounts, s: SlotMap, n: nat, r: Reg)
    requires n <= SLOTS && Best(uses, s, n) && 0 <= s.psxSlot[r] < n
    ensures Preceding(uses, r) == Served(s, s.psxSlot[r])
  {
    hide Score;
    var k := s.psxSlot[r];
    assert s.slotPsx[k] == r;
    forall q: Reg ensures Beats(uses, q, r) <==> 0 <= s.psxSlot[q] < k {
      if s.psxSlot[q] >= 0 { assert s.slotPsx[s.psxSlot[q]] == q; }
    }
  }

  /** One without a slot is preceded by all that have one. */
  lemma PrecedingOfUnserved(uses: UseCounts, s: SlotMap, n: nat, r: Reg)
    requires n <= SLOTS && Best(uses, s, n) && s.psxSlot[r] < 0
    ensures Served(s, n) <= Preceding(uses, r)
  {
    hide Score, Beats;
    forall q: Reg | q in Served(s, n) ensures Beats(uses, q, r) {
      assert s.slotPsx[s.psxSlot[q]] == q;
    }
  }
}
