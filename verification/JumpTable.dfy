// The hash table behind indirect jumps (src/dynarec.h:228-292): two ways a row, the most
// recently added first.  It forgets, but it is never wrong: whatever it answers is what was
// last added for that address.

module JumpTable {
  import Arithmetic

  const ROWS := 4096

  /** The mark of an empty way; no instruction has this address. */
  const NONE := 0xFFFF_FFFF

  type Pc = p: int | 0 <= p < 0x1_0000_0000

  datatype Option<T> = None | Some(value: T)

  /** One row: way 0, then way 1. */
  datatype Row = Row(pc0: Pc, native0: nat, pc1: Pc, native1: nat)

  /** The exclusive-or of the k lowest binary digits. */
  function Exclusive(a: nat, b: nat, k: nat): (x: nat)
    ensures x < Arithmetic.Pow2(k)
  {
    if k == 0 then 0 else 2 * Exclusive(a / 2, b / 2, k - 1) + if a % 2 == b % 2 then 0 else 1
  }

  function Hash(pc: Pc): (h: nat)
    ensures h < ROWS
  {
    assert Arithmetic.Pow2(8) == 256;
    Exclusive(pc / 0x1000 % 0x1000, pc % 0x1000, 12)
  }

  /** The probe of the dispatch code: way 0 first. */
  function Find(r: Row, pc: Pc): Option<nat> {
    if r.pc0 == pc then Some(r.native0) else if r.pc1 == pc then Some(r.native1) else None
  }

  /** A row holds only addresses that belong to it, and none twice. */
  predicate Tidy(r: Row, h: nat) {
    && (r.pc0 != NONE ==> Hash(r.pc0) == h)
    && (r.pc1 != NONE ==> Hash(r.pc1) == h)
    && (r.pc0 == r.pc1 ==> r.pc0 == NONE)
  }

  /** The address an addition pushes out, if any. */
  function Victim(r: Row, pc: Pc): Pc {
    if r.pc0 == pc || r.pc1 == pc then NONE else r.pc1
  }

  class Table {
    const rows: array<Row>

    /** What was last added for each address, and not removed since. */
    ghost var last: map<Pc, nat>

    ghost predicate Valid()
      reads this, rows
    {
      && rows.Length == ROWS
      && (forall h :: 0 <= h < ROWS ==> Tidy(rows[h], h))
      && (forall pc: Pc :: pc != NONE && Find(rows[Hash(pc)], pc).Some? ==>
            pc in last && last[pc] == Find(rows[Hash(pc)], pc).value)
    }

    ghost function Probe(pc: Pc): Option<nat>
      reads rows
      requires rows.Length == ROWS
    {
      Find(rows[Hash(pc)], pc)
    }

    constructor ()
      ensures Valid() && fresh(rows) && last == map[]
      ensures forall pc: Pc :: pc != NONE ==> Probe(pc) == None
    {
      rows := new Row[ROWS](i => Row(NONE, 0, NONE, 0));
      last := map[];
    }

    method Clear()
      requires Valid()
      modifies this, rows
      ensures Valid() && last == map[]
      ensures forall pc: Pc :: pc != NONE ==> Probe(pc) == None
    {
      for i := 0 to ROWS
        invariant forall h :: 0 <= h < i ==> rows[h] == Row(NONE, 0, NONE, 0)
      {
        rows[i] := Row(NONE, 0, NONE, 0);
      }
      last := map[];
    }

    /** `jit_ht_add`, of the entry point past the prologue. */
    method Add(pc: Pc, entry: nat)
      requires Valid() && pc != NONE
      modifies this, rows
      ensures Valid() && last == old(last)[pc := entry] && Probe(pc) == Some(entry)
      ensures forall q: Pc :: q != pc && q != NONE ==>
                Probe(q) == if Hash(q) == Hash(pc) && q == Victim(old(rows[Hash(pc)]), pc) then None else old(Probe(q))
      ensures rows[Hash(pc)].pc0 == pc
    {
      hide Hash;
      var h := Hash(pc);
      var r := rows[h];
      assert Tidy(r, h);
      last := last[pc := entry];
      if r.pc0 == pc {
        rows[h] := r.(native0 := entry);
      } else if r.pc1 == pc {
        rows[h] := Row(pc, entry, r.pc0, r.native0);
      } else {
        rows[h] := Row(pc, entry, r.pc0, r.native0);
      }
    }

    /** `jit_ht_remove`. */
    method Remove(pc: Pc)
      requires Valid() && pc != NONE
      modifies this, rows
      ensures Valid() && last == old(last) - {pc} && Probe(pc) == None
      ensures forall q: Pc :: q != pc && q != NONE ==> Probe(q) == old(Probe(q))
    {
      hide Hash;
      var h := Hash(pc);
      var r := rows[h];
      assert Tidy(r, h);
      last := last - {pc};
      if r.pc0 == pc {
        rows[h] := Row(r.pc1, r.native1, NONE, 0);
      } else if r.pc1 == pc {
        rows[h] := r.(pc1 := NONE, native1 := 0);
      }
    }
  }
}
