// The event scheduler (include/scheduler.h): a table of ten events, and a cache of the
// earliest deadline that the CPU loop reads instead of searching the table.  Adding,
// removing and dispatching events update the cache only when they have to; what is
// proved is that it never goes wrong.

module Scheduler {

  // ---------------------------------------------------------------------------
  // The table itself, without the cache
  // ---------------------------------------------------------------------------

  const COUNT := 10
  const NEVER := 0xFFFF_FFFF_FFFF_FFFF

  type Cycle = c: int | 0 <= c <= NEVER
  type EventId = i: int | 0 <= i < COUNT

  /** A callback pointer; 0 is the null pointer. */
  type Handler = nat

  datatype Event = Event(active: bool, deadline: Cycle, callback: Handler)

  type Table = t: seq<Event> | |t| == COUNT witness seq(COUNT, i => Event(false, 0, 0))

  datatype Op = Add(id: EventId, cycle: Cycle, callback: Handler) | Remove(id: EventId)

  /** What each event's callback does to the schedule, should it be called. */
  type Scripts = s: seq<seq<Op>> | |s| == COUNT witness seq(COUNT, i => [])

  /** A callback that was called, and how late it was told it is. */
  datatype Call = Call(id: EventId, callback: Handler, late: int)

  function Applied(t: Table, op: Op): Table {
    match op
    case Add(id, cycle, callback) => t[id := Event(true, cycle, callback)]
    case Remove(id) => t[id := t[id].(active := false)]
  }

  function AppliedAll(t: Table, ops: seq<Op>): Table
    decreases |ops|
  {
    if ops == [] then t else AppliedAll(Applied(t, ops[0]), ops[1..])
  }

  predicate Due(e: Event, now: Cycle) {
    e.active && e.deadline <= now
  }

  /** The C cast of a 64-bit difference to `int`. */
  function Late(now: Cycle, deadline: Cycle): int
    requires deadline <= now
  {
    var low := (now - deadline) % 0x1_0000_0000;
    if low < 0x8000_0000 then low else low - 0x1_0000_0000
  }

  /** A callback is told exactly how late it is, up to 2^31 cycles. */
  lemma LateLaw(now: Cycle, deadline: Cycle)
    requires deadline <= now
    ensures -0x8000_0000 <= Late(now, deadline) < 0x8000_0000 && (now - deadline - Late(now, deadline)) % 0x1_0000_0000 == 0
    ensures Late(now, deadline) == now - deadline <==> now - deadline < 0x8000_0000
  {
    var d: int := now - deadline;
    assert d == d / 0x1_0000_0000 * 0x1_0000_0000 + d % 0x1_0000_0000;
  }

  function Effect(t: Table, i: EventId, scripts: Scripts): seq<Op> {
    if t[i].callback == 0 then [] else scripts[i]
  }

  function Disarmed(t: Table, i: EventId): Table {
    t[i := t[i].(active := false)]
  }

  /** The table after dispatching events `i` and up. */
  function Ticked(t: Table, now: Cycle, i: nat, scripts: Scripts): Table
    requires i <= COUNT
    decreases COUNT - i
  {
    if i == COUNT then t
    else if Due(t[i], now) then Ticked(AppliedAll(Disarmed(t, i), Effect(t, i, scripts)), now, i + 1, scripts)
    else Ticked(t, now, i + 1, scripts)
  }

  /** The callbacks called while dispatching events `i` and up. */
  function Fired(t: Table, now: Cycle, i: nat, scripts: Scripts): seq<Call>
    requires i <= COUNT
    decreases COUNT - i
  {
    if i == COUNT then []
    else if Due(t[i], now) then
      (if t[i].callback == 0 then [] else [Call(i, t[i].callback, Late(now, t[i].deadline))])
      + Fired(AppliedAll(Disarmed(t, i), Effect(t, i, scripts)), now, i + 1, scripts)
    else Fired(t, now, i + 1, scripts)
  }

  /** The table after event `i` has had its turn, and the callbacks called in it. */
  function Turn(t: Table, now: Cycle, i: EventId, scripts: Scripts): (Table, seq<Call>) {
    if !Due(t[i], now) then (t, [])
    else
      (AppliedAll(Disarmed(t, i), Effect(t, i, scripts)),
       if t[i].callback == 0 then [] else [Call(i, t[i].callback, Late(now, t[i].deadline))])
  }

  lemma Unfolds(t: Table, now: Cycle, i: EventId, scripts: Scripts)
    ensures Ticked(t, now, i, scripts) == Ticked(Turn(t, now, i, scripts).0, now, i + 1, scripts)
    ensures Fired(t, now, i, scripts) == Turn(t, now, i, scripts).1 + Fired(Turn(t, now, i, scripts).0, now, i + 1, scripts)
  {
  }

  lemma Ends(t: Table, now: Cycle, scripts: Scripts)
    ensures Ticked(t, now, COUNT, scripts) == t && Fired(t, now, COUNT, scripts) == []
  {
  }

  // ---------------------------------------------------------------------------
  // What a dispatch leaves behind
  // ---------------------------------------------------------------------------

  /** Operation `n` of `ops` schedules event `j` no later than `now`. */
  predicate SchedulesBy(ops: seq<Op>, n: nat, j: EventId, now: Cycle) {
    n < |ops| && ops[n].Add? && ops[n].id == j && ops[n].cycle <= now
  }

  predicate Mentions(ops: seq<Op>, j: EventId) {
    exists n :: 0 <= n < |ops| && ops[n].id == j
  }

  lemma {:induction false} DueAfterOps(t: Table, ops: seq<Op>, j: EventId, now: Cycle)
    requires Due(AppliedAll(t, ops)[j], now)
    ensures Due(t[j], now) || exists n: nat :: SchedulesBy(ops, n, j, now)
    decreases |ops|
  {
    if ops != [] {
      DueAfterOps(Applied(t, ops[0]), ops[1..], j, now);
      if Due(Applied(t, ops[0])[j], now) {
        assert Due(t[j], now) || SchedulesBy(ops, 0, j, now);
      } else {
        var n: nat :| SchedulesBy(ops[1..], n, j, now);
        assert SchedulesBy(ops, n + 1, j, now);
      }
    }
  }

  lemma {:induction false} UntouchedByOps(t: Table, ops: seq<Op>, j: EventId)
    requires !Mentions(ops, j)
    ensures AppliedAll(t, ops)[j] == t[j]
    decreases |ops|
  {
    if ops != [] {
      assert ops[0].id != j;
      forall n | 0 <= n < |ops[1..]| ensures ops[1..][n].id != j {
        assert ops[1..][n] == ops[n + 1];
      }
      UntouchedByOps(Applied(t, ops[0]), ops[1..], j);
    }
  }

  /** An event that is due when a dispatch from `i` ends was either passed over because its
    * turn came before `i`, or put there by a callback that ran at or after its own turn. */
  lemma {:induction false} SurvivorFrom(t: Table, now: Cycle, i: nat, scripts: Scripts, j: EventId)
    requires i <= COUNT && Due(Ticked(t, now, i, scripts)[j], now)
    ensures (j < i && Due(t[j], now))
         || exists k: EventId, n: nat :: i <= k && j <= k && SchedulesBy(scripts[k], n, j, now)
    decreases COUNT - i
  {
    if i < COUNT {
      var next := if Due(t[i], now) then AppliedAll(Disarmed(t, i), Effect(t, i, scripts)) else t;
      SurvivorFrom(next, now, i + 1, scripts, j);
      if j < i + 1 && Due(next[j], now) && Due(t[i], now) {
        DueAfterOps(Disarmed(t, i), Effect(t, i, scripts), j, now);
      }
    }
  }

  /** No event is still due after a dispatch unless a callback scheduled it no later than
    * the cycle being dispatched, from its own slot or a later one. */
  lemma SurvivorWasScheduled(t: Table, now: Cycle, scripts: Scripts, j: EventId)
    requires Due(Ticked(t, now, 0, scripts)[j], now)
    ensures exists k: EventId, n: nat :: j <= k && SchedulesBy(scripts[k], n, j, now)
  {
    SurvivorFrom(t, now, 0, scripts, j);
  }

  /** The converse family: a callback that reschedules itself no later than `now` does survive. */
  lemma {:induction false} RescheduledNowSurvives(t: Table, now: Cycle, i: nat, scripts: Scripts, j: EventId)
    requires i <= COUNT && j < i && Due(t[j], now)
    requires forall k: EventId :: i <= k ==> !Mentions(scripts[k], j)
    ensures Due(Ticked(t, now, i, scripts)[j], now)
    decreases COUNT - i
  {
    if i < COUNT {
      if Due(t[i], now) {
        UntouchedByOps(Disarmed(t, i), Effect(t, i, scripts), j);
        RescheduledNowSurvives(AppliedAll(Disarmed(t, i), Effect(t, i, scripts)), now, i + 1, scripts, j);
      } else {
        RescheduledNowSurvives(t, now, i + 1, scripts, j);
      }
    }
  }

  /** If callbacks only schedule strictly later, nothing is due after a dispatch. */
  lemma NothingLeftDue(t: Table, now: Cycle, scripts: Scripts)
    requires forall k: EventId, n :: 0 <= n < |scripts[k]| && scripts[k][n].Add? ==> now < scripts[k][n].cycle
    ensures forall j: EventId :: !Due(Ticked(t, now, 0, scripts)[j], now)
  {
    forall j: EventId ensures !Due(Ticked(t, now, 0, scripts)[j], now) {
      if Due(Ticked(t, now, 0, scripts)[j], now) {
        SurvivorWasScheduled(t, now, scripts, j);
      }
    }
  }

  /** A due event whose schedule no earlier callback touches is called, with its own
    * callback and the cycles it is late by. */
  lemma {:induction false} DueIsCalled(t: Table, now: Cycle, i: nat, scripts: Scripts, j: EventId)
    requires i <= j && Due(t[j], now) && t[j].callback != 0
    requires forall k: EventId :: i <= k < j ==> !Mentions(scripts[k], j)
    ensures Call(j, t[j].callback, Late(now, t[j].deadline)) in Fired(t, now, i, scripts)
    decreases COUNT - i
  {
    if i < j {
      if Due(t[i], now) {
        UntouchedByOps(Disarmed(t, i), Effect(t, i, scripts), j);
        DueIsCalled(AppliedAll(Disarmed(t, i), Effect(t, i, scripts)), now, i + 1, scripts, j);
      } else {
        DueIsCalled(t, now, i + 1, scripts, j);
      }
    }
  }

  /** Calls come in table order, so no event is called twice in one dispatch. */
  lemma {:induction false} CallsAscend(t: Table, now: Cycle, i: nat, scripts: Scripts)
    requires i <= COUNT
    ensures forall a :: 0 <= a < |Fired(t, now, i, scripts)| ==> i <= Fired(t, now, i, scripts)[a].id
    ensures forall a, b :: 0 <= a < b < |Fired(t, now, i, scripts)|
              ==> Fired(t, now, i, scripts)[a].id < Fired(t, now, i, scripts)[b].id
    decreases COUNT - i
  {
    if i < COUNT {
      if Due(t[i], now) {
        CallsAscend(AppliedAll(Disarmed(t, i), Effect(t, i, scripts)), now, i + 1, scripts);
      } else {
        CallsAscend(t, now, i + 1, scripts);
      }
    }
  }

  // ---------------------------------------------------------------------------
  // The cache
  // ---------------------------------------------------------------------------

  /** `cycle` is no later than any active event. */
  predicate Bounds(t: Table, cycle: Cycle) {
    forall i: EventId :: t[i].active ==> cycle <= t[i].deadline
  }

  /** `id` is an active event at `cycle`; -1 stands for no event before the end of time. */
  predicate Attained(t: Table, cycle: Cycle, id: int) {
    if id == -1 then cycle == NEVER
    else 0 <= id < COUNT && t[id].active && t[id].deadline == cycle
  }

  predicate IsEarliest(t: Table, cycle: Cycle, id: int) {
    Bounds(t, cycle) && Attained(t, cycle, id)
  }

  /** The cached deadline is a function of the table, however it was arrived at. */
  lemma EarliestIsUnique(t: Table, a: Cycle, i: int, b: Cycle, j: int)
    requires IsEarliest(t, a, i) && IsEarliest(t, b, j)
    ensures a == b
  {
    assert i != -1 ==> b <= t[i].deadline;
    assert j != -1 ==> a <= t[j].deadline;
  }

  /** Nothing is due before the cached deadline, and something is due from then on. */
  lemma CacheDecides(t: Table, cycle: Cycle, id: int, now: Cycle)
    requires IsEarliest(t, cycle, id) && now < NEVER
    ensures cycle <= now <==> exists j: EventId :: Due(t[j], now)
  {
    if cycle <= now {
      assert Due(t[id], now);
    }
  }

  class EventQueue {
    const active: array<bool>
    const deadline: array<Cycle>
    const callback: array<Handler>
    var cachedEarliest: Cycle
    var earliestId: int

    ghost predicate Shaped()
      reads this
    {
      && active.Length == COUNT && deadline.Length == COUNT && callback.Length == COUNT
      && -1 <= earliestId < COUNT
    }

    ghost function Contents(): Table
      requires Shaped()
      reads this, active, deadline, callback
    {
      seq(COUNT, i requires 0 <= i < COUNT reads this, active, deadline, callback requires Shaped() =>
        Event(active[i], deadline[i], callback[i]))
    }

    /** The cache is right. */
    ghost predicate Valid()
      reads this, active, deadline, callback
    {
      Shaped() && IsEarliest(Contents(), cachedEarliest, earliestId)
    }

    /** The cache may be early, as it is between a dispatched event and the final rescan. */
    ghost predicate Bounded()
      reads this, active, deadline, callback
    {
      Shaped() && Bounds(Contents(), cachedEarliest)
    }

    constructor ()
      ensures Valid() && fresh(active) && fresh(deadline) && fresh(callback)
      ensures Contents() == seq(COUNT, i => Event(false, 0, 0))
    {
      active := new bool[COUNT](i => false);
      deadline := new Cycle[COUNT](i => 0);
      callback := new Handler[COUNT](i => 0);
      cachedEarliest := NEVER;
      earliestId := -1;
    }

    method Recompute()
      requires Shaped()
      modifies `cachedEarliest, `earliestId
      ensures Valid() && Contents() == old(Contents())
    {
      var earliest: Cycle := NEVER;
      var id := -1;
      for i := 0 to COUNT
        invariant -1 <= id < i
        invariant forall j :: 0 <= j < i && active[j] ==> earliest <= deadline[j]
        invariant if id == -1 then earliest == NEVER else active[id] && deadline[id] == earliest
      {
        if active[i] && deadline[i] < earliest {
          earliest := deadline[i];
          id := i;
        }
      }
      cachedEarliest := earliest;
      earliestId := id;
    }

    /** `Sched_Add`.  It repairs nothing when the cache was only a bound, but breaks nothing. */
    method Schedule(id: EventId, cycle: Cycle, cb: Handler)
      requires Bounded()
      modifies this, active, deadline, callback
      ensures Bounded() && Contents() == Applied(old(Contents()), Add(id, cycle, cb))
      ensures old(Valid()) ==> Valid()
    {
      var wasEarliest := id == earliestId;
      active[id] := true;
      deadline[id] := cycle;
      callback[id] := cb;
      assert Contents() == Applied(old(Contents()), Add(id, cycle, cb));
      if cycle <= cachedEarliest {
        cachedEarliest := cycle;
        earliestId := id;
        forall i: EventId | Contents()[i].active ensures cycle <= Contents()[i].deadline {
          assert i == id || old(Contents())[i].active;
        }
      } else if wasEarliest {
        Recompute();
      }
    }

    /** `Sched_Remove`. */
    method Cancel(id: EventId)
      requires Bounded()
      modifies this, active
      ensures Bounded() && Contents() == Applied(old(Contents()), Remove(id))
      ensures old(Valid()) ==> Valid()
    {
      var wasEarliest := id == earliestId;
      active[id] := false;
      assert Contents() == Applied(old(Contents()), Remove(id));
      if wasEarliest {
        Recompute();
      }
    }

    /** A callback: any run of additions and removals. */
    method Perform(ops: seq<Op>)
      requires Bounded()
      modifies this, active, deadline, callback
      ensures Bounded() && Contents() == AppliedAll(old(Contents()), ops)
      ensures old(Valid()) ==> Valid()
    {
      for n := 0 to |ops|
        invariant Bounded()
        invariant AppliedAll(Contents(), ops[n..]) == AppliedAll(old(Contents()), ops)
        invariant old(Valid()) ==> Valid()
      {
        assert ops[n..][0] == ops[n] && ops[n..][1..] == ops[n + 1..];
        match ops[n]
        case Add(id, cycle, cb) => Schedule(id, cycle, cb);
        case Remove(id) => Cancel(id);
      }
    }

    /** One turn of the dispatch loop; the cache is stale only if its own event went off. */
    method Dispatch(i: EventId, now: Cycle, scripts: Scripts) returns (calls: seq<Call>, stale: bool)
      requires Bounded()
      modifies this, active, deadline, callback
      ensures Bounded() && (old(Valid()) && !stale ==> Valid())
      ensures (Contents(), calls) == Turn(old(Contents()), now, i, scripts)
    {
      calls, stale := [], false;
      assert Contents()[i] == Event(active[i], deadline[i], callback[i]);
      if active[i] && deadline[i] <= now {
        stale := i == earliestId;
        var late := Late(now, deadline[i]);
        active[i] := false;
        assert Contents() == Disarmed(old(Contents()), i);
        if callback[i] != 0 {
          calls := [Call(i, callback[i], late)];
          Perform(scripts[i]);
        }
      }
    }

    /** `Sched_Tick`: the dispatch loop, with its callbacks. */
    method Tick(now: Cycle, scripts: Scripts) returns (calls: seq<Call>)
      requires Valid()
      modifies this, active, deadline, callback
      ensures Valid()
      ensures Contents() == Ticked(old(Contents()), now, 0, scripts)
      ensures calls == Fired(old(Contents()), now, 0, scripts)
    {
      hide *;
      ValidIsBounded();
      BoundedIsShaped();
      calls := [];
      var neededRecompute := false;
      for i := 0 to COUNT
        invariant Shaped() && Bounded() && (neededRecompute || Valid())
        invariant Ticked(Contents(), now, i, scripts) == Ticked(old(Contents()), now, 0, scripts)
        invariant calls + Fired(Contents(), now, i, scripts) == Fired(old(Contents()), now, 0, scripts)
      {
        Unfolds(Contents(), now, i, scripts);
        var called, stale := Dispatch(i, now, scripts);
        calls := calls + called;
        neededRecompute := neededRecompute || stale;
        BoundedIsShaped();
      }
      Ends(Contents(), now, scripts);
      if neededRecompute {
        BoundedIsShaped();
        Recompute();
      }
    }

    lemma BoundedIsShaped()
      requires Bounded()
      ensures Shaped()
    {
    }

    lemma ValidIsBounded()
      requires Valid()
      ensures Bounded()
    {
    }
  }
}
