// The memory card's byte protocol (src/memorycard.c:233-517): one state machine step per
// byte exchanged.  Proved: the card's contents change in one place only, indices stay in
// range however the host behaves, and what a completed write stores a read gives back.

module MemoryCard {

  const SECTOR := 128
  const SECTORS := 1024
  const SIZE := 131072

  type Byte = b: int | 0 <= b < 0x100

  function Xor(a: Byte, b: Byte): Byte {
    ((a as bv8) ^ (b as bv8)) as int
  }

  datatype Phase =
    | Idle | Cmd | Id1 | Id2 | AddrMsb | AddrLsb
    | RdAck1 | RdAck2 | RdAddrMsb | RdAddrLsb | RdData | RdChk | RdEnd | RdComplete
    | WrData | WrChk | WrAck1 | WrAck2 | WrEnd
    | IdAck1 | IdAck2 | IdData

  const READ: Byte := 0x52
  const WRITE: Byte := 0x57
  const GET_ID: Byte := 0x53

  /** The FLAG byte: bit 3 until a write succeeds, bit 2 from the first that fails. */
  datatype Flag = Flag(unread: bool, failed: bool) {
    function Value(): Byte {
      (if unread then 8 else 0) + (if failed then 4 else 0)
    }
  }

  /** A sector number as the host sends it, high byte first. */
  datatype Address = Address(msb: Byte, lsb: Byte) {
    function Number(): (n: nat)
      ensures n < 0x1_0000
    {
      msb * 0x100 + lsb
    }

    predicate OnCard() {
      Number() < SECTORS
    }
  }

  datatype State = State(data: seq<Byte>, phase: Phase, cmd: Byte, flag: Flag, sector: Address, checksum: Byte,
                         count: nat, buffer: seq<Byte>)

  /** What every reachable state satisfies; in particular every index the next step uses is
    * within its array. */
  predicate Sound(s: State) {
    && |s.data| == SIZE && |s.buffer| == SECTOR
    && (s.phase == AddrLsb ==> s.sector.lsb == 0)
    && (s.phase == RdAck1 || s.phase == RdAck2 || s.phase == RdAddrMsb || s.phase == RdAddrLsb ==> s.count == 0)
    && (s.phase == RdData ==> s.count < SECTOR && s.sector.OnCard())
    && (s.phase == WrData ==> s.count < SECTOR)
    && (s.phase == IdData ==> s.count < 4)
  }

  type Card = s: State | Sound(s)
    witness State(seq(SIZE, i => 0), Idle, 0, Flag(true, false), Address(0, 0), 0, 0, seq(SECTOR, i => 0))

  const ID_DATA: seq<Byte> := [0x04, 0x00, 0x00, 0x80]

  /** The data with one sector replaced. */
  function Stored(data: seq<Byte>, sector: Address, bytes: seq<Byte>): (r: seq<Byte>)
    requires |data| == SIZE && |bytes| == SECTOR && sector.OnCard()
    ensures |r| == SIZE
  {
    data[..sector.Number() * SECTOR] + bytes + data[sector.Number() * SECTOR + SECTOR..]
  }

  function SectorOf(data: seq<Byte>, sector: Address): (r: seq<Byte>)
    requires |data| == SIZE && sector.OnCard()
    ensures |r| == SECTOR
  {
    data[sector.Number() * SECTOR..sector.Number() * SECTOR + SECTOR]
  }

  predicate InHeader(p: Phase) {
    p.Idle? || p.Cmd? || p.Id1? || p.Id2? || p.AddrMsb? || p.AddrLsb?
  }

  predicate InEcho(p: Phase) {
    p.RdAck1? || p.RdAck2? || p.RdAddrMsb? || p.RdAddrLsb?
  }

  predicate InRead(p: Phase) {
    p.RdData? || p.RdChk? || p.RdEnd? || p.RdComplete?
  }

  predicate InWrite(p: Phase) {
    p.WrData? || p.WrChk? || p.WrAck1? || p.WrAck2? || p.WrEnd?
  }

  predicate InGetId(p: Phase) {
    p.IdAck1? || p.IdAck2? || p.IdData?
  }

  /** One byte exchanged on a card that is in its slot: the new state, and the byte received. */
  function Next(s: Card, tx: Byte): (Card, Byte) {
    if InHeader(s.phase) then HeaderStep(s, tx)
    else if InEcho(s.phase) then EchoStep(s)
    else if InRead(s.phase) then ReadStep(s)
    else if InWrite(s.phase) then WriteStep(s, tx)
    else GetIdStep(s)
  }

  function HeaderStep(s: Card, tx: Byte): (Card, Byte)
    requires InHeader(s.phase)
  {
    match s.phase
    case Idle => (if tx == 0x81 then s.(phase := Cmd) else s, 0xFF)
    case Cmd => (s.(cmd := tx, phase := if tx == READ || tx == WRITE || tx == GET_ID then Id1 else Idle), s.flag.Value())
    case Id1 => (s.(phase := Id2), 0x5A)
    case Id2 => (s.(phase := if s.cmd == GET_ID then IdAck1 else AddrMsb), 0x5D)
    case AddrMsb => (s.(sector := Address(tx, 0), phase := AddrLsb), 0x00)
    case AddrLsb =>
      // The low byte is still 0, so or-ing the address byte in sets it.
      var sector := Address(s.sector.msb, tx);
      (s.(sector := sector, checksum := Xor(sector.msb, sector.lsb), count := 0,
          phase := if s.cmd == READ then RdAck1 else WrData), 0x00)
  }

  function EchoStep(s: Card): (Card, Byte)
    requires InEcho(s.phase)
  {
    match s.phase
    case RdAck1 => (s.(phase := RdAck2), 0x5C)
    case RdAck2 => (s.(phase := RdAddrMsb, sector := if s.sector.OnCard() then s.sector else Address(0xFF, 0xFF)), 0x5D)
    case RdAddrMsb => (s.(phase := RdAddrLsb), s.sector.msb)
    case RdAddrLsb => (s.(phase := if s.sector.OnCard() then RdData else Idle), s.sector.lsb)
  }

  /** The byte a read has come to. */
  function Current(s: Card): Byte
    requires s.phase == RdData
  {
    s.data[s.sector.Number() * SECTOR + s.count]
  }

  function ReadStep(s: Card): (Card, Byte)
    requires InRead(s.phase)
  {
    match s.phase
    case RdData =>
      var rx := Current(s);
      (s.(checksum := Xor(s.checksum, rx), count := s.count + 1, phase := if s.count + 1 >= SECTOR then RdChk else RdData), rx)
    case RdChk => (s.(phase := RdEnd), s.checksum)
    case RdEnd => (s.(phase := RdComplete), 0x47)
    case RdComplete => (s.(phase := Idle), 0xFF)
  }

  function WriteStep(s: Card, tx: Byte): (Card, Byte)
    requires InWrite(s.phase)
  {
    match s.phase
    case WrData =>
      (s.(buffer := s.buffer[s.count := tx], checksum := Xor(s.checksum, tx), count := s.count + 1,
          phase := if s.count + 1 >= SECTOR then WrChk else WrData), 0x00)
    case WrChk =>
      (if tx != s.checksum then s.(flag := s.flag.(failed := true), phase := WrAck1)
       else if s.sector.OnCard() then
         s.(data := Stored(s.data, s.sector, s.buffer), flag := s.flag.(unread := false), phase := WrAck1)
       else s.(phase := WrAck1), 0x00)
    case WrAck1 => (s.(phase := WrAck2), 0x5C)
    case WrAck2 => (s.(phase := WrEnd), 0x5D)
    case WrEnd =>
      (s.(phase := Idle), if !s.sector.OnCard() then 0xFF else if s.flag.failed then 0x4E else 0x47)
  }

  function GetIdStep(s: Card): (Card, Byte)
    requires InGetId(s.phase)
  {
    match s.phase
    case IdAck1 => (s.(phase := IdAck2), 0x5C)
    case IdAck2 => (s.(phase := IdData, count := 0), 0x5D)
    case IdData => (s.(count := s.count + 1, phase := if s.count + 1 >= 4 then Idle else IdData), ID_DATA[s.count])
  }

  lemma CardIsSound(c: Card)
    ensures Sound(c)
  {
  }

  // ---------------------------------------------------------------------------
  // Runs of bytes
  // ---------------------------------------------------------------------------

  /** The card after the first `n` bytes. */
  function After(s: Card, tx: seq<Byte>, n: nat): Card
    requires n <= |tx|
  {
    if n == 0 then s else Next(After(s, tx, n - 1), tx[n - 1]).0
  }

  /** What the host receives in exchange for byte `k`. */
  function Reply(s: Card, tx: seq<Byte>, k: nat): Byte
    requires k < |tx|
  {
    Next(After(s, tx, k), tx[k]).1
  }

  lemma Goes(s: Card, tx: seq<Byte>, n: nat)
    requires n < |tx|
    ensures After(s, tx, n + 1) == Next(After(s, tx, n), tx[n]).0 && Reply(s, tx, n) == Next(After(s, tx, n), tx[n]).1
  {
  }

  /** The least number of bytes in which a card can come to change its contents. */
  function Distance(s: Card): nat {
    match s.phase
    case Cmd => 134
    case Id1 => 133
    case Id2 => 132
    case AddrMsb => 131
    case AddrLsb => 130
    case WrData => 129 - s.count
    case WrChk => 1
    case _ => 135
  }

  lemma StepCloser(s: Card, tx: Byte)
    ensures Distance(s) <= Distance(Next(s, tx).0) + 1
    ensures Next(s, tx).0.data != s.data ==>
      && Distance(s) == 1 && tx == s.checksum && s.sector.OnCard()
      && Next(s, tx).0.data == Stored(s.data, s.sector, s.buffer)
    ensures s.flag.failed ==> Next(s, tx).0.flag.failed
  {
    hide Stored, Address.Number, Current, Xor;
  }

  /** No run of fewer bytes than that changes anything on the card.  From a card just
    * deselected it takes 135: a write that is cut short at any byte leaves the card as it was. */
  lemma {:induction false} CutShortIsHarmless(s: Card, tx: seq<Byte>, n: nat)
    requires n <= |tx| && n < Distance(s)
    ensures After(s, tx, n).data == s.data && Distance(s) <= Distance(After(s, tx, n)) + n
  {
    hide Next, Distance;
    if n > 0 {
      CutShortIsHarmless(s, tx, n - 1);
      StepCloser(After(s, tx, n - 1), tx[n - 1]);
    }
  }

  /** The card after `n` transfers, each ended by deselecting the port. */
  function Deselected(s: Card, transfers: seq<seq<Byte>>, n: nat): (r: Card)
    requires n <= |transfers|
    ensures n > 0 ==> r.phase == Idle
  {
    if n == 0 then s
    else
      var before := Deselected(s, transfers, n - 1);
      After(before, transfers[n - 1], |transfers[n - 1]|).(phase := Idle)
  }

  /** However many transfers are broken off, and with whatever bytes, none shorter than 135
    * bytes does anything to the card. */
  lemma {:induction false} BrokenOffIsHarmless(s: Card, transfers: seq<seq<Byte>>, n: nat)
    requires n <= |transfers| && s.phase == Idle
    requires forall i :: 0 <= i < n ==> |transfers[i]| < 135
    ensures Deselected(s, transfers, n).data == s.data
  {
    hide Next;
    if n > 0 {
      BrokenOffIsHarmless(s, transfers, n - 1);
      CutShortIsHarmless(Deselected(s, transfers, n - 1), transfers[n - 1], |transfers[n - 1]|);
    }
  }

  /** Once a write has failed, the error bit stays through every later run, ... */
  lemma {:induction false} FailureSticks(s: Card, tx: seq<Byte>, n: nat)
    requires n <= |tx| && s.flag.failed
    ensures After(s, tx, n).flag.failed
  {
    hide Next;
    if n > 0 {
      FailureSticks(s, tx, n - 1);
      StepCloser(After(s, tx, n - 1), tx[n - 1]);
    }
  }

  /** ... and no later write is ever answered with success, though its data be stored. */
  lemma NeverGoodAgain(s: Card, tx: seq<Byte>, k: nat)
    requires k < |tx| && s.flag.failed && After(s, tx, k).phase == WrEnd
    ensures Reply(s, tx, k) != 0x47
  {
    FailureSticks(s, tx, k);
  }

  // ---------------------------------------------------------------------------
  // Whole sessions
  // ---------------------------------------------------------------------------

  /** The exclusive-or of `c` and the first `n` bytes. */
  function Folded(c: Byte, bytes: seq<Byte>, n: nat): Byte
    requires n <= |bytes|
  {
    if n == 0 then c else Xor(Folded(c, bytes, n - 1), bytes[n - 1])
  }

  /** The checksum of a sector: both address bytes and all its data. */
  function Check(a: Address, bytes: seq<Byte>): Byte {
    Folded(Xor(a.msb, a.lsb), bytes, |bytes|)
  }

  predicate Opens(s: Card, tx: seq<Byte>, cmd: Byte) {
    s.phase == Idle && |tx| >= 138 && tx[0] == 0x81 && tx[1] == cmd
  }

  function Named(tx: seq<Byte>): Address
    requires |tx| >= 138
  {
    Address(tx[4], tx[5])
  }

  /** The six bytes every read and write begins with. */
  lemma Header(s: Card, tx: seq<Byte>, cmd: Byte)
    requires Opens(s, tx, cmd) && (cmd == READ || cmd == WRITE)
    ensures After(s, tx, 6) == s.(cmd := cmd, sector := Named(tx), checksum := Xor(tx[4], tx[5]), count := 0,
                                  phase := if cmd == READ then RdAck1 else WrData)
    ensures Reply(s, tx, 0) == 0xFF && Reply(s, tx, 1) == s.flag.Value()
    ensures Reply(s, tx, 2) == 0x5A && Reply(s, tx, 3) == 0x5D && Reply(s, tx, 4) == 0x00 && Reply(s, tx, 5) == 0x00
  {
    hide Xor, Address.Number;
    assert After(s, tx, 0) == s;
    assert After(s, tx, 1) == s.(phase := Cmd);
    assert After(s, tx, 2) == s.(cmd := cmd, phase := Id1);
    assert After(s, tx, 3) == s.(cmd := cmd, phase := Id2);
    assert After(s, tx, 4) == s.(cmd := cmd, phase := AddrMsb);
    assert After(s, tx, 5) == s.(cmd := cmd, sector := Address(tx[4], 0), phase := AddrLsb);
  }

  /** A card `n` bytes into receiving a sector. */
  predicate Receives(c: Card, from: Card, bytes: seq<Byte>, n: nat)
    requires |bytes| == SECTOR
  {
    && n <= SECTOR && c.phase == (if n == SECTOR then WrChk else WrData) && c.count == n
    && c.sector == from.sector && c.data == from.data && c.flag == from.flag
    && c.buffer[..n] == bytes[..n] && c.checksum == Folded(from.checksum, bytes, n)
  }

  lemma ReceivesFirst(from: Card, bytes: seq<Byte>)
    requires |bytes| == SECTOR && from.phase == WrData && from.count == 0
    ensures Receives(from, from, bytes, 0)
  {
    hide Xor, Address.OnCard;
  }

  lemma ReceivesOn(c: Card, from: Card, bytes: seq<Byte>, n: nat)
    requires |bytes| == SECTOR && n < SECTOR && Receives(c, from, bytes, n)
    ensures Receives(Next(c, bytes[n]).0, from, bytes, n + 1)
  {
    hide Xor, Address.OnCard;
    assert Next(c, bytes[n]).0.buffer[..n + 1] == c.buffer[..n] + [bytes[n]];
  }

  lemma Received(c: Card, from: Card, bytes: seq<Byte>)
    requires |bytes| == SECTOR && Receives(c, from, bytes, SECTOR)
    ensures c.phase == WrChk && c.buffer == bytes && c.checksum == Folded(from.checksum, bytes, SECTOR)
    ensures c.sector == from.sector && c.data == from.data && c.flag == from.flag
  {
    assert c.buffer == c.buffer[..SECTOR] && bytes == bytes[..SECTOR];
  }

  lemma {:induction false} Filling(s: Card, tx: seq<Byte>, at: nat, from: Card, n: nat)
    requires n <= SECTOR && at + SECTOR <= |tx| && Receives(After(s, tx, at), from, tx[at..at + SECTOR], 0)
    ensures Receives(After(s, tx, at + n), from, tx[at..at + SECTOR], n)
    decreases n
  {
    hide *;
    if n > 0 {
      Filling(s, tx, at, from, n - 1);
      ReceivesOn(After(s, tx, at + n - 1), from, tx[at..at + SECTOR], n - 1);
      Goes(s, tx, at + n - 1);
    }
  }

  /** The four bytes that end a write. */
  lemma Settles(c: Card, t: Byte, u: Byte, v: Byte, w: Byte)
    requires c.phase == WrChk
    ensures var d := Next(c, t).0;
            var e := Next(Next(d, u).0, v).0;
            && Next(e, w).0 == d.(phase := Idle)
            && d.data == (if t == c.checksum && c.sector.OnCard() then Stored(c.data, c.sector, c.buffer) else c.data)
            && d.flag == Flag(c.flag.unread && !(t == c.checksum && c.sector.OnCard()), c.flag.failed || t != c.checksum)
            && Next(e, w).1 == (if !c.sector.OnCard() then 0xFF else if d.flag.failed then 0x4E else 0x47)
  {
    hide Xor, Address.Number, Stored;
    var d := Next(c, t).0;
    assert d.phase == WrAck1;
    assert Next(d, u).0 == d.(phase := WrAck2);
    assert Next(Next(d, u).0, v).0 == d.(phase := WrEnd);
  }

  /** A write session of 138 bytes.  It stores the data exactly when the checksum matches and
    * the sector exists; it reports success exactly when it did and no write failed before. */
  lemma WriteSession(s: Card, tx: seq<Byte>)
    requires Opens(s, tx, WRITE)
    ensures var good := tx[134] == Check(Named(tx), tx[6..134]);
            var done := After(s, tx, 138);
            && done.phase == Idle
            && done.data == (if good && Named(tx).OnCard() then Stored(s.data, Named(tx), tx[6..134]) else s.data)
            && done.flag == Flag(s.flag.unread && !(good && Named(tx).OnCard()), s.flag.failed || !good)
            && (Reply(s, tx, 137) == 0x47 <==> good && Named(tx).OnCard() && !s.flag.failed)
            && (Reply(s, tx, 137) == 0x4E <==> Named(tx).OnCard() && (s.flag.failed || !good))
  {
    hide Xor, Address.OnCard, Stored, Next, Receives, Sound, After, Reply, Folded;
    Header(s, tx, WRITE);
    ReceivesFirst(After(s, tx, 6), tx[6..134]);
    Filling(s, tx, 6, After(s, tx, 6), SECTOR);
    var c := After(s, tx, 134);
    Received(c, After(s, tx, 6), tx[6..134]);
    Settles(c, tx[134], tx[135], tx[136], tx[137]);
    Goes(s, tx, 134);
    Goes(s, tx, 135);
    Goes(s, tx, 136);
    Goes(s, tx, 137);
  }

  lemma Echo(s: Card, tx: seq<Byte>)
    requires Opens(s, tx, READ)
    ensures Reply(s, tx, 6) == 0x5C && Reply(s, tx, 7) == 0x5D
    ensures Named(tx).OnCard() ==>
      && Reply(s, tx, 8) == tx[4] && Reply(s, tx, 9) == tx[5]
      && After(s, tx, 10) == After(s, tx, 6).(phase := RdData)
    ensures !Named(tx).OnCard() ==>
      && Reply(s, tx, 8) == 0xFF && Reply(s, tx, 9) == 0xFF
      && After(s, tx, 10).phase == Idle && After(s, tx, 10).data == s.data
  {
    hide Xor, Current;
    Header(s, tx, READ);
    var c := After(s, tx, 6);
    assert After(s, tx, 7) == c.(phase := RdAck2);
    var d := After(s, tx, 8);
    assert d == c.(phase := RdAddrMsb, sector := if c.sector.OnCard() then c.sector else Address(0xFF, 0xFF));
    assert After(s, tx, 9) == d.(phase := RdAddrLsb);
  }

  lemma Fetches(c: Card, t: Byte)
    requires c.phase == RdData
    ensures var rx := SectorOf(c.data, c.sector)[c.count];
            Next(c, t) == (c.(checksum := Xor(c.checksum, rx), count := c.count + 1,
                              phase := if c.count + 1 >= SECTOR then RdChk else RdData), rx)
  {
    hide Xor, Address.Number;
  }

  /** A card `n` bytes into sending a sector. */
  predicate Sends(c: Card, from: Card, n: nat) {
    && n <= SECTOR && from.sector.OnCard()
    && c == from.(phase := if n == SECTOR then RdChk else RdData, count := n,
                  checksum := Folded(from.checksum, SectorOf(from.data, from.sector), n))
  }

  lemma SendsOn(c: Card, from: Card, n: nat, t: Byte)
    requires n < SECTOR && Sends(c, from, n)
    ensures Sends(Next(c, t).0, from, n + 1) && Next(c, t).1 == SectorOf(from.data, from.sector)[n]
  {
    hide Next, SectorOf, Xor, Address.OnCard, Sound;
    Fetches(c, t);
  }

  lemma SendsFirst(c: Card, from: Card)
    requires from.sector.OnCard() && from.count == 0 && from.checksum == Xor(from.sector.msb, from.sector.lsb)
    requires c == from.(phase := RdData)
    ensures Sends(c, from, 0)
  {
    hide Xor, Address.OnCard, Sound, SectorOf;
  }

  lemma {:induction false} Reading(s: Card, tx: seq<Byte>, at: nat, from: Card, n: nat)
    requires n <= SECTOR && at + n <= |tx| && Sends(After(s, tx, at), from, 0)
    ensures Sends(After(s, tx, at + n), from, n)
    decreases n
  {
    hide *;
    if n > 0 {
      Reading(s, tx, at, from, n - 1);
      SendsOn(After(s, tx, at + n - 1), from, n - 1, tx[at + n - 1]);
      Goes(s, tx, at + n - 1);
    }
  }

  lemma SentByte(s: Card, tx: seq<Byte>, at: nat, from: Card, k: nat)
    requires k < SECTOR && at + k < |tx| && Sends(After(s, tx, at), from, 0)
    ensures from.sector.OnCard() && Reply(s, tx, at + k) == SectorOf(from.data, from.sector)[k]
  {
    assert from.sector.OnCard();
    hide *;
    Reading(s, tx, at, from, k);
    SendsOn(After(s, tx, at + k), from, k, tx[at + k]);
    Goes(s, tx, at + k);
  }

  /** A read session of 141 bytes: the sector, its checksum and the good end byte, after
    * which the card is as it was but for its scratch fields. */
  lemma ReadSession(s: Card, tx: seq<Byte>)
    requires Opens(s, tx, READ) && |tx| >= 141 && Named(tx).OnCard()
    ensures var bytes := SectorOf(s.data, Named(tx));
            var done := After(s, tx, 141);
            && (forall k :: 0 <= k < SECTOR ==> Reply(s, tx, 10 + k) == bytes[k])
            && Reply(s, tx, 138) == Check(Named(tx), bytes)
            && Reply(s, tx, 139) == 0x47 && Reply(s, tx, 140) == 0xFF
            && done.phase == Idle && done.data == s.data && done.flag == s.flag
  {
    hide Xor, Address.OnCard, Current, SectorOf, Next, Sends;
    Header(s, tx, READ);
    Echo(s, tx);
    SendsFirst(After(s, tx, 10), After(s, tx, 6));
    Reading(s, tx, 10, After(s, tx, 6), SECTOR);
    forall k | 0 <= k < SECTOR ensures Reply(s, tx, 10 + k) == SectorOf(s.data, Named(tx))[k] {
      SentByte(s, tx, 10, After(s, tx, 6), k);
    }
    hide After, Reply;
    Parts(After(s, tx, 138), After(s, tx, 6), tx[138], tx[139], tx[140]);
    Goes(s, tx, 138);
    Goes(s, tx, 139);
    Goes(s, tx, 140);
  }

  /** The three bytes that end a read. */
  lemma Parts(c: Card, from: Card, t: Byte, u: Byte, v: Byte)
    requires Sends(c, from, SECTOR)
    ensures var d, e := Next(c, t).0, Next(Next(c, t).0, u).0;
            && Next(c, t).1 == Folded(from.checksum, SectorOf(from.data, from.sector), SECTOR)
            && Next(d, u).1 == 0x47 && Next(e, v).1 == 0xFF
            && Next(e, v).0 == from.(phase := Idle, count := c.count, checksum := c.checksum)
  {
    hide Xor, Address.OnCard, Current, SectorOf, Folded;
    assert Next(c, t).0 == c.(phase := RdEnd);
    assert Next(Next(c, t).0, u).0 == c.(phase := RdComplete);
  }

  /** A sector reads as it was last stored; every other sector is untouched. */
  lemma StoredReads(data: seq<Byte>, a: Address, bytes: seq<Byte>, b: Address)
    requires |data| == SIZE && |bytes| == SECTOR && a.OnCard() && b.OnCard()
    ensures SectorOf(Stored(data, a, bytes), b) == if a == b then bytes else SectorOf(data, b)
  {
    assert a.Number() == b.Number() <==> a == b;
    hide Address.Number;
    var base := b.Number() * SECTOR;
    forall i | 0 <= i < SECTOR
      ensures SectorOf(Stored(data, a, bytes), b)[i] == (if a == b then bytes else SectorOf(data, b))[i]
    {
      StoredAt(data, a, bytes, base + i);
    }
  }

  lemma StoredAt(data: seq<Byte>, a: Address, bytes: seq<Byte>, p: nat)
    requires |data| == SIZE && |bytes| == SECTOR && a.OnCard() && p < SIZE
    ensures Stored(data, a, bytes)[p] ==
            if a.Number() * SECTOR <= p < a.Number() * SECTOR + SECTOR then bytes[p - a.Number() * SECTOR] else data[p]
  {
    hide Address.Number;
  }

  /** A write that was good, then a read of the same sector: the host gets back the 128
    * bytes and the checksum it sent, and the good end byte. */
  lemma WriteThenRead(s: Card, tx: seq<Byte>, rx: seq<Byte>)
    requires Opens(s, tx, WRITE) && Named(tx).OnCard() && tx[134] == Check(Named(tx), tx[6..134])
    requires Opens(After(s, tx, 138), rx, READ) && |rx| >= 141 && Named(rx) == Named(tx)
    ensures var done := After(s, tx, 138);
            && (forall k :: 0 <= k < SECTOR ==> Reply(done, rx, 10 + k) == tx[6..134][k])
            && Reply(done, rx, 138) == tx[134] && Reply(done, rx, 139) == 0x47
  {
    hide After, Reply, Stored, SectorOf, Check, Address.Number;
    WriteSession(s, tx);
    ReadSession(After(s, tx, 138), rx);
    StoredReads(s.data, Named(tx), tx[6..134], Named(tx));
  }

  // ---------------------------------------------------------------------------
  // The card in its slot
  // ---------------------------------------------------------------------------

  class Slot {
    const data: array<Byte>
    const buffer: array<Byte>
    var phase: Phase
    var cmd: Byte
    var flag: Flag
    var sector: Address
    var checksum: Byte
    var count: nat
    var loaded: bool

    ghost var image: seq<Byte>
    ghost var staged: seq<Byte>

    /** The two arrays hold what the ghost fields say. */
    ghost predicate Mirrored()
      reads `image, `staged, data, buffer
    {
      data != buffer && data[..] == image && buffer[..] == staged
    }

    ghost function Contents(): State
      reads this
    {
      State(image, phase, cmd, flag, sector, checksum, count, staged)
    }

    ghost predicate Valid()
      reads this, data, buffer
    {
      Mirrored() && Sound(Contents())
    }

    /** `MCD_Init`, with the image a file or the formatter provides, if any. */
    constructor (file: seq<Byte>, present: bool)
      requires |file| == SIZE
      ensures Valid() && fresh(data) && fresh(buffer) && loaded == present
      ensures Contents().data == file && phase == Idle && flag == Flag(true, false)
    {
      data := new Byte[SIZE](i requires 0 <= i < SIZE => file[i]);
      buffer := new Byte[SECTOR](i => 0);
      phase, cmd, flag, sector, checksum, count, loaded := Idle, 0, Flag(true, false), Address(0, 0), 0, 0, present;
      image, staged := file, seq(SECTOR, i => 0);
      new;
      assert data[..] == image;
    }

    /** `MCD_Reset`, when the port is deselected. */
    method Reset()
      requires Valid()
      modifies `phase
      ensures Valid() && Contents() == old(Contents()).(phase := Idle)
    {
      phase := Idle;
    }

    /** The commit: the buffer goes to its sector in one piece. */
    method Commit()
      requires Mirrored() && |image| == SIZE && |staged| == SECTOR && sector.OnCard()
      modifies `image, data
      ensures Mirrored() && image == Stored(old(image), sector, staged)
    {
      var base := sector.Number() * SECTOR;
      forall i | 0 <= i < SECTOR {
        data[base + i] := buffer[i];
      }
      image := Stored(image, sector, staged);
      forall p | 0 <= p < SIZE ensures data[p] == image[p] {
        if base <= p < base + SECTOR {
          assert data[base + (p - base)] == buffer[p - base];
        }
      }
    }

    method TickHeader(tx: Byte) returns (rx: Byte)
      requires Valid() && InHeader(phase)
      modifies `phase, `cmd, `flag, `sector, `checksum, `count
      ensures (Contents(), rx) == HeaderStep(old(Contents()), tx) && Valid() && loaded == old(loaded)
    {
      CardIsSound(HeaderStep(Contents(), tx).0);
      hide Mirrored, Xor, Sound;
      rx := 0xFF;
      match phase
      case Idle =>
        if tx == 0x81 {
          phase := Cmd;
        }
      case Cmd =>
        rx := flag.Value();
        cmd := tx;
        if tx == READ || tx == WRITE {
          phase := Id1;
        } else if tx == GET_ID {
          phase := Id1;
        } else {
          phase := Idle;
        }
      case Id1 =>
        rx := 0x5A;
        phase := Id2;
      case Id2 =>
        rx := 0x5D;
        phase := if cmd == GET_ID then IdAck1 else AddrMsb;
      case AddrMsb =>
        sector := Address(tx, 0);
        rx := 0x00;
        phase := AddrLsb;
      case AddrLsb =>
        sector := Address(sector.msb, tx);
        rx := 0x00;
        checksum := Xor(sector.msb, sector.lsb);
        count := 0;
        phase := if cmd == READ then RdAck1 else WrData;
    }

    method Fetch() returns (rx: Byte)
      requires Valid() && phase == RdData
      ensures rx == Current(Contents())
    {
      rx := data[sector.Number() * SECTOR + count];
    }

    method Stage(tx: Byte)
      requires Valid() && phase == WrData
      modifies `staged, buffer
      ensures Mirrored() && staged == old(staged)[count := tx]
    {
      buffer[count] := tx;
      staged := staged[count := tx];
    }

    method TickEcho() returns (rx: Byte)
      requires Valid() && InEcho(phase)
      modifies `phase, `sector
      ensures (Contents(), rx) == EchoStep(old(Contents())) && Valid() && loaded == old(loaded)
    {
      CardIsSound(EchoStep(Contents()).0);
      hide Mirrored, Xor, Address.OnCard, Sound;
      match phase
      case RdAck1 =>
        rx := 0x5C;
        phase := RdAck2;
      case RdAck2 =>
        rx := 0x5D;
        phase := RdAddrMsb;
        if !sector.OnCard() {
          sector := Address(0xFF, 0xFF);
        }
      case RdAddrMsb =>
        rx := sector.msb;
        phase := RdAddrLsb;
      case RdAddrLsb =>
        rx := sector.lsb;
        phase := if sector.OnCard() then RdData else Idle;
    }

    method TickData() returns (rx: Byte)
      requires Valid() && phase == RdData
      modifies `phase, `checksum, `count
      ensures (Contents(), rx) == ReadStep(old(Contents())) && Valid() && loaded == old(loaded)
    {
      CardIsSound(ReadStep(Contents()).0);
      rx := Fetch();
      hide Mirrored, Xor, Address.OnCard, Current, Sound;
      checksum := Xor(checksum, rx);
      count := count + 1;
      if count >= SECTOR {
        phase := RdChk;
      }
    }

    method TickRead() returns (rx: Byte)
      requires Valid() && InRead(phase)
      modifies `phase, `checksum, `count
      ensures (Contents(), rx) == ReadStep(old(Contents())) && Valid() && loaded == old(loaded)
    {
      CardIsSound(ReadStep(Contents()).0);
      hide Mirrored, Xor, Address.OnCard, Current, Sound;
      match phase
      case RdData =>
        rx := TickData();
      case RdChk =>
        rx := checksum;
        phase := RdEnd;
      case RdEnd =>
        rx := 0x47;
        phase := RdComplete;
      case RdComplete =>
        rx := 0xFF;
        phase := Idle;
    }

    method TickCheck(tx: Byte) returns (rx: Byte)
      requires Valid() && phase == WrChk
      modifies `phase, `flag, `image, data
      ensures (Contents(), rx) == WriteStep(old(Contents()), tx) && Valid() && loaded == old(loaded)
    {
      CardIsSound(WriteStep(Contents(), tx).0);
      hide Stored, Xor, Address.OnCard;
      if tx == checksum {
        if sector.OnCard() {
          Commit();
          flag := flag.(unread := false);
        }
      } else {
        flag := flag.(failed := true);
      }
      rx := 0x00;
      phase := WrAck1;
    }

    method TickWrite(tx: Byte) returns (rx: Byte)
      requires Valid() && InWrite(phase)
      modifies this, data, buffer
      ensures (Contents(), rx) == WriteStep(old(Contents()), tx) && Valid() && loaded == old(loaded)
    {
      CardIsSound(WriteStep(Contents(), tx).0);
      hide Mirrored, Stored, Xor, Address.OnCard, Sound;
      match phase
      case WrData =>
        Stage(tx);
        checksum := Xor(checksum, tx);
        rx := 0x00;
        count := count + 1;
        if count >= SECTOR {
          phase := WrChk;
        }
      case WrChk =>
        rx := TickCheck(tx);
      case WrAck1 =>
        rx := 0x5C;
        phase := WrAck2;
      case WrAck2 =>
        rx := 0x5D;
        phase := WrEnd;
      case WrEnd =>
        if !sector.OnCard() {
          rx := 0xFF;
        } else if flag.failed {
          rx := 0x4E;
        } else {
          rx := 0x47;
        }
        phase := Idle;
    }

    method TickGetId() returns (rx: Byte)
      requires Valid() && InGetId(phase)
      modifies `phase, `cmd, `flag, `sector, `checksum, `count
      ensures (Contents(), rx) == GetIdStep(old(Contents())) && Valid() && loaded == old(loaded)
    {
      CardIsSound(GetIdStep(Contents()).0);
      hide Mirrored;
      match phase
      case IdAck1 =>
        rx := 0x5C;
        phase := IdAck2;
      case IdAck2 =>
        rx := 0x5D;
        count := 0;
        phase := IdData;
      case IdData =>
        rx := ID_DATA[count];
        count := count + 1;
        if count >= 4 {
          phase := Idle;
        }
    }

    /** `MCD_Tick`. */
    method Tick(tx: Byte) returns (rx: Byte)
      requires Valid()
      modifies this, data, buffer
      ensures Valid() && loaded == old(loaded)
      ensures !loaded ==> rx == 0xFF && Contents() == old(Contents())
      ensures loaded ==> (Contents(), rx) == Next(old(Contents()), tx)
    {
      hide HeaderStep, EchoStep, ReadStep, WriteStep, GetIdStep, Sound, Mirrored;
      rx := 0xFF;
      if !loaded {
        return;
      }
      if InHeader(phase) {
        rx := TickHeader(tx);
      } else if InEcho(phase) {
        rx := TickEcho();
      } else if InRead(phase) {
        rx := TickRead();
      } else if InWrite(phase) {
        rx := TickWrite(tx);
      } else {
        rx := TickGetId();
      }
    }
  }
}
