/** The memory card's transfers byte by byte, as a host on the other end of the line sees
    them. */
module MemoryCardLaws {
  import opened MemoryCard

  function XorOf(bytes: seq<Byte>): Byte
    requires bytes != []
  {
    var n := |bytes| - 1;
    if n == 0 then bytes[0] else ((XorOf(bytes[..n]) as bv8) ^ (bytes[n] as bv8)) as int
  }

  lemma {:induction false} FoldedIs(m: Byte, l: Byte, bytes: seq<Byte>, n: nat)
    requires n <= |bytes|
    ensures Folded(Xor(m, l), bytes, n) == XorOf([m, l] + bytes[..n])
    decreases n
  {
    hide Xor;
    var all := [m, l] + bytes[..n];
    if n == 0 {
      assert all == [m, l] && [m, l][..1] == [m];
      PairIs(m, l);
    } else {
      FoldedIs(m, l, bytes, n - 1);
      assert all[..n + 1] == [m, l] + bytes[..n - 1];
      LastIs(all);
    }
  }

  lemma PairIs(m: Byte, l: Byte)
    ensures XorOf([m, l]) == Xor(m, l)
  {
    assert [m, l][..1] == [m];
  }

  lemma LastIs(bytes: seq<Byte>)
    requires |bytes| > 1
    ensures XorOf(bytes) == Xor(XorOf(bytes[..|bytes| - 1]), bytes[|bytes| - 1])
  {
  }

  /** The checksum is the exclusive-or of the address bytes and the data. */
  lemma CheckIs(tx: seq<Byte>)
    requires |tx| >= 138
    ensures Check(Named(tx), tx[6..134]) == XorOf(tx[4..134])
  {
    hide Folded, XorOf, Xor;
    FoldedIs(tx[4], tx[5], tx[6..134], 128);
    assert tx[6..134][..128] == tx[6..134];
    assert [tx[4], tx[5]] + tx[6..134] == tx[4..134];
  }

  /** Both the flag byte and the two identification bytes come whatever is asked. */
  lemma HeaderReplies(s: Card, tx: seq<Byte>)
    requires s.phase == Idle && |tx| >= 138 && tx[0] == 0x81 && (tx[1] == 0x52 || tx[1] == 0x57)
    ensures Reply(s, tx, 0) == 0xFF && Reply(s, tx, 1) == (if s.flag.unread then 8 else 0) + (if s.flag.failed then 4 else 0)
    ensures Reply(s, tx, 2) == 0x5A && Reply(s, tx, 3) == 0x5D && Reply(s, tx, 4) == 0x00 && Reply(s, tx, 5) == 0x00
  {
    hide Next, After, Reply;
    Header(s, tx, tx[1]);
  }

  /** The sector that the fifth and the sixth byte name. */
  function SectorNamed(tx: seq<Byte>): int
    requires |tx| >= 6
  {
    256 * (tx[4] as int) + tx[5] as int
  }

  /** A write, 81h 57h: the address, 128 bytes, their checksum.  The sector is stored when the
      checksum is right and it is one of 1024; nothing else changes. */
  lemma WriteLaw(s: Card, tx: seq<Byte>, n: int)
    requires s.phase == Idle && |tx| >= 138 && tx[0] == 0x81 && tx[1] == 0x57 && n == SectorNamed(tx)
    ensures var good, done := tx[134] == XorOf(tx[4..134]), After(s, tx, 138);
            done.phase == Idle &&
            (forall p :: 0 <= p < 131072 ==>
              done.data[p] == if good && n < 1024 && 128 * n <= p < 128 * n + 128 then tx[6 + p - 128 * n] else s.data[p]) &&
            Reply(s, tx, 137) == (if n >= 1024 then 0xFF else if good && !s.flag.failed then 0x47 else 0x4E) &&
            done.flag.failed == (s.flag.failed || !good) && done.flag.unread == (s.flag.unread && !(good && n < 1024))
  {
    hide After, Reply, Next, Stored, Check, XorOf;
    WriteSession(s, tx);
    CheckIs(tx);
    assert Named(tx).Number() == n;
    if n < 1024 {
      var bytes := tx[6..134];
      forall p | 0 <= p < 131072
        ensures Stored(s.data, Named(tx), bytes)[p] == if 128 * n <= p < 128 * n + 128 then tx[6 + p - 128 * n] else s.data[p]
      {
        StoredAt(s.data, Named(tx), bytes, p);
      }
    } else {
      OffCard(s, tx);
    }
  }

  /** A write to a sector that is not there is answered with FFh. */
  lemma OffCard(s: Card, tx: seq<Byte>)
    requires Opens(s, tx, WRITE) && !Named(tx).OnCard()
    ensures Reply(s, tx, 137) == 0xFF
  {
    hide Xor, Address.OnCard, Stored, Next, Receives, Sound, After, Reply, Folded;
    Header(s, tx, WRITE);
    ReceivesFirst(After(s, tx, 6), tx[6..134]);
    Filling(s, tx, 6, After(s, tx, 6), SECTOR);
    Received(After(s, tx, 134), After(s, tx, 6), tx[6..134]);
    Settles(After(s, tx, 134), tx[134], tx[135], tx[136], tx[137]);
    Goes(s, tx, 134);
    Goes(s, tx, 135);
    Goes(s, tx, 136);
    Goes(s, tx, 137);
  }

  /** A read, 81h 52h: two acknowledgements, the address again, 128 bytes, the checksum, 47h. */
  lemma ReadLaw(s: Card, tx: seq<Byte>, n: int)
    requires s.phase == Idle && |tx| >= 141 && tx[0] == 0x81 && tx[1] == 0x52 && n == SectorNamed(tx) < 1024
    ensures Reply(s, tx, 6) == 0x5C && Reply(s, tx, 7) == 0x5D && Reply(s, tx, 8) == tx[4] && Reply(s, tx, 9) == tx[5] &&
            (forall p :: 128 * n <= p < 128 * n + 128 ==> Reply(s, tx, 10 + p - 128 * n) == s.data[p]) &&
            Reply(s, tx, 138) == XorOf([tx[4], tx[5]] + s.data[128 * n..128 * n + 128]) &&
            Reply(s, tx, 139) == 0x47 && Reply(s, tx, 140) == 0xFF &&
            After(s, tx, 141).phase == Idle && After(s, tx, 141).data == s.data && After(s, tx, 141).flag == s.flag
  {
    hide After, Reply, Next, XorOf, Folded;
    assert Named(tx).Number() == n;
    Echo(s, tx);
    ReadSession(s, tx);
    var bytes := SectorOf(s.data, Named(tx));
    assert bytes == s.data[128 * n..128 * n + 128];
    FoldedIs(tx[4], tx[5], bytes, 128);
    assert bytes[..128] == bytes;
    forall p | 128 * n <= p < 128 * n + 128 ensures Reply(s, tx, 10 + p - 128 * n) == s.data[p] {
      assert Reply(s, tx, 10 + (p - 128 * n)) == bytes[p - 128 * n];
    }
  }

  /** The identification, 81h 53h. */
  lemma IdentifyLaw(s: Card, tx: seq<Byte>)
    requires s.phase == Idle && |tx| >= 10 && tx[0] == 0x81 && tx[1] == 0x53
    ensures Reply(s, tx, 2) == 0x5A && Reply(s, tx, 3) == 0x5D && Reply(s, tx, 4) == 0x5C && Reply(s, tx, 5) == 0x5D
    ensures Reply(s, tx, 6) == 0x04 && Reply(s, tx, 7) == 0x00 && Reply(s, tx, 8) == 0x00 && Reply(s, tx, 9) == 0x80
    ensures After(s, tx, 10).phase == Idle && After(s, tx, 10).data == s.data && After(s, tx, 10).flag == s.flag
  {
    hide After, Reply, Next;
    IdentifyHead(s, tx);
    Goes(s, tx, 4);
    Identifies(After(s, tx, 4), tx[4]);
    Goes(s, tx, 5);
    Identifies(After(s, tx, 5), tx[5]);
    Goes(s, tx, 6);
    Identifies(After(s, tx, 6), tx[6]);
    Goes(s, tx, 7);
    Identifies(After(s, tx, 7), tx[7]);
    Goes(s, tx, 8);
    Identifies(After(s, tx, 8), tx[8]);
    Goes(s, tx, 9);
    Identifies(After(s, tx, 9), tx[9]);
  }

  lemma IdentifyHead(s: Card, tx: seq<Byte>)
    requires s.phase == Idle && |tx| >= 10 && tx[0] == 0x81 && tx[1] == 0x53
    ensures Reply(s, tx, 2) == 0x5A && Reply(s, tx, 3) == 0x5D && After(s, tx, 4) == s.(cmd := 0x53, phase := IdAck1)
  {
    hide Xor, Address.Number;
    assert After(s, tx, 0) == s;
    assert After(s, tx, 1) == s.(phase := Cmd);
    assert After(s, tx, 2) == s.(cmd := 0x53, phase := Id1);
    assert After(s, tx, 3) == s.(cmd := 0x53, phase := Id2);
  }

  /** One byte of the identification. */
  lemma Identifies(c: Card, t: Byte)
    ensures c.phase == IdAck1 ==> Next(c, t) == (c.(phase := IdAck2), 0x5C)
    ensures c.phase == IdAck2 ==> Next(c, t) == (c.(phase := IdData, count := 0), 0x5D)
    ensures c.phase == IdData ==> Next(c, t) == (c.(count := c.count + 1, phase := if c.count == 3 then Idle else IdData),
                                                 if c.count == 0 then 0x04 else if c.count == 3 then 0x80 else 0x00)
  {
    hide Xor, Address.Number;
  }

  /** Anything else is ignored: another first byte at once, another command after the flag. */
  lemma OtherwiseLaw(s: Card, tx: seq<Byte>)
    requires s.phase == Idle && |tx| >= 2
    ensures tx[0] != 0x81 ==> After(s, tx, 1) == s && Reply(s, tx, 0) == 0xFF
    ensures tx[0] == 0x81 && tx[1] != 0x52 && tx[1] != 0x53 && tx[1] != 0x57 ==> After(s, tx, 2) == s.(cmd := tx[1])
  {
    hide Xor, Address.Number;
    assert After(s, tx, 0) == s;
    if tx[0] == 0x81 { assert After(s, tx, 1) == s.(phase := Cmd); }
  }
}
