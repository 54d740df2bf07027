// Ordering tables: DMA channel 6 writes a linked list backwards through RAM
// (src/dma.c:99-114), and DMA channel 2 follows such a list into the GPU
// (src/platform/ps2/gpu_ps2_dma.c:132-318).  The two are proved to fit: what one builds,
// the other walks, for every start address and every length.

module OrderingTable {

  /** The 2 MB of RAM, counted in words. */
  const WORDS := 0x8_0000

  const TERMINATOR := 0xFF_FFFF
  const MAX_PACKETS := 20000

  type Word = w: int | 0 <= w < 0x1_0000_0000

  /** A word of RAM, by its index; its byte address is four times that. */
  type Place = p: int | 0 <= p < WORDS

  type Ram = r: seq<Word> | |r| == WORDS witness seq(WORDS, i => 0)

  /** The word a DMA address register selects: `madr & 0x1FFFFC`, in words. */
  function Selected(madr: Word): Place {
    madr / 4 % WORDS
  }

  function Below(p: Place): Place {
    (p - 1) % WORDS
  }

  function Length(bcr: Word): nat {
    if bcr == 0 then 0x1_0000 else bcr
  }

  // ---------------------------------------------------------------------------
  // The table as it should come out
  // ---------------------------------------------------------------------------

  /** How far below `start` a word lies. */
  function Rank(start: Place, p: Place): Place {
    (start - p) % WORDS
  }

  /** Entry `k` of a table that starts at `start` and runs downwards, around the end of RAM. */
  function Entry(start: Place, k: nat): (p: Place)
    ensures Rank(start, p) == k % WORDS
  {
    (start - k) % WORDS
  }

  /** How many words a table of this length has: a longer one than RAM laps itself, and the
    * terminator cuts it where the last lap ended. */
  function Entries(length: nat): (n: nat)
    requires length > 0
    ensures 0 < n <= WORDS
  {
    (length - 1) % WORDS + 1
  }

  function Linked(ram: Ram, start: Place, written: nat): Ram {
    seq(WORDS, p requires 0 <= p < WORDS => if Rank(start, p) < written then 4 * Below(p) else ram[p])
  }

  /** RAM once the table stands. */
  function Built(ram: Ram, start: Place, length: nat): Ram
    requires length > 0
  {
    Linked(ram, start, length)[Entry(start, length - 1) := TERMINATOR]
  }

  lemma RankDecides(start: Place, p: Place, q: Place)
    requires Rank(start, p) == Rank(start, q)
    ensures p == q
  {
  }

  lemma Remainder(x: int, q: int, r: int)
    requires x == WORDS * q + r && 0 <= r < WORDS
    ensures x % WORDS == r
  {
  }

  lemma StepDown(start: Place, k: nat)
    ensures Below(Entry(start, k)) == Entry(start, k + 1)
  {
    var x := start - k;
    if x % WORDS == 0 {
      Remainder(x - 1, x / WORDS - 1, WORDS - 1);
    } else {
      Remainder(x - 1, x / WORDS, x % WORDS - 1);
    }
  }

  lemma StepUp(start: Place, k: nat)
    ensures (Entry(start, k + 1) + 1) % WORDS == Entry(start, k)
  {
    StepDown(start, k);
    hide Entry;
  }

  lemma StartsThere(start: Place)
    ensures Entry(start, 0) == start && Rank(start, start) == 0
  {
  }

  lemma OneMore(ram: Ram, start: Place, k: nat)
    ensures Linked(ram, start, k)[Entry(start, k) := 4 * Below(Entry(start, k))] == Linked(ram, start, k + 1)
  {
    hide Entry, Rank, Below;
    var next := Linked(ram, start, k)[Entry(start, k) := 4 * Below(Entry(start, k))];
    forall p: Place ensures next[p] == Linked(ram, start, k + 1)[p] {
      if Rank(start, p) == k {
        RankDecides(start, p, Entry(start, k));
      }
    }
  }

  class Memory {
    const ram: array<Word>
    var isolated: bool

    ghost predicate Valid()
      reads this
    {
      ram.Length == WORDS
    }

    constructor (cacheIsolated: bool)
      ensures Valid() && isolated == cacheIsolated && fresh(ram)
    {
      ram := new Word[WORDS](i => 0);
      isolated := cacheIsolated;
    }

    /** A word store to a RAM address outside the uncached segment. */
    method WriteWord(p: Place, data: Word)
      requires Valid()
      modifies ram
      ensures ram[..] == if isolated then old(ram[..]) else old(ram[..])[p := data]
    {
      if !isolated {
        ram[p] := data;
      }
    }

    /** `GPU_DMA6`. */
    method Clear(madr: Word, bcr: Word)
      requires Valid()
      modifies ram
      ensures isolated ==> ram[..] == old(ram[..])
      ensures !isolated ==> ram[..] == Built(old(ram[..]), Selected(madr), Length(bcr))
    {
      hide Linked, Entry, Below;
      StartsThere(Selected(madr));
      var start := Selected(madr);
      var p: Place := start;
      var length := Length(bcr);
      ghost var was: Ram := ram[..];
      NothingYet(was, start);
      while length > 0
        invariant 0 <= length <= Length(bcr)
        invariant p == Entry(start, Length(bcr) - length)
        invariant isolated ==> ram[..] == was
        invariant !isolated ==> ram[..] == Linked(was, start, Length(bcr) - length)
      {
        OneMore(was, start, Length(bcr) - length);
        StepDown(start, Length(bcr) - length);
        var next: Place := Below(p);
        WriteWord(p, 4 * next);
        p := next;
        length := length - 1;
      }
      StepUp(start, Length(bcr) - 1);
      WriteWord((p + 1) % WORDS, TERMINATOR);
    }

    /** Hand the `count` words behind the header at `p` to the GPU. */
    method Send(p: Place, count: nat) returns (payload: seq<Word>)
      requires Valid()
      ensures payload == Packet(ram[..], p, count)
    {
      payload := [];
      var q: Place := p;
      for i := 0 to count
        invariant q == Ahead(p, i)
        invariant payload == Packet(ram[..], p, i)
      {
        q := (q + 1) % WORDS;
        payload := payload + [ram[q]];
      }
    }

    /** The list half of `GPU_DMA2`: the headers visited, the words handed to the GPU, and
      * whether the chain came to its end. */
    method Walk(madr: Word) returns (visited: seq<Place>, payload: seq<Word>, completed: bool)
      requires Valid()
      ensures Walked(visited, payload, completed) == Followed(ram[..], Selected(madr), Selected(madr), MAX_PACKETS)
    {
      ghost var image: Ram := ram[..];
      hide *;
      visited, payload, completed := [], [], false;
      var start := Selected(madr);
      var p: Place := start;
      var packets := 0;
      Begin(image, start, MAX_PACKETS);
      while packets < MAX_PACKETS
        invariant 0 <= packets <= MAX_PACKETS
        invariant Followed(image, start, start, MAX_PACKETS)
               == Followed(image, start, p, MAX_PACKETS - packets).After(visited, payload)
      {
        var header := ram[p];
        var next := Link(header);
        var sent := Send(p, Count(header));
        var here := p;
        OnePacket(image, start, p, MAX_PACKETS - packets, visited, payload);
        visited, payload := visited + [here], payload + sent;
        packets := packets + 1;
        if next == TERMINATOR {
          completed := true;
          return;
        }
        if Refused(next, start, here) {
          return;
        }
        p := Target(next);
      }
      Gone(image, start, p, visited, payload);
    }
  }

  lemma NothingYet(ram: Ram, start: Place)
    ensures Linked(ram, start, 0) == ram
  {
  }

  // ---------------------------------------------------------------------------
  // Following a list
  // ---------------------------------------------------------------------------

  function Link(header: Word): nat {
    header % 0x100_0000
  }

  function Count(header: Word): nat {
    header / 0x100_0000
  }

  function Target(link: nat): Place {
    link / 4 % WORDS
  }

  /** Whether the walker gives up on a link: to its own packet, to the first one, or unaligned. */
  predicate Refused(link: nat, start: Place, here: Place) {
    link == 4 * here || Target(link) == start || link % 4 != 0
  }

  datatype Walked = Walked(visited: seq<Place>, payload: seq<Word>, completed: bool) {
    function After(before: seq<Place>, sent: seq<Word>): Walked {
      Walked(before + visited, sent + payload, completed)
    }
  }

  function Ahead(p: Place, i: nat): Place {
    (p + i) % WORDS
  }

  /** The first `count` words behind a header. */
  function Packet(ram: Ram, p: Place, count: nat): seq<Word> {
    seq(count, i requires 0 <= i < count => ram[Ahead(p, i + 1)])
  }

  function Followed(ram: Ram, start: Place, p: Place, fuel: nat): Walked
    decreases fuel
  {
    if fuel == 0 then Walked([], [], false)
    else
      var next := Link(ram[p]);
      var sent := Packet(ram, p, Count(ram[p]));
      if next == TERMINATOR then Walked([p], sent, true)
      else if Refused(next, start, p) then Walked([p], sent, false)
      else Followed(ram, start, Target(next), fuel - 1).After([p], sent)
  }

  /** Entries `k` to `k + n` of a table. */
  function Descent(start: Place, k: nat, n: nat): (d: seq<Place>)
    ensures |d| == n && forall i :: 0 <= i < n ==> d[i] == Entry(start, k + i)
    decreases n
  {
    if n == 0 then [] else [Entry(start, k)] + Descent(start, k + 1, n - 1)
  }

  lemma Begin(ram: Ram, start: Place, fuel: nat)
    ensures Followed(ram, start, start, fuel).After([], []) == Followed(ram, start, start, fuel)
  {
  }

  lemma Gone(ram: Ram, start: Place, p: Place, visited: seq<Place>, payload: seq<Word>)
    ensures Followed(ram, start, p, 0).After(visited, payload) == Walked(visited, payload, false)
  {
  }

  /** One packet of the walk. */
  lemma OnePacket(ram: Ram, start: Place, p: Place, fuel: nat, visited: seq<Place>, payload: seq<Word>)
    requires fuel > 0
    ensures Followed(ram, start, p, fuel).After(visited, payload)
         == (var next := Link(ram[p]);
             var seen, sent := visited + [p], payload + Packet(ram, p, Count(ram[p]));
             if next == TERMINATOR then Walked(seen, sent, true)
             else if Refused(next, start, p) then Walked(seen, sent, false)
             else Followed(ram, start, Target(next), fuel - 1).After(seen, sent))
  {
    hide Packet, Link, Count, Target, Refused;
    var rest := Followed(ram, start, Target(Link(ram[p])), fuel - 1);
    var here := Packet(ram, p, Count(ram[p]));
    assert visited + ([p] + rest.visited) == visited + [p] + rest.visited;
    assert payload + (here + rest.payload) == payload + here + rest.payload;
  }

  function Min(a: nat, b: nat): nat {
    if a < b then a else b
  }

  lemma LinkWord(p: Place)
    ensures Link(4 * p) == 4 * p && Count(4 * p) == 0 && Target(4 * p) == p && 4 * p < TERMINATOR
  {
  }

  /** What the table holds: a link down to the next entry, never to itself nor back to the
    * start, or at the last entry the terminator.  No header counts any words. */
  lemma EntryReads(ram: Ram, start: Place, length: nat, k: nat)
    requires length > 0 && k < Entries(length)
    ensures var word := Built(ram, start, length)[Entry(start, k)];
            && Count(word) == 0
            && (if k == Entries(length) - 1 then Link(word) == TERMINATOR
                else
                  && Link(word) != TERMINATOR && Target(Link(word)) == Entry(start, k + 1)
                  && !Refused(Link(word), start, Entry(start, k)))
  {
    hide Entry, Rank, Below;
    assert k % WORDS == k;
    if k == Entries(length) - 1 {
      RankDecides(start, Entry(start, k), Entry(start, length - 1));
    } else {
      StartsThere(start);
      StepDown(start, k);
      assert (k + 1) % WORDS == k + 1;
      hide Link, Count, Target;
      LinkWord(Entry(start, k + 1));
    }
  }

  lemma NoPacket(ram: Ram, p: Place)
    ensures Packet(ram, p, 0) == []
  {
  }

  /** A freshly built table, walked from its entry `k`. */
  lemma {:induction false} WalkFrom(ram: Ram, start: Place, length: nat, k: nat, fuel: nat)
    requires length > 0 && k < Entries(length)
    ensures Followed(Built(ram, start, length), start, Entry(start, k), fuel)
         == Walked(Descent(start, k, Min(Entries(length) - k, fuel)), [], Entries(length) - k <= fuel)
    decreases fuel
  {
    var built, p := Built(ram, start, length), Entry(start, k);
    if fuel > 0 {
      hide Built, Entry, Link, Count, Target, Refused, Packet, Entries;
      EntryReads(ram, start, length, k);
      NoPacket(built, p);
      var rest := Followed(built, start, Entry(start, k + 1), fuel - 1);
      if k < Entries(length) - 1 {
        WalkFrom(ram, start, length, k + 1, fuel - 1);
        OneOn(start, k, rest.visited, Entries(length) - k, fuel);
      }
      OneStep(built, start, p, fuel);
      assert Descent(start, k, 1) == [p];
    }
  }

  lemma OneOn(start: Place, k: nat, rest: seq<Place>, left: nat, fuel: nat)
    requires left > 1 && fuel > 0 && rest == Descent(start, k + 1, Min(left - 1, fuel - 1))
    ensures [Entry(start, k)] + rest == Descent(start, k, Min(left, fuel))
  {
  }

  lemma OneStep(ram: Ram, start: Place, p: Place, fuel: nat)
    requires fuel > 0 && Packet(ram, p, Count(ram[p])) == []
    ensures Followed(ram, start, p, fuel)
         == if Link(ram[p]) == TERMINATOR then Walked([p], [], true)
            else if Refused(Link(ram[p]), start, p) then Walked([p], [], false)
            else
              var rest := Followed(ram, start, Target(Link(ram[p])), fuel - 1);
              Walked([p] + rest.visited, rest.payload, rest.completed)
  {
    hide Packet, Link, Count, Target, Refused;
  }

  /** No word comes twice in one lap. */
  lemma DescentIsDistinct(start: Place, n: nat, i: nat, j: nat)
    requires i < j < n <= WORDS
    ensures Descent(start, 0, n)[i] == Entry(start, i) && Descent(start, 0, n)[i] != Descent(start, 0, n)[j]
  {
    hide Entry, Rank, Descent;
    assert i % WORDS == i && j % WORDS == j;
  }

  /** The walk of a fresh table visits its entries downwards, each once, hands the GPU no
    * words, and comes to the end exactly when the packet limit allows. */
  lemma TableWalks(ram: Ram, start: Place, length: nat)
    requires length > 0
    ensures var w := Followed(Built(ram, start, length), start, start, MAX_PACKETS);
            && w.visited == Descent(start, 0, Min(Entries(length), MAX_PACKETS))
            && (forall i, j :: 0 <= i < j < |w.visited| ==> w.visited[i] != w.visited[j])
            && w.payload == []
            && (w.completed <==> Entries(length) <= MAX_PACKETS)
  {
    StartsThere(start);
    WalkFrom(ram, start, length, 0, MAX_PACKETS);
    var n := Min(Entries(length), MAX_PACKETS);
    assert n <= WORDS;
    hide *;
    forall i, j | 0 <= i < j < n ensures Descent(start, 0, n)[i] != Descent(start, 0, n)[j] {
      DescentIsDistinct(start, n, i, j);
    }
  }

  /** A table no longer than RAM has as many entries as asked for, and leaves every other
    * word alone. */
  lemma OnlyTheTable(ram: Ram, start: Place, length: nat, p: Place)
    requires 0 < length <= WORDS
    ensures Entries(length) == length
    ensures Built(ram, start, length)[p] != ram[p] ==> exists k :: 0 <= k < length && p == Entry(start, k)
  {
    if Built(ram, start, length)[p] != ram[p] {
      hide Entry, Rank;
      RankDecides(start, p, Entry(start, Rank(start, p)));
    }
  }

  // ---------------------------------------------------------------------------
  // Addresses and headers
  // ---------------------------------------------------------------------------

  /** The address register counts bytes; its lowest two bits and those above 2 MB do not
    * matter.  A length of 0 stands for 65536. */
  lemma RegistersLaw(madr: Word, bcr: Word, p: Place, high: nat, low: nat)
    requires madr == 0x20_0000 * high + 4 * p + low && low < 4
    ensures Selected(madr) == p
    ensures Length(bcr) == 0x1_0000 <==> bcr == 0 || bcr == 0x1_0000
    ensures bcr != 0 ==> Length(bcr) == bcr
  {
    assert madr / 4 == WORDS * high + p;
    Remainder(madr / 4, high, p);
  }

  /** Every entry holds the byte address of the word below it, around the end of RAM, and the
    * last one FFFFFFh. */
  lemma TableLaw(ram: Ram, start: Place, length: nat, k: nat)
    requires k < length <= WORDS
    ensures Built(ram, start, length)[(start - k) % WORDS] ==
            if k == length - 1 then 0xFF_FFFF else 4 * ((start - k - 1) % WORDS)
  {
    hide Linked, Rank;
    LinkedAt(ram, start, length, k);
    if k < length - 1 { Apart(start, k, length - 1); }
    StepDown(start, k);
  }

  lemma LinkedAt(ram: Ram, start: Place, length: nat, k: nat)
    requires k < length <= WORDS
    ensures Linked(ram, start, length)[Entry(start, k)] == 4 * Below(Entry(start, k))
  {
    assert k % WORDS == k;
  }

  lemma Apart(start: Place, i: nat, j: nat)
    requires i < j < WORDS
    ensures Entry(start, i) != Entry(start, j)
  {
    assert i % WORDS == i && j % WORDS == j;
  }

  /** A header has the number of its words in the upper byte and the address of the next
    * packet below it.  FFFFFFh ends the list; a packet that names itself, the first one or an
    * unaligned address ends it too early. */
  lemma HeaderLaw(ram: Ram, start: Place, p: Place, fuel: nat, count: nat, link: nat)
    requires fuel > 0 && link < 0x100_0000 && ram[p] == 0x100_0000 * count + link
    ensures var sent := Packet(ram, p, count);
            && |sent| == count && (forall i :: 0 <= i < count ==> sent[i] == ram[(p + 1 + i) % WORDS])
            && Followed(ram, start, p, fuel) ==
               if link == 0xFF_FFFF then Walked([p], sent, true)
               else if link % 4 != 0 || link == 4 * p || link / 4 % WORDS == start then Walked([p], sent, false)
               else Followed(ram, start, link / 4 % WORDS, fuel - 1).After([p], sent)
  {
    HeaderFields(ram[p], count, link);
  }

  lemma HeaderFields(w: Word, count: nat, link: nat)
    requires link < 0x100_0000 && w == 0x100_0000 * count + link
    ensures Link(w) == link && Count(w) == count
  {
  }
}
