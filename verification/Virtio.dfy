/**
 * The virtio disk driver and the device behind it: descriptor chains, the avail ring the driver
 * fills, the used ring the device fills, and the completion interrupt. Both rings have NUM slots
 * and 16-bit indices that wrap.
 */
module Virtio {
  import opened Basics
  import opened Blocks
  import opened Counting

  const NUM := 8
  const WRAP := 0x1_0000
  const F_NEXT := 1
  const F_WRITE := 2
  const PENDING := 0xff
  const SECTORS := 2  // 512-byte sectors in a block

  /** Where a descriptor points: a command header, the data of buffer b, or a status byte. */
  datatype Addr = Null | Op(k: nat) | Data(b: nat) | Status(k: nat)

  datatype Desc = Desc(addr: Addr, len: nat, flags: nat, next: nat)

  datatype Req = Req(write: bool, sector: nat)

  const NoDesc := Desc(Null, 0, 0, 0)

  /** Driver memory. busy holds the buffers whose disk flag is set. */
  datatype Ring = Ring(desc: seq<Desc>, free: seq<bool>, ops: seq<Req>, info: seq<Option<nat>>, status: seq<nat>,
                       avail: seq<nat>, availIdx: nat, used: seq<nat>, usedIdx: nat, usedSeen: nat, busy: set<nat>)

  /**
   * The device: how far it has read the avail ring, the chains it has yet to serve and those it has yet
   * to report, and the memory it transfers between: buffer data and disk contents.
   */
  datatype Dev = Dev(seen: nat, work: set<nat>, ready: set<nat>, data: seq<Block>, platter: seq<Block>)

  datatype Phase = Building | Posted | Taken | Served | Answered | Done

  /** A request in flight, without its first descriptor. */
  datatype Chain = Chain(i1: nat, i2: nat, b: nat, blockno: nat, write: bool, phase: Phase)

  /** The requests in flight, by first descriptor. */
  type Flight = map<nat, Chain>

  /** Bookkeeping: chains by head, descriptors in the lock holder's hands, and the contents of both rings. */
  datatype Book = Book(flight: Flight, held: set<nat>, posted: seq<nat>, answered: seq<nat>)

  // ---- queues in a ring of NUM slots ----

  /** The ring holds q from 16-bit index first up to next. */
  ghost predicate Queue(ring: seq<nat>, first: nat, next: nat, q: seq<nat>) {
    && |ring| == NUM && first < WRAP && next == (first + |q|) % WRAP
    && forall k | 0 <= k < |q| :: ring[(first + k) % NUM] == q[k]
  }

  lemma WrapMod(x: nat)
    ensures x % WRAP % NUM == x % NUM
  {
    LowBits(x);
  }

  /** The low three bits of a number are those of its low sixteen. */
  lemma LowBits(x: nat)
    ensures x % 0x1_0000 % 8 == x % 8
  {
    var h, low := x / 0x1_0000, x % 0x1_0000;
    EightFold(x, 0x2000 * h + low / 8, low % 8);
  }

  lemma EightFold(x: nat, q: nat, r: nat)
    requires x == 8 * q + r && r < 8
    ensures x % 8 == r
  {
  }

  lemma Apart(first: nat, k: nat, n: nat)
    requires k < n < NUM
    ensures (first + k) % NUM != (first + n) % NUM
  {
  }

  lemma QueueSlot(ring: seq<nat>, first: nat, next: nat, q: seq<nat>, x: nat)
    requires Queue(ring, first, next, q) && |q| < NUM
    ensures Queue(ring[next % NUM := x], first, next, q)
  {
    WrapMod(first + |q|);
    forall k | 0 <= k < |q| ensures ring[next % NUM := x][(first + k) % NUM] == q[k] {
      Apart(first, k, |q|);
    }
  }

  lemma QueuePush(ring: seq<nat>, first: nat, next: nat, q: seq<nat>, x: nat)
    requires Queue(ring, first, next, q) && |q| < NUM && ring[next % NUM] == x
    ensures Queue(ring, first, (next + 1) % WRAP, q + [x])
  {
    WrapMod(first + |q|);
  }

  lemma QueuePop(ring: seq<nat>, first: nat, next: nat, q: seq<nat>)
    requires Queue(ring, first, next, q) && |q| < NUM
    ensures first == next <==> q == []
    ensures q != [] ==> ring[first % NUM] == q[0] && Queue(ring, (first + 1) % WRAP, next, q[1..])
  {
    if q != [] {
      var f := (first + 1) % WRAP;
      assert ring[(first + 0) % NUM] == q[0];
      forall k | 0 <= k < |q| - 1 ensures ring[(f + k) % NUM] == q[1..][k] {
        assert ring[(first + (k + 1)) % NUM] == q[k + 1];
        assert f == first + 1 || f == first + 1 - WRAP;
      }
    }
  }

  // ---- invariant ----

  /** Descriptor i belongs to the chain with head h. */
  predicate Owns(f: Flight, h: nat, i: nat) {
    h in f && (i == h || i == f[h].i1 || i == f[h].i2)
  }

  ghost predicate InUse(f: Flight, held: set<nat>, i: nat) {
    i in held || exists h :: Owns(f, h, i)
  }

  /** Chains are disjoint triples, and the free descriptors are exactly the rest. */
  ghost predicate Cells(free: seq<bool>, f: Flight, held: set<nat>) {
    && |free| == NUM
    && (forall h | h in f :: f[h].i1 != h && f[h].i2 != h && f[h].i1 != f[h].i2)
    && (forall h: nat, i: nat | Owns(f, h, i) :: i < NUM && i !in held)
    && (forall h: nat, k: nat, i: nat | Owns(f, h, i) && Owns(f, k, i) :: h == k)
    && (forall i | i in held :: i < NUM)
    && (forall i | 0 <= i < NUM :: free[i] <==> !InUse(f, held, i))
  }

  /** The descriptors of a chain, its header and its status describe its request. */
  ghost predicate ChainOk(s: Ring, d: Dev, h: nat, c: Chain) {
    && |s.desc| == |s.ops| == |s.info| == |s.status| == NUM && h < NUM && c.i1 < NUM && c.i2 < NUM
    && s.desc[h] == Desc(Op(h), 16, F_NEXT, c.i1)
    && s.desc[c.i1] == Desc(Data(c.b), BSIZE, (if c.write then 0 else F_WRITE) + F_NEXT, c.i2)
    && s.desc[c.i2] == Desc(Status(h), 1, F_WRITE, 0)
    && s.ops[h] == Req(c.write, c.blockno * SECTORS)
    && s.info[h] == Some(c.b)
    && s.status[h] == (if Complete(c.phase) then 0 else PENDING)
    && c.b < |d.data| && c.blockno < |d.platter|
  }

  /** The device has done the transfer. */
  predicate Complete(phase: Phase) { phase == Served || phase == Answered || phase == Done }

  ghost predicate Chains(s: Ring, d: Dev, f: Flight) {
    && |s.desc| == |s.ops| == |s.info| == |s.status| == NUM
    && forall h | h in f :: ChainOk(s, d, h, f[h])
  }

  /** The chain with head h is the unfinished request for buffer b. */
  predicate Waits(f: Flight, h: nat, b: nat) {
    h in f && f[h].b == b && f[h].phase != Done
  }

  ghost predicate Waited(f: Flight, b: nat) {
    exists h :: Waits(f, h, b)
  }

  /** No buffer has two requests, and a buffer's disk flag is set exactly while its request is unfinished. */
  ghost predicate Flags(busy: set<nat>, f: Flight) {
    && (forall h, k | h in f && k in f && f[h].b == f[k].b :: h == k)
    && (forall b :: b in busy <==> Waited(f, b))
  }

  /** q lists the chains in the given phase. */
  ghost predicate Lists(f: Flight, q: seq<nat>, phase: Phase) {
    Distinct(q) && forall h :: h in q <==> h in f && f[h].phase == phase
  }

  ghost predicate Phases(f: Flight, w: set<nat>, phase: Phase) {
    forall h :: h in w <==> h in f && f[h].phase == phase
  }

  /** Both rings hold exactly the chains on their way to the device and back. */
  ghost predicate Queues(s: Ring, d: Dev, g: Book) {
    && Queue(s.avail, d.seen, s.availIdx, g.posted) && Lists(g.flight, g.posted, Posted)
    && Queue(s.used, s.usedSeen, s.usedIdx, g.answered) && Lists(g.flight, g.answered, Answered)
    && Phases(g.flight, d.work, Taken) && Phases(g.flight, d.ready, Served)
  }

  /** A free descriptor is zeroed. */
  ghost predicate Blank(desc: seq<Desc>, free: seq<bool>) {
    |desc| == |free| && forall i | 0 <= i < |free| && free[i] :: desc[i] == NoDesc
  }

  ghost predicate Inv(s: Ring, d: Dev, g: Book) {
    && Cells(s.free, g.flight, g.held) && Blank(s.desc, s.free)
    && Chains(s, d, g.flight) && Flags(s.busy, g.flight) && Queues(s, d, g)
  }

  // ---- at most two chains ----

  const ALL: set<nat> := {0, 1, 2, 3, 4, 5, 6, 7}

  function Triple(f: Flight, h: nat): (r: set<nat>)
    requires h in f
  {
    {h, f[h].i1, f[h].i2}
  }

  lemma TripleOk(free: seq<bool>, f: Flight, held: set<nat>, h: nat)
    requires Cells(free, f, held) && h in f
    ensures |Triple(f, h)| == 3 && Triple(f, h) <= ALL && Triple(f, h) !! held
  {
    forall i | i in Triple(f, h) ensures i in ALL && i !in held {
      assert Owns(f, h, i);
    }
  }

  lemma TriplesApart(free: seq<bool>, f: Flight, held: set<nat>, h: nat, k: nat)
    requires Cells(free, f, held) && h in f && k in f && h != k
    ensures Triple(f, h) !! Triple(f, k)
  {
    forall i | i in Triple(f, h) && i in Triple(f, k) ensures false {
      assert Owns(f, h, i) && Owns(f, k, i);
    }
  }

  lemma ThreeChains(free: seq<bool>, f: Flight, held: set<nat>, x: nat, y: nat, z: nat)
    requires Cells(free, f, held) && x in f && y in f && z in f
    ensures x == y || y == z || x == z
  {
    if x != y && y != z && x != z {
      TripleOk(free, f, held, x);
      TripleOk(free, f, held, y);
      TripleOk(free, f, held, z);
      TriplesApart(free, f, held, x, y);
      TriplesApart(free, f, held, y, z);
      TriplesApart(free, f, held, x, z);
      hide Cells, Triple;
      NineApart(Triple(f, x), Triple(f, y), Triple(f, z));
    }
  }

  /** Never more than two requests are in flight. */
  lemma TwoInFlight(free: seq<bool>, f: Flight, held: set<nat>)
    requires Cells(free, f, held)
    ensures |f| <= 2
  {
    if |f| > 2 {
      var keys := f.Keys;
      var x :| x in keys;
      assert |keys - {x}| > 1;
      var y :| y in keys - {x};
      assert |keys - {x} - {y}| > 0;
      var z :| z in keys - {x} - {y};
      ThreeChains(free, f, held, x, y, z);
    }
  }

  lemma QueuesShort(s: Ring, d: Dev, g: Book)
    requires Cells(s.free, g.flight, g.held) && Queues(s, d, g)
    ensures |g.posted| <= 2 && |g.answered| <= 2
  {
    TwoInFlight(s.free, g.flight, g.held);
    FewDistinct(g.posted, g.flight.Keys);
    FewDistinct(g.answered, g.flight.Keys);
  }

  // ---- what a change of phase keeps ----

  ghost function Moved(f: Flight, h: nat, phase: Phase): (r: Flight)
    requires h in f
  {
    f[h := f[h].(phase := phase)]
  }

  lemma MovedCells(free: seq<bool>, f: Flight, held: set<nat>, h: nat, phase: Phase)
    requires Cells(free, f, held) && h in f
    ensures Cells(free, Moved(f, h, phase), held)
  {
    var r := Moved(f, h, phase);
    assert forall k: nat, i: nat :: Owns(r, k, i) <==> Owns(f, k, i);
    forall i | 0 <= i < NUM ensures InUse(r, held, i) <==> InUse(f, held, i) {
      if InUse(f, held, i) && i !in held { var k :| Owns(f, k, i); assert Owns(r, k, i); }
      if InUse(r, held, i) && i !in held { var k :| Owns(r, k, i); assert Owns(f, k, i); }
    }
  }

  lemma MovedFlags(busy: set<nat>, f: Flight, h: nat, phase: Phase)
    requires Flags(busy, f) && h in f && f[h].phase != Done
    ensures Flags(if phase == Done then busy - {f[h].b} else busy, Moved(f, h, phase))
  {
    var r := Moved(f, h, phase);
    forall b: nat ensures Waited(r, b) <==> Waited(f, b) && (phase == Done ==> b != f[h].b) {
      if Waited(r, b) {
        var k :| Waits(r, k, b);
        assert Waits(f, k, b);
      }
      if Waited(f, b) && (phase == Done ==> b != f[h].b) {
        var k :| Waits(f, k, b);
        assert Waits(r, k, b);
      }
    }
  }

  lemma MovedChains(s: Ring, d: Dev, f: Flight, h: nat, phase: Phase)
    requires Chains(s, d, f) && h in f && (Complete(phase) <==> Complete(f[h].phase))
    ensures Chains(s, d, Moved(f, h, phase))
  {
    forall k | k in f ensures ChainOk(s, d, k, Moved(f, h, phase)[k]) { assert ChainOk(s, d, k, f[k]); }
  }

  lemma ListsMore(f: Flight, q: seq<nat>, h: nat, phase: Phase)
    requires h in f && f[h].phase != phase && Lists(f, q, phase)
    ensures Lists(Moved(f, h, phase), q + [h], phase)
  {
    var r := Moved(f, h, phase);
    forall k: nat ensures k in q + [h] <==> k in r && r[k].phase == phase {
      assert k in q + [h] <==> k in q || k == h;
    }
  }

  lemma ListsLess(f: Flight, q: seq<nat>, from: Phase, phase: Phase)
    requires q != [] && Lists(f, q, from) && from != phase
    ensures q[0] in f && f[q[0]].phase == from && Lists(Moved(f, q[0], phase), q[1..], from)
  {
    assert q[0] in q;
    var r := Moved(f, q[0], phase);
    forall k: nat ensures k in q[1..] <==> k in r && r[k].phase == from {
      assert k in q <==> k == q[0] || k in q[1..];
    }
  }

  lemma ListsSame(f: Flight, q: seq<nat>, h: nat, other: Phase, phase: Phase)
    requires h in f && f[h].phase != other && phase != other && Lists(f, q, other)
    ensures Lists(Moved(f, h, phase), q, other)
  {
  }

  lemma PhasesSame(f: Flight, w: set<nat>, h: nat, other: Phase, phase: Phase)
    requires h in f && f[h].phase != other && phase != other && Phases(f, w, other)
    ensures Phases(Moved(f, h, phase), w, other)
  {
  }

  lemma PhasesMoved(f: Flight, w: set<nat>, h: nat, other: Phase, phase: Phase)
    requires h in f && Phases(f, w, other)
    ensures Phases(Moved(f, h, phase), if phase == other then w + {h} else w - {h}, other)
  {
  }

  /** The chains, descriptors and flags of a ring survive any change of phase before the last. */
  lemma MovedRest(s: Ring, d: Dev, g: Book, h: nat, phase: Phase)
    requires Cells(s.free, g.flight, g.held) && Chains(s, d, g.flight) && Flags(s.busy, g.flight)
    requires h in g.flight && g.flight[h].phase != Done && (Complete(phase) <==> Complete(g.flight[h].phase))
    ensures var r := Moved(g.flight, h, phase);
            && Cells(s.free, r, g.held) && Chains(s, d, r)
            && Flags(if phase == Done then s.busy - {g.flight[h].b} else s.busy, r)
  {
    MovedCells(s.free, g.flight, g.held, h, phase);
    MovedFlags(s.busy, g.flight, h, phase);
    MovedChains(s, d, g.flight, h, phase);
  }

  // ---- driver steps ----

  /** alloc_desc marks descriptor i used. */
  function TakeDesc(s: Ring, i: nat): (t: Ring)
    requires i < |s.free|
  {
    s.(free := s.free[i := false])
  }

  lemma TakeDescKeeps(s: Ring, d: Dev, g: Book, i: nat)
    requires Inv(s, d, g) && i < NUM && s.free[i]
    ensures Inv(TakeDesc(s, i), d, g.(held := g.held + {i}))
  {
    var held := g.held + {i};
    hide Flags, Queue, Lists, Phases, ChainOk;
    forall j | 0 <= j < NUM ensures InUse(g.flight, held, j) <==> InUse(g.flight, g.held, j) || j == i {}
    forall h: nat, j: nat | Owns(g.flight, h, j) ensures j !in held { assert InUse(g.flight, g.held, j); }
    ChainsFrame(s, TakeDesc(s, i), d, g.flight);
  }

  /** Chains only look at the descriptors, headers, buffers and status bytes. */
  lemma ChainsFrame(s: Ring, t: Ring, d: Dev, f: Flight)
    requires Chains(s, d, f) && t.desc == s.desc && t.ops == s.ops && t.info == s.info && t.status == s.status
    ensures Chains(t, d, f)
  {
    forall h | h in f ensures ChainOk(t, d, h, f[h]) { assert ChainOk(s, d, h, f[h]); }
  }

  /** free_desc clears descriptor i and marks it free. */
  function GiveDesc(s: Ring, i: nat): (t: Ring)
    requires i < |s.free| && i < |s.desc|
  {
    s.(desc := s.desc[i := NoDesc], free := s.free[i := true])
  }

  lemma GiveDescKeeps(s: Ring, d: Dev, g: Book, i: nat)
    requires Inv(s, d, g) && i in g.held
    ensures i < NUM && !s.free[i] && Inv(GiveDesc(s, i), d, g.(held := g.held - {i}))
  {
    var held := g.held - {i};
    assert InUse(g.flight, g.held, i);
    hide Flags, Queue, Lists, Phases;
    forall j | 0 <= j < NUM ensures InUse(g.flight, held, j) <==> InUse(g.flight, g.held, j) && j != i {}
    forall h | h in g.flight ensures ChainOk(GiveDesc(s, i), d, h, g.flight[h]) {
      assert ChainOk(s, d, h, g.flight[h]);
      assert Owns(g.flight, h, h) && Owns(g.flight, h, g.flight[h].i1) && Owns(g.flight, h, g.flight[h].i2);
    }
  }

  /** virtio_disk_rw writes the three descriptors, the header and the status, and sets b->disk. */
  function Fill(s: Ring, h: nat, c: Chain): (t: Ring)
    requires |s.desc| == |s.ops| == |s.info| == |s.status| == NUM && h < NUM && c.i1 < NUM && c.i2 < NUM
  {
    s.(ops := s.ops[h := Req(c.write, c.blockno * SECTORS)],
       desc := s.desc[h := Desc(Op(h), 16, F_NEXT, c.i1)]
                     [c.i1 := Desc(Data(c.b), BSIZE, (if c.write then 0 else F_WRITE) + F_NEXT, c.i2)]
                     [c.i2 := Desc(Status(h), 1, F_WRITE, 0)],
       status := s.status[h := PENDING],
       busy := s.busy + {c.b},
       info := s.info[h := Some(c.b)])
  }

  ghost function Filled(g: Book, h: nat, c: Chain): (r: Book) {
    g.(flight := g.flight[h := c], held := g.held - {h, c.i1, c.i2})
  }

  /** Three different descriptors held, and no request for the buffer: what virtio_disk_rw fills in. */
  ghost predicate CanFill(d: Dev, g: Book, h: nat, c: Chain) {
    && h in g.held && c.i1 in g.held && c.i2 in g.held && h != c.i1 && h != c.i2 && c.i1 != c.i2
    && c.phase == Building && c.b < |d.data| && c.blockno < |d.platter|
    && forall k | k in g.flight :: g.flight[k].b != c.b
  }

  lemma FillKeepsCells(free: seq<bool>, d: Dev, g: Book, h: nat, c: Chain)
    requires Cells(free, g.flight, g.held) && CanFill(d, g, h, c)
    ensures Cells(free, Filled(g, h, c).flight, Filled(g, h, c).held) && h !in g.flight
  {
    var f := g.flight;
    var r, held := Filled(g, h, c).flight, Filled(g, h, c).held;
    if h in f { assert Owns(f, h, h); }
    assert forall k: nat, j: nat :: Owns(r, k, j) <==> Owns(f, k, j) || (k == h && (j == h || j == c.i1 || j == c.i2));
    forall j | 0 <= j < NUM ensures InUse(r, held, j) <==> InUse(f, g.held, j) {
      if InUse(f, g.held, j) {
        if j !in g.held {
          var k :| Owns(f, k, j);
          assert Owns(r, k, j);
        } else if j !in held {
          assert Owns(r, h, j);
        }
      }
      if InUse(r, held, j) && j !in held { var k :| Owns(r, k, j); if k != h { assert Owns(f, k, j); } }
    }
  }

  lemma FillKeepsChains(s: Ring, d: Dev, g: Book, h: nat, c: Chain)
    requires Cells(s.free, g.flight, g.held) && Chains(s, d, g.flight) && CanFill(d, g, h, c)
    ensures h < NUM && c.i1 < NUM && c.i2 < NUM && Chains(Fill(s, h, c), d, Filled(g, h, c).flight)
  {
    var f := g.flight;
    var t, r := Fill(s, h, c), Filled(g, h, c).flight;
    forall k | k in r ensures ChainOk(t, d, k, r[k]) {
      if k != h {
        assert ChainOk(s, d, k, f[k]);
        assert Owns(f, k, k) && Owns(f, k, f[k].i1) && Owns(f, k, f[k].i2);
      }
    }
  }

  lemma FillKeepsFlags(busy: set<nat>, d: Dev, g: Book, h: nat, c: Chain)
    requires Flags(busy, g.flight) && CanFill(d, g, h, c) && h !in g.flight
    ensures Flags(busy + {c.b}, Filled(g, h, c).flight)
  {
    var f, r := g.flight, Filled(g, h, c).flight;
    forall b: nat ensures Waited(r, b) <==> Waited(f, b) || b == c.b {
      if Waited(f, b) { var k :| Waits(f, k, b); assert Waits(r, k, b); }
      if b == c.b { assert Waits(r, h, b); }
      if Waited(r, b) { var k :| Waits(r, k, b); assert k == h || Waits(f, k, b); }
    }
  }

  lemma FillKeeps(s: Ring, d: Dev, g: Book, h: nat, c: Chain)
    requires Inv(s, d, g) && CanFill(d, g, h, c)
    ensures h < NUM && c.i1 < NUM && c.i2 < NUM && Inv(Fill(s, h, c), d, Filled(g, h, c))
  {
    FillKeepsCells(s.free, d, g, h, c);
    FillKeepsChains(s, d, g, h, c);
    FillKeepsFlags(s.busy, d, g, h, c);
    FillKeepsQueues(s, d, g, h, c);
    FillKeepsBlank(s, d, g, h, c);
    hide Cells, Chains, Flags, CanFill, Queue, Lists, Phases, Blank;
  }

  lemma FillKeepsBlank(s: Ring, d: Dev, g: Book, h: nat, c: Chain)
    requires Cells(s.free, g.flight, g.held) && Blank(s.desc, s.free) && CanFill(d, g, h, c)
    requires |s.desc| == |s.ops| == |s.info| == |s.status| == NUM && h < NUM && c.i1 < NUM && c.i2 < NUM
    ensures Blank(Fill(s, h, c).desc, s.free)
  {
    assert InUse(g.flight, g.held, h) && InUse(g.flight, g.held, c.i1) && InUse(g.flight, g.held, c.i2);
  }

  lemma FillKeepsQueues(s: Ring, d: Dev, g: Book, h: nat, c: Chain)
    requires Queues(s, d, g) && c.phase == Building && h !in g.flight
    ensures Queues(s, d, Filled(g, h, c))
  {
    hide Queue, Distinct;
  }

  /** The head goes into the slot behind the last one of the avail ring. */
  function Post(s: Ring, h: nat): (t: Ring)
    requires |s.avail| == NUM
  {
    s.(avail := s.avail[s.availIdx % NUM := h])
  }

  /** Writing that slot overwrites nothing the device has yet to read. */
  lemma PostKeeps(s: Ring, d: Dev, g: Book, h: nat)
    requires Inv(s, d, g)
    ensures Inv(Post(s, h), d, g)
  {
    QueuesShort(s, d, g);
    QueueSlot(s.avail, d.seen, s.availIdx, g.posted, h);
    ChainsFrame(s, Post(s, h), d, g.flight);
    hide Cells, Flags, Chains, Queue, Lists, Phases;
  }

  function Bump(s: Ring): (t: Ring) {
    s.(availIdx := (s.availIdx + 1) % WRAP)
  }

  lemma BumpKeepsQueues(s: Ring, d: Dev, g: Book, h: nat)
    requires Cells(s.free, g.flight, g.held) && Queues(s, d, g)
    requires h in g.flight && g.flight[h].phase == Building && s.avail[s.availIdx % NUM] == h
    ensures Queues(Bump(s), d, g.(flight := Moved(g.flight, h, Posted), posted := g.posted + [h]))
  {
    QueuesShort(s, d, g);
    hide Cells, Queue, Lists, Phases, Moved;
    QueuePush(s.avail, d.seen, s.availIdx, g.posted, h);
    ListsMore(g.flight, g.posted, h, Posted);
    ListsSame(g.flight, g.answered, h, Answered, Posted);
    PhasesSame(g.flight, d.work, h, Taken, Posted);
    PhasesSame(g.flight, d.ready, h, Served, Posted);
  }

  lemma BumpKeeps(s: Ring, d: Dev, g: Book, h: nat)
    requires Inv(s, d, g) && h in g.flight && g.flight[h].phase == Building && s.avail[s.availIdx % NUM] == h
    ensures Inv(Bump(s), d, g.(flight := Moved(g.flight, h, Posted), posted := g.posted + [h]))
  {
    BumpKeepsQueues(s, d, g, h);
    hide Cells, Flags, Chains, Queues, Moved;
    MovedRest(s, d, g, h, Posted);
    ChainsFrame(s, Bump(s), d, Moved(g.flight, h, Posted));
  }

  /** One round of virtio_disk_intr's loop: the chain at the driver's place in the used ring is done. */
  function Acknowledge(s: Ring): (t: Ring)
    requires |s.used| == NUM && s.used[s.usedSeen % NUM] < |s.info| && s.info[s.used[s.usedSeen % NUM]].Some?
  {
    s.(busy := s.busy - {s.info[s.used[s.usedSeen % NUM]].value}, usedSeen := (s.usedSeen + 1) % WRAP)
  }

  /**
   * What the interrupt handler finds: it has work exactly when the device has answered, for a chain whose
   * status is 0.
   */
  lemma Finds(s: Ring, d: Dev, g: Book)
    requires Inv(s, d, g)
    ensures s.usedSeen != s.usedIdx <==> g.answered != []
    ensures g.answered != [] ==>
            var id := s.used[s.usedSeen % NUM];
            && id == g.answered[0] && id in g.flight && g.flight[id].phase == Answered
            && id < NUM && s.status[id] == 0 && s.info[id] == Some(g.flight[id].b)
  {
    QueuesShort(s, d, g);
    QueuePop(s.used, s.usedSeen, s.usedIdx, g.answered);
    if g.answered != [] {
      assert g.answered[0] in g.answered;
      assert ChainOk(s, d, g.answered[0], g.flight[g.answered[0]]);
    }
  }

  lemma AcknowledgeKeepsQueues(s: Ring, d: Dev, g: Book)
    requires Cells(s.free, g.flight, g.held) && Queues(s, d, g) && g.answered != []
    requires s.used[s.usedSeen % NUM] == g.answered[0] < |s.info| && s.info[g.answered[0]].Some?
    ensures g.answered[0] in g.flight && g.flight[g.answered[0]].phase == Answered
    ensures Queues(Acknowledge(s), d, g.(flight := Moved(g.flight, g.answered[0], Done), answered := g.answered[1..]))
  {
    var h := g.answered[0];
    QueuesShort(s, d, g);
    hide Cells, Queue, Lists, Phases, Moved;
    QueuePop(s.used, s.usedSeen, s.usedIdx, g.answered);
    ListsLess(g.flight, g.answered, Answered, Done);
    ListsSame(g.flight, g.posted, h, Posted, Done);
    PhasesSame(g.flight, d.work, h, Taken, Done);
    PhasesSame(g.flight, d.ready, h, Served, Done);
  }

  lemma AcknowledgeKeeps(s: Ring, d: Dev, g: Book)
    requires Inv(s, d, g) && g.answered != [] && g.answered[0] in g.flight
    requires s.used[s.usedSeen % NUM] == g.answered[0] && g.answered[0] < NUM
    requires s.info[g.answered[0]] == Some(g.flight[g.answered[0]].b)
    ensures Inv(Acknowledge(s), d, g.(flight := Moved(g.flight, g.answered[0], Done), answered := g.answered[1..]))
  {
    var h := g.answered[0];
    AcknowledgeKeepsQueues(s, d, g);
    hide Cells, Flags, Chains, Queues, Moved;
    MovedRest(s, d, g, h, Done);
    ChainsFrame(s, Acknowledge(s), d, Moved(g.flight, h, Done));
  }

  /** virtio_disk_rw forgets the buffer of a finished chain; its descriptors are the lock holder's again. */
  function Forget(s: Ring, h: nat): (t: Ring)
    requires h < |s.info|
  {
    s.(info := s.info[h := None])
  }

  ghost function Forgotten(g: Book, h: nat): (r: Book)
    requires h in g.flight
  {
    g.(flight := g.flight - {h}, held := g.held + Triple(g.flight, h))
  }

  lemma ForgetKeepsCells(free: seq<bool>, g: Book, h: nat)
    requires Cells(free, g.flight, g.held) && h in g.flight
    ensures Cells(free, Forgotten(g, h).flight, Forgotten(g, h).held)
  {
    var f := g.flight;
    var r, held := Forgotten(g, h).flight, Forgotten(g, h).held;
    assert forall k: nat, j: nat :: Owns(r, k, j) <==> Owns(f, k, j) && k != h;
    assert forall j: nat :: Owns(f, h, j) <==> j in Triple(f, h);
    forall j | 0 <= j < NUM ensures InUse(r, held, j) <==> InUse(f, g.held, j) {
      if InUse(f, g.held, j) && j !in held { var k :| Owns(f, k, j); assert Owns(r, k, j); }
      if InUse(r, held, j) && j !in held { var k :| Owns(r, k, j); assert Owns(f, k, j); }
    }
  }

  lemma ForgetKeepsQueues(s: Ring, d: Dev, g: Book, h: nat)
    requires Queues(s, d, g) && h in g.flight && g.flight[h].phase == Done && h < |s.info|
    ensures Queues(Forget(s, h), d, Forgotten(g, h))
  {
    hide Queue, Distinct;
  }

  lemma ForgetKeeps(s: Ring, d: Dev, g: Book, h: nat)
    requires Inv(s, d, g) && h in g.flight && g.flight[h].phase == Done
    ensures h < NUM && Inv(Forget(s, h), d, Forgotten(g, h))
  {
    var f, r := g.flight, Forgotten(g, h).flight;
    ForgetKeepsCells(s.free, g, h);
    ForgetKeepsFlags(s.busy, f, h);
    ForgetKeepsQueues(s, d, g, h);
    assert ChainOk(s, d, h, f[h]);
    hide Cells, Flags, Queues, Blank;
    forall k | k in r ensures ChainOk(Forget(s, h), d, k, r[k]) { assert ChainOk(s, d, k, f[k]); }
  }

  lemma ForgetKeepsFlags(busy: set<nat>, f: Flight, h: nat)
    requires Flags(busy, f) && h in f && f[h].phase == Done
    ensures Flags(busy, f - {h})
  {
    forall b: nat ensures Waited(f - {h}, b) <==> Waited(f, b) {
      if Waited(f, b) { var k :| Waits(f, k, b); assert Waits(f - {h}, k, b); }
      if Waited(f - {h}, b) { var k :| Waits(f - {h}, k, b); assert Waits(f, k, b); }
    }
  }

  // ---- device steps ----

  /** The device takes the next head from the avail ring. */
  function Take(s: Ring, d: Dev): (e: Dev)
    requires |s.avail| == NUM
  {
    d.(seen := (d.seen + 1) % WRAP, work := d.work + {s.avail[d.seen % NUM]})
  }

  lemma TakeKeepsQueues(s: Ring, d: Dev, g: Book)
    requires Cells(s.free, g.flight, g.held) && Queues(s, d, g) && d.seen != s.availIdx
    ensures g.posted != [] && g.posted[0] in g.flight && s.avail[d.seen % NUM] == g.posted[0]
    ensures g.flight[g.posted[0]].phase == Posted
    ensures Queues(s, Take(s, d), g.(flight := Moved(g.flight, g.posted[0], Taken), posted := g.posted[1..]))
  {
    QueuesShort(s, d, g);
    hide Cells, Queue, Lists, Phases, Moved;
    QueuePop(s.avail, d.seen, s.availIdx, g.posted);
    ListsLess(g.flight, g.posted, Posted, Taken);
    var h := g.posted[0];
    ListsSame(g.flight, g.answered, h, Answered, Taken);
    PhasesMoved(g.flight, d.work, h, Taken, Taken);
    PhasesSame(g.flight, d.ready, h, Served, Taken);
  }

  lemma TakeKeeps(s: Ring, d: Dev, g: Book)
    requires Inv(s, d, g) && d.seen != s.availIdx
    ensures g.posted != [] && g.posted[0] in g.flight && s.avail[d.seen % NUM] == g.posted[0]
    ensures Inv(s, Take(s, d), g.(flight := Moved(g.flight, g.posted[0], Taken), posted := g.posted[1..]))
  {
    TakeKeepsQueues(s, d, g);
    hide Cells, Flags, Chains, Queues, Moved, Blank;
    MovedRest(s, d, g, g.posted[0], Taken);
    DataFrame(s, d, Take(s, d), Moved(g.flight, g.posted[0], Taken));
  }

  lemma DataFrame(s: Ring, d: Dev, e: Dev, f: Flight)
    requires Chains(s, d, f) && |e.data| == |d.data| && |e.platter| == |d.platter|
    ensures Chains(s, e, f)
  {
    forall h | h in f ensures ChainOk(s, e, h, f[h]) { assert ChainOk(s, d, h, f[h]); }
  }

  /** The device can make sense of the chain at h: header, data and status, all in range. */
  predicate Readable(s: Ring, d: Dev, h: nat) {
    && h < |s.desc| && s.desc[h].addr.Op? && s.desc[h].addr.k < |s.ops| && s.desc[h].flags % 2 == 1
    && s.desc[h].len == 16
    && var op, i1 := s.ops[s.desc[h].addr.k], s.desc[h].next;
       && i1 < |s.desc| && s.desc[i1].addr.Data? && s.desc[i1].addr.b < |d.data| && s.desc[i1].len == BSIZE
       && s.desc[i1].flags % 2 == 1
       && s.desc[i1].flags / 2 % 2 == (if op.write then 0 else 1)
       && op.sector % SECTORS == 0 && op.sector / SECTORS < |d.platter|
       && var i2 := s.desc[i1].next;
          && i2 < |s.desc| && s.desc[i2].addr.Status? && s.desc[i2].addr.k < |s.status|
          && s.desc[i2].flags == F_WRITE && s.desc[i2].len == 1
  }

  /** The device carries out the request it reads at h and reports success in its status byte. */
  function Serve(s: Ring, d: Dev, h: nat): (r: (Ring, Dev))
    requires Readable(s, d, h)
  {
    var op, i1 := s.ops[s.desc[h].addr.k], s.desc[h].next;
    var b, n, i2 := s.desc[i1].addr.b, op.sector / SECTORS, s.desc[i1].next;
    (s.(status := s.status[s.desc[i2].addr.k := 0]),
     d.(work := d.work - {h}, ready := d.ready + {h},
        data := if op.write then d.data else d.data[b := d.platter[n]],
        platter := if op.write then d.platter[n := d.data[b]] else d.platter))
  }

  /** The device transfers exactly the block asked for, and touches no other buffer, block or status byte. */
  lemma ServeIsRequest(s: Ring, d: Dev, g: Book, h: nat)
    requires Inv(s, d, g) && h in d.work
    ensures h in g.flight && g.flight[h].b < |d.data| && g.flight[h].blockno < |d.platter| && Readable(s, d, h)
    ensures var c, e := g.flight[h], Serve(s, d, h).1;
            && (c.write ==> e.platter == d.platter[c.blockno := d.data[c.b]] && e.data == d.data)
            && (!c.write ==> e.data == d.data[c.b := d.platter[c.blockno]] && e.platter == d.platter)
            && Serve(s, d, h).0 == s.(status := s.status[h := 0])
  {
    hide Cells, Flags, Queue, Lists;
    assert ChainOk(s, d, h, g.flight[h]);
  }

  lemma ServeKeeps(s: Ring, d: Dev, g: Book, h: nat)
    requires Inv(s, d, g) && h in d.work && h in g.flight && Readable(s, d, h)
    requires Serve(s, d, h).0 == s.(status := s.status[h := 0])
    ensures Inv(Serve(s, d, h).0, Serve(s, d, h).1, g.(flight := Moved(g.flight, h, Served)))
  {
    var (t, e) := Serve(s, d, h);
    var r := Moved(g.flight, h, Served);
    assert g.flight[h].phase == Taken;
    hide Cells, Flags, Chains, Queue, Lists, Phases, Moved, Readable;
    assert e.work == d.work - {h} && e.ready == d.ready + {h} && e.seen == d.seen;
    assert |e.data| == |d.data| && |e.platter| == |d.platter|;
    hide Serve;
    ListsSame(g.flight, g.posted, h, Posted, Served);
    ListsSame(g.flight, g.answered, h, Answered, Served);
    PhasesMoved(g.flight, d.work, h, Taken, Served);
    PhasesMoved(g.flight, d.ready, h, Served, Served);
    MovedCells(s.free, g.flight, g.held, h, Served);
    MovedFlags(s.busy, g.flight, h, Served);
    ServedChains(s, d, g.flight, h);
    DataFrame(t, d, e, r);
  }

  lemma ServedChains(s: Ring, d: Dev, f: Flight, h: nat)
    requires Chains(s, d, f) && h in f
    ensures h < NUM && Chains(s.(status := s.status[h := 0]), d, Moved(f, h, Served))
  {
    assert ChainOk(s, d, h, f[h]);
    forall k | k in f
      ensures ChainOk(s.(status := s.status[h := 0]), d, k, Moved(f, h, Served)[k])
    {
      assert ChainOk(s, d, k, f[k]);
    }
  }

  /** The device puts a served chain into the used ring. */
  function Answer(s: Ring, h: nat): (t: Ring)
    requires |s.used| == NUM
  {
    s.(used := s.used[s.usedIdx % NUM := h], usedIdx := (s.usedIdx + 1) % WRAP)
  }

  lemma AnswerKeepsQueues(s: Ring, d: Dev, g: Book, h: nat)
    requires Cells(s.free, g.flight, g.held) && Queues(s, d, g) && h in g.flight && g.flight[h].phase == Served
    ensures Queues(Answer(s, h), d.(ready := d.ready - {h}),
                   g.(flight := Moved(g.flight, h, Answered), answered := g.answered + [h]))
  {
    QueuesShort(s, d, g);
    hide Cells, Queue, Lists, Phases, Moved;
    QueueSlot(s.used, s.usedSeen, s.usedIdx, g.answered, h);
    QueuePush(s.used[s.usedIdx % NUM := h], s.usedSeen, s.usedIdx, g.answered, h);
    ListsMore(g.flight, g.answered, h, Answered);
    ListsSame(g.flight, g.posted, h, Posted, Answered);
    PhasesSame(g.flight, d.work, h, Taken, Answered);
    PhasesMoved(g.flight, d.ready, h, Served, Answered);
  }

  lemma AnswerKeeps(s: Ring, d: Dev, g: Book, h: nat)
    requires Inv(s, d, g) && h in d.ready
    ensures h in g.flight
    ensures Inv(Answer(s, h), d.(ready := d.ready - {h}),
                g.(flight := Moved(g.flight, h, Answered), answered := g.answered + [h]))
  {
    assert h in g.flight && g.flight[h].phase == Served;
    AnswerKeepsQueues(s, d, g, h);
    hide Cells, Flags, Chains, Queues, Moved;
    MovedRest(s, d, g, h, Answered);
    ChainsFrame(s, Answer(s, h), d, Moved(g.flight, h, Answered));
    DataFrame(Answer(s, h), d, d.(ready := d.ready - {h}), Moved(g.flight, h, Answered));
  }

  // ---- alloc3_desc ----

  /** s with the descriptors in held taken. */
  ghost function Holding(s: Ring, held: set<nat>): (t: Ring) {
    s.(free := seq(|s.free|, i => i !in held && 0 <= i < |s.free| && s.free[i]))
  }

  lemma HoldingNone(s: Ring)
    ensures Holding(s, {}) == s
  {
    assert Holding(s, {}).free == s.free;
  }

  lemma HoldingMore(s: Ring, held: set<nat>, i: nat)
    requires i < |s.free| && Holding(s, held).free[i]
    ensures TakeDesc(Holding(s, held), i) == Holding(s, held + {i}) && s.free[i] && i !in held
  {
    assert TakeDesc(Holding(s, held), i).free == Holding(s, held + {i}).free;
  }

  lemma HoldingLess(s: Ring, held: set<nat>, i: nat)
    requires Blank(s.desc, s.free) && i < |s.free| && i in held && s.free[i]
    ensures GiveDesc(Holding(s, held), i) == Holding(s, held - {i})
  {
    assert GiveDesc(Holding(s, held), i).free == Holding(s, held - {i}).free;
    assert s.desc[i := NoDesc] == s.desc;
  }

  ghost function Firsts(q: seq<int>): (r: set<nat>) {
    set x: nat | x in q
  }

  ghost predicate Spread(q: seq<int>) {
    (forall i | 0 <= i < |q| :: 0 <= q[i] < NUM) && forall i, j | 0 <= i < j < |q| :: q[i] != q[j]
  }

  lemma FirstsNext(q: seq<int>)
    requires Spread(q) && q != []
    ensures q[0] in Firsts(q) && Firsts(q[1..]) == Firsts(q) - {q[0] as nat} && Spread(q[1..])
  {
    assert q == [q[0]] + q[1..];
  }

  lemma FirstsMore(q: seq<int>, i: nat)
    requires Spread(q) && i !in Firsts(q) && i < NUM
    ensures Firsts(q + [i]) == Firsts(q) + {i} && Spread(q + [i])
  {
  }

  lemma {:induction false} FirstsSize(q: seq<int>)
    requires Spread(q)
    ensures |Firsts(q)| == |q|
  {
    if q == [] {
      assert Firsts(q) == {};
    } else {
      FirstsNext(q);
      FirstsSize(q[1..]);
    }
  }

  /** With no free descriptor and at most two held, two requests are in flight. */
  lemma NoRoom(free: seq<bool>, f: Flight, held: set<nat>)
    requires Cells(free, f, held) && (forall i | 0 <= i < NUM :: !free[i]) && |held| <= 2
    ensures |f| >= 2
  {
    if |f| <= 1 {
      var rest := {};
      if h :| h in f {
        OneKey(f, h);
        TripleOk(free, f, held, h);
        rest := Triple(f, h);
      }
      forall i | i in ALL ensures i in held + rest {
        assert InUse(f, held, i);
        if i !in held { var k :| Owns(f, k, i); assert k in f.Keys; }
      }
      hide Cells;
      FiveOfEight(held, rest);
    }
  }

  lemma FiveOfEight(a: set<nat>, b: set<nat>)
    requires |a| <= 2 && |b| <= 3
    ensures !(ALL <= a + b)
  {
    if ALL <= a + b { Smaller(ALL, a + b); }
  }

  lemma OneKey(f: Flight, h: nat)
    requires h in f && |f| <= 1
    ensures f.Keys == {h}
  {
    if k :| k in f && k != h { Smaller({h, k}, f.Keys); }
  }

  /** Three held descriptors leave room for one request. */
  lemma Room(free: seq<bool>, f: Flight, held: set<nat>)
    requires Cells(free, f, held) && |held| >= 3
    ensures |f| <= 1
  {
    if |f| > 1 {
      var x :| x in f;
      assert |f.Keys - {x}| > 0;
      var y :| y in f.Keys - {x};
      TripleOk(free, f, held, x);
      TripleOk(free, f, held, y);
      TriplesApart(free, f, held, x, y);
      forall i | i in held ensures i in ALL {}
      hide Cells, Triple;
      NineApart(held, Triple(f, x), Triple(f, y));
    }
  }

  lemma NineApart(a: set<nat>, b: set<nat>, c: set<nat>)
    requires |a| >= 3 && |b| == 3 && |c| == 3 && a !! b && b !! c && a !! c
    ensures !(a + b + c <= ALL)
  {
    assert |a + b + c| >= 9;
    if a + b + c <= ALL { Smaller(a + b + c, ALL); }
  }

  // ---- whole runs ----

  /** What the device may do next. */
  datatype Act = TakeNext | ServeChain(h: nat) | AnswerChain(h: nat)

  /** What an action does: the oldest posted chain is taken, a taken one served, a served one answered. */
  ghost predicate ActDone(g: Book, r: Book, act: Act) {
    match act
    case TakeNext =>
      if g.posted != [] && g.posted[0] in g.flight then
        r.flight == Moved(g.flight, g.posted[0], Taken) && r.posted == g.posted[1..] && r.answered == g.answered
      else r == g
    case ServeChain(h) =>
      if h in g.flight && g.flight[h].phase == Taken then
        r.flight == Moved(g.flight, h, Served) && r.posted == g.posted && r.answered == g.answered
      else r == g
    case AnswerChain(h) =>
      if h in g.flight && g.flight[h].phase == Served then
        r.flight == Moved(g.flight, h, Answered) && r.posted == g.posted && r.answered == g.answered + [h]
      else r == g
  }

  /** With nothing for it to do an action does nothing. */
  lemma NoAct(s: Ring, d: Dev, g: Book, act: Act)
    requires Inv(s, d, g)
    requires match act
             case TakeNext => d.seen == s.availIdx
             case ServeChain(h) => h !in d.work
             case AnswerChain(h) => h !in d.ready
    ensures ActDone(g, g, act)
  {
    QueuesShort(s, d, g);
    hide Cells, Chains, Flags, Lists, Queue, Blank, Moved;
    QueuePop(s.avail, d.seen, s.availIdx, g.posted);
  }

  function Rank(phase: Phase): (n: nat) {
    match phase
    case Building => 0 case Posted => 1 case Taken => 2 case Served => 3 case Answered => 4 case Done => 5
  }

  /** From g to r the same chains are in flight, none has gone back, and none the device does not own has moved. */
  ghost predicate Advanced(g: Book, r: Book) {
    && r.held == g.held && r.flight.Keys == g.flight.Keys
    && forall h | h in g.flight ::
         && r.flight[h] == g.flight[h].(phase := r.flight[h].phase)
         && Rank(g.flight[h].phase) <= Rank(r.flight[h].phase)
         && (g.flight[h].phase == Building <==> r.flight[h].phase == Building)
         && (g.flight[h].phase == Done <==> r.flight[h].phase == Done)
  }

  lemma AdvancedTwice(g: Book, r: Book, t: Book)
    requires Advanced(g, r) && Advanced(r, t)
    ensures Advanced(g, t)
  {
    forall h | h in g.flight
      ensures t.flight[h] == g.flight[h].(phase := t.flight[h].phase)
      ensures Rank(g.flight[h].phase) <= Rank(t.flight[h].phase)
    {
      assert h in r.flight && h in t.flight;
    }
  }

  /** From g to r the same chains are in flight and none has gone back; the driver may have finished some. */
  ghost predicate Settled(g: Book, r: Book) {
    && r.held == g.held && r.flight.Keys == g.flight.Keys
    && forall h | h in g.flight ::
         && r.flight[h] == g.flight[h].(phase := r.flight[h].phase)
         && Rank(g.flight[h].phase) <= Rank(r.flight[h].phase)
  }

  lemma SettledTwice(g: Book, r: Book, t: Book)
    requires Settled(g, r) && (Settled(r, t) || Advanced(r, t))
    ensures Settled(g, t)
  {
    forall h | h in g.flight
      ensures t.flight[h] == g.flight[h].(phase := t.flight[h].phase)
      ensures Rank(g.flight[h].phase) <= Rank(t.flight[h].phase)
    {
      assert h in r.flight && h in t.flight;
    }
  }

  lemma MoveAdvances(g: Book, h: nat, phase: Phase, r: Book)
    requires h in g.flight && Rank(g.flight[h].phase) <= Rank(phase) && r.flight == Moved(g.flight, h, phase)
    requires r.held == g.held
    ensures Settled(g, r)
    ensures g.flight[h].phase != Building && phase != Done ==> Advanced(g, r)
  {
  }

  lemma AdvancedSame(g: Book)
    ensures Advanced(g, g) && Settled(g, g)
  {
  }

  /** The device's three steps keep the invariant and only move their own chain on. */
  lemma TakeStep(s: Ring, d: Dev, g: Book) returns (r: Book)
    requires Inv(s, d, g) && d.seen != s.availIdx
    ensures |s.avail| == NUM && Inv(s, Take(s, d), r) && Advanced(g, r) && r.answered == g.answered
    ensures Keeps(d, g.flight, Take(s, d), r.flight) && ActDone(g, r, TakeNext)
  {
    TakeKeeps(s, d, g);
    TakeKeepsQueues(s, d, g);
    assert g.posted[0] in g.posted;
    hide Inv, Advanced, Keeps;
    r := g.(flight := Moved(g.flight, g.posted[0], Taken), posted := g.posted[1..]);
    MoveAdvances(g, g.posted[0], Taken, r);
    MoveKeeps(d, g.flight, Take(s, d), g.posted[0], Taken);
  }

  lemma InWork(s: Ring, d: Dev, g: Book, h: nat)
    requires Inv(s, d, g) && h in d.work
    ensures h in g.flight && g.flight[h].phase == Taken
  {
    hide Cells, Chains, Flags, Blank, Queue, Lists;
  }

  lemma InReady(s: Ring, d: Dev, g: Book, h: nat)
    requires Inv(s, d, g) && h in d.ready
    ensures h in g.flight && g.flight[h].phase == Served && |s.used| == NUM
  {
    hide Cells, Chains, Flags, Blank, Lists;
  }

  lemma ServeStep(s: Ring, d: Dev, g: Book, h: nat) returns (r: Book)
    requires Inv(s, d, g) && h in d.work
    ensures Readable(s, d, h) && Inv(Serve(s, d, h).0, Serve(s, d, h).1, r) && Advanced(g, r)
    ensures r.answered == g.answered
    ensures Keeps(d, g.flight, Serve(s, d, h).1, r.flight) && ActDone(g, r, ServeChain(h))
  {
    hide Inv, Advanced, Keeps, Readable, Serve, Moved;
    ServeIsRequest(s, d, g, h);
    ServeKeeps(s, d, g, h);
    InWork(s, d, g, h);
    r := g.(flight := Moved(g.flight, h, Served));
    MoveAdvances(g, h, Served, r);
    ServeCarries(d, g.flight, Serve(s, d, h).1, h);
  }

  lemma AnswerStep(s: Ring, d: Dev, g: Book, h: nat) returns (r: Book)
    requires Inv(s, d, g) && h in d.ready
    ensures |s.used| == NUM && Inv(Answer(s, h), d.(ready := d.ready - {h}), r) && Advanced(g, r)
    ensures r.answered == g.answered + [h]
    ensures Keeps(d, g.flight, d.(ready := d.ready - {h}), r.flight) && ActDone(g, r, AnswerChain(h))
  {
    hide Inv, Advanced, Keeps, Moved;
    AnswerKeeps(s, d, g, h);
    InReady(s, d, g, h);
    MoveKeeps(d, g.flight, d.(ready := d.ready - {h}), h, Answered);
    r := g.(flight := Moved(g.flight, h, Answered), answered := g.answered + [h]);
    MoveAdvances(g, h, Answered, r);
  }

  /** virtio_disk_intr's step on the oldest answer. */
  lemma AcknowledgeStep(s: Ring, d: Dev, g: Book) returns (r: Book)
    requires Inv(s, d, g) && g.answered != []
    ensures |s.used| == |s.info| == |s.status| == NUM && s.used[s.usedSeen % NUM] < NUM
    ensures s.status[s.used[s.usedSeen % NUM]] == 0 && s.info[s.used[s.usedSeen % NUM]].Some?
    ensures s.info[s.used[s.usedSeen % NUM]].value in s.busy
    ensures Inv(Acknowledge(s), d, r) && Settled(g, r) && Keeps(d, g.flight, d, r.flight)
  {
    Finds(s, d, g);
    AcknowledgeKeeps(s, d, g);
    var h := g.answered[0];
    assert h in g.answered;
    assert Waits(g.flight, h, g.flight[h].b);
    hide Inv, Settled, Keeps;
    MoveKeeps(d, g.flight, d, h, Done);
    r := g.(flight := Moved(g.flight, h, Done), answered := g.answered[1..]);
    MoveAdvances(g, h, Done, r);
  }

  /** With no answer left, what was answered is done, its buffer's flag is clear and its status is 0. */
  lemma AllDone(s: Ring, d: Dev, g: Book, r: Book, h: nat)
    requires Inv(s, d, r) && Settled(g, r) && r.answered == [] && h in g.flight && g.flight[h].phase == Answered
    ensures h in r.flight && r.flight[h].phase == Done && r.flight[h].b !in s.busy
  {
    assert h !in r.answered;
    hide Cells, Chains;
    forall k: nat ensures !Waits(r.flight, k, r.flight[h].b) {}
  }

  /** A buffer whose flag is clear has no unfinished request: its chain is done, and the device served it. */
  lemma FlagClear(s: Ring, d: Dev, g: Book, h: nat)
    requires Inv(s, d, g) && h in g.flight && g.flight[h].b !in s.busy
    ensures h < NUM && g.flight[h].phase == Done && s.status[h] == 0
  {
    hide Cells, Queues;
    assert ChainOk(s, d, h, g.flight[h]);
    assert Waits(g.flight, h, g.flight[h].b) <==> g.flight[h].phase != Done;
  }

  /** Freeing a finished chain: its three descriptors are linked and in the lock holder's hands. */
  lemma ForgetStep(s: Ring, d: Dev, g: Book, h: nat)
    requires Inv(s, d, g) && h in g.flight && g.flight[h].phase == Done
    ensures h < NUM && Inv(Forget(s, h), d, Forgotten(g, h)) && ChainOk(s, d, h, g.flight[h])
    ensures var c := g.flight[h]; h != c.i1 && h != c.i2 && c.i1 != c.i2
    ensures Triple(g.flight, h) !! g.held
  {
    ForgetKeeps(s, d, g, h);
    TripleOk(s.free, g.flight, g.held, h);
  }

  /**
   * Chain h is new in r and made of descriptors that were free; the other chains of r are those of g, moved
   * on by the device at most.
   */
  ghost predicate Added(g: Book, r: Book, h: nat, c: Chain, free: seq<bool>) {
    && h !in g.flight && h in r.flight && r.flight[h] == c.(phase := r.flight[h].phase)
    && Advanced(g, r.(flight := r.flight - {h})) && Triple(r.flight, h) <= ALL && |free| == NUM
    && forall i | i in Triple(r.flight, h) :: 0 <= i < NUM && free[i]
  }

  /** The first descriptor handed out is no chain's head. */
  lemma NewHead(s: Ring, d: Dev, g: Book, h: nat)
    requires Inv(s, d, g) && h in g.held
    ensures h !in g.flight
  {
    hide Chains, Flags, Queues, Blank;
    assert !Owns(g.flight, h, h);
  }

  lemma AddedByFill(g: Book, m: Book, h: nat, c: Chain, free: seq<bool>)
    requires Advanced(g, m.(held := {})) && g.held == {} && h !in m.flight && m.held == {h, c.i1, c.i2}
    requires |free| == NUM && forall i | i in m.held :: 0 <= i < NUM && free[i]
    ensures Filled(m, h, c).held == {} && Added(g, Filled(m, h, c), h, c, free)
  {
    var r := Filled(m, h, c);
    assert r.flight - {h} == m.flight;
    assert r.held == {};
    assert Triple(r.flight, h) == m.held;
  }

  lemma AddedOn(g: Book, r: Book, t: Book, h: nat, c: Chain, free: seq<bool>)
    requires Added(g, r, h, c, free)
    requires Advanced(r, t) ||
        (r.flight[h].phase == Building && t.held == r.held && t.flight == Moved(r.flight, h, Posted))
    ensures Added(g, t, h, c, free)
  {
    var a, b := r.(flight := r.flight - {h}), t.(flight := t.flight - {h});
    assert t.flight.Keys == r.flight.Keys;
    assert b.flight.Keys == r.flight.Keys - {h} == a.flight.Keys;
    assert Advanced(a, b);
    AdvancedTwice(g, a, b);
    assert Triple(t.flight, h) == Triple(r.flight, h);
  }

  lemma AddedIs(g: Book, r: Book, h: nat, c: Chain, free: seq<bool>)
    requires Added(g, r, h, c, free)
    ensures h in r.flight && r.flight[h] == c.(phase := r.flight[h].phase) && Added(g, r, h, r.flight[h], free)
  {
  }

  lemma StillBuilding(g: Book, r: Book, h: nat)
    requires Advanced(g, r) && h in g.flight
    ensures h in r.flight && r.held == g.held && (r.flight[h].phase == Building <==> g.flight[h].phase == Building)
  {
  }

  lemma HandsBack(g: Book, m: Book, r: Book)
    requires g.held == {} && m == g.(held := m.held) && Advanced(m, r)
    ensures r.held == m.held && Advanced(g, r.(held := {}))
  {
  }

  lemma StartOk(s: Ring, d: Dev)
    requires |s.desc| == |s.free| == |s.ops| == |s.info| == |s.status| == |s.avail| == |s.used| == NUM
    requires (forall i | 0 <= i < NUM :: s.free[i] && s.desc[i] == NoDesc) && s.busy == {}
    requires s.availIdx == s.usedIdx == s.usedSeen == d.seen == 0 && d.work == {} && d.ready == {}
    ensures Inv(s, d, Book(map[], {}, [], []))
  {
    var f: Flight := map[];
    assert forall h: nat, i: nat :: !Owns(f, h, i);
    assert forall h: nat, b: nat :: !Waits(f, h, b);
  }

  // ---- what the transfers amount to ----

  /** What the buffers and the disk hold. */
  datatype World = World(data: seq<Block>, platter: seq<Block>)

  datatype Request = Request(b: nat, blockno: nat, write: bool)

  function RequestOf(c: Chain): (r: Request) { Request(c.b, c.blockno, c.write) }

  /** A disk that carries out a request at once. */
  function Performed(w: World, r: Request): (v: World)
    requires r.b < |w.data| && r.blockno < |w.platter|
  {
    if r.write then w.(platter := w.platter[r.blockno := w.data[r.b]])
    else w.(data := w.data[r.b := w.platter[r.blockno]])
  }

  /** The chain with head h is yet to write block n. */
  predicate Writes(f: Flight, h: nat, n: nat) {
    h in f && f[h].write && f[h].blockno == n && !Complete(f[h].phase)
  }

  /** The chain with head h is yet to fill buffer b. */
  predicate Fills(f: Flight, h: nat, b: nat) {
    h in f && !f[h].write && f[h].b == b && !Complete(f[h].phase)
  }

  /** No two chains are for the same block, or for the same buffer. */
  ghost predicate Alone(f: Flight) {
    && (forall h, k | h in f && k in f && f[h].b == f[k].b :: h == k)
    && (forall h, k | h in f && k in f && f[h].blockno == f[k].blockno :: h == k)
  }

  /**
   * w is what buffers and disk hold once the chains in flight are served, and no order of serving them
   * makes a difference: everything outside the unserved chains is as in w already, each of those would
   * transfer what w has, and buffer and block of every chain in flight agree in w.
   */
  ghost predicate Carried(d: Dev, f: Flight, w: World) {
    && |w.data| == |d.data| && |w.platter| == |d.platter| && Alone(f)
    && (forall h | h in f ::
          f[h].b < |d.data| && f[h].blockno < |d.platter| && w.data[f[h].b] == w.platter[f[h].blockno])
    && (forall n | 0 <= n < |d.platter| :: d.platter[n] == w.platter[n] || exists h :: Writes(f, h, n))
    && (forall b | 0 <= b < |d.data| :: d.data[b] == w.data[b] || exists h :: Fills(f, h, b))
    && (forall h | h in f && !Complete(f[h].phase) ::
          if f[h].write then d.data[f[h].b] == w.platter[f[h].blockno] else d.platter[f[h].blockno] == w.data[f[h].b])
  }

  /** Whatever the chains in flight amounted to before, they amount to afterwards. */
  ghost predicate Keeps(d: Dev, f: Flight, e: Dev, r: Flight) {
    forall w :: Carried(d, f, w) ==> Carried(e, r, w)
  }

  lemma KeepsSame(d: Dev, f: Flight)
    ensures Keeps(d, f, d, f)
  {
  }

  lemma KeepsTwice(d: Dev, f: Flight, e: Dev, r: Flight, x: Dev, t: Flight)
    requires Keeps(d, f, e, r) && Keeps(e, r, x, t)
    ensures Keeps(d, f, x, t)
  {
  }

  /** Buffer and block of a request hold the same, and what they hold in w. */
  predicate Transferred(d: Dev, w: World, c: Chain) {
    && c.b < |d.data| && c.blockno < |d.platter| && d.data[c.b] == d.platter[c.blockno]
    && c.b < |w.data| && c.blockno < |w.platter|
    && d.data[c.b] == w.data[c.b] && d.platter[c.blockno] == w.platter[c.blockno]
  }

  /** A request that has been served: a read's buffer holds its block, and a write's block its buffer. */
  lemma ServedHolds(d: Dev, f: Flight, w: World, h: nat)
    requires Carried(d, f, w) && h in f && Complete(f[h].phase)
    ensures Transferred(d, w, f[h])
  {
    forall k: nat ensures !Writes(f, k, f[h].blockno) && !Fills(f, k, f[h].b) {}
  }

  lemma NothingCarried(d: Dev, w: World)
    requires Carried(d, map[], w)
    ensures w == World(d.data, d.platter)
  {
    var f: Flight := map[];
    assert forall h: nat, n: nat :: !Writes(f, h, n) && !Fills(f, h, n);
  }

  lemma CarriedFromStart(d: Dev)
    ensures Carried(d, map[], World(d.data, d.platter))
  {
  }

  lemma CarriedSize(d: Dev, f: Flight, w: World)
    ensures Carried(d, f, w) ==> |w.data| == |d.data| && |w.platter| == |d.platter|
  {
  }

  /** Moving a chain on without serving it. */
  lemma MoveKeeps(d: Dev, f: Flight, e: Dev, h: nat, phase: Phase)
    requires h in f && (Complete(phase) <==> Complete(f[h].phase)) && e.data == d.data && e.platter == d.platter
    ensures Keeps(d, f, e, Moved(f, h, phase))
  {
    forall w | Carried(d, f, w) ensures Carried(e, Moved(f, h, phase), w) { MoveCarries(d, f, e, h, phase, w); }
  }

  lemma MoveCarries(d: Dev, f: Flight, e: Dev, h: nat, phase: Phase, w: World)
    requires Carried(d, f, w) && h in f && (Complete(phase) <==> Complete(f[h].phase))
    requires e.data == d.data && e.platter == d.platter
    ensures Carried(e, Moved(f, h, phase), w)
  {
    var r := Moved(f, h, phase);
    forall n | 0 <= n < |d.platter| && d.platter[n] != w.platter[n] ensures exists k :: Writes(r, k, n) {
      var k :| Writes(f, k, n);
      assert Writes(r, k, n);
    }
    forall b | 0 <= b < |d.data| && d.data[b] != w.data[b] ensures exists k :: Fills(r, k, b) {
      var k :| Fills(f, k, b);
      assert Fills(r, k, b);
    }
  }

  /** Serving a chain brings the block or the buffer to where it was going. */
  lemma ServeCarries(d: Dev, f: Flight, e: Dev, h: nat)
    requires h in f && f[h].phase == Taken && f[h].b < |d.data| && f[h].blockno < |d.platter|
    requires f[h].write ==> e.platter == d.platter[f[h].blockno := d.data[f[h].b]] && e.data == d.data
    requires !f[h].write ==> e.data == d.data[f[h].b := d.platter[f[h].blockno]] && e.platter == d.platter
    ensures Keeps(d, f, e, Moved(f, h, Served))
  {
    forall w | Carried(d, f, w) ensures Carried(e, Moved(f, h, Served), w) {
      if f[h].write { WriteCarries(d, f, e, h, w); } else { ReadCarries(d, f, e, h, w); }
    }
  }

  lemma WriteCarries(d: Dev, f: Flight, e: Dev, h: nat, w: World)
    requires Carried(d, f, w) && h in f && f[h].phase == Taken && f[h].write
    requires e.platter == d.platter[f[h].blockno := d.data[f[h].b]] && e.data == d.data
    ensures Carried(e, Moved(f, h, Served), w)
  {
    var r := Moved(f, h, Served);
    forall n | 0 <= n < |e.platter| && e.platter[n] != w.platter[n] ensures exists k :: Writes(r, k, n) {
      var k :| Writes(f, k, n);
      assert Writes(r, k, n);
    }
    forall b | 0 <= b < |e.data| && e.data[b] != w.data[b] ensures exists k :: Fills(r, k, b) {
      var k :| Fills(f, k, b);
      assert Fills(r, k, b);
    }
  }

  lemma ReadCarries(d: Dev, f: Flight, e: Dev, h: nat, w: World)
    requires Carried(d, f, w) && h in f && f[h].phase == Taken && !f[h].write
    requires e.data == d.data[f[h].b := d.platter[f[h].blockno]] && e.platter == d.platter
    ensures Carried(e, Moved(f, h, Served), w)
  {
    var r := Moved(f, h, Served);
    forall n | 0 <= n < |e.platter| && e.platter[n] != w.platter[n] ensures exists k :: Writes(r, k, n) {
      var k :| Writes(f, k, n);
      assert Writes(r, k, n);
    }
    forall b | 0 <= b < |e.data| && e.data[b] != w.data[b] ensures exists k :: Fills(r, k, b) {
      var k :| Fills(f, k, b);
      assert Fills(r, k, b);
    }
  }

  /** A new request, as if it were carried out at once. */
  lemma FillCarries(d: Dev, f: Flight, h: nat, c: Chain, w: World)
    requires Carried(d, f, w) && h !in f && c.phase == Building && c.b < |d.data| && c.blockno < |d.platter|
    requires forall k | k in f :: f[k].b != c.b && f[k].blockno != c.blockno
    ensures Carried(d, f[h := c], Performed(w, RequestOf(c)))
  {
    var r, v := f[h := c], Performed(w, RequestOf(c));
    assert forall k: nat, n: nat :: k != h ==>
        (Writes(r, k, n) <==> Writes(f, k, n)) && (Fills(r, k, n) <==> Fills(f, k, n));
    assert forall k: nat :: !Writes(f, k, c.blockno) && !Fills(f, k, c.b);
    forall n | 0 <= n < |d.platter| && d.platter[n] != v.platter[n] ensures exists k :: Writes(r, k, n) {
      if n == c.blockno { assert Writes(r, h, n); } else { var k :| Writes(f, k, n); assert Writes(r, k, n); }
    }
    forall b | 0 <= b < |d.data| && d.data[b] != v.data[b] ensures exists k :: Fills(r, k, b) {
      if b == c.b { assert Fills(r, h, b); } else { var k :| Fills(f, k, b); assert Fills(r, k, b); }
    }
  }

  /** A served chain takes nothing with it. */
  lemma RemoveKeeps(d: Dev, f: Flight, h: nat)
    requires h in f && Complete(f[h].phase)
    ensures Keeps(d, f, d, f - {h})
  {
    var r := f - {h};
    forall w | Carried(d, f, w) ensures Carried(d, r, w) {
      forall n | 0 <= n < |d.platter| && d.platter[n] != w.platter[n] ensures exists k :: Writes(r, k, n) {
        var k :| Writes(f, k, n);
        assert Writes(r, k, n);
      }
      forall b | 0 <= b < |d.data| && d.data[b] != w.data[b] ensures exists k :: Fills(r, k, b) {
        var k :| Fills(f, k, b);
        assert Fills(r, k, b);
      }
    }
  }

  lemma SameBlocks(g: Book, r: Book, n: nat)
    requires Advanced(g, r)
    ensures (forall k | k in g.flight :: g.flight[k].blockno != n) ==>
              forall k | k in r.flight :: r.flight[k].blockno != n
  {
  }

  lemma SubmitCarries(d: Dev, f: Flight, d1: Dev, f1: Flight, e: Dev, r: Flight, h: nat, c: Chain)
    requires Keeps(d, f, d1, f1) && Keeps(d1, f1[h := c], e, r) && |d1.data| == |d.data| && |d1.platter| == |d.platter|
    requires h !in f1 && c.phase == Building && c.b < |d.data| && c.blockno < |d.platter|
    requires forall k | k in f1 :: f1[k].b != c.b && f1[k].blockno != c.blockno
    ensures forall w ::
              Carried(d, f, w) ==>
                |w.data| == |d.data| && |w.platter| == |d.platter| && Carried(e, r, Performed(w, RequestOf(c)))
  {
    forall w | Carried(d, f, w)
      ensures |w.data| == |d.data| && |w.platter| == |d.platter| && Carried(e, r, Performed(w, RequestOf(c)))
    {
      FillCarries(d1, f1, h, c, w);
    }
  }

  /** The only request in flight, posted first if it is still to be taken. */
  lemma OnlyOne(s: Ring, d: Dev, g: Book, r: Book, h: nat, free: seq<bool>)
    requires g.flight == map[] && h in r.flight && Added(g, r, h, r.flight[h], free) && Inv(s, d, r)
    requires r.flight[h].b in s.busy && r.flight[h].phase != Building
    ensures r.flight.Keys == {h} && r.flight[h].phase != Done
    ensures if r.flight[h].phase == Posted then r.posted != [] && r.posted[0] == h else r.posted == []
  {
    hide Cells, Chains, Queue, Blank, Phases, Added, Flags, Lists;
    OnlyKey(g, r, h, free);
    OnlyWaits(s.busy, r.flight, h);
    OnlyPosted(r.flight, r.posted, h);
  }

  lemma OnlyKey(g: Book, r: Book, h: nat, free: seq<bool>)
    requires g.flight == map[] && h in r.flight && Added(g, r, h, r.flight[h], free)
    ensures r.flight.Keys == {h}
  {
    var rest := r.flight - {h};
    assert rest.Keys == g.flight.Keys == {};
    forall k | k in r.flight ensures k == h { assert k in rest.Keys <==> k != h; }
  }

  lemma OnlyWaits(busy: set<nat>, f: Flight, h: nat)
    requires Flags(busy, f) && f.Keys == {h} && f[h].b in busy
    ensures f[h].phase != Done
  {
    var k :| Waits(f, k, f[h].b);
    assert k in f.Keys;
  }

  lemma OnlyPosted(f: Flight, q: seq<nat>, h: nat)
    requires Lists(f, q, Posted) && f.Keys == {h}
    ensures if f[h].phase == Posted then q != [] && q[0] == h else q == []
  {
    if q != [] {
      assert q[0] in q;
      assert q[0] in f.Keys;
    }
    assert h in q <==> f[h].phase == Posted;
  }

  /** A buffer that is not in flight is the kernel's to write. */
  lemma StoreCarries(d: Dev, f: Flight, b: nat, x: Block, w: World)
    requires Carried(d, f, w) && b < |d.data| && forall k | k in f :: f[k].b != b
    ensures Carried(d.(data := d.data[b := x]), f, w.(data := w.data[b := x]))
  {
  }

  class Disk {
    const desc: array<Desc>
    const free: array<bool>
    const ops: array<Req>
    const info: array<Option<nat>>
    const status: array<nat>
    const avail: array<nat>
    const used: array<nat>
    var availIdx: nat
    var usedIdx: nat
    var usedSeen: nat
    var busy: set<nat>
    var dev: Dev
    ghost var g: Book

    ghost predicate Wired() {
      && desc.Length == free.Length == ops.Length == info.Length == status.Length == avail.Length == used.Length == NUM
      && status != avail && avail != used && used != status
    }

    ghost function View(): (s: Ring)
      reads this, desc, free, ops, info, status, avail, used
    {
      Ring(desc[..], free[..], ops[..], info[..], status[..], avail[..], availIdx, used[..], usedIdx, usedSeen, busy)
    }

    ghost predicate Valid()
      reads this, desc, free, ops, info, status, avail, used
    {
      Wired() && Inv(View(), dev, g)
    }

    /** virtio_disk_init's memory: everything zeroed, all descriptors free. */
    constructor (data: seq<Block>, platter: seq<Block>)
      ensures Valid() && g == Book(map[], {}, [], []) && dev == Dev(0, {}, {}, data, platter) && busy == {}
      ensures fresh(desc) && fresh(free) && fresh(ops) && fresh(info) && fresh(status) && fresh(avail) && fresh(used)
    {
      desc := new Desc[NUM](i => NoDesc);
      free := new bool[NUM](i => true);
      ops := new Req[NUM](i => Req(false, 0));
      info := new Option<nat>[NUM](i => None);
      status := new nat[NUM](i => 0);
      avail := new nat[NUM](i => 0);
      used := new nat[NUM](i => 0);
      availIdx, usedIdx, usedSeen, busy := 0, 0, 0, {};
      dev := Dev(0, {}, {}, data, platter);
      g := Book(map[], {}, [], []);
      new;
      StartOk(View(), dev);
    }

    /** alloc_desc. */
    method AllocDesc() returns (i: int)
      requires Valid()
      modifies free, this`g
      ensures Valid()
      ensures i == -1 ==> g == old(g) && View() == old(View()) && forall j | 0 <= j < NUM :: !free[j]
      ensures i != -1 ==>
                && 0 <= i < NUM
                && old(free[i])
                && View() == TakeDesc(old(View()), i)
                && g == old(g).(held := old(g).held + {i})
    {
      hide Inv;
      i := 0;
      while i < NUM
        invariant 0 <= i <= NUM && g == old(g) && View() == old(View()) && forall j | 0 <= j < i :: !free[j]
      {
        if free[i] {
          TakeDescKeeps(View(), dev, g, i);
          free[i] := false;
          g := g.(held := g.held + {i});
          assert View() == TakeDesc(old(View()), i);
          return;
        }
        i := i + 1;
      }
      i := -1;
    }

    /** free_desc; the result says whether it panics. */
    method FreeDesc(i: nat) returns (panic: bool)
      requires Valid() && i in g.held
      modifies desc, free, this`g
      ensures !panic && Valid()
      ensures i < NUM && View() == GiveDesc(old(View()), i) && g == old(g).(held := old(g).held - {i})
    {
      GiveDescKeeps(View(), dev, g, i);
      hide Inv;
      if i >= NUM { return true; }
      if free[i] { return true; }
      desc[i] := NoDesc;
      free[i] := true;
      g := g.(held := g.held - {i});
      assert View() == GiveDesc(old(View()), i);
      panic := false;
    }

    /** Three held descriptors linked into a chain. */
    ghost predicate Linked(h: nat, i1: nat, i2: nat)
      requires Wired()
      reads this, desc
    {
      && h < NUM && i1 < NUM && i2 < NUM && h != i1 && h != i2 && i1 != i2
      && h in g.held && i1 in g.held && i2 in g.held
      && desc[h].flags % 2 == 1 && desc[h].next == i1
      && desc[i1].flags % 2 == 1 && desc[i1].next == i2 && desc[i2].flags % 2 == 0
    }

    /** free_chain, for a chain of three; the result says whether free_desc panics. */
    method FreeChain(h: nat, ghost i1: nat, ghost i2: nat) returns (panic: bool)
      requires Valid() && Linked(h, i1, i2)
      modifies desc, free, this`g
      ensures !panic && Valid()
      ensures View() == GiveDesc(GiveDesc(GiveDesc(old(View()), h), i1), i2)
      ensures g == old(g).(held := old(g).held - {h, i1, i2})
    {
      hide Inv;
      ghost var todo := [h, i1, i2];
      var i := h;
      while true
        invariant Valid() && 1 <= |todo| <= 3 && todo == [h, i1, i2][3 - |todo|..] && i == todo[0]
        invariant forall k | 0 <= k < |todo| :: todo[k] in g.held && desc[todo[k]] == old(desc[todo[k]])
        invariant |todo| == 3 ==> View() == old(View()) && g == old(g)
        invariant |todo| == 2 ==> View() == GiveDesc(old(View()), h) && g == old(g).(held := old(g).held - {h})
        invariant |todo| == 1 ==>
                    View() == GiveDesc(GiveDesc(old(View()), h), i1) && g == old(g).(held := old(g).held - {h} - {i1})
        decreases |todo|
      {
        var flag, nxt := desc[i].flags, desc[i].next;
        panic := FreeDesc(i);
        todo := todo[1..];
        if flag % 2 == 1 { i := nxt; } else { break; }
      }
      assert old(g).held - {h} - {i1} - {i2} == old(g).held - {h, i1, i2};
    }

    /** alloc3_desc's way back: free_desc on the first n entries of idx. */
    method Undo(idx: array<int>, n: nat, ghost s: Ring)
      requires Valid() && n <= idx.Length && g.held == Firsts(idx[..n]) && Spread(idx[..n])
      requires Blank(s.desc, s.free) && |s.free| == NUM && (forall x | x in g.held :: x < NUM && s.free[x])
      requires View() == Holding(s, g.held)
      modifies desc, free, this`g
      ensures Valid() && View() == s && g == old(g).(held := {})
    {
      hide Inv;
      var j := 0;
      while j < n
        invariant 0 <= j <= n && Valid() && g == old(g).(held := g.held)
        invariant g.held == Firsts(idx[j..n]) && (forall x | x in g.held :: x < NUM && s.free[x])
        invariant View() == Holding(s, g.held)
      {
        FirstsNext(idx[j..n]);
        ghost var held := g.held;
        HoldingLess(s, held, idx[j]);
        var panic := FreeDesc(idx[j]);
        assert idx[j + 1..n] == idx[j..n][1..];
        j := j + 1;
      }
      assert idx[n..n] == [];
      HoldingNone(s);
    }

    /**
     * alloc3_desc: three descriptors into idx, or none and -1. It succeeds exactly when at most one request
     * is in flight.
     */
    method Alloc3(idx: array<int>) returns (r: int)
      requires Valid() && g.held == {} && idx.Length == 3
      modifies idx, desc, free, this`g
      ensures Valid() && g == old(g).(held := g.held) && (r == 0 || r == -1)
      ensures r == 0 <==> |old(g).flight| <= 1
      ensures r == -1 ==> View() == old(View()) && g == old(g)
      ensures r == 0 ==> g.held == Firsts(idx[..]) && Spread(idx[..]) && View() == Holding(old(View()), g.held)
      ensures forall x | x in g.held :: x < NUM && old(free[..])[x]
    {
      ghost var s := View();
      hide Cells, Chains, Flags, Queues;
      var i := 0;
      HoldingNone(s);
      while i < 3
        invariant 0 <= i <= 3 && Valid() && g == old(g).(held := g.held)
        invariant g.held == Firsts(idx[..i]) && Spread(idx[..i]) && (forall x | x in g.held :: x < NUM && s.free[x])
                  && View() == Holding(s, g.held)
      {
        ghost var held := g.held;
        var d := AllocDesc();
        idx[i] := d;
        if d < 0 {
          FirstsSize(idx[..i]);
          NoRoom(free[..], g.flight, g.held);
          Undo(idx, i, s);
          return -1;
        }
        HoldingMore(s, held, d);
        FirstsMore(idx[..i], d);
        assert idx[..i + 1] == idx[..i] + [d];
        i := i + 1;
      }
      FirstsSize(idx[..3]);
      Room(free[..], g.flight, g.held);
      assert idx[..3] == idx[..];
      return 0;
    }

    /** One action of the device, if it can take it. */
    method Device(act: Act)
      requires Valid()
      modifies this`dev, this`usedIdx, this`g, status, used
      ensures Valid() && Advanced(old(g), g) && old(g).answered <= g.answered
      ensures |dev.data| == |old(dev).data| && |dev.platter| == |old(dev).platter|
      ensures Keeps(old(dev), old(g).flight, dev, g.flight) && ActDone(old(g), g, act)
    {
      hide Inv, Readable, Advanced, Serve, Keeps, ActDone;
      match act {
        case TakeNext => TakeOne();
        case ServeChain(h) => ServeOne(h);
        case AnswerChain(h) => AnswerOne(h);
      }
    }

    method TakeOne()
      requires Valid()
      modifies this`dev, this`g
      ensures Valid() && Advanced(old(g), g) && old(g).answered <= g.answered
      ensures |dev.data| == |old(dev).data| && |dev.platter| == |old(dev).platter|
      ensures Keeps(old(dev), old(g).flight, dev, g.flight) && ActDone(old(g), g, TakeNext)
    {
      AdvancedSame(g);
      KeepsSame(dev, g.flight);
      hide Inv, Advanced, Keeps, ActDone;
      if dev.seen == availIdx { NoAct(View(), dev, g, TakeNext); }
      if dev.seen != availIdx {
        ghost var r := TakeStep(View(), dev, g);
        dev := dev.(seen := (dev.seen + 1) % WRAP, work := dev.work + {avail[dev.seen % NUM]});
        g := r;
        assert View() == old(View()) && dev == Take(View(), old(dev));
      }
    }

    /** The device follows the descriptors it finds in memory. */
    method ServeOne(h: nat)
      requires Valid()
      modifies this`dev, this`g, status
      ensures Valid() && Advanced(old(g), g) && old(g).answered <= g.answered
      ensures |dev.data| == |old(dev).data| && |dev.platter| == |old(dev).platter|
      ensures Keeps(old(dev), old(g).flight, dev, g.flight) && ActDone(old(g), g, ServeChain(h))
    {
      AdvancedSame(g);
      KeepsSame(dev, g.flight);
      hide Inv, Advanced, Keeps, ActDone;
      if h !in dev.work { NoAct(View(), dev, g, ServeChain(h)); }
      if h in dev.work {
        ghost var r := ServeStep(View(), dev, g, h);
        var op, i1 := ops[desc[h].addr.k], desc[h].next;
        var b, n, i2 := desc[i1].addr.b, op.sector / SECTORS, desc[i1].next;
        status[desc[i2].addr.k] := 0;
        if op.write {
          dev := dev.(platter := dev.platter[n := dev.data[b]]);
        } else {
          dev := dev.(data := dev.data[b := dev.platter[n]]);
        }
        dev := dev.(work := dev.work - {h}, ready := dev.ready + {h});
        g := r;
        assert View() == Serve(old(View()), old(dev), h).0 && dev == Serve(old(View()), old(dev), h).1;
      }
    }

    method AnswerOne(h: nat)
      requires Valid()
      modifies this`dev, this`usedIdx, this`g, used
      ensures Valid() && Advanced(old(g), g) && old(g).answered <= g.answered
      ensures |dev.data| == |old(dev).data| && |dev.platter| == |old(dev).platter|
      ensures Keeps(old(dev), old(g).flight, dev, g.flight) && ActDone(old(g), g, AnswerChain(h))
    {
      AdvancedSame(g);
      KeepsSame(dev, g.flight);
      hide Inv, Advanced, Keeps, ActDone;
      if h !in dev.ready { NoAct(View(), dev, g, AnswerChain(h)); }
      if h in dev.ready {
        ghost var r := AnswerStep(View(), dev, g, h);
        used[usedIdx % NUM] := h;
        usedIdx := (usedIdx + 1) % WRAP;
        dev := dev.(ready := dev.ready - {h});
        g := r;
        assert View() == Answer(old(View()), h);
      }
    }

    method DeviceRuns(acts: seq<Act>)
      requires Valid()
      modifies this`dev, this`usedIdx, this`g, status, used
      ensures Valid() && Advanced(old(g), g) && old(g).answered <= g.answered
      ensures |dev.data| == |old(dev).data| && |dev.platter| == |old(dev).platter|
      ensures Keeps(old(dev), old(g).flight, dev, g.flight)
    {
      AdvancedSame(g);
      KeepsSame(dev, g.flight);
      hide Inv, Advanced, Keeps;
      for k := 0 to |acts|
        invariant Valid() && Advanced(old(g), g) && old(g).answered <= g.answered
        invariant |dev.data| == |old(dev).data| && |dev.platter| == |old(dev).platter|
        invariant Keeps(old(dev), old(g).flight, dev, g.flight)
      {
        ghost var r, d := g, dev;
        Device(acts[k]);
        AdvancedTwice(old(g), r, g);
        KeepsTwice(old(dev), old(g).flight, d, r.flight, dev, g.flight);
      }
    }

    /** virtio_disk_rw between allocation and publication: descriptors, header, status, b->disk and info. */
    method FillIn(h: nat, c: Chain)
      requires Valid() && CanFill(dev, g, h, c)
      modifies desc, ops, status, info, this`busy, this`g
      ensures Valid() && h < NUM && c.i1 < NUM && c.i2 < NUM
      ensures View() == Fill(old(View()), h, c) && g == Filled(old(g), h, c)
    {
      hide Inv;
      FillKeeps(View(), dev, g, h, c);
      assert h != c.i1 && h != c.i2 && c.i1 != c.i2;
      hide CanFill;
      ghost var s := View();
      ops[h] := Req(c.write, c.blockno * SECTORS);
      desc[h] := Desc(Op(h), 16, F_NEXT, c.i1);
      desc[c.i1] := Desc(Data(c.b), BSIZE, (if c.write then 0 else F_WRITE) + F_NEXT, c.i2);
      status[h] := PENDING;
      desc[c.i2] := Desc(Status(h), 1, F_WRITE, 0);
      busy := busy + {c.b};
      info[h] := Some(c.b);
      g := Filled(g, h, c);
      assert desc[..] == Fill(s, h, c).desc;
      assert View() == Fill(s, h, c);
    }

    /** The head into the avail ring. */
    method PostHead(h: nat)
      requires Valid()
      modifies avail
      ensures Valid() && View() == Post(old(View()), h)
    {
      PostKeeps(View(), dev, g, h);
      hide Inv;
      avail[availIdx % NUM] := h;
      assert View() == Post(old(View()), h);
    }

    /** avail->idx += 1. */
    method BumpIndex(ghost h: nat)
      requires Valid() && h in g.flight && g.flight[h].phase == Building && avail[availIdx % NUM] == h
      modifies this`availIdx, this`g
      ensures Valid() && View() == Bump(old(View())) && Keeps(dev, old(g).flight, dev, g.flight)
      ensures g == old(g).(flight := Moved(old(g).flight, h, Posted), posted := old(g).posted + [h])
    {
      hide Inv, Queue, Moved, Keeps;
      BumpKeeps(View(), dev, g, h);
      MoveKeeps(dev, g.flight, dev, h, Posted);
      availIdx := (availIdx + 1) % WRAP;
      g := g.(flight := Moved(g.flight, h, Posted), posted := g.posted + [h]);
    }

    /** One round of virtio_disk_intr's loop, the device acting before and after it. */
    method IntrRound(before: seq<Act>, after: seq<Act>) returns (panic: bool)
      requires Valid() && g.answered != []
      modifies this`usedSeen, this`busy, this`dev, this`usedIdx, this`g, status, used
      ensures !panic && Valid() && Settled(old(g), g) && busy < old(busy)
      ensures |dev.data| == |old(dev).data| && |dev.platter| == |old(dev).platter|
      ensures Keeps(old(dev), old(g).flight, dev, g.flight)
    {
      AdvancedSame(g);
      hide Inv, Settled, Advanced, Keeps;
      DeviceRuns(before);
      SettledTwice(old(g), old(g), g);
      ghost var s, g1 := View(), g;
      ghost var r := AcknowledgeStep(s, dev, g);
      var id := used[usedSeen % NUM];
      if status[id] != 0 { return true; }
      busy := busy - {info[id].value};
      usedSeen := (usedSeen + 1) % WRAP;
      g := r;
      assert View() == Acknowledge(s);
      SettledTwice(old(g), g1, g);
      KeepsTwice(old(dev), old(g).flight, dev, g1.flight, dev, g.flight);
      ghost var g2, d2 := g, dev;
      DeviceRuns(after);
      SettledTwice(old(g), g2, g);
      KeepsTwice(old(dev), old(g).flight, d2, g2.flight, dev, g.flight);
      return false;
    }

    /** virtio_disk_intr, with the device acting between any two steps; the result says whether it panics. */
    method Intr(env: seq<seq<Act>>) returns (panic: bool)
      requires Valid()
      modifies this`usedSeen, this`busy, this`dev, this`usedIdx, this`g, status, used
      ensures !panic && Valid() && Settled(old(g), g) && g.answered == [] && busy <= old(busy)
      ensures forall h | h in old(g).flight && old(g).flight[h].phase == Answered ::
                h in g.flight && g.flight[h].phase == Done && g.flight[h].b !in busy
      ensures |dev.data| == |old(dev).data| && |dev.platter| == |old(dev).platter|
      ensures Keeps(old(dev), old(g).flight, dev, g.flight)
    {
      AdvancedSame(g);
      KeepsSame(dev, g.flight);
      hide Inv, Settled, Advanced, Keeps;
      panic := false;
      var k := 0;
      Finds(View(), dev, g);
      while usedSeen != usedIdx
        invariant Valid() && Settled(old(g), g) && busy <= old(busy) && 0 <= k
        invariant usedSeen != usedIdx <==> g.answered != []
        invariant |dev.data| == |old(dev).data| && |dev.platter| == |old(dev).platter|
        invariant Keeps(old(dev), old(g).flight, dev, g.flight)
        decreases busy
      {
        ghost var g0, d0 := g, dev;
        panic := IntrRound(if k < |env| then env[k] else [], if k + 1 < |env| then env[k + 1] else []);
        SettledTwice(old(g), g0, g);
        KeepsTwice(old(dev), old(g).flight, d0, g0.flight, dev, g.flight);
        if panic { return; }
        Finds(View(), dev, g);
        k := k + 2;
      }
      forall h | h in old(g).flight && old(g).flight[h].phase == Answered
        ensures h in g.flight && g.flight[h].phase == Done && g.flight[h].b !in busy
      {
        AllDone(View(), dev, old(g), g, h);
      }
    }

    /** info[h].b = 0. */
    method ForgetBuffer(h: nat)
      requires Valid() && g.held == {} && h in g.flight && g.flight[h].phase == Done
      modifies info, this`g
      ensures Valid() && h < NUM && View() == Forget(old(View()), h) && g == Forgotten(old(g), h)
      ensures Linked(h, old(g).flight[h].i1, old(g).flight[h].i2)
    {
      ForgetStep(View(), dev, g, h);
      hide Inv;
      info[h] := None;
      g := Forgotten(g, h);
      assert View() == Forget(old(View()), h);
    }

    /**
     * virtio_disk_rw after the wait: b->disk is clear, so the chain is freed; the result says whether
     * free_desc panics.
     */
    method Finish(h: nat) returns (panic: bool)
      requires Valid() && g.held == {} && h in g.flight && g.flight[h].b !in busy
      modifies info, desc, free, this`g
      ensures !panic && Valid() && g == old(g).(flight := old(g).flight - {h})
      ensures forall i | i in Triple(old(g).flight, h) :: i < NUM && free[i] && desc[i] == NoDesc
      ensures Keeps(dev, old(g).flight, dev, g.flight)
      ensures forall w :: Carried(dev, old(g).flight, w) ==> Transferred(dev, w, old(g).flight[h])
    {
      hide Inv, Keeps, Carried, Transferred;
      FlagClear(View(), dev, g, h);
      RemoveKeeps(dev, g.flight, h);
      forall w | Carried(dev, g.flight, w) ensures Transferred(dev, w, g.flight[h]) {
        ServedHolds(dev, g.flight, w, h);
      }
      ghost var c := g.flight[h];
      ForgetBuffer(h);
      panic := FreeChain(h, c.i1, c.i2);
      assert g.held == {};
    }

    /** Three descriptors for a new request, the device acting afterwards. */
    method Reserve(acts: seq<Act>) returns (ok: bool, h: nat, i1: nat, i2: nat)
      requires Valid() && g.held == {}
      modifies desc, free, status, used, this`dev, this`usedIdx, this`g
      ensures Valid() && (ok <==> |old(g).flight| <= 1)
      ensures !ok ==> g == old(g) && View() == old(View()) && dev == old(dev)
      ensures ok ==> g.held == {h, i1, i2} && h != i1 && h != i2 && i1 != i2 && Advanced(old(g), g.(held := {}))
      ensures ok ==> forall i | i in g.held :: 0 <= i < NUM && old(free[..])[i]
      ensures |dev.data| == |old(dev).data| && |dev.platter| == |old(dev).platter|
      ensures Keeps(old(dev), old(g).flight, dev, g.flight)
    {
      KeepsSame(dev, g.flight);
      hide Inv, Advanced, Keeps;
      var idx := new int[3];
      var r := Alloc3(idx);
      if r != 0 { return false, 0, 0, 0; }
      ok, h, i1, i2 := true, idx[0], idx[1], idx[2];
      assert idx[..] == [h as int, i1 as int, i2 as int];
      assert g.held == {h, i1, i2};
      ghost var g1 := g;
      DeviceRuns(acts);
      HandsBack(old(g), g1, g);
    }

    /** virtio_disk_rw from the descriptors to the notification, the device acting between any two steps. */
    method Publish(h: nat, c: Chain, env: seq<seq<Act>>, ghost g0: Book, ghost free0: seq<bool>)
      requires Valid() && CanFill(dev, g, h, c) && g.held == {h, c.i1, c.i2} && |env| == 3
      requires g0.held == {} && Advanced(g0, g.(held := {})) && |free0| == NUM
      requires forall i | i in g.held :: 0 <= i < NUM && free0[i]
      modifies desc, ops, status, info, avail, used, this`availIdx, this`usedIdx, this`busy, this`dev, this`g
      ensures Valid() && g.held == {} && busy == old(busy) + {c.b}
      ensures Added(g0, g, h, c, free0) && g.flight[h].phase != Building
      ensures |dev.data| == |old(dev).data| && |dev.platter| == |old(dev).platter|
      ensures Keeps(old(dev), old(g).flight[h := c], dev, g.flight)
    {
      hide Inv, Advanced, Keeps;
      NewHead(View(), dev, g, h);
      AddedByFill(g0, g, h, c, free0);
      FillIn(h, c);
      assert g.flight == old(g).flight[h := c];
      hide Added, CanFill, Filled;
      ghost var g1, d1 := g, dev;
      DeviceRuns(env[0]);
      AddedOn(g0, g1, g, h, c, free0);
      StillBuilding(g1, g, h);
      PostHead(h);
      ghost var g2, d2 := g, dev;
      DeviceRuns(env[1]);
      AddedOn(g0, g2, g, h, c, free0);
      StillBuilding(g2, g, h);
      KeepsTwice(d1, g1.flight, d2, g2.flight, dev, g.flight);
      ghost var g3, d3 := g, dev;
      BumpIndex(h);
      AddedOn(g0, g3, g, h, c, free0);
      KeepsTwice(d1, g1.flight, d3, g3.flight, dev, g.flight);
      ghost var g4, d4 := g, dev;
      DeviceRuns(env[2]);
      AddedOn(g0, g4, g, h, c, free0);
      StillBuilding(g4, g, h);
      KeepsTwice(d1, g1.flight, d4, g4.flight, dev, g.flight);
    }

    /**
     * virtio_disk_rw up to its wait, with the device acting between any two steps. The request is accepted,
     * with three descriptors that were free, exactly when at most one other is in flight; otherwise the
     * caller has to sleep and try again, and nothing has changed. With no other request for the block in
     * flight, what is in flight amounts to what it did, followed by this request.
     */
    method Submit(b: nat, blockno: nat, write: bool, env: seq<seq<Act>>) returns (ok: bool, h: nat)
      requires Valid() && g.held == {} && b < |dev.data| && blockno < |dev.platter| && |env| == 4
      requires forall k | k in g.flight :: g.flight[k].b != b
      modifies this, desc, free, ops, info, status, avail, used
      ensures Valid() && g.held == {} && (ok <==> |old(g).flight| <= 1)
      ensures !ok ==> g == old(g) && View() == old(View()) && dev == old(dev)
      ensures ok ==> h in g.flight && g.flight[h].b == b && g.flight[h].blockno == blockno && g.flight[h].write == write
      ensures ok ==>
                && g.flight[h].phase != Building
                && Added(old(g), g, h, g.flight[h], old(free[..]))
                && busy == old(busy) + {b}
      ensures |dev.data| == |old(dev).data| && |dev.platter| == |old(dev).platter|
      ensures ok && (forall k | k in old(g).flight :: old(g).flight[k].blockno != blockno) ==>
                forall w :: Carried(old(dev), old(g).flight, w) ==>
                  Carried(dev, g.flight, Performed(w, Request(b, blockno, write)))
    {
      hide Inv, Added, Keeps;
      var i1, i2;
      ok, h, i1, i2 := Reserve(env[0]);
      if ok {
        var c := Chain(i1, i2, b, blockno, write, Building);
        assert CanFill(dev, g, h, c);
        NewHead(View(), dev, g, h);
        ghost var d1, f1 := dev, g.flight;
        SameBlocks(old(g), g.(held := {}), blockno);
        hide Advanced, CanFill;
        Publish(h, c, env[1..], old(g), old(free[..]));
        AddedIs(old(g), g, h, c, old(free[..]));
        if forall k | k in old(g).flight :: old(g).flight[k].blockno != blockno {
          SubmitCarries(old(dev), old(g).flight, d1, f1, dev, g.flight, h, c);
        }
      }
    }

    /** The device takes, serves and answers the only request in flight. */
    method ServeOnly(h: nat)
      requires Valid() && g.flight.Keys == {h} && g.flight[h].phase != Building && g.flight[h].phase != Done
      requires if g.flight[h].phase == Posted then g.posted != [] && g.posted[0] == h else g.posted == []
      modifies this`dev, this`usedIdx, this`g, status, used
      ensures Valid() && g.flight.Keys == {h} && g.held == old(g).held
      ensures g.flight[h] == old(g).flight[h].(phase := Answered)
      ensures |dev.data| == |old(dev).data| && |dev.platter| == |old(dev).platter|
      ensures Keeps(old(dev), old(g).flight, dev, g.flight)
    {
      hide Inv, Keeps;
      Device(TakeNext);
      ghost var d1, f1 := dev, g.flight;
      Device(ServeChain(h));
      KeepsTwice(old(dev), old(g).flight, d1, f1, dev, g.flight);
      ghost var d2, f2 := dev, g.flight;
      Device(AnswerChain(h));
      KeepsTwice(old(dev), old(g).flight, d2, f2, dev, g.flight);
    }

    /**
     * virtio_disk_rw as its caller sees it on an idle disk whose device serves the request: the transfer, and nothing
     * else, has happened when it returns.
     */
    method Transfer(b: nat, blockno: nat, write: bool) returns (panic: bool)
      requires Valid() && g == Book(map[], {}, [], []) && b < |dev.data| && blockno < |dev.platter|
      modifies this, desc, free, ops, info, status, avail, used
      ensures !panic && Valid() && g.flight == map[] && g.held == {}
      ensures World(dev.data, dev.platter) ==
              Performed(World(old(dev).data, old(dev).platter), Request(b, blockno, write))
    {
      hide Inv, Added, Carried, Performed, Advanced, Triple;
      CarriedFromStart(dev);
      ghost var w := World(dev.data, dev.platter);
      var ok, h := Submit(b, blockno, write, [[], [], [], []]);
      OnlyOne(View(), dev, old(g), g, h, old(free[..]));
      ServeOnly(h);
      panic := Intr([]);
      var p := Finish(h);
      panic := panic || p;
      assert g.flight == map[];
      NothingCarried(dev, Performed(w, Request(b, blockno, write)));
    }

    /** The kernel writes a buffer that is not in flight. */
    method Store(b: nat, x: Block)
      requires Valid() && b < |dev.data| && forall k | k in g.flight :: g.flight[k].b != b
      modifies this`dev
      ensures Valid() && dev == old(dev).(data := old(dev).data[b := x])
    {
      DataFrame(View(), dev, dev.(data := dev.data[b := x]), g.flight);
      dev := dev.(data := dev.data[b := x]);
    }

    /**
     * Any run of the driver: requests for buffers that are not in flight, interrupts, returns of callers whose
     * flag is clear, stores into buffers, and the device at any moment. No panic is reached, and never are more
     * than two requests in flight. As long as no block is asked for while a request for it is in flight, the run
     * amounts to one on a disk that carries out every request at once.
     */
    method Session(calls: seq<Call>) returns (panic: bool, pending: Waiting, ghost story: seq<Event>)
      requires Valid() && g.held == {} && g.flight == map[]
      modifies this, desc, free, ops, info, status, avail, used
      ensures !panic && Valid() && g.held == {} && Tracks(g.flight, pending) && |pending| <= 2
      ensures forall b :: b in busy ==> Concerns(pending, b)
      ensures Told(calls, story, |old(dev).data|, |old(dev).platter|) && pending == Pending(story)
      ensures |dev.data| == |old(dev).data| && |dev.platter| == |old(dev).platter|
      ensures Orderly(story) ==> Carried(dev, g.flight, After(World(old(dev).data, old(dev).platter), story))
      ensures Orderly(story) && pending == map[] ==>
                World(dev.data, dev.platter) == After(World(old(dev).data, old(dev).platter), story)
    {
      hide Inv, Advanced, Settled, Added, Tracks, Carried, Told;
      panic, pending, story := false, map[], [];
      TracksNothing();
      CarriedFromStart(dev);
      ghost var w0 := World(dev.data, dev.platter);
      ToldNothing(calls, |dev.data|, |dev.platter|);
      for k := 0 to |calls|
        invariant !panic && Valid() && g.held == {} && Tracks(g.flight, pending) && pending == Pending(story)
        invariant Told(calls[..k], story, |old(dev).data|, |old(dev).platter|)
        invariant |dev.data| == |old(dev).data| && |dev.platter| == |old(dev).platter|
        invariant Orderly(story) ==> Carried(dev, g.flight, After(w0, story))
      {
        ghost var e;
        panic, pending, e := Do(calls[k], pending, After(w0, story));
        ToldMore(calls, story, k, e, |dev.data|, |dev.platter|);
        StoryNext(w0, story, e);
        story := story + [e];
      }
      assert calls[..|calls|] == calls;
      Bounded(View(), dev, g, pending);
      if Orderly(story) && pending == map[] {
        NoChains(g.flight, pending);
        NothingCarried(dev, After(w0, story));
      }
    }

    /** One call of a session; w is what buffers and disk amount to. */
    method Do(call: Call, pending: Waiting, ghost w: World) returns (panic: bool, now: Waiting, ghost e: Event)
      requires Valid() && g.held == {} && Tracks(g.flight, pending)
      modifies this, desc, free, ops, info, status, avail, used
      ensures !panic && Valid() && g.held == {} && Tracks(g.flight, now) && now == PendingNext(pending, e)
      ensures |dev.data| == |old(dev).data| && |dev.platter| == |old(dev).platter|
      ensures Tells(pending, call, e, |dev.data|, |dev.platter|)
      ensures Carried(old(dev), old(g).flight, w) && InOrder(pending, e) ==> Carried(dev, g.flight, Then(w, e))
    {
      hide Inv, Advanced, Settled, Added, Tracks, Carried;
      panic, now, e := false, pending, Nothing;
      CarriedSize(dev, g.flight, w);
      match call {
        case Rw(b, blockno, write, env) =>
          if !Concerns(pending, b) && b < |dev.data| && blockno < |dev.platter| && |env| == 4 {
            NotInFlight(g.flight, pending, b, blockno);
            TracksSize(g.flight, pending);
            ghost var g0, free0 := g, free[..];
            var ok, h := Submit(b, blockno, write, env);
            if ok {
              TracksMore(g0, g, pending, h, free0);
              now := pending[h := Request(b, blockno, write)];
              e := Asked(h, Request(b, blockno, write));
            }
          }
        case Interrupt(env) =>
          panic := Intr(env);
          TracksOn(old(g), g, pending);
        case Return(h) =>
          if h in pending && pending[h].b !in busy {
            InFlight(g.flight, pending, h);
            panic := Finish(h);
            TracksLess(old(g).flight, pending, h);
            now := pending - {h};
            e := Returned(h);
          }
        case Write(b, x) =>
          if !Concerns(pending, b) && b < |dev.data| {
            NotInFlight(g.flight, pending, b, 0);
            Store(b, x);
            e := Stored(b, x);
            if Carried(old(dev), g.flight, w) { StoreCarries(old(dev), g.flight, b, x, w); }
          }
        case Device(acts) =>
          DeviceRuns(acts);
          TracksOn(old(g), g, pending);
      }
    }
  }

  /** What a session consists of; env is what the device does meanwhile. */
  datatype Call =
    | Rw(b: nat, blockno: nat, write: bool, env: seq<seq<Act>>)
    | Interrupt(env: seq<seq<Act>>)
    | Return(h: nat)
    | Write(b: nat, x: Block)
    | Device(acts: seq<Act>)

  /** What came of a call: a request accepted or returned, a buffer written. */
  datatype Event = Nothing | Asked(h: nat, r: Request) | Returned(h: nat) | Stored(b: nat, x: Block)

  /** The requests in flight, by first descriptor. */
  type Waiting = map<nat, Request>

  predicate Concerns(p: Waiting, b: nat) {
    exists h | h in p :: p[h].b == b
  }

  function PendingNext(p: Waiting, e: Event): (r: Waiting) {
    match e
    case Asked(h, r) => p[h := r]
    case Returned(h) => p - {h}
    case _ => p
  }

  function Pending(story: seq<Event>): (p: Waiting) {
    if story == [] then map[] else PendingNext(Pending(story[..|story| - 1]), story[|story| - 1])
  }

  /** A request is for a block that no request in flight is for. */
  predicate InOrder(p: Waiting, e: Event) {
    e.Asked? ==> forall h | h in p :: p[h].blockno != e.r.blockno
  }

  predicate Orderly(story: seq<Event>) {
    story == [] || (Orderly(story[..|story| - 1]) && InOrder(Pending(story[..|story| - 1]), story[|story| - 1]))
  }

  /** An event on a disk that carries out every request at once. */
  function Then(w: World, e: Event): (v: World) {
    match e
    case Asked(_, r) => if r.b < |w.data| && r.blockno < |w.platter| then Performed(w, r) else w
    case Stored(b, x) => if b < |w.data| then w.(data := w.data[b := x]) else w
    case _ => w
  }

  function After(w: World, story: seq<Event>): (v: World) {
    if story == [] then w else Then(After(w, story[..|story| - 1]), story[|story| - 1])
  }

  lemma StoryNext(w: World, story: seq<Event>, e: Event)
    ensures Pending(story + [e]) == PendingNext(Pending(story), e) && After(w, story + [e]) == Then(After(w, story), e)
    ensures Orderly(story + [e]) <==> Orderly(story) && InOrder(Pending(story), e)
  {
    assert (story + [e])[..|story|] == story;
  }

  /** What a call leads to with the requests p in flight: nothing is accepted, returned or stored out of turn. */
  predicate Tells(p: Waiting, call: Call, e: Event, buffers: nat, blocks: nat) {
    match call
    case Rw(b, n, write, env) =>
      if !Concerns(p, b) && b < buffers && n < blocks && |env| == 4 && |p| <= 1
      then e.Asked? && e.h !in p && e.r == Request(b, n, write)
      else e == Nothing
    case Return(h) => e == Nothing || (e == Returned(h) && h in p)
    case Write(b, x) => e == if !Concerns(p, b) && b < buffers then Stored(b, x) else Nothing
    case _ => e == Nothing
  }

  ghost predicate Told(calls: seq<Call>, story: seq<Event>, buffers: nat, blocks: nat) {
    |story| == |calls| && forall k | 0 <= k < |calls| :: Tells(Pending(story[..k]), calls[k], story[k], buffers, blocks)
  }

  lemma ToldNothing(calls: seq<Call>, buffers: nat, blocks: nat)
    ensures Told(calls[..0], [], buffers, blocks)
  {
  }

  lemma ToldMore(calls: seq<Call>, story: seq<Event>, k: nat, e: Event, buffers: nat, blocks: nat)
    requires k < |calls| && Told(calls[..k], story, buffers, blocks)
    requires Tells(Pending(story), calls[k], e, buffers, blocks)
    ensures Told(calls[..k + 1], story + [e], buffers, blocks)
  {
    forall j | 0 <= j < k + 1
      ensures Tells(Pending((story + [e])[..j]), calls[..k + 1][j], (story + [e])[j], buffers, blocks)
    {
      assert (story + [e])[..j] == story[..j];
      if j == k { assert story[..k] == story; } else { assert calls[..k][j] == calls[j]; }
    }
  }

  /** pending has the request of every chain in flight. */
  ghost predicate Tracks(f: Flight, pending: Waiting) {
    pending.Keys == f.Keys && forall h | h in f :: pending[h] == RequestOf(f[h])
  }

  lemma TracksNothing()
    ensures Tracks(map[], map[])
  {
  }

  lemma NoChains(f: Flight, pending: Waiting)
    requires Tracks(f, pending) && pending == map[]
    ensures f == map[]
  {
  }

  lemma TracksSize(f: Flight, pending: Waiting)
    requires Tracks(f, pending)
    ensures |pending| == |f|
  {
    assert |pending.Keys| == |pending| && |f.Keys| == |f|;
  }

  lemma NotInFlight(f: Flight, pending: Waiting, b: nat, n: nat)
    requires Tracks(f, pending) && !Concerns(pending, b)
    ensures forall h | h in f :: f[h].b != b
    ensures (forall h | h in pending :: pending[h].blockno != n) ==> forall h | h in f :: f[h].blockno != n
  {
    forall h | h in f ensures f[h].b != b { assert h in pending && pending[h].b == f[h].b; }
  }

  lemma InFlight(f: Flight, pending: Waiting, h: nat)
    requires Tracks(f, pending) && h in pending
    ensures h in f && f[h].b == pending[h].b
  {
  }

  lemma TracksMore(g: Book, r: Book, pending: Waiting, h: nat, free: seq<bool>)
    requires Tracks(g.flight, pending) && h in r.flight && Added(g, r, h, r.flight[h], free)
    ensures h !in pending && Tracks(r.flight, pending[h := RequestOf(r.flight[h])])
  {
    var rest := r.flight - {h};
    assert forall k | k in r.flight && k != h :: k in rest && rest[k] == r.flight[k];
    assert forall k | k in g.flight :: k in rest;
  }

  lemma TracksOn(g: Book, r: Book, pending: Waiting)
    requires Tracks(g.flight, pending) && (Advanced(g, r) || Settled(g, r))
    ensures Tracks(r.flight, pending) && r.held == g.held
  {
  }

  lemma TracksLess(f: Flight, pending: Waiting, h: nat)
    requires Tracks(f, pending)
    ensures Tracks(f - {h}, pending - {h})
  {
  }

  lemma Bounded(s: Ring, d: Dev, g: Book, pending: Waiting)
    requires Inv(s, d, g) && Tracks(g.flight, pending)
    ensures |pending| <= 2 && forall b :: b in s.busy ==> Concerns(pending, b)
  {
    TwoInFlight(s.free, g.flight, g.held);
    TracksSize(g.flight, pending);
    forall b | b in s.busy ensures Concerns(pending, b) {
      var h :| Waits(g.flight, h, b);
      assert h in pending && pending[h].b == b;
    }
  }
}
