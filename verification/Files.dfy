/** Block allocation, block maps, and reading, writing and truncating files, in place on an image. */
module Files {
  import opened Basics
  import opened Blocks
  import opened BlockMap
  import opened Counting
  import Params
  import Admission = LogAdmission

  /** The slot of data block n of a file. */
  function DataSlot(n: nat): (k: nat) { if n < NDIRECT then n else n + 1 }

  /** IBLOCK(i, sb): sixteen inodes to a block. */
  function Iblock(sb: Super, i: nat): (b: nat) { i / 16 + sb.inodestart }

  /** Data and indirect blocks that were in a slot are still in it, and data blocks have the same contents. */
  ghost predicate DataKept(disk: seq<Block>, m: seq<Block>, g: Book, r: Book) {
    |m| == |disk| && forall role | role in g.at && g.at[role] < |disk| ::
      && role in r.at && r.at[role] == g.at[role]
      && (role.Slot? && role.k != NDIRECT ==> m[g.at[role]] == disk[g.at[role]])
  }

  lemma KeptSame(disk: seq<Block>, g: Book)
    ensures DataKept(disk, disk, g, g)
  {
  }

  lemma KeptTwice(disk: seq<Block>, m: seq<Block>, n: seq<Block>, g: Book, h: Book, r: Book)
    requires DataKept(disk, m, g, h) && DataKept(m, n, h, r)
    ensures DataKept(disk, n, g, r)
  {
  }

  /** balloc's result as a state: the lowest free block, marked and zeroed. */
  ghost predicate Allocated(disk: seq<Block>, m: seq<Block>, sb: Super, g: Book, r: Book, b: nat) {
    && b in g.own && g.own[b] == Free && (forall c | c in g.own && c < b :: g.own[c] != Free)
    && Bblock(sb, b) < |disk| && b < |disk| && m == Marked(disk, sb, b, true)[b := ZeroBlock()]
    && r == g.(own := g.own[b := Loose])
  }

  lemma AllocStep(disk: seq<Block>, nodes: seq<Inode>, sb: Super, g: Book, dying: set<nat>, b: nat)
    requires Inv(disk, nodes, sb, g, dying) && b in g.own && g.own[b] == Free
    ensures Bblock(sb, b) < |disk| && b < |disk|
    ensures Inv(Marked(disk, sb, b, true)[b := ZeroBlock()], nodes, sb, g.(own := g.own[b := Loose]), dying)
  {
    hide Bitmap, AllPointers, Layout;
    MarkKeeps(disk, nodes, sb, g, dying, b, Loose);
    FillKeeps(Marked(disk, sb, b, true), nodes, sb, g.(own := g.own[b := Loose]), dying, b, ZeroBlock());
  }

  lemma AllocatedKept(disk: seq<Block>, m: seq<Block>, nodes: seq<Inode>, sb: Super, g: Book, r: Book, dying: set<nat>,
                      b: nat)
    requires Inv(disk, nodes, sb, g, dying) && Allocated(disk, m, sb, g, r, b)
    ensures DataKept(disk, m, g, r) && r.at == g.at
  {
    hide Bitmap, AllPointers, SetBlockBit;
    assert Bblock(sb, b) < sb.nmeta;
  }

  /** Nothing but the given slot was added, and no block was left without one. */
  ghost predicate Added(g: Book, r: Book, role: Role) {
    && r.own.Keys == g.own.Keys && role in r.at && role !in g.at && r.at[role] in g.own && g.own[r.at[role]] == Free
    && (forall q | q in g.at :: q in r.at && r.at[q] == g.at[q]) && (forall q | q in r.at && q != role :: q in g.at)
    && (forall b | b in g.own && b != r.at[role] :: r.own[b] == g.own[b]) && r.own[r.at[role]] == role
  }

  lemma SettledAdds(disk: seq<Block>, m: seq<Block>, sb: Super, g: Book, h: Book, role: Role, b: nat)
    requires Allocated(disk, m, sb, g, h, b) && role !in g.at && role.Slot?
    ensures Added(g, Settled(h, role, b), role)
  {
  }

  lemma KeptSettled(disk: seq<Block>, m: seq<Block>, g: Book, h: Book, role: Role, b: nat)
    requires DataKept(disk, m, g, h) && h.at == g.at && role !in g.at
    ensures DataKept(disk, m, g, Settled(h, role, b))
  {
  }

  /** An address is 0 exactly when its slot is empty. */
  lemma Address(disk: seq<Block>, nodes: seq<Inode>, sb: Super, g: Book, dying: set<nat>, i: nat, k: nat)
    requires Inv(disk, nodes, sb, g, dying) && i < |nodes| && i !in dying && k <= NDIRECT
    ensures |nodes[i].addrs| == NDIRECT + 1 && (nodes[i].addrs[k] == 0 <==> Slot(i, k) !in g.at)
    ensures Slot(i, k) in g.at ==> nodes[i].addrs[k] == g.at[Slot(i, k)] && g.at[Slot(i, k)] < |disk|
  {
    hide Bitmap;
    assert Pointers(disk, nodes[i], g, i);
    assert nodes[i].addrs[k] == Held(g, Slot(i, k));
  }

  lemma EntryWord(disk: seq<Block>, nodes: seq<Inode>, sb: Super, g: Book, dying: set<nat>, i: nat, j: nat)
    requires Inv(disk, nodes, sb, g, dying) && i < |nodes| && i !in dying && j < NINDIRECT && Slot(i, NDIRECT) in g.at
    ensures var a, role := g.at[Slot(i, NDIRECT)], Slot(i, NDIRECT + 1 + j);
            && a < |disk| && (GetWord(disk[a], j) == 0 <==> role !in g.at)
            && (role in g.at ==> GetWord(disk[a], j) == g.at[role] && g.at[role] < |disk|)
  {
    hide Bitmap, GetWord;
    assert Pointers(disk, nodes[i], g, i);
    var role := Slot(i, NDIRECT + 1 + j);
    assert GetWord(disk[g.at[Slot(i, NDIRECT)]], j) == Held(g, role);
  }

  /** The word of an entry lies in an indirect block, so data blocks are as they were. */
  lemma EntryKept(disk: seq<Block>, nodes: seq<Inode>, sb: Super, g: Book, dying: set<nat>, i: nat, j: nat, b: nat)
    requires Inv(disk, nodes, sb, g, dying) && j < NINDIRECT && Slot(i, NDIRECT) in g.at && b in g.own
    requires g.own[b] == Loose
             && Slot(i, NDIRECT + 1 + j) !in g.at
    ensures var a := g.at[Slot(i, NDIRECT)];
            a < |disk| && a != b && b < 0x1_0000_0000
                && DataKept(disk, disk[a := PutWord(disk[a], j, b)], g, Settled(g, Slot(i, NDIRECT + 1 + j), b))
  {
    hide Bitmap, AllPointers, PutWord;
  }

  /** bmap added data block n of inode i, and its indirect block if that was missing; what it logged. */
  ghost predicate Mapped(g: Book, r: Book, sb: Super, d: set<nat>, e: set<nat>, i: nat, n: nat, addr: nat) {
    var role, ind := Slot(i, DataSlot(n)), Slot(i, NDIRECT);
    if n < NDIRECT then Added(g, r, role) && e == d + {Bblock(sb, addr), addr}
    else
      && ind in r.at
      && if ind in g.at then Added(g, r, role) && e == d + {Bblock(sb, addr), addr, g.at[ind]}
         else (exists h :: Added(g, h, ind) && Added(h, r, role))
              && e == d + {Bblock(sb, addr), addr, r.at[ind], Bblock(sb, r.at[ind])}
  }

  lemma NoEntries(disk: seq<Block>, nodes: seq<Inode>, sb: Super, g: Book, dying: set<nat>, i: nat)
    requires Inv(disk, nodes, sb, g, dying) && i < |nodes| && i !in dying
    ensures Slot(i, NDIRECT) !in g.at ==> forall k: nat | k > NDIRECT :: Slot(i, k) !in g.at
    ensures Slot(i, NDIRECT) in g.at ==> g.at[Slot(i, NDIRECT)] < |disk|
  {
    hide Bitmap;
    assert Pointers(disk, nodes[i], g, i);
  }

  lemma StillAt(disk: seq<Block>, m: seq<Block>, g: Book, r: Book, role: Role)
    requires DataKept(disk, m, g, r) && role in g.at && g.at[role] < |disk|
    ensures role in r.at && r.at[role] == g.at[role]
  {
  }

  lemma AddedOnly(g: Book, r: Book, role: Role, q: Role)
    requires Added(g, r, role) && q != role
    ensures q in r.at <==> q in g.at
  {
  }

  // ---- contents ----

  const UINT := 0x1_0000_0000

  /** Byte o of file i; 0 where no block is mapped. */
  ghost function FByte(disk: seq<Block>, g: Book, i: nat, o: nat): (b: Byte) {
    var role := Slot(i, DataSlot(o / BSIZE));
    if role in g.at && g.at[role] < |disk| then disk[g.at[role]][o % BSIZE] else 0
  }

  /** Every block below the size of file i is mapped. */
  ghost predicate Full(node: Inode, g: Book, i: nat) {
    node.size <= MAXFILE * BSIZE && forall n: nat | n * BSIZE < node.size :: Slot(i, DataSlot(n)) in g.at
  }

  /** From (disk, g) to (m, r), data was written at off in file i, and no other byte of any file changed. */
  ghost predicate Overlaid(disk: seq<Block>, m: seq<Block>, g: Book, r: Book, i: nat, off: nat, data: seq<Byte>) {
    forall j: nat, o: nat ::
      FByte(m, r, j, o) == if j == i && off <= o < off + |data| then data[o - off] else FByte(disk, g, j, o)
  }

  lemma OverlaidNone(disk: seq<Block>, g: Book, i: nat, off: nat)
    ensures Overlaid(disk, disk, g, g, i, off, [])
  {
  }

  lemma OverlaidTwice(disk: seq<Block>, m: seq<Block>, n: seq<Block>, g: Book, h: Book, r: Book, i: nat, off: nat,
                      a: seq<Byte>,
      b: seq<Byte>)
    requires Overlaid(disk, m, g, h, i, off, a) && Overlaid(m, n, h, r, i, off + |a|, b)
    ensures Overlaid(disk, n, g, r, i, off, a + b)
  {
    hide FByte;
  }

  /** Mapping a fresh zeroed block changes no byte of any file. */
  lemma MappedBytes(disk: seq<Block>, m: seq<Block>, g: Book, r: Book, i: nat, n: nat, off: nat)
    requires DataKept(disk, m, g, r) && (forall role | role in g.at :: g.at[role] < |disk|)
    requires forall role | role in r.at && role !in g.at && role.Slot?
             && role.k != NDIRECT :: r.at[role] < |m| ==> m[r.at[role]] == ZeroBlock()
    ensures Overlaid(disk, m, g, r, i, off, [])
  {
    forall j: nat, o: nat ensures FByte(m, r, j, o) == FByte(disk, g, j, o) {
      var role := Slot(j, DataSlot(o / BSIZE));
      assert role.k != NDIRECT;
    }
  }

  lemma InRange(disk: seq<Block>, nodes: seq<Inode>, sb: Super, g: Book, dying: set<nat>)
    requires Inv(disk, nodes, sb, g, dying)
    ensures forall role | role in g.at ::
              sb.nmeta <= g.at[role] < |disk| && g.at[role] in g.own && g.own[g.at[role]] == role
  {
    hide Bitmap, AllPointers;
  }

  /** A write into the block of data block n of file i. */
  lemma BlockOverlaid(disk: seq<Block>, g: Book, i: nat, n: nat, p: nat, data: seq<Byte>)
    requires Slot(i, DataSlot(n)) in g.at && p + |data| <= BSIZE
    requires forall role | role in g.at :: g.at[role] < |disk| && g.at[role] in g.own && g.own[g.at[role]] == role
    ensures var b := g.at[Slot(i, DataSlot(n))];
            Overlaid(disk, disk[b := Patch(disk[b], p, data)], g, g, i, n * BSIZE + p, data)
  {
    var b := g.at[Slot(i, DataSlot(n))];
    var m, off := disk[b := Patch(disk[b], p, data)], n * BSIZE + p;
    forall j: nat, o: nat
      ensures FByte(m, g, j, o) == if j == i && off <= o < off + |data| then data[o - off] else FByte(disk, g, j, o)
    {
      var role := Slot(j, DataSlot(o / BSIZE));
      assert o == o / BSIZE * BSIZE + o % BSIZE;
      if role in g.at && g.at[role] == b { assert role == Slot(i, DataSlot(n)); }
    }
  }

  /** memmove into a block. */
  function Patch(b: Block, p: nat, data: seq<Byte>): (r: Block)
    requires p + |data| <= BSIZE
  {
    b[..p] + data + b[p + |data|..]
  }

  lemma MappedNew(g: Book, r: Book, sb: Super, d: set<nat>, e: set<nat>, i: nat, n: nat, addr: nat)
    requires Mapped(g, r, sb, d, e, i, n, addr)
    ensures forall role | role in r.at && role !in g.at :: role == Slot(i, DataSlot(n)) || role == Slot(i, NDIRECT)
    ensures forall role | role in g.at :: role in r.at && r.at[role] == g.at[role]
    ensures r.own.Keys == g.own.Keys && forall b | b in g.own && g.own[b] != Free :: r.own[b] == g.own[b]
    ensures forall b | b in r.own && r.own[b] == Loose :: g.own[b] == Loose
  {
    if n >= NDIRECT && Slot(i, NDIRECT) !in g.at {
      var h :| Added(g, h, Slot(i, NDIRECT)) && Added(h, r, Slot(i, DataSlot(n)));
    }
  }

  /** How many of n bytes at off readi reads from a file of the given size. */
  function ReadCount(size: nat, off: nat, n: nat): (k: nat) {
    if off > size || off + n >= UINT then 0 else if off + n > size then size - off else n
  }

  /** Bytes of one block are bytes of the file. */
  lemma ReadBytes(disk: seq<Block>, g: Book, i: nat, o: nat, data: seq<Byte>)
    requires Slot(i, DataSlot(o / BSIZE)) in g.at && g.at[Slot(i, DataSlot(o / BSIZE))] < |disk|
    requires o % BSIZE + |data| <= BSIZE
    requires data == disk[g.at[Slot(i, DataSlot(o / BSIZE))]][o % BSIZE..o % BSIZE + |data|]
    ensures forall k | 0 <= k < |data| :: data[k] == FByte(disk, g, i, o + k)
  {
    forall k | 0 <= k < |data| ensures data[k] == FByte(disk, g, i, o + k) {
      assert (o + k) / BSIZE == o / BSIZE && (o + k) % BSIZE == o % BSIZE + k;
    }
  }

  // ---- writei ----

  /** Blocks that n bytes at off touch. */
  function Spanned(off: nat, n: nat): (k: nat) {
    if n == 0 then 0 else (off + n - 1) / BSIZE - off / BSIZE + 1
  }

  /** How many bitmap blocks there are. */
  function Bitmaps(sb: Super): (n: nat) { (sb.size + BPB - 1) / BPB }

  ghost function IndirectOf(g: Book, i: nat): (s: set<nat>) {
    if Slot(i, NDIRECT) in g.at then {g.at[Slot(i, NDIRECT)]} else {}
  }

  /**
   * What a run of writei's loop has logged: t data blocks, the bitmap blocks of allocated blocks, the
   * indirect block.
   */
  ghost predicate Logged(g: Book, r: Book, sb: Super, d: set<nat>, e: set<nat>, i: nat, t: nat, data: set<nat>,
                         maps: set<nat>, u: nat)
  {
    && e <= d + data + maps + IndirectOf(r, i) && |data| <= t
    && |maps| + u <= t + (if Slot(i, NDIRECT) in g.at || Slot(i, NDIRECT) !in r.at then 0 else 1)
    && forall b | b in maps :: sb.bmapstart <= b < sb.bmapstart + Bitmaps(sb)
  }

  lemma KeptSlots(disk: seq<Block>, m: seq<Block>, g: Book, r: Book)
    requires DataKept(disk, m, g, r) && forall role | role in g.at :: g.at[role] < |disk|
    ensures forall role | role in g.at :: role in r.at && r.at[role] == g.at[role]
  {
  }

  lemma DataBlock(disk: seq<Block>, nodes: seq<Inode>, sb: Super, g: Book, dying: set<nat>, role: Role)
    requires Inv(disk, nodes, sb, g, dying) && role in g.at && role.Slot? && role.k != NDIRECT
    ensures g.at[role] in g.own && g.own[g.at[role]] != Meta && NotIndirect(g, g.at[role])
  {
    hide Bitmap, AllPointers;
  }

  lemma LoggedNone(g: Book, sb: Super, d: set<nat>, i: nat)
    ensures Logged(g, g, sb, d, d, i, 0, {}, {}, 0)
  {
  }

  /** A round that finds its block mapped logs only that block. */
  lemma LoggedSame(g: Book, h: Book, sb: Super, d: set<nat>, e: set<nat>, i: nat, t: nat, data: set<nat>,
                   maps: set<nat>, u: nat, b: nat)
    requires Logged(g, h, sb, d, e, i, t, data, maps, u)
    ensures Logged(g, h, sb, d, e + {b}, i, t + 1, data + {b}, maps, u + 1)
  {
  }

  /** The bitmap blocks that mapping data block n of file i logs. */
  ghost function NewMaps(h: Book, r: Book, sb: Super, i: nat, n: nat, b: nat): (s: set<nat>) {
    if n >= NDIRECT && Slot(i, NDIRECT) !in h.at && Slot(i, NDIRECT) in r.at
    then {Bblock(sb, b), Bblock(sb, r.at[Slot(i, NDIRECT)])} else {Bblock(sb, b)}
  }

  /**
   * A round that maps its block logs it, its bitmap block and, the first time, the indirect block and its
   * bitmap block.
   */
  lemma LoggedMapped(g: Book, h: Book, r: Book, sb: Super, d: set<nat>, e: set<nat>, f: set<nat>, i: nat, n: nat,
                     t: nat, data: set<nat>, maps: set<nat>, u: nat, b: nat)
    requires Logged(g, h, sb, d, e, i, t, data, maps, u) && Mapped(h, r, sb, e, f, i, n, b)
    requires forall role | role in g.at :: role in h.at && h.at[role] == g.at[role]
    requires b < sb.size && forall role | role in r.at :: r.at[role] < sb.size
    ensures Logged(g, r, sb, d, f + {b}, i, t + 1, data + {b}, maps + NewMaps(h, r, sb, i, n, b), u)
  {
    hide Bitmaps, Bblock, Mapped, NewMaps, IndirectOf;
    var more := NewMaps(h, r, sb, i, n, b);
    MapsAdded(h, r, sb, e, f, i, n, b);
    assert |data + {b}| <= |data| + 1 && |maps + more| <= |maps| + |more|;
  }

  /** What mapping one data block logs. */
  lemma MapsAdded(h: Book, r: Book, sb: Super, e: set<nat>, f: set<nat>, i: nat, n: nat, b: nat)
    requires Mapped(h, r, sb, e, f, i, n, b) && b < sb.size && forall role | role in r.at :: r.at[role] < sb.size
    ensures var ind, more := Slot(i, NDIRECT), NewMaps(h, r, sb, i, n, b);
            && f <= e + more + {b} + IndirectOf(r, i) && IndirectOf(h, i) <= IndirectOf(r, i)
            && |more| <= (if ind in h.at || ind !in r.at then 1 else 2) && (ind in h.at ==> ind in r.at)
            && forall x | x in more :: sb.bmapstart <= x < sb.bmapstart + Bitmaps(sb)
  {
    hide Bitmaps, Bblock;
    var ind := Slot(i, NDIRECT);
    MappedNew(h, r, sb, e, f, i, n, b);
    if n < NDIRECT { AddedOnly(h, r, Slot(i, n), ind); }
    BitmapBlock(sb, b);
    if ind in r.at { BitmapBlock(sb, r.at[ind]); }
  }

  lemma BitmapBlock(sb: Super, b: nat)
    requires b < sb.size
    ensures sb.bmapstart <= Bblock(sb, b) < sb.bmapstart + Bitmaps(sb)
  {
    assert (sb.size + BPB - 1) / BPB == (sb.size - 1) / BPB + 1;
  }

  lemma LoggedBound(g: Book, r: Book, sb: Super, d: set<nat>, e: set<nat>, i: nat, t: nat, data: set<nat>,
                    maps: set<nat>, u: nat, x: nat)
    requires Logged(g, r, sb, d, e, i, t, data, maps, u)
    ensures |e + {x} - d| + u <= 2 * t + 3 && |e + {x} - d| <= t + Bitmaps(sb) + 2
  {
    var all := data + maps + IndirectOf(r, i) + {x};
    Smaller(e + {x} - d, all);
    Smaller(maps, Span(sb.bmapstart, sb.bmapstart + Bitmaps(sb)));
    SumBound(data, maps, IndirectOf(r, i), {x});
  }

  lemma SumBound(a: set<nat>, b: set<nat>, c: set<nat>, d: set<nat>)
    ensures |a + b + c + d| <= |a| + |b| + |c| + |d|
  {
    assert |a + b| <= |a| + |b|;
    assert |a + b + c| <= |a + b| + |c|;
  }

  /** Every block is metadata, free, or in a slot. */
  ghost predicate Tidy(g: Book) {
    forall b | b in g.own :: g.own[b] != Loose
  }

  ghost predicate SlotsKept(g: Book, r: Book) {
    forall role | role in g.at :: role in r.at && r.at[role] == g.at[role]
  }

  /** The blocks of file i from that of off up to end are mapped. */
  ghost predicate WrittenTo(g: Book, i: nat, off: nat, end: nat) {
    off < end ==> forall n: nat | off / BSIZE <= n && n * BSIZE < end :: Slot(i, DataSlot(n)) in g.at
  }

  lemma StartWrite(g: Book, i: nat, off: nat)
    ensures SlotsKept(g, g) && WrittenTo(g, i, off, off) && Spanned(off, 0) == 0
  {
  }

  /** An unaligned write starts in a block that is there already. */
  lemma FirstMapped(node: Inode, g: Book, h: Book, i: nat, off: nat)
    requires Full(node, g, i) && off <= node.size && off % BSIZE != 0 && SlotsKept(g, h)
    ensures Slot(i, DataSlot(off / BSIZE)) in h.at
  {
    assert off / BSIZE * BSIZE < off;
  }

  lemma SizeIs(disk: seq<Block>, nodes: seq<Inode>, sb: Super, g: Book, dying: set<nat>)
    requires Inv(disk, nodes, sb, g, dying)
    ensures |disk| == sb.size
  {
  }

  /** The next round goes to the end of its block or of the data: one block more. */
  lemma SpannedNext(off: nat, tot: nat, m: nat)
    requires 0 < m <= BSIZE - (off + tot) % BSIZE && (tot == 0 || (off + tot) % BSIZE == 0)
    ensures Spanned(off, tot + m) == Spanned(off, tot) + 1
  {
    var o := off + tot;
    assert o == o / BSIZE * BSIZE + o % BSIZE;
    assert (o + m - 1) / BSIZE == o / BSIZE;
    if tot > 0 { assert (o - 1) / BSIZE == o / BSIZE - 1; }
  }

  lemma KeptOn(g: Book, h: Book, r: Book)
    requires SlotsKept(g, h) && forall role | role in h.at :: role in r.at && r.at[role] == h.at[role]
    ensures SlotsKept(g, r)
  {
  }

  lemma WrittenNext(h: Book, r: Book, i: nat, off: nat, o: nat, m: nat)
    requires WrittenTo(h, i, off, o) && Slot(i, DataSlot(o / BSIZE)) in r.at && off <= o && 0 < m <= BSIZE - o % BSIZE
    requires forall role | role in h.at :: role in r.at && r.at[role] == h.at[role]
    ensures WrittenTo(r, i, off, o + m)
  {
    forall n: nat | off / BSIZE <= n && n * BSIZE < o + m ensures Slot(i, DataSlot(n)) in r.at {
      assert o == o / BSIZE * BSIZE + o % BSIZE;
      assert n == o / BSIZE || n < o / BSIZE;
      if n < o / BSIZE { assert n * BSIZE < o; }
    }
  }

  /** The log after one round of the loop, whether its block was mapped or not. */
  lemma LogRound(g: Book, h: Book, r: Book, sb: Super, d: set<nat>, e: set<nat>, f: set<nat>, i: nat, n: nat, t: nat,
                 data: set<nat>, maps: set<nat>, u: nat, b: nat)
    returns (data1: set<nat>, maps1: set<nat>, u1: nat)
    requires Logged(g, h, sb, d, e, i, t, data, maps, u) && SlotsKept(g, h) && b < sb.size
             && (forall role | role in r.at :: r.at[role] < sb.size)
    requires if Slot(i, DataSlot(n)) in h.at then r == h && f == e + {b}
             else exists x :: Mapped(h, r, sb, e, x, i, n, b) && f == x + {b}
    ensures Logged(g, r, sb, d, f, i, t + 1, data1, maps1, u1)
    ensures u1 == if Slot(i, DataSlot(n)) in h.at then u + 1 else u
  {
    hide Mapped, Logged;
    data1 := data + {b};
    if Slot(i, DataSlot(n)) in h.at {
      LoggedSame(g, h, sb, d, e, i, t, data, maps, u, b);
      maps1, u1 := maps, u + 1;
    } else {
      var x :| Mapped(h, r, sb, e, x, i, n, b) && f == x + {b};
      LoggedMapped(g, h, r, sb, d, e, x, i, n, t, data, maps, u, b);
      maps1, u1 := maps + NewMaps(h, r, sb, i, n, b), u;
    }
  }

  lemma SizeKeeps(disk: seq<Block>, nodes: seq<Inode>, sb: Super, g: Book, dying: set<nat>, i: nat, size: nat)
    requires Inv(disk, nodes, sb, g, dying) && i < |nodes|
    ensures Inv(disk, nodes[i := nodes[i].(size := size)], sb, g, dying)
  {
    hide Bitmap, Layout, Roles;
    forall j | 0 <= j < |nodes| && j !in dying ensures Pointers(disk, nodes[i := nodes[i].(size := size)][j], g, j) {
      assert Pointers(disk, nodes[j], g, j);
    }
  }

  /** After a write all blocks below the new size are mapped. */
  lemma FullAfter(node: Inode, g: Book, r: Book, i: nat, off: nat, end: nat, size: nat)
    requires Full(node, g, i) && SlotsKept(g, r) && WrittenTo(r, i, off, end) && off <= node.size
    requires off <= end <= MAXFILE * BSIZE
    requires size == if end > node.size then end else node.size
    ensures forall after: Inode | after.size == size :: Full(after, r, i)
  {
    forall n: nat | n * BSIZE < size ensures Slot(i, DataSlot(n)) in r.at {
      if n * BSIZE >= node.size { assert off / BSIZE <= n; }
    }
  }

  /** filewrite's chunk. */
  const CHUNK := (Params.MAXOPBLOCKS - 1 - 1 - 2) / 2 * BSIZE

  lemma ChunkSpans(off: nat, n: nat)
    requires n <= CHUNK
    ensures Spanned(off, n) <= 4 && (off % BSIZE == 0 ==> Spanned(off, n) <= 3)
  {
    assert CHUNK == 3 * BSIZE;
  }

  // ---- itrunc ----

  /** The slots of inode i below k, and the first j entries of its indirect block. */
  ghost function Cut(g: Book, i: nat, k: nat, j: nat): (s: set<Role>) {
    set r | r in g.at && r.Slot? && r.ino == i && (r.k < k || NDIRECT < r.k < NDIRECT + 1 + j)
  }

  ghost function SlotsOf(g: Book, i: nat): (s: set<Role>) {
    set r | r in g.at && r.Slot? && r.ino == i
  }

  lemma CutNone(g: Book, i: nat)
    ensures Cut(g, i, 0, 0) == {}
  {
  }

  lemma CutDirect(g: Book, i: nat, k: nat)
    requires k < NDIRECT
    ensures Slot(i, k) in g.at ==> Cut(g, i, k + 1, 0) == Cut(g, i, k, 0) + {Slot(i, k)}
    ensures Slot(i, k) !in g.at ==> Cut(g, i, k + 1, 0) == Cut(g, i, k, 0)
  {
  }

  lemma CutEntry(g: Book, i: nat, j: nat)
    ensures Slot(i, NDIRECT + 1 + j) in g.at ==>
              Cut(g, i, NDIRECT, j + 1) == Cut(g, i, NDIRECT, j) + {Slot(i, NDIRECT + 1 + j)}
    ensures Slot(i, NDIRECT + 1 + j) !in g.at ==> Cut(g, i, NDIRECT, j + 1) == Cut(g, i, NDIRECT, j)
  {
  }

  lemma CutAll(sb: Super, g: Book, i: nat)
    requires Roles(sb, g)
    ensures Slot(i, NDIRECT) in g.at ==> SlotsOf(g, i) == Cut(g, i, NDIRECT, NINDIRECT) + {Slot(i, NDIRECT)}
    ensures Slot(i, NDIRECT) !in g.at ==> SlotsOf(g, i) == Cut(g, i, NDIRECT, NINDIRECT)
    ensures (forall k: nat | k > NDIRECT :: Slot(i, k) !in g.at) ==>
              Cut(g, i, NDIRECT, NINDIRECT) == Cut(g, i, NDIRECT, 0)
  {
  }

  /** From g to r, exactly the given slots of inode i were emptied and their blocks freed. */
  ghost predicate Emptied(g: Book, r: Book, gone: set<Role>) {
    && r.own.Keys == g.own.Keys && r.at == g.at - gone
    && forall b | b in g.own :: r.own[b] == if g.own[b] in gone then Free else g.own[b]
  }

  lemma EmptiedNone(g: Book)
    ensures Emptied(g, g, {})
  {
    assert g.at - {} == g.at;
  }

  lemma EmptiedNext(g: Book, h: Book, gone: set<Role>, role: Role)
    requires Emptied(g, h, gone) && role in h.at && h.at[role] in h.own && h.own[h.at[role]] == role
    requires forall b | b in h.own && h.own[b] == role :: b == h.at[role]
    ensures Emptied(g, Dropped(h, role).(own := Dropped(h, role).own[h.at[role] := Free]), gone + {role})
  {
    var r := Dropped(h, role).(own := Dropped(h, role).own[h.at[role] := Free]);
    assert r.at == g.at - (gone + {role});
  }

  /** Freeing blocks changes only the bitmap. */
  ghost predicate BitmapOnly(disk: seq<Block>, m: seq<Block>, sb: Super) {
    |m| == |disk| && forall b | sb.nmeta <= b < |disk| :: m[b] == disk[b]
  }

  lemma StillThere(g: Book, h: Book, gone: set<Role>, role: Role)
    requires Emptied(g, h, gone) && role !in gone
    ensures role in h.at <==> role in g.at
    ensures role in g.at ==> h.at[role] == g.at[role]
  {
  }

  lemma NotZero(disk: seq<Block>, nodes: seq<Inode>, sb: Super, g: Book, dying: set<nat>, role: Role)
    requires Inv(disk, nodes, sb, g, dying)
    ensures role in g.at ==> g.at[role] != 0 && g.at[role] < sb.size
  {
    hide Bitmap, AllPointers;
  }

  /** What itrunc relies on, from the invariant. */
  lemma TruncStart(disk: seq<Block>, nodes: seq<Inode>, sb: Super, g: Book, dying: set<nat>, i: nat)
    requires Inv(disk, nodes, sb, g, dying) && i < |nodes| && i !in dying
    ensures Inv(disk, nodes, sb, g, dying + {i}) && |nodes[i].addrs| == NDIRECT + 1 && |disk| == sb.size
    ensures forall k | 0 <= k <= NDIRECT :: nodes[i].addrs[k] == Held(g, Slot(i, k))
    ensures Slot(i, NDIRECT) in g.at ==>
            var a := g.at[Slot(i, NDIRECT)];
            a != 0 && sb.nmeta <= a < |disk|
            && forall j: nat | j < NINDIRECT :: GetWord(disk[a], j) == Held(g, Slot(i, NDIRECT + 1 + j))
    ensures Slot(i, NDIRECT) in g.at ==> SlotsOf(g, i) == Cut(g, i, NDIRECT, NINDIRECT) + {Slot(i, NDIRECT)}
    ensures Slot(i, NDIRECT) !in g.at ==> SlotsOf(g, i) == Cut(g, i, NDIRECT, 0)
  {
    hide Bitmap, GetWord;
    assert Pointers(disk, nodes[i], g, i);
    CutAll(sb, g, i);
  }

  /** Freeing all slots of a file changes no byte of another. */
  lemma TruncEnd(disk: seq<Block>, m: seq<Block>, g: Book, r: Book, sb: Super, i: nat)
    requires Emptied(g, r, SlotsOf(g, i)) && BitmapOnly(disk, m, sb)
    requires (forall role | role in g.at :: sb.nmeta <= g.at[role] < |disk|)
    ensures (forall k: nat :: Slot(i, k) !in r.at) && (Tidy(g) ==> Tidy(r))
    ensures forall node: Inode | node.size == 0 :: Full(node, r, i)
    ensures forall j: nat, o: nat | j != i :: FByte(m, r, j, o) == FByte(disk, g, j, o)
  {
    forall j: nat, o: nat | j != i ensures FByte(m, r, j, o) == FByte(disk, g, j, o) {
      assert Slot(j, DataSlot(o / BSIZE)) !in SlotsOf(g, i);
    }
  }

  // ---- files as byte sequences ----

  /** The contents of file i. */
  ghost function Content(disk: seq<Block>, g: Book, i: nat, size: nat): (s: seq<Byte>)
    ensures |s| == size && forall o | 0 <= o < size :: s[o] == FByte(disk, g, i, o)
  {
    seq<Byte>(size, o requires 0 <= o < size => FByte(disk, g, i, o))
  }

  /** d laid over s at off. */
  function Overlay(s: seq<Byte>, off: nat, d: seq<Byte>): (r: seq<Byte>)
    requires off <= |s|
  {
    s[..off] + d + if off + |d| < |s| then s[off + |d|..] else []
  }

  /** What writei does to the file it writes, and to the others. */
  lemma ContentWritten(disk: seq<Block>, m: seq<Block>, g: Book, r: Book, i: nat, off: nat, src: seq<Byte>, size: nat,
                       size1: nat)
    requires Overlaid(disk, m, g, r, i, off, src) && off <= size
    requires size1 == if off + |src| > size then off + |src| else size
    ensures Content(m, r, i, size1) == Overlay(Content(disk, g, i, size), off, src)
    ensures forall j: nat, n: nat | j != i :: Content(m, r, j, n) == Content(disk, g, j, n)
  {
    hide FByte;
    var c := Overlay(Content(disk, g, i, size), off, src);
    assert |c| == size1;
    forall o | 0 <= o < size1 ensures c[o] == FByte(m, r, i, o) {}
  }

  /** Reading back what was written gives it. */
  lemma ReadBack(disk: seq<Block>, m: seq<Block>, g: Book, r: Book, i: nat, off: nat, src: seq<Byte>, dst: seq<Byte>)
    requires Overlaid(disk, m, g, r, i, off, src) && |dst| == |src|
    requires forall k | 0 <= k < |dst| :: dst[k] == FByte(m, r, i, off + k)
    ensures dst == src
  {
    hide FByte;
  }

  // ---- what is logged ----

  /** From d on, the blocks logged up to e are all blocks in which m differs from disk. */
  ghost predicate Covers(disk: seq<Block>, m: seq<Block>, d: set<nat>, e: set<nat>) {
    |m| == |disk| && d <= e && forall b | 0 <= b < |disk| :: m[b] == disk[b] || b in e
  }

  lemma CoversNone(disk: seq<Block>, d: set<nat>)
    ensures Covers(disk, disk, d, d)
  {
  }

  lemma CoversTwice(disk: seq<Block>, m: seq<Block>, k: seq<Block>, d: set<nat>, e: set<nat>, f: set<nat>)
    requires Covers(disk, m, d, e) && Covers(m, k, e, f)
    ensures Covers(disk, k, d, f)
  {
  }

  lemma CoversMore(disk: seq<Block>, m: seq<Block>, d: set<nat>, e: set<nat>, f: set<nat>)
    requires Covers(disk, m, d, e) && e <= f
    ensures Covers(disk, m, d, f)
  {
  }

  lemma CoversOne(disk: seq<Block>, b: nat, x: Block, d: set<nat>)
    requires b < |disk|
    ensures Covers(disk, disk[b := x], d, d + {b})
  {
  }

  /** Since d only bitmap blocks were logged. */
  ghost predicate OnlyMaps(sb: Super, d: set<nat>, e: set<nat>) {
    forall b | b in e :: b in d || sb.bmapstart <= b < sb.bmapstart + Bitmaps(sb)
  }

  lemma OnlyNone(sb: Super, d: set<nat>)
    ensures OnlyMaps(sb, d, d)
  {
  }

  lemma OnlyTwice(sb: Super, d: set<nat>, e: set<nat>, f: set<nat>)
    requires OnlyMaps(sb, d, e) && OnlyMaps(sb, e, f)
    ensures OnlyMaps(sb, d, f)
  {
  }

  lemma OnlyMore(sb: Super, d: set<nat>, e: set<nat>, b: nat)
    requires OnlyMaps(sb, d, e) && b < sb.size
    ensures OnlyMaps(sb, d, e + {Bblock(sb, b)})
  {
    BitmapBlock(sb, b);
    hide Bblock, Bitmaps;
  }

  lemma OnlyBound(sb: Super, d: set<nat>, e: set<nat>, x: nat)
    requires OnlyMaps(sb, d, e)
    ensures |e + {x} - d| <= Bitmaps(sb) + 1
  {
    hide Bitmaps;
    Smaller(e - d, Span(sb.bmapstart, sb.bmapstart + Bitmaps(sb)));
    Smaller(e + {x} - d, (e - d) + {x});
  }

  /** The file system as filewrite on one inode sees it. */
  datatype Stage = Stage(disk: seq<Block>, g: Book, node: Inode)

  /** The most blocks a transaction of filewrite logs. */
  function TxLimit(sb: Super): (n: nat) {
    if 6 + Bitmaps(sb) < Params.MAXOPBLOCKS then 6 + Bitmaps(sb) else Params.MAXOPBLOCKS
  }

  /** From s to t one transaction changed no more than inode i and blocks among those of tx, which are few. */
  ghost predicate Transaction(sb: Super, i: nat, s: Stage, t: Stage, tx: set<nat>) {
    Covers(s.disk, t.disk, {}, tx) && Iblock(sb, i) in tx && |tx| <= TxLimit(sb)
  }

  /** t has the first n bytes of src laid over the file of s at off, and the other files as they were. */
  ghost predicate Prefix(s: Stage, t: Stage, i: nat, off: nat, src: seq<Byte>, n: nat) {
    n <= |src| && Overlaid(s.disk, t.disk, s.g, t.g, i, off, src[..n])
  }

  lemma PrefixNone(s: Stage, i: nat, off: nat, src: seq<Byte>)
    ensures Prefix(s, s, i, off, src, 0) && UpTo(0, 0) == 0 && Chunks(0) == 0
  {
    OverlaidNone(s.disk, s.g, i, off);
    assert src[..0] == [];
  }

  lemma PrefixNext(first: Stage, s: Stage, t: Stage, i: nat, off: nat, src: seq<Byte>, n: nat, m: nat)
    requires Prefix(first, s, i, off, src, n) && n + m <= |src|
    requires Overlaid(s.disk, t.disk, s.g, t.g, i, off + n, src[n..n + m])
    ensures Prefix(first, t, i, off, src, n + m)
  {
    hide Overlaid;
    OverlaidTwice(first.disk, s.disk, t.disk, first.g, s.g, t.g, i, off, src[..n], src[n..n + m]);
    assert src[..n] + src[n..n + m] == src[..n + m];
  }

  /** With m bytes more the earlier stages hold what they held. */
  lemma Prefixes(first: Stage, stages: seq<Stage>, i: nat, off: nat, src: seq<Byte>, n: nat, m: nat)
    requires |stages| >= 2 && n == (|stages| - 2) * CHUNK && 0 < m <= CHUNK
    requires Prefix(first, stages[|stages| - 1], i, off, src, n + m)
    requires forall k | 0 <= k < |stages| - 1 :: Prefix(first, stages[k], i, off, src, UpTo(n, k))
    ensures forall k | 0 <= k < |stages| :: Prefix(first, stages[k], i, off, src, UpTo(n + m, k))
  {
    hide Prefix;
    forall k | 0 <= k < |stages| ensures Prefix(first, stages[k], i, off, src, UpTo(n + m, k)) {
      UpToMore(n, m, |stages| - 2, k);
    }
  }

  lemma UpToMore(n: nat, m: nat, j: nat, k: nat)
    requires n == j * CHUNK && 0 < m <= CHUNK && k <= j + 1
    ensures UpTo(n + m, k) == if k == j + 1 then n + m else UpTo(n, k)
  {
    assert k <= j ==> k * CHUNK <= j * CHUNK;
    assert (j + 1) * CHUNK == n + CHUNK;
  }

  /** What writei logs of one chunk. */
  lemma TransactionIs(sb: Super, i: nat, s: Stage, t: Stage, tx: set<nat>, off: nat, data: seq<Byte>)
    requires Covers(s.disk, t.disk, {}, tx) && Iblock(sb, i) in tx && |data| <= CHUNK && data != []
    requires |tx - {}| + (if off % BSIZE != 0 && data != [] then 1 else 0) <= 2 * Spanned(off, |data|) + 3
    requires |tx - {}| <= Spanned(off, |data|) + Bitmaps(sb) + 2
    ensures Transaction(sb, i, s, t, tx)
  {
    hide Covers, Spanned;
    ChunkSpans(off, |data|);
    assert tx - {} == tx;
  }

  /** How many chunks n bytes take. */
  function Chunks(n: nat): (k: nat) { (n + CHUNK - 1) / CHUNK }

  /** How many of n bytes are in the first k chunks. */
  function UpTo(n: nat, k: nat): (m: nat)
    ensures m <= n
  {
    if k * CHUNK < n then k * CHUNK else n
  }

  lemma ChunkNext(n: nat, k: nat, m: nat)
    requires k * CHUNK < n && m == if n - k * CHUNK > CHUNK then CHUNK else n - k * CHUNK
    ensures UpTo(k * CHUNK, k) == k * CHUNK && Chunks(k * CHUNK) == k && Chunks(k * CHUNK + m) == k + 1
    ensures k * CHUNK + m < n ==> k * CHUNK + m == (k + 1) * CHUNK
  {
    assert CHUNK == 3072;
  }

  /**
   * The log's "too big a transaction" panic is out of reach of any number of concurrent writes exactly when the bitmap
   * has at most three blocks.
   */
  lemma FileWritesFit(sb: Super)
    ensures Admission.PanicFree(TxLimit(sb), Params.LOGSIZE) <==> Bitmaps(sb) <= 3
  {
    Admission.PanicFreeIff(TxLimit(sb));
  }

  class Fs {
    const sb: Super
    const disk: array<Block>
    const nodes: array<Inode>
    ghost var g: Book
    ghost var dying: set<nat>
    ghost var dirty: set<nat>

    ghost predicate Valid()
      reads this, disk, nodes
    {
      Inv(disk[..], nodes[..], sb, g, dying)
    }

    /** A file system on an image that is in order. */
    constructor (sb: Super, disk: array<Block>, nodes: array<Inode>, ghost g: Book)
      requires Inv(disk[..], nodes[..], sb, g, {})
      ensures Valid() && this.sb == sb && this.disk == disk && this.nodes == nodes && this.g == g && dying == {}
      ensures dirty == {}
    {
      this.sb, this.disk, this.nodes, this.g := sb, disk, nodes, g;
      dying, dirty := {}, {};
    }

    /** bzero. */
    method Bzero(b: nat)
      requires b < disk.Length
      modifies disk, this`dirty
      ensures disk[..] == old(disk[..])[b := ZeroBlock()] && dirty == old(dirty) + {b}
    {
      disk[b] := ZeroBlock();
      dirty := dirty + {b};
    }

    /** What balloc does with the free block it finds. */
    method TakeBlock(b: nat)
      requires Valid() && b in g.own && g.own[b] == Free && forall c | c in g.own && c < b :: g.own[c] != Free
      modifies disk, this`g, this`dirty
      ensures Valid() && Allocated(old(disk[..]), disk[..], sb, old(g), g, b)
      ensures dirty == old(dirty) + {Bblock(sb, b), b} && Covers(old(disk[..]), disk[..], old(dirty), dirty)
    {
      hide Inv, SetBlockBit, Covers;
      AllocStep(disk[..], nodes[..], sb, g, dying, b);
      var n := Bblock(sb, b);
      disk[n] := SetBlockBit(disk[n], b % BPB, true);
      dirty := dirty + {n};
      g := g.(own := g.own[b := Loose]);
      assert disk[..] == Marked(old(disk[..]), sb, b, true);
      CoversOne(old(disk[..]), n, disk[n], old(dirty));
      CoversOne(disk[..], b, ZeroBlock(), dirty);
      ghost var m1, d1 := disk[..], dirty;
      Bzero(b);
      CoversTwice(old(disk[..]), m1, disk[..], old(dirty), d1, dirty);
    }

    /** balloc; panic says whether it is out of blocks. */
    method Balloc() returns (b: nat, panic: bool)
      requires Valid()
      modifies disk, this`g, this`dirty
      ensures Valid() && (panic <==> forall c | c in old(g).own :: old(g).own[c] != Free)
      ensures panic ==> g == old(g) && disk[..] == old(disk[..]) && dirty == old(dirty)
      ensures !panic ==>
                Allocated(old(disk[..]), disk[..], sb, old(g), g, b) && dirty == old(dirty) + {Bblock(sb, b), b}
      ensures Covers(old(disk[..]), disk[..], old(dirty), dirty)
    {
      hide AllPointers, SetBlockBit, BlockBit, Covers;
      CoversNone(disk[..], dirty);
      b := 0;
      while b < sb.size
        invariant b % BPB == 0 && Valid() && g == old(g) && disk[..] == old(disk[..]) && dirty == old(dirty)
        invariant forall c | c in g.own && c < b :: g.own[c] != Free
        decreases sb.size - b
      {
        var bi := 0;
        while bi < BPB && b + bi < sb.size
          invariant 0 <= bi <= BPB && b + bi <= sb.size + BPB && Valid() && g == old(g) && disk[..] == old(disk[..])
          invariant dirty == old(dirty)
          invariant forall c | c in g.own && c < b + bi :: g.own[c] != Free
        {
          ghost var c := b + bi;
          assert c / BPB == b / BPB && c % BPB == bi && Bblock(sb, c) == Bblock(sb, b);
          if !BlockBit(disk[Bblock(sb, b)], bi) {
            b := b + bi;
            TakeBlock(b);
            return b, false;
          }
          bi := bi + 1;
        }
        b := b + BPB;
      }
      panic := true;
    }

    /** bfree of a block that is in no slot any more; panic says whether its bit is clear. */
    method Bfree(b: nat) returns (panic: bool)
      requires Valid() && b in g.own && g.own[b] == Loose
      modifies disk, this`g, this`dirty
      ensures !panic && Valid() && Bblock(sb, b) < disk.Length && disk[..] == Marked(old(disk[..]), sb, b, false)
      ensures g == old(g).(own := old(g).own[b := Free]) && dirty == old(dirty) + {Bblock(sb, b)}
      ensures Covers(old(disk[..]), disk[..], old(dirty), dirty)
    {
      hide AllPointers, SetBlockBit, BlockBit, Covers;
      MarkKeeps(disk[..], nodes[..], sb, g, dying, b, Free);
      var n, bi := Bblock(sb, b), b % BPB;
      if !BlockBit(disk[n], bi) { return true; }
      hide Inv;
      disk[n] := SetBlockBit(disk[n], bi, false);
      dirty := dirty + {n};
      g := g.(own := g.own[b := Free]);
      assert disk[..] == Marked(old(disk[..]), sb, b, false);
      CoversOne(old(disk[..]), n, disk[n], old(dirty));
      panic := false;
    }

    /** bmap's allocation for an address in the inode. */
    method NewAddress(i: nat, k: nat) returns (b: nat, panic: bool)
      requires Valid() && i < nodes.Length && i !in dying && k <= NDIRECT && Slot(i, k) !in g.at
      modifies disk, nodes, this`g, this`dirty
      ensures Valid() && (panic ==> forall c | c in g.own :: g.own[c] != Free)
      ensures DataKept(old(disk[..]), disk[..], old(g), g)
      ensures nodes[i].size == old(nodes[i].size)
      ensures forall j | 0 <= j < nodes.Length && j != i :: nodes[j] == old(nodes[j])
      ensures panic ==> g == old(g) && dirty == old(dirty) && nodes[..] == old(nodes[..])
      ensures !panic ==>
                && Added(old(g), g, Slot(i, k))
                && Slot(i, k) in g.at
                && g.at[Slot(i, k)] == b
                && b < disk.Length
                && disk[b] == ZeroBlock()
      ensures !panic ==> dirty == old(dirty) + {Bblock(sb, b), b}
      ensures Covers(old(disk[..]), disk[..], old(dirty), dirty)
    {
      hide Inv, DataKept, Added, Covers;
      KeptSame(disk[..], g);
      b, panic := Balloc();
      if panic { return; }
      AllocatedKept(old(disk[..]), disk[..], nodes[..], sb, old(g), g, dying, b);
      SettledAdds(old(disk[..]), disk[..], sb, old(g), g, Slot(i, k), b);
      KeptSettled(old(disk[..]), disk[..], old(g), g, Slot(i, k), b);
      AddressKeeps(disk[..], nodes[..], sb, g, dying, i, k, b);
      ghost var before := nodes[..];
      nodes[i] := nodes[i].(addrs := nodes[i].addrs[k := b]);
      g := Settled(g, Slot(i, k), b);
      assert nodes[..] == before[i := before[i].(addrs := before[i].addrs[k := b])];
    }

    /** bmap's allocation for an entry of the indirect block. */
    method NewEntry(i: nat, j: nat, a: nat) returns (b: nat, panic: bool)
      requires Valid() && i < nodes.Length && i !in dying && j < NINDIRECT && Slot(i, NDIRECT) in g.at
      requires a == g.at[Slot(i, NDIRECT)]
      requires Slot(i, NDIRECT + 1 + j) !in g.at
      modifies disk, this`g, this`dirty
      ensures Valid() && (panic ==> forall c | c in g.own :: g.own[c] != Free)
      ensures DataKept(old(disk[..]), disk[..], old(g), g)
      ensures panic ==> g == old(g) && dirty == old(dirty)
      ensures !panic ==> Added(old(g), g, Slot(i, NDIRECT + 1 + j)) && Slot(i, NDIRECT + 1 + j) in g.at
      ensures !panic ==> g.at[Slot(i, NDIRECT + 1 + j)] == b && b < disk.Length && disk[b] == ZeroBlock()
      ensures !panic ==> dirty == old(dirty) + {Bblock(sb, b), b, a}
      ensures Covers(old(disk[..]), disk[..], old(dirty), dirty)
    {
      hide Inv, DataKept, Added, PutWord, Covers;
      ghost var role := Slot(i, NDIRECT + 1 + j);
      KeptSame(disk[..], g);
      b, panic := Balloc();
      if panic { return; }
      ghost var m1 := disk[..];
      AllocatedKept(old(disk[..]), m1, nodes[..], sb, old(g), g, dying, b);
      SettledAdds(old(disk[..]), m1, sb, old(g), g, role, b);
      EntryKeeps(m1, nodes[..], sb, g, dying, i, j, b);
      EntryKept(m1, nodes[..], sb, g, dying, i, j, b);
      ghost var h, d1 := g, dirty;
      disk[a] := PutWord(disk[a], j, b);
      dirty := dirty + {a};
      g := Settled(g, role, b);
      assert disk[..] == m1[a := PutWord(m1[a], j, b)];
      CoversOne(m1, a, PutWord(m1[a], j, b), d1);
      CoversTwice(old(disk[..]), m1, disk[..], old(dirty), d1, dirty);
      KeptTwice(old(disk[..]), m1, disk[..], old(g), h, g);
    }

    /** The indirect block of inode i, allocated if need be. */
    method Indirect(i: nat) returns (a: nat, panic: bool)
      requires Valid() && i < nodes.Length && i !in dying
      modifies disk, nodes, this`g, this`dirty
      ensures Valid() && (panic ==> forall c | c in g.own :: g.own[c] != Free)
      ensures DataKept(old(disk[..]), disk[..], old(g), g)
      ensures nodes[i].size == old(nodes[i].size)
      ensures forall j | 0 <= j < nodes.Length && j != i :: nodes[j] == old(nodes[j])
      ensures !panic ==> Slot(i, NDIRECT) in g.at && a == g.at[Slot(i, NDIRECT)]
      ensures Slot(i, NDIRECT) in old(g).at ==>
              !panic && g == old(g) && disk[..] == old(disk[..]) && nodes[..] == old(nodes[..]) && dirty == old(dirty)
      ensures !panic && Slot(i, NDIRECT) !in old(g).at ==>
                Added(old(g), g, Slot(i, NDIRECT)) && dirty == old(dirty) + {Bblock(sb, a), a}
      ensures Slot(i, NDIRECT) !in old(g).at ==> forall k: nat | k > NDIRECT :: Slot(i, k) !in old(g).at
      ensures Covers(old(disk[..]), disk[..], old(dirty), dirty)
    {
      hide Inv, DataKept, Added, Covers;
      CoversNone(disk[..], dirty);
      KeptSame(disk[..], g);
      Address(disk[..], nodes[..], sb, g, dying, i, NDIRECT);
      NoEntries(disk[..], nodes[..], sb, g, dying, i);
      a, panic := nodes[i].addrs[NDIRECT], false;
      if a == 0 { a, panic := NewAddress(i, NDIRECT); }
    }

    /** bmap: the block of data block n of inode i, allocated if need be. */
    method Bmap(i: nat, n: nat) returns (addr: nat, panic: bool)
      requires Valid() && i < nodes.Length && i !in dying
      modifies disk, nodes, this`g, this`dirty
      ensures Valid() && DataKept(old(disk[..]), disk[..], old(g), g)
      ensures nodes[i].size == old(nodes[i].size)
      ensures forall j | 0 <= j < nodes.Length && j != i :: nodes[j] == old(nodes[j])
      ensures panic ==> n >= MAXFILE || forall c | c in g.own :: g.own[c] != Free
      ensures !panic ==>
                n < MAXFILE && Slot(i, DataSlot(n)) in g.at && addr == g.at[Slot(i, DataSlot(n))] && addr < disk.Length
      ensures n < MAXFILE && Slot(i, DataSlot(n)) in old(g).at ==>
              !panic && g == old(g) && disk[..] == old(disk[..]) && nodes[..] == old(nodes[..]) && dirty == old(dirty)
      ensures !panic && Slot(i, DataSlot(n)) !in old(g).at ==>
                disk[addr] == ZeroBlock() && Mapped(old(g), g, sb, old(dirty), dirty, i, n, addr)
      ensures Covers(old(disk[..]), disk[..], old(dirty), dirty)
    {
      hide Inv, DataKept, Added, GetWord, Covers;
      CoversNone(disk[..], dirty);
      KeptSame(disk[..], g);
      if n < NDIRECT {
        Address(disk[..], nodes[..], sb, g, dying, i, n);
        addr, panic := nodes[i].addrs[n], false;
        if addr == 0 { addr, panic := NewAddress(i, n); }
        return;
      }
      if n >= MAXFILE { return 0, true; }
      var j, a := n - NDIRECT, 0;
      NoEntries(disk[..], nodes[..], sb, g, dying, i);
      a, panic := Indirect(i);
      if panic { return 0, true; }
      if Slot(i, NDIRECT) !in old(g).at { AddedOnly(old(g), g, Slot(i, NDIRECT), Slot(i, DataSlot(n))); }
      EntryWord(disk[..], nodes[..], sb, g, dying, i, j);
      addr := GetWord(disk[a], j);
      if addr == 0 {
        ghost var m1, g1, d1 := disk[..], g, dirty;
        addr, panic := NewEntry(i, j, a);
        KeptTwice(old(disk[..]), m1, disk[..], old(g), g1, g);
        CoversTwice(old(disk[..]), m1, disk[..], old(dirty), d1, dirty);
        if !panic { StillAt(m1, disk[..], g1, g, Slot(i, NDIRECT)); }
      }
    }

    /** readi: the bytes of the file from off on; nothing is allocated or logged. */
    method Readi(i: nat, off: nat, n: nat) returns (dst: seq<Byte>, panic: bool)
      requires Valid() && i < nodes.Length && i !in dying && Full(nodes[i], g, i)
      modifies disk, nodes, this`g, this`dirty
      ensures !panic && Valid() && g == old(g) && disk[..] == old(disk[..]) && nodes[..] == old(nodes[..])
      ensures dirty == old(dirty)
      ensures |dst| == ReadCount(nodes[i].size, off, n)
      ensures forall k | 0 <= k < |dst| :: dst[k] == FByte(disk[..], g, i, off + k)
      ensures off > nodes[i].size || off + n >= UINT ==> dst == []
      ensures off <= nodes[i].size && off + n < UINT ==>
                var end := if off + n > nodes[i].size then nodes[i].size else off + n;
                dst == Content(disk[..], g, i, nodes[i].size)[off..end]
    {
      hide Inv, Mapped, FByte;
      dst, panic := [], false;
      if off > nodes[i].size || off + n >= UINT { return; }
      var len := if off + n > nodes[i].size then nodes[i].size - off else n;
      while |dst| < len
        invariant |dst| <= len && Valid() && g == old(g) && disk[..] == old(disk[..]) && nodes[..] == old(nodes[..])
                  && dirty == old(dirty) && !panic
        invariant forall k | 0 <= k < |dst| :: dst[k] == FByte(disk[..], g, i, off + k)
      {
        var o := off + |dst|;
        var b, p;
        assert o / BSIZE * BSIZE < nodes[i].size;
        b, p := Bmap(i, o / BSIZE);
        panic := p;
        var m := if len - |dst| < BSIZE - o % BSIZE then len - |dst| else BSIZE - o % BSIZE;
        var data := disk[b][o % BSIZE..o % BSIZE + m];
        ReadBytes(disk[..], g, i, o, data);
        dst := dst + data;
      }
    }

    /** One round of writei's loop. */
    method WriteBlock(i: nat, o: nat, data: seq<Byte>) returns (b: nat, panic: bool)
      requires Valid() && i < nodes.Length && i !in dying && o % BSIZE + |data| <= BSIZE
      modifies disk, nodes, this`g, this`dirty
      ensures Valid() && nodes[i].size == old(nodes[i].size)
      ensures forall j | 0 <= j < nodes.Length && j != i :: nodes[j] == old(nodes[j])
      ensures panic ==> o / BSIZE >= MAXFILE || forall c | c in g.own :: g.own[c] != Free
      ensures forall role | role in old(g).at :: role in g.at && g.at[role] == old(g).at[role]
      ensures !panic && Tidy(old(g)) ==> Tidy(g)
      ensures !panic ==> Overlaid(old(disk[..]), disk[..], old(g), g, i, o, data)
      ensures !panic ==> Slot(i, DataSlot(o / BSIZE)) in g.at && b == g.at[Slot(i, DataSlot(o / BSIZE))]
      ensures !panic ==> if Slot(i, DataSlot(o / BSIZE)) in old(g).at then g == old(g) && dirty == old(dirty) + {b}
                         else exists e :: Mapped(old(g), g, sb, old(dirty), e, i, o / BSIZE, b) && dirty == e + {b}
      ensures Covers(old(disk[..]), disk[..], old(dirty), dirty)
    {
      hide Inv, Mapped, DataKept, Overlaid, Patch, Covers;
      InRange(disk[..], nodes[..], sb, g, dying);
      b, panic := Bmap(i, o / BSIZE);
      KeptSlots(old(disk[..]), disk[..], old(g), g);
      if panic { return; }
      ghost var m1, e := disk[..], dirty;
      if Slot(i, DataSlot(o / BSIZE)) !in old(g).at { MappedNew(old(g), g, sb, old(dirty), e, i, o / BSIZE, b); }
      MappedBytes(old(disk[..]), m1, old(g), g, i, o / BSIZE, o);
      InRange(disk[..], nodes[..], sb, g, dying);
      DataBlock(disk[..], nodes[..], sb, g, dying, Slot(i, DataSlot(o / BSIZE)));
      FillKeeps(disk[..], nodes[..], sb, g, dying, b, Patch(disk[b], o % BSIZE, data));
      BlockOverlaid(m1, g, i, o / BSIZE, o % BSIZE, data);
      disk[b] := Patch(disk[b], o % BSIZE, data);
      dirty := dirty + {b};
      assert disk[..] == m1[b := Patch(m1[b], o % BSIZE, data)];
      CoversOne(m1, b, disk[b], e);
      CoversTwice(old(disk[..]), m1, disk[..], old(dirty), e, dirty);
      assert o == o / BSIZE * BSIZE + o % BSIZE;
      OverlaidTwice(old(disk[..]), m1, disk[..], old(g), g, g, i, o, [], data);
      assert [] + data == data;
    }

    /** writei's loop. */
    method WriteLoop(i: nat, off: nat, src: seq<Byte>)
      returns (panic: bool, ghost data: set<nat>, ghost maps: set<nat>, ghost u: nat)
      requires Valid() && i < nodes.Length && i !in dying && Full(nodes[i], g, i) && off <= nodes[i].size
      requires off + |src| <= MAXFILE * BSIZE
      modifies disk, nodes, this`g, this`dirty
      ensures Valid() && nodes[i].size == old(nodes[i].size)
      ensures (forall j | 0 <= j < nodes.Length && j != i :: nodes[j] == old(nodes[j]))
      ensures panic ==> forall c | c in g.own :: g.own[c] != Free
      ensures !panic ==>
                && Overlaid(old(disk[..]), disk[..], old(g), g, i, off, src)
                && SlotsKept(old(g), g)
                && WrittenTo(g, i, off, off + |src|)
      ensures !panic && Tidy(old(g)) ==> Tidy(g)
      ensures !panic ==>
                && Logged(old(g), g, sb, old(dirty), dirty, i, Spanned(off, |src|), data, maps, u)
                && (off % BSIZE != 0 && src != [] ==> u >= 1)
      ensures Covers(old(disk[..]), disk[..], old(dirty), dirty)
    {
      hide Inv, Mapped, Overlaid, Logged, SlotsKept, WrittenTo, Spanned, Tidy, Covers;
      CoversNone(disk[..], dirty);
      data, maps, u := {}, {}, 0;
      OverlaidNone(disk[..], g, i, off);
      LoggedNone(g, sb, dirty, i);
      StartWrite(g, i, off);
      var tot := 0;
      assert src[..0] == [];
      panic := false;
      while tot < |src|
        invariant 0 <= tot <= |src| && Valid() && nodes[i].size == old(nodes[i].size) && !panic
        invariant (Tidy(old(g)) ==> Tidy(g))
        invariant forall j | 0 <= j < nodes.Length && j != i :: nodes[j] == old(nodes[j])
        invariant Overlaid(old(disk[..]), disk[..], old(g), g, i, off, src[..tot]) && SlotsKept(old(g), g)
                  && WrittenTo(g, i, off, off + tot)
        invariant Logged(old(g), g, sb, old(dirty), dirty, i, Spanned(off, tot), data, maps, u)
        invariant (tot > 0 && off % BSIZE != 0 ==> u >= 1) && (0 < tot < |src| ==> (off + tot) % BSIZE == 0)
        invariant Covers(old(disk[..]), disk[..], old(dirty), dirty)
      {
        var o := off + tot;
        var m := if |src| - tot < BSIZE - o % BSIZE then |src| - tot else BSIZE - o % BSIZE;
        ghost var m1, g1, d1 := disk[..], g, dirty;
        if tot == 0 && off % BSIZE != 0 { FirstMapped(nodes[i], old(g), g, i, off); }
        var b;
        b, panic := WriteBlock(i, o, src[tot..tot + m]);
        CoversTwice(old(disk[..]), m1, disk[..], old(dirty), d1, dirty);
        if panic { return; }
        InRange(disk[..], nodes[..], sb, g, dying);
        SizeIs(disk[..], nodes[..], sb, g, dying);
        OverlaidTwice(old(disk[..]), m1, disk[..], old(g), g1, g, i, off, src[..tot], src[tot..tot + m]);
        assert src[..tot] + src[tot..tot + m] == src[..tot + m];
        SpannedNext(off, tot, m);
        data, maps, u := LogRound(old(g), g1, g, sb, old(dirty), d1, dirty, i, o / BSIZE, Spanned(off, tot),
            data, maps, u, b);
        KeptOn(old(g), g1, g);
        WrittenNext(g1, g, i, off, o, m);
        tot := tot + m;
      }
      assert src[..tot] == src;
    }

    /** iupdate logs the inode's block. */
    method Iupdate(i: nat)
      modifies this`dirty
      ensures dirty == old(dirty) + {Iblock(sb, i)}
    {
      dirty := dirty + {Iblock(sb, i)};
    }

    /**
     * writei, for bytes that can be copied in: the number of bytes written, or -1 when off is beyond the end
     * or the file would grow too big. panic says whether the disk is full.
     */
    method Writei(i: nat, off: nat, src: seq<Byte>) returns (r: int, panic: bool)
      requires Valid() && i < nodes.Length && i !in dying && Full(nodes[i], g, i)
      modifies disk, nodes, this`g, this`dirty
      ensures Valid() && (forall j | 0 <= j < nodes.Length && j != i :: nodes[j] == old(nodes[j]))
              && (panic ==> forall c | c in g.own :: g.own[c] != Free)
      ensures !panic ==> (r == -1 <==> off > old(nodes[i].size) || off + |src| > MAXFILE * BSIZE)
      ensures !panic && r == -1 ==>
                g == old(g) && disk[..] == old(disk[..]) && nodes[..] == old(nodes[..]) && dirty == old(dirty)
      ensures !panic && r != -1 ==>
                r == |src| && Overlaid(old(disk[..]), disk[..], old(g), g, i, off, src) && SlotsKept(old(g), g)
      ensures !panic && r != -1 ==>
                && nodes[i].size == (if off + |src| > old(nodes[i].size) then off + |src| else old(nodes[i].size))
                && Full(nodes[i], g, i)
      ensures !panic && Tidy(old(g)) ==> Tidy(g)
      ensures !panic && r != -1 ==>
                |dirty - old(dirty)| + (if off % BSIZE != 0 && src != [] then 1 else 0) <= 2 * Spanned(off, |src|) + 3
      ensures !panic && r != -1 ==> |dirty - old(dirty)| <= Spanned(off, |src|) + Bitmaps(sb) + 2
      ensures Covers(old(disk[..]), disk[..], old(dirty), dirty) && (!panic && r != -1 ==> Iblock(sb, i) in dirty)
    {
      hide Inv, Overlaid, Logged, SlotsKept, WrittenTo, Spanned, Tidy, Covers, Bitmaps;
      CoversNone(disk[..], dirty);
      if off > nodes[i].size || off + |src| >= UINT { return -1, false; }
      if off + |src| > MAXFILE * BSIZE { return -1, false; }
      ghost var data, maps, u;
      panic, data, maps, u := WriteLoop(i, off, src);
      r := |src|;
      if panic { return; }
      var size := if off + |src| > nodes[i].size then off + |src| else nodes[i].size;
      FullAfter(old(nodes[i]), old(g), g, i, off, off + |src|, size);
      SizeKeeps(disk[..], nodes[..], sb, g, dying, i, size);
      LoggedBound(old(g), g, sb, old(dirty), dirty, i, Spanned(off, |src|), data, maps, u, Iblock(sb, i));
      ghost var before := nodes[..];
      nodes[i] := nodes[i].(size := size);
      assert nodes[..] == before[i := before[i].(size := size)];
      ghost var d1 := dirty;
      Iupdate(i);
      CoversMore(old(disk[..]), disk[..], old(dirty), d1, dirty);
    }

    /**
     * filewrite on an inode: chunks of at most three blocks, each in its own transaction. stages has the file system
     * before the first transaction and after each, txs the blocks each has logged. The file system after any number of
     * them holds a prefix of the data. A chunk that writei refuses changes and logs nothing.
     */
    method FileWrite(i: nat, off: nat, src: seq<Byte>)
      returns (ret: int, off1: nat, panic: bool, ghost done: nat, ghost stages: seq<Stage>, ghost txs: seq<set<nat>>)
      requires Valid() && i < nodes.Length && i !in dying && Full(nodes[i], g, i)
      modifies disk, nodes, this`g, this`dirty
      ensures Valid() && (forall j | 0 <= j < nodes.Length && j != i :: nodes[j] == old(nodes[j]))
              && (panic ==> forall c | c in g.own :: g.own[c] != Free)
      ensures !panic ==> done <= |src| && off1 == off + done && |txs| == Chunks(done) && |stages| == |txs| + 1
      ensures !panic ==> stages[0] == Stage(old(disk[..]), old(g), old(nodes[i]))
      ensures !panic ==> stages[|txs|] == Stage(disk[..], g, nodes[i]) && Full(nodes[i], g, i)
      ensures !panic ==> forall k | 0 <= k < |txs| :: Transaction(sb, i, stages[k], stages[k + 1], txs[k])
      ensures !panic ==> forall k | 0 <= k < |stages| :: Prefix(stages[0], stages[k], i, off, src, UpTo(done, k))
      ensures !panic ==>
          (ret == |src| && done == |src|) ||
          (ret == -1 && done < |src| && (off > old(nodes[i].size) || off + |src| > MAXFILE * BSIZE))
      ensures !panic && Tidy(old(g)) ==> Tidy(g)
    {
      hide Inv, Overlaid, SlotsKept, Spanned, Tidy, Full, Covers, Transaction, UpTo, Chunks, TxLimit, Prefix;
      ghost var first := Stage(disk[..], g, nodes[i]);
      ret, done, stages, txs, panic, off1 := -1, 0, [first], [], false, off;
      PrefixNone(first, i, off, src);
      var n := 0;
      while n < |src|
        invariant 0 <= n <= |src| && n == done && off1 == off + n && Valid() && !panic && Full(nodes[i], g, i)
        invariant (Tidy(old(g)) ==> Tidy(g))
        invariant forall j | 0 <= j < nodes.Length && j != i :: nodes[j] == old(nodes[j])
        invariant |stages| == |txs| + 1 && stages[0] == first && stages[|txs|] == Stage(disk[..], g, nodes[i])
        invariant |txs| == Chunks(n) && (n < |src| ==> n == |txs| * CHUNK)
        invariant forall k | 0 <= k < |txs| :: Transaction(sb, i, stages[k], stages[k + 1], txs[k])
        invariant forall k | 0 <= k < |stages| :: Prefix(first, stages[k], i, off, src, UpTo(n, k))
        invariant if n == 0 then nodes[i].size == old(nodes[i].size)
                  else off <= old(nodes[i].size) && off1 <= nodes[i].size
      {
        var n1 := |src| - n;
        if n1 > CHUNK { n1 := CHUNK; }
        ghost var s := Stage(disk[..], g, nodes[i]);
        dirty := {};
        var r;
        r, panic := Writei(i, off1, src[n..n + n1]);
        if panic { return; }
        if r != n1 { return; }
        ghost var t := Stage(disk[..], g, nodes[i]);
        TransactionIs(sb, i, s, t, dirty, off1, src[n..n + n1]);
        ChunkNext(|src|, |txs|, n1);
        PrefixNext(first, s, t, i, off, src, n, n1);
        stages, txs := stages + [t], txs + [dirty];
        Prefixes(first, stages, i, off, src, n, n1);
        off1 := off1 + r;
        n := n + r;
        done := n;
      }
      ret := |src|;
    }

    /** itrunc's bfree of the block in a slot. */
    method FreeSlot(b: nat, ghost role: Role, ghost g0: Book, ghost gone: set<Role>) returns (panic: bool)
      requires Valid() && role in g.at && role.Slot? && b == g.at[role] && role.ino in dying && Emptied(g0, g, gone)
      modifies disk, this`g, this`dirty
      ensures !panic && Valid() && Emptied(g0, g, gone + {role}) && BitmapOnly(old(disk[..]), disk[..], sb)
      ensures forall q | q in old(g).at && q != role :: q in g.at && g.at[q] == old(g).at[q]
      ensures forall q | q in g.at :: q in old(g).at && q != role
      ensures Covers(old(disk[..]), disk[..], old(dirty), dirty) && dirty == old(dirty) + {Bblock(sb, b)}
    {
      hide Bitmap, AllPointers, SetBlockBit, Emptied, Covers;
      DropKeeps(disk[..], nodes[..], sb, g, dying, role);
      EmptiedNext(g0, g, gone, role);
      g := Dropped(g, role);
      assert Bblock(sb, b) < sb.nmeta;
      panic := Bfree(b);
    }

    /** itrunc's loop over the direct blocks. */
    method TruncDirect(i: nat) returns (panic: bool)
      requires Valid() && i < nodes.Length && i in dying && |nodes[i].addrs| == NDIRECT + 1
      requires forall k | 0 <= k <= NDIRECT :: nodes[i].addrs[k] == Held(g, Slot(i, k))
      modifies disk, nodes, this`g, this`dirty
      ensures !panic && Valid() && Emptied(old(g), g, Cut(old(g), i, NDIRECT, 0))
      ensures BitmapOnly(old(disk[..]), disk[..], sb)
      ensures |nodes[i].addrs| == NDIRECT + 1 && nodes[i].addrs[NDIRECT] == old(nodes[i].addrs[NDIRECT])
              && forall k | 0 <= k < NDIRECT :: nodes[i].addrs[k] == 0
      ensures forall j | 0 <= j < nodes.Length && j != i :: nodes[j] == old(nodes[j])
      ensures Covers(old(disk[..]), disk[..], old(dirty), dirty) && OnlyMaps(sb, old(dirty), dirty)
    {
      hide Inv, Emptied, Covers, OnlyMaps;
      CoversNone(disk[..], dirty);
      OnlyNone(sb, dirty);
      panic := false;
      var k := 0;
      EmptiedNone(g);
      CutNone(g, i);
      while k < NDIRECT
        invariant 0 <= k <= NDIRECT && Valid() && !panic && Emptied(old(g), g, Cut(old(g), i, k, 0))
                  && BitmapOnly(old(disk[..]), disk[..], sb)
        invariant |nodes[i].addrs| == NDIRECT + 1 && (forall x | 0 <= x < k :: nodes[i].addrs[x] == 0)
        invariant forall x | k <= x <= NDIRECT :: nodes[i].addrs[x] == old(nodes[i].addrs[x])
        invariant forall j | 0 <= j < nodes.Length && j != i :: nodes[j] == old(nodes[j])
        invariant Covers(old(disk[..]), disk[..], old(dirty), dirty) && OnlyMaps(sb, old(dirty), dirty)
      {
        ghost var role := Slot(i, k);
        CutDirect(old(g), i, k);
        StillThere(old(g), g, Cut(old(g), i, k, 0), role);
        NotZero(disk[..], nodes[..], sb, g, dying, role);
        if nodes[i].addrs[k] != 0 {
          ghost var m1, d1 := disk[..], dirty;
          panic := FreeSlot(nodes[i].addrs[k], role, old(g), Cut(old(g), i, k, 0));
          CoversTwice(old(disk[..]), m1, disk[..], old(dirty), d1, dirty);
          OnlyMore(sb, old(dirty), d1, nodes[i].addrs[k]);
          ghost var before := nodes[..];
          DyingNode(disk[..], nodes[..], sb, g, dying, i, nodes[i].(addrs := nodes[i].addrs[k := 0]));
          nodes[i] := nodes[i].(addrs := nodes[i].addrs[k := 0]);
          assert nodes[..] == before[i := before[i].(addrs := before[i].addrs[k := 0])];
        }
        k := k + 1;
      }
    }

    /** itrunc's loop over the indirect block, whose entries stay as they are. */
    method TruncEntries(i: nat, a: nat, ghost g0: Book) returns (panic: bool)
      requires Valid() && i in dying && a < disk.Length && a >= sb.nmeta && Emptied(g0, g, Cut(g0, i, NDIRECT, 0))
      requires forall j: nat | j < NINDIRECT :: GetWord(disk[a], j) == Held(g0, Slot(i, NDIRECT + 1 + j))
      modifies disk, this`g, this`dirty
      ensures !panic && Valid() && Emptied(g0, g, Cut(g0, i, NDIRECT, NINDIRECT))
      ensures BitmapOnly(old(disk[..]), disk[..], sb)
      ensures Covers(old(disk[..]), disk[..], old(dirty), dirty) && OnlyMaps(sb, old(dirty), dirty)
    {
      hide Inv, Emptied, GetWord, Covers, OnlyMaps;
      CoversNone(disk[..], dirty);
      OnlyNone(sb, dirty);
      panic := false;
      var j := 0;
      while j < NINDIRECT
        invariant 0 <= j <= NINDIRECT && Valid() && !panic && Emptied(g0, g, Cut(g0, i, NDIRECT, j))
                  && BitmapOnly(old(disk[..]), disk[..], sb)
        invariant Covers(old(disk[..]), disk[..], old(dirty), dirty) && OnlyMaps(sb, old(dirty), dirty)
      {
        ghost var role := Slot(i, NDIRECT + 1 + j);
        CutEntry(g0, i, j);
        StillThere(g0, g, Cut(g0, i, NDIRECT, j), role);
        NotZero(disk[..], nodes[..], sb, g, dying, role);
        assert disk[a] == old(disk[..])[a];
        var b := GetWord(disk[a], j);
        if b != 0 {
          ghost var m1, d1 := disk[..], dirty;
          panic := FreeSlot(b, role, g0, Cut(g0, i, NDIRECT, j));
          CoversTwice(old(disk[..]), m1, disk[..], old(dirty), d1, dirty);
          OnlyMore(sb, old(dirty), d1, b);
        }
        j := j + 1;
      }
    }

    /**
     * itrunc: the blocks of inode i, and no others, become free, and the inode is empty. panic says whether
     * bfree meets a block that is free already.
     */
    method Itrunc(i: nat) returns (panic: bool)
      requires Valid() && i < nodes.Length && i !in dying
      modifies disk, nodes, this
      ensures !panic && Valid() && dying == old(dying) && Emptied(old(g), g, SlotsOf(old(g), i))
      ensures nodes[i].size == 0 && (forall k: nat :: Slot(i, k) !in g.at) && Full(nodes[i], g, i)
      ensures forall j | 0 <= j < nodes.Length && j != i :: nodes[j] == old(nodes[j])
      ensures forall j: nat, o: nat | j != i :: FByte(disk[..], g, j, o) == FByte(old(disk[..]), old(g), j, o)
      ensures Tidy(old(g)) ==> Tidy(g)
      ensures Covers(old(disk[..]), disk[..], old(dirty), dirty) && Iblock(sb, i) in dirty
      ensures |dirty - old(dirty)| <= Bitmaps(sb) + 1
    {
      hide Inv, Emptied, GetWord, Tidy, Full, FByte, Covers, OnlyMaps, Bitmaps;
      TruncStart(disk[..], nodes[..], sb, g, dying, i);
      InRange(disk[..], nodes[..], sb, g, dying);
      dying := dying + {i};
      panic := TruncDirect(i);
      ghost var g1, m1, d1 := g, disk[..], dirty;
      StillThere(old(g), g, Cut(old(g), i, NDIRECT, 0), Slot(i, NDIRECT));
      var a := nodes[i].addrs[NDIRECT];
      if a != 0 {
        panic := TruncEntries(i, a, old(g));
        StillThere(old(g), g, Cut(old(g), i, NDIRECT, NINDIRECT), Slot(i, NDIRECT));
        CoversTwice(old(disk[..]), m1, disk[..], old(dirty), d1, dirty);
        OnlyTwice(sb, old(dirty), d1, dirty);
        ghost var m2, d2 := disk[..], dirty;
        NotZero(disk[..], nodes[..], sb, g, dying, Slot(i, NDIRECT));
        panic := FreeSlot(a, Slot(i, NDIRECT), old(g), Cut(old(g), i, NDIRECT, NINDIRECT));
        CoversTwice(old(disk[..]), m2, disk[..], old(dirty), d2, dirty);
        OnlyMore(sb, old(dirty), d2, a);
      }
      ghost var node := Inode(nodes[i].addrs[NDIRECT := 0], 0);
      DyingNode(disk[..], nodes[..], sb, g, dying, i, node);
      ghost var before := nodes[..];
      nodes[i] := Inode(nodes[i].addrs[NDIRECT := 0], 0);
      assert nodes[..] == before[i := node];
      TruncEnd(old(disk[..]), disk[..], old(g), g, sb, i);
      EmptyNode(disk[..], nodes[..], sb, g, old(dying), i);
      dying := dying - {i};
      assert dying == old(dying);
      ghost var d3 := dirty;
      Iupdate(i);
      CoversMore(old(disk[..]), disk[..], old(dirty), d3, dirty);
      OnlyBound(sb, old(dirty), d3, Iblock(sb, i));
    }
  }
}
