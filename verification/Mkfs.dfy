/** mkfs: an image with files appended block by block, and its bitmap written last. */
module Mkfs {
  import opened Basics
  import opened Blocks
  import opened BlockMap
  import opened F = Files
  import D = Directory

  const FSSIZE := 1000
  const NINODES := 200
  const NLOG := 30
  const NINODEBLOCKS := NINODES / 16 + 1
  const NBITMAP := FSSIZE / BPB + 1
  const NMETA := 2 + NLOG + NINODEBLOCKS + NBITMAP

  const SB := Super(FSSIZE, NINODES, 2 + NLOG, 2 + NLOG + NINODEBLOCKS, NMETA)

  /** A file has exactly the blocks its size needs. */
  ghost predicate Exact(node: Inode, g: Book, i: nat) {
    && node.size <= MAXFILE * BSIZE
    && (forall n: nat | n < MAXFILE :: Slot(i, DataSlot(n)) in g.at <==> n * BSIZE < node.size)
    && (Slot(i, NDIRECT) in g.at <==> node.size > NDIRECT * BSIZE)
  }

  /** Blocks are handed out in order, and those not yet handed out are zero. */
  ghost predicate Tail(disk: seq<Block>, sb: Super, g: Book, freeblock: nat) {
    && sb.nmeta <= freeblock <= sb.size == |disk|
    && (forall b | b in g.own :: g.own[b] == Free <==> b >= freeblock)
    && (forall b | freeblock <= b < |disk| :: disk[b] == ZeroBlock())
  }

  /** The two agree outside the bitmap. */
  ghost predicate Agree(disk: seq<Block>, shadow: seq<Block>, sb: Super) {
    |shadow| == |disk| && forall b | 0 <= b < |disk| && b != sb.bmapstart :: shadow[b] == disk[b]
  }

  lemma LayoutOk()
    ensures Layout(SB) && forall b: nat | b < FSSIZE :: Bblock(SB, b) == SB.bmapstart
  {
  }

  predicate InImage(b: nat) { b < FSSIZE }

  /** A bitmap block whose first n bits are set. */
  ghost function UsedMap(n: nat): (b: Block)
    requires n <= BPB
    ensures forall j: nat | j < BPB :: BlockBit(b, j) <==> j < n
  {
    if n == 0 then NoBits(); ZeroBlock() else SetBlockBit(UsedMap(n - 1), n - 1, true)
  }

  lemma NoBits()
    ensures forall j: nat | j < BPB :: !BlockBit(ZeroBlock(), j)
  {
    forall j: nat | j < BPB ensures !BlockBit(ZeroBlock(), j) { NoBit(j % 8); }
  }

  lemma {:induction false} NoBit(k: nat)
    ensures !Bit(0, k)
  {
    if k > 0 { NoBit(k - 1); }
  }

  /** Everything but the sizes of files. */
  ghost predicate Built(disk: seq<Block>, shadow: seq<Block>, nodes: seq<Inode>, g: Book, freeblock: nat) {
    Inv(shadow, nodes, SB, g, {}) && Agree(disk, shadow, SB) && Tail(disk, SB, g, freeblock) && F.Tidy(g)
  }

  /** An empty image with the bitmap its metadata calls for. */
  lemma StartOk(disk: seq<Block>, nodes: seq<Inode>, g: Book, n: nat)
    requires |disk| == FSSIZE && |nodes| == NINODES && n == NMETA
    requires (forall b | 0 <= b < FSSIZE :: disk[b] == ZeroBlock())
    requires forall i | 0 <= i < NINODES ::
               && nodes[i].size == 0
               && |nodes[i].addrs| == NDIRECT + 1
               && forall k | 0 <= k <= NDIRECT :: nodes[i].addrs[k] == 0
    requires g.at == map[] && (forall b :: b in g.own <==> 0 <= b < FSSIZE)
             && forall b | b in g.own :: g.own[b] == if b < NMETA then Meta else Free
    ensures var shadow := disk[SB.bmapstart := UsedMap(n)];
            Built(disk, shadow, nodes, g, n) && forall i | 0 <= i < |nodes| :: Exact(nodes[i], g, i)
  {
    LayoutOk();
    var u := UsedMap(n);
    hide BlockBit, UsedMap, ZeroBlock;
    var shadow := disk[SB.bmapstart := u];
    assert forall j: nat | j < BPB :: BlockBit(u, j) <==> j < n;
    forall b: nat | b < SB.size && b in g.own
        && Bblock(SB, b) < SB.size ensures BlockBit(shadow[Bblock(SB, b)], b % BPB) <==> g.own[b] != Free {
      assert b % BPB == b;
    }
    assert Bitmap(shadow, SB, g.own);
  }

  /** The next block, marked in the shadow's bitmap. */
  lemma NextBlock(disk: seq<Block>, shadow: seq<Block>, nodes: seq<Inode>, g: Book, b: nat)
    requires Built(disk, shadow, nodes, g, b) && b < FSSIZE
    ensures Bblock(SB, b) < |shadow| && b in g.own && g.own[b] == Free && |shadow| == |disk| == FSSIZE
    ensures var s := Marked(shadow, SB, b, true);
            && Inv(s, nodes, SB, g.(own := g.own[b := Loose]), {}) && Agree(disk, s, SB)
            && s[b] == disk[b] == ZeroBlock()
  {
    hide AllPointers, Bitmap, SetBlockBit, ZeroBlock;
    LayoutOk();
    MarkKeeps(shadow, nodes, SB, g, {}, b, Loose);
  }

  lemma TailNext(disk: seq<Block>, m: seq<Block>, g: Book, r: Book, b: nat)
    requires Tail(disk, SB, g, b) && b < FSSIZE && b in r.own && r.own == g.own[b := r.own[b]] && r.own[b] != Free
    requires F.Tidy(g)
             && r.own[b] != Loose
    requires |m| == |disk| && forall c | b < c < |disk| :: m[c] == disk[c]
    ensures Tail(m, SB, r, b + 1) && F.Tidy(r)
  {
    hide ZeroBlock;
  }

  /** A block number stored in an inode. */
  lemma AddressBuilt(disk: seq<Block>, shadow: seq<Block>, nodes: seq<Inode>, g: Book, b: nat, i: nat, k: nat)
    requires Built(disk, shadow, nodes, g, b) && b < FSSIZE && i < |nodes| && k <= NDIRECT && Slot(i, k) !in g.at
    ensures |nodes[i].addrs| == NDIRECT + 1 && Bblock(SB, b) < |shadow|
    ensures Built(disk, Marked(shadow, SB, b, true),
                  nodes[i := nodes[i].(addrs := nodes[i].addrs[k := b])], Settled(g, Slot(i, k), b),
            b + 1)
    ensures F.DataKept(disk, disk, g, Settled(g, Slot(i, k), b)) && b < |disk| && disk[b] == ZeroBlock()
  {
    hide Inv, Agree, ZeroBlock;
    NextBlock(disk, shadow, nodes, g, b);
    var h := g.(own := g.own[b := Loose]);
    AddressKeeps(Marked(shadow, SB, b, true), nodes, SB, h, {}, i, k, b);
    assert Settled(h, Slot(i, k), b) == Settled(g, Slot(i, k), b);
    TailNext(disk, disk, g, Settled(g, Slot(i, k), b), b);
  }

  /** A block number stored in an indirect block. */
  lemma EntryBuilt(disk: seq<Block>, shadow: seq<Block>, nodes: seq<Inode>, g: Book, b: nat, i: nat, j: nat)
    requires Built(disk, shadow, nodes, g, b) && b < FSSIZE && i < |nodes| && j < NINDIRECT && Slot(i, NDIRECT) in g.at
             && Slot(i, NDIRECT + 1 + j) !in g.at
    ensures var a, role := g.at[Slot(i, NDIRECT)], Slot(i, NDIRECT + 1 + j);
            && a < |disk| == |shadow| && a < b < |disk| && Bblock(SB, b) < |shadow|
            && var s := Marked(shadow, SB, b, true);
               var m := disk[a := PutWord(disk[a], j, b)];
               && s[a] == disk[a]
               && Built(m, s[a := PutWord(s[a], j, b)], nodes, Settled(g, role, b), b + 1)
               && F.DataKept(disk, m, g, Settled(g, role, b)) && m[b] == ZeroBlock()
  {
    hide AllPointers, Bitmap, PutWord, ZeroBlock, SetBlockBit;
    NextBlock(disk, shadow, nodes, g, b);
    var a, role, h := g.at[Slot(i, NDIRECT)], Slot(i, NDIRECT + 1 + j), g.(own := g.own[b := Loose]);
    var s := Marked(shadow, SB, b, true);
    assert a != b && a != SB.bmapstart && a < b;
    EntryKeeps(s, nodes, SB, h, {}, i, j, b);
    assert Settled(h, role, b) == Settled(g, role, b);
    hide Inv;
    var m := disk[a := PutWord(disk[a], j, b)];
    TailNext(disk, m, g, Settled(g, role, b), b);
  }

  /** From g to r only data block n of file i, and its indirect block, can have been added. */
  ghost predicate Placed(g: Book, r: Book, i: nat, n: nat) {
    && F.SlotsKept(g, r) && Slot(i, DataSlot(n)) in r.at && (n >= NDIRECT ==> Slot(i, NDIRECT) in r.at)
    && forall role | role in r.at && role !in g.at ::
         role == Slot(i, DataSlot(n)) || (n >= NDIRECT && role == Slot(i, NDIRECT))
  }

  lemma BuiltInRange(disk: seq<Block>, shadow: seq<Block>, nodes: seq<Inode>, g: Book, freeblock: nat)
    requires Built(disk, shadow, nodes, g, freeblock)
    ensures |disk| == |shadow| == FSSIZE && |nodes| == NINODES
    ensures forall role | role in g.at ::
              && NMETA <= g.at[role] < |disk|
              && g.at[role] in g.own
              && g.own[g.at[role]] == role
              && shadow[g.at[role]] == disk[g.at[role]]
  {
    hide AllPointers, Bitmap, ZeroBlock;
  }

  /** The addresses of a built image, read from the disk. */
  lemma BuiltAddress(disk: seq<Block>, shadow: seq<Block>, nodes: seq<Inode>, g: Book, freeblock: nat, i: nat, k: nat)
    requires Built(disk, shadow, nodes, g, freeblock) && i < |nodes| && k <= NDIRECT
    ensures |nodes[i].addrs| == NDIRECT + 1 && nodes[i].addrs[k] == Held(g, Slot(i, k))
    ensures (nodes[i].addrs[k] == 0 <==> Slot(i, k) !in g.at)
  {
    hide Agree, Tail;
    F.Address(shadow, nodes, SB, g, {}, i, k);
  }

  lemma BuiltEntry(disk: seq<Block>, shadow: seq<Block>, nodes: seq<Inode>, g: Book, freeblock: nat, i: nat, j: nat)
    requires Built(disk, shadow, nodes, g, freeblock) && i < |nodes| && j < NINDIRECT && Slot(i, NDIRECT) in g.at
    ensures var a := g.at[Slot(i, NDIRECT)];
            a < |disk| && GetWord(disk[a], j) == Held(g, Slot(i, NDIRECT + 1 + j))
                && (GetWord(disk[a], j) == 0 <==> Slot(i, NDIRECT + 1 + j) !in g.at)
  {
    BuiltInRange(disk, shadow, nodes, g, freeblock);
    hide Agree, Tail, GetWord;
    F.EntryWord(shadow, nodes, SB, g, {}, i, j);
  }

  /** Writing a data block of a built image. */
  lemma PatchBuilt(disk: seq<Block>, shadow: seq<Block>, nodes: seq<Inode>, g: Book, freeblock: nat, i: nat, n: nat,
                   p: nat,
      data: seq<Byte>)
    requires Built(disk, shadow, nodes, g, freeblock) && Slot(i, DataSlot(n)) in g.at && p + |data| <= BSIZE
    ensures var b := g.at[Slot(i, DataSlot(n))];
            && b < |disk| == |shadow| && shadow[b] == disk[b]
            && Built(disk[b := F.Patch(disk[b], p, data)], shadow[b := F.Patch(disk[b], p, data)], nodes, g, freeblock)
            && F.Overlaid(disk, disk[b := F.Patch(disk[b], p, data)], g, g, i, n * BSIZE + p, data)
  {
    hide AllPointers, Bitmap, ZeroBlock, F.Patch, F.Overlaid;
    BuiltInRange(disk, shadow, nodes, g, freeblock);
    var b := g.at[Slot(i, DataSlot(n))];
    F.DataBlock(shadow, nodes, SB, g, {}, Slot(i, DataSlot(n)));
    FillKeeps(shadow, nodes, SB, g, {}, b, F.Patch(disk[b], p, data));
    F.BlockOverlaid(disk, g, i, n, p, data);
  }

  /** A file stays exact when its next bytes are placed. */
  lemma ExactNext(node: Inode, after: Inode, g: Book, r: Book, i: nat, m: nat)
    requires Exact(node, g, i) && Placed(g, r, i, node.size / BSIZE) && after.size == node.size + m
    requires node.size / BSIZE < MAXFILE
    requires 0 < m <= BSIZE - node.size % BSIZE
    ensures Exact(after, r, i)
  {
    var n := node.size / BSIZE;
    assert node.size == n * BSIZE + node.size % BSIZE;
    forall x: nat | x < MAXFILE ensures Slot(i, DataSlot(x)) in r.at <==> x * BSIZE < after.size {
      if x < n { assert x * BSIZE < node.size; }
      if x > n { assert x * BSIZE >= after.size; }
    }
  }

  lemma ExactOther(node: Inode, g: Book, r: Book, i: nat, n: nat, j: nat)
    requires Exact(node, g, j) && Placed(g, r, i, n) && j != i
    ensures Exact(node, r, j)
  {
  }

  /** No byte of any file has changed. */
  ghost predicate Unchanged(disk: seq<Block>, m: seq<Block>, g: Book, r: Book) {
    forall j: nat, o: nat :: F.FByte(m, r, j, o) == F.FByte(disk, g, j, o)
  }

  lemma SameBytes(disk: seq<Block>, g: Book)
    ensures Unchanged(disk, disk, g, g)
  {
  }

  lemma SameTwice(disk: seq<Block>, m: seq<Block>, n: seq<Block>, g: Book, h: Book, r: Book)
    requires Unchanged(disk, m, g, h) && Unchanged(m, n, h, r)
    ensures Unchanged(disk, n, g, r)
  {
    hide F.FByte;
  }

  /** A slot filled with a fresh zeroed block. */
  lemma NewBytes(disk: seq<Block>, m: seq<Block>, g: Book, r: Book, role: Role)
    requires F.DataKept(disk, m, g, r) && (forall q | q in g.at :: g.at[q] < |disk|)
    requires role in r.at && r == Settled(g, role, r.at[role]) && r.at[role] < |m| && m[r.at[role]] == ZeroBlock()
    ensures Unchanged(disk, m, g, r)
  {
    F.MappedBytes(disk, m, g, r, 0, 0, 0);
    hide F.FByte;
  }

  lemma FullImage(disk: seq<Block>, shadow: seq<Block>, nodes: seq<Inode>, g: Book, freeblock: nat)
    requires Built(disk, shadow, nodes, g, freeblock) && freeblock >= FSSIZE
    ensures freeblock == FSSIZE
  {
  }

  lemma SizeBuilt(disk: seq<Block>, shadow: seq<Block>, nodes: seq<Inode>, g: Book, freeblock: nat, i: nat, size: nat)
    requires Built(disk, shadow, nodes, g, freeblock) && i < |nodes|
    ensures Built(disk, shadow, nodes[i := nodes[i].(size := size)], g, freeblock)
  {
    F.SizeKeeps(shadow, nodes, SB, g, {}, i, size);
  }

  lemma Appended(disk: seq<Block>, m: seq<Block>, n: seq<Block>, g: Book, r: Book, i: nat, off: nat, data: seq<Byte>)
    requires Unchanged(disk, m, g, r) && F.Overlaid(m, n, r, r, i, off, data)
    ensures F.Overlaid(disk, n, g, r, i, off, data)
  {
    hide F.FByte;
  }

  /** mkfs rounds the size of the root directory up to the block after its last byte. */
  function Rounded(size: nat): (r: nat) { (size / BSIZE + 1) * BSIZE }

  /** That leaves every block below the size mapped exactly when the entries do not fill the last block. */
  lemma RootRounded(node: Inode, g: Book, i: nat)
    requires Exact(node, g, i)
    ensures F.Full(node.(size := Rounded(node.size)), g, i) <==> node.size % BSIZE != 0
  {
    var q, after := node.size / BSIZE, node.(size := Rounded(node.size));
    assert node.size == q * BSIZE + node.size % BSIZE;
    if node.size % BSIZE == 0 {
      if q < MAXFILE {
        assert Slot(i, DataSlot(q)) in g.at <==> q * BSIZE < node.size;
        assert q * BSIZE < after.size;
      }
    } else {
      forall n: nat | n * BSIZE < after.size ensures Slot(i, DataSlot(n)) in g.at {
        assert n <= q && n * BSIZE < node.size;
        assert n < MAXFILE;
      }
    }
  }

  lemma ExactFull(node: Inode, g: Book, i: nat)
    requires Exact(node, g, i)
    ensures F.Full(node, g, i)
  {
    forall n: nat | n * BSIZE < node.size ensures Slot(i, DataSlot(n)) in g.at { assert n < MAXFILE; }
  }

  /** With the bits of the blocks handed out, the image itself is in order. */
  lemma BitmapWritten(disk: seq<Block>, shadow: seq<Block>, nodes: seq<Inode>, g: Book, freeblock: nat, buf: Block)
    requires Built(disk, shadow, nodes, g, freeblock) && forall j: nat | j < BPB :: BlockBit(buf, j) <==> j < freeblock
    ensures Inv(disk[SB.bmapstart := buf], nodes, SB, g, {})
  {
    hide BlockBit, AllPointers;
    LayoutOk();
    var m := disk[SB.bmapstart := buf];
    forall b: nat | b < SB.size && b in g.own && Bblock(SB, b) < SB.size
      ensures BlockBit(m[Bblock(SB, b)], b % BPB) <==> g.own[b] != Free
    {
      assert b % BPB == b;
    }
    assert NotIndirect(g, SB.bmapstart);
    PointersSame(shadow, m, nodes, SB, g, {}, SB.bmapstart);
  }

  lemma MetaUnchanged(disk: seq<Block>, g: Book, b: nat, buf: Block)
    requires b < |disk| && forall role | role in g.at :: g.at[role] != b
    ensures Unchanged(disk, disk[b := buf], g, g)
  {
  }

  /** Appending to file i leaves the others alone and puts the data at its end. */
  lemma AppendedContent(disk: seq<Block>, m: seq<Block>, g: Book, r: Book, i: nat, size: nat, data: seq<Byte>)
    requires F.Overlaid(disk, m, g, r, i, size, data)
    ensures F.Content(m, r, i, size + |data|) == F.Content(disk, g, i, size) + data
    ensures forall j: nat, n: nat | j != i :: F.Content(m, r, j, n) == F.Content(disk, g, j, n)
  {
    F.ContentWritten(disk, m, g, r, i, size, data, size, size + |data|);
  }

  lemma UnchangedContent(disk: seq<Block>, m: seq<Block>, g: Book, j: nat, n: nat)
    requires Unchanged(disk, m, g, g)
    ensures F.Content(m, g, j, n) == F.Content(disk, g, j, n)
  {
  }

  const DIRENT := D.DIRENT

  /** A file given to mkfs: its name in the root directory and its contents. */
  datatype Source = Source(name: D.Name, data: seq<Byte>)

  const DOT: D.Name := [46]
  const DOTDOT: D.Name := [46, 46]

  /** The root directory with entries for the first k files. */
  function RootEntries(files: seq<Source>, k: nat): (es: seq<D.Entry>)
    requires k <= |files|
    ensures |es| == k + 2
  {
    if k == 0 then [D.Entry(1, DOT), D.Entry(1, DOTDOT)]
    else RootEntries(files, k - 1) + [D.Entry(k + 1, D.Cut(files[k - 1].name))]
  }

  function RootBytes(files: seq<Source>, k: nat): (b: seq<Byte>)
    requires k <= |files| < NINODES
    ensures |b| == (k + 2) * DIRENT
  {
    if k == 0 then D.Encode(1, DOT) + D.Encode(1, DOTDOT)
    else RootBytes(files, k - 1) + D.Encode(k + 1, files[k - 1].name)
  }

  lemma EntriesAppend(c: seq<Byte>, b: seq<Byte>)
    requires |c| % DIRENT == 0 && |b| == DIRENT
    ensures |c + b| % DIRENT == 0 && D.Entries(c + b) == D.Entries(c) + [D.Decode(b)]
  {
    hide D.Decode;
    var n := |c| / DIRENT;
    assert |c| == n * DIRENT && |c + b| == (n + 1) * DIRENT;
    forall k | 0 <= k < n + 1 ensures D.Entries(c + b)[k] == (D.Entries(c) + [D.Decode(b)])[k] {
      var at := k * DIRENT;
      if k < n { assert (c + b)[at..at + DIRENT] == c[at..at + DIRENT]; } else { assert (c + b)[at..at + DIRENT] == b; }
    }
  }

  lemma {:induction false} RootDecoded(files: seq<Source>, k: nat)
    requires k <= |files| < NINODES
    ensures D.Entries(RootBytes(files, k)) == RootEntries(files, k)
  {
    hide D.Encode, D.Decode, D.Entries;
    if k == 0 {
      NoEntries();
      D.DecodeEncode(1, DOT);
      D.DecodeEncode(1, DOTDOT);
      EntriesAppend([], D.Encode(1, DOT));
      EntriesAppend([] + D.Encode(1, DOT), D.Encode(1, DOTDOT));
      assert [] + D.Encode(1, DOT) == D.Encode(1, DOT);
      assert D.Cut(DOT) == DOT && D.Cut(DOTDOT) == DOTDOT;
    } else {
      RootDecoded(files, k - 1);
      D.DecodeEncode(k + 1, files[k - 1].name);
      EntriesAppend(RootBytes(files, k - 1), D.Encode(k + 1, files[k - 1].name));
    }
  }

  lemma NoEntries()
    ensures D.Entries([]) == []
  {
  }

  /** File i holds only zeros from o on. */
  ghost predicate ZeroFrom(disk: seq<Block>, g: Book, i: nat, o: nat) {
    forall x: nat | x >= o :: F.FByte(disk, g, i, x) == 0
  }

  lemma ZeroNext(disk: seq<Block>, m: seq<Block>, g: Book, r: Book, i: nat, size: nat, data: seq<Byte>)
    requires F.Overlaid(disk, m, g, r, i, size, data)
    ensures forall j: nat, o: nat | j != i && ZeroFrom(disk, g, j, o) :: ZeroFrom(m, r, j, o)
    ensures ZeroFrom(disk, g, i, size) ==> ZeroFrom(m, r, i, size + |data|)
  {
    hide F.FByte;
  }

  /** The root directory as the file system will read it: its entries, then empty ones. */
  lemma RootRead(disk: seq<Block>, g: Book, files: seq<Source>, size: nat)
    requires |files| < NINODES && size % DIRENT == 0 && size >= (|files| + 2) * DIRENT
    requires ZeroFrom(disk, g, 1, (|files| + 2) * DIRENT)
    requires F.Content(disk, g, 1, (|files| + 2) * DIRENT) == RootBytes(files, |files|)
    ensures RootIs(D.Dir(disk, g, 1, size), files)
  {
    hide F.FByte, F.Content, D.Dir, RootBytes, RootEntries, ZeroFrom, D.Decode, D.Entries;
    RootDecoded(files, |files|);
    var es, n := D.Dir(disk, g, 1, size), |files| + 2;
    forall k | 0 <= k < n ensures es[k] == RootEntries(files, |files|)[k] {
      EntryRead(disk, g, RootBytes(files, |files|), size, k);
    }
    forall k | n <= k < |es| ensures es[k].inum == 0 {
      EntryEmpty(disk, g, n * DIRENT, size, k);
    }
  }

  lemma EntryRead(disk: seq<Block>, g: Book, b: seq<Byte>, size: nat, k: nat)
    requires |b| % DIRENT == 0 && size % DIRENT == 0 && |b| <= size && k < |b| / DIRENT
    requires F.Content(disk, g, 1, |b|) == b
    ensures D.Dir(disk, g, 1, size)[k] == D.Entries(b)[k]
  {
    hide F.FByte, D.Decode;
    var c, at := F.Content(disk, g, 1, size), k * DIRENT;
    assert c[at..at + DIRENT] == b[at..at + DIRENT];
  }

  lemma EntryEmpty(disk: seq<Block>, g: Book, o: nat, size: nat, k: nat)
    requires size % DIRENT == 0 && k < size / DIRENT && o <= k * DIRENT && ZeroFrom(disk, g, 1, o)
    ensures D.Dir(disk, g, 1, size)[k].inum == 0
  {
    hide F.FByte, D.Stored;
  }

  // ---- how many blocks it takes ----

  /** The data blocks of a file of the given size, and its indirect block. */
  function BlocksOf(size: nat): (n: nat) { (size + BSIZE - 1) / BSIZE + if size > NDIRECT * BSIZE then 1 else 0 }

  /** The blocks that k more bytes take. */
  function MoreBlocks(size: nat, k: nat): (n: int) { BlocksOf(size + k) - BlocksOf(size) }

  lemma BlocksGrow(a: nat, b: nat)
    requires a <= b
    ensures BlocksOf(a) <= BlocksOf(b)
  {
  }

  /** How many blocks are lacking for data block n of file i. */
  ghost function Missing(g: Book, i: nat, n: nat): (k: nat) {
    (if Slot(i, DataSlot(n)) in g.at then 0 else 1) + if n >= NDIRECT && Slot(i, NDIRECT) !in g.at then 1 else 0
  }

  /** The blocks that the next bytes of a file need. */
  lemma MissingNext(node: Inode, g: Book, i: nat, k: nat)
    requires Exact(node, g, i) && node.size / BSIZE < MAXFILE && 0 < k <= BSIZE - node.size % BSIZE
    ensures BlocksOf(node.size + k) == BlocksOf(node.size) + Missing(g, i, node.size / BSIZE)
  {
    var n := node.size / BSIZE;
    assert Slot(i, DataSlot(n)) in g.at <==> n * BSIZE < node.size;
    MissingDigits(node.size, n, k);
  }

  lemma MissingDigits(size: nat, n: nat, k: nat)
    requires n == size / BSIZE && 0 < k <= BSIZE - size % BSIZE
    ensures (size + k + BSIZE - 1) / BSIZE == n + 1
    ensures (size + BSIZE - 1) / BSIZE == (if n * BSIZE < size then n + 1 else n)
    ensures size + k > NDIRECT * BSIZE <==> n >= NDIRECT
    ensures size > NDIRECT * BSIZE ==> n >= NDIRECT
  {
    assert size == n * BSIZE + size % BSIZE;
  }

  /** The blocks of the root directory and the first k files. */
  function Total(files: seq<Source>, k: nat): (n: nat)
    requires k <= |files|
  {
    BlocksOf((k + 2) * DIRENT) + DataTotal(files, k)
  }

  function DataTotal(files: seq<Source>, k: nat): (n: nat)
    requires k <= |files|
  {
    if k == 0 then 0 else DataTotal(files, k - 1) + BlocksOf(|files[k - 1].data|)
  }

  lemma {:induction false} TotalGrows(files: seq<Source>, k: nat)
    requires k <= |files|
    ensures Total(files, k) <= Total(files, |files|)
    decreases |files| - k
  {
    if k < |files| {
      TotalGrows(files, k + 1);
      BlocksGrow((k + 2) * DIRENT, (k + 3) * DIRENT);
    }
  }

  /** No file is too big, and the files and the root directory fit behind the metadata. */
  predicate FitsImage(files: seq<Source>) {
    (forall k | 0 <= k < |files| :: |files[k].data| <= MAXFILE * BSIZE) && NMETA + Total(files, |files|) <= FSSIZE
  }

  /** k bytes can be appended to a file of the given size when the next free block is freeblock. */
  predicate Room(size: nat, k: nat, freeblock: nat) {
    size + k <= MAXFILE * BSIZE && freeblock + MoreBlocks(size, k) <= FSSIZE
  }

  lemma BuiltFits(disk: seq<Block>, shadow: seq<Block>, nodes: seq<Inode>, g: Book, freeblock: nat)
    requires Built(disk, shadow, nodes, g, freeblock)
    ensures freeblock <= FSSIZE
  {
  }

  lemma Bounds(disk: seq<Block>, shadow: seq<Block>, nodes: seq<Inode>, g: Book, freeblock: nat, i: nat)
    requires Built(disk, shadow, nodes, g, freeblock) && i < |nodes| && Exact(nodes[i], g, i)
    ensures freeblock <= FSSIZE && nodes[i].size <= MAXFILE * BSIZE
  {
  }

  /**
   * The image while it is being built. shadow is the image with the bitmap that its blocks call for; mkfs
   * writes the bitmap only at the end.
   */
  class Image {
    const disk: array<Block>
    const nodes: array<Inode>
    var freeblock: nat
    var freeinode: nat
    ghost var g: Book
    ghost var shadow: seq<Block>

    ghost predicate Valid()
      reads this, disk, nodes
    {
      Built(disk[..], shadow, nodes[..], g, freeblock) && forall i | 0 <= i < nodes.Length :: Exact(nodes[i], g, i)
    }

    /** An image of zeros with no files. */
    constructor ()
      ensures Valid() && freeblock == NMETA && freeinode == 1 && g.at == map[] && fresh(disk) && fresh(nodes)
      ensures nodes.Length == NINODES
      ensures forall i | 0 <= i < nodes.Length :: nodes[i].size == 0
    {
      disk := new Block[FSSIZE](i => ZeroBlock());
      nodes := new Inode[NINODES](i => Inode(seq(NDIRECT + 1, k => 0), 0));
      freeblock, freeinode := NMETA, 1;
      g := Book(map b: nat | b < FSSIZE && InImage(b) :: if b < NMETA then Meta else Free, map[]);
      new;
      hide Built, Exact, UsedMap;
      StartOk(disk[..], nodes[..], g, freeblock);
      shadow := disk[..][SB.bmapstart := UsedMap(freeblock)];
    }

    /** ialloc: the next inode. */
    method Ialloc() returns (inum: nat)
      modifies this`freeinode
      ensures inum == old(freeinode) && freeinode == inum + 1
    {
      inum := freeinode;
      freeinode := freeinode + 1;
    }

    /** iappend's allocation for an address in the inode; false when the image is full. */
    method NewAddress(i: nat, k: nat) returns (ok: bool)
      requires Built(disk[..], shadow, nodes[..], g, freeblock) && i < nodes.Length && k <= NDIRECT
      requires Slot(i, k) !in g.at
      modifies nodes, this`g, this`shadow, this`freeblock
      ensures Built(disk[..], shadow, nodes[..], g, freeblock) && F.DataKept(disk[..], disk[..], old(g), g)
      ensures nodes[i].size == old(nodes[i].size)
      ensures forall j | 0 <= j < nodes.Length && j != i :: nodes[j] == old(nodes[j])
      ensures (ok <==> old(freeblock) < FSSIZE) && (!ok ==> freeblock == FSSIZE)
      ensures ok ==>
                && old(freeblock) < disk.Length
                && g == Settled(old(g), Slot(i, k), old(freeblock))
                && disk[old(freeblock)] == ZeroBlock()
      ensures ok ==>
                && |nodes[i].addrs| == NDIRECT + 1
                && nodes[i].addrs[k] == old(freeblock)
                && freeblock == old(freeblock) + 1
    {
      hide Built, F.DataKept, ZeroBlock;
      F.KeptSame(disk[..], g);
      if freeblock >= FSSIZE {
        FullImage(disk[..], shadow, nodes[..], g, freeblock);
        return false;
      }
      AddressBuilt(disk[..], shadow, nodes[..], g, freeblock, i, k);
      ghost var before := nodes[..];
      shadow := Marked(shadow, SB, freeblock, true);
      nodes[i] := nodes[i].(addrs := nodes[i].addrs[k := freeblock]);
      assert nodes[..] == before[i := before[i].(addrs := before[i].addrs[k := freeblock])];
      g := Settled(g, Slot(i, k), freeblock);
      freeblock := freeblock + 1;
      ok := true;
    }

    /** iappend's allocation for an entry of the indirect block in block a. */
    method NewEntry(i: nat, j: nat, a: nat) returns (ok: bool)
      requires Built(disk[..], shadow, nodes[..], g, freeblock) && i < nodes.Length && j < NINDIRECT
      requires Slot(i, NDIRECT) in g.at && a == g.at[Slot(i, NDIRECT)] && Slot(i, NDIRECT + 1 + j) !in g.at
      modifies disk, this`g, this`shadow, this`freeblock
      ensures Built(disk[..], shadow, nodes[..], g, freeblock) && F.DataKept(old(disk[..]), disk[..], old(g), g)
      ensures (ok <==> old(freeblock) < FSSIZE) && (!ok ==> freeblock == FSSIZE)
      ensures (ok ==> freeblock == old(freeblock) + 1)
      ensures ok ==>
                && old(freeblock) < disk.Length
                && g == Settled(old(g), Slot(i, NDIRECT + 1 + j), old(freeblock))
                && disk[old(freeblock)] == ZeroBlock()
    {
      hide Built, F.DataKept, ZeroBlock, PutWord;
      F.KeptSame(disk[..], g);
      if freeblock >= FSSIZE {
        FullImage(disk[..], shadow, nodes[..], g, freeblock);
        return false;
      }
      EntryBuilt(disk[..], shadow, nodes[..], g, freeblock, i, j);
      ghost var s, m := Marked(shadow, SB, freeblock, true), disk[..];
      shadow := s[a := PutWord(s[a], j, freeblock)];
      disk[a] := PutWord(disk[a], j, freeblock);
      assert disk[..] == m[a := PutWord(m[a], j, freeblock)];
      g := Settled(g, Slot(i, NDIRECT + 1 + j), freeblock);
      freeblock := freeblock + 1;
      ok := true;
    }

    /** The block in address k of file i, allocated if need be; false when the image is full. */
    method LocateAddress(i: nat, k: nat) returns (x: nat, ok: bool)
      requires Built(disk[..], shadow, nodes[..], g, freeblock) && i < nodes.Length && k <= NDIRECT
      modifies nodes, this`g, this`shadow, this`freeblock
      ensures Built(disk[..], shadow, nodes[..], g, freeblock)
      ensures ok <==> Slot(i, k) in old(g).at || old(freeblock) < FSSIZE
      ensures ok ==> freeblock == old(freeblock) + if Slot(i, k) in old(g).at then 0 else 1
      ensures nodes[i].size == old(nodes[i].size)
      ensures forall j | 0 <= j < nodes.Length && j != i :: nodes[j] == old(nodes[j])
      ensures ok ==>
                && Slot(i, k) in g.at
                && x == g.at[Slot(i, k)]
                && Unchanged(disk[..], disk[..], old(g), g)
                && F.SlotsKept(old(g), g)
      ensures ok ==> forall role | role in g.at && role !in old(g).at :: role == Slot(i, k)
    {
      hide Built, Unchanged;
      BuiltInRange(disk[..], shadow, nodes[..], g, freeblock);
      SameBytes(disk[..], g);
      BuiltAddress(disk[..], shadow, nodes[..], g, freeblock, i, k);
      ok := true;
      if nodes[i].addrs[k] == 0 {
        ok := NewAddress(i, k);
        if !ok { return 0, false; }
        NewBytes(disk[..], disk[..], old(g), g, Slot(i, k));
      }
      x := nodes[i].addrs[k];
    }

    /** The block in entry j of the indirect block in block a, allocated if need be. */
    method LocateEntry(i: nat, j: nat, a: nat) returns (x: nat, ok: bool)
      requires Built(disk[..], shadow, nodes[..], g, freeblock) && i < nodes.Length && j < NINDIRECT
      requires Slot(i, NDIRECT) in g.at
               && a == g.at[Slot(i, NDIRECT)]
      modifies disk, this`g, this`shadow, this`freeblock
      ensures Built(disk[..], shadow, nodes[..], g, freeblock)
      ensures ok <==> Slot(i, NDIRECT + 1 + j) in old(g).at || old(freeblock) < FSSIZE
      ensures ok ==> freeblock == old(freeblock) + if Slot(i, NDIRECT + 1 + j) in old(g).at then 0 else 1
      ensures ok ==> var role := Slot(i, NDIRECT + 1 + j); role in g.at && x == g.at[role]
      ensures ok ==> Unchanged(old(disk[..]), disk[..], old(g), g) && F.SlotsKept(old(g), g)
      ensures ok ==> forall role | role in g.at && role !in old(g).at :: role == Slot(i, NDIRECT + 1 + j)
    {
      hide Built, Unchanged, GetWord;
      BuiltInRange(disk[..], shadow, nodes[..], g, freeblock);
      SameBytes(disk[..], g);
      BuiltEntry(disk[..], shadow, nodes[..], g, freeblock, i, j);
      ok := true;
      if GetWord(disk[a], j) == 0 {
        ok := NewEntry(i, j, a);
        if !ok { return 0, false; }
        NewBytes(old(disk[..]), disk[..], old(g), g, Slot(i, NDIRECT + 1 + j));
        BuiltEntry(disk[..], shadow, nodes[..], g, freeblock, i, j);
      }
      x := GetWord(disk[a], j);
    }

    /** The block of data block n of file i, allocated if need be; false when the image is full. */
    method Locate(i: nat, n: nat) returns (x: nat, ok: bool)
      requires Built(disk[..], shadow, nodes[..], g, freeblock) && i < nodes.Length && n < MAXFILE
      modifies disk, nodes, this`g, this`shadow, this`freeblock
      ensures Built(disk[..], shadow, nodes[..], g, freeblock)
      ensures ok <==> old(freeblock) + Missing(old(g), i, n) <= FSSIZE
      ensures ok ==> freeblock == old(freeblock) + Missing(old(g), i, n)
      ensures nodes[i].size == old(nodes[i].size)
      ensures forall j | 0 <= j < nodes.Length && j != i :: nodes[j] == old(nodes[j])
      ensures ok ==>
                && Placed(old(g), g, i, n)
                && x == g.at[Slot(i, DataSlot(n))]
                && Unchanged(old(disk[..]), disk[..], old(g), g)
    {
      hide Built, Unchanged;
      BuiltFits(disk[..], shadow, nodes[..], g, freeblock);
      if n < NDIRECT {
        x, ok := LocateAddress(i, n);
        return;
      }
      var a;
      a, ok := LocateAddress(i, NDIRECT);
      if !ok { return 0, false; }
      ghost var m1, g1 := disk[..], g;
      x, ok := LocateEntry(i, n - NDIRECT, a);
      if ok { SameTwice(old(disk[..]), m1, disk[..], old(g), g1, g); }
    }

    /** One round of iappend's loop: data for the rest of the last block. */
    method AppendRound(i: nat, data: seq<Byte>) returns (ok: bool)
      requires Valid() && i < nodes.Length && 0 < |data| <= BSIZE - nodes[i].size % BSIZE
      modifies disk, nodes, this`g, this`shadow, this`freeblock
      ensures ok <==> old(nodes[i].size) / BSIZE < MAXFILE
                      && old(freeblock) + MoreBlocks(old(nodes[i].size), |data|) <= FSSIZE
      ensures ok ==> freeblock == old(freeblock) + MoreBlocks(old(nodes[i].size), |data|)
      ensures ok ==>
                && Valid()
                && nodes[i].size == old(nodes[i].size) + |data|
                && F.Overlaid(old(disk[..]), disk[..], old(g), g, i, old(nodes[i].size), data)
      ensures ok ==> forall j | 0 <= j < nodes.Length && j != i :: nodes[j] == old(nodes[j])
    {
      hide Built, Exact, F.Patch, F.Overlaid, Unchanged, BlocksOf, Missing;
      var off := nodes[i].size;
      var n := off / BSIZE;
      if n >= MAXFILE { return false; }
      MissingNext(nodes[i], g, i, |data|);
      var x;
      x, ok := Locate(i, n);
      if !ok { return; }
      ghost var m1, g1 := disk[..], g;
      PatchBuilt(disk[..], shadow, nodes[..], g, freeblock, i, n, off % BSIZE, data);
      shadow := shadow[x := F.Patch(disk[x], off % BSIZE, data)];
      disk[x] := F.Patch(disk[x], off % BSIZE, data);
      assert disk[..] == m1[x := F.Patch(m1[x], off % BSIZE, data)];
      SizeBuilt(disk[..], shadow, nodes[..], g, freeblock, i, off + |data|);
      ghost var before := nodes[..];
      nodes[i] := nodes[i].(size := off + |data|);
      assert nodes[..] == before[i := before[i].(size := off + |data|)];
      assert off == n * BSIZE + off % BSIZE;
      Appended(old(disk[..]), m1, disk[..], old(g), g1, i, off, data);
      ExactNext(old(nodes[i]), nodes[i], old(g), g, i, |data|);
      forall j | 0 <= j < nodes.Length && j != i ensures Exact(nodes[j], g, j) {
        assert nodes[j] == old(nodes[j]);
        ExactOther(nodes[j], old(g), g, i, n, j);
      }
    }

    /** iappend: data at the end of file i; false when the file or the image would be too big. */
    method Iappend(i: nat, data: seq<Byte>) returns (ok: bool)
      requires Valid() && i < nodes.Length
      modifies disk, nodes, this`g, this`shadow, this`freeblock
      ensures ok ==>
                && Valid()
                && nodes[i].size == old(nodes[i].size) + |data|
                && F.Overlaid(old(disk[..]), disk[..], old(g), g, i, old(nodes[i].size), data)
      ensures ok ==> forall j | 0 <= j < nodes.Length && j != i :: nodes[j] == old(nodes[j])
      ensures ok <==> Room(old(nodes[i].size), |data|, old(freeblock))
      ensures ok ==> freeblock == old(freeblock) + MoreBlocks(old(nodes[i].size), |data|)
    {
      hide Built, Exact, F.Overlaid, BlocksOf;
      Bounds(disk[..], shadow, nodes[..], g, freeblock, i);
      F.OverlaidNone(disk[..], g, i, nodes[i].size);
      ok := true;
      var n := 0;
      assert data[..0] == [];
      while n < |data|
        invariant 0 <= n <= |data| && Valid() && nodes[i].size == old(nodes[i].size) + n && ok
        invariant F.Overlaid(old(disk[..]), disk[..], old(g), g, i, old(nodes[i].size), data[..n])
        invariant forall j | 0 <= j < nodes.Length && j != i :: nodes[j] == old(nodes[j])
        invariant freeblock == old(freeblock) + MoreBlocks(old(nodes[i].size), n)
        invariant freeblock <= FSSIZE && nodes[i].size <= MAXFILE * BSIZE
      {
        var off := nodes[i].size;
        var n1 := if |data| - n < BSIZE - off % BSIZE then |data| - n else BSIZE - off % BSIZE;
        ghost var m1, g1 := disk[..], g;
        BlocksGrow(off + n1, old(nodes[i].size) + |data|);
        ok := AppendRound(i, data[n..n + n1]);
        if !ok { return; }
        Bounds(disk[..], shadow, nodes[..], g, freeblock, i);
        F.OverlaidTwice(old(disk[..]), m1, disk[..], old(g), g1, g, i, old(nodes[i].size), data[..n], data[n..n + n1]);
        assert data[..n] + data[n..n + n1] == data[..n + n1];
        n := n + n1;
      }
      assert data[..n] == data;
    }

    /** mkfs's balloc: the bitmap with a bit for every block handed out. */
    method Balloc()
      requires Built(disk[..], shadow, nodes[..], g, freeblock)
      modifies disk
      ensures Inv(disk[..], nodes[..], SB, g, {}) && Unchanged(old(disk[..]), disk[..], g, g)
    {
      hide Inv, SetBlockBit, BlockBit;
      BuiltInRange(disk[..], shadow, nodes[..], g, freeblock);
      var buf := ZeroBlock();
      NoBits();
      hide ZeroBlock;
      var i := 0;
      while i < freeblock
        invariant 0 <= i <= freeblock <= BPB && forall j: nat | j < BPB :: BlockBit(buf, j) <==> j < i
      {
        buf := SetBlockBit(buf, i, true);
        i := i + 1;
      }
      BitmapWritten(disk[..], shadow, nodes[..], g, freeblock, buf);
      ghost var before := disk[..];
      disk[SB.bmapstart] := buf;
      assert disk[..] == before[SB.bmapstart := buf];
      MetaUnchanged(before, g, SB.bmapstart, buf);
    }

    /** The end of mkfs: the size of the root directory, then the bitmap. */
    method Finish(root: nat)
      requires Valid() && root < nodes.Length
      modifies disk, nodes
      ensures Inv(disk[..], nodes[..], SB, g, {}) && F.Tidy(g) && Unchanged(old(disk[..]), disk[..], g, g)
      ensures forall j | 0 <= j < nodes.Length && j != root :: nodes[j] == old(nodes[j]) && F.Full(nodes[j], g, j)
      ensures nodes[root].size == Rounded(old(nodes[root].size))
      ensures (F.Full(nodes[root], g, root) <==> old(nodes[root].size) % BSIZE != 0)
    {
      hide Inv, Exact, F.Full, Agree, Tail, F.Tidy;
      forall j | 0 <= j < nodes.Length ensures F.Full(nodes[j], g, j) { ExactFull(nodes[j], g, j); }
      RootRounded(nodes[root], g, root);
      var size := Rounded(nodes[root].size);
      SizeBuilt(disk[..], shadow, nodes[..], g, freeblock, root, size);
      ghost var before := nodes[..];
      nodes[root] := nodes[root].(size := size);
      assert nodes[..] == before[root := before[root].(size := size)];
      assert forall j | 0 <= j < nodes.Length && j != root :: nodes[j] == before[j];
      Balloc();
    }
  }

  /**
   * mkfs: the root directory as inode 1, then one inode and one directory entry for each file. Every block is
   * then metadata, free or in one slot, as the bitmap says, and every file but the root has all its blocks; the
   * root has them exactly when its entries do not fill its last block. The root lists the dots and the files
   * under their cut names, and each file reads as given.
   */
  method Make(files: seq<Source>) returns (ok: bool, img: Image)
    requires |files| < NINODES - 1
    ensures fresh(img) && fresh(img.disk) && fresh(img.nodes) && img.nodes.Length == NINODES
    ensures ok <==> FitsImage(files)
    ensures ok ==> Inv(img.disk[..], img.nodes[..], SB, img.g, {}) && F.Tidy(img.g)
    ensures ok ==> forall j | 0 <= j < NINODES && j != 1 :: F.Full(img.nodes[j], img.g, j)
    ensures ok ==> (F.Full(img.nodes[1], img.g, 1) <==> |files| % 64 != 62)
    ensures ok ==>
              forall i | 2 <= i < |files| + 2 ::
                F.Content(img.disk[..], img.g, i, img.nodes[i].size) == files[i - 2].data
    ensures ok ==> img.nodes[1].size % DIRENT == 0 && RootIs(D.Dir(img.disk[..], img.g, 1, img.nodes[1].size), files)
  {
    img := new Image();
    hide Inv, F.Full, F.Overlaid, Built, Exact, F.Content, F.FByte, Unchanged, F.Tidy, Loaded, D.Dir, D.Encode, RootIs,
      ZeroFrom,
      BlocksOf, Total;
    FirstBlocks(files);
    var root := img.Ialloc();
    NothingIn(img.disk[..], img.nodes[..], img.g);
    ghost var m, g := img.disk[..], img.g;
    ok := img.Iappend(root, D.Encode(1, DOT));
    if !ok { return; }
    ghost var m1, g1 := img.disk[..], img.g;
    ok := img.Iappend(root, D.Encode(1, DOTDOT));
    if !ok { return; }
    DotsIn(m, m1, img.disk[..], g, g1, img.g, img.nodes[..], files);
    var k := 0;
    while k < |files|
      invariant 0 <= k <= |files| && img.freeinode == k + 2 && img.Valid() && ok && fresh(img) && fresh(img.disk)
                && fresh(img.nodes) && img.nodes.Length == NINODES
      invariant Loaded(img.disk[..], img.nodes[..], img.g, files, k) && img.freeblock == NMETA + Total(files, k)
      invariant forall j | 0 <= j < k :: |files[j].data| <= MAXFILE * BSIZE
    {
      TotalGrows(files, k + 1);
      ok := AddFile(img, files, k);
      if !ok { return; }
      k := k + 1;
    }
    BuiltFits(img.disk[..], img.shadow, img.nodes[..], img.g, img.freeblock);
    m := img.disk[..];
    ghost var n := img.nodes[..];
    img.Finish(root);
    Done(m, img.disk[..], img.g, n, img.nodes[..], files);
  }

  /** The dots take the root directory's first block, whatever follows. */
  lemma FirstBlocks(files: seq<Source>)
    ensures BlocksOf(0) == 0 && BlocksOf(DIRENT) == BlocksOf(2 * DIRENT) == 1 && Total(files, 0) == 1
    ensures Room(0, DIRENT, NMETA) && Room(DIRENT, DIRENT, NMETA + 1)
  {
  }

  /** What the file system sees of the root directory. */
  ghost predicate RootIs(es: seq<D.Entry>, files: seq<Source>) {
    && |es| >= |files| + 2 && es[..|files| + 2] == RootEntries(files, |files|)
    && forall k | |files| + 2 <= k < |es| :: es[k].inum == 0
  }

  /** The root directory has k entries beside its dots, and the first k files are in inodes 2 and up. */
  ghost predicate Loaded(disk: seq<Block>, nodes: seq<Inode>, g: Book, files: seq<Source>, k: nat)
    requires k <= |files|
  {
    && |nodes| == NINODES && |files| < NINODES - 1 && nodes[1].size == (k + 2) * DIRENT
    && F.Content(disk, g, 1, nodes[1].size) == RootBytes(files, k) && ZeroFrom(disk, g, 1, nodes[1].size)
    && (forall i | 2 <= i < k + 2 :: F.Content(disk, g, i, nodes[i].size) == files[i - 2].data)
    && forall i | k + 2 <= i < NINODES :: nodes[i].size == 0
  }

  lemma NothingIn(disk: seq<Block>, nodes: seq<Inode>, g: Book)
    requires g.at == map[]
    ensures ZeroFrom(disk, g, 1, 0)
  {
  }

  lemma DotsIn(m: seq<Block>, m1: seq<Block>, m2: seq<Block>, g: Book, g1: Book, g2: Book, nodes: seq<Inode>,
               files: seq<Source>)
    requires ZeroFrom(m, g, 1, 0) && |files| < NINODES - 1
    requires F.Overlaid(m, m1, g, g1, 1, 0, D.Encode(1, DOT))
    requires F.Overlaid(m1, m2, g1, g2, 1, DIRENT, D.Encode(1, DOTDOT))
    requires |nodes| == NINODES && nodes[1].size == 2 * DIRENT && forall i | 2 <= i < NINODES :: nodes[i].size == 0
    ensures Loaded(m2, nodes, g2, files, 0)
  {
    hide F.Overlaid, F.Content, ZeroFrom, D.Encode;
    ZeroNext(m, m1, g, g1, 1, 0, D.Encode(1, DOT));
    ZeroNext(m1, m2, g1, g2, 1, DIRENT, D.Encode(1, DOTDOT));
    AppendedContent(m, m1, g, g1, 1, 0, D.Encode(1, DOT));
    AppendedContent(m1, m2, g1, g2, 1, DIRENT, D.Encode(1, DOTDOT));
    assert F.Content(m, g, 1, 0) == [];
    assert [] + D.Encode(1, DOT) == D.Encode(1, DOT);
  }

  lemma Done(disk: seq<Block>, m: seq<Block>, g: Book, nodes: seq<Inode>, after: seq<Inode>, files: seq<Source>)
    requires Loaded(disk, nodes, g, files, |files|) && Unchanged(disk, m, g, g) && |after| == |nodes|
    requires (forall j | 0 <= j < |nodes| && j != 1 :: after[j] == nodes[j]) && after[1].size == Rounded(nodes[1].size)
    ensures nodes[1].size % BSIZE != 0 <==> |files| % 64 != 62
    ensures forall i | 2 <= i < |files| + 2 :: F.Content(m, g, i, after[i].size) == files[i - 2].data
    ensures after[1].size % DIRENT == 0 && RootIs(D.Dir(m, g, 1, after[1].size), files)
  {
    hide F.Content, F.FByte, D.Dir, ZeroFrom;
    assert (|files| + 2) * DIRENT % BSIZE != 0 <==> |files| % 64 != 62;
    forall i | 1 <= i < |files| + 2 ensures F.Content(m, g, i, nodes[i].size) == F.Content(disk, g, i, nodes[i].size) {
      UnchangedContent(disk, m, g, i, nodes[i].size);
    }
    assert ZeroFrom(m, g, 1, nodes[1].size) by { UnchangedZero(disk, m, g, nodes[1].size); }
    RootRead(m, g, files, after[1].size);
  }

  lemma UnchangedZero(disk: seq<Block>, m: seq<Block>, g: Book, o: nat)
    requires Unchanged(disk, m, g, g) && ZeroFrom(disk, g, 1, o)
    ensures ZeroFrom(m, g, 1, o)
  {
  }

  /** mkfs's loop over the reads of one file, at most a block each. */
  method AppendFile(img: Image, inum: nat, data: seq<Byte>) returns (ok: bool)
    requires img.Valid() && inum < img.nodes.Length
    modifies img`g, img`shadow, img`freeblock, img.disk, img.nodes
    ensures ok ==> img.Valid() && img.nodes[inum].size == old(img.nodes[inum].size) + |data|
    ensures ok ==> F.Overlaid(old(img.disk[..]), img.disk[..], old(img.g), img.g, inum, old(img.nodes[inum].size), data)
    ensures ok ==> forall j | 0 <= j < img.nodes.Length && j != inum :: img.nodes[j] == old(img.nodes[j])
    ensures ok <==> Room(old(img.nodes[inum].size), |data|, old(img.freeblock))
    ensures ok ==> img.freeblock == old(img.freeblock) + MoreBlocks(old(img.nodes[inum].size), |data|)
  {
    hide Built, Exact, F.Overlaid, BlocksOf;
    Bounds(img.disk[..], img.shadow, img.nodes[..], img.g, img.freeblock, inum);
    F.OverlaidNone(img.disk[..], img.g, inum, img.nodes[inum].size);
    ok := true;
    var n := 0;
    assert data[..0] == [];
    while n < |data|
      invariant 0 <= n <= |data| && img.Valid() && img.nodes[inum].size == old(img.nodes[inum].size) + n && ok
      invariant F.Overlaid(old(img.disk[..]), img.disk[..], old(img.g), img.g, inum, old(img.nodes[inum].size),
                           data[..n])
      invariant forall j | 0 <= j < img.nodes.Length && j != inum :: img.nodes[j] == old(img.nodes[j])
      invariant img.freeblock == old(img.freeblock) + MoreBlocks(old(img.nodes[inum].size), n)
      invariant img.freeblock <= FSSIZE && img.nodes[inum].size <= MAXFILE * BSIZE
    {
      var cc := if |data| - n < BSIZE then |data| - n else BSIZE;
      ghost var m1, g1 := img.disk[..], img.g;
      BlocksGrow(old(img.nodes[inum].size) + n + cc, old(img.nodes[inum].size) + |data|);
      ok := img.Iappend(inum, data[n..n + cc]);
      if !ok { return; }
      Bounds(img.disk[..], img.shadow, img.nodes[..], img.g, img.freeblock, inum);
      F.OverlaidTwice(old(img.disk[..]), m1, img.disk[..], old(img.g), g1, img.g,
          inum, old(img.nodes[inum].size), data[..n],
          data[n..n + cc]);
      assert data[..n] + data[n..n + cc] == data[..n + cc];
      n := n + cc;
    }
    assert data[..n] == data;
  }

  /** One turn of mkfs's loop over the files. */
  method AddFile(img: Image, files: seq<Source>, k: nat) returns (ok: bool)
    requires img.Valid() && k < |files| && img.freeinode == k + 2
    requires Loaded(img.disk[..], img.nodes[..], img.g, files, k)
    requires img.freeblock == NMETA + Total(files, k)
    modifies img`g, img`shadow, img`freeblock, img`freeinode, img.disk, img.nodes
    ensures ok ==> img.freeinode == k + 3 && img.Valid() && Loaded(img.disk[..], img.nodes[..], img.g, files, k + 1)
    ensures ok <==> |files[k].data| <= MAXFILE * BSIZE && NMETA + Total(files, k + 1) <= FSSIZE
    ensures ok ==> img.freeblock == NMETA + Total(files, k + 1)
  {
    hide Inv, F.Full, F.Overlaid, Built, Exact, F.Content, D.Encode, ZeroFrom, RootBytes, BlocksOf;
    NoBlocks();
    ghost var m0, g0, n0 := img.disk[..], img.g, img.nodes[..];
    var inum := img.Ialloc();
    var de := D.Encode(inum, files[k].name);
    ok := img.Iappend(1, de);
    if !ok { return; }
    ghost var m1, g1 := img.disk[..], img.g;
    assert forall i | 2 <= i < NINODES :: img.nodes[i] == n0[i];
    ok := AppendFile(img, inum, files[k].data);
    if !ok { return; }
    FileIn(m0, m1, img.disk[..], g0, g1, img.g, n0, img.nodes[..], files, k);
  }

  lemma FileIn(m0: seq<Block>, m1: seq<Block>, m2: seq<Block>, g0: Book, g1: Book, g2: Book, before: seq<Inode>,
               after: seq<Inode>,
      files: seq<Source>, k: nat)
    requires k < |files| && Loaded(m0, before, g0, files, k) && |after| == NINODES
    requires F.Overlaid(m0, m1, g0, g1, 1, (k + 2) * DIRENT, D.Encode(k + 2, files[k].name))
             && F.Overlaid(m1, m2, g1, g2, k + 2, 0, files[k].data)
    requires after[1].size == (k + 3) * DIRENT && after[k + 2].size == |files[k].data| && forall i | 2 <= i < NINODES
             && i != k + 2 :: after[i] == before[i]
    ensures Loaded(m2, after, g2, files, k + 1)
  {
    hide F.Overlaid, F.Content, D.Encode, ZeroFrom;
    ZeroNext(m0, m1, g0, g1, 1, (k + 2) * DIRENT, D.Encode(k + 2, files[k].name));
    ZeroNext(m1, m2, g1, g2, k + 2, 0, files[k].data);
    AppendedContent(m0, m1, g0, g1, 1, (k + 2) * DIRENT, D.Encode(k + 2, files[k].name));
    AppendedContent(m1, m2, g1, g2, k + 2, 0, files[k].data);
    assert F.Content(m1, g1, k + 2, 0) + files[k].data == files[k].data;
    forall i | 2 <= i < k + 3 ensures F.Content(m2, g2, i, after[i].size) == files[i - 2].data {
      if i < k + 2 { assert after[i] == before[i]; }
    }
  }

  lemma NoBlocks()
    ensures BlocksOf(0) == 0
  {
  }

  /** mkfs of 62 empty files succeeds, and its root directory has a block below its size that is not there. */
  method HoleReached(names: seq<D.Name>) returns (img: Image)
    requires |names| == 62
    ensures Inv(img.disk[..], img.nodes[..], SB, img.g, {}) && img.nodes.Length == NINODES
    ensures !F.Full(img.nodes[1], img.g, 1)
  {
    hide Inv, F.Full, RootIs, F.Content, F.Tidy;
    var files := seq(62, k requires 0 <= k < 62 => Source(names[k], []));
    EmptyFit(files);
    var ok;
    ok, img := Make(files);
  }

  lemma EmptyFit(files: seq<Source>)
    requires |files| == 62 && forall k | 0 <= k < |files| :: files[k].data == []
    ensures FitsImage(files)
  {
    EmptyTotal(files, 62);
  }

  lemma {:induction false} EmptyTotal(files: seq<Source>, k: nat)
    requires k <= |files| && forall j | 0 <= j < |files| :: files[j].data == []
    ensures DataTotal(files, k) == 0
  {
    if k > 0 { EmptyTotal(files, k - 1); }
  }

  /**
   * With 62 files the 64 entries of the root fill its only block, and the block after it is below the size
   * but not there.
   */
  lemma RootWithHole(node: Inode, g: Book)
    requires Exact(node, g, 1) && node.size == (62 + 2) * DIRENT
    ensures !F.Full(node.(size := Rounded(node.size)), g, 1) && Rounded(node.size) == 2 * BSIZE
    ensures Slot(1, DataSlot(1)) !in g.at
  {
    RootRounded(node, g, 1);
  }
}
