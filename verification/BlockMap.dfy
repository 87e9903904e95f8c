/**
 * The blocks of a file system image and who uses them: the bitmap, the block addresses in inodes and
 * in indirect blocks, and the invariant that ties the three together.
 */
module BlockMap {
  import opened Blocks

  const NDIRECT := 12
  const NINDIRECT := 256
  const MAXFILE := NDIRECT + NINDIRECT
  const BPB := 8192

  /** size: blocks in the image; nmeta: boot block, super block, log, inodes and bitmap come first. */
  datatype Super = Super(size: nat, ninodes: nat, inodestart: nat, bmapstart: nat, nmeta: nat)

  /** addrs: NDIRECT block numbers and that of the indirect block; 0 for none. */
  datatype Inode = Inode(addrs: seq<Word>, size: nat)

  /**
   * What a block is used for. Slot(i, k) is address k of inode i for k <= NDIRECT, and entry
   * k - NDIRECT - 1 of its indirect block above that. Loose blocks are allocated but in no slot yet.
   */
  datatype Role = Meta | Free | Loose | Slot(ino: nat, k: nat)

  /** own: the role of every block; at: its inverse on slots. */
  datatype Book = Book(own: map<nat, Role>, at: map<Role, nat>)

  // ---- bits ----

  function Bit(x: nat, k: nat): (b: bool) {
    if k == 0 then x % 2 == 1 else Bit(x / 2, k - 1)
  }

  /** x with bit k set to b. */
  function WithBit(x: nat, k: nat, b: bool): (r: nat) {
    if k == 0 then x / 2 * 2 + (if b then 1 else 0) else WithBit(x / 2, k - 1, b) * 2 + x % 2
  }

  lemma {:induction false} BitOf(x: nat, k: nat, b: bool, j: nat)
    ensures Bit(WithBit(x, k, b), j) == if j == k then b else Bit(x, j)
  {
    var r := WithBit(x, k, b);
    if k == 0 {
      assert r / 2 == x / 2;
    } else {
      assert r % 2 == x % 2 && r / 2 == WithBit(x / 2, k - 1, b);
      if j > 0 { BitOf(x / 2, k - 1, b, j - 1); }
    }
  }

  lemma {:induction false} BitBound(x: nat, k: nat, b: bool, n: nat)
    requires k < n && x < Pow2(n)
    ensures WithBit(x, k, b) < Pow2(n)
  {
    assert x / 2 < Pow2(n - 1);
    if k > 0 { BitBound(x / 2, k - 1, b, n - 1); }
  }

  ghost function Pow2(n: nat): (p: nat)
    ensures p > 0
  {
    if n == 0 then 1 else 2 * Pow2(n - 1)
  }

  lemma ByteBits()
    ensures Pow2(8) == 256
  {
    assert Pow2(4) == 16;
  }

  /** Bit bi of a bitmap block. */
  predicate BlockBit(b: Block, bi: nat)
    requires bi < BPB
  {
    Bit(b[bi / 8], bi % 8)
  }

  /** A bitmap block with bit bi set or cleared. */
  function SetBlockBit(b: Block, bi: nat, on: bool): (r: Block)
    requires bi < BPB
    ensures forall j: nat | j < BPB :: BlockBit(r, j) == if j == bi then on else BlockBit(b, j)
  {
    ByteBits();
    BitBound(b[bi / 8], bi % 8, on, 8);
    var r: Block := b[bi / 8 := WithBit(b[bi / 8], bi % 8, on)];
    assert forall j: nat | j < BPB :: BlockBit(r, j) == if j == bi then on else BlockBit(b, j) by {
      forall j: nat | j < BPB ensures BlockBit(r, j) == if j == bi then on else BlockBit(b, j) {
        if j / 8 == bi / 8 { BitOf(b[bi / 8], bi % 8, on, j % 8); }
      }
    }
    r
  }

  // ---- the invariant ----

  /** BBLOCK(b, sb). */
  function Bblock(sb: Super, b: nat): (n: nat) { b / BPB + sb.bmapstart }

  /** The regions of the image: the bitmap covers every block and lies in the metadata. */
  ghost predicate Layout(sb: Super) {
    && 0 < sb.nmeta <= sb.size < 0x1_0000_0000 && 0 < sb.bmapstart
    && forall b: nat | b < sb.size :: Bblock(sb, b) < sb.nmeta
  }

  ghost predicate Roles(sb: Super, g: Book) {
    && (forall b :: b in g.own <==> 0 <= b < sb.size)
    && (forall b | b in g.own :: g.own[b] == Meta <==> b < sb.nmeta)
    && (forall r | r in g.at ::
          r.Slot? && r.ino < sb.ninodes && r.k <= MAXFILE && g.at[r] in g.own && g.own[g.at[r]] == r)
    && (forall b | b in g.own && g.own[b].Slot? :: g.own[b] in g.at && g.at[g.own[b]] == b)
  }

  /** A bit of the bitmap is set exactly when its block is in use. */
  ghost predicate Bitmap(disk: seq<Block>, sb: Super, own: map<nat, Role>) {
    && |disk| == sb.size
    && forall b: nat | b < sb.size && b in own && Bblock(sb, b) < sb.size ::
         BlockBit(disk[Bblock(sb, b)], b % BPB) <==> own[b] != Free
  }

  /** The block number a slot should hold. */
  ghost function Held(g: Book, r: Role): (b: nat) {
    if r in g.at then g.at[r] else 0
  }

  /** The addresses of inode i and of its indirect block are those of its slots. */
  ghost predicate Pointers(disk: seq<Block>, node: Inode, g: Book, i: nat) {
    && |node.addrs| == NDIRECT + 1
    && (forall k | 0 <= k <= NDIRECT :: node.addrs[k] == Held(g, Slot(i, k)))
    && (forall k | NDIRECT < k <= MAXFILE && Slot(i, k) in g.at :: Slot(i, NDIRECT) in g.at)
    && (Slot(i, NDIRECT) in g.at && g.at[Slot(i, NDIRECT)] < |disk| ==>
          forall k | NDIRECT < k <= MAXFILE ::
            GetWord(disk[g.at[Slot(i, NDIRECT)]], k - NDIRECT - 1) == Held(g, Slot(i, k)))
  }

  ghost predicate AllPointers(disk: seq<Block>, nodes: seq<Inode>, g: Book, dying: set<nat>) {
    forall i | 0 <= i < |nodes| && i !in dying :: Pointers(disk, nodes[i], g, i)
  }

  ghost predicate Inv(disk: seq<Block>, nodes: seq<Inode>, sb: Super, g: Book, dying: set<nat>) {
    Layout(sb) && |disk| == sb.size && |nodes| == sb.ninodes && Roles(sb, g) && Bitmap(disk, sb, g.own)
        && AllPointers(disk, nodes, g, dying)
  }

  // ---- balloc and bfree ----

  /** The bitmap with the bit of block b set or cleared. */
  function Marked(disk: seq<Block>, sb: Super, b: nat, on: bool): (r: seq<Block>)
    requires Bblock(sb, b) < |disk|
  {
    disk[Bblock(sb, b) := SetBlockBit(disk[Bblock(sb, b)], b % BPB, on)]
  }

  lemma BitmapMarked(disk: seq<Block>, sb: Super, own: map<nat, Role>, b: nat, role: Role)
    requires Layout(sb) && Bitmap(disk, sb, own) && b < sb.size
    ensures Bblock(sb, b) < |disk| && Bitmap(Marked(disk, sb, b, role != Free), sb, own[b := role])
  {
    var on := role != Free;
    var m, o := Marked(disk, sb, b, on), own[b := role];
    hide BlockBit, SetBlockBit;
    forall c: nat | c < sb.size && c in o && Bblock(sb, c) < sb.size
      ensures BlockBit(m[Bblock(sb, c)], c % BPB) <==> o[c] != Free
    {
      MarkedAt(disk, sb, b, on, c);
      assert c != b ==> c in own;
    }
  }

  lemma MarkedAt(disk: seq<Block>, sb: Super, b: nat, on: bool, c: nat)
    requires Bblock(sb, b) < |disk| && Bblock(sb, c) < |disk|
    ensures BlockBit(Marked(disk, sb, b, on)[Bblock(sb, c)], c % BPB) ==
        if c == b then on else BlockBit(disk[Bblock(sb, c)], c % BPB)
  {
    var s := SetBlockBit(disk[Bblock(sb, b)], b % BPB, on);
    hide BlockBit, SetBlockBit;
    if b / BPB == c / BPB {
      assert b % BPB == c % BPB <==> b == c;
    }
  }

  /** Block b is no indirect block of a file. */
  predicate NotIndirect(g: Book, b: nat) {
    b in g.own && (g.own[b].Slot? ==> g.own[b].k != NDIRECT)
  }

  /** Blocks that are not indirect blocks may change. */
  lemma PointersSame(disk: seq<Block>, m: seq<Block>, nodes: seq<Inode>, sb: Super, g: Book, dying: set<nat>, b: nat)
    requires AllPointers(disk, nodes, g, dying) && Roles(sb, g) && NotIndirect(g, b) && |m| == |disk|
    requires forall c | 0 <= c < |disk| && c != b :: m[c] == disk[c]
    ensures AllPointers(m, nodes, g, dying)
  {
    forall i | 0 <= i < |nodes| && i !in dying ensures Pointers(m, nodes[i], g, i) {
      assert Pointers(disk, nodes[i], g, i);
    }
  }

  /** Only slots matter to the addresses. */
  lemma PointersRole(disk: seq<Block>, nodes: seq<Inode>, g: Book, r: Book, dying: set<nat>)
    requires AllPointers(disk, nodes, g, dying) && r.at == g.at
    ensures AllPointers(disk, nodes, r, dying)
  {
    forall i | 0 <= i < |nodes| && i !in dying ensures Pointers(disk, nodes[i], r, i) {
      assert Pointers(disk, nodes[i], g, i);
      assert forall k: nat :: Held(r, Slot(i, k)) == Held(g, Slot(i, k));
    }
  }

  lemma RolesMark(sb: Super, g: Book, b: nat, role: Role)
    requires Roles(sb, g) && b in g.own && (g.own[b] == Free || g.own[b] == Loose) && (role == Free || role == Loose)
    ensures Roles(sb, g.(own := g.own[b := role]))
  {
  }

  /** balloc's mark: a free block becomes loose. bfree's: a loose one becomes free. */
  lemma MarkKeeps(disk: seq<Block>, nodes: seq<Inode>, sb: Super, g: Book, dying: set<nat>, b: nat, role: Role)
    requires Inv(disk, nodes, sb, g, dying) && b in g.own && (g.own[b] == Free || g.own[b] == Loose)
    requires (role == Free || role == Loose)
    ensures Bblock(sb, b) < |disk|
    ensures Inv(Marked(disk, sb, b, role != Free), nodes, sb, g.(own := g.own[b := role]), dying)
  {
    hide AllPointers;
    BitmapMarked(disk, sb, g.own, b, role);
    RolesMark(sb, g, b, role);
    hide Bitmap;
    var n := Bblock(sb, b);
    assert n < sb.nmeta && NotIndirect(g, n);
    PointersSame(disk, Marked(disk, sb, b, role != Free), nodes, sb, g, dying, n);
    PointersRole(Marked(disk, sb, b, role != Free), nodes, g, g.(own := g.own[b := role]), dying);
  }

  /** A loose block or a data block may be filled with anything. */
  lemma FillKeeps(disk: seq<Block>, nodes: seq<Inode>, sb: Super, g: Book, dying: set<nat>, b: nat, data: Block)
    requires Inv(disk, nodes, sb, g, dying) && b in g.own && g.own[b] != Meta && NotIndirect(g, b)
    ensures b < |disk| && Inv(disk[b := data], nodes, sb, g, dying)
  {
    hide AllPointers;
    PointersSame(disk, disk[b := data], nodes, sb, g, dying, b);
    BitmapSame(disk, disk[b := data], sb, g.own, b);
  }

  lemma BitmapSame(disk: seq<Block>, m: seq<Block>, sb: Super, own: map<nat, Role>, b: nat)
    requires Layout(sb) && Bitmap(disk, sb, own) && |m| == |disk| && b >= sb.nmeta && forall c | 0 <= c < |disk|
             && c != b :: m[c] == disk[c]
    ensures Bitmap(m, sb, own)
  {
    forall c: nat | c < sb.size && c in own && Bblock(sb, c) < sb.size
      ensures BlockBit(m[Bblock(sb, c)], c % BPB) <==> own[c] != Free
    {
      assert Bblock(sb, c) < sb.nmeta;
    }
  }

  // ---- slots ----

  ghost function Settled(g: Book, role: Role, b: nat): (r: Book) {
    Book(g.own[b := role], g.at[role := b])
  }

  lemma RolesSettle(sb: Super, g: Book, role: Role, b: nat)
    requires Roles(sb, g) && b in g.own && g.own[b] == Loose && role !in g.at && role.Slot? && role.ino < sb.ninodes
    requires role.k <= MAXFILE
    ensures Roles(sb, Settled(g, role, b))
  {
  }

  lemma BitmapSettle(disk: seq<Block>, sb: Super, own: map<nat, Role>, role: Role, b: nat)
    requires Bitmap(disk, sb, own) && b in own && own[b] != Free && role != Free
    ensures Bitmap(disk, sb, own[b := role])
  {
  }

  /** bmap stores a fresh block's number in an inode; a fresh indirect block is all zeros. */
  lemma AddressKeeps(disk: seq<Block>, nodes: seq<Inode>, sb: Super, g: Book, dying: set<nat>, i: nat, k: nat, b: nat)
    requires Inv(disk, nodes, sb, g, dying) && i < |nodes| && k <= NDIRECT && b in g.own && g.own[b] == Loose
    requires Slot(i, k) !in g.at
             && i !in dying
    requires k == NDIRECT ==> b < |disk| && disk[b] == ZeroBlock()
    ensures |nodes[i].addrs| == NDIRECT + 1 && b < 0x1_0000_0000
    ensures Inv(disk, nodes[i := nodes[i].(addrs := nodes[i].addrs[k := b])], sb, Settled(g, Slot(i, k), b), dying)
  {
    assert Pointers(disk, nodes[i], g, i);
    RolesSettle(sb, g, Slot(i, k), b);
    BitmapSettle(disk, sb, g.own, Slot(i, k), b);
    var r, ns := Settled(g, Slot(i, k), b), nodes[i := nodes[i].(addrs := nodes[i].addrs[k := b])];
    hide Bitmap, Layout;
    forall j | 0 <= j < |ns| && j !in dying ensures Pointers(disk, ns[j], r, j) {
      assert Pointers(disk, nodes[j], g, j);
      if j != i {
        OtherPointers(disk, nodes[j], g, j, Slot(i, k), b);
      } else if k == NDIRECT {
        NewIndirect(disk, nodes[i], sb, g, i, b);
      } else {
        NewDirect(disk, nodes[i], g, i, k, b);
      }
    }
  }

  lemma OtherPointers(disk: seq<Block>, node: Inode, g: Book, j: nat, role: Role, b: nat)
    requires Pointers(disk, node, g, j) && role.Slot? && role.ino != j
    ensures Pointers(disk, node, Settled(g, role, b), j)
  {
    assert forall k: nat :: Held(Settled(g, role, b), Slot(j, k)) == Held(g, Slot(j, k));
  }

  lemma NewDirect(disk: seq<Block>, node: Inode, g: Book, i: nat, k: nat, b: nat)
    requires Pointers(disk, node, g, i) && k < NDIRECT && b < 0x1_0000_0000
    ensures Pointers(disk, node.(addrs := node.addrs[k := b]), Settled(g, Slot(i, k), b), i)
  {
    var r := Settled(g, Slot(i, k), b);
    assert forall x: nat :: Held(r, Slot(i, x)) == if x == k then b else Held(g, Slot(i, x));
  }

  lemma NewIndirect(disk: seq<Block>, node: Inode, sb: Super, g: Book, i: nat, b: nat)
    requires Pointers(disk, node, g, i) && b < |disk| && b < 0x1_0000_0000 && disk[b] == ZeroBlock()
    requires Slot(i, NDIRECT) !in g.at
    ensures Pointers(disk, node.(addrs := node.addrs[NDIRECT := b]), Settled(g, Slot(i, NDIRECT), b), i)
  {
    var r := Settled(g, Slot(i, NDIRECT), b);
    assert forall x: nat :: Held(r, Slot(i, x)) == if x == NDIRECT then b else Held(g, Slot(i, x));
    assert forall j: nat | j < NINDIRECT :: GetWord(disk[b], j) == 0;
  }

  /** bmap stores a fresh block's number in the indirect block. */
  lemma EntryKeeps(disk: seq<Block>, nodes: seq<Inode>, sb: Super, g: Book, dying: set<nat>, i: nat, j: nat, b: nat)
    requires Inv(disk, nodes, sb, g, dying) && i < |nodes| && j < NINDIRECT && b in g.own && g.own[b] == Loose
    requires i !in dying
    requires Slot(i, NDIRECT) in g.at && Slot(i, NDIRECT + 1 + j) !in g.at
    ensures var a := g.at[Slot(i, NDIRECT)];
            && a < |disk| && b < 0x1_0000_0000
            && Inv(disk[a := PutWord(disk[a], j, b)], nodes, sb, Settled(g, Slot(i, NDIRECT + 1 + j), b), dying)
  {
    hide AllPointers, PutWord;
    var a, role := g.at[Slot(i, NDIRECT)], Slot(i, NDIRECT + 1 + j);
    var w := PutWord(disk[a], j, b);
    var m, r := disk[a := w], Settled(g, role, b);
    RolesSettle(sb, g, role, b);
    BitmapSettle(disk, sb, g.own, role, b);
    BitmapSame(disk, m, sb, r.own, a);
    hide Bitmap, Layout;
    EntryPointers(disk, nodes, sb, g, dying, i, j, b, w);
  }

  lemma EntryPointers(disk: seq<Block>, nodes: seq<Inode>, sb: Super, g: Book, dying: set<nat>, i: nat, j: nat, b: nat,
                      w: Block)
    requires AllPointers(disk, nodes, g, dying) && Roles(sb, g) && j < NINDIRECT && Slot(i, NDIRECT) in g.at
             && g.at[Slot(i, NDIRECT)] < |disk|
    requires GetWord(w, j) == b
    requires forall x: nat | x < NINDIRECT && x != j :: GetWord(w, x) == GetWord(disk[g.at[Slot(i, NDIRECT)]], x)
    ensures AllPointers(disk[g.at[Slot(i, NDIRECT)] := w], nodes, Settled(g, Slot(i, NDIRECT + 1 + j), b), dying)
  {
    hide GetWord;
    var a, role := g.at[Slot(i, NDIRECT)], Slot(i, NDIRECT + 1 + j);
    var m, r := disk[a := w], Settled(g, role, b);
    forall o | 0 <= o < |nodes| && o !in dying ensures Pointers(m, nodes[o], r, o) {
      assert Pointers(disk, nodes[o], g, o);
      if o != i {
        assert Slot(o, NDIRECT) in g.at ==> g.at[Slot(o, NDIRECT)] != a;
        assert Pointers(m, nodes[o], g, o);
        OtherPointers(m, nodes[o], g, o, role, b);
      } else {
        assert forall x: nat :: Held(r, Slot(i, x)) == if x == NDIRECT + 1 + j then b else Held(g, Slot(i, x));
      }
    }
  }

  // ---- giving slots back ----

  ghost function Dropped(g: Book, role: Role): (r: Book)
    requires role in g.at
  {
    Book(g.own[g.at[role] := Loose], g.at - {role})
  }

  lemma RolesDrop(sb: Super, g: Book, role: Role)
    requires Roles(sb, g) && role in g.at
    ensures Roles(sb, Dropped(g, role))
  {
  }

  /** A slot of an inode that is being truncated is emptied. */
  lemma DropKeeps(disk: seq<Block>, nodes: seq<Inode>, sb: Super, g: Book, dying: set<nat>, role: Role)
    requires Inv(disk, nodes, sb, g, dying) && role in g.at && role.Slot? && role.ino in dying
    ensures Inv(disk, nodes, sb, Dropped(g, role), dying)
  {
    hide Layout;
    var r := Dropped(g, role);
    BitmapSettle(disk, sb, g.own, Loose, g.at[role]);
    RolesDrop(sb, g, role);
    hide Bitmap, Roles;
    forall i | 0 <= i < |nodes| && i !in dying ensures Pointers(disk, nodes[i], r, i) {
      assert Pointers(disk, nodes[i], g, i);
      assert forall k: nat :: Held(r, Slot(i, k)) == Held(g, Slot(i, k));
    }
  }

  /** The addresses of an inode that is being truncated may hold anything. */
  lemma DyingNode(disk: seq<Block>, nodes: seq<Inode>, sb: Super, g: Book, dying: set<nat>, i: nat, node: Inode)
    requires Inv(disk, nodes, sb, g, dying) && i in dying && i < |nodes|
    ensures Inv(disk, nodes[i := node], sb, g, dying)
  {
    hide Bitmap, Layout, Roles;
    forall j | 0 <= j < |nodes| && j !in dying ensures Pointers(disk, nodes[i := node][j], g, j) {
      assert Pointers(disk, nodes[j], g, j);
    }
  }

  /** An inode without slots and without addresses is in order again. */
  lemma EmptyNode(disk: seq<Block>, nodes: seq<Inode>, sb: Super, g: Book, dying: set<nat>, i: nat)
    requires Inv(disk, nodes, sb, g, dying + {i}) && i < |nodes| && (forall k: nat :: Slot(i, k) !in g.at)
    requires |nodes[i].addrs| == NDIRECT + 1 && forall k | 0 <= k <= NDIRECT :: nodes[i].addrs[k] == 0
    ensures Inv(disk, nodes, sb, g, dying)
  {
    hide Bitmap, Layout, Roles;
    forall j | 0 <= j < |nodes| && j !in dying ensures Pointers(disk, nodes[j], g, j) {
      if j != i { assert Pointers(disk, nodes[j], g, j); }
    }
  }
}
