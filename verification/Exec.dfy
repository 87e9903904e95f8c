/** exec: a new user image beside the old one, then a switch or a complete roll-back. */
module Exec {
  import opened Basics
  import opened PageTable
  import opened UserBytes
  import opened V = Vm

  const MAXARG := 32
  const UINT := 0x1_0000_0000
  const UINT64 := 0x1_0000_0000_0000_0000

  datatype ProgHdr = ProgHdr(load: bool, off: nat, vaddr: nat, filesz: nat, memsz: nat)

  /** The headers of a program file; None stands for a short read. */
  datatype Elf = Elf(magic: bool, entry: nat, phs: seq<Option<ProgHdr>>)

  /** Every user page below n may be accessed by user code. */
  ghost predicate Open(g: Book, id: nat, n: nat) {
    forall v: nat | v < n :: LeafOf(id, v) in g.flat && UserBit(g.flat[LeafOf(id, v)])
  }

  /** The top of the space is mapped without the user bit. */
  ghost predicate Plain(g: Book, id: nat) {
    forall role | role in Top(id) && role in g.flat :: !UserBit(g.flat[role])
  }

  lemma PlainOnlyOwn(g: Book, id: nat, n: nat)
    requires Shape(g, id, n, Top(id)) && Plain(g, id)
    ensures OnlyOwn(g, id)
  {
    forall v: nat | v < MAXVPN && LeafOf(id, v) in g.flat && UserBit(g.flat[LeafOf(id, v)])
      ensures LeafOf(id, v) in g.at
    {
      assert LeafOf(id, v).Leaf?;
    }
  }

  lemma OpenAccess(g: Book, id: nat, n: nat, m: nat, v: nat)
    requires Shape(g, id, n, Top(id)) && Open(g, id, m) && v < m <= n && n < MAXVPN
    ensures Accessible(g, id, v)
  {
    OwnsLow(g, id, n, Top(id), v);
  }

  /** A fresh space has nothing to open, and a plain top. */
  lemma FreshPlain(g: Book, id: nat, t: nat, f: nat)
    requires LeafOf(id, TRAMPOLINE) in g.flat && g.flat[LeafOf(id, TRAMPOLINE)] == Pte(t, PTE_R + PTE_X + PTE_V)
    requires t < MAXPPN
    requires LeafOf(id, TRAPFRAME) in g.flat && g.flat[LeafOf(id, TRAPFRAME)] == Pte(f, PTE_R + PTE_W + PTE_V)
    requires f < MAXPPN
    ensures Plain(g, id)
  {
    FlagBit(t, PTE_R + PTE_X + PTE_V);
    FlagBit(f, PTE_R + PTE_W + PTE_V);
  }

  lemma FlagBit(p: nat, flags: nat)
    requires p < MAXPPN && flags < 1024
    ensures UserBit(Pte(p, flags)) <==> flags / 16 % 2 == 1
  {
    assert (p * 1024 + flags) / 16 == p * 64 + flags / 16;
    Halves(32 * p, flags / 16);
  }

  /** uvmalloc keeps a space open and its top plain. */
  lemma GrownOpen(mem: Memory, m: Memory, g: Book, r: Book, id: nat, a: nat, b: nat)
    requires Shape(g, id, a, Top(id)) && Shape(r, id, b, Top(id)) && UserKept(mem, m, g, r, id, 0, a)
    requires ZeroPages(m, r, id, a, b)
    requires Open(g, id, a) && Plain(g, id) && a <= b
    requires (forall role | role in g.at :: g.at[role] in mem) && forall role | role in r.at :: r.at[role] < MAXPPN
    ensures Open(r, id, b) && Plain(r, id)
  {
    hide Pte;
    forall v: nat | v < b ensures LeafOf(id, v) in r.flat && UserBit(r.flat[LeafOf(id, v)]) {
      GrownOpenAt(mem, m, g, r, id, a, b, v);
    }
    hide LeafOf;
    assert forall role | role in Top(id) && role in r.flat :: role in g.flat by { TopIn(g, id, a); }
  }

  lemma GrownOpenAt(mem: Memory, m: Memory, g: Book, r: Book, id: nat, a: nat, b: nat, v: nat)
    requires Shape(g, id, a, Top(id)) && UserKept(mem, m, g, r, id, 0, a) && ZeroPages(m, r, id, a, b) && Open(g, id, a)
    requires v < b
    requires (forall role | role in g.at :: g.at[role] in mem) && forall role | role in r.at :: r.at[role] < MAXPPN
    ensures LeafOf(id, v) in r.flat && UserBit(r.flat[LeafOf(id, v)])
  {
    RangeLeaf(id, v);
    Digits(v);
    hide Pte, L0, L1, L2, Top;
    if v < a {
      OwnsLow(g, id, a, Top(id), v);
      assert InRange(LeafOf(id, v), id, 0, a);
    } else {
      assert InRange(LeafOf(id, v), id, a, b);
      assert UserPage(m, r, LeafOf(id, v), WithV(USER), Memset(0));
      FlagBit(r.at[LeafOf(id, v)], WithV(USER));
    }
  }

  lemma OverlaidFrame(mem: Memory, m: Memory, g: Book, id: nat, va: nat, data: seq<Byte>)
    requires Overlaid(mem, m, g, id, va, data)
    ensures Frame(mem, m, g, g, id)
  {
  }

  // ---- loadseg ----

  /** How many of n bytes at off readi finds in a file: none past its end or when off + n wraps. */
  function ReadLen(size: nat, off: nat, n: nat): (k: nat) {
    if off > size || off + n >= UINT then 0 else if off + n > size then size - off else n
  }

  /** readi of one page into the page of va; the number of bytes read. */
  method ReadPage(vm: Vm, pt: nat, va: nat, file: seq<Byte>, off: nat, n: nat, ghost id: nat)
    returns (k: int, panic: bool)
    requires vm.Valid() && Rooted(vm.g, id, pt) && id !in vm.dying && OnlyOwn(vm.g, id) && va % PGSIZE == 0
    requires n <= PGSIZE
    requires Accessible(vm.g, id, va / PGSIZE)
    modifies vm`mem, vm`freelist, vm`g
    ensures !panic && vm.Valid() && vm.g == old(vm.g) && 0 <= k <= n && k == ReadLen(|file|, off, n)
    ensures (k > 0 ==> off + k <= |file|)
    ensures Overlaid(old(vm.mem), vm.mem, vm.g, id, va, Part(file, off, k))
  {
    hide Inv, Rooted, OnlyOwn, Overlaid, LeafOf, PutBytes;
    k, panic := 0, true;
    var pa := vm.WalkAddr(pt, va, id);
    if pa == 0 { return; }
    panic := false;
    k := ReadLen(|file|, off, n);
    var data := if k > 0 then file[off..off + k] else [];
    vm.CopyPage(pa / PGSIZE, 0, data, id, va / PGSIZE);
    assert va == va / PGSIZE * PGSIZE + 0;
  }

  /** The n bytes of the file at off. */
  function Part(file: seq<Byte>, off: nat, n: nat): (b: seq<Byte>) {
    if n > 0 && off + n <= |file| then file[off..off + n] else []
  }

  lemma ReadNone(file: seq<Byte>, off: nat)
    ensures Part(file, off, 0) == []
  {
  }

  lemma ReadNext(file: seq<Byte>, off: nat, m: nat, k: nat)
    requires k > 0 && off + m + k <= |file|
    ensures |Part(file, off, m)| == m && Part(file, off, m) + Part(file, off + m, k) == Part(file, off, m + k)
  {
  }

  lemma SegmentPage(va: nat, i: nat, n: nat)
    requires va % PGSIZE == 0 && i % PGSIZE == 0 && i < n
    ensures (va + i) % PGSIZE == 0 && (va + i) / PGSIZE == va / PGSIZE + i / PGSIZE && i / PGSIZE < Pages(n)
    ensures (i + PGSIZE) % PGSIZE == 0
  {
  }

  /** loadseg: 0 with n bytes of the file from off at va, or -1. */
  method LoadSeg(vm: Vm, pt: nat, va: nat, file: seq<Byte>, off: nat, n: nat, ghost id: nat)
    returns (r: int, panic: bool)
    requires vm.Valid() && Rooted(vm.g, id, pt) && id !in vm.dying && OnlyOwn(vm.g, id) && va % PGSIZE == 0
    requires off < UINT
             && n < UINT && |file| < UINT
    requires forall v: nat | va / PGSIZE <= v < va / PGSIZE + Pages(n) :: Accessible(vm.g, id, v)
    modifies vm`mem, vm`freelist, vm`g
    ensures !panic && vm.Valid() && vm.g == old(vm.g) && (r == 0 || r == -1)
    ensures Frame(old(vm.mem), vm.mem, vm.g, vm.g, id)
    ensures r == 0 <==> n == 0 || off + n <= |file|
    ensures r == 0 ==> Overlaid(old(vm.mem), vm.mem, vm.g, id, va, Part(file, off, n))
  {
    hide Inv, Rooted, OnlyOwn, Overlaid, Accessible, Frame, SameSpace, Pages, Part;
    panic := false;
    var i := 0;
    FrameSame(vm.mem, vm.g, id);
    OverlaidNone(vm.mem, vm.g, id, va);
    ReadNone(file, off);
    ghost var m := 0;
    while i < n
      invariant 0 <= i && i % PGSIZE == 0 && vm.Valid() && vm.g == old(vm.g)
      invariant Frame(old(vm.mem), vm.mem, vm.g, vm.g, id)
      invariant m == (if i < n then i else n) && (m > 0 ==> off + m <= |file|)
      invariant Overlaid(old(vm.mem), vm.mem, vm.g, id, va, Part(file, off, m))
      decreases n - i
    {
      var k := if n - i < PGSIZE then n - i else PGSIZE;
      ghost var m1 := vm.mem;
      SegmentPage(va, i, n);
      var o := (off + i) % UINT;
      assert o == off + i;
      var got;
      got, panic := ReadPage(vm, pt, va + i, file, o, k, id);
      OverlaidFrame(m1, vm.mem, vm.g, id, va + i, Part(file, o, got));
      FrameTwice(old(vm.mem), m1, vm.mem, vm.g, vm.g, vm.g, id);
      if got != k { return -1, panic; }
      ReadNext(file, off, m, k);
      OverlaidTwice(old(vm.mem), m1, vm.mem, vm.g, id, va, Part(file, off, m), Part(file, o, k));
      i, m := i + PGSIZE, m + k;
    }
    r := 0;
  }

  // ---- the new image ----

  /** Space id, with table pt, has n user pages, all open to user code, below its top. */
  ghost predicate Image(g: Book, id: nat, pt: nat, n: nat) {
    Shape(g, id, n, Top(id)) && Rooted(g, id, pt) && Open(g, id, n) && Plain(g, id)
  }

  /** There are free pages for user pages [a, b) of space id and their tables. */
  ghost predicate Enough(g: Book, id: nat, a: nat, b: nat) { |g.free| >= Lack(g, Room(id, a, b)) }

  /** They have been used for that. */
  ghost predicate Spent(g: Book, r: Book, id: nat, a: nat, b: nat) {
    Fills(g, r, Room(id, a, b)) && |g.free| == |r.free| + Lack(g, Room(id, a, b))
  }

  lemma SpentNothing(g: Book, id: nat, a: nat, b: nat)
    requires b <= a
    ensures Spent(g, g, id, a, b) && Enough(g, id, a, b)
  {
    NoRoom(id, a, b);
    FillsNone(g);
  }

  lemma SpentEnough(g: Book, r: Book, id: nat, a: nat, b: nat)
    requires Spent(g, r, id, a, b)
    ensures Enough(g, id, a, b)
  {
  }

  /** What is spent in two steps. */
  lemma SpentTwice(g: Book, h: Book, r: Book, id: nat, a: nat, b: nat, c: nat)
    requires Spent(g, h, id, a, b) && a <= b <= c
    ensures Enough(g, id, a, c) <==> Enough(h, id, b, c)
    ensures Spent(h, r, id, b, c) ==> Spent(g, r, id, a, c)
  {
    hide Room, Fills, Lack;
    RoomJoin(id, a, b, c);
    LackTwice(g, h, Room(id, a, b), Room(id, b, c));
    if Spent(h, r, id, b, c) { FillsTwice(g, h, r, Room(id, a, b), Room(id, b, c)); }
  }

  lemma SpentBoth(g: Book, r: Book, id: nat, a: nat, b: nat, c: nat)
    requires Spent(g, r, id, a, b) && b <= a && c <= a
    ensures Spent(g, r, id, a, c)
  {
    NoRoom(id, a, b);
    NoRoom(id, a, c);
  }

  lemma EnoughLess(g: Book, id: nat, a: nat, b: nat, c: nat)
    requires Enough(g, id, a, c) && b <= c
    ensures Enough(g, id, a, b)
  {
    RoomMore(id, a, b, c);
    LackMore(g, Room(id, a, b), Room(id, a, c));
  }

  /** uvmalloc on an image. */
  method GrowImage(vm: Vm, pt: nat, oldsz: nat, newsz: nat, ghost id: nat) returns (r: nat, panic: bool)
    requires vm.Valid() && vm.dying == {} && Image(vm.g, id, pt, Pages(oldsz))
    modifies vm`mem, vm`freelist, vm`g
    ensures !panic && vm.Valid() && Frame(old(vm.mem), vm.mem, old(vm.g), vm.g, id)
    ensures r == 0 || r == if newsz < oldsz then oldsz else newsz
    ensures Image(vm.g, id, pt, Pages(if r == 0 then oldsz else r))
    ensures SameSpace(old(vm.mem), vm.mem, old(vm.g), vm.g, id) && TopKept(old(vm.g), vm.g, id)
    ensures r == 0 <==> newsz == oldsz == 0 || (newsz >= oldsz && !Enough(old(vm.g), id, Pages(oldsz), Pages(newsz)))
    ensures r != 0 ==> Spent(old(vm.g), vm.g, id, Pages(oldsz), Pages(newsz))
  {
    hide Room, Lack, Fills, Inv, Shape, Frame, UserKept, ZeroPages, Open, Plain, Rooted, Top, SameSpace, TopKept;
    ghost var n := Pages(oldsz);
    r, panic := vm.UvmAlloc(pt, oldsz, newsz, id, Top(id));
    UserTop(old(vm.mem), vm.mem, old(vm.g), vm.g, id, n, n);
    RolesKnown(old(vm.mem), vm.lo, old(vm.freelist), old(vm.g), {});
    RolesKnown(vm.mem, vm.lo, vm.freelist, vm.g, {});
    ghost var m := Pages(if r == 0 then oldsz else r);
    if r == 0 { ZeroNone(vm.mem, vm.g, id, n); }
    GrownOpen(old(vm.mem), vm.mem, old(vm.g), vm.g, id, n, m);
    GrownBytes(old(vm.mem), vm.mem, old(vm.g), vm.g, id, n, m);
  }

  /** Every byte of space id is as it was; where there was no page it is 0. */
  ghost predicate SameSpace(mem: Memory, m: Memory, g: Book, r: Book, id: nat) {
    forall u: nat :: VByte(m, r, id, u) == VByte(mem, g, id, u)
  }

  /** Fresh pages are zero, so growing a space changes no byte. */
  lemma GrownBytes(mem: Memory, m: Memory, g: Book, r: Book, id: nat, a: nat, b: nat)
    requires Shape(g, id, a, Top(id)) && Shape(r, id, b, Top(id)) && UserKept(mem, m, g, r, id, 0, a)
    requires ZeroPages(m, r, id, a, b) && a <= b
    requires forall role | role in g.at :: g.at[role] in mem
    ensures SameSpace(mem, m, g, r, id)
  {
    hide Shape, UserKept, ZeroPages, VByte, Top;
    forall u: nat ensures VByte(m, r, id, u) == VByte(mem, g, id, u) { GrownByte(mem, m, g, r, id, a, b, u); }
  }

  lemma GrownByte(mem: Memory, m: Memory, g: Book, r: Book, id: nat, a: nat, b: nat, u: nat)
    requires Shape(g, id, a, Top(id)) && Shape(r, id, b, Top(id)) && UserKept(mem, m, g, r, id, 0, a)
    requires ZeroPages(m, r, id, a, b) && a <= b
    requires forall role | role in g.at :: g.at[role] in mem
    ensures VByte(m, r, id, u) == VByte(mem, g, id, u)
  {
    var v, role := u / PGSIZE, LeafOf(id, u / PGSIZE);
    RangeLeaf(id, v);
    Digits(v);
    OwnsLow(g, id, a, Top(id), v);
    hide LeafOf, PageByte, VpnOf, Top, L0, L1, L2, Pte;
    if v < a {
      assert InRange(role, id, 0, a);
    } else if v < b {
      assert InRange(role, id, a, b) && !InRange(role, id, 0, a);
      assert UserPage(m, r, role, WithV(USER), Memset(0));
      ZeroByte(u % PGSIZE);
    } else {
      assert !InRange(role, id, 0, a) && !InRange(role, id, 0, b);
    }
  }

  lemma ZeroByte(o: nat)
    requires o < PGSIZE
    ensures PageByte(Memset(0), o) == 0
  {
    ZeroDigit(o % 8);
  }

  lemma {:induction false} ZeroDigit(k: nat)
    ensures Digit(0, k) == 0
  {
    if k > 0 { ZeroDigit(k - 1); }
  }

  // ---- what the program headers ask for ----

  /** A header's bytes laid over byte b at address u. */
  function HeaderByte(ph: ProgHdr, file: seq<Byte>, u: nat, b: Byte): (r: Byte) {
    var off, n := ph.off % UINT, ph.filesz % UINT;
    if ph.load && ph.vaddr <= u < ph.vaddr + n && off + n <= |file| then file[off + (u - ph.vaddr)] else b
  }

  /** The byte at address u of the image: from the last segment that covers it, otherwise 0. */
  function ImageByte(phs: seq<Option<ProgHdr>>, file: seq<Byte>, u: nat): (b: Byte) {
    if phs == [] then 0
    else match phs[|phs| - 1]
         case None => ImageByte(phs[..|phs| - 1], file, u)
         case Some(ph) => HeaderByte(ph, file, u, ImageByte(phs[..|phs| - 1], file, u))
  }

  /** The size of the image: the largest end of a segment. */
  function ImageSize(phs: seq<Option<ProgHdr>>): (n: nat) {
    if phs == [] then 0
    else match phs[|phs| - 1]
         case None => ImageSize(phs[..|phs| - 1])
         case Some(ph) => HeaderEnd(ph, ImageSize(phs[..|phs| - 1]))
  }

  function HeaderEnd(ph: ProgHdr, sz: nat): (n: nat) {
    if ph.load && ph.vaddr + ph.memsz > sz then ph.vaddr + ph.memsz else sz
  }

  /** The end of the k-th header's segment, 0 if it is not to be loaded. */
  function SegmentEnd(phs: seq<Option<ProgHdr>>, k: nat): (n: nat)
    requires k < |phs|
  {
    if phs[k].Some? && phs[k].value.load then phs[k].value.vaddr + phs[k].value.memsz else 0
  }

  /** The image ends where the farthest of its segments does. */
  lemma {:induction false} ImageSizeIs(phs: seq<Option<ProgHdr>>)
    ensures forall k | 0 <= k < |phs| :: SegmentEnd(phs, k) <= ImageSize(phs)
    ensures ImageSize(phs) == 0 || exists k :: 0 <= k < |phs| && SegmentEnd(phs, k) == ImageSize(phs)
  {
    if phs != [] {
      var last, rest := |phs| - 1, phs[..|phs| - 1];
      ImageSizeIs(rest);
      assert forall k | 0 <= k < last :: SegmentEnd(phs, k) == SegmentEnd(rest, k);
      assert SegmentEnd(phs, last) <= ImageSize(phs);
    }
  }

  /** The file bytes of the k-th header's segment include the byte at address u. */
  predicate Supplies(phs: seq<Option<ProgHdr>>, file: seq<Byte>, k: nat, u: nat)
    requires k < |phs|
  {
    && phs[k].Some? && phs[k].value.load && phs[k].value.filesz % UINT + phs[k].value.off % UINT <= |file|
    && phs[k].value.vaddr <= u < phs[k].value.vaddr + phs[k].value.filesz % UINT
  }

  /** A byte that some segment supplies is that of the last one that does. */
  lemma {:induction false} ImageByteIs(phs: seq<Option<ProgHdr>>, file: seq<Byte>, u: nat, k: nat)
    requires k < |phs| && Supplies(phs, file, k, u) && forall j | k < j < |phs| :: !Supplies(phs, file, j, u)
    ensures ImageByte(phs, file, u) == file[phs[k].value.off % UINT + u - phs[k].value.vaddr]
  {
    var last, rest := |phs| - 1, phs[..|phs| - 1];
    assert forall j | 0 <= j < last :: Supplies(rest, file, j, u) == Supplies(phs, file, j, u);
    if k < last {
      assert !Supplies(phs, file, last, u);
      ImageByteIs(rest, file, u, k);
    }
  }

  /** A byte that none supplies is 0. */
  lemma {:induction false} ImageByteZero(phs: seq<Option<ProgHdr>>, file: seq<Byte>, u: nat)
    requires forall j | 0 <= j < |phs| :: !Supplies(phs, file, j, u)
    ensures ImageByte(phs, file, u) == 0
  {
    if phs != [] {
      var last, rest := |phs| - 1, phs[..|phs| - 1];
      assert forall j | 0 <= j < last :: Supplies(rest, file, j, u) == Supplies(phs, file, j, u);
      assert !Supplies(phs, file, last, u);
      ImageByteZero(rest, file, u);
    }
  }

  /**
   * exec accepts the header when the image so far has size sz: sizes that do not shrink or wrap, an aligned address,
   * and a file long enough. A segment that ends at 0 is refused while the image is empty, since uvmalloc returns 0.
   */
  predicate HeaderOk(ph: ProgHdr, sz: nat, file: seq<Byte>) {
    var off, n := ph.off % UINT, ph.filesz % UINT;
    ph.load ==>
      && ph.filesz <= ph.memsz && ph.vaddr + ph.memsz < UINT64 && !(ph.vaddr + ph.memsz == sz == 0)
      && ph.vaddr % PGSIZE == 0 && (n == 0 || off + n <= |file|)
  }

  /** A segment without bytes at address 0 is refused exactly while the image is empty. */
  lemma EmptySegment(sz: nat, file: seq<Byte>)
    ensures HeaderOk(ProgHdr(true, 0, 0, 0, 0), sz, file) <==> sz > 0
    ensures HeaderEnd(ProgHdr(true, 0, 0, 0, 0), sz) == sz
  {
  }

  predicate HeaderOkAt(phs: seq<Option<ProgHdr>>, file: seq<Byte>, k: nat)
    requires k < |phs|
  {
    phs[k].Some? && HeaderOk(phs[k].value, ImageSize(phs[..k]), file)
  }

  /** All headers can be read and are accepted. */
  predicate HeadersOk(phs: seq<Option<ProgHdr>>, file: seq<Byte>) {
    forall k | 0 <= k < |phs| :: HeaderOkAt(phs, file, k)
  }

  lemma {:induction false} ImageGrows(phs: seq<Option<ProgHdr>>, k: nat)
    requires k <= |phs|
    ensures ImageSize(phs[..k]) <= ImageSize(phs)
    decreases |phs| - k
  {
    if k < |phs| {
      ImageGrows(phs, k + 1);
      assert phs[..k + 1][..k] == phs[..k];
    } else {
      assert phs[..k] == phs;
    }
  }

  ghost predicate HeaderLoaded(mem: Memory, m: Memory, g: Book, r: Book, id: nat, ph: ProgHdr, file: seq<Byte>) {
    forall u: nat :: VByte(m, r, id, u) == HeaderByte(ph, file, u, VByte(mem, g, id, u))
  }

  ghost predicate ImageIs(mem: Memory, g: Book, id: nat, phs: seq<Option<ProgHdr>>, file: seq<Byte>) {
    forall u: nat :: VByte(mem, g, id, u) == ImageByte(phs, file, u)
  }

  lemma NotLoaded(mem: Memory, g: Book, id: nat, ph: ProgHdr, file: seq<Byte>)
    requires !ph.load
    ensures HeaderLoaded(mem, mem, g, g, id, ph, file)
  {
    hide VByte;
  }

  lemma LoadedHeader(mem: Memory, m1: Memory, m: Memory, g: Book, r: Book, id: nat, ph: ProgHdr, file: seq<Byte>)
    requires ph.load && SameSpace(mem, m1, g, r, id)
    requires var off, n := ph.off % UINT, ph.filesz % UINT;
             (n == 0 || off + n <= |file|) && Overlaid(m1, m, r, id, ph.vaddr, Part(file, off, n))
    ensures HeaderLoaded(mem, m, g, r, id, ph, file)
  {
    hide VByte;
  }

  lemma ImageNone(g: Book, mem: Memory, id: nat, file: seq<Byte>)
    requires Shape(g, id, 0, Top(id))
    ensures ImageIs(mem, g, id, [], file)
  {
    forall u: nat ensures VByte(mem, g, id, u) == 0 { RangeLeaf(id, u / PGSIZE); }
  }

  lemma ImageNext(mem: Memory, m: Memory, g: Book, r: Book, id: nat, phs: seq<Option<ProgHdr>>, k: nat, file: seq<Byte>)
    requires k < |phs| && phs[k].Some? && ImageIs(mem, g, id, phs[..k], file)
    requires HeaderLoaded(mem, m, g, r, id, phs[k].value, file)
    ensures ImageIs(m, r, id, phs[..k + 1], file)
    ensures ImageSize(phs[..k + 1]) == HeaderEnd(phs[k].value, ImageSize(phs[..k]))
  {
    hide VByte, HeaderByte, HeaderEnd;
    assert phs[..k + 1][..k] == phs[..k];
  }

  /** One program header: its segment mapped and read. */
  method LoadHeader(vm: Vm, pt: nat, sz: nat, ph: ProgHdr, file: seq<Byte>, ghost id: nat)
    returns (ok: bool, sz1: nat, panic: bool)
    requires vm.Valid() && vm.dying == {} && Image(vm.g, id, pt, Pages(sz)) && |file| < UINT
    requires ph.vaddr < UINT64 && ph.memsz < UINT64 && ph.filesz < UINT64
    modifies vm`mem, vm`freelist, vm`g
    ensures !panic && vm.Valid() && Frame(old(vm.mem), vm.mem, old(vm.g), vm.g, id) && Image(vm.g, id, pt, Pages(sz1))
    ensures ok ==> sz1 == HeaderEnd(ph, sz) && HeaderLoaded(old(vm.mem), vm.mem, old(vm.g), vm.g, id, ph, file)
    ensures ok <==> HeaderOk(ph, sz, file) && Enough(old(vm.g), id, Pages(sz), Pages(HeaderEnd(ph, sz)))
    ensures ok ==> Spent(old(vm.g), vm.g, id, Pages(sz), Pages(HeaderEnd(ph, sz)))
    ensures TopKept(old(vm.g), vm.g, id)
  {
    hide Inv, Frame, Image, HeaderLoaded, SameSpace, Overlaid, Enough, Spent, Tr;
    FrameSame(vm.mem, vm.g, id);
    SpentNothing(vm.g, id, Pages(sz), Pages(sz));
    if !ph.load { NotLoaded(vm.mem, vm.g, id, ph, file); }
    panic, sz1 := false, sz;
    if !ph.load { return true, sz, false; }
    if ph.memsz < ph.filesz { return false, sz, false; }
    var end := (ph.vaddr + ph.memsz) % UINT64;
    if end < ph.vaddr { return false, sz, false; }
    if end < sz { SpentNothing(vm.g, id, Pages(sz), Pages(end)); }
    var r;
    r, panic := GrowImage(vm, pt, sz, end, id);
    if r == 0 { return false, sz, panic; }
    if end < sz { SpentBoth(old(vm.g), vm.g, id, Pages(sz), Pages(end), Pages(sz)); }
    sz1 := r;
    if ph.vaddr % PGSIZE != 0 { return false, sz1, panic; }
    var n := ph.filesz % UINT;
    SegmentOpen(vm.mem, vm.lo, vm.freelist, vm.g, id, pt, ph.vaddr, n, sz1);
    ghost var m1, g1 := vm.mem, vm.g;
    var o;
    o, panic := LoadSeg(vm, pt, ph.vaddr, file, ph.off % UINT, n, id);
    FrameTwice(old(vm.mem), m1, vm.mem, old(vm.g), g1, vm.g, id);
    ok := o == 0;
    if ok {
      LoadedHeader(old(vm.mem), m1, vm.mem, old(vm.g), vm.g, id, ph, file);
    }
  }

  /** The bytes at a virtual address. */
  ghost predicate BytesAt(mem: Memory, g: Book, id: nat, va: nat, data: seq<Byte>) {
    forall k | 0 <= k < |data| :: VByte(mem, g, id, va + k) == data[k]
  }

  lemma Laid(mem: Memory, m: Memory, g: Book, id: nat, va: nat, data: seq<Byte>)
    requires Overlaid(mem, m, g, id, va, data)
    ensures BytesAt(m, g, id, va, data)
  {
  }

  /** What is written below bytes leaves them alone. */
  lemma StillThere(mem: Memory, m: Memory, g: Book, id: nat, va: nat, data: seq<Byte>, there: nat, kept: seq<Byte>)
    requires Overlaid(mem, m, g, id, va, data) && BytesAt(mem, g, id, there, kept) && va + |data| <= there
    ensures BytesAt(m, g, id, there, kept)
  {
  }

  /** The pages of a segment that ends at or below sz are there for loadseg. */
  lemma SegmentOpen(mem: Memory, lo: nat, head: nat, g: Book, id: nat, pt: nat, va: nat, n: nat, sz: nat)
    requires Inv(mem, lo, head, g, {}) && Image(g, id, pt, Pages(sz)) && va % PGSIZE == 0 && va + n <= sz
    ensures Rooted(g, id, pt) && OnlyOwn(g, id)
    ensures forall v: nat | va / PGSIZE <= v < va / PGSIZE + Pages(n) :: Accessible(g, id, v)
  {
    hide Inv, Shape, Open, Plain, Accessible;
    FewPages(mem, lo, head, g, {}, id, Pages(sz), Top(id));
    PlainOnlyOwn(g, id, Pages(sz));
    forall v: nat | va / PGSIZE <= v < va / PGSIZE + Pages(n) ensures Accessible(g, id, v) {
      assert va / PGSIZE + Pages(n) <= Pages(sz);
      OpenAccess(g, id, Pages(sz), Pages(sz), v);
    }
  }

  /** exec's loop over the program headers. */
  method LoadProgram(vm: Vm, pt: nat, elf: Elf, file: seq<Byte>, ghost id: nat) returns (ok: bool, sz: nat, panic: bool)
    requires vm.Valid() && vm.dying == {} && Image(vm.g, id, pt, 0) && |file| < UINT
    requires forall k | 0 <= k < |elf.phs| && elf.phs[k].Some? ::
               elf.phs[k].value.vaddr < UINT64 && elf.phs[k].value.memsz < UINT64 && elf.phs[k].value.filesz < UINT64
    modifies vm`mem, vm`freelist, vm`g
    ensures !panic && vm.Valid() && Frame(old(vm.mem), vm.mem, old(vm.g), vm.g, id) && Image(vm.g, id, pt, Pages(sz))
    ensures ok ==> sz == ImageSize(elf.phs) && ImageIs(vm.mem, vm.g, id, elf.phs, file)
    ensures ok <==> HeadersOk(elf.phs, file) && Enough(old(vm.g), id, 0, Pages(ImageSize(elf.phs)))
    ensures ok ==> Spent(old(vm.g), vm.g, id, 0, Pages(ImageSize(elf.phs)))
    ensures TopKept(old(vm.g), vm.g, id)
  {
    hide Inv, Frame, Image, ImageIs, ImageSize, HeaderLoaded, HeaderEnd, HeaderOk, Shape, Enough, Spent, Tr;
    FrameSame(vm.mem, vm.g, id);
    ok, sz, panic := true, 0, false;
    ImageShape(vm.g, id, pt, 0);
    ImageNone(vm.g, vm.mem, id, file);
    NoSize();
    SpentNothing(vm.g, id, 0, 0);
    assert elf.phs[..0] == [];
    for k := 0 to |elf.phs|
      invariant !panic && vm.Valid() && vm.dying == {} && Frame(old(vm.mem), vm.mem, old(vm.g), vm.g, id)
      invariant Image(vm.g, id, pt, Pages(sz)) && TopKept(old(vm.g), vm.g, id)
      invariant ok && sz == ImageSize(elf.phs[..k]) && ImageIs(vm.mem, vm.g, id, elf.phs[..k], file)
      invariant (forall j | 0 <= j < k :: HeaderOkAt(elf.phs, file, j)) && Spent(old(vm.g), vm.g, id, 0, Pages(sz))
    {
      if elf.phs[k].None? {
        assert !HeaderOkAt(elf.phs, file, k);
        return false, sz, false;
      }
      ghost var m1, g1, n, end := vm.mem, vm.g, Pages(sz), Pages(ImageSize(elf.phs[..k + 1]));
      SizeNext(elf.phs, k);
      ok, sz, panic := LoadHeader(vm, pt, sz, elf.phs[k].value, file, id);
      FrameTwice(old(vm.mem), m1, vm.mem, old(vm.g), g1, vm.g, id);
      SpentTwice(old(vm.g), g1, vm.g, id, 0, n, end);
      if !ok {
        if HeaderOkAt(elf.phs, file, k) { ShortOf(old(vm.g), id, elf.phs, k + 1); }
        return;
      }
      ImageNext(m1, vm.mem, g1, vm.g, id, elf.phs, k, file);
    }
    assert elf.phs[..|elf.phs|] == elf.phs;
    SpentEnough(old(vm.g), vm.g, id, 0, Pages(sz));
  }

  lemma SizeNext(phs: seq<Option<ProgHdr>>, k: nat)
    requires k < |phs| && phs[k].Some?
    ensures ImageSize(phs[..k + 1]) == HeaderEnd(phs[k].value, ImageSize(phs[..k]))
    ensures Pages(ImageSize(phs[..k])) <= Pages(ImageSize(phs[..k + 1]))
  {
    assert phs[..k + 1][..k] == phs[..k];
  }

  /** Too few pages for some of the headers are too few for all. */
  lemma ShortOf(g: Book, id: nat, phs: seq<Option<ProgHdr>>, k: nat)
    requires k <= |phs| && !Enough(g, id, 0, Pages(ImageSize(phs[..k])))
    ensures !Enough(g, id, 0, Pages(ImageSize(phs)))
  {
    hide Enough, ImageSize;
    ImageGrows(phs, k);
    var n, m := Pages(ImageSize(phs[..k])), Pages(ImageSize(phs));
    assert n <= m;
    if Enough(g, id, 0, m) { EnoughLess(g, id, 0, n, m); }
  }

  lemma NoSize()
    ensures ImageSize([]) == 0
  {
  }

  // ---- the argument stack ----

  const PTRSIZE := 8

  /** The bytes of an array of words. */
  function Words(q: seq<nat>): (b: seq<Byte>)
    ensures |b| == PTRSIZE * |q|
  {
    if q == [] then [] else Bytes(q[0], PTRSIZE) + Words(q[1..])
  }

  lemma {:induction false} WordIn(q: seq<nat>, k: nat)
    requires k < |q|
    ensures Words(q)[PTRSIZE * k..PTRSIZE * k + PTRSIZE] == Bytes(q[k], PTRSIZE)
  {
    hide Bytes;
    if k > 0 {
      WordIn(q[1..], k - 1);
      assert Words(q)[PTRSIZE * k..PTRSIZE * k + PTRSIZE] ==
          Words(q[1..])[PTRSIZE * (k - 1)..PTRSIZE * (k - 1) + PTRSIZE];
    }
  }

  /** Where the string before number k starts. */
  function Above(ustack: seq<nat>, top: nat, k: nat): (a: nat)
    requires k <= |ustack|
  {
    if k == 0 then top else ustack[k - 1]
  }

  /** String k of the arguments, with its NUL, is at ustack[k]: aligned, above base, below the string before it. */
  ghost predicate ArgAt(mem: Memory, g: Book, id: nat, argv: seq<seq<Byte>>, ustack: seq<nat>, base: nat, top: nat,
                        k: nat)
    requires k < |ustack| <= |argv|
  {
    && ustack[k] % 16 == 0 && base <= ustack[k] && ustack[k] + |argv[k]| + 1 <= Above(ustack, top, k)
    && BytesAt(mem, g, id, ustack[k], argv[k] + [0])
  }

  ghost predicate ArgsAt(mem: Memory, g: Book, id: nat, argv: seq<seq<Byte>>, ustack: seq<nat>, base: nat, top: nat) {
    |ustack| <= |argv| && forall k | 0 <= k < |ustack| :: ArgAt(mem, g, id, argv, ustack, base, top, k)
  }

  /** The lowest address in use. */
  lemma {:induction false} LowestLast(mem: Memory, g: Book, id: nat, argv: seq<seq<Byte>>, ustack: seq<nat>, base: nat,
                                      top: nat, k: nat)
    requires ArgsAt(mem, g, id, argv, ustack, base, top) && k < |ustack|
    ensures Above(ustack, top, |ustack|) <= ustack[k]
    decreases |ustack| - k
  {
    if k + 1 < |ustack| {
      LowestLast(mem, g, id, argv, ustack, base, top, k + 1);
      assert ArgAt(mem, g, id, argv, ustack, base, top, k + 1);
    }
  }

  lemma ArgsNext(mem: Memory, m: Memory, g: Book, id: nat, argv: seq<seq<Byte>>, ustack: seq<nat>, base: nat, top: nat,
                 sp: nat)
    requires ArgsAt(mem, g, id, argv, ustack, base, top) && |ustack| < |argv| && sp % 16 == 0 && base <= sp
    requires sp + |argv[|ustack|]| + 1 <= Above(ustack, top, |ustack|)
    requires Overlaid(mem, m, g, id, sp, argv[|ustack|] + [0])
    ensures ArgsAt(m, g, id, argv, ustack + [sp], base, top)
  {
    hide Overlaid, BytesAt;
    var r, n := ustack + [sp], |ustack|;
    forall k | 0 <= k < |r| ensures ArgAt(m, g, id, argv, r, base, top, k) {
      if k < n {
        assert ArgAt(mem, g, id, argv, ustack, base, top, k);
        LowestLast(mem, g, id, argv, ustack, base, top, k);
        assert Above(r, top, k) == Above(ustack, top, k);
        StillThere(mem, m, g, id, sp, argv[n] + [0], ustack[k], argv[k] + [0]);
      } else {
        Laid(mem, m, g, id, sp, argv[n] + [0]);
      }
    }
  }

  lemma ArgsStay(mem: Memory, m: Memory, g: Book, id: nat, argv: seq<seq<Byte>>, ustack: seq<nat>, base: nat, top: nat,
                 sp: nat,
      data: seq<Byte>)
    requires ArgsAt(mem, g, id, argv, ustack, base, top) && sp + |data| <= Above(ustack, top, |ustack|)
    requires Overlaid(mem, m, g, id, sp, data)
    ensures ArgsAt(m, g, id, argv, ustack, base, top)
  {
    hide Overlaid, BytesAt;
    forall k | 0 <= k < |ustack| ensures ArgAt(m, g, id, argv, ustack, base, top, k) {
      assert ArgAt(mem, g, id, argv, ustack, base, top, k);
      LowestLast(mem, g, id, argv, ustack, base, top, k);
      StillThere(mem, m, g, id, sp, data, ustack[k], argv[k] + [0]);
    }
  }

  /** Down to the next multiple of 16. */
  function Align(a: int): (r: int)
    ensures r % 16 == 0 && a - 16 < r <= a
  {
    a - a % 16
  }

  const LONGEST := 0x8000_0000_0000_0000

  /** No kernel string has 2^63 bytes, and the array of MAXARG pointers has room for the null that ends it. */
  predicate Given(argv: seq<seq<Byte>>) {
    |argv| != MAXARG && forall k | 0 <= k < |argv| :: |argv[k]| < LONGEST
  }

  /** The strings and the pointer array fit into the page below top. */
  predicate Fits(argv: seq<seq<Byte>>, top: nat) {
    |argv| < MAXARG && Bottom(argv, top) >= top - PGSIZE
  }

  /** The stack pointer after the strings of argv. */
  function Down(argv: seq<seq<Byte>>, top: int): (sp: int) {
    if argv == [] then top else Align(Down(argv[..|argv| - 1], top) - (|argv[|argv| - 1]| + 1))
  }

  /** The stack pointer after the strings and the pointer array. */
  function Bottom(argv: seq<seq<Byte>>, top: int): (sp: int) {
    Align(Down(argv, top) - 8 * (|argv| + 1))
  }

  /** n rounded up to a multiple of 16. */
  function Rounded(n: nat): (r: nat) { (n + 15) / 16 * 16 }

  /** What the strings take on the stack, each with its NUL and rounded up. */
  function StringBytes(argv: seq<seq<Byte>>): (n: nat) {
    if argv == [] then 0 else StringBytes(argv[..|argv| - 1]) + Rounded(|argv[|argv| - 1]| + 1)
  }

  lemma {:induction false} DownIs(argv: seq<seq<Byte>>, top: int)
    requires top % 16 == 0
    ensures Down(argv, top) == top - StringBytes(argv) && Down(argv, top) % 16 == 0
  {
    if argv != [] {
      DownIs(argv[..|argv| - 1], top);
      RoundsDown(Down(argv[..|argv| - 1], top), |argv[|argv| - 1]| + 1);
    }
  }

  lemma RoundsDown(a: int, n: nat)
    requires a % 16 == 0
    ensures Align(a - n) == a - Rounded(n) && (a - Rounded(n)) % 16 == 0
  {
  }

  /** The arguments fit exactly when there are fewer than MAXARG and all they take, rounded up, is at most a page. */
  lemma FitsIff(argv: seq<seq<Byte>>, top: nat)
    requires top % 16 == 0
    ensures Fits(argv, top) <==> |argv| < MAXARG && StringBytes(argv) + Rounded(8 * (|argv| + 1)) <= PGSIZE
  {
    DownIs(argv, top);
    RoundsDown(Down(argv, top), 8 * (|argv| + 1));
  }

  lemma {:induction false} DownLess(argv: seq<seq<Byte>>, top: int, k: nat)
    requires k <= |argv|
    ensures Down(argv, top) <= Down(argv[..k], top)
    decreases |argv| - k
  {
    if k < |argv| {
      DownLess(argv, top, k + 1);
      assert argv[..k + 1][..k] == argv[..k];
    } else {
      assert argv[..k] == argv;
    }
  }

  lemma DownNext(argv: seq<seq<Byte>>, top: int, k: nat)
    requires k < |argv|
    ensures Down(argv[..k + 1], top) == Align(Down(argv[..k], top) - (|argv[k]| + 1))
  {
    assert argv[..k + 1][..k] == argv[..k];
  }

  /**
   * exec's argument loop and the pointer array: strings from the top of the stack page down, then the array.
   * It succeeds exactly when there are fewer than MAXARG strings and all of it fits into the page.
   */
  method PushArgs(vm: Vm, pt: nat, top: nat, argv: seq<seq<Byte>>, ghost id: nat)
    returns (ok: bool, sp: nat, ustack: seq<nat>)
    requires vm.Valid() && Rooted(vm.g, id, pt) && id !in vm.dying && OnlyOwn(vm.g, id) && top % PGSIZE == 0
             && 2 * PGSIZE <= top < MAXVPN * PGSIZE
    requires Given(argv) && Accessible(vm.g, id, top / PGSIZE - 1)
    modifies vm`mem, vm`freelist, vm`g
    ensures vm.Valid() && vm.g == old(vm.g) && Frame(old(vm.mem), vm.mem, vm.g, vm.g, id)
    ensures ok <==> Fits(argv, top)
    ensures ok ==> |ustack| == |argv| && ArgsAt(vm.mem, vm.g, id, argv, ustack, top - PGSIZE, top)
    ensures ok ==> sp % 16 == 0 && top - PGSIZE <= sp && sp + 8 * (|argv| + 1) <= Above(ustack, top, |ustack|)
    ensures ok ==> BytesAt(vm.mem, vm.g, id, sp, Words(ustack + [0]))
    ensures ok ==> BytesBelow(old(vm.mem), vm.mem, vm.g, vm.g, id, top - PGSIZE)
  {
    hide Inv, Rooted, OnlyOwn, Overlaid, Accessible, Frame, ArgAt, BytesAt, Down, Words, Align, BytesBelow;
    BelowNothing(vm.mem, vm.g, id, top - PGSIZE);
    FrameSame(vm.mem, vm.g, id);
    var base := top - PGSIZE;
    sp, ustack := top, [];
    DownNone(top);
    assert argv[..0] == [];
    while |ustack| < |argv|
      invariant |ustack| <= |argv| && |ustack| <= MAXARG && vm.Valid() && vm.g == old(vm.g)
      invariant Frame(old(vm.mem), vm.mem, vm.g, vm.g, id)
      invariant BytesBelow(old(vm.mem), vm.mem, vm.g, vm.g, id, base)
      invariant ArgsAt(vm.mem, vm.g, id, argv, ustack, base, top) && sp == Above(ustack, top, |ustack|)
      invariant base <= sp <= top && sp % 16 == 0
      invariant sp == Down(argv[..|ustack|], top)
    {
      if |ustack| >= MAXARG { return false, sp, ustack; }
      var s := argv[|ustack|];
      var a := Align(Sub(sp, |s| + 1));
      DownNext(argv, top, |ustack|);
      DownLess(argv, top, |ustack| + 1);
      Lowered(sp, |s| + 1, top);
      if a < base { return false, sp, ustack; }
      ghost var m1 := vm.mem;
      ok := PushOne(vm, pt, a, s + [0], top, id);
      FrameTwice(old(vm.mem), m1, vm.mem, vm.g, vm.g, vm.g, id);
      if !ok { return false, sp, ustack; }
      ArgsNext(m1, vm.mem, vm.g, id, argv, ustack, base, top, a);
      BelowNext(old(vm.mem), m1, vm.mem, vm.g, id, base, a, s + [0]);
      ustack := ustack + [a];
      sp := a;
    }
    assert argv[..|ustack|] == argv;
    var words := Words(ustack + [0]);
    var bottom := Align(sp - |words|);
    if bottom < base { return false, sp, ustack; }
    sp := bottom;
    ghost var m1 := vm.mem;
    ok := PushOne(vm, pt, sp, words, top, id);
    FrameTwice(old(vm.mem), m1, vm.mem, vm.g, vm.g, vm.g, id);
    ArgsStay(m1, vm.mem, vm.g, id, argv, ustack, base, top, sp, words);
    Laid(m1, vm.mem, vm.g, id, sp, words);
    BelowNext(old(vm.mem), m1, vm.mem, vm.g, id, base, sp, words);
  }

  /** Subtraction of unsigned 64-bit numbers. */
  function Sub(a: nat, n: nat): (r: nat) { (a - n) % UINT64 }

  /** Lowering the stack pointer past 0 wraps to an address no page can have. */
  lemma Lowered(sp: nat, n: nat, top: nat)
    requires PGSIZE <= sp <= top < MAXVPN * PGSIZE && n <= LONGEST
    ensures n <= sp ==> Align(Sub(sp, n)) == Align(sp - n)
    ensures n > sp ==> Align(Sub(sp, n)) >= MAXVPN * PGSIZE && Align(sp - n) < 0
  {
    if n > sp {
      assert sp - n == -1 * UINT64 + (UINT64 + sp - n);
      assert Sub(sp, n) == UINT64 + sp - n;
    }
  }

  lemma BelowNothing(mem: Memory, g: Book, id: nat, lim: nat)
    ensures BytesBelow(mem, mem, g, g, id, lim)
  {
  }

  lemma BelowNext(mem: Memory, m1: Memory, m: Memory, g: Book, id: nat, lim: nat, a: nat, data: seq<Byte>)
    requires BytesBelow(mem, m1, g, g, id, lim) && Overlaid(m1, m, g, id, a, data) && lim <= a
    ensures BytesBelow(mem, m, g, g, id, lim)
  {
    hide VByte;
  }

  lemma DownNone(top: int)
    ensures Down([], top) == top
  {
  }

  lemma StackPage(a: nat, n: nat, top: nat)
    requires top % PGSIZE == 0 && top >= PGSIZE && top - PGSIZE <= a && a + n <= top
    ensures forall u: nat | a <= u < a + n :: u / PGSIZE == top / PGSIZE - 1
  {
  }

  /** A copyout into the stack page, which cannot fail, or to an address past all pages, which must. */
  method PushOne(vm: Vm, pt: nat, a: nat, data: seq<Byte>, top: nat, ghost id: nat) returns (ok: bool)
    requires vm.Valid() && Rooted(vm.g, id, pt) && id !in vm.dying && OnlyOwn(vm.g, id) && top % PGSIZE == 0
             && PGSIZE <= top < MAXVPN * PGSIZE
    requires Accessible(vm.g, id, top / PGSIZE - 1) && data != []
    requires (a >= MAXVPN * PGSIZE || (top - PGSIZE <= a && a + |data| <= top))
    modifies vm`mem, vm`freelist, vm`g
    ensures vm.Valid() && vm.g == old(vm.g) && Frame(old(vm.mem), vm.mem, vm.g, vm.g, id)
    ensures ok <==> a < MAXVPN * PGSIZE
    ensures ok ==> Overlaid(old(vm.mem), vm.mem, vm.g, id, a, data)
  {
    hide Inv, Rooted, OnlyOwn, Overlaid, Accessible, Frame;
    if a < MAXVPN * PGSIZE { StackPage(a, |data|, top); } else { NoPage(vm.g, id, a); }
    var r;
    ghost var n;
    r, n := vm.CopyOut(pt, a, data, id);
    if r == 0 { assert data[..n] == data; }
    OverlaidFrame(old(vm.mem), vm.mem, vm.g, id, a, data[..n]);
    ok := r == 0;
  }

  lemma NoPage(g: Book, id: nat, a: nat)
    requires a >= MAXVPN * PGSIZE
    ensures !Accessible(g, id, a / PGSIZE)
  {
  }

  // ---- exec ----

  /** Everything exec leaves for main: the strings, the array of their addresses, and sp, all in the stack page. */
  ghost predicate MainStack(mem: Memory, g: Book, id: nat, argv: seq<seq<Byte>>, ustack: seq<nat>, sp: nat, top: nat) {
    && top % PGSIZE == 0 && top >= 2 * PGSIZE
    && |ustack| == |argv| && ArgsAt(mem, g, id, argv, ustack, top - PGSIZE, top)
    && sp % 16 == 0 && top - PGSIZE <= sp && sp + PTRSIZE * (|argv| + 1) <= Above(ustack, top, |ustack|)
    && BytesAt(mem, g, id, sp, Words(ustack + [0]))
    && Accessible(g, id, top / PGSIZE - 1) && !Accessible(g, id, top / PGSIZE - 2) && OnlyOwn(g, id)
  }

  /** The program as its headers describe it, below a guard page and the stack page. */
  ghost predicate Program(mem: Memory, g: Book, id: nat, phs: seq<Option<ProgHdr>>, file: seq<Byte>, sz: nat) {
    && sz == (Pages(ImageSize(phs)) + 2) * PGSIZE
    && forall u: nat | u < sz - PGSIZE :: VByte(mem, g, id, u) == ImageByte(phs, file, u)
  }

  lemma ProgramBuilt(mem: Memory, m: Memory, g: Book, r: Book, id: nat, phs: seq<Option<ProgHdr>>, file: seq<Byte>,
                     sz: nat)
    requires ImageIs(mem, g, id, phs, file) && sz == (Pages(ImageSize(phs)) + 2) * PGSIZE
    requires BytesBelow(mem, m, g, r, id, sz - PGSIZE)
    ensures Program(m, r, id, phs, file, sz)
  {
    hide VByte, ImageByte, ImageSize;
  }

  /** Freeing another space leaves the program alone. */
  lemma ProgramKept(mem: Memory, m: Memory, g: Book, r: Book, other: nat, id: nat, phs: seq<Option<ProgHdr>>,
                    file: seq<Byte>, sz: nat)
    requires Frame(mem, m, g, r, other) && other != id && Program(mem, g, id, phs, file, sz)
    requires forall role | role in g.at :: g.at[role] in g.own && g.own[g.at[role]] == role && g.at[role] in mem
    ensures Program(m, r, id, phs, file, sz)
  {
    hide Frame, VByte, ImageByte, ImageSize;
    forall u: nat | u < sz - PGSIZE
      ensures VByte(m, r, id, u) == VByte(mem, g, id, u)
    {
      BytesKept(mem, m, g, r, other, id, u);
    }
  }

  /** The user pages of a program: its image, the guard page and the stack page. */
  function ProgramPages(elf: Elf): (n: nat) { Pages(ImageSize(elf.phs)) + 2 }

  /** Every header is accepted, and the arguments fit into the stack page. */
  predicate Loadable(elf: Elf, file: seq<Byte>, argv: seq<seq<Byte>>) {
    HeadersOk(elf.phs, file) && Fits(argv, ProgramPages(elf) * PGSIZE)
  }

  /** The image exec builds for a program and its arguments; on failure it is freed again. */
  method Build(vm: Vm, trampoline: nat, trapframe: nat, elf: Elf, file: seq<Byte>, argv: seq<seq<Byte>>, ghost id: nat)
    returns (ok: bool, pt: nat, sz: nat, sp: nat, ghost ustack: seq<nat>, panic: bool)
    requires trampoline / PGSIZE + MAXVPN <= MAXPPN && trapframe / PGSIZE + MAXVPN <= MAXPPN && |file| < UINT
    requires Given(argv)
    requires forall k | 0 <= k < |elf.phs| && elf.phs[k].Some? ::
               elf.phs[k].value.vaddr < UINT64 && elf.phs[k].value.memsz < UINT64 && elf.phs[k].value.filesz < UINT64
    requires vm.Valid() && vm.dying == {} && Root(id) !in vm.g.at
    modifies vm
    ensures !panic && vm.Valid() && vm.dying == {} && Frame(old(vm.mem), vm.mem, old(vm.g), vm.g, id)
    ensures !ok ==> SamePages(old(vm.g), vm.g)
    ensures ok ==>
              && Shape(vm.g, id, Pages(sz), Top(id))
              && Rooted(vm.g, id, pt)
              && MainStack(vm.mem, vm.g, id, argv, ustack, sp, sz)
    ensures ok ==> Program(vm.mem, vm.g, id, elf.phs, file, sz)
    ensures ok <==> Loadable(elf, file, argv) && |old(vm.g).free| >= 3 + Cost(ProgramPages(elf))
    ensures ok ==> Topped(vm.g, id, trampoline / PGSIZE, trapframe / PGSIZE)
  {
    hide Inv, Frame, Image, Freed, SamePages, Shape, MainStack, Top, Program, ImageIs, ImageSize, BytesBelow,
      Enough, Spent, Topped, TopKept, Cost, Fills, TopRoom, HeadersOk, Fits;
    NewSpace(vm.mem, vm.lo, vm.freelist, vm.g, {}, id);
    NoRoles(vm.mem, vm.lo, vm.freelist, vm.g, {}, id);
    sz, sp, ustack := 0, 0, [];
    pt, panic := vm.ProcPagetable(trampoline, trapframe, id);
    if pt == 0 {
      FrameKeys(old(vm.mem), vm.mem, old(vm.g), vm.g, id);
      SameAs(old(vm.g), vm.g);
      return false, pt, sz, sp, ustack, panic;
    }
    ghost var m1, g1, n := vm.mem, vm.g, Pages(ImageSize(elf.phs));
    EnoughIs(vm.mem, vm.lo, vm.freelist, old(vm.g), vm.g, id, n + 2);
    StartImage(vm.g, id, pt, trampoline / PGSIZE, trapframe / PGSIZE);
    ok, sz, panic := LoadProgram(vm, pt, elf, file, id);
    FrameTwice(old(vm.mem), m1, vm.mem, old(vm.g), g1, vm.g, id);
    ToppedOn(g1, vm.g, id, trampoline / PGSIZE, trapframe / PGSIZE);
    if !ok && HeadersOk(elf.phs, file) && Enough(g1, id, 0, n + 2) { EnoughLess(g1, id, 0, n, n + 2); }
    if ok {
      ghost var m2, g2 := vm.mem, vm.g;
      SpentTwice(g1, g2, g2, id, 0, n, n + 2);
      ok, sz, sp, ustack, panic := MakeStack(vm, pt, sz, argv, id);
      FrameTwice(old(vm.mem), m2, vm.mem, old(vm.g), g2, vm.g, id);
      ToppedOn(g2, vm.g, id, trampoline / PGSIZE, trapframe / PGSIZE);
      if ok { ProgramBuilt(m2, vm.mem, g2, vm.g, id, elf.phs, file, sz); }
    } else {
      ImageShape(vm.g, id, pt, Pages(sz));
    }
    if !ok {
      ghost var m3, g3 := vm.mem, vm.g;
      panic := vm.ProcFreePagetable(pt, sz, id);
      LifeEnds(old(vm.mem), m3, old(vm.g), g3, vm.g, id);
      FrameTwice(old(vm.mem), m3, vm.mem, old(vm.g), g3, vm.g, id);
    }
  }

  lemma EnoughIs(mem: Memory, lo: nat, head: nat, g: Book, h: Book, id: nat, n: nat)
    requires Inv(mem, lo, head, h, {}) && Fills(g, h, TopRoom(id)) && forall role | role in g.at :: !OfSpace(role, id)
    ensures Enough(h, id, 0, n) <==> |h.free| >= Cost(n)
  {
    hide Inv, Fills, Room, Lack, Cost;
    TopAlone(g, h, id);
    RoomCost(mem, lo, head, h, {}, id, n);
  }

  /** The guard page, the stack page and what is on it. */
  method MakeStack(vm: Vm, pt: nat, sz0: nat, argv: seq<seq<Byte>>, ghost id: nat)
    returns (ok: bool, sz: nat, sp: nat, ghost ustack: seq<nat>, panic: bool)
    requires Given(argv)
    requires vm.Valid() && vm.dying == {} && Image(vm.g, id, pt, Pages(sz0))
    modifies vm`mem, vm`freelist, vm`g
    ensures !panic && vm.Valid() && Frame(old(vm.mem), vm.mem, old(vm.g), vm.g, id)
    ensures Shape(vm.g, id, Pages(sz), Top(id)) && Rooted(vm.g, id, pt)
    ensures ok ==> MainStack(vm.mem, vm.g, id, argv, ustack, sp, sz) && sz == (Pages(sz0) + 2) * PGSIZE
    ensures ok ==> BytesBelow(old(vm.mem), vm.mem, old(vm.g), vm.g, id, sz - PGSIZE)
    ensures ok <==> Enough(old(vm.g), id, Pages(sz0), Pages(sz0) + 2) && Fits(argv, (Pages(sz0) + 2) * PGSIZE)
    ensures TopKept(old(vm.g), vm.g, id)
  {
    hide Tr, Inv, Frame, Image, Shape, ArgsAt, BytesAt, Words, Top, OnlyOwn, Accessible, Fits, Rooted, BytesBelow,
      SameSpace, Enough, Spent;
    ustack, sp := [], 0;
    sz := Pages(sz0) * PGSIZE;
    assert Pages(sz) == Pages(sz0) && Pages(sz + 2 * PGSIZE) == Pages(sz0) + 2;
    var sz1;
    sz1, panic := GrowImage(vm, pt, sz, sz + 2 * PGSIZE, id);
    if sz1 == 0 {
      ImageShape(vm.g, id, pt, Pages(sz));
      return false, sz, sp, ustack, panic;
    }
    sz := sz1;
    ghost var n := Pages(sz0) + 2;
    assert Pages(sz) == n && sz == n * PGSIZE && (sz - 2 * PGSIZE) / PGSIZE == n - 2 && sz / PGSIZE == n;
    ImageShape(vm.g, id, pt, n);
    ghost var m1, g1 := vm.mem, vm.g;
    FewPages(vm.mem, vm.lo, vm.freelist, vm.g, {}, id, n, Top(id));
    panic := vm.UvmClear(pt, sz - 2 * PGSIZE, n, id, Top(id));
    FrameTwice(old(vm.mem), m1, vm.mem, old(vm.g), g1, vm.g, id);
    Guarded(g1, vm.g, id, pt, n);
    GuardTop(g1, vm.g, id, n);
    ghost var m2, g2 := vm.mem, vm.g;
    var us;
    ok, sp, us := PushArgs(vm, pt, sz, argv, id);
    ustack := us;
    FrameTwice(old(vm.mem), m2, vm.mem, old(vm.g), g2, vm.g, id);
    if ok { BelowTwice(old(vm.mem), m1, m2, vm.mem, old(vm.g), g1, g2, vm.g, id, n * PGSIZE, sz - PGSIZE); }
  }

  /** Growing, clearing the guard page and pushing the arguments leave the image alone. */
  lemma BelowTwice(mem: Memory, m1: Memory, m2: Memory, m: Memory, g: Book, g1: Book, g2: Book, r: Book, id: nat,
                   a: nat, b: nat)
    requires SameSpace(mem, m1, g, g1, id) && BytesBelow(m1, m2, g1, g2, id, a) && BytesBelow(m2, m, g2, r, id, b)
    requires b <= a
    ensures BytesBelow(mem, m, g, r, id, b)
  {
    hide VByte;
  }

  lemma ImageShape(g: Book, id: nat, pt: nat, n: nat)
    requires Image(g, id, pt, n)
    ensures Shape(g, id, n, Top(id)) && Rooted(g, id, pt)
  {
  }

  /** A space fresh from proc_pagetable. */
  lemma StartImage(g: Book, id: nat, pt: nat, t: nat, f: nat)
    requires Shape(g, id, 0, Top(id)) && Rooted(g, id, pt) && t < MAXPPN && f < MAXPPN && Topped(g, id, t, f)
    ensures Image(g, id, pt, 0)
  {
    TopIn(g, id, 0);
    hide LeafOf, Pte, Shape;
    TopsDiffer(id);
    FreshPlain(g, id, t, f);
  }

  /** With the guard page cleared, the stack page is open, the guard is not, and only own pages are open. */
  lemma Guarded(g: Book, r: Book, id: nat, pt: nat, n: nat)
    requires Image(g, id, pt, n) && 2 <= n < MAXVPN && LeafOf(id, n - 2) in g.flat
    requires r == g.(flat := g.flat[LeafOf(id, n - 2) := NoUser(g.flat[LeafOf(id, n - 2)])])
    ensures OnlyOwn(r, id) && Accessible(r, id, n - 1) && !Accessible(r, id, n - 2)
  {
    hide UserBit, NoUser, LeafOf, Shape, Open, Plain, OnlyOwn, Accessible, VpnOf;
    PlainOnlyOwn(g, id, n);
    OpenAccess(g, id, n, n, n - 1);
    assert LeafOf(id, n - 1) != LeafOf(id, n - 2) by { RangeLeaf(id, n - 1); RangeLeaf(id, n - 2); }
    assert !UserBit(NoUser(g.flat[LeafOf(id, n - 2)])) by { NoUserLeaf(g.flat[LeafOf(id, n - 2)]); }
    hide Image;
    Shut(g, r, id, n - 2, n - 1);
  }

  lemma GuardTop(g: Book, r: Book, id: nat, n: nat)
    requires 2 <= n <= 0x8000 && LeafOf(id, n - 2) in g.flat
    requires r.flat == g.flat[LeafOf(id, n - 2) := NoUser(g.flat[LeafOf(id, n - 2)])]
    ensures TopKept(g, r, id)
  {
    RangeLeaf(id, n - 2);
    RangeLeaf(id, TRAMPOLINE);
    RangeLeaf(id, TRAPFRAME);
  }

  /** Clearing the user bit of page v shuts it and no other page. */
  lemma Shut(g: Book, r: Book, id: nat, v: nat, w: nat)
    requires OnlyOwn(g, id) && Accessible(g, id, w) && LeafOf(id, w) != LeafOf(id, v) && LeafOf(id, v) in g.flat
    requires r == g.(flat := g.flat[LeafOf(id, v) := NoUser(g.flat[LeafOf(id, v)])])
    requires !UserBit(NoUser(g.flat[LeafOf(id, v)]))
    ensures OnlyOwn(r, id) && Accessible(r, id, w) && !Accessible(r, id, v)
  {
    hide UserBit, NoUser, LeafOf;
  }

  /** A process: its table, its size and the registers exec sets. */
  class Process {
    const vm: Vm
    var pagetable: nat
    var sz: nat
    var epc: nat
    var sp: nat
    var a1: nat
    ghost var id: nat

    ghost predicate Valid()
      reads this, vm
    {
      vm.Valid() && vm.dying == {} && Shape(vm.g, id, Pages(sz), Top(id)) && Rooted(vm.g, id, pagetable)
    }

    /** A process that runs in an existing space. */
    constructor (vm: Vm, pagetable: nat, sz: nat, ghost id: nat)
      requires vm.Valid() && vm.dying == {} && Shape(vm.g, id, Pages(sz), Top(id)) && Rooted(vm.g, id, pagetable)
      ensures Valid() && this.vm == vm && this.pagetable == pagetable && this.sz == sz && this.id == id
    {
      this.vm, this.pagetable, this.sz, this.id := vm, pagetable, sz, id;
      epc, sp, a1 := 0, 0, 0;
    }

    /**
     * exec. On failure the process and every page of memory are as they were; on success the process has
     * the new image, with the arguments on its stack, and the pages of the old one are free. None for elf
     * stands for a header that could not be read, argv for the strings the caller has copied in.
     */
    method Run(elf: Option<Elf>, file: seq<Byte>, argv: seq<seq<Byte>>, trampoline: nat, trapframe: nat,
               ghost next: nat)
      returns (r: int, ghost ustack: seq<nat>, panic: bool)
      requires trampoline / PGSIZE + MAXVPN <= MAXPPN && trapframe / PGSIZE + MAXVPN <= MAXPPN && |file| < UINT
      requires Given(argv)
      requires elf.Some? ==> forall k | 0 <= k < |elf.value.phs| && elf.value.phs[k].Some? ::
                 && elf.value.phs[k].value.vaddr < UINT64
                 && elf.value.phs[k].value.memsz < UINT64
                 && elf.value.phs[k].value.filesz < UINT64
      requires Valid() && next != id && Root(next) !in vm.g.at
      modifies this, vm
      ensures !panic && Valid() && (r == -1 || r == |argv|)
      ensures r == -1 ==>
                && pagetable == old(pagetable)
                && sz == old(sz)
                && epc == old(epc)
                && sp == old(sp)
                && a1 == old(a1)
                && id == old(id)
      ensures r == -1 ==> SamePages(old(vm.g), vm.g) && Frame(old(vm.mem), vm.mem, old(vm.g), vm.g, next)
      ensures r >= 0 ==> id == next && elf.Some? && elf.value.magic && epc == elf.value.entry && a1 == sp
      ensures r >= 0 ==>
                MainStack(vm.mem, vm.g, id, argv, ustack, sp, sz) && Program(vm.mem, vm.g, id, elf.value.phs, file, sz)
      ensures r >= 0 ==> Root(old(id)) !in vm.g.at && Switched(old(vm.g), vm.g, old(id), next)
      ensures r >= 0 ==> Topped(vm.g, id, trampoline / PGSIZE, trapframe / PGSIZE)
      ensures r >= 0 <==> elf.Some? && elf.value.magic && Loadable(elf.value, file, argv)
                          && |old(vm.g).free| >= 3 + Cost(ProgramPages(elf.value))
    {
      hide Inv, Frame, Shape, SamePages, MainStack, Top, Freed, Switched, Program, Loadable, Cost, ProgramPages,
        Topped, TopKept;
      FrameSame(vm.mem, vm.g, next);
      SameAs(vm.g, vm.g);
      NewSpace(vm.mem, vm.lo, vm.freelist, vm.g, {}, next);
      ustack, panic := [], false;
      if elf.None? || !elf.value.magic { return -1, ustack, false; }
      var ok, pt, sz1, sp1;
      ok, pt, sz1, sp1, ustack, panic := Build(vm, trampoline, trapframe, elf.value, file, argv, next);
      FrameShape(old(vm.mem), vm.mem, old(vm.g), vm.g, next, id, Pages(sz), Top(id), pagetable);
      if !ok { return -1, ustack, panic; }
      var oldpt, oldsz := pagetable, sz;
      ghost var was := id;
      a1, pagetable, sz, epc, sp, id := sp1, pt, sz1, elf.value.entry, sp1, next;
      ghost var m1, g1 := vm.mem, vm.g;
      RolesKnown(m1, vm.lo, vm.freelist, g1, {});
      panic := vm.ProcFreePagetable(oldpt, oldsz, was);
      FrameShape(m1, vm.mem, g1, vm.g, was, next, Pages(sz), Top(next), pt);
      StackKept(m1, vm.mem, g1, vm.g, was, next, argv, ustack, sp, sz);
      ProgramKept(m1, vm.mem, g1, vm.g, was, next, elf.value.phs, file, sz);
      FrameTop(m1, vm.mem, g1, vm.g, was, next);
      ToppedOn(g1, vm.g, next, trampoline / PGSIZE, trapframe / PGSIZE);
      SwitchedOver(old(vm.mem), m1, old(vm.g), g1, vm.g, was, next);
      NoRoot(g1, vm.g, was);
      r := |argv|;
    }
  }

  /**
   * Pages have only moved between the free list, the old space and the new one; all pages of the old one are
   * free or new.
   */
  ghost predicate Switched(g: Book, r: Book, id: nat, next: nat) {
    && r.own.Keys == g.own.Keys
    && (forall p | p in g.own && g.own[p] != Free && !OfSpace(g.own[p], id) :: r.own[p] == g.own[p])
    && (forall p | p in g.own && (g.own[p] == Free || OfSpace(g.own[p], id)) ::
          r.own[p] == Free || OfSpace(r.own[p], next))
  }

  lemma SwitchedOver(mem: Memory, m: Memory, g: Book, h: Book, r: Book, id: nat, next: nat)
    requires Frame(mem, m, g, h, next) && Freed(h, r, id)
    requires (forall p | p in g.own :: p in mem && !OfSpace(g.own[p], next)) && id != next
    ensures Switched(g, r, id, next)
  {
  }

  lemma BytesKept(mem: Memory, m: Memory, g: Book, r: Book, other: nat, id: nat, u: nat)
    requires Frame(mem, m, g, r, other) && other != id
    requires forall role | role in g.at :: g.at[role] in g.own && g.own[g.at[role]] == role && g.at[role] in mem
    ensures VByte(m, r, id, u) == VByte(mem, g, id, u)
  {
    RangeLeaf(id, u / PGSIZE);
    hide LeafOf, PageByte;
    assert Foreign(LeafOf(id, u / PGSIZE), other);
  }

  lemma PagesKept(mem: Memory, m: Memory, g: Book, r: Book, other: nat, id: nat, v: nat)
    requires Frame(mem, m, g, r, other) && other != id
    ensures LeafOf(id, v) in r.at <==> LeafOf(id, v) in g.at
    ensures LeafOf(id, v) in r.flat <==> LeafOf(id, v) in g.flat
    ensures LeafOf(id, v) in g.flat ==> r.flat[LeafOf(id, v)] == g.flat[LeafOf(id, v)]
  {
    RangeLeaf(id, v);
    hide LeafOf;
    assert Foreign(LeafOf(id, v), other);
  }

  /** Freeing another space leaves the new stack alone. */
  lemma StackKept(mem: Memory, m: Memory, g: Book, r: Book, other: nat, id: nat, argv: seq<seq<Byte>>,
                  ustack: seq<nat>, sp: nat, top: nat)
    requires Frame(mem, m, g, r, other) && other != id && MainStack(mem, g, id, argv, ustack, sp, top)
    requires forall role | role in g.at :: g.at[role] in g.own && g.own[g.at[role]] == role && g.at[role] in mem
    ensures MainStack(m, r, id, argv, ustack, sp, top)
  {
    hide Frame, VByte, LeafOf, Words;
    forall u: nat ensures VByte(m, r, id, u) == VByte(mem, g, id, u) { BytesKept(mem, m, g, r, other, id, u); }
    forall v: nat
      ensures LeafOf(id, v) in r.at <==> LeafOf(id, v) in g.at
      ensures LeafOf(id, v) in r.flat <==> LeafOf(id, v) in g.flat
      ensures LeafOf(id, v) in g.flat ==> r.flat[LeafOf(id, v)] == g.flat[LeafOf(id, v)]
    {
      PagesKept(mem, m, g, r, other, id, v);
    }
    var base := top - PGSIZE;
    forall k | 0 <= k < |ustack| ensures ArgAt(m, r, id, argv, ustack, base, top, k) {
      assert ArgAt(mem, g, id, argv, ustack, base, top, k);
    }
  }

  /** Argument k as main finds it: its address from the array at sp, then its bytes, all through copyin. */
  method ReadArg(p: Process, argv: seq<seq<Byte>>, k: nat, ghost ustack: seq<nat>) returns (s: seq<Byte>)
    requires p.Valid() && k < |argv| && MainStack(p.vm.mem, p.vm.g, p.id, argv, ustack, p.sp, p.sz) && p.sz < UINT64
    modifies p.vm`mem, p.vm`freelist, p.vm`g
    ensures p.Valid() && p.vm.mem == old(p.vm.mem) && p.vm.g == old(p.vm.g) && s == argv[k] + [0]
  {
    hide Inv, Shape, Top, Words, Bytes, Number, ArgsAt, BytesAt;
    ghost var g := p.vm.g;
    ArgIn(p.vm.mem, g, p.id, argv, ustack, p.sp, p.sz, k);
    var r, b := p.vm.CopyIn(p.pagetable, p.sp + PTRSIZE * k, PTRSIZE, p.id);
    SameBytes(p.vm.mem, g, p.id, p.sp + PTRSIZE * k, b, Bytes(ustack[k], PTRSIZE));
    EightBytes();
    NumberBytes(ustack[k], PTRSIZE);
    r, s := p.vm.CopyIn(p.pagetable, Number(b), |argv[k]| + 1, p.id);
    SameBytes(p.vm.mem, g, p.id, ustack[k], s, argv[k] + [0]);
  }

  lemma SameBytes(mem: Memory, g: Book, id: nat, va: nat, a: seq<Byte>, b: seq<Byte>)
    requires |a| == |b| && BytesAt(mem, g, id, va, b) && forall k: nat | k < |a| :: a[k] == VByte(mem, g, id, va + k)
    ensures a == b
  {
  }

  /** The pointer and the string of argument k are in the accessible stack page. */
  lemma ArgIn(mem: Memory, g: Book, id: nat, argv: seq<seq<Byte>>, ustack: seq<nat>, sp: nat, top: nat, k: nat)
    requires MainStack(mem, g, id, argv, ustack, sp, top) && k < |argv|
    ensures k < |ustack| && ustack[k] < top
    ensures BytesAt(mem, g, id, sp + PTRSIZE * k, Bytes(ustack[k], PTRSIZE))
    ensures BytesAt(mem, g, id, ustack[k], argv[k] + [0])
    ensures forall u: nat | sp + PTRSIZE * k <= u < sp + PTRSIZE * k + PTRSIZE :: Accessible(g, id, u / PGSIZE)
    ensures forall u: nat | ustack[k] <= u < ustack[k] + |argv[k]| + 1 :: Accessible(g, id, u / PGSIZE)
  {
    hide Accessible, Words, Bytes, OnlyOwn, VByte;
    assert ArgAt(mem, g, id, argv, ustack, top - PGSIZE, top, k);
    TopMost(mem, g, id, argv, ustack, top - PGSIZE, top, k);
    TopMost(mem, g, id, argv, ustack, top - PGSIZE, top, |ustack|);
    StackPage(ustack[k], |argv[k]| + 1, top);
    StackPage(sp + PTRSIZE * k, PTRSIZE, top);
    WordIn(ustack + [0], k);
    var all := Words(ustack + [0]);
    assert all[PTRSIZE * k..PTRSIZE * k + PTRSIZE] == Bytes(ustack[k], PTRSIZE);
    forall j | 0 <= j < PTRSIZE ensures VByte(mem, g, id, sp + PTRSIZE * k + j) == Bytes(ustack[k], PTRSIZE)[j] {
      assert all[PTRSIZE * k + j] == Bytes(ustack[k], PTRSIZE)[j];
      assert VByte(mem, g, id, sp + (PTRSIZE * k + j)) == all[PTRSIZE * k + j];
    }
  }

  /** No string reaches above the stack page. */
  lemma {:induction false} TopMost(mem: Memory, g: Book, id: nat, argv: seq<seq<Byte>>, ustack: seq<nat>, base: nat,
                                   top: nat, k: nat)
    requires ArgsAt(mem, g, id, argv, ustack, base, top) && k <= |ustack|
    ensures Above(ustack, top, k) <= top
  {
    if k > 0 {
      TopMost(mem, g, id, argv, ustack, base, top, k - 1);
      assert ArgAt(mem, g, id, argv, ustack, base, top, k - 1);
    }
  }
}
