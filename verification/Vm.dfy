/** The page allocator and the operations on user address spaces, in place on physical memory. */
module Vm {
  import opened Basics
  import opened PageTable
  import opened Counting
  import opened UserBytes

  /** The three nine-bit indices of virtual page v. */
  function L2(v: nat): (i: nat) { v / 0x4_0000 }
  function L1(v: nat): (i: nat) { v / 0x200 % 0x200 }
  function L0(v: nat): (i: nat) { v % 0x200 }

  /** PX(level, va). */
  function Px(level: nat, va: nat): (i: nat)
    requires level <= 2
  {
    va / PGSIZE / (if level == 0 then 1 else if level == 1 then 0x200 else 0x4_0000) % ENTRIES
  }

  function LeafOf(id: nat, v: nat): (role: Role) { Leaf(id, L2(v), L1(v), L0(v)) }

  function VpnOf(i: nat, j: nat, k: nat): (v: nat) { i * 0x4_0000 + j * 0x200 + k }

  lemma Digits(v: nat)
    ensures VpnOf(L2(v), L1(v), L0(v)) == v && L1(v) < ENTRIES && L0(v) < ENTRIES && (v < MAXVPN ==> L2(v) < 256)
  {
    var q := v / 0x200;
    assert v == q * 0x200 + v % 0x200;
    assert q == q / 0x200 * 0x200 + q % 0x200;
    assert q / 0x200 == v / 0x4_0000;
  }

  lemma Undigits(i: nat, j: nat, k: nat)
    requires j < ENTRIES && k < ENTRIES
    ensures var v := VpnOf(i, j, k); L2(v) == i && L1(v) == j && L0(v) == k
  {
    var v := VpnOf(i, j, k);
    assert v / 0x200 == i * 0x200 + j && v % 0x200 == k;
  }

  lemma PxDigits(va: nat)
    requires va / PGSIZE < MAXVPN
    ensures Px(2, va) == L2(va / PGSIZE) && Px(1, va) == L1(va / PGSIZE) && Px(0, va) == L0(va / PGSIZE)
  {
    Digits(va / PGSIZE);
  }

  /** The role of a virtual page of space id in [a, b). */
  predicate InRange(role: Role, id: nat, a: nat, b: nat) {
    role.Leaf? && role.id == id && role.j < ENTRIES && role.k < ENTRIES && a <= VpnOf(role.i, role.j, role.k) < b
  }

  /** pt is the address of the root table of space id. */
  ghost predicate Rooted(g: Book, id: nat, pt: nat) {
    Root(id) in g.at && pt == g.at[Root(id)] * PGSIZE
  }

  /** The word at the end of walk. */
  ghost function Tr(g: Book, id: nat, v: nat): (w: Word) {
    if LeafOf(id, v) in g.flat then g.flat[LeafOf(id, v)] else 0
  }

  /** Where walk ends: entry i of the table in a page, nowhere, or a panic. */
  datatype Ref = At(page: nat, i: nat) | Null | PanicAt

  datatype Outcome = Ok | Fail | Panic

  /** Only tables were added to space id, from the front of the free list. */
  ghost predicate Grown(g: Book, r: Book, id: nat) {
    && (forall role | role in g.at :: role in r.at && r.at[role] == g.at[role])
    && (forall role | role in r.at && role !in g.at :: IsTable(role) && role.id == id)
    && (forall p | p in g.own && g.own[p] != Free :: p in r.own && r.own[p] == g.own[p])
    && (forall p | p in r.own && p in g.own && g.own[p] == Free ::
          r.own[p] == Free || (IsTable(r.own[p]) && r.own[p].id == id))
    && |r.free| <= |g.free| && r.free == g.free[|g.free| - |r.free|..]
  }

  /** A page that operations on the tables of space id leave alone. */
  predicate Aside(g: Book, id: nat, p: nat) {
    p !in g.own || g.own[p] == Loose || (g.own[p] != Free && (g.own[p].Leaf? || g.own[p].id != id))
  }

  ghost predicate Kept(mem: Memory, m: Memory, g: Book, id: nat) {
    forall p | p in mem && Aside(g, id, p) :: p in m && m[p] == mem[p]
  }

  /** What walk may do to memory while it adds tables to space id. */
  ghost predicate Walked(mem: Memory, m: Memory, g: Book, r: Book, id: nat) {
    Grown(g, r, id) && Kept(mem, m, g, id) && r.own.Keys == g.own.Keys
  }

  lemma WalkedSame(mem: Memory, g: Book, id: nat)
    ensures Walked(mem, mem, g, g, id)
  {
  }

  lemma RootStays(mem: Memory, m: Memory, g: Book, r: Book, id: nat)
    requires Walked(mem, m, g, r, id)
    ensures forall role | role in g.at :: role in r.at && r.at[role] == g.at[role]
  {
  }

  lemma WalkedTwice(mem: Memory, m: Memory, n: Memory, g: Book, r: Book, t: Book, id: nat)
    requires Walked(mem, m, g, r, id) && Walked(m, n, r, t, id)
    ensures Walked(mem, n, g, t, id)
  {
    forall p | p in mem && Aside(g, id, p) ensures p in n && n[p] == mem[p] {
      assert Aside(r, id, p);
    }
  }

  // ---- walk ----

  /** The table walk looks into at a level. */
  function TableAt(id: nat, v: nat, level: nat): (role: Role)
    requires level <= 2
  {
    if level == 2 then Root(id) else if level == 1 then Mid(id, L2(v)) else Low(id, L2(v), L1(v))
  }

  /** An entry of a table above the lowest is valid exactly when the table below exists, and then leads there. */
  lemma Leads(mem: Memory, lo: nat, head: nat, g: Book, dying: set<nat>, role: Role, x: nat)
    requires Inv(mem, lo, head, g, dying) && (role.Root? || role.Mid?) && role in g.at && role.id !in dying
    requires x < ENTRIES
    ensures g.at[role] in mem && (PageTable.Valid(mem[g.at[role]][x]) <==> Child(role, x) in g.at)
    ensures Child(role, x) in g.at ==> PageOf(mem[g.at[role]][x]) == g.at[Child(role, x)]
  {
    hide Links, Lists, Hangs;
    assert TableOk(mem, g, role);
    assert mem[g.at[role]][x] == Entry(g, role, x);
  }

  /** Memory after walk has allocated page p for the table below entry x of table t. */
  function Added(mem: Memory, p: nat, t: nat, x: nat): (m: Memory)
    requires t in mem && x < ENTRIES
  {
    Written(Popped(mem, p)[p := Memset(0)], t, x, Pte(p, PTE_V))
  }

  lemma AddStep(mem: Memory, lo: nat, head: nat, g: Book, dying: set<nat>, role: Role, x: nat)
    requires Inv(mem, lo, head, g, dying) && g.free != [] && (role.Root? || role.Mid?) && role in g.at && x < ENTRIES
             && Child(role, x) !in g.at
    ensures var p, t, r := g.free[0], g.at[role], Settled(Taken(g), Child(role, x), g.free[0]);
            && p in mem && t in mem && p < PHYSTOP && p != t
            && Inv(Added(mem, p, t, x), lo, mem[p][0], r, dying)
            && Walked(mem, Added(mem, p, t, x), g, r, role.id)
  {
    var p, t, r := g.free[0], g.at[role], Settled(Taken(g), Child(role, x), g.free[0]);
    PopKeeps(mem, lo, head, g, dying);
    assert g.own[t] == role && t in mem;
    hide Inv, Walked;
    LooseKeeps(Popped(mem, p), lo, mem[p][0], Taken(g), dying, p, Memset(0));
    TableKeeps(Popped(mem, p)[p := Memset(0)], lo, mem[p][0], Taken(g), dying, role, x, p);
    AddGrows(mem, g, Child(role, x), t, x);
  }

  lemma AddGrows(mem: Memory, g: Book, c: Role, t: nat, x: nat)
    requires IsTable(c) && c !in g.at && g.free != [] && g.free[0] in g.own && g.own[g.free[0]] == Free
    requires g.free[0] < PHYSTOP
    requires t in mem && t in g.own && IsTable(g.own[t]) && g.own[t].id == c.id && x < ENTRIES
    ensures Walked(mem, Added(mem, g.free[0], t, x), g, Settled(Taken(g), c, g.free[0]), c.id)
  {
  }

  /** Where a table is missing nothing is mapped. */
  lemma NoTable(mem: Memory, lo: nat, head: nat, g: Book, dying: set<nat>, id: nat, v: nat, level: nat)
    requires Inv(mem, lo, head, g, dying) && level <= 1 && TableAt(id, v, level) !in g.at
    ensures LeafOf(id, v) !in g.flat && TableAt(id, v, 0) !in g.at
  {
    hide L0, L1, L2;
    assert Child(TableAt(id, v, 0), L0(v)) == LeafOf(id, v);
    assert Child(TableAt(id, v, 1), L1(v)) == TableAt(id, v, 0);
  }

  lemma LowEntry(mem: Memory, lo: nat, head: nat, g: Book, dying: set<nat>, id: nat, v: nat)
    requires Inv(mem, lo, head, g, dying) && TableAt(id, v, 0) in g.at && id !in dying && L0(v) < ENTRIES
    ensures g.at[TableAt(id, v, 0)] in mem && mem[g.at[TableAt(id, v, 0)]][L0(v)] == Tr(g, id, v)
  {
    hide L0, L1, L2;
    var role := TableAt(id, v, 0);
    assert TableOk(mem, g, role);
    assert Child(role, L0(v)) == LeafOf(id, v);
  }

  // ---- mappages ----

  /** perm | PTE_V. */
  function WithV(perm: nat): (flags: nat) { if perm % 2 == 1 then perm else perm + 1 }

  lemma PteLeaf(p: nat, perm: nat)
    requires p < MAXPPN && perm < 1024 && perm / 2 % 8 != 0
    ensures IsLeaf(Pte(p, WithV(perm))) && PageOf(Pte(p, WithV(perm))) == p
    ensures PageTable.Flags(Pte(p, WithV(perm))) == WithV(perm)
  {
    var f := WithV(perm);
    assert f < 1024 && f % 2 == 1 && f / 2 == perm / 2;
    hide WithV;
    WordDigits(p, f);
  }

  lemma WordDigits(p: nat, f: nat)
    requires f < 1024
    ensures (p * 1024 + f) / 1024 == p && (p * 1024 + f) % 1024 == f
    ensures (p * 1024 + f) % 2 == f % 2 && (p * 1024 + f) / 2 % 8 == f / 2 % 8
  {
    var h := f / 2;
    HalfIs(p * 1024 + f, p * 512 + h, f % 2);
    LowThree(p * 512 + h, p * 64 + h / 8, h % 8);
  }

  lemma HalfIs(x: nat, q: nat, r: nat)
    requires x == 2 * q + r && r < 2
    ensures x / 2 == q && x % 2 == r
  {
  }

  lemma LowThree(x: nat, q: nat, r: nat)
    requires x == 8 * q + r && r < 8
    ensures x % 8 == r
  {
  }

  /** PGROUNDDOWN(va + size - 1), as a page number. */
  function LastPage(va: nat, size: nat): (last: nat)
    requires size > 0
  {
    (va + size - 1) % 0x1_0000_0000_0000_0000 / PGSIZE
  }

  /** h is f with n pages from a on mapped to consecutive pages from p on, none of which was mapped before. */
  ghost predicate MappedMore(f: map<Role, Word>, h: map<Role, Word>, id: nat, a: nat, n: nat, p: nat, perm: nat) {
    && (forall role | InRange(role, id, a, a + n) ::
          role !in f && role in h && h[role] == Pte(p + VpnOf(role.i, role.j, role.k) - a, WithV(perm)))
    && (forall role | !InRange(role, id, a, a + n) :: (role in h <==> role in f) && (role in f ==> h[role] == f[role]))
  }

  lemma RangeNext(role: Role, id: nat, a: nat, b: nat)
    requires a <= b
    ensures InRange(role, id, a, b + 1) <==> InRange(role, id, a, b) || role == LeafOf(id, b)
    ensures !InRange(LeafOf(id, b), id, a, b)
  {
    Digits(b);
    if role.Leaf? && role.j < ENTRIES && role.k < ENTRIES { Undigits(role.i, role.j, role.k); }
  }

  lemma MapsNext(f: map<Role, Word>, h: map<Role, Word>, id: nat, a: nat, n: nat, p: nat, perm: nat)
    requires MappedMore(f, h, id, a, n, p, perm) && LeafOf(id, a + n) !in h
    ensures MappedMore(f, h[LeafOf(id, a + n) := Pte(p + n, WithV(perm))], id, a, n + 1, p, perm)
  {
    hide LeafOf, VpnOf, L0, L1, L2;
    var h' := h[LeafOf(id, a + n) := Pte(p + n, WithV(perm))];
    RangeLeaf(id, a + n);
    forall role: Role ensures InRange(role, id, a, a + n + 1) ==>
        role !in f && role in h' && h'[role] == Pte(p + VpnOf(role.i, role.j, role.k) - a, WithV(perm))
      ensures !InRange(role, id, a, a + n + 1) ==> (role in h' <==> role in f) && (role in f ==> h'[role] == f[role])
    {
      RangeNext(role, id, a, a + n);
    }
  }

  lemma MapsNone(f: map<Role, Word>, id: nat, a: nat, p: nat, perm: nat)
    ensures MappedMore(f, f, id, a, 0, p, perm)
  {
    assert forall role: Role :: !InRange(role, id, a, a);
  }

  lemma RangeLeaf(id: nat, v: nat)
    ensures LeafOf(id, v).Leaf? && LeafOf(id, v).id == id
    ensures VpnOf(LeafOf(id, v).i, LeafOf(id, v).j, LeafOf(id, v).k) == v
  {
    Digits(v);
  }

  lemma MapsSame(f: map<Role, Word>, h: map<Role, Word>, id: nat, a: nat, n: nat, p: nat, perm: nat)
    requires MappedMore(f, h, id, a, n, p, perm)
    ensures LeafOf(id, a + n) in h <==> LeafOf(id, a + n) in f
  {
    RangeNext(LeafOf(id, a + n), id, a, a + n);
  }

  lemma MappedIsValid(mem: Memory, lo: nat, head: nat, g: Book, dying: set<nat>, id: nat, v: nat)
    requires Inv(mem, lo, head, g, dying)
    ensures PageTable.Valid(Tr(g, id, v)) <==> LeafOf(id, v) in g.flat
    ensures LeafOf(id, v) in g.flat ==> IsLeaf(Tr(g, id, v))
  {
  }

  lemma OwnedIsMapped(mem: Memory, lo: nat, head: nat, g: Book, dying: set<nat>, leaf: Role)
    requires Inv(mem, lo, head, g, dying) && leaf in g.at && leaf.Leaf?
    ensures leaf in g.flat && PageOf(g.flat[leaf]) == g.at[leaf]
  {
  }

  // ---- uvmunmap ----

  /** r is g without the mappings of [a, b) in space id; with do_free their pages are free. */
  ghost predicate Unmapped(g: Book, r: Book, id: nat, a: nat, b: nat, free: bool) {
    && r.own.Keys == g.own.Keys
    && (forall role :: role in r.flat <==> role in g.flat && !InRange(role, id, a, b))
    && (forall role | role in r.flat :: r.flat[role] == g.flat[role])
    && (forall role :: role in r.at <==> role in g.at && !(free && InRange(role, id, a, b)))
    && (forall role | role in r.at :: r.at[role] == g.at[role])
    && (forall p | p in g.own :: r.own[p] == if free && InRange(g.own[p], id, a, b) then Free else g.own[p])
  }

  /** Memory outside the tables of space id and outside freed pages is as it was. */
  ghost predicate KeptButFreed(mem: Memory, m: Memory, g: Book, r: Book, id: nat) {
    forall p | p in mem && Aside(g, id, p) && (p in g.own ==> p in r.own && r.own[p] == g.own[p]) ::
      p in m && m[p] == mem[p]
  }

  /** The book after one page is unmapped. */
  ghost function UnmapBook(g: Book, leaf: Role, free: bool): (r: Book)
    requires free ==> leaf in g.at
  {
    if free then
      g.(free := [g.at[leaf]] + g.free, own := g.own[g.at[leaf] := Free], at := g.at - {leaf}, flat := g.flat - {leaf})
    else g.(flat := g.flat - {leaf})
  }

  lemma UnmapsNone(mem: Memory, g: Book, id: nat, a: nat, free: bool)
    ensures Unmapped(g, g, id, a, a, free) && KeptButFreed(mem, mem, g, g, id)
  {
    assert forall role: Role :: !InRange(role, id, a, a);
  }

  lemma UnmapsNext(g: Book, h: Book, id: nat, a: nat, b: nat, free: bool)
    requires a <= b && Unmapped(g, h, id, a, b, free) && (free <==> LeafOf(id, b) in h.at)
    requires LeafOf(id, b) in h.at ==> h.at[LeafOf(id, b)] in h.own && h.own[h.at[LeafOf(id, b)]] == LeafOf(id, b)
    requires forall p | p in h.own && h.own[p] == LeafOf(id, b) :: LeafOf(id, b) in h.at && h.at[LeafOf(id, b)] == p
    ensures Unmapped(g, UnmapBook(h, LeafOf(id, b), free), id, a, b + 1, free)
  {
    hide InRange, LeafOf;
    var r := UnmapBook(h, LeafOf(id, b), free);
    forall role: Role ensures InRange(role, id, a, b + 1) <==> InRange(role, id, a, b) || role == LeafOf(id, b) {
      RangeNext(role, id, a, b);
    }
    RangeNext(LeafOf(id, b), id, a, b);
    assert r.own.Keys == g.own.Keys;
  }

  lemma LeafFlags(w: Word)
    requires PageTable.Flags(w) == PTE_V
    ensures !IsLeaf(w)
  {
    var a := w / 1024;
    assert w == 2 * (512 * a) + 1;
    assert w / 2 == 8 * (64 * a);
  }

  lemma RolesAt(mem: Memory, lo: nat, head: nat, g: Book, dying: set<nat>, role: Role)
    requires Inv(mem, lo, head, g, dying) && role in g.at
    ensures g.at[role] in g.own && g.own[g.at[role]] == role && g.at[role] in mem && InRam(lo, g.at[role])
    ensures role != Free && role != Loose && forall p | p in g.own && g.own[p] == role :: p == g.at[role]
  {
  }

  lemma KeptNext(mem: Memory, m: Memory, n: Memory, g: Book, h: Book, id: nat, a: nat, b: nat, leaf: Role, free: bool)
    requires Unmapped(g, h, id, a, b, free) && KeptButFreed(mem, m, g, h, id)
    requires (free ==> leaf in h.at && h.at[leaf] in h.own)
    requires KeptButFreed(m, n, h, UnmapBook(h, leaf, free), id)
    ensures KeptButFreed(mem, n, g, UnmapBook(h, leaf, free), id)
  {
    var r := UnmapBook(h, leaf, free);
    forall p | p in mem && Aside(g, id, p) && (p in g.own ==> p in r.own && r.own[p] == g.own[p])
      ensures p in n && n[p] == mem[p]
    {
      assert Aside(h, id, p);
    }
  }

  lemma UnmappedAt(g: Book, h: Book, id: nat, a: nat, b: nat, free: bool)
    requires a <= b && Unmapped(g, h, id, a, b, free)
    ensures LeafOf(id, b) in h.flat <==> LeafOf(id, b) in g.flat
    ensures LeafOf(id, b) in h.at <==> LeafOf(id, b) in g.at
  {
    RangeNext(LeafOf(id, b), id, a, b);
  }

  lemma RolesOf(mem: Memory, lo: nat, head: nat, g: Book, dying: set<nat>, role: Role)
    requires Inv(mem, lo, head, g, dying) && role != Free && role != Loose
    ensures forall p | p in g.own && g.own[p] == role :: role in g.at && g.at[role] == p
  {
  }

  lemma RootKept(g: Book, leaf: Role, free: bool, id: nat)
    requires Root(id) in g.at && leaf.Leaf? && (free ==> leaf in g.at)
    ensures Root(id) in UnmapBook(g, leaf, free).at && UnmapBook(g, leaf, free).at[Root(id)] == g.at[Root(id)]
  {
  }

  // ---- whole spaces ----

  predicate Foreign(role: Role, id: nat) { role == Loose || (role != Free && role.id != id) }

  /** From (mem, g) to (m, r) nothing changed but space id and the free list. */
  ghost predicate Frame(mem: Memory, m: Memory, g: Book, r: Book, id: nat) {
    && r.own.Keys == g.own.Keys
    && (forall p | p in g.own && p in mem && Foreign(g.own[p], id) :: r.own[p] == g.own[p] && p in m && m[p] == mem[p])
    && (forall p | p in r.own && Foreign(r.own[p], id) :: g.own[p] == r.own[p])
    && (forall p | p in mem && p !in g.own :: p in m && m[p] == mem[p])
    && (forall role | Foreign(role, id) ::
          (role in r.at <==> role in g.at) && (role in g.at ==> r.at[role] == g.at[role]))
    && (forall role | Foreign(role, id) ::
          (role in r.flat <==> role in g.flat) && (role in g.flat ==> r.flat[role] == g.flat[role]))
  }

  lemma FrameSame(mem: Memory, g: Book, id: nat)
    ensures Frame(mem, mem, g, g, id)
  {
  }

  lemma FrameTwice(mem: Memory, m: Memory, n: Memory, g: Book, h: Book, r: Book, id: nat)
    requires Frame(mem, m, g, h, id) && Frame(m, n, h, r, id)
    ensures Frame(mem, n, g, r, id)
  {
  }

  lemma WalkedFrame(mem: Memory, m: Memory, g: Book, r: Book, id: nat)
    requires Walked(mem, m, g, r, id)
    requires forall role | Foreign(role, id) ::
               (role in r.flat <==> role in g.flat) && (role in g.flat ==> r.flat[role] == g.flat[role])
    ensures Frame(mem, m, g, r, id)
  {
  }

  lemma UnmappedFrame(mem: Memory, m: Memory, g: Book, r: Book, id: nat, a: nat, b: nat, free: bool)
    requires Unmapped(g, r, id, a, b, free) && KeptButFreed(mem, m, g, r, id)
    ensures Frame(mem, m, g, r, id)
  {
    assert forall role: Role | Foreign(role, id) :: !InRange(role, id, a, b);
    assert forall p | p in g.own && Foreign(g.own[p], id) :: Aside(g, id, p);
  }

  /** The two pages every process space maps on top: the trampoline and the trapframe. */
  function Top(id: nat): (r: set<Role>) { {LeafOf(id, TRAMPOLINE), LeafOf(id, TRAPFRAME)} }

  /** Space id owns exactly its pages below n, and maps exactly those and top. */
  ghost predicate Shape(g: Book, id: nat, n: nat, top: set<Role>) {
    && Root(id) in g.at && top <= Top(id)
    && (forall role: Role | role.Leaf? && role.id == id :: role in g.at <==> InRange(role, id, 0, n))
    && (forall role: Role | role.Leaf? && role.id == id :: role in g.flat <==> InRange(role, id, 0, n) || role in top)
  }

  /** The user pages of space id in [a, b) have the same mapping and the same contents; the top is mapped as before. */
  ghost predicate UserKept(mem: Memory, m: Memory, g: Book, r: Book, id: nat, a: nat, b: nat) {
    && (forall role | InRange(role, id, a, b) && role in g.at && role in g.flat && g.at[role] in mem ::
          && role in r.at && r.at[role] == g.at[role] && role in r.flat && r.flat[role] == g.flat[role]
          && g.at[role] in m && m[g.at[role]] == mem[g.at[role]])
    && (forall role | role in Top(id) && role in g.flat :: role in r.flat && r.flat[role] == g.flat[role])
  }

  const USER := PTE_W + PTE_X + PTE_R + PTE_U

  /** A user page with its flags and contents. */
  ghost predicate UserPage(mem: Memory, g: Book, leaf: Role, flags: nat, page: Page) {
    && leaf in g.at && leaf in g.flat && g.flat[leaf] == Pte(g.at[leaf], flags) && g.at[leaf] in mem
    && mem[g.at[leaf]] == page
  }

  /** The user pages of space id in [a, b) are zeroed, and mapped for reading, writing and executing. */
  ghost predicate ZeroPages(mem: Memory, g: Book, id: nat, a: nat, b: nat) {
    forall role | InRange(role, id, a, b) :: UserPage(mem, g, role, WithV(USER), Memset(0))
  }

  /** A loose page that came from the free list, filled with the given contents. */
  ghost predicate Fetched(mem: Memory, m: Memory, g: Book, h: Book, p: nat, page: Page) {
    && g.free != [] && p == g.free[0] && h == Taken(g) && m == mem[p := page] && p in g.own && g.own[p] == Free
  }

  lemma RangeOne(role: Role, id: nat, n: nat)
    ensures InRange(role, id, n, n + 1) <==> role == LeafOf(id, n)
  {
    RangeNext(role, id, n, n);
  }

  lemma GrownAt(g: Book, r: Book, id: nat, n: nat, p: nat, perm: nat, role: Role, top: set<Role>)
    requires Shape(g, id, n, top) && MappedMore(g.flat, r.flat, id, n, 1, p, perm) && role.Leaf? && role.id == id
    ensures role == LeafOf(id, n) ==> role !in g.at && role in r.flat && r.flat[role] == Pte(p, WithV(perm))
    ensures role in g.at || role == LeafOf(id, n) <==> InRange(role, id, 0, n + 1)
    ensures role in r.flat <==> InRange(role, id, 0, n + 1) || role in top
  {
    hide LeafOf, VpnOf, Top, L0, L1, L2, Pte;
    RangeOne(role, id, n);
    RangeNext(role, id, 0, n);
    RangeLeaf(id, n);
  }

  /** uvmalloc's page n, fetched and mapped, becomes the space's next user page. */
  lemma GrownShape(g: Book, r: Book, id: nat, n: nat, p: nat, perm: nat, top: set<Role>)
    requires Shape(g, id, n, top) && MappedMore(g.flat, r.flat, id, n, 1, p, perm) && Root(id) in r.at
    requires forall role: Role | role.Leaf? :: role in r.at <==> role in g.at
    ensures LeafOf(id, n) !in r.at && LeafOf(id, n) in r.flat && r.flat[LeafOf(id, n)] == Pte(p, WithV(perm))
    ensures Shape(Settled(r, LeafOf(id, n), p), id, n + 1, top)
  {
    hide InRange, LeafOf, MappedMore, Top, Pte;
    RangeLeaf(id, n);
    GrownAt(g, r, id, n, p, perm, LeafOf(id, n), top);
    var t := Settled(r, LeafOf(id, n), p);
    forall role: Role | role.Leaf? && role.id == id
      ensures role in t.at <==> InRange(role, id, 0, n + 1)
      ensures role in t.flat <==> InRange(role, id, 0, n + 1) || role in top
    {
      GrownAt(g, r, id, n, p, perm, role, top);
    }
  }

  /** Frame, but for page p. */
  ghost predicate FrameBut(mem: Memory, m: Memory, g: Book, r: Book, id: nat, p: nat) {
    && r.own.Keys == g.own.Keys
    && (forall q | q in g.own && q in mem && Foreign(g.own[q], id) && q != p ::
          r.own[q] == g.own[q] && q in m && m[q] == mem[q])
    && (forall q | q in r.own && Foreign(r.own[q], id) && q != p :: g.own[q] == r.own[q])
    && (forall q | q in mem && q !in g.own && q != p :: q in m && m[q] == mem[q])
    && (forall role | Foreign(role, id) ::
          (role in r.at <==> role in g.at) && (role in g.at ==> r.at[role] == g.at[role]))
    && (forall role | Foreign(role, id) ::
          (role in r.flat <==> role in g.flat) && (role in g.flat ==> r.flat[role] == g.flat[role]))
  }

  lemma FetchedFrame(mem: Memory, m1: Memory, m2: Memory, g: Book, h: Book, r: Book, id: nat, p: nat, page: Page)
    requires Fetched(mem, m1, g, h, p, page) && Walked(m1, m2, h, r, id)
    requires forall role | Foreign(role, id) ::
               (role in r.flat <==> role in g.flat) && (role in g.flat ==> r.flat[role] == g.flat[role])
    ensures p in r.own && r.own[p] == Loose && FrameBut(mem, m2, g, r, id, p)
  {
    assert forall q | q in g.own && Foreign(g.own[q], id) :: Aside(h, id, q);
  }

  /** Fetching a page, mapping it and adopting it leaves the rest of the machine alone. */
  lemma GrownFrame(mem: Memory, m1: Memory, m2: Memory, g: Book, h: Book, r: Book, id: nat, p: nat, leaf: Role,
                   page: Page)
    requires Fetched(mem, m1, g, h, p, page) && Walked(m1, m2, h, r, id) && leaf.Leaf? && leaf.id == id
    requires forall role | Foreign(role, id) ::
               (role in r.flat <==> role in g.flat) && (role in g.flat ==> r.flat[role] == g.flat[role])
    ensures r.own[p] == Loose && Frame(mem, m2, g, Settled(r, leaf, p), id)
  {
    hide Walked;
    FetchedFrame(mem, m1, m2, g, h, r, id, p, page);
    assert Settled(r, leaf, p).own.Keys == g.own.Keys;
  }

  /** Fetching a page, failing to map it and freeing it does so too. */
  lemma FailedFrame(mem: Memory, m1: Memory, m2: Memory, head: Word, g: Book, h: Book, r: Book, id: nat, p: nat,
                    page: Page)
    requires Fetched(mem, m1, g, h, p, page) && Walked(m1, m2, h, r, id) && r.flat == g.flat
    ensures r.own[p] == Loose
    ensures Frame(mem, Pushed(m2, head, p), g, r.(free := [p] + r.free, own := r.own[p := Free]), id)
  {
    hide Walked, Pushed;
    FetchedFrame(mem, m1, m2, g, h, r, id, p, page);
    PushedPage(m2, head, p);
    assert r.own[p := Free].Keys == g.own.Keys;
  }

  /** The user pages a space had keep their mapping and contents. */
  lemma GrownKept(mem: Memory, m1: Memory, m2: Memory, g: Book, h: Book, r: Book, id: nat, n: nat, p: nat, page: Page,
                  t: Book, m: Memory)
    requires Fetched(mem, m1, g, h, p, page) && Walked(m1, m2, h, r, id)
    requires forall role | role in g.at :: g.at[role] in g.own && g.own[g.at[role]] == role
    requires forall role | role in g.flat :: role in r.flat && r.flat[role] == g.flat[role]
    requires t.flat == r.flat && (forall role | role in r.at :: role in t.at && t.at[role] == r.at[role])
    requires forall q | q in m2 && q != p :: q in m && m[q] == m2[q]
    ensures UserKept(mem, m, g, t, id, 0, n)
  {
    forall role | InRange(role, id, 0, n) && role in g.at && role in g.flat && g.at[role] in mem
      ensures role in t.at && t.at[role] == g.at[role] && role in t.flat && t.flat[role] == g.flat[role]
      ensures g.at[role] in m && m[g.at[role]] == mem[g.at[role]]
    {
      assert Aside(h, id, g.at[role]);
    }
  }

  /** A space owns fewer pages than there are below its top: memory is too small. */
  lemma FewPages(mem: Memory, lo: nat, head: nat, g: Book, dying: set<nat>, id: nat, n: nat, top: set<Role>)
    requires Inv(mem, lo, head, g, dying) && Shape(g, id, n, top)
    ensures n <= 0x8000
  {
    hide Inv, Shape, LeafOf, VpnOf;
    forall v: nat | v < n
      ensures LeafOf(id, v) in g.at && g.at[LeafOf(id, v)] in g.own && g.own[g.at[LeafOf(id, v)]] == LeafOf(id, v)
              && InRam(lo, g.at[LeafOf(id, v)])
    {
      OwnsLow(g, id, n, top, v);
      RolesAt(mem, lo, head, g, dying, LeafOf(id, v));
    }
    var q := seq(n, v requires 0 <= v < n => g.at[LeafOf(id, v)]);
    forall i, j | 0 <= i < j < |q| ensures q[i] != q[j] {
      RangeLeaf(id, i);
      RangeLeaf(id, j);
    }
    FitsSpan(q, KERNBASE, PHYSTOP);
  }

  lemma OwnsLow(g: Book, id: nat, n: nat, top: set<Role>, v: nat)
    requires Shape(g, id, n, top)
    ensures v < n ==> LeafOf(id, v) in g.at && LeafOf(id, v) in g.flat
    ensures n <= v < TRAPFRAME ==> LeafOf(id, v) !in g.at && LeafOf(id, v) !in g.flat
  {
    Digits(v);
    Digits(TRAMPOLINE);
    Digits(TRAPFRAME);
  }

  lemma UserSame(mem: Memory, g: Book, id: nat, a: nat, b: nat)
    ensures UserKept(mem, mem, g, g, id, a, b)
  {
  }

  lemma OnePage(n: nat)
    requires n <= 0x8000
    ensures n * PGSIZE / PGSIZE == n && LastPage(n * PGSIZE, PGSIZE) == n
  {
  }

  lemma ShapeRoot(g: Book, id: nat, n: nat, top: set<Role>)
    requires Shape(g, id, n, top)
    ensures Root(id) in g.at
  {
  }

  lemma GrownFlat(f: map<Role, Word>, h: map<Role, Word>, id: nat, n: nat, k: nat, p: nat, perm: nat)
    requires MappedMore(f, h, id, n, k, p, perm)
    ensures forall role | role in f :: role in h && h[role] == f[role]
    ensures forall role | Foreign(role, id) :: role in h <==> role in f
  {
  }

  lemma GrownOk(mem: Memory, m1: Memory, m2: Memory, lo: nat, head: nat, head2: nat, g: Book, h: Book, r: Book,
                dying: set<nat>,
                id: nat, n: nat, p: nat, page: Page, perm: nat, top: set<Role>)
    requires Inv(mem, lo, head, g, dying) && Shape(g, id, n, top) && Fetched(mem, m1, g, h, p, page)
    requires Walked(m1, m2, h, r, id)
    requires Inv(m2, lo, head2, r, dying) && MappedMore(g.flat, r.flat, id, n, 1, p, perm) && perm < 1024
    requires perm / 2 % 8 != 0
    ensures var t := Settled(r, LeafOf(id, n), p);
            && Inv(m2, lo, head2, t, dying) && Shape(t, id, n + 1, top) && Frame(mem, m2, g, t, id)
            && UserKept(mem, m2, g, t, id, 0, n)
            && UserPage(m2, t, LeafOf(id, n), WithV(perm), page) && Root(id) in g.at && Root(id) in t.at
            && t.at[Root(id)] == g.at[Root(id)]
  {
    var leaf := LeafOf(id, n);
    hide LeafOf, Inv, MappedMore, Shape, Frame, UserKept, Pte;
    RangeLeaf(id, n);
    ShapeRoot(g, id, n, top);
    GrownFlat(g.flat, r.flat, id, n, 1, p, perm);
    GrownFrame(mem, m1, m2, g, h, r, id, p, leaf, page);
    RolesKnown(mem, lo, head, g, dying);
    GrownLeaves(m1, m2, h, r, id);
    GrownShape(g, r, id, n, p, perm, top);
    hide Walked;
    PteLeaf(p, perm);
    AdoptKeeps(m2, lo, head2, r, dying, leaf, p);
    GrownKept(mem, m1, m2, g, h, r, id, n, p, page, Settled(r, leaf, p), m2);
    LooseKept(m1, m2, h, r, id, p);
  }

  lemma LooseKept(mem: Memory, m: Memory, g: Book, r: Book, id: nat, p: nat)
    requires Walked(mem, m, g, r, id) && p in g.own && g.own[p] == Loose && p in mem
    ensures p in m && m[p] == mem[p] && p in r.own && r.own[p] == Loose
  {
    assert Aside(g, id, p);
  }

  lemma RolesKnown(mem: Memory, lo: nat, head: nat, g: Book, dying: set<nat>)
    requires Inv(mem, lo, head, g, dying)
    ensures forall role | role in g.at :: g.at[role] in g.own && g.own[g.at[role]] == role && g.at[role] in mem
    ensures forall p | p in g.own :: InRam(lo, p) && p in mem
  {
  }

  lemma GrownLeaves(mem: Memory, m: Memory, g: Book, r: Book, id: nat)
    requires Walked(mem, m, g, r, id)
    ensures forall role: Role | role in g.at :: role in r.at && r.at[role] == g.at[role]
    ensures forall role: Role | role.Leaf? :: role in r.at <==> role in g.at
  {
  }

  lemma GrownFail(mem: Memory, m1: Memory, m2: Memory, lo: nat, head: nat, head2: Word, g: Book, h: Book, r: Book,
                  dying: set<nat>,
                  id: nat, n: nat, p: nat, page: Page, perm: nat, top: set<Role>)
    requires Inv(mem, lo, head, g, dying) && Shape(g, id, n, top) && Fetched(mem, m1, g, h, p, page)
    requires Walked(m1, m2, h, r, id)
    requires MappedMore(g.flat, r.flat, id, n, 0, p, perm)
    ensures p in r.own && r.own[p] == Loose && Root(id) in r.at && r.at[Root(id)] == g.at[Root(id)]
    ensures var t := r.(free := [p] + r.free, own := r.own[p := Free]);
            && Shape(t, id, n, top) && Frame(mem, Pushed(m2, head2, p), g, t, id)
            && UserKept(mem, Pushed(m2, head2, p), g, t, id, 0, n)
  {
    hide LeafOf, Inv, Frame, UserKept;
    assert r.flat == g.flat by { assert forall role: Role :: !InRange(role, id, n, n); }
    hide MappedMore;
    RolesKnown(mem, lo, head, g, dying);
    GrownLeaves(m1, m2, h, r, id);
    FailedFrame(mem, m1, m2, head2, g, h, r, id, p, page);
    PushedPage(m2, head2, p);
    hide Walked, Pushed;
    GrownKept(mem, m1, m2, g, h, r, id, n, p, page,
              r.(free := [p] + r.free, own := r.own[p := Free]), Pushed(m2, head2, p));
    LooseKept(m1, m2, h, r, id, p);
  }

  /** PGROUNDUP(sz) / PGSIZE. */
  function Pages(sz: nat): (n: nat) { (sz + PGSIZE - 1) / PGSIZE }

  lemma ShrunkShape(g: Book, r: Book, id: nat, m: nat, n: nat, top: set<Role>)
    requires Shape(g, id, n, top) && m <= n <= TRAPFRAME && Unmapped(g, r, id, m, n, true)
    ensures Shape(r, id, m, top) && Root(id) in g.at && Root(id) in r.at && r.at[Root(id)] == g.at[Root(id)]
  {
    TopOut(id, m, n);
    hide VpnOf, LeafOf;
  }

  /** The top of a space is not in a range below it. */
  lemma TopOut(id: nat, m: nat, n: nat)
    requires n <= TRAPFRAME
    ensures forall role | role in Top(id) :: !InRange(role, id, m, n)
  {
    RangeLeaf(id, TRAMPOLINE);
    RangeLeaf(id, TRAPFRAME);
  }

  lemma ShrunkKept(mem: Memory, m: Memory, g: Book, r: Book, id: nat, a: nat, b: nat)
    requires Unmapped(g, r, id, a, b, true) && KeptButFreed(mem, m, g, r, id) && b <= TRAPFRAME
    requires forall role | role in g.at :: g.at[role] in g.own && g.own[g.at[role]] == role
    ensures UserKept(mem, m, g, r, id, 0, a)
  {
    TopOut(id, a, b);
    hide VpnOf, LeafOf;
    forall role | InRange(role, id, 0, a) && role in g.at && role in g.flat && g.at[role] in mem
      ensures g.at[role] in m && m[g.at[role]] == mem[g.at[role]]
    {
      assert Aside(g, id, g.at[role]);
    }
  }

  lemma KeptTwice(mem: Memory, m: Memory, n: Memory, g: Book, h: Book, r: Book, id: nat, b: nat, c: nat)
    requires UserKept(mem, m, g, h, id, 0, b) && UserKept(m, n, h, r, id, 0, c) && c <= b
    ensures UserKept(mem, n, g, r, id, 0, c)
  {
    hide VpnOf, Top;
    forall role | InRange(role, id, 0, c) && role in g.at && role in g.flat && g.at[role] in mem
      ensures role in r.at && r.at[role] == g.at[role] && role in r.flat && r.flat[role] == g.flat[role]
      ensures g.at[role] in n && n[g.at[role]] == mem[g.at[role]]
    {
      assert InRange(role, id, 0, b);
    }
  }

  lemma UserLess(mem: Memory, m: Memory, g: Book, r: Book, id: nat, b: nat, c: nat)
    requires UserKept(mem, m, g, r, id, 0, c) && b <= c
    ensures UserKept(mem, m, g, r, id, 0, b)
  {
    assert forall role: Role | InRange(role, id, 0, b) :: InRange(role, id, 0, c);
  }

  lemma ZeroNone(mem: Memory, g: Book, id: nat, n: nat)
    ensures ZeroPages(mem, g, id, n, n)
  {
  }

  lemma ZeroNext(mem: Memory, m: Memory, g: Book, r: Book, id: nat, n: nat, a: nat, b: nat)
    requires ZeroPages(mem, g, id, n, a) && UserKept(mem, m, g, r, id, 0, a)
    requires UserPage(m, r, LeafOf(id, a), WithV(USER), Memset(0))
    requires n <= a && b == a + 1
    ensures ZeroPages(m, r, id, n, b)
  {
    hide LeafOf, VpnOf, Pte, Top;
    forall role | InRange(role, id, n, b) ensures UserPage(m, r, role, WithV(USER), Memset(0)) {
      RangeNext(role, id, n, a);
      if role != LeafOf(id, a) {
        assert InRange(role, id, 0, a);
        assert UserPage(mem, g, role, WithV(USER), Memset(0));
      }
    }
  }

  // ---- how many pages it takes ----

  /** The pages in the hands of kernel code. */
  ghost function LoosePages(g: Book): (s: set<nat>) { set p | p in g.own && g.own[p] == Loose }

  lemma {:induction false} ListSize(q: seq<nat>, s: set<nat>)
    requires Distinct(q) && forall p :: p in s <==> p in q
    ensures |s| == |q|
  {
    if q != [] {
      var rest := q[1..];
      forall p ensures p in s - {q[0]} <==> p in rest {
        if p in q && p != q[0] {
          var i :| 0 <= i < |q| && q[i] == p;
          assert rest[i - 1] == p;
        }
      }
      ListSize(rest, s - {q[0]});
    } else {
      assert s == {};
    }
  }

  lemma {:induction false} InverseSize(at: map<Role, nat>, own: map<nat, Role>, s: set<nat>)
    requires forall role | role in at :: at[role] in s && at[role] in own && own[at[role]] == role
    requires forall p | p in s :: p in own && own[p] in at && at[own[p]] == p
    ensures |at| == |s|
    decreases |s|
  {
    if s != {} {
      var p :| p in s;
      var rest := at - {own[p]};
      assert at.Keys == rest.Keys + {own[p]} && |at.Keys| == |rest.Keys| + 1;
      InverseSize(rest, own, s - {p});
    } else {
      assert at == map[];
    }
  }

  /** Every page of RAM is free, in kernel hands, or at its place in a space. */
  lemma Census(mem: Memory, lo: nat, head: nat, g: Book, dying: set<nat>)
    requires Inv(mem, lo, head, g, dying)
    ensures |g.own| == |g.free| + |g.at| + |LoosePages(g)|
  {
    hide Links, Hangs, Tables;
    var free := set p | p in g.own && g.own[p] == Free;
    var used := set p | p in g.own && g.own[p] != Free && g.own[p] != Loose;
    ListSize(g.free, free);
    InverseSize(g.at, g.own, used);
    hide Roles, Lists;
    ThreeParts(g.own, free, used, LoosePages(g));
  }

  lemma ThreeParts(own: map<nat, Role>, free: set<nat>, used: set<nat>, loose: set<nat>)
    requires forall p :: p in free <==> p in own && own[p] == Free
    requires forall p :: p in used <==> p in own && own[p] != Free && own[p] != Loose
    requires forall p :: p in loose <==> p in own && own[p] == Loose
    ensures |own| == |free| + |used| + |loose|
  {
    assert own.Keys == free + used + loose && free !! used && (free + used) !! loose;
    assert |own| == |own.Keys|;
  }

  /** What a space gains the free list loses. */
  lemma FreeCount(mem: Memory, m: Memory, lo: nat, head: nat, head2: nat, g: Book, r: Book, dying: set<nat>,
                  dying2: set<nat>, id: nat)
    requires Inv(mem, lo, head, g, dying) && Inv(m, lo, head2, r, dying2) && Frame(mem, m, g, r, id)
    ensures |r.free| + |r.at| == |g.free| + |g.at|
  {
    hide Inv, LoosePages;
    Census(mem, lo, head, g, dying);
    Census(m, lo, head2, r, dying2);
    RolesKnown(mem, lo, head, g, dying);
    SameLoose(mem, m, g, r, id);
  }

  lemma SameLoose(mem: Memory, m: Memory, g: Book, r: Book, id: nat)
    requires Frame(mem, m, g, r, id) && forall p | p in g.own :: p in mem
    ensures LoosePages(r) == LoosePages(g) && |r.own| == |g.own|
  {
    assert |r.own| == |r.own.Keys| && |g.own| == |g.own.Keys|;
  }

  /** The tables that page v of a space needs. */
  function TablesOf(id: nat, v: nat): (s: set<Role>) { {Mid(id, L2(v)), Low(id, L2(v), L1(v))} }

  /** The tables and pages of RAM that pages [a, b) of a space take. */
  function Room(id: nat, a: nat, b: nat): (s: set<Role>) {
    if a >= b then {} else Room(id, a, b - 1) + {LeafOf(id, b - 1)} + TablesOf(id, b - 1)
  }

  /** The roles that book r fills and g does not are among these. */
  ghost predicate Adds(g: Book, r: Book, roles: set<Role>) {
    forall role | role in r.at :: role in g.at || role in roles
  }

  lemma AddsTwice(g: Book, h: Book, r: Book, a: set<Role>, b: set<Role>)
    requires Adds(g, h, a) && Adds(h, r, b)
    ensures Adds(g, r, a + b)
  {
  }

  lemma AddsNone(g: Book, id: nat, a: nat)
    ensures Adds(g, g, Room(id, a, a))
  {
  }

  lemma AddsMore(g: Book, r: Book, a: set<Role>, b: set<Role>)
    requires Adds(g, r, a) && a <= b
    ensures Adds(g, r, b)
  {
  }

  /** How many pages it takes to fill the roles. */
  ghost function Lack(g: Book, roles: set<Role>): (n: nat) { |roles - g.at.Keys| }

  /** The roles are filled now, and no others. */
  ghost predicate Fills(g: Book, r: Book, roles: set<Role>) { r.at.Keys == g.at.Keys + roles }

  lemma FillsNone(g: Book)
    ensures Fills(g, g, {}) && Lack(g, {}) == 0
  {
    assert g.at.Keys + {} == g.at.Keys && {} - g.at.Keys == {};
  }

  lemma FillsTwice(g: Book, h: Book, r: Book, a: set<Role>, b: set<Role>)
    requires Fills(g, h, a) && Fills(h, r, b)
    ensures Fills(g, r, a + b) && Lack(g, a + b) == Lack(g, a) + Lack(h, b)
  {
    assert g.at.Keys + a + b == g.at.Keys + (a + b);
    LackTwice(g, h, a, b);
  }

  lemma LackTwice(g: Book, h: Book, a: set<Role>, b: set<Role>)
    requires Fills(g, h, a)
    ensures Lack(g, a + b) == Lack(g, a) + Lack(h, b)
  {
    LackSets(g.at.Keys, a, b);
  }

  lemma LackSets(k: set<Role>, a: set<Role>, b: set<Role>)
    ensures |(a + b) - k| == |a - k| + |b - (k + a)|
  {
    var x, y := a - k, b - (k + a);
    assert (a + b) - k == x + y && x !! y;
  }

  lemma LackMore(g: Book, a: set<Role>, b: set<Role>)
    requires a <= b
    ensures Lack(g, a) <= Lack(g, b)
  {
    assert b - g.at.Keys == (a - g.at.Keys) + ((b - a) - g.at.Keys);
  }

  /** Filling roles takes as many pages as were lacking. */
  lemma FillsCount(g: Book, r: Book, roles: set<Role>)
    requires Fills(g, r, roles)
    ensures |r.at| == |g.at| + Lack(g, roles)
  {
    assert r.at.Keys == g.at.Keys + (roles - g.at.Keys);
    assert |r.at| == |r.at.Keys| && |g.at| == |g.at.Keys|;
  }

  /** Filling some of the roles but not these takes fewer. */
  lemma AddsCount(g: Book, r: Book, roles: set<Role>, missing: set<Role>)
    requires Adds(g, r, roles) && missing <= roles && forall role | role in missing :: role !in r.at && role !in g.at
    ensures |r.at| + |missing| <= |g.at| + Lack(g, roles)
  {
    var all := g.at.Keys + (roles - g.at.Keys);
    assert r.at.Keys + missing <= all;
    RolesSmaller(r.at.Keys + missing, all);
    assert |r.at| == |r.at.Keys| && |g.at| == |g.at.Keys| && |r.at.Keys + missing| == |r.at.Keys| + |missing|;
  }

  lemma RolesSmaller(a: set<Role>, b: set<Role>)
    requires a <= b
    ensures |a| <= |b|
  {
    assert b == a + (b - a);
  }

  lemma RoomNext(id: nat, a: nat, b: nat)
    requires a <= b
    ensures Room(id, a, b + 1) == Room(id, a, b) + Room(id, b, b + 1)
    ensures Room(id, b, b + 1) == {LeafOf(id, b)} + TablesOf(id, b)
  {
    assert Room(id, b, b) == {};
    assert Room(id, b, b + 1) == Room(id, b, b) + {LeafOf(id, b)} + TablesOf(id, b);
  }

  lemma {:induction false} RoomJoin(id: nat, a: nat, b: nat, c: nat)
    requires a <= b <= c
    ensures Room(id, a, c) == Room(id, a, b) + Room(id, b, c)
    decreases c
  {
    if b < c { RoomJoin(id, a, b, c - 1); }
  }

  lemma NoRoom(id: nat, a: nat, b: nat)
    requires b <= a
    ensures Room(id, a, b) == {}
  {
  }

  lemma {:induction false} RoomMore(id: nat, a: nat, b: nat, c: nat)
    requires b <= c
    ensures Room(id, a, b) <= Room(id, a, c)
    decreases c
  {
    if b < c { RoomMore(id, a, b, c - 1); }
  }

  /** Taking a page off the free list fills no role. */
  lemma SameAt(mem: Memory, m: Memory, g: Book, h: Book, r: Book, id: nat, roles: set<Role>)
    requires h.at == g.at && Walked(mem, m, h, r, id) && Adds(h, r, roles)
    ensures Adds(g, r, roles) && forall role | role in g.at :: role in r.at
  {
  }

  lemma AddsLeaf(g: Book, r: Book, roles: set<Role>, leaf: Role, p: nat)
    requires Adds(g, r, roles) && leaf in roles && forall role | role in g.at :: role in r.at
    ensures Adds(g, Settled(r, leaf, p), roles) && forall role | role in g.at :: role in Settled(r, leaf, p).at
  {
  }

  lemma AddsSame(g: Book, h: Book, r: Book, roles: set<Role>)
    requires Adds(g, h, roles) && r.at == h.at
    ensures Adds(g, r, roles)
  {
  }

  lemma LackOne(g: Book, roles: set<Role>, role: Role)
    requires role in roles && role !in g.at
    ensures Lack(g, roles) >= 1
  {
    assert role in roles - g.at.Keys;
  }

  /** The page and its tables have come from the free list. */
  lemma GrewRoom(mem: Memory, m: Memory, lo: nat, head: nat, head2: nat, g: Book, r: Book, dying: set<nat>, id: nat,
                 n: nat)
    requires Inv(mem, lo, head, g, dying) && Inv(m, lo, head2, r, dying) && Frame(mem, m, g, r, id)
    requires Adds(g, r, Room(id, n, n + 1)) && (forall role | role in g.at :: role in r.at) && LeafOf(id, n) in r.at
    requires LeafOf(id, n) in r.flat
    ensures Fills(g, r, Room(id, n, n + 1)) && |g.free| == |r.free| + Lack(g, Room(id, n, n + 1))
  {
    hide Inv, Frame, LeafOf, TablesOf;
    RoomNext(id, n, n);
    TablesThere(m, lo, head2, r, dying, id, n);
    assert r.at.Keys == g.at.Keys + Room(id, n, n + 1);
    FillsCount(g, r, Room(id, n, n + 1));
    FreeCount(mem, m, lo, head, head2, g, r, dying, dying, id);
  }

  /** A page that could not be mapped: the free list was too short for it and its tables. */
  lemma GrewNot(mem: Memory, m: Memory, lo: nat, head: nat, head2: nat, g: Book, r: Book, dying: set<nat>, id: nat,
                n: nat)
    requires Inv(mem, lo, head, g, dying) && Inv(m, lo, head2, r, dying) && Frame(mem, m, g, r, id) && |r.free| == 1
    requires Adds(g, r, Room(id, n, n + 1)) && (forall role | role in g.at :: role in r.at)
    requires LeafOf(id, n) !in r.at && TableAt(id, n, 0) !in r.at
    ensures |g.free| < Lack(g, Room(id, n, n + 1))
  {
    hide Inv, Frame, LeafOf, TablesOf, TableAt, Lack;
    var missing := {LeafOf(id, n), TableAt(id, n, 0)};
    LowAmong(id, n);
    RoomNext(id, n, n);
    AddsCount(g, r, Room(id, n, n + 1), missing);
    FreeCount(mem, m, lo, head, head2, g, r, dying, dying, id);
  }

  lemma AddsTables(g: Book, r: Book, id: nat, v: nat)
    requires Adds(g, r, Room(id, v, v + 1)) && forall role: Role | role.Leaf? :: role in r.at <==> role in g.at
    ensures Adds(g, r, TablesOf(id, v))
  {
    RoomNext(id, v, v);
  }

  lemma LowAmong(id: nat, v: nat)
    ensures TableAt(id, v, 0) in TablesOf(id, v) && TableAt(id, v, 0) != LeafOf(id, v)
  {
  }

  lemma AddsAll(g: Book, r: Book, roles: set<Role>)
    requires Adds(g, r, roles) && (forall role | role in g.at :: role in r.at)
    requires forall role | role in roles :: role in r.at
    ensures Fills(g, r, roles)
  {
    assert r.at.Keys == g.at.Keys + roles;
  }

  /** Mapping a page that is not owned takes its tables from the free list, or fails for want of them. */
  lemma TopCount(mem: Memory, m: Memory, lo: nat, head: nat, head2: nat, g: Book, r: Book, dying: set<nat>, id: nat,
                 v: nat)
    requires Inv(mem, lo, head, g, dying) && Inv(m, lo, head2, r, dying) && Frame(mem, m, g, r, id)
    requires Adds(g, r, TablesOf(id, v)) && forall role | role in g.at :: role in r.at
    ensures LeafOf(id, v) in r.flat ==> Fills(g, r, TablesOf(id, v)) && |g.free| == |r.free| + Lack(g, TablesOf(id, v))
    ensures r.free == [] && TableAt(id, v, 0) !in r.at ==> |g.free| < Lack(g, TablesOf(id, v))
  {
    hide Inv, Frame, LeafOf, TablesOf, TableAt, Lack;
    LowAmong(id, v);
    FreeCount(mem, m, lo, head, head2, g, r, dying, dying, id);
    if LeafOf(id, v) in r.flat {
      TablesThere(m, lo, head2, r, dying, id, v);
      AddsAll(g, r, TablesOf(id, v));
      FillsCount(g, r, TablesOf(id, v));
    }
    if r.free == [] && TableAt(id, v, 0) !in r.at {
      AddsCount(g, r, TablesOf(id, v), {TableAt(id, v, 0)});
    }
  }

  /** The tables of every new space: the root, and those above the trampoline and the trapframe. */
  function TopRoom(id: nat): (s: set<Role>) { {Root(id)} + TablesOf(id, TRAMPOLINE) + TablesOf(id, TRAPFRAME) }

  lemma TopTables(g: Book, h: Book, id: nat)
    requires Fills(g, h, {Root(id)}) && forall role | role in g.at :: !OfSpace(role, id)
    ensures Lack(h, TablesOf(id, TRAMPOLINE) + TablesOf(id, TRAPFRAME)) == 2
  {
    hide TablesOf, Fills;
    var a, b := Mid(id, 255), Low(id, 255, 511);
    TopDigits(id);
    NoneThere(g, h, id, a);
    NoneThere(g, h, id, b);
    assert {a, b} - h.at.Keys == {a, b};
  }

  /** The trampoline and the trapframe share their tables. */
  lemma TopDigits(id: nat)
    ensures TablesOf(id, TRAMPOLINE) + TablesOf(id, TRAPFRAME) == {Mid(id, 255), Low(id, 255, 511)}
  {
    assert L2(TRAMPOLINE) == L2(TRAPFRAME) == 255 && L1(TRAMPOLINE) == L1(TRAPFRAME) == 511;
  }

  lemma NoneThere(g: Book, h: Book, id: nat, role: Role)
    requires Fills(g, h, {Root(id)}) && (forall other | other in g.at :: !OfSpace(other, id)) && OfSpace(role, id)
    requires role != Root(id)
    ensures role !in h.at
  {
  }

  /** How many pages n user pages from 0 on take with their tables. */
  function Cost(n: nat): (k: nat) { n + (n + 0x1FF) / 0x200 + (n + 0x3_FFFF) / 0x4_0000 }

  predicate InRoom(role: Role, id: nat, n: nat) {
    || InRange(role, id, 0, n)
    || (role.Mid? && role.id == id && role.i * 0x4_0000 < n)
    || (role.Low? && role.id == id && role.j < ENTRIES && VpnOf(role.i, role.j, 0) < n)
  }

  lemma RoomStep(role: Role, id: nat, n: nat)
    ensures InRoom(role, id, n + 1) <==> InRoom(role, id, n) || role == LeafOf(id, n) || role in TablesOf(id, n)
    ensures !InRoom(LeafOf(id, n), id, n)
    ensures InRoom(Mid(id, L2(n)), id, n) <==> n % 0x4_0000 != 0
    ensures InRoom(Low(id, L2(n), L1(n)), id, n) <==> n % 0x200 != 0
  {
    hide L0, L1, L2, VpnOf;
    RangeNext(role, id, 0, n);
    LowEdge(n);
    MidStep(if role.Mid? then role.i else 0, n);
    if role.Low? && role.j < ENTRIES { LowStep(role.i, role.j, n); }
  }

  lemma MidStep(i: nat, n: nat)
    ensures i * 0x4_0000 < n + 1 <==> i * 0x4_0000 < n || i == L2(n)
    ensures L2(n) * 0x4_0000 < n <==> n % 0x4_0000 != 0
  {
    assert n == 0x4_0000 * L2(n) + n % 0x4_0000;
  }

  lemma LowStep(i: nat, j: nat, n: nat)
    requires j < ENTRIES
    ensures VpnOf(i, j, 0) < n + 1 <==> VpnOf(i, j, 0) < n || (i == L2(n) && j == L1(n))
  {
    Undigits(i, j, 0);
    Digits(n);
    Whole(L2(n), L1(n), L0(n));
    hide L1, L2, L0, VpnOf;
  }

  lemma Whole(i: nat, j: nat, k: nat)
    ensures VpnOf(i, j, 0) + k == VpnOf(i, j, k)
  {
  }

  lemma LowEdge(n: nat)
    ensures L1(n) < ENTRIES && (VpnOf(L2(n), L1(n), 0) < n <==> n % 0x200 != 0)
  {
    Digits(n);
    hide L1, L2;
  }

  lemma {:induction false} RoomIs(id: nat, n: nat)
    ensures forall role :: role in Room(id, 0, n) <==> InRoom(role, id, n)
  {
    hide InRoom, TablesOf, LeafOf;
    if n == 0 {
      forall role ensures !InRoom(role, id, 0) { NoneInRoom(role, id); }
    } else {
      RoomIs(id, n - 1);
      forall role ensures role in Room(id, 0, n) <==> InRoom(role, id, n) { RoomStep(role, id, n - 1); }
    }
  }

  lemma NoneInRoom(role: Role, id: nat)
    ensures !InRoom(role, id, 0)
  {
  }

  lemma {:induction false} RoomSize(id: nat, n: nat)
    ensures |Room(id, 0, n)| == Cost(n)
  {
    hide InRoom, L0, L1, L2, Cost;
    if n > 0 {
      RoomSize(id, n - 1);
      RoomIs(id, n - 1);
      RoomStep(LeafOf(id, n - 1), id, n - 1);
      RoomAdds(Room(id, 0, n - 1), LeafOf(id, n - 1), Mid(id, L2(n - 1)), Low(id, L2(n - 1), L1(n - 1)));
      CostNext(n - 1);
    } else {
      NoCost();
    }
  }

  lemma RoomAdds(s: set<Role>, a: Role, b: Role, c: Role)
    requires a !in s && a.Leaf? && b.Mid? && c.Low?
    ensures |s + {a} + {b, c}| == |s| + 1 + (if b in s then 0 else 1) + (if c in s then 0 else 1)
  {
    var t := s + {a};
    var u := t + {b};
    assert s + {a} + {b, c} == u + {c};
    assert b in t <==> b in s;
    assert c in u <==> c in s;
    if b in s { assert u == t; }
    if c in s { assert u + {c} == u; }
  }

  lemma CostNext(n: nat)
    ensures Cost(n + 1) == Cost(n) + 1 + (if n % 0x200 == 0 then 1 else 0) + (if n % 0x4_0000 == 0 then 1 else 0)
  {
    CeilPage(n);
    CeilTable(n);
  }

  lemma CeilPage(n: nat)
    ensures (n + 1 + 0x1FF) / 0x200 == (n + 0x1FF) / 0x200 + if n % 0x200 == 0 then 1 else 0
  {
    var q, r := n / 0x200, n % 0x200;
    assert n == 0x200 * q + r;
    assert (n + 0x1FF) / 0x200 == if r == 0 then q else q + 1;
  }

  lemma CeilTable(n: nat)
    ensures (n + 1 + 0x3_FFFF) / 0x4_0000 == (n + 0x3_FFFF) / 0x4_0000 + if n % 0x4_0000 == 0 then 1 else 0
  {
    var q, r := n / 0x4_0000, n % 0x4_0000;
    assert n == 0x4_0000 * q + r;
    assert (n + 0x3_FFFF) / 0x4_0000 == if r == 0 then q else q + 1;
  }

  lemma NoCost()
    ensures Cost(0) == 0
  {
  }

  /** In a space with nothing but its top, n user pages take Cost(n) pages; more than RAM holds are not to be had. */
  lemma RoomCost(mem: Memory, lo: nat, head: nat, h: Book, dying: set<nat>, id: nat, n: nat)
    requires Inv(mem, lo, head, h, dying) && OnlyTop(h, id)
    ensures |h.free| >= Lack(h, Room(id, 0, n)) <==> |h.free| >= Cost(n)
  {
    RoomSize(id, n);
    FreeFew(mem, lo, head, h, dying);
    hide Inv, OnlyTop;
    if n <= 0x8000 {
      RoomAway(h, id, n);
    } else {
      RoomAway(h, id, 0x8001);
      RoomSize(id, 0x8001);
      RoomMore(id, 0, 0x8001, n);
      LackMore(h, Room(id, 0, 0x8001), Room(id, 0, n));
    }
  }

  lemma FreeFew(mem: Memory, lo: nat, head: nat, g: Book, dying: set<nat>)
    requires Inv(mem, lo, head, g, dying)
    ensures |g.free| <= 0x8000
  {
    hide Links, Hangs, Tables;
    forall i | 0 <= i < |g.free| ensures KERNBASE <= g.free[i] < PHYSTOP { assert g.free[i] in g.free; }
    FitsSpan(g.free, KERNBASE, PHYSTOP);
  }

  /** Space id has no tables or pages but those of its top. */
  ghost predicate OnlyTop(g: Book, id: nat) { forall role | role in g.at && OfSpace(role, id) :: role in TopRoom(id) }

  lemma TopAlone(g: Book, h: Book, id: nat)
    requires Fills(g, h, TopRoom(id)) && forall role | role in g.at :: !OfSpace(role, id)
    ensures OnlyTop(h, id)
  {
    hide TopRoom;
    assert forall role | role in h.at :: role in h.at.Keys;
  }

  lemma RoomAway(h: Book, id: nat, n: nat)
    requires OnlyTop(h, id) && n <= 0x8001
    ensures Lack(h, Room(id, 0, n)) == |Room(id, 0, n)|
  {
    RoomIs(id, n);
    TopDigits(id);
    hide Room, TablesOf;
    forall role | role in Room(id, 0, n) ensures role !in h.at.Keys {
      assert InRoom(role, id, n) && OfSpace(role, id) && role !in TopRoom(id);
    }
    assert Room(id, 0, n) - h.at.Keys == Room(id, 0, n);
  }

  /** The tables of a mapped page are there. */
  lemma TablesThere(mem: Memory, lo: nat, head: nat, g: Book, dying: set<nat>, id: nat, v: nat)
    requires Inv(mem, lo, head, g, dying) && LeafOf(id, v) in g.flat
    ensures forall role | role in TablesOf(id, v) :: role in g.at
  {
    hide L0, L1, L2;
    assert Child(TableAt(id, v, 0), L0(v)) == LeafOf(id, v);
    assert Child(TableAt(id, v, 1), L1(v)) == TableAt(id, v, 0);
  }

  // ---- uvmcopy ----

  /** Pages [0, b) of space kid are copies of those of space id: equal bytes and flags in pages of its own. */
  ghost predicate Copied(mem: Memory, g: Book, id: nat, kid: nat, b: nat) {
    forall v: nat | v < b :: CopyOf(mem, g, LeafOf(id, v), LeafOf(kid, v))
  }

  ghost predicate CopyOf(mem: Memory, g: Book, a: Role, b: Role) {
    && a in g.at && a in g.flat && b in g.at && b in g.flat && g.at[a] != g.at[b]
    && PageTable.Flags(g.flat[b]) == PageTable.Flags(g.flat[a]) && PageOf(g.flat[b]) == g.at[b]
    && g.at[a] in mem && g.at[b] in mem && mem[g.at[b]] == mem[g.at[a]]
  }

  /** The flags of a leaf entry, used as permissions, give the same flags. */
  lemma LeafPerm(w: Word)
    requires IsLeaf(w)
    ensures var f := PageTable.Flags(w); f < 1024 && f / 2 % 8 != 0 && WithV(f) == f
  {
    var q, f := w / 1024, w % 1024;
    assert w == 1024 * q + f;
    Halves(512 * q, f);
    Eights(64 * q, f / 2);
  }

  lemma Halves(a: nat, b: nat)
    ensures (2 * a + b) / 2 == a + b / 2 && (2 * a + b) % 2 == b % 2
  {
  }

  lemma Eights(a: nat, b: nat)
    ensures (8 * a + b) % 8 == b % 8
  {
  }

  lemma CopiedNext(mem: Memory, m: Memory, g: Book, r: Book, id: nat, kid: nat, n: nat, w: Word, page: Page)
    requires Copied(mem, g, id, kid, n) && UserKept(mem, m, g, r, kid, 0, n) && Frame(mem, m, g, r, kid) && id != kid
    requires LeafOf(id, n) in g.at && LeafOf(id, n) in g.flat && g.flat[LeafOf(id, n)] == w && IsLeaf(w)
    requires g.at[LeafOf(id, n)] in mem && mem[g.at[LeafOf(id, n)]] == page
    requires forall role | role in g.at :: g.at[role] in g.own && g.own[g.at[role]] == role && g.at[role] in mem
    requires forall role | role in r.at :: r.at[role] in r.own && r.own[r.at[role]] == role && r.at[role] < MAXPPN
    requires UserPage(m, r, LeafOf(kid, n), PageTable.Flags(w), page)
    ensures Copied(m, r, id, kid, n + 1)
  {
    hide Pte, Top, L0, L1, L2, UserKept, CopyOf;
    forall v: nat | v < n + 1 ensures CopyOf(m, r, LeafOf(id, v), LeafOf(kid, v)) {
      if v < n {
        assert CopyOf(mem, g, LeafOf(id, v), LeafOf(kid, v));
        CopyKept(mem, m, g, r, id, kid, v, n);
      } else {
        CopyNew(mem, m, g, r, LeafOf(id, n), LeafOf(kid, n), kid, w, page);
      }
    }
  }

  lemma CopyKept(mem: Memory, m: Memory, g: Book, r: Book, id: nat, kid: nat, v: nat, n: nat)
    requires UserKept(mem, m, g, r, kid, 0, n) && Frame(mem, m, g, r, kid) && id != kid && v < n
    requires CopyOf(mem, g, LeafOf(id, v), LeafOf(kid, v))
    requires forall role | role in g.at :: g.at[role] in g.own && g.own[g.at[role]] == role
    ensures CopyOf(m, r, LeafOf(id, v), LeafOf(kid, v))
  {
    RangeLeaf(kid, v);
    Digits(v);
    hide L0, L1, L2, Top;
    assert InRange(LeafOf(kid, v), kid, 0, n) && Foreign(LeafOf(id, v), kid);
  }

  lemma CopyNew(mem: Memory, m: Memory, g: Book, r: Book, a: Role, b: Role, kid: nat, w: Word, page: Page)
    requires Frame(mem, m, g, r, kid) && Foreign(a, kid) && a != b && a in g.at && a in g.flat && g.flat[a] == w
    requires g.at[a] in g.own && g.own[g.at[a]] == a && g.at[a] in mem && mem[g.at[a]] == page
    requires forall role | role in r.at :: r.at[role] in r.own && r.own[r.at[role]] == role && r.at[role] < MAXPPN
    requires UserPage(m, r, b, PageTable.Flags(w), page)
    ensures CopyOf(m, r, a, b)
  {
    hide Pte;
    PteParts(r.at[b], PageTable.Flags(w));
  }

  lemma PteParts(p: nat, flags: nat)
    requires p < MAXPPN && flags < 1024
    ensures PageOf(Pte(p, flags)) == p && PageTable.Flags(Pte(p, flags)) == flags
  {
  }

  lemma CopiedNone(mem: Memory, g: Book, id: nat, kid: nat)
    ensures Copied(mem, g, id, kid, 0)
  {
  }

  /** Other spaces keep their shape. */
  lemma FrameShape(mem: Memory, m: Memory, g: Book, r: Book, id: nat, other: nat, n: nat, top: set<Role>, pt: nat)
    requires Frame(mem, m, g, r, id) && other != id && Shape(g, other, n, top) && Rooted(g, other, pt)
    ensures Shape(r, other, n, top) && Rooted(r, other, pt)
  {
    assert Foreign(Root(other), id);
    assert forall role: Role | role.Leaf? && role.id == other :: Foreign(role, id);
  }

  // ---- the top of every space ----

  /** Space id maps trampoline page t, to be executed, and trapframe page f, to be written, both closed to user code. */
  ghost predicate Topped(g: Book, id: nat, t: nat, f: nat) {
    && Tr(g, id, TRAMPOLINE) == Pte(t, PTE_R + PTE_X + PTE_V)
    && Tr(g, id, TRAPFRAME) == Pte(f, PTE_R + PTE_W + PTE_V)
  }

  ghost predicate TopKept(g: Book, r: Book, id: nat) {
    Tr(r, id, TRAMPOLINE) == Tr(g, id, TRAMPOLINE) && Tr(r, id, TRAPFRAME) == Tr(g, id, TRAPFRAME)
  }

  lemma TopIn(g: Book, id: nat, n: nat)
    requires Shape(g, id, n, Top(id))
    ensures forall role | role in Top(id) :: role in g.flat
  {
    RangeLeaf(id, TRAMPOLINE);
    RangeLeaf(id, TRAPFRAME);
  }

  lemma UserTop(mem: Memory, m: Memory, g: Book, r: Book, id: nat, n: nat, k: nat)
    requires UserKept(mem, m, g, r, id, 0, k) && Shape(g, id, n, Top(id))
    ensures TopKept(g, r, id)
  {
    TopIn(g, id, n);
    hide LeafOf, Shape;
  }

  lemma FrameTop(mem: Memory, m: Memory, g: Book, r: Book, id: nat, other: nat)
    requires Frame(mem, m, g, r, id) && other != id
    ensures TopKept(g, r, other)
  {
    assert Foreign(LeafOf(other, TRAMPOLINE), id) && Foreign(LeafOf(other, TRAPFRAME), id);
  }

  lemma ToppedOn(g: Book, r: Book, id: nat, t: nat, f: nat)
    requires Topped(g, id, t, f) && TopKept(g, r, id)
    ensures Topped(r, id, t, f)
  {
    hide Pte, Tr;
  }

  // ---- freewalk ----

  /** A table in the subtree of a table. */
  predicate Under(r: Role, role: Role) {
    match role
    case Root(id) => IsTable(r) && r.id == id
    case Mid(id, i) => (r.Mid? || r.Low?) && r.id == id && r.i == i
    case Low(_, _, _) => r == role
    case _ => false
  }

  /** A table strictly below role, through one of its first n entries. */
  predicate Below(r: Role, role: Role, n: nat) {
    match role
    case Root(id) => (r.Mid? || r.Low?) && r.id == id && r.i < n
    case Mid(id, i) => r.Low? && r.id == id && r.i == i && r.j < n
    case _ => false
  }

  ghost function BelowSet(g: Book, role: Role, n: nat): (s: set<Role>) { set q | q in g.at && Below(q, role, n) }

  ghost function UnderSet(g: Book, role: Role): (s: set<Role>) { set q | q in g.at && Under(q, role) }

  /** r is g with the pages in the given roles on the free list. */
  ghost predicate Reclaimed(g: Book, r: Book, gone: set<Role>) {
    && r.flat == g.flat && r.own.Keys == g.own.Keys && r.at == g.at - gone
    && forall p | p in g.own :: r.own[p] == if g.own[p] in gone then Free else g.own[p]
  }

  lemma ReclaimedTwice(g: Book, h: Book, r: Book, a: set<Role>, b: set<Role>)
    requires Reclaimed(g, h, a) && Reclaimed(h, r, b) && Free !in b
    ensures Reclaimed(g, r, a + b)
  {
  }

  /** Memory of pages that were neither free nor in the subtree is as it was. */
  ghost predicate KeptOutside(mem: Memory, m: Memory, g: Book, role: Role) {
    forall p | p in mem && (p in g.own ==> g.own[p] != Free && !Under(g.own[p], role)) :: p in m && m[p] == mem[p]
  }

  /** The tables strictly below a table hold what they should. */
  ghost predicate Intact(mem: Memory, g: Book, role: Role) {
    forall q | q in g.at && IsTable(q) && Under(q, role) && q != role :: TableOk(mem, g, q)
  }

  ghost predicate EntriesOk(mem: Memory, g: Book, role: Role, page: nat, i: nat)
    requires IsTable(role)
  {
    page in mem && forall j | i <= j < ENTRIES :: mem[page][j] == Entry(g, role, j)
  }

  lemma BelowNone(g: Book, role: Role)
    ensures BelowSet(g, role, 0) == {} && Reclaimed(g, g, BelowSet(g, role, 0))
  {
  }

  lemma BelowNext(g: Book, h: Book, role: Role, i: nat)
    requires IsTable(role) && !role.Low? && Reclaimed(g, h, BelowSet(g, role, i))
    ensures BelowSet(g, role, i + 1) == BelowSet(g, role, i) + UnderSet(h, Child(role, i))
  {
  }

  /** With no table below an entry, nothing is below it. */
  lemma NoChild(mem: Memory, lo: nat, head: nat, g: Book, dying: set<nat>, role: Role, i: nat)
    requires Inv(mem, lo, head, g, dying) && IsTable(role) && !role.Low? && Child(role, i) !in g.at
    ensures UnderSet(g, Child(role, i)) == {}
  {
    assert forall q: Role | q.Low? :: Child(Mid(q.id, q.i), q.j) == q;
  }

  /** After freewalk on the child at entry i, the rest of the tree is as it was. */
  lemma RestIntact(mem: Memory, m: Memory, g: Book, r: Book, role: Role, i: nat, page: nat)
    requires IsTable(role) && !role.Low? && i < ENTRIES && role in g.at && g.at[role] == page
    requires forall q | q in g.at :: g.at[q] in g.own && g.own[g.at[q]] == q
    requires Intact(mem, g, role) && EntriesOk(mem, g, role, page, i)
    requires Reclaimed(g, r, UnderSet(g, Child(role, i))) && KeptOutside(mem, m, g, Child(role, i))
    ensures role in r.at && r.at[role] == page && EntriesOk(m, r, role, page, i + 1) && Intact(m, r, role)
  {
    var c := Child(role, i);
    assert !Under(role, c) && page in m && m[page] == mem[page];
    forall j: nat | i + 1 <= j < ENTRIES ensures m[page][j] == Entry(r, role, j) {
      assert !Under(Child(role, j), c);
    }
    forall q | q in r.at && IsTable(q) && Under(q, role) && q != role ensures TableOk(m, r, q) {
      assert TableOk(mem, g, q);
      assert !Under(q, c);
      forall x: nat | x < ENTRIES ensures Entry(r, q, x) == Entry(g, q, x) {
        assert !Under(Child(q, x), c);
      }
    }
  }

  lemma KeptSame(mem: Memory, g: Book, role: Role)
    ensures KeptOutside(mem, mem, g, role)
  {
  }

  /** The tables below entry i of a table. */
  ghost function ChildSet(g: Book, role: Role, i: nat): (s: set<Role>)
    requires IsTable(role)
  {
    if role.Low? then {} else UnderSet(g, Child(role, i))
  }

  /** The entries freewalk meets: nothing, or a table below. */
  lemma EntryForms(mem: Memory, g: Book, role: Role, page: nat, i: nat)
    requires IsTable(role) && i < ENTRIES && EntriesOk(mem, g, role, page, i)
    requires forall leaf | leaf in g.flat :: leaf != Free && leaf != Loose && leaf.id != role.id
    ensures var w := mem[page][i];
            && (PageTable.Valid(w) ==>
                  !role.Low? && Child(role, i) in g.at && w / 2 % 8 == 0 && PageOf(w) == g.at[Child(role, i)])
            && (!PageTable.Valid(w) ==> role.Low? || Child(role, i) !in g.at)
  {
    var w := mem[page][i];
    assert w == Entry(g, role, i);
    if !role.Low? && Child(role, i) in g.at {
      var p := g.at[Child(role, i)];
      Halves(512 * p, 1);
      Eights(64 * p, 0);
    }
  }

  lemma ChildIntact(mem: Memory, g: Book, role: Role, i: nat)
    requires IsTable(role) && !role.Low? && Intact(mem, g, role) && Child(role, i) in g.at
    ensures EntriesOk(mem, g, Child(role, i), g.at[Child(role, i)], 0) && Intact(mem, g, Child(role, i))
  {
    assert Under(Child(role, i), role);
    assert TableOk(mem, g, Child(role, i));
  }

  lemma NoEntry(mem: Memory, lo: nat, head: nat, g: Book, dying: set<nat>, role: Role, i: nat, page: nat)
    requires Inv(mem, lo, head, g, dying) && IsTable(role) && (role.Low? || Child(role, i) !in g.at)
    ensures Reclaimed(g, g, ChildSet(g, role, i))
  {
    if !role.Low? { NoChild(mem, lo, head, g, dying, role, i); }
  }

  /** Clearing the entry of a freed child disturbs nothing else. */
  lemma CleanEntry(mem: Memory, m: Memory, g: Book, r: Book, role: Role, i: nat, page: nat)
    requires IsTable(role) && !role.Low? && i < ENTRIES && page in g.own && g.own[page] == role
    requires KeptOutside(mem, m, g, Child(role, i)) && role in r.at && r.at[role] == page
    requires EntriesOk(m, r, role, page, i + 1)
             && Intact(m, r, role)
    requires forall q | q in r.at :: r.at[q] in r.own && r.own[r.at[q]] == q
    ensures var n := m[page := m[page][i := 0]];
            KeptOutside(mem, n, g, role) && EntriesOk(n, r, role, page, i + 1) && Intact(n, r, role)
  {
    var n := m[page := m[page][i := 0]];
    forall p | p in mem && (p in g.own ==> g.own[p] != Free && !Under(g.own[p], role))
      ensures p in n && n[p] == mem[p]
    {
      assert p in g.own ==> !Under(g.own[p], Child(role, i));
    }
    forall q | q in r.at && IsTable(q) && Under(q, role) && q != role ensures TableOk(n, r, q) {
      assert TableOk(m, r, q);
      assert r.at[q] != page;
    }
  }

  lemma BelowStep(mem: Memory, m1: Memory, m2: Memory, g: Book, g1: Book, g2: Book, role: Role, i: nat)
    requires IsTable(role) && Reclaimed(g, g1, BelowSet(g, role, i)) && Reclaimed(g1, g2, ChildSet(g1, role, i))
    requires KeptOutside(mem, m1, g, role) && KeptOutside(m1, m2, g1, role)
    ensures Reclaimed(g, g2, BelowSet(g, role, i + 1)) && KeptOutside(mem, m2, g, role) && g2.flat == g1.flat
  {
    if role.Low? {
      assert BelowSet(g, role, i + 1) == BelowSet(g, role, i) == {};
    } else {
      BelowNext(g, g1, role, i);
    }
    ReclaimedTwice(g, g1, g2, BelowSet(g, role, i), ChildSet(g1, role, i));
    forall p | p in mem && (p in g.own ==> g.own[p] != Free && !Under(g.own[p], role))
      ensures p in m2 && m2[p] == mem[p]
    {
      assert p in g1.own ==> g1.own[p] == g.own[p];
    }
  }

  /** After the loop the table has nothing below it. */
  lemma BareEnd(mem: Memory, lo: nat, head: nat, g: Book, r: Book, dying: set<nat>, role: Role)
    requires Inv(mem, lo, head, r, dying) && IsTable(role) && role in r.at
    requires Reclaimed(g, r, BelowSet(g, role, ENTRIES))
    requires forall leaf | leaf in g.flat :: leaf != Free && leaf != Loose && leaf.id != role.id
    ensures Bare(r, role)
  {
    forall x: nat ensures Child(role, x) !in r.at && Child(role, x) !in r.flat {
      assert x < ENTRIES ==> Child(role, x) !in r.at || role.Low?;
    }
  }

  /** The table itself goes last. */
  lemma TableGone(mem: Memory, m: Memory, head: Word, g: Book, r: Book, role: Role)
    requires Hangs(g) && IsTable(role) && role in r.at && Reclaimed(g, r, BelowSet(g, role, ENTRIES))
             && KeptOutside(mem, m, g, role) && Bare(r, role)
    requires r.at[role] in r.own && r.own[r.at[role]] == role
    requires forall p | p in r.own && r.own[p] == role :: p == r.at[role]
    ensures var p := r.at[role];
            var t := Dropped(r, role).(free := [p] + r.free, own := Dropped(r, role).own[p := Free]);
            Reclaimed(g, t, UnderSet(g, role)) && KeptOutside(mem, Pushed(m, head, p), g, role)
  {
    UnderAll(g, role);
    hide Hangs, Bare, Pushed;
    var p := r.at[role];
    PushedPage(m, head, p);
    var t := Dropped(r, role).(free := [p] + r.free, own := Dropped(r, role).own[p := Free]);
    assert !Below(role, role, ENTRIES);
    assert t.at == g.at - UnderSet(g, role);
    forall q | q in g.own ensures t.own[q] == if g.own[q] in UnderSet(g, role) then Free else g.own[q] {
      assert r.own[q] == if g.own[q] in BelowSet(g, role, ENTRIES) then Free else g.own[q];
    }
  }

  lemma UnderAll(g: Book, role: Role)
    requires Hangs(g) && IsTable(role) && role in g.at
    ensures UnderSet(g, role) == BelowSet(g, role, ENTRIES) + {role}
  {
    assert forall q: Role | q.Low? :: Child(Mid(q.id, q.i), q.j) == q;
    assert forall q: Role | q.Mid? :: Child(Root(q.id), q.i) == q;
  }

  // ---- spaces from start to end ----

  predicate OfSpace(role: Role, id: nat) { role != Free && role != Loose && role.id == id }

  /** Space id is gone: exactly its pages have gone to the free list. */
  ghost predicate Freed(g: Book, r: Book, id: nat) {
    && r.own.Keys == g.own.Keys
    && (forall p | p in g.own :: r.own[p] == if OfSpace(g.own[p], id) then Free else g.own[p])
    && (forall role | role in r.at || role in r.flat :: !OfSpace(role, id))
  }

  /** Unmapping all user pages and freeing all tables leaves nothing. */
  lemma FreedAll(g: Book, h: Book, r: Book, id: nat, n: nat)
    requires Shape(g, id, n, {}) && Unmapped(g, h, id, 0, n, true) && Shape(h, id, 0, {})
    requires Reclaimed(h, r, UnderSet(h, Root(id)))
    requires forall p | p in g.own && OfSpace(g.own[p], id) :: g.own[p] in g.at
    requires forall role | role in r.flat :: role.Leaf?
    ensures Freed(g, r, id)
  {
    hide VpnOf, Top;
    assert forall role: Role :: !InRange(role, id, 0, 0);
    forall p | p in g.own ensures r.own[p] == if OfSpace(g.own[p], id) then Free else g.own[p] {
      if g.own[p].Leaf? && g.own[p].id == id {
        assert InRange(g.own[p], id, 0, n);
      } else {
        assert h.own[p] == g.own[p];
      }
    }
    forall role | role in r.at || role in r.flat ensures !OfSpace(role, id) {
      assert role in h.at || role in h.flat;
    }
  }

  lemma SpaceRoles(mem: Memory, lo: nat, head: nat, g: Book, dying: set<nat>, id: nat)
    requires Inv(mem, lo, head, g, dying)
    ensures forall p | p in g.own && OfSpace(g.own[p], id) :: g.own[p] in g.at
    ensures forall role | role in g.flat :: role.Leaf?
  {
  }

  /** A space outside dying is ready for freewalk. */
  lemma WholeIntact(mem: Memory, lo: nat, head: nat, g: Book, dying: set<nat>, id: nat)
    requires Inv(mem, lo, head, g, dying) && id !in dying && Root(id) in g.at && Shape(g, id, 0, {})
    ensures EntriesOk(mem, g, Root(id), g.at[Root(id)], 0) && Intact(mem, g, Root(id))
    ensures forall leaf | leaf in g.flat :: leaf != Free && leaf != Loose && leaf.id != id
  {
    hide Links, Lists, Roles, VpnOf, Top;
    assert TableOk(mem, g, Root(id));
    assert forall role: Role :: !InRange(role, id, 0, 0);
    forall q | q in g.at && IsTable(q) && Under(q, Root(id)) && q != Root(id) ensures TableOk(mem, g, q) {}
  }

  lemma KeptFrame(mem: Memory, m: Memory, g: Book, r: Book, id: nat)
    requires Reclaimed(g, r, UnderSet(g, Root(id))) && KeptOutside(mem, m, g, Root(id))
    ensures Frame(mem, m, g, r, id)
  {
    assert forall role: Role | Foreign(role, id) :: !Under(role, Root(id));
  }

  lemma NoRoot(g: Book, r: Book, id: nat)
    requires Freed(g, r, id)
    ensures Root(id) !in r.at
  {
  }

  /** Mapping one more page of the top. */
  lemma TopShape(g: Book, r: Book, id: nat, n: nat, v: nat, p: nat, perm: nat, top: set<Role>)
    requires Shape(g, id, n, top) && MappedMore(g.flat, r.flat, id, v, 1, p, perm) && LeafOf(id, v) in Top(id)
    requires Root(id) in r.at
    requires forall role: Role | role.Leaf? :: role in r.at <==> role in g.at
    ensures Shape(r, id, n, top + {LeafOf(id, v)})
  {
    hide LeafOf, VpnOf, Top;
    forall role: Role | role.Leaf? && role.id == id
      ensures role in r.flat <==> InRange(role, id, 0, n) || role in top + {LeafOf(id, v)}
    {
      RangeOne(role, id, v);
    }
  }

  lemma NoMapping(f: map<Role, Word>, h: map<Role, Word>, id: nat, v: nat, p: nat, perm: nat)
    requires MappedMore(f, h, id, v, 0, p, perm)
    ensures h == f
  {
    assert forall role: Role :: !InRange(role, id, v, v);
  }

  /** Unmapping one page of the top. */
  lemma TopLess(g: Book, r: Book, id: nat, n: nat, v: nat, top: set<Role>)
    requires Shape(g, id, n, top) && Unmapped(g, r, id, v, v + 1, false) && LeafOf(id, v) in Top(id) && n < TRAPFRAME
    ensures Shape(r, id, n, top - {LeafOf(id, v)}) && Root(id) in g.at && Root(id) in r.at
    ensures r.at[Root(id)] == g.at[Root(id)]
  {
    TopOut(id, 0, n);
    hide LeafOf, VpnOf, Top;
    forall role: Role | role.Leaf? && role.id == id
      ensures role in r.at <==> InRange(role, id, 0, n)
      ensures role in r.flat <==> InRange(role, id, 0, n) || role in top - {LeafOf(id, v)}
    {
      RangeOne(role, id, v);
    }
  }

  /** A root in a zeroed page is an empty space. */
  lemma EmptyShape(mem: Memory, lo: nat, head: nat, g: Book, dying: set<nat>, id: nat, p: nat)
    requires Inv(mem, lo, head, g, dying) && Root(id) !in g.at
    ensures Shape(Settled(g, Root(id), p), id, 0, {})
  {
    assert forall role: Role :: !InRange(role, id, 0, 0);
    NoSpace(mem, lo, head, g, dying, id);
  }

  lemma NoSpace(mem: Memory, lo: nat, head: nat, g: Book, dying: set<nat>, id: nat)
    requires Inv(mem, lo, head, g, dying) && Root(id) !in g.at
    ensures forall role | role in g.at || role in g.flat :: !OfSpace(role, id)
  {
    DyingKeeps(mem, lo, head, g, dying, id);
    Gone(mem, lo, head, g, dying, id);
  }

  lemma MapsAt(f: map<Role, Word>, h: map<Role, Word>, id: nat, v: nat, p: nat, perm: nat)
    requires MappedMore(f, h, id, v, 1, p, perm)
    ensures LeafOf(id, v) in h && h[LeafOf(id, v)] == Pte(p, WithV(perm))
  {
    hide LeafOf, VpnOf, Pte;
    RangeOne(LeafOf(id, v), id, v);
    RangeLeaf(id, v);
  }

  lemma SameShape(g: Book, r: Book, id: nat, n: nat, top: set<Role>)
    requires Shape(g, id, n, top) && r.flat == g.flat && Root(id) in r.at
             && forall role: Role | role.Leaf? :: role in r.at <==> role in g.at
    ensures Shape(r, id, n, top)
  {
  }

  lemma TopNotMapped(g: Book, id: nat, v: nat, top: set<Role>)
    requires Shape(g, id, 0, top) && LeafOf(id, v) in Top(id) && LeafOf(id, v) !in top
    ensures LeafOf(id, v) !in g.flat
  {
    assert !InRange(LeafOf(id, v), id, 0, 0);
  }

  lemma CreateFrame(mem: Memory, g: Book, id: nat, p: nat)
    requires g.free != [] && p == g.free[0] && p in g.own && g.own[p] == Free
    ensures Frame(mem, mem[p := Memset(0)], g, Settled(Taken(g), Root(id), p), id)
  {
  }

  lemma TopMapped(g: Book, id: nat, v: nat, n: nat, top: set<Role>)
    requires Shape(g, id, n, top) && LeafOf(id, v) in Top(id) && LeafOf(id, v) in top && n <= TRAPFRAME
    ensures LeafOf(id, v) in g.flat && LeafOf(id, v) !in g.at
  {
    TopOut(id, 0, n);
  }

  lemma TopsDiffer(id: nat)
    ensures LeafOf(id, TRAMPOLINE) != LeafOf(id, TRAPFRAME)
    ensures Top(id) == {LeafOf(id, TRAMPOLINE)} + {LeafOf(id, TRAPFRAME)}
  {
    RangeLeaf(id, TRAMPOLINE);
    RangeLeaf(id, TRAPFRAME);
  }

  /** A space that was started and freed again leaves every page as it was. */
  lemma BackAgain(mem: Memory, m: Memory, g: Book, h: Book, r: Book, id: nat)
    requires Frame(mem, m, g, h, id) && Freed(h, r, id) && forall p | p in g.own :: p in mem && !OfSpace(g.own[p], id)
    ensures Root(id) !in r.at && forall p | p in g.own :: p in r.own && r.own[p] == g.own[p]
  {
    forall p | p in g.own ensures p in r.own && r.own[p] == g.own[p] {
      assert p in h.own;
    }
  }

  lemma NewSpace(mem: Memory, lo: nat, head: nat, g: Book, dying: set<nat>, id: nat)
    requires Inv(mem, lo, head, g, dying) && Root(id) !in g.at
    ensures forall p | p in g.own :: p in mem && !OfSpace(g.own[p], id)
  {
    NoSpace(mem, lo, head, g, dying, id);
  }

  lemma NoRoles(mem: Memory, lo: nat, head: nat, g: Book, dying: set<nat>, id: nat)
    requires Inv(mem, lo, head, g, dying) && Root(id) !in g.at
    ensures forall role | role in g.at :: !OfSpace(role, id)
  {
    hide Inv;
    NewSpace(mem, lo, head, g, dying, id);
    RolesKnown(mem, lo, head, g, dying);
  }

  /** Unmapping pages that are not freed does not change what freeing the space gives back. */
  lemma FreedAfter(g: Book, h: Book, r: Book, id: nat, a: nat, b: nat)
    requires Unmapped(g, h, id, a, b, false) && Freed(h, r, id)
    ensures Freed(g, r, id)
  {
  }

  lemma StartOk(mem: Memory, lo: nat, g: Book)
    requires g.free == [] && g.at == map[] && g.flat == map[] && KERNBASE < lo
    requires forall p | KERNBASE <= p < PHYSTOP :: p in mem
    requires (forall p :: p in g.own <==> InRam(lo, p)) && forall p | p in g.own :: g.own[p] == Loose
    ensures Inv(mem, lo, 0, g, {})
  {
  }

  /** Every page of RAM is used as before. */
  ghost predicate SamePages(g: Book, r: Book) {
    r.own.Keys == g.own.Keys && forall p | p in g.own :: r.own[p] == g.own[p]
  }

  /** A space that was not there, lived among others and was freed leaves every page as it was. */
  lemma LifeEnds(mem: Memory, m: Memory, g: Book, h: Book, r: Book, id: nat)
    requires Frame(mem, m, g, h, id) && Freed(h, r, id) && forall p | p in g.own :: p in mem && !OfSpace(g.own[p], id)
    ensures SamePages(g, r)
  {
    forall p | p in g.own ensures r.own[p] == g.own[p] {
      assert p in h.own;
    }
  }

  lemma FrameKeys(mem: Memory, m: Memory, g: Book, r: Book, id: nat)
    requires Frame(mem, m, g, r, id)
    ensures r.own.Keys == g.own.Keys
  {
  }

  lemma SameAs(g: Book, r: Book)
    requires r.own.Keys == g.own.Keys && forall p | p in g.own :: r.own[p] == g.own[p]
    ensures SamePages(g, r)
  {
  }

  // ---- user memory as bytes ----

  predicate UserBit(w: Word) { w / 16 % 2 == 1 }

  /** Virtual page v is a user page that user code may access. */
  ghost predicate Accessible(g: Book, id: nat, v: nat) {
    v < MAXVPN && LeafOf(id, v) in g.at && LeafOf(id, v) in g.flat && UserBit(g.flat[LeafOf(id, v)])
  }

  /** What is mapped but not owned, the top of the space, is not for user code. */
  ghost predicate OnlyOwn(g: Book, id: nat) {
    forall v: nat | v < MAXVPN && LeafOf(id, v) in g.flat && UserBit(g.flat[LeafOf(id, v)]) :: LeafOf(id, v) in g.at
  }

  /** The byte at a virtual address of a user page. */
  ghost function VByte(mem: Memory, g: Book, id: nat, va: nat): (b: Byte) {
    if LeafOf(id, va / PGSIZE) in g.at && g.at[LeafOf(id, va / PGSIZE)] in mem
    then PageByte(mem[g.at[LeafOf(id, va / PGSIZE)]], va % PGSIZE) else 0
  }

  /** From mem to m, data was written at va in space id, and nothing else. */
  ghost predicate Overlaid(mem: Memory, m: Memory, g: Book, id: nat, va: nat, data: seq<Byte>) {
    && (forall u: nat :: VByte(m, g, id, u) == if va <= u < va + |data| then data[u - va] else VByte(mem, g, id, u))
    && (forall p | p in mem && (p in g.own ==> !(g.own[p].Leaf? && g.own[p].id == id)) :: p in m && m[p] == mem[p])
  }

  /** The bytes of space id below lim are as they were. */
  ghost predicate BytesBelow(mem: Memory, m: Memory, g: Book, r: Book, id: nat, lim: nat) {
    forall u: nat | u < lim :: VByte(m, r, id, u) == VByte(mem, g, id, u)
  }

  /** Work on the tables of a space changes none of its bytes. */
  lemma WalkedBytes(mem: Memory, m: Memory, g: Book, r: Book, id: nat, lim: nat)
    requires Walked(mem, m, g, r, id)
    requires forall role | role in g.at :: g.at[role] in g.own && g.own[g.at[role]] == role && g.at[role] in mem
    ensures BytesBelow(mem, m, g, r, id, lim)
  {
    hide PageByte;
  }

  lemma OverlaidNone(mem: Memory, g: Book, id: nat, va: nat)
    ensures Overlaid(mem, mem, g, id, va, [])
  {
  }

  lemma OverlaidTwice(mem: Memory, m: Memory, n: Memory, g: Book, id: nat, va: nat, a: seq<Byte>, b: seq<Byte>)
    requires Overlaid(mem, m, g, id, va, a) && Overlaid(m, n, g, id, va + |a|, b)
    ensures Overlaid(mem, n, g, id, va, a + b)
  {
  }

  /** A copy into one page is an overlay. */
  lemma PageOverlaid(mem: Memory, g: Book, id: nat, v: nat, o: nat, data: seq<Byte>)
    requires LeafOf(id, v) in g.at && g.at[LeafOf(id, v)] in mem && o + |data| <= PGSIZE
    requires forall role | role in g.at :: g.at[role] in g.own && g.own[g.at[role]] == role
    ensures var p := g.at[LeafOf(id, v)];
            Overlaid(mem, mem[p := PutBytes(mem[p], o, data)], g, id, v * PGSIZE + o, data)
  {
    hide LeafOf, PutBytes, VByte, PageByte, L0, L1, L2, VpnOf;
    var p := g.at[LeafOf(id, v)];
    var m, va := mem[p := PutBytes(mem[p], o, data)], v * PGSIZE + o;
    RangeLeaf(id, v);
    forall u: nat ensures VByte(m, g, id, u) == if va <= u < va + |data| then data[u - va] else VByte(mem, g, id, u) {
      ByteAfter(mem, g, id, v, o, data, u);
    }
  }

  lemma ByteAfter(mem: Memory, g: Book, id: nat, v: nat, o: nat, data: seq<Byte>, u: nat)
    requires LeafOf(id, v) in g.at && g.at[LeafOf(id, v)] in mem && o + |data| <= PGSIZE
    requires forall role | role in g.at :: g.at[role] in g.own && g.own[g.at[role]] == role
    ensures var p, va := g.at[LeafOf(id, v)], v * PGSIZE + o;
            VByte(mem[p := PutBytes(mem[p], o, data)], g, id, u) ==
                if va <= u < va + |data| then data[u - va] else VByte(mem, g, id, u)
  {
    hide LeafOf, PageByte;
    RangeLeaf(id, v);
    RangeLeaf(id, u / PGSIZE);
    var p := g.at[LeafOf(id, v)];
    var r := PutBytes(mem[p], o, data);
    hide PutBytes;
    assert u == u / PGSIZE * PGSIZE + u % PGSIZE;
    if u / PGSIZE == v {
      assert PageByte(r, u % PGSIZE) ==
          if o <= u % PGSIZE < o + |data| then data[u % PGSIZE - o] else PageByte(mem[p], u % PGSIZE);
    } else {
      assert LeafOf(id, u / PGSIZE) != LeafOf(id, v);
    }
  }

  lemma UnownedToo(mem: Memory, lo: nat, head: nat, g: Book, dying: set<nat>, id: nat, v: nat)
    requires Inv(mem, lo, head, g, dying) && LeafOf(id, v) !in g.flat
    ensures LeafOf(id, v) !in g.at
  {
    assert LeafOf(id, v).Leaf?;
  }

  /** The bytes up to the end of a page are in that page. */
  lemma SamePage(va: nat, k: nat)
    requires va + k <= va / PGSIZE * PGSIZE + PGSIZE
    ensures forall u: nat | va <= u < va + k :: u / PGSIZE == va / PGSIZE
  {
  }

  lemma GotBytes(mem: Memory, g: Book, id: nat, va: nat, data: seq<Byte>)
    requires LeafOf(id, va / PGSIZE) in g.at && g.at[LeafOf(id, va / PGSIZE)] in mem && va % PGSIZE + |data| <= PGSIZE
    requires data == GetBytes(mem[g.at[LeafOf(id, va / PGSIZE)]], va % PGSIZE, |data|)
    ensures forall k: nat | k < |data| :: data[k] == VByte(mem, g, id, va + k)
  {
    hide LeafOf;
    forall k: nat | k < |data| ensures data[k] == VByte(mem, g, id, va + k) {
      assert (va + k) / PGSIZE == va / PGSIZE && (va + k) % PGSIZE == va % PGSIZE + k;
    }
  }

  /** *pte & ~PTE_U. */
  function NoUser(w: Word): (r: Word) { if UserBit(w) then w - PTE_U else w }

  lemma NoUserLeaf(w: Word)
    ensures !UserBit(NoUser(w)) && PageOf(NoUser(w)) == PageOf(w) && (IsLeaf(w) ==> IsLeaf(NoUser(w)))
  {
    if UserBit(w) {
      var q, f := w / 32, w % 16;
      BitFour(w);
      LowBits(q, 0, f);
      LowBits(q, 1, f);
    }
  }

  lemma BitFour(w: nat)
    requires w / 16 % 2 == 1
    ensures w == 32 * (w / 32) + 16 + w % 16
  {
    var h := w / 16;
    assert w == 16 * h + w % 16;
    assert h == 2 * (h / 2) + 1;
    assert w == 32 * (h / 2) + (16 + w % 16);
  }

  /** The fields of a word whose bit 4 is b. */
  lemma LowBits(q: nat, b: nat, f: nat)
    requires b < 2 && f < 16
    ensures var w := 32 * q + 16 * b + f;
            w / 16 % 2 == b && w / 1024 == q / 32 && w % 2 == f % 2 && w / 2 % 8 == f / 2
  {
    var w := 32 * q + 16 * b + f;
    assert w / 16 == 2 * q + b;
    Halves(16 * q + 8 * b, f);
    Eights(2 * q + b, f / 2);
    assert q == 32 * (q / 32) + q % 32;
    assert w == 1024 * (q / 32) + (32 * (q % 32) + 16 * b + f);
  }

  lemma ClearShape(g: Book, r: Book, id: nat, n: nat, top: set<Role>, v: nat)
    requires Shape(g, id, n, top) && r.at == g.at && r.flat.Keys == g.flat.Keys
    ensures Shape(r, id, n, top)
  {
    assert forall role :: role in r.flat <==> role in g.flat;
  }

  class Vm {
    const lo: nat
    var mem: Memory
    var freelist: Word
    ghost var g: Book
    ghost var dying: set<nat>

    ghost predicate Valid()
      reads this
    {
      Inv(mem, lo, freelist, g, dying)
    }

    /** kinit: every whole page between the end of the kernel and PHYSTOP goes to the free list. */
    constructor (end: nat, ram: Memory)
      requires KERNBASE * PGSIZE < end <= PHYSTOP * PGSIZE && forall p | KERNBASE <= p < PHYSTOP :: p in ram
      ensures Valid() && lo == Pages(end) && dying == {} && g.at == map[] && g.flat == map[]
      ensures (forall p :: p in g.own <==> InRam(lo, p)) && forall p | p in g.own :: g.own[p] == Free
    {
      lo := Pages(end);
      mem, freelist, dying := ram, 0, {};
      g := Book([], map p: nat | p < PHYSTOP && InRam(Pages(end), p) :: Loose, map[], map[]);
      new;
      hide Inv;
      StartOk(mem, lo, g);
      FreeRange();
    }

    /** freerange over all of RAM. */
    method FreeRange()
      requires KERNBASE < lo <= PHYSTOP && (forall p :: p in g.own <==> InRam(lo, p))
      requires forall p | p in g.own :: g.own[p] == Loose
      requires Valid()
      modifies this`mem, this`freelist, this`g
      ensures Valid() && g.at == old(g).at && g.flat == old(g).flat && g.own.Keys == old(g).own.Keys
              && forall p | p in g.own :: g.own[p] == Free
    {
      hide Inv;
      var p := lo;
      while p < PHYSTOP
        invariant lo <= p <= PHYSTOP && Valid() && g.at == old(g).at && g.flat == old(g).flat
        invariant g.own.Keys == old(g).own.Keys
        invariant forall q | q in g.own :: g.own[q] == if q < p then Free else Loose
      {
        assert p * PGSIZE / PGSIZE == p && p * PGSIZE % PGSIZE == 0;
        assert InRam(lo, p) && p in old(g).own;
        var panic := Kfree(p * PGSIZE);
        p := p + 1;
      }
    }

    /** kfree; the result says whether it panics. */
    method Kfree(pa: nat) returns (panic: bool)
      requires Valid() && pa % PGSIZE == 0 && pa / PGSIZE in g.own && g.own[pa / PGSIZE] == Loose
      modifies this`mem, this`freelist, this`g
      ensures !panic && Valid() && freelist == pa && mem == Pushed(old(mem), old(freelist), pa / PGSIZE)
      ensures g == old(g).(free := [pa / PGSIZE] + old(g).free, own := old(g).own[pa / PGSIZE := Free])
    {
      PushKeeps(mem, lo, freelist, g, dying, pa / PGSIZE);
      assert InRam(lo, pa / PGSIZE);
      hide Inv;
      if pa % PGSIZE != 0 || pa / PGSIZE < lo || pa / PGSIZE >= PHYSTOP { return true; }
      mem := mem[pa / PGSIZE := Memset(JUNK1)[0 := freelist]];
      freelist := pa;
      g := g.(free := [pa / PGSIZE] + g.free, own := g.own[pa / PGSIZE := Free]);
      return false;
    }

    /** kalloc: the first free page, or 0 when there is none. */
    method Kalloc() returns (pa: nat)
      requires Valid()
      modifies this`mem, this`freelist, this`g
      ensures Valid() && (pa == 0 <==> old(g).free == [])
      ensures pa == 0 ==> mem == old(mem) && freelist == old(freelist) && g == old(g)
      ensures pa != 0 ==> pa == old(g).free[0] * PGSIZE && g == Taken(old(g)) && mem == Popped(old(mem), pa / PGSIZE)
      ensures pa != 0 ==> pa / PGSIZE in old(mem) && freelist == old(mem)[pa / PGSIZE][0]
      ensures pa != 0 ==> pa / PGSIZE in old(g).own && old(g).own[pa / PGSIZE] == Free && InRam(lo, pa / PGSIZE)
    {
      PopKeeps(mem, lo, freelist, g, dying);
      hide Inv;
      pa := freelist;
      if pa != 0 {
        freelist := mem[pa / PGSIZE][0];
        mem := mem[pa / PGSIZE := Memset(JUNK5)];
        g := Taken(g);
      }
    }

    /** walk's allocation of the table below entry x of the table in page t; false when there is no page. */
    method AddTable(t: nat, x: nat, ghost role: Role) returns (pa: nat)
      requires Valid() && (role.Root? || role.Mid?) && role in g.at && t == g.at[role] && x < ENTRIES
      requires Child(role, x) !in g.at
      modifies this`mem, this`freelist, this`g
      ensures Valid() && Walked(old(mem), mem, old(g), g, role.id)
      ensures g.flat == old(g).flat && (pa == 0 ==> g == old(g) && g.free == [])
      ensures pa != 0 ==> Child(role, x) in g.at && g.at[Child(role, x)] == pa / PGSIZE
      ensures Adds(old(g), g, {Child(role, x)})
    {
      hide Inv, Walked;
      WalkedSame(mem, g, role.id);
      if g.free != [] { AddStep(mem, lo, freelist, g, dying, role, x); }
      pa := Kalloc();
      if pa != 0 {
        var p := pa / PGSIZE;
        mem := mem[p := Memset(0)];
        mem := mem[t := mem[t][x := Pte(p, PTE_V)]];
        g := Settled(g, Child(role, x), p);
        assert mem == Added(old(mem), p, t, x);
      }
    }

    /**
     * walk: the place of the entry for va, which holds the translation of its page; with alloc, missing
     * tables are added on the way. Nowhere means that the page is not mapped and, with alloc, that memory
     * has run out.
     */
    method Walk(pt: nat, va: nat, alloc: bool, ghost id: nat) returns (r: Ref)
      requires Valid() && Rooted(g, id, pt) && id !in dying
      modifies this`mem, this`freelist, this`g
      ensures Valid() && Walked(old(mem), mem, old(g), g, id)
      ensures g.flat == old(g).flat && (!alloc ==> mem == old(mem) && freelist == old(freelist) && g == old(g))
      ensures r.PanicAt? <==> va / PGSIZE >= MAXVPN
      ensures r.Null? ==>
                LeafOf(id, va / PGSIZE) !in g.flat && TableAt(id, va / PGSIZE, 0) !in g.at && (alloc ==> g.free == [])
      ensures Adds(old(g), g, TablesOf(id, va / PGSIZE))
      ensures r.At? ==>
              && TableAt(id, va / PGSIZE, 0) in g.at && r.page == g.at[TableAt(id, va / PGSIZE, 0)]
              && r.i == L0(va / PGSIZE)
              && r.page in mem && r.i < ENTRIES && mem[r.page][r.i] == Tr(g, id, va / PGSIZE)
    {
      hide Inv, Walked, L0, L1, L2, Px;
      WalkedSame(mem, g, id);
      if va >= MAXVPN * PGSIZE { return PanicAt; }
      ghost var v := va / PGSIZE;
      PxDigits(va);
      Digits(v);
      var page, level := pt / PGSIZE, 2;
      while level > 0
        invariant 0 <= level <= 2 && TableAt(id, v, level) in g.at && page == g.at[TableAt(id, v, level)]
        invariant Valid() && Walked(old(mem), mem, old(g), g, id)
        invariant g.flat == old(g).flat && (!alloc ==> mem == old(mem) && freelist == old(freelist) && g == old(g))
        invariant Adds(old(g), g, TablesOf(id, v))
      {
        var x := Px(level, va);
        ghost var role := TableAt(id, v, level);
        assert Child(role, x) == TableAt(id, v, level - 1);
        Leads(mem, lo, freelist, g, dying, role, x);
        var pte := mem[page][x];
        if PageTable.Valid(pte) {
          page := PageOf(pte);
        } else {
          if !alloc {
            NoTable(mem, lo, freelist, g, dying, id, v, level - 1);
            return Null;
          }
          ghost var m1, g1 := mem, g;
          var pa := AddTable(page, x, role);
          WalkedTwice(old(mem), m1, mem, old(g), g1, g, id);
          assert TablesOf(id, v) + {Child(role, x)} == TablesOf(id, v);
          AddsTwice(old(g), g1, g, TablesOf(id, v), {Child(role, x)});
          if pa == 0 {
            NoTable(mem, lo, freelist, g, dying, id, v, level - 1);
            return Null;
          }
          page := pa / PGSIZE;
        }
        level := level - 1;
      }
      LowEntry(mem, lo, freelist, g, dying, id, v);
      return At(page, Px(0, va));
    }

    /** A store through the pointer walk returned. */
    method Store(r: Ref, w: Word, ghost id: nat, ghost v: nat)
      requires Valid() && r.At? && TableAt(id, v, 0) in g.at && r.page == g.at[TableAt(id, v, 0)] && r.i == L0(v)
      requires IsLeaf(w)
      requires LeafOf(id, v) in g.at ==> PageOf(w) == g.at[LeafOf(id, v)]
      modifies this`mem, this`g
      ensures Valid() && g == old(g).(flat := old(g).flat[LeafOf(id, v) := w]) && Walked(old(mem), mem, old(g), g, id)
    {
      hide Tables, Links, Lists, Hangs, L0, L1, L2;
      ghost var role := TableAt(id, v, 0);
      Digits(v);
      assert Child(role, L0(v)) == LeafOf(id, v);
      MapKeeps(mem, lo, freelist, g, dying, role, L0(v), w);
      assert g.own[r.page] == role;
      hide Roles;
      mem := mem[r.page := mem[r.page][r.i := w]];
      g := g.(flat := g.flat[LeafOf(id, v) := w]);
    }

    /** One round of mappages' loop: page a to physical page p. */
    method MapOne(pt: nat, a: nat, p: nat, perm: nat, ghost id: nat) returns (r: Outcome)
      requires Valid() && Rooted(g, id, pt) && id !in dying
      requires (a < MAXVPN ==> p < MAXPPN) && perm < 1024 && perm / 2 % 8 != 0
      modifies this`mem, this`freelist, this`g
      ensures Valid() && Walked(old(mem), mem, old(g), g, id)
      ensures r == Ok ==>
                && a < MAXVPN
                && LeafOf(id, a) !in old(g).flat
                && g.flat == old(g).flat[LeafOf(id, a) := Pte(p, WithV(perm))]
      ensures r != Ok ==> g.flat == old(g).flat
      ensures r == Fail ==> g.free == [] && LeafOf(id, a) !in old(g).flat && TableAt(id, a, 0) !in g.at
      ensures Adds(old(g), g, TablesOf(id, a))
      ensures r == Panic ==> a >= MAXVPN || LeafOf(id, a) in old(g).flat
    {
      hide Inv, Walked, L0, L1, L2, Pte;
      MappedIsValid(mem, lo, freelist, g, dying, id, a);
      var ref := Walk(pt, a * PGSIZE, true, id);
      if ref.PanicAt? { return Panic; }
      if ref.Null? { return Fail; }
      if PageTable.Valid(mem[ref.page][ref.i]) { return Panic; }
      ghost var m1, g1 := mem, g;
      PteLeaf(p, perm);
      if LeafOf(id, a) in g.at { OwnedIsMapped(mem, lo, freelist, g, dying, LeafOf(id, a)); }
      Store(ref, Pte(p, WithV(perm)), id, a);
      WalkedTwice(old(mem), m1, mem, old(g), g1, g, id);
      return Ok;
    }

    /** mappages' loop over page numbers; n counts the pages mapped. */
    method MapRange(pt: nat, first: nat, last: nat, page: nat, perm: nat, ghost id: nat)
      returns (r: Outcome, ghost n: nat)
      requires page + MAXVPN <= MAXPPN && perm < 1024 && perm / 2 % 8 != 0
      requires Valid() && Rooted(g, id, pt) && id !in dying
      modifies this`mem, this`freelist, this`g
      ensures Valid() && Walked(old(mem), mem, old(g), g, id) && n <= MAXVPN
      ensures MappedMore(old(g).flat, g.flat, id, first, n, page, perm)
      ensures r == Ok ==> n == last - first + 1 && first + n <= MAXVPN
      ensures r != Ok && first <= last ==> first + n <= last
      ensures r == Fail ==> g.free == [] && LeafOf(id, first + n) !in old(g).flat && TableAt(id, first + n, 0) !in g.at
      ensures Adds(old(g), g, Room(id, first, if r == Ok then first + n else first + n + 1))
      ensures r == Panic ==> first + n >= MAXVPN || LeafOf(id, first + n) in old(g).flat
    {
      hide Inv, Walked, LeafOf, MappedMore, Adds, TablesOf;
      n := 0;
      AddsNone(g, id, first);
      var a, p := first, page;
      WalkedSame(mem, g, id);
      MapsNone(g.flat, id, first, page, perm);
      while true
        invariant a == first + n && p == page + n && (n == 0 || a <= MAXVPN) && (first <= last ==> a <= last)
        invariant Valid() && Walked(old(mem), mem, old(g), g, id) && Rooted(g, id, pt)
        invariant MappedMore(old(g).flat, g.flat, id, first, n, page, perm)
        invariant Adds(old(g), g, Room(id, first, first + n))
        decreases MAXVPN - a
      {
        ghost var m1, g1 := mem, g;
        MapsSame(old(g).flat, g.flat, id, first, n, page, perm);
        r := MapOne(pt, a, p, perm, id);
        WalkedTwice(old(mem), m1, mem, old(g), g1, g, id);
        RootStays(m1, mem, g1, g, id);
        RoomNext(id, first, first + n);
        AddsMore(g1, g, TablesOf(id, a), Room(id, a, a + 1));
        AddsTwice(old(g), g1, g, Room(id, first, first + n), Room(id, a, a + 1));
        if r != Ok { return; }
        MapsNext(old(g).flat, g1.flat, id, first, n, page, perm);
        n := n + 1;
        if a == last { break; }
        a, p := a + 1, p + 1;
      }
    }

    /** mappages. */
    method MapPages(pt: nat, va: nat, size: nat, pa: nat, perm: nat, ghost id: nat) returns (r: Outcome, ghost n: nat)
      requires va < 0x1_0000_0000_0000_0000 && pa / PGSIZE + MAXVPN <= MAXPPN && perm < 1024 && perm / 2 % 8 != 0
      requires Valid() && Rooted(g, id, pt) && id !in dying
      modifies this`mem, this`freelist, this`g
      ensures Valid() && Walked(old(mem), mem, old(g), g, id) && n <= MAXVPN
      ensures MappedMore(old(g).flat, g.flat, id, va / PGSIZE, n, pa / PGSIZE, perm)
      ensures r == Ok ==> size > 0 && n == LastPage(va, size) - va / PGSIZE + 1 && va / PGSIZE + n <= MAXVPN
      ensures r != Ok && size > 0 && va / PGSIZE <= LastPage(va, size) ==> va / PGSIZE + n <= LastPage(va, size)
      ensures r == Fail ==>
                g.free == [] && LeafOf(id, va / PGSIZE + n) !in old(g).flat && TableAt(id, va / PGSIZE + n, 0) !in g.at
      ensures Adds(old(g), g, Room(id, va / PGSIZE, if r == Ok then va / PGSIZE + n else va / PGSIZE + n + 1))
      ensures r == Panic ==> size == 0 || va / PGSIZE + n >= MAXVPN || LeafOf(id, va / PGSIZE + n) in old(g).flat
    {
      hide Inv, Walked, LeafOf, MappedMore, LastPage, Adds, TablesOf;
      if size == 0 {
        AddsNone(g, id, va / PGSIZE);
        RoomMore(id, va / PGSIZE, va / PGSIZE, va / PGSIZE + 1);
        AddsMore(g, g, Room(id, va / PGSIZE, va / PGSIZE), Room(id, va / PGSIZE, va / PGSIZE + 1));
        WalkedSame(mem, g, id);
        MapsNone(g.flat, id, va / PGSIZE, pa / PGSIZE, perm);
        return Panic, 0;
      }
      r, n := MapRange(pt, va / PGSIZE, LastPage(va, size), pa / PGSIZE, perm, id);
    }

    /** One round of uvmunmap's loop. */
    method UnmapOne(pt: nat, a: nat, free: bool, ghost id: nat) returns (r: Outcome)
      requires Valid() && Rooted(g, id, pt) && id !in dying
      requires LeafOf(id, a) in g.flat ==> (free <==> LeafOf(id, a) in g.at)
      modifies this`mem, this`freelist, this`g
      ensures Valid() && (r == Ok <==> a < MAXVPN && LeafOf(id, a) in old(g).flat) && r != Fail
      ensures r == Panic ==> g == old(g) && mem == old(mem)
      ensures r == Ok ==> (free ==> LeafOf(id, a) in old(g).at) && g == UnmapBook(old(g), LeafOf(id, a), free)
      ensures r == Ok ==> KeptButFreed(old(mem), mem, old(g), g, id)
    {
      hide Inv, L0, L1, L2;
      var ref := Walk(pt, a * PGSIZE, false, id);
      MappedIsValid(mem, lo, freelist, g, dying, id, a);
      if !ref.At? { return Panic; }
      var pte := mem[ref.page][ref.i];
      if !PageTable.Valid(pte) { return Panic; }
      if PageTable.Flags(pte) == PTE_V { LeafFlags(pte); return Panic; }
      ghost var leaf := LeafOf(id, a);
      ghost var m0, g0 := mem, g;
      RolesAt(mem, lo, freelist, g, dying, TableAt(id, a, 0));
      if free {
        OwnedIsMapped(mem, lo, freelist, g, dying, leaf);
        RolesAt(mem, lo, freelist, g, dying, leaf);
        DropKeeps(mem, lo, freelist, g, dying, leaf);
        g := Dropped(g, leaf);
        var panic := Kfree(PageOf(pte) * PGSIZE);
      }
      Clear(ref, id, a);
      assert g.own == UnmapBook(g0, leaf, free).own;
      return Ok;
    }

    /** *pte = 0 through the pointer walk returned. */
    method Clear(r: Ref, ghost id: nat, ghost v: nat)
      requires Valid() && r.At? && TableAt(id, v, 0) in g.at && r.page == g.at[TableAt(id, v, 0)] && r.i == L0(v)
      requires LeafOf(id, v) !in g.at
      modifies this`mem, this`g
      ensures Valid() && g == old(g).(flat := old(g).flat - {LeafOf(id, v)})
      ensures r.page in old(mem) && r.i < ENTRIES && mem == Written(old(mem), r.page, r.i, 0)
    {
      hide Inv, L0, L1, L2;
      ghost var role := TableAt(id, v, 0);
      Digits(v);
      assert Child(role, L0(v)) == LeafOf(id, v);
      UnmapKeeps(mem, lo, freelist, g, dying, role, L0(v));
      mem := mem[r.page := mem[r.page][r.i := 0]];
      g := g.(flat := g.flat - {LeafOf(id, v)});
    }

    /** uvmunmap: it panics exactly when va is not aligned or a page of the range is not mapped. */
    method UvmUnmap(pt: nat, va: nat, npages: nat, free: bool, ghost id: nat) returns (r: Outcome)
      requires Valid() && Rooted(g, id, pt) && id !in dying
      requires forall v: nat | va / PGSIZE <= v < va / PGSIZE + npages && LeafOf(id, v) in g.flat ::
                 free <==> LeafOf(id, v) in g.at
      modifies this`mem, this`freelist, this`g
      ensures Valid() && r != Fail
      ensures r == Ok <==>
                && va % PGSIZE == 0
                && forall v: nat | va / PGSIZE <= v < va / PGSIZE + npages :: v < MAXVPN && LeafOf(id, v) in old(g).flat
      ensures r == Ok ==>
                && Unmapped(old(g), g, id, va / PGSIZE, va / PGSIZE + npages, free)
                && KeptButFreed(old(mem), mem, old(g), g, id)
    {
      hide Inv, Unmapped, KeptButFreed, UnmapBook, LeafOf;
      if va % PGSIZE != 0 { return Panic; }
      var first := va / PGSIZE;
      var a := first;
      UnmapsNone(mem, g, id, first, free);
      while a < first + npages
        invariant first <= a <= first + npages && Valid() && Rooted(g, id, pt)
        invariant Unmapped(old(g), g, id, first, a, free) && KeptButFreed(old(mem), mem, old(g), g, id)
        invariant forall v: nat | first <= v < a :: v < MAXVPN && LeafOf(id, v) in old(g).flat
      {
        ghost var m1, g1 := mem, g;
        UnmappedAt(old(g), g1, id, first, a, free);
        if LeafOf(id, a) in g.at { RolesAt(mem, lo, freelist, g, dying, LeafOf(id, a)); }
        RangeLeaf(id, a);
        RolesOf(mem, lo, freelist, g, dying, LeafOf(id, a));
        r := UnmapOne(pt, a, free, id);
        if r != Ok { return; }
        UnmapsNext(old(g), g1, id, first, a, free);
        KeptNext(old(mem), m1, mem, old(g), g1, id, first, a, LeafOf(id, a), free);
        RootKept(g1, LeafOf(id, a), free, id);
        a := a + 1;
      }
      return Ok;
    }

    /**
     * A page from kalloc, filled and mapped as user page n, as in the loops of uvmalloc and uvmcopy; when
     * mappages fails the page is freed again.
     */
    method GrowOne(pt: nat, n: nat, page: Page, perm: nat, ghost id: nat, ghost top: set<Role>) returns (r: Outcome)
      requires perm < 1024 && perm / 2 % 8 != 0
      requires Valid() && Shape(g, id, n, top) && Rooted(g, id, pt) && id !in dying
      modifies this`mem, this`freelist, this`g
      ensures Valid() && r != Panic && Shape(g, id, if r == Ok then n + 1 else n, top) && Rooted(g, id, pt)
      ensures Frame(old(mem), mem, old(g), g, id) && UserKept(old(mem), mem, old(g), g, id, 0, n)
      ensures r == Ok ==> UserPage(mem, g, LeafOf(id, n), WithV(perm), page) && n < 0x8000
      ensures r == Ok <==> |old(g).free| >= Lack(old(g), Room(id, n, n + 1))
      ensures r == Ok ==>
                Fills(old(g), g, Room(id, n, n + 1)) && |old(g).free| == |g.free| + Lack(old(g), Room(id, n, n + 1))
    {
      hide Inv, Walked, MappedMore, LeafOf, Frame, UserKept, InRange, Shape, Pte, Room, Adds, Fills, Lack, TableAt;
      FewPages(mem, lo, freelist, g, dying, id, n, top);
      OwnsLow(g, id, n, top, n);
      ghost var m0, g0 := mem, g;
      var pa := Kalloc();
      if pa == 0 {
        FrameSame(mem, g, id);
        assert UserKept(mem, mem, g, g, id, 0, n) by { UserSame(mem, g, id, 0, n); }
        RoomNext(id, n, n);
        LackOne(g, Room(id, n, n + 1), LeafOf(id, n));
        return Fail;
      }
      var p := pa / PGSIZE;
      LooseKeeps(mem, lo, freelist, g, dying, p, page);
      mem := mem[p := page];
      ghost var m1, g1 := mem, g;
      ghost var k;
      OnePage(n);
      ShapeRoot(g0, id, n, top);
      r, k := MapPages(pt, n * PGSIZE, PGSIZE, pa, perm, id);
      if r != Ok {
        r := Fail;
        GrownFail(m0, m1, mem, lo, old(freelist), freelist, g0, g1, g, dying, id, n, p, page, perm, top);
        SameAt(m1, mem, g0, g1, g, id, Room(id, n, n + 1));
        ghost var g2 := g;
        var panic := Kfree(pa);
        OwnsLow(g, id, n, top, n);
        AddsSame(g0, g2, g, Room(id, n, n + 1));
        GrewNot(m0, mem, lo, old(freelist), freelist, g0, g, dying, id, n);
      } else {
        GrownOk(m0, m1, mem, lo, old(freelist), freelist, g0, g1, g, dying, id, n, p, page, perm, top);
        SameAt(m1, mem, g0, g1, g, id, Room(id, n, n + 1));
        ghost var g2 := g;
        g := Settled(g, LeafOf(id, n), p);
        FewPages(mem, lo, freelist, g, dying, id, n + 1, top);
        OwnsLow(g, id, n + 1, top, n);
        RoomNext(id, n, n);
        AddsLeaf(g0, g2, Room(id, n, n + 1), LeafOf(id, n), p);
        GrewRoom(m0, mem, lo, old(freelist), freelist, g0, g, dying, id, n);
      }
    }

    /** uvmdealloc; panic says whether uvmunmap panics. */
    method UvmDealloc(pt: nat, oldsz: nat, newsz: nat, ghost id: nat, ghost top: set<Role>)
      returns (r: nat, panic: bool)
      requires Valid() && Shape(g, id, Pages(oldsz), top) && Rooted(g, id, pt) && id !in dying
      modifies this`mem, this`freelist, this`g
      ensures !panic && r == (if newsz < oldsz then newsz else oldsz)
      ensures Valid() && Shape(g, id, Pages(r), top) && Rooted(g, id, pt)
      ensures Frame(old(mem), mem, old(g), g, id) && UserKept(old(mem), mem, old(g), g, id, 0, Pages(r))
    {
      hide Inv, Frame, UserKept, LeafOf, Unmapped, KeptButFreed, Shape;
      FrameSame(mem, g, id);
      UserSame(mem, g, id, 0, Pages(oldsz));
      if newsz >= oldsz { return oldsz, false; }
      ghost var n := Pages(oldsz);
      var m := Pages(newsz);
      if m < Pages(oldsz) {
        FewPages(mem, lo, freelist, g, dying, id, n, top);
        forall v: nat | m <= v < n
          ensures LeafOf(id, v) in g.at && LeafOf(id, v) in g.flat
        {
          OwnsLow(g, id, n, top, v);
        }
        ShapeRoot(g, id, n, top);
        assert m * PGSIZE / PGSIZE == m && m * PGSIZE % PGSIZE == 0;
        var o := UvmUnmap(pt, m * PGSIZE, Pages(oldsz) - m, true, id);
        RolesKnown(old(mem), lo, old(freelist), old(g), dying);
        ShrunkShape(old(g), g, id, m, n, top);
        ShrunkKept(old(mem), mem, old(g), g, id, m, n);
        UnmappedFrame(old(mem), mem, old(g), g, id, m, n, true);
        panic := o == Panic;
      } else {
        panic := false;
      }
      r := newsz;
    }

    /** uvmalloc: the new size, or 0 with everything as it was. */
    method UvmAlloc(pt: nat, oldsz: nat, newsz: nat, ghost id: nat, ghost top: set<Role>) returns (r: nat, panic: bool)
      requires Valid() && Shape(g, id, Pages(oldsz), top) && Rooted(g, id, pt) && id !in dying
      modifies this`mem, this`freelist, this`g
      ensures !panic && (r == 0 || r == if newsz < oldsz then oldsz else newsz)
      ensures Valid() && Rooted(g, id, pt) && Shape(g, id, Pages(if r == 0 then oldsz else r), top)
      ensures Frame(old(mem), mem, old(g), g, id) && UserKept(old(mem), mem, old(g), g, id, 0, Pages(oldsz))
      ensures r != 0 ==> ZeroPages(mem, g, id, Pages(oldsz), Pages(r))
      ensures var room := Room(id, Pages(oldsz), Pages(newsz));
              && (r == 0 <==> newsz == oldsz == 0 || (newsz >= oldsz && |old(g).free| < Lack(old(g), room)))
              && (r != 0 ==> Fills(old(g), g, room) && |old(g).free| == |g.free| + Lack(old(g), room))
    {
      hide Inv, Frame, UserKept, LeafOf, Shape, ZeroPages, Room, Fills, Lack;
      FrameSame(mem, g, id);
      FillsNone(g);
      NoRoom(id, Pages(oldsz), Pages(oldsz));
      panic := false;
      ghost var n := Pages(oldsz);
      UserSame(mem, g, id, 0, n);
      ZeroNone(mem, g, id, n);
      if newsz < oldsz {
        NoRoom(id, Pages(oldsz), Pages(newsz));
        return oldsz, false;
      }
      var a := Pages(oldsz);
      while a * PGSIZE < newsz
        invariant n <= a && (a * PGSIZE >= newsz ==> a == Pages(newsz) || a == n)
        invariant Valid() && Shape(g, id, a, top) && Frame(old(mem), mem, old(g), g, id)
        invariant UserKept(old(mem), mem, old(g), g, id, 0, n)
        invariant Rooted(g, id, pt) && ZeroPages(mem, g, id, n, a)
        invariant Fills(old(g), g, Room(id, n, a)) && |old(g).free| == |g.free| + Lack(old(g), Room(id, n, a))
        decreases newsz - a * PGSIZE
      {
        ghost var m1, g1 := mem, g;
        var o := GrowOne(pt, a, Memset(0), USER, id, top);
        RoomNext(id, n, a);
        LackTwice(old(g), g1, Room(id, n, a), Room(id, a, a + 1));
        FrameTwice(old(mem), m1, mem, old(g), g1, g, id);
        UserLess(m1, mem, g1, g, id, n, a);
        KeptTwice(old(mem), m1, mem, old(g), g1, g, id, n, n);
        if o != Ok {
          ghost var m2, g2 := mem, g;
          var q;
          assert Pages(a * PGSIZE) == a && Pages(n * PGSIZE) == n && a + 1 <= Pages(newsz);
          RoomMore(id, n, a + 1, Pages(newsz));
          LackMore(old(g), Room(id, n, a + 1), Room(id, n, Pages(newsz)));
          q, panic := UvmDealloc(pt, a * PGSIZE, Pages(oldsz) * PGSIZE, id, top);
          FrameTwice(old(mem), m2, mem, old(g), g2, g, id);
          KeptTwice(old(mem), m2, mem, old(g), g2, g, id, n, n);
          return 0, panic;
        }
        ZeroNext(m1, mem, g1, g, id, n, a, a + 1);
        FillsTwice(old(g), g1, g, Room(id, n, a), Room(id, a, a + 1));
        a := a + 1;
      }
      assert a == Pages(newsz);
      r := newsz;
    }

    /** The entry of user page i, which uvmcopy expects to be there. */
    method UserEntry(pt: nat, i: nat, ghost n: nat, ghost id: nat, ghost top: set<Role>)
      returns (pte: Word, panic: bool)
      requires Valid() && Shape(g, id, n, top) && Rooted(g, id, pt) && id !in dying && i < n
      modifies this`mem, this`freelist, this`g
      ensures !panic && Valid() && mem == old(mem) && freelist == old(freelist) && g == old(g) && LeafOf(id, i) in g.at
              && LeafOf(id, i) in g.flat
      ensures g.flat[LeafOf(id, i)] == pte && IsLeaf(pte) && PageOf(pte) == g.at[LeafOf(id, i)] && PageOf(pte) in mem
    {
      hide Inv, LeafOf, Shape;
      OwnsLow(g, id, n, top, i);
      FewPages(mem, lo, freelist, g, dying, id, n, top);
      MappedIsValid(mem, lo, freelist, g, dying, id, i);
      RangeLeaf(id, i);
      OwnedIsMapped(mem, lo, freelist, g, dying, LeafOf(id, i));
      RolesAt(mem, lo, freelist, g, dying, LeafOf(id, i));
      assert i * PGSIZE / PGSIZE == i;
      pte, panic := 0, true;
      var ref := Walk(pt, i * PGSIZE, false, id);
      if !ref.At? { return; }
      pte := mem[ref.page][ref.i];
      if !PageTable.Valid(pte) { return; }
      panic := false;
    }

    /** uvmunmap(new, 0, n, 1): the way back of uvmcopy, and the first half of uvmfree. */
    method UnmapAll(pt: nat, n: nat, ghost id: nat, ghost top: set<Role>) returns (panic: bool)
      requires Valid() && Shape(g, id, n, top) && Rooted(g, id, pt) && id !in dying
      modifies this`mem, this`freelist, this`g
      ensures !panic && Valid() && Frame(old(mem), mem, old(g), g, id) && Shape(g, id, 0, top) && Rooted(g, id, pt)
      ensures Unmapped(old(g), g, id, 0, n, true) && UserKept(old(mem), mem, old(g), g, id, 0, 0)
    {
      hide Inv, LeafOf, Shape, Unmapped, KeptButFreed, Frame, UserKept;
      RolesKnown(mem, lo, freelist, g, dying);
      forall v: nat | 0 <= v < n ensures LeafOf(id, v) in g.at && LeafOf(id, v) in g.flat { OwnsLow(g, id, n, top, v); }
      FewPages(mem, lo, freelist, g, dying, id, n, top);
      var u := UvmUnmap(pt, 0, n, true, id);
      panic := u == Panic;
      ShrunkShape(old(g), g, id, 0, n, top);
      ShrunkKept(old(mem), mem, old(g), g, id, 0, n);
      UnmappedFrame(old(mem), mem, old(g), g, id, 0, n, true);
    }

    /** uvmcopy: 0 with all pages of the parent copied, or -1 with the child as it was. */
    method UvmCopy(pt: nat, kpt: nat, sz: nat, ghost id: nat, ghost kid: nat, ghost top: set<Role>,
                   ghost ktop: set<Role>)
      returns (r: int, panic: bool)
      requires Valid() && Shape(g, id, Pages(sz), top) && Rooted(g, id, pt) && id !in dying
      requires Shape(g, kid, 0, ktop) && Rooted(g, kid, kpt) && kid !in dying && kid != id
      modifies this`mem, this`freelist, this`g
      ensures !panic && (r == 0 || r == -1) && Valid() && Frame(old(mem), mem, old(g), g, kid)
      ensures Shape(g, kid, if r == 0 then Pages(sz) else 0, ktop) && Rooted(g, kid, kpt)
      ensures r == 0 ==> Copied(mem, g, id, kid, Pages(sz))
      ensures UserKept(old(mem), mem, old(g), g, kid, 0, 0)
      ensures var room := Room(kid, 0, Pages(sz));
              && (r == 0 <==> |old(g).free| >= Lack(old(g), room))
              && (r == 0 ==> Fills(old(g), g, room) && |old(g).free| == |g.free| + Lack(old(g), room))
    {
      hide Inv, Frame, UserKept, LeafOf, Shape, Copied, UserPage, Rooted, Room, Fills, Lack;
      FillsNone(g);
      NoRoom(kid, 0, 0);
      FrameSame(mem, g, kid);
      UserSame(mem, g, kid, 0, 0);
      panic := false;
      var i := 0;
      CopiedNone(mem, g, id, kid);
      while i * PGSIZE < sz
        invariant 0 <= i <= Pages(sz) && Valid() && Frame(old(mem), mem, old(g), g, kid)
        invariant Shape(g, kid, i, ktop) && Rooted(g, kid, kpt) && Shape(g, id, Pages(sz), top) && Rooted(g, id, pt)
        invariant Copied(mem, g, id, kid, i) && UserKept(old(mem), mem, old(g), g, kid, 0, 0)
        invariant Fills(old(g), g, Room(kid, 0, i)) && |old(g).free| == |g.free| + Lack(old(g), Room(kid, 0, i))
        decreases sz - i * PGSIZE
      {
        var pte;
        pte, panic := UserEntry(pt, i, Pages(sz), id, top);
        if panic { return -1, true; }
        RolesKnown(mem, lo, freelist, g, dying);
        LeafPerm(pte);
        ghost var m1, g1 := mem, g;
        var page := mem[PageOf(pte)];
        var o := GrowOne(kpt, i, page, PageTable.Flags(pte), kid, ktop);
        FrameTwice(old(mem), m1, mem, old(g), g1, g, kid);
        UserLess(m1, mem, g1, g, kid, 0, i);
        KeptTwice(old(mem), m1, mem, old(g), g1, g, kid, 0, 0);
        RoomNext(kid, 0, i);
        LackTwice(old(g), g1, Room(kid, 0, i), Room(kid, i, i + 1));
        if o != Ok {
          RoomMore(kid, 0, i + 1, Pages(sz));
          LackMore(old(g), Room(kid, 0, i + 1), Room(kid, 0, Pages(sz)));
          ghost var m2, g2 := mem, g;
          panic := UnmapAll(kpt, i, kid, ktop);
          FrameTwice(old(mem), m2, mem, old(g), g2, g, kid);
          KeptTwice(old(mem), m2, mem, old(g), g2, g, kid, 0, 0);
          return -1, panic;
        }
        RolesKnown(mem, lo, freelist, g, dying);
        CopiedNext(m1, mem, g1, g, id, kid, i, pte, page);
        FrameShape(m1, mem, g1, g, kid, id, Pages(sz), top, pt);
        FillsTwice(old(g), g1, g, Room(kid, 0, i), Room(kid, i, i + 1));
        i := i + 1;
      }
      r := 0;
    }

    /** freewalk on the table in role; panic says whether it meets a leaf. */
    method FreeWalk(pt: nat, ghost role: Role) returns (panic: bool)
      requires Valid() && IsTable(role) && role in g.at && pt == g.at[role] * PGSIZE && role.id in dying
      requires EntriesOk(mem, g, role, g.at[role], 0) && Intact(mem, g, role)
      requires forall leaf | leaf in g.flat :: leaf != Free && leaf != Loose && leaf.id != role.id
      modifies this`mem, this`freelist, this`g
      ensures !panic && Valid() && Reclaimed(old(g), g, UnderSet(old(g), role))
      ensures KeptOutside(old(mem), mem, old(g), role)
      decreases if role.Root? then 2 else if role.Mid? then 1 else 0
    {
      hide Links, Lists, Roles, Hangs, Tables, Reclaimed, KeptOutside, Intact, EntriesOk;
      panic := false;
      var page := pt / PGSIZE;
      BelowNone(g, role);
      KeptSame(mem, g, role);
      var i := 0;
      while i < ENTRIES
        invariant 0 <= i <= ENTRIES && Valid() && role in g.at && g.at[role] == page && !panic
        invariant Reclaimed(old(g), g, BelowSet(old(g), role, i)) && KeptOutside(old(mem), mem, old(g), role)
        invariant g.flat == old(g).flat
        invariant EntriesOk(mem, g, role, page, i) && Intact(mem, g, role)
      {
        ghost var m1, g1 := mem, g;
        panic := FreeChild(page, i, role);
        BelowStep(old(mem), m1, mem, old(g), g1, g, role, i);
        i := i + 1;
      }
      ghost var m2, g2, f2 := mem, g, freelist;
      BareEnd(mem, lo, freelist, old(g), g, dying, role);
      DropTableKeeps(mem, lo, freelist, g, dying, role);
      RolesAt(mem, lo, freelist, g, dying, role);
      g := Dropped(g, role);
      panic := Kfree(pt);
      TableGone(old(mem), m2, f2, old(g), g2, role);
    }

    /** One round of freewalk's loop. */
    method FreeChild(page: nat, i: nat, ghost role: Role) returns (panic: bool)
      requires i < ENTRIES && IsTable(role) && role in g.at && page == g.at[role] && role.id in dying
      requires EntriesOk(mem, g, role, page, i) && Intact(mem, g, role)
      requires forall leaf | leaf in g.flat :: leaf != Free && leaf != Loose && leaf.id != role.id
      requires Valid()
      modifies this`mem, this`freelist, this`g
      ensures !panic && Valid() && role in g.at && g.at[role] == page && EntriesOk(mem, g, role, page, i + 1)
      ensures Intact(mem, g, role)
      ensures Reclaimed(old(g), g, ChildSet(old(g), role, i)) && KeptOutside(old(mem), mem, old(g), role)
      decreases if role.Root? then 2 else if role.Mid? then 1 else 0, 0
    {
      hide Inv, Reclaimed, KeptOutside, Intact;
      KeptSame(mem, g, role);
      EntryForms(mem, g, role, page, i);
      RolesAt(mem, lo, freelist, g, dying, role);
      var pte := mem[page][i];
      panic := false;
      if PageTable.Valid(pte) && pte / 2 % 8 == 0 {
        ChildIntact(mem, g, role, i);
        RolesKnown(mem, lo, freelist, g, dying);
        hide EntriesOk;
        panic := FreeWalk(PageOf(pte) * PGSIZE, Child(role, i));
        RestIntact(old(mem), mem, old(g), g, role, i, page);
        DyingWrite(mem, lo, freelist, g, dying, role, i, 0);
        ghost var m1 := mem;
        RolesKnown(mem, lo, freelist, g, dying);
        mem := mem[page := mem[page][i := 0]];
        CleanEntry(old(mem), m1, old(g), g, role, i, page);
      } else if PageTable.Valid(pte) {
        return true;
      } else {
        NoEntry(mem, lo, freelist, g, dying, role, i, page);
      }
    }

    /** uvmfree, for a space whose top is no longer mapped. */
    method UvmFree(pt: nat, sz: nat, ghost id: nat) returns (panic: bool)
      requires Valid() && Shape(g, id, Pages(sz), {}) && Rooted(g, id, pt) && id !in dying
      modifies this
      ensures !panic && Valid() && dying == old(dying) && Freed(old(g), g, id) && Frame(old(mem), mem, old(g), g, id)
    {
      hide Inv, Shape, Frame, Freed, Unmapped, Reclaimed, KeptOutside, Intact, EntriesOk;
      SpaceRoles(mem, lo, freelist, g, dying, id);
      panic := false;
      if sz > 0 {
        panic := UnmapAll(pt, Pages(sz), id, {});
      } else {
        UnmapsNone(mem, g, id, 0, true);
        FrameSame(mem, g, id);
      }
      ghost var m1, g1 := mem, g;
      WholeIntact(mem, lo, freelist, g, dying, id);
      DyingKeeps(mem, lo, freelist, g, dying, id);
      dying := dying + {id};
      panic := FreeWalk(pt, Root(id));
      SpaceRoles(mem, lo, freelist, g, dying, id);
      FreedAll(old(g), g1, g, id, Pages(sz));
      KeptFrame(m1, mem, g1, g, id);
      FrameTwice(old(mem), m1, mem, old(g), g1, g, id);
      NoRoot(old(g), g, id);
      dying := dying - {id};
      Gone(mem, lo, freelist, g, dying, id);
    }

    /** uvmcreate: an empty space, or 0. */
    method UvmCreate(ghost id: nat) returns (pt: nat)
      requires Valid() && Root(id) !in g.at
      modifies this`mem, this`freelist, this`g
      ensures Valid() && Frame(old(mem), mem, old(g), g, id)
      ensures pt == 0 <==> old(g).free == []
      ensures pt == 0 ==> g == old(g) && mem == old(mem)
      ensures pt != 0 ==> Rooted(g, id, pt) && Shape(g, id, 0, {})
      ensures pt != 0 ==> Fills(old(g), g, {Root(id)}) && |old(g).free| == |g.free| + 1
    {
      hide Inv, Frame, Shape;
      FrameSame(mem, g, id);
      pt := Kalloc();
      if pt != 0 {
        var p := pt / PGSIZE;
        LooseKeeps(mem, lo, freelist, g, dying, p, Memset(0));
        mem := mem[p := Memset(0)];
        RootKeeps(mem, lo, freelist, g, dying, id, p);
        EmptyShape(mem, lo, freelist, g, dying, id, p);
        g := Settled(g, Root(id), p);
        CreateFrame(old(mem), old(g), id, p);
        assert mem == old(mem)[p := Memset(0)];
      }
    }

    /** A page of the top of the space. */
    method MapTop(pt: nat, v: nat, pa: nat, perm: nat, ghost id: nat, ghost top: set<Role>) returns (ok: bool)
      requires Valid() && Shape(g, id, 0, top) && Rooted(g, id, pt) && id !in dying && LeafOf(id, v) in Top(id)
      requires LeafOf(id, v) !in top
      requires v < MAXVPN && pa / PGSIZE + MAXVPN <= MAXPPN && perm < 1024 && perm / 2 % 8 != 0
      modifies this`mem, this`freelist, this`g
      ensures Valid() && Frame(old(mem), mem, old(g), g, id) && Rooted(g, id, pt)
      ensures Shape(g, id, 0, if ok then top + {LeafOf(id, v)} else top)
      ensures ok ==> Tr(g, id, v) == Pte(pa / PGSIZE, WithV(perm))
      ensures forall role | role in old(g).flat :: role in g.flat && g.flat[role] == old(g).flat[role]
      ensures ok <==> |old(g).free| >= Lack(old(g), TablesOf(id, v))
      ensures ok ==> Fills(old(g), g, TablesOf(id, v)) && |old(g).free| == |g.free| + Lack(old(g), TablesOf(id, v))
    {
      hide Inv, Frame, Shape, Walked, MappedMore, LeafOf, Top, Pte, Adds, Fills, Lack, TablesOf, Room, TableAt;
      TopNotMapped(g, id, v, top);
      assert v * PGSIZE / PGSIZE == v && LastPage(v * PGSIZE, PGSIZE) == v;
      ghost var k;
      var r;
      r, k := MapPages(pt, v * PGSIZE, PGSIZE, pa, perm, id);
      GrownLeaves(old(mem), mem, old(g), g, id);
      GrownFlat(old(g).flat, g.flat, id, v, k, pa / PGSIZE, perm);
      WalkedFrame(old(mem), mem, old(g), g, id);
      AddsTables(old(g), g, id, v);
      TopCount(old(mem), mem, lo, old(freelist), freelist, old(g), g, dying, id, v);
      if r == Ok {
        MapsAt(old(g).flat, g.flat, id, v, pa / PGSIZE, perm);
        TopShape(old(g), g, id, 0, v, pa / PGSIZE, perm, top);
      } else {
        NoMapping(old(g).flat, g.flat, id, v, pa / PGSIZE, perm);
        SameShape(old(g), g, id, 0, top);
      }
      ok := r == Ok;
    }

    /** uvmunmap of one page of the top, which is not freed. */
    method UnmapTop(pt: nat, v: nat, ghost n: nat, ghost id: nat, ghost top: set<Role>) returns (panic: bool)
      requires Valid() && Shape(g, id, n, top) && Rooted(g, id, pt) && id !in dying && LeafOf(id, v) in Top(id)
               && LeafOf(id, v) in top && v < MAXVPN
      modifies this`mem, this`freelist, this`g
      ensures !panic && Valid() && Frame(old(mem), mem, old(g), g, id) && Rooted(g, id, pt)
      ensures Shape(g, id, n, top - {LeafOf(id, v)})
      ensures Unmapped(old(g), g, id, v, v + 1, false)
    {
      hide Inv, Frame, Shape, LeafOf, Top, Unmapped, KeptButFreed;
      FewPages(mem, lo, freelist, g, dying, id, n, top);
      TopMapped(g, id, v, n, top);
      assert v * PGSIZE / PGSIZE == v && v * PGSIZE % PGSIZE == 0;
      var r := UvmUnmap(pt, v * PGSIZE, 1, false, id);
      panic := r == Panic;
      TopLess(old(g), g, id, n, v, top);
      UnmappedFrame(old(mem), mem, old(g), g, id, v, v + 1, false);
    }

    /** proc_pagetable's way back when the trapframe cannot be mapped. */
    method TakeDown(pt: nat, ghost id: nat) returns (panic: bool)
      requires Valid() && Shape(g, id, 0, {LeafOf(id, TRAMPOLINE)}) && Rooted(g, id, pt) && id !in dying
      modifies this
      ensures !panic && Valid() && dying == old(dying) && Freed(old(g), g, id) && Frame(old(mem), mem, old(g), g, id)
    {
      hide Inv, Frame, Shape, LeafOf, Freed, Top, Unmapped;
      TopsDiffer(id);
      panic := UnmapTop(pt, TRAMPOLINE, 0, id, {LeafOf(id, TRAMPOLINE)});
      ghost var m1, g1 := mem, g;
      assert {LeafOf(id, TRAMPOLINE)} - {LeafOf(id, TRAMPOLINE)} == {};
      panic := UvmFree(pt, 0, id);
      FrameTwice(old(mem), m1, mem, old(g), g1, g, id);
      FreedAfter(old(g), g1, g, id, TRAMPOLINE, TRAMPOLINE + 1);
    }

    /** proc_pagetable: a space with only its top mapped, or 0 with exactly the old pages free. */
    method ProcPagetable(trampoline: nat, trapframe: nat, ghost id: nat) returns (pt: nat, panic: bool)
      requires Valid() && Root(id) !in g.at && id !in dying
      requires trampoline / PGSIZE + MAXVPN <= MAXPPN && trapframe / PGSIZE + MAXVPN <= MAXPPN
      modifies this
      ensures !panic && Valid() && dying == old(dying) && Frame(old(mem), mem, old(g), g, id)
      ensures pt == 0 ==> forall p | p in old(g).own :: p in g.own && g.own[p] == old(g).own[p]
      ensures pt == 0 ==> Root(id) !in g.at
      ensures pt != 0 <==> |old(g).free| >= 3
      ensures pt != 0 ==> Fills(old(g), g, TopRoom(id)) && |old(g).free| == |g.free| + 3
      ensures pt != 0 ==> Rooted(g, id, pt) && Shape(g, id, 0, Top(id))
      ensures pt != 0 ==> Topped(g, id, trampoline / PGSIZE, trapframe / PGSIZE)
    {
      hide Inv, Frame, Shape, LeafOf, Pte, Freed, Top, Fills, Lack, TablesOf;
      FrameSame(mem, g, id);
      RolesKnown(mem, lo, freelist, g, dying);
      NewSpace(mem, lo, freelist, g, dying, id);
      NoRoles(mem, lo, freelist, g, dying, id);
      TopsDiffer(id);
      panic := false;
      pt := UvmCreate(id);
      if pt == 0 { return; }
      ghost var m1, g1 := mem, g;
      ghost var one, two := TablesOf(id, TRAMPOLINE), TablesOf(id, TRAPFRAME);
      TopTables(old(g), g, id);
      LackMore(g, one, one + two);
      var ok := MapTop(pt, TRAMPOLINE, trampoline, PTE_R + PTE_X, id, {});
      FrameTwice(old(mem), m1, mem, old(g), g1, g, id);
      ghost var m2, g2 := mem, g;
      if !ok {
        panic := UvmFree(pt, 0, id);
        FrameTwice(old(mem), m2, mem, old(g), g2, g, id);
        BackAgain(old(mem), m2, old(g), g2, g, id);
        return 0, panic;
      }
      assert {} + {LeafOf(id, TRAMPOLINE)} == {LeafOf(id, TRAMPOLINE)};
      LackTwice(g1, g, one, two);
      ok := MapTop(pt, TRAPFRAME, trapframe, PTE_R + PTE_W, id, {LeafOf(id, TRAMPOLINE)});
      FrameTwice(old(mem), m2, mem, old(g), g2, g, id);
      ghost var m3, g3 := mem, g;
      if !ok {
        panic := TakeDown(pt, id);
        FrameTwice(old(mem), m3, mem, old(g), g3, g, id);
        BackAgain(old(mem), m3, old(g), g3, g, id);
        pt := 0;
      } else {
        FillsTwice(g1, g2, g, one, two);
        FillsTwice(old(g), g1, g, {Root(id)}, one + two);
        assert {Root(id)} + (one + two) == TopRoom(id);
      }
    }

    /** proc_freepagetable: with the tracked size, exactly the pages of the space go back to the free list. */
    method ProcFreePagetable(pt: nat, sz: nat, ghost id: nat) returns (panic: bool)
      requires Valid() && Shape(g, id, Pages(sz), Top(id)) && Rooted(g, id, pt) && id !in dying
      modifies this
      ensures !panic && Valid() && dying == old(dying) && Freed(old(g), g, id) && Frame(old(mem), mem, old(g), g, id)
    {
      hide Inv, Frame, Shape, LeafOf, Freed, Top, Unmapped;
      TopsDiffer(id);
      panic := UnmapTop(pt, TRAMPOLINE, Pages(sz), id, Top(id));
      ghost var m1, g1 := mem, g;
      panic := UnmapTop(pt, TRAPFRAME, Pages(sz), id, Top(id) - {LeafOf(id, TRAMPOLINE)});
      FrameTwice(old(mem), m1, mem, old(g), g1, g, id);
      ghost var m2, g2 := mem, g;
      assert Top(id) - {LeafOf(id, TRAMPOLINE)} - {LeafOf(id, TRAPFRAME)} == {};
      panic := UvmFree(pt, sz, id);
      FrameTwice(old(mem), m2, mem, old(g), g2, g, id);
      FreedAfter(g1, g2, g, id, TRAPFRAME, TRAPFRAME + 1);
      FreedAfter(old(g), g1, g, id, TRAMPOLINE, TRAMPOLINE + 1);
    }

    /** walkaddr: the physical address of an accessible user page, or 0. */
    method WalkAddr(pt: nat, va: nat, ghost id: nat) returns (pa: nat)
      requires Valid() && Rooted(g, id, pt) && id !in dying && OnlyOwn(g, id)
      modifies this`mem, this`freelist, this`g
      ensures Valid() && mem == old(mem) && freelist == old(freelist) && g == old(g)
      ensures pa != 0 <==> Accessible(g, id, va / PGSIZE)
      ensures pa != 0 ==> LeafOf(id, va / PGSIZE) in g.at && pa == g.at[LeafOf(id, va / PGSIZE)] * PGSIZE
      ensures pa != 0 ==> pa / PGSIZE in g.own && g.own[pa / PGSIZE] == LeafOf(id, va / PGSIZE) && pa / PGSIZE in mem
    {
      hide Inv, LeafOf;
      ghost var v := va / PGSIZE;
      RangeLeaf(id, v);
      if va >= MAXVPN * PGSIZE { return 0; }
      MappedIsValid(mem, lo, freelist, g, dying, id, v);
      var ref := Walk(pt, va, false, id);
      if ref.Null? { UnownedToo(mem, lo, freelist, g, dying, id, v); return 0; }
      var pte := mem[ref.page][ref.i];
      if !PageTable.Valid(pte) { UnownedToo(mem, lo, freelist, g, dying, id, v); return 0; }
      if !UserBit(pte) { return 0; }
      RolesAt(mem, lo, freelist, g, dying, LeafOf(id, v));
      OwnedIsMapped(mem, lo, freelist, g, dying, LeafOf(id, v));
      pa := PageOf(pte) * PGSIZE;
    }

    /** copyout: -1 when a page of the range is not accessible; what precedes it is written. */
    method CopyOut(pt: nat, dstva: nat, src: seq<Byte>, ghost id: nat) returns (r: int, ghost n: nat)
      requires Valid() && Rooted(g, id, pt) && id !in dying && OnlyOwn(g, id)
      modifies this`mem, this`freelist, this`g
      ensures Valid() && freelist == old(freelist) && g == old(g) && n <= |src|
      ensures Overlaid(old(mem), mem, g, id, dstva, src[..n])
      ensures r == 0 ==> n == |src| && forall u: nat | dstva <= u < dstva + |src| :: Accessible(g, id, u / PGSIZE)
      ensures r != 0 ==> r == -1 && n < |src| && !Accessible(g, id, (dstva + n) / PGSIZE)
    {
      hide Inv, Overlaid, Accessible, OnlyOwn, PutBytes, Rooted;
      OverlaidNone(mem, g, id, dstva);
      var va, rest := dstva, src;
      n := 0;
      assert src[..0] == [];
      while rest != []
        invariant n <= |src| && va == dstva + n && rest == src[n..]
        invariant Valid() && freelist == old(freelist) && g == old(g) && Overlaid(old(mem), mem, g, id, dstva, src[..n])
        invariant forall u: nat | dstva <= u < va :: Accessible(g, id, u / PGSIZE)
        decreases |rest|
      {
        var va0 := va / PGSIZE * PGSIZE;
        var pa0 := WalkAddr(pt, va0, id);
        assert va0 / PGSIZE == va / PGSIZE;
        if pa0 == 0 { return -1, n; }
        var k := PGSIZE - (va - va0);
        if k > |rest| { k := |rest|; }
        ghost var m1 := mem;
        CopyPage(pa0 / PGSIZE, va - va0, rest[..k], id, va / PGSIZE);
        assert va == va / PGSIZE * PGSIZE + (va - va0);
        OverlaidTwice(old(mem), m1, mem, g, id, dstva, src[..n], rest[..k]);
        assert src[..n] + rest[..k] == src[..n + k];
        SamePage(va, k);
        rest := rest[k..];
        va := va + k;
        n := n + k;
      }
      assert src[..n] == src;
      r := 0;
    }

    /** memmove to a user page. */
    method CopyPage(p: nat, o: nat, data: seq<Byte>, ghost id: nat, ghost v: nat)
      requires Valid() && LeafOf(id, v) in g.at && g.at[LeafOf(id, v)] == p && o + |data| <= PGSIZE
      modifies this`mem
      ensures Valid() && Overlaid(old(mem), mem, g, id, v * PGSIZE + o, data)
    {
      RangeLeaf(id, v);
      hide Inv, LeafOf, Overlaid, PutBytes;
      RolesAt(mem, lo, freelist, g, dying, LeafOf(id, v));
      RolesKnown(mem, lo, freelist, g, dying);
      LooseKeeps(mem, lo, freelist, g, dying, p, PutBytes(mem[p], o, data));
      PageOverlaid(mem, g, id, v, o, data);
      mem := mem[p := PutBytes(mem[p], o, data)];
    }

    /** copyin: the bytes at srcva, or -1 when one of them is not accessible. */
    method CopyIn(pt: nat, srcva: nat, len: nat, ghost id: nat) returns (r: int, dst: seq<Byte>)
      requires Valid() && Rooted(g, id, pt) && id !in dying && OnlyOwn(g, id)
      modifies this`mem, this`freelist, this`g
      ensures Valid() && mem == old(mem) && freelist == old(freelist) && g == old(g)
      ensures r == 0 || r == -1
      ensures r == 0 <==> forall u: nat | srcva <= u < srcva + len :: Accessible(g, id, u / PGSIZE)
      ensures r == 0 ==> |dst| == len && forall k: nat | k < len :: dst[k] == VByte(mem, g, id, srcva + k)
    {
      hide Inv, Accessible, OnlyOwn, Rooted;
      dst := [];
      while |dst| < len
        invariant |dst| <= len && Valid() && mem == old(mem) && freelist == old(freelist) && g == old(g)
        invariant forall u: nat | srcva <= u < srcva + |dst| :: Accessible(g, id, u / PGSIZE)
        invariant forall k: nat | k < |dst| :: dst[k] == VByte(mem, g, id, srcva + k)
      {
        var va := srcva + |dst|;
        var va0 := va / PGSIZE * PGSIZE;
        var pa0 := WalkAddr(pt, va0, id);
        assert va0 / PGSIZE == va / PGSIZE;
        if pa0 == 0 { return -1, dst; }
        var k := PGSIZE - (va - va0);
        if k > len - |dst| { k := len - |dst|; }
        SamePage(va, k);
        var data := GetBytes(mem[pa0 / PGSIZE], va - va0, k);
        GotBytes(mem, g, id, va, data);
        dst := dst + data;
      }
      r := 0;
    }

    /** uvmclear: the page is no longer for user code. */
    method UvmClear(pt: nat, va: nat, ghost n: nat, ghost id: nat, ghost top: set<Role>) returns (panic: bool)
      requires Valid() && Shape(g, id, n, top) && Rooted(g, id, pt) && id !in dying && va / PGSIZE < n
      modifies this`mem, this`freelist, this`g
      ensures !panic && Valid() && Shape(g, id, n, top) && Rooted(g, id, pt) && Frame(old(mem), mem, old(g), g, id)
      ensures LeafOf(id, va / PGSIZE) in old(g).flat && g == old(g).(flat := g.flat)
      ensures g.flat == old(g).flat[LeafOf(id, va / PGSIZE) := NoUser(old(g).flat[LeafOf(id, va / PGSIZE)])]
      ensures BytesBelow(old(mem), mem, old(g), g, id, n * PGSIZE)
    {
      hide Inv, LeafOf, Shape, Walked, Frame, BytesBelow;
      RolesKnown(mem, lo, freelist, g, dying);
      ghost var v := va / PGSIZE;
      OwnsLow(g, id, n, top, v);
      FewPages(mem, lo, freelist, g, dying, id, n, top);
      MappedIsValid(mem, lo, freelist, g, dying, id, v);
      RangeLeaf(id, v);
      OwnedIsMapped(mem, lo, freelist, g, dying, LeafOf(id, v));
      panic := true;
      var ref := Walk(pt, va, false, id);
      if !ref.At? { return; }
      var pte := mem[ref.page][ref.i];
      NoUserLeaf(pte);
      Store(ref, NoUser(pte), id, v);
      WalkedFrame(old(mem), mem, old(g), g, id);
      WalkedBytes(old(mem), mem, old(g), g, id, n * PGSIZE);
      ClearShape(old(g), g, id, n, top, v);
      panic := false;
    }
  }
}
