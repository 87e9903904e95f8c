/**
 * Physical pages, the free list threaded through them, and Sv39 page tables stored in them
 * (section 4.4 of the RISC-V Privileged Architecture, version 20211203). A page holds 512 words;
 * a page table entry is a page number times 1024 plus ten flag bits.
 */
module PageTable {

  const PGSIZE := 4096
  const ENTRIES := 512
  const MAXVPN := 0x400_0000            // MAXVA / PGSIZE
  const TRAMPOLINE := MAXVPN - 1        // page numbers
  const TRAPFRAME := MAXVPN - 2
  const KERNBASE := 0x8_0200
  const PHYSTOP := 0x8_8200

  const PTE_V := 1
  const PTE_R := 2
  const PTE_W := 4
  const PTE_X := 8
  const PTE_U := 16

  type Word = x: int | 0 <= x < 0x1_0000_0000_0000_0000

  type Page = p: seq<Word> | |p| == ENTRIES witness seq(ENTRIES, i => 0)

  type Memory = map<nat, Page>

  /** memset of a whole page, word by word. */
  function Memset(w: Word): (p: Page) {
    seq(ENTRIES, i => w)
  }

  const JUNK1: Word := 0x0101_0101_0101_0101
  const JUNK5: Word := 0x0505_0505_0505_0505

  /**
   * What a page is used for. Space id has a root table, tables Mid(id, i) for its root entries,
   * tables Low(id, i, j) below those, and user pages Leaf(id, i, j, k). Loose pages are in the hands of
   * kernel code.
   */
  datatype Role = Free | Loose | Root(id: nat) | Mid(id: nat, i: nat)
    | Low(id: nat, i: nat, j: nat) | Leaf(id: nat, i: nat, j: nat, k: nat)

  /** free: the free list. own: the role of every page. at: its inverse on spaces. flat: the mapping of every space. */
  datatype Book = Book(free: seq<nat>, own: map<nat, Role>, at: map<Role, nat>, flat: map<Role, Word>)

  predicate IsTable(role: Role) { role.Root? || role.Mid? || role.Low? }

  function Child(role: Role, x: nat): (c: Role)
    requires IsTable(role)
  {
    match role
    case Root(id) => Mid(id, x)
    case Mid(id, i) => Low(id, i, x)
    case Low(id, i, j) => Leaf(id, i, j, x)
  }

  /** Physical addresses have 56 bits. */
  const MAXPPN := 0x1000_0000_0000

  /** The 64-bit entry for page p. */
  function Pte(p: nat, flags: nat): (w: Word)
    ensures p < MAXPPN && flags < 1024 ==> w == p * 1024 + flags
  {
    (p * 1024 + flags) % 0x1_0000_0000_0000_0000
  }

  predicate Valid(w: Word) { w % 2 == 1 }

  /** A valid entry with R, W or X set. */
  predicate IsLeaf(w: Word) { Valid(w) && w / 2 % 8 != 0 }

  function PageOf(w: Word): (p: nat) { w / 1024 }

  function Flags(w: Word): (n: nat) { w % 1024 }

  predicate InRam(lo: nat, p: nat) { KERNBASE < lo <= p < PHYSTOP }

  /** The free list: an address in the first word of each page, 0 in the last. */
  ghost predicate Links(mem: Memory, head: nat, free: seq<nat>) {
    && head == (if free == [] then 0 else free[0] * PGSIZE)
    && (forall p | p in free :: p in mem)
    && (forall i, j | 0 <= i && j == i + 1 && j < |free| :: mem[free[i]][0] == free[j] * PGSIZE)
    && (free != [] ==> mem[free[|free| - 1]][0] == 0)
  }

  /** The free list has every free page once. */
  ghost predicate Lists(free: seq<nat>, own: map<nat, Role>) {
    && (forall i, j | 0 <= i < j < |free| :: free[i] != free[j])
    && (forall p :: p in free <==> p in own && own[p] == Free)
  }

  /** Every page of RAM has one role, and every page of a space is where its role says. */
  ghost predicate Roles(mem: Memory, lo: nat, g: Book) {
    && (forall p :: p in g.own <==> InRam(lo, p))
    && (forall p | p in g.own :: p in mem)
    && (forall role | role in g.at :: g.at[role] in g.own && g.own[g.at[role]] == role && role != Free && role != Loose)
    && (forall p | p in g.own && g.own[p] != Free && g.own[p] != Loose :: g.own[p] in g.at && g.at[g.own[p]] == p)
  }

  /** Tables hang from tables, mappings from lowest tables, and user pages are mapped. */
  ghost predicate Hangs(g: Book) {
    && (forall role: Role, x: nat | IsTable(role) && !role.Low? && Child(role, x) in g.at ::
          role in g.at && x < ENTRIES)
    && (forall role: Role, x: nat | role.Low? && Child(role, x) in g.flat :: role in g.at && x < ENTRIES)
    && (forall role | role in g.flat :: role.Leaf? && IsLeaf(g.flat[role]))
    && (forall role | role in g.at && role.Leaf? :: role in g.flat && PageOf(g.flat[role]) == g.at[role])
  }

  /** What entry x of a table should hold. */
  ghost function Entry(g: Book, role: Role, x: nat): (w: int)
    requires IsTable(role)
  {
    var c := Child(role, x);
    if role.Low? then (if c in g.flat then g.flat[c] else 0)
    else if c in g.at then g.at[c] * 1024 + PTE_V else 0
  }

  ghost predicate TableOk(mem: Memory, g: Book, role: Role)
    requires IsTable(role)
  {
    && role in g.at && g.at[role] in mem
    && forall x | 0 <= x < ENTRIES :: mem[g.at[role]][x] == Entry(g, role, x)
  }

  /** The tables of every space, except the dying one, hold the entries they should. */
  ghost predicate Tables(mem: Memory, g: Book, dying: set<nat>) {
    forall role | role in g.at && IsTable(role) && role.id !in dying :: TableOk(mem, g, role)
  }

  ghost predicate Inv(mem: Memory, lo: nat, head: nat, g: Book, dying: set<nat>) {
    Links(mem, head, g.free) && Lists(g.free, g.own) && Roles(mem, lo, g) && Hangs(g) && Tables(mem, g, dying)
  }

  // ---- frames ----

  /** Hangs and Tables do not look at the free list or at the roles of pages. */
  lemma HangsSame(g: Book, r: Book)
    requires Hangs(g) && r.at == g.at && r.flat == g.flat
    ensures Hangs(r)
  {
  }

  lemma TablesSame(mem: Memory, m: Memory, g: Book, r: Book, dying: set<nat>)
    requires Tables(mem, g, dying) && r.at == g.at && r.flat == g.flat
    requires forall role | role in g.at && IsTable(role) ::
               g.at[role] in mem ==> g.at[role] in m && m[g.at[role]] == mem[g.at[role]]
    ensures Tables(m, r, dying)
  {
    forall role | role in r.at && IsTable(role) && role.id !in dying ensures TableOk(m, r, role) {
      assert TableOk(mem, g, role);
      assert forall x: nat :: Entry(r, role, x) == Entry(g, role, x);
    }
  }

  lemma LinksSame(mem: Memory, m: Memory, head: nat, free: seq<nat>)
    requires Links(mem, head, free) && forall p | p in free :: p in mem ==> p in m && m[p] == mem[p]
    ensures Links(m, head, free)
  {
  }

  // ---- the free list ----

  /** kfree(p): junk, then the link to the old head. */
  function Pushed(mem: Memory, head: Word, p: nat): (m: Memory) {
    mem[p := Memset(JUNK1)[0 := head]]
  }

  lemma LinksPush(mem: Memory, head: Word, free: seq<nat>, p: nat)
    requires Links(mem, head, free) && p !in free
    ensures Links(Pushed(mem, head, p), p * PGSIZE, [p] + free)
  {
    var m, f := Pushed(mem, head, p), [p] + free;
    forall i, j | 0 <= i && j == i + 1 && j < |f| ensures m[f[i]][0] == f[j] * PGSIZE {
      if i > 0 { assert f[i] == free[i - 1] && f[j] == free[i]; }
    }
    if free != [] { assert f[|f| - 1] == free[|free| - 1]; }
  }

  lemma ListsPush(free: seq<nat>, own: map<nat, Role>, p: nat)
    requires Lists(free, own) && p in own && own[p] == Loose
    ensures Lists([p] + free, own[p := Free]) && p !in free
  {
    forall q: nat ensures q in [p] + free <==> q in own[p := Free] && own[p := Free][q] == Free {
      assert q in [p] + free <==> q == p || q in free;
    }
  }

  lemma PushKeeps(mem: Memory, lo: nat, head: Word, g: Book, dying: set<nat>, p: nat)
    requires Inv(mem, lo, head, g, dying) && p in g.own && g.own[p] == Loose
    ensures Inv(Pushed(mem, head, p), lo, p * PGSIZE, g.(free := [p] + g.free, own := g.own[p := Free]), dying)
  {
    hide Links, Lists, Hangs, Tables, Pushed;
    var m, r := Pushed(mem, head, p), g.(free := [p] + g.free, own := g.own[p := Free]);
    ListsPush(g.free, g.own, p);
    LinksPush(mem, head, g.free, p);
    HangsSame(g, r);
    PushedPage(mem, head, p);
    TablesSame(mem, m, g, r, dying);
  }

  lemma PushedPage(mem: Memory, head: Word, p: nat)
    ensures p in Pushed(mem, head, p)
    ensures forall q | q in mem && q != p :: q in Pushed(mem, head, p) && Pushed(mem, head, p)[q] == mem[q]
  {
  }

  /** kalloc takes the first page and fills it with junk. */
  function Popped(mem: Memory, p: nat): (m: Memory) {
    mem[p := Memset(JUNK5)]
  }

  ghost function Taken(g: Book): (r: Book)
    requires g.free != []
  {
    g.(free := g.free[1..], own := g.own[g.free[0] := Loose])
  }

  lemma LinksPop(mem: Memory, head: nat, free: seq<nat>)
    requires Links(mem, head, free) && free != [] && forall i, j | 0 <= i < j < |free| :: free[i] != free[j]
    ensures free[0] in mem && head == free[0] * PGSIZE && Links(Popped(mem, free[0]), mem[free[0]][0], free[1..])
  {
    var m, f := Popped(mem, free[0]), free[1..];
    assert free[0] in free;
    forall i, j | 0 <= i && j == i + 1 && j < |f| ensures m[f[i]][0] == f[j] * PGSIZE {
      assert f[i] == free[j] && f[j] == free[j + 1];
    }
    if f != [] { assert f[|f| - 1] == free[|free| - 1]; }
  }

  lemma ListsPop(free: seq<nat>, own: map<nat, Role>)
    requires Lists(free, own) && free != []
    ensures free[0] in own && own[free[0]] == Free && Lists(free[1..], own[free[0] := Loose])
  {
    assert free[0] in free;
    forall q: nat ensures q in free[1..] <==> q in own && q != free[0] && own[q] == Free {
      assert q in free <==> q == free[0] || q in free[1..];
    }
  }

  lemma PopKeeps(mem: Memory, lo: nat, head: nat, g: Book, dying: set<nat>)
    requires Inv(mem, lo, head, g, dying)
    ensures head == 0 <==> g.free == []
    ensures g.free != [] ==>
            && g.free[0] in mem && head == g.free[0] * PGSIZE && InRam(lo, g.free[0]) && g.free[0] in g.own
            && g.own[g.free[0]] == Free
            && Inv(Popped(mem, g.free[0]), lo, mem[g.free[0]][0], Taken(g), dying)
  {
    if g.free != [] {
      var p := g.free[0];
      ListsPop(g.free, g.own);
      LinksPop(mem, head, g.free);
      hide Links, Lists, Hangs, Tables;
      HangsSame(g, Taken(g));
      TablesSame(mem, Popped(mem, p), g, Taken(g), dying);
    }
  }

  /** A loose page may be filled with anything. */
  lemma LooseKeeps(mem: Memory, lo: nat, head: nat, g: Book, dying: set<nat>, p: nat, page: Page)
    requires Inv(mem, lo, head, g, dying) && p in g.own && (g.own[p] == Loose || g.own[p].Leaf?)
    ensures Inv(mem[p := page], lo, head, g, dying)
  {
    assert p !in g.free;
    hide Links, Lists, Hangs, Tables;
    LinksSame(mem, mem[p := page], head, g.free);
    TablesSame(mem, mem[p := page], g, g, dying);
  }

  // ---- tables ----

  /** Page p takes up a role. */
  ghost function Settled(g: Book, role: Role, p: nat): (r: Book) {
    g.(own := g.own[p := role], at := g.at[role := p])
  }

  lemma RolesSettle(mem: Memory, lo: nat, g: Book, role: Role, p: nat)
    requires Roles(mem, lo, g) && p in g.own && g.own[p] == Loose && role !in g.at && role != Free && role != Loose
    ensures Roles(mem, lo, Settled(g, role, p))
  {
  }

  lemma ListsSettle(free: seq<nat>, own: map<nat, Role>, role: Role, p: nat)
    requires Lists(free, own) && p in own && own[p] != Free && role != Free
    ensures Lists(free, own[p := role])
  {
  }

  /** A table with nothing below it yet. */
  ghost predicate Bare(g: Book, role: Role)
    requires IsTable(role)
  {
    forall x: nat :: Child(role, x) !in g.at && Child(role, x) !in g.flat
  }

  lemma HangsSettle(g: Book, role: Role, p: nat)
    requires Hangs(g) && role !in g.at && IsTable(role)
    requires role.Mid? ==> Root(role.id) in g.at && role.i < ENTRIES
    requires role.Low? ==> Mid(role.id, role.i) in g.at && role.j < ENTRIES
    ensures Hangs(Settled(g, role, p)) && Bare(g, role)
  {
  }

  lemma BareOk(mem: Memory, g: Book, role: Role, p: nat)
    requires IsTable(role) && Bare(g, role) && p in mem && mem[p] == Memset(0)
    ensures TableOk(mem, Settled(g, role, p), role)
  {
    var r := Settled(g, role, p);
    forall x: nat | x < ENTRIES ensures Entry(r, role, x) == 0 {
      assert Child(role, x) != role;
    }
  }

  /** uvmcreate: a zeroed page becomes the root of a new space. */
  lemma RootKeeps(mem: Memory, lo: nat, head: nat, g: Book, dying: set<nat>, id: nat, p: nat)
    requires Inv(mem, lo, head, g, dying) && p in g.own && g.own[p] == Loose && mem[p] == Memset(0) && Root(id) !in g.at
    ensures Inv(mem, lo, head, Settled(g, Root(id), p), dying)
  {
    hide Links, Lists, Hangs, Bare;
    var r := Settled(g, Root(id), p);
    RolesSettle(mem, lo, g, Root(id), p);
    ListsSettle(g.free, g.own, Root(id), p);
    HangsSettle(g, Root(id), p);
    BareOk(mem, g, Root(id), p);
    hide Roles, TableOk;
    forall role | role in r.at && IsTable(role) && role.id !in dying ensures TableOk(mem, r, role) {
      if role != Root(id) {
        assert TableOk(mem, g, role);
        OthersSame(mem, g, Root(id), p, role);
      }
    }
  }

  /** Settling a page changes no entry but its parent's. */
  lemma OthersSame(mem: Memory, g: Book, c: Role, p: nat, role: Role)
    requires IsTable(role) && TableOk(mem, g, role) && role != c && forall x: nat :: Child(role, x) != c
    ensures TableOk(mem, Settled(g, c, p), role)
  {
  }

  /** Entry x of the table in page t is overwritten. */
  function Written(mem: Memory, t: nat, x: nat, w: Word): (m: Memory)
    requires t in mem && x < ENTRIES
  {
    mem[t := mem[t][x := w]]
  }

  /** walk's allocation: a zeroed page becomes the table below entry x. */
  lemma TableKeeps(mem: Memory, lo: nat, head: nat, g: Book, dying: set<nat>, role: Role, x: nat, p: nat)
    requires Inv(mem, lo, head, g, dying) && p in g.own && g.own[p] == Loose && mem[p] == Memset(0)
    requires (role.Root? || role.Mid?) && role in g.at && x < ENTRIES && Child(role, x) !in g.at
    ensures g.at[role] in mem && p < PHYSTOP
            && Inv(Written(mem, g.at[role], x, Pte(p, PTE_V)), lo, head, Settled(g, Child(role, x), p), dying)
  {
    hide Links, Hangs, Tables, TableOk, Bare;
    var t, c := g.at[role], Child(role, x);
    var r, m := Settled(g, c, p), Written(mem, t, x, Pte(p, PTE_V));
    RolesSettle(mem, lo, g, c, p);
    ListsSettle(g.free, g.own, c, p);
    assert t !in g.free && t != p;
    hide Lists;
    LinksSame(mem, m, head, g.free);
    HangsSettle(g, c, p);
    TableAdded(mem, lo, g, dying, role, x, p);
  }

  lemma TableAdded(mem: Memory, lo: nat, g: Book, dying: set<nat>, role: Role, x: nat, p: nat)
    requires Roles(mem, lo, g) && Tables(mem, g, dying) && p in g.own && g.own[p] == Loose && mem[p] == Memset(0)
    requires (role.Root? || role.Mid?) && role in g.at && x < ENTRIES && Child(role, x) !in g.at
    requires Bare(g, Child(role, x))
    ensures g.at[role] in mem && p < PHYSTOP
    ensures Tables(Written(mem, g.at[role], x, Pte(p, PTE_V)), Settled(g, Child(role, x), p), dying)
  {
    var t, c := g.at[role], Child(role, x);
    var r, m := Settled(g, c, p), Written(mem, t, x, Pte(p, PTE_V));
    hide Bare;
    forall q | q in r.at && IsTable(q) && q.id !in dying ensures TableOk(m, r, q) {
      if q == c {
        BareOk(m, g, c, p);
      } else {
        assert TableOk(mem, g, q);
        if q != role {
          assert g.at[q] != t;
          assert TableOk(m, g, q);
          assert forall y: nat :: Child(q, y) != c;
          OthersSame(m, g, c, p, q);
        }
      }
    }
  }

  // ---- mappings ----

  /** An entry of a lowest table is set: page number and flags in one word. */
  lemma MapKeeps(mem: Memory, lo: nat, head: nat, g: Book, dying: set<nat>, role: Role, x: nat, w: Word)
    requires Inv(mem, lo, head, g, dying) && role.Low? && role in g.at && x < ENTRIES && IsLeaf(w)
    requires Child(role, x) in g.at ==> PageOf(w) == g.at[Child(role, x)]
    ensures g.at[role] in mem
    ensures Inv(Written(mem, g.at[role], x, w), lo, head, g.(flat := g.flat[Child(role, x) := w]), dying)
  {
    hide Links, Tables, TableOk;
    var m, r := Written(mem, g.at[role], x, w), g.(flat := g.flat[Child(role, x) := w]);
    assert g.at[role] !in g.free;
    assert Hangs(r) by { hide Roles, Lists; }
    hide Hangs, Lists;
    LinksSame(mem, m, head, g.free);
    LeafWritten(mem, lo, g, r, dying, role, x, w);
  }

  /** An entry of a lowest table is cleared. */
  lemma UnmapKeeps(mem: Memory, lo: nat, head: nat, g: Book, dying: set<nat>, role: Role, x: nat)
    requires Inv(mem, lo, head, g, dying) && role.Low? && role in g.at && x < ENTRIES && Child(role, x) !in g.at
    ensures g.at[role] in mem
    ensures Inv(Written(mem, g.at[role], x, 0), lo, head, g.(flat := g.flat - {Child(role, x)}), dying)
  {
    hide Links, Tables, TableOk;
    var m, r := Written(mem, g.at[role], x, 0), g.(flat := g.flat - {Child(role, x)});
    assert g.at[role] !in g.free;
    assert Hangs(r) by { hide Roles, Lists; }
    hide Hangs, Lists;
    LinksSame(mem, m, head, g.free);
    LeafWritten(mem, lo, g, r, dying, role, x, 0);
  }

  lemma LeafWritten(mem: Memory, lo: nat, g: Book, r: Book, dying: set<nat>, role: Role, x: nat, w: Word)
    requires Roles(mem, lo, g) && Tables(mem, g, dying) && role.Low? && role in g.at && x < ENTRIES
    requires r == g.(flat := r.flat) && Entry(r, role, x) == w
    requires forall c | c != Child(role, x) ::
               (c in r.flat <==> c in g.flat) && (c in g.flat ==> r.flat[c] == g.flat[c])
    ensures g.at[role] in mem && Tables(Written(mem, g.at[role], x, w), r, dying)
  {
    var t := g.at[role];
    var m := Written(mem, t, x, w);
    forall q | q in r.at && IsTable(q) && q.id !in dying ensures TableOk(m, r, q) {
      assert TableOk(mem, g, q);
      if q != role {
        assert g.at[q] != t;
        forall y: nat | y < ENTRIES ensures Entry(r, q, y) == Entry(g, q, y) {
          assert Child(q, y) != Child(role, x);
        }
      } else {
        forall y: nat | y < ENTRIES && y != x ensures Entry(r, q, y) == Entry(g, q, y) {
          assert Child(q, y) != Child(role, x);
        }
      }
    }
  }

  /** A mapped loose page becomes the space's own. */
  lemma AdoptKeeps(mem: Memory, lo: nat, head: nat, g: Book, dying: set<nat>, leaf: Role, p: nat)
    requires Inv(mem, lo, head, g, dying) && p in g.own && g.own[p] == Loose && leaf in g.flat && leaf !in g.at
    requires PageOf(g.flat[leaf]) == p
    ensures Inv(mem, lo, head, Settled(g, leaf, p), dying)
  {
    var r := Settled(g, leaf, p);
    assert leaf.Leaf?;
    RolesSettle(mem, lo, g, leaf, p);
    ListsSettle(g.free, g.own, leaf, p);
    assert Hangs(r) by { hide Roles, Lists, Tables, Links; }
    hide Hangs, Links, Lists, Roles, TableOk;
    forall q | q in r.at && IsTable(q) && q.id !in dying ensures TableOk(mem, r, q) {
      assert TableOk(mem, g, q);
      LeafSettled(mem, g, leaf, p, q);
    }
  }

  /** Which pages a space owns does not show in its tables. */
  lemma LeafSettled(mem: Memory, g: Book, leaf: Role, p: nat, role: Role)
    requires leaf.Leaf? && IsTable(role) && TableOk(mem, g, role)
    ensures TableOk(mem, Settled(g, leaf, p), role)
  {
    assert forall y: nat :: Entry(Settled(g, leaf, p), role, y) == Entry(g, role, y);
  }

  /** The page in a role goes back to the kernel's hands. */
  ghost function Dropped(g: Book, role: Role): (r: Book)
    requires role in g.at
  {
    g.(own := g.own[g.at[role] := Loose], at := g.at - {role})
  }

  lemma RolesDrop(mem: Memory, lo: nat, g: Book, role: Role)
    requires Roles(mem, lo, g) && role in g.at
    ensures Roles(mem, lo, Dropped(g, role))
  {
  }

  lemma DropKeeps(mem: Memory, lo: nat, head: nat, g: Book, dying: set<nat>, leaf: Role)
    requires Inv(mem, lo, head, g, dying) && leaf in g.at && leaf.Leaf?
    ensures Inv(mem, lo, head, Dropped(g, leaf), dying)
  {
    var r := Dropped(g, leaf);
    RolesDrop(mem, lo, g, leaf);
    ListsSettle(g.free, g.own, Loose, g.at[leaf]);
    assert Hangs(r) by { hide Roles, Lists, Tables, Links; }
    hide Hangs, Links, Lists, Roles;
    forall q | q in r.at && IsTable(q) && q.id !in dying ensures TableOk(mem, r, q) {
      assert TableOk(mem, g, q);
      assert forall y: nat :: Entry(r, q, y) == Entry(g, q, y);
    }
  }

  // ---- tearing a space down ----

  lemma DyingKeeps(mem: Memory, lo: nat, head: nat, g: Book, dying: set<nat>, id: nat)
    requires Inv(mem, lo, head, g, dying)
    ensures Inv(mem, lo, head, g, dying + {id})
  {
  }

  /** A table of a dying space with nothing below it goes. */
  lemma DropTableKeeps(mem: Memory, lo: nat, head: nat, g: Book, dying: set<nat>, role: Role)
    requires Inv(mem, lo, head, g, dying) && role in g.at && IsTable(role) && role.id in dying && Bare(g, role)
    ensures Inv(mem, lo, head, Dropped(g, role), dying)
  {
    hide Hangs, Links, Tables, Bare;
    var r := Dropped(g, role);
    RolesDrop(mem, lo, g, role);
    ListsSettle(g.free, g.own, Loose, g.at[role]);
    HangsDrop(g, role);
    hide Lists, Roles;
    TablesDrop(mem, g, dying, role);
  }

  lemma HangsDrop(g: Book, role: Role)
    requires Hangs(g) && role in g.at && IsTable(role) && Bare(g, role)
    ensures Hangs(Dropped(g, role))
  {
  }

  lemma TablesDrop(mem: Memory, g: Book, dying: set<nat>, role: Role)
    requires Tables(mem, g, dying) && role in g.at && IsTable(role) && role.id in dying
    ensures Tables(mem, Dropped(g, role), dying)
  {
    var r := Dropped(g, role);
    forall q | q in r.at && IsTable(q) && q.id !in dying ensures TableOk(mem, r, q) {
      assert TableOk(mem, g, q);
      assert forall y: nat :: Child(q, y) != role;
      assert forall y: nat :: Entry(r, q, y) == Entry(g, q, y);
    }
  }

  /** The tables of a dying space may hold anything. */
  lemma DyingWrite(mem: Memory, lo: nat, head: nat, g: Book, dying: set<nat>, role: Role, x: nat, w: Word)
    requires Inv(mem, lo, head, g, dying) && role in g.at && IsTable(role) && role.id in dying && x < ENTRIES
    ensures g.at[role] in mem && Inv(Written(mem, g.at[role], x, w), lo, head, g, dying)
  {
    hide Links, Hangs;
    var m := Written(mem, g.at[role], x, w);
    assert g.at[role] !in g.free;
    LinksSame(mem, m, head, g.free);
    hide Lists;
    forall q | q in g.at && IsTable(q) && q.id !in dying ensures TableOk(m, g, q) {
      assert TableOk(mem, g, q);
      assert g.at[q] != g.at[role];
    }
  }

  /** Without a root nothing of a space is left. */
  lemma Gone(mem: Memory, lo: nat, head: nat, g: Book, dying: set<nat>, id: nat)
    requires Inv(mem, lo, head, g, dying + {id}) && Root(id) !in g.at
    ensures Inv(mem, lo, head, g, dying)
    ensures forall role | role in g.at || role in g.flat :: role != Free && role != Loose && role.id != id
  {
    forall role | role in g.at || role in g.flat ensures role != Free && role != Loose && role.id != id {
      if role.Leaf? {
        assert Child(Low(role.id, role.i, role.j), role.k) == role;
        assert Child(Mid(role.id, role.i), role.j) == Low(role.id, role.i, role.j);
        assert Child(Root(role.id), role.i) == Mid(role.id, role.i);
      } else if role.Low? {
        assert Child(Mid(role.id, role.i), role.j) == role;
        assert Child(Root(role.id), role.i) == Mid(role.id, role.i);
      } else if role.Mid? {
        assert Child(Root(role.id), role.i) == role;
      }
    }
  }
}
