/**
 * The memory of all processes: allocproc, fork, growproc, freeproc and the spaces they create, copy, grow and free
 * in any order, with kalloc failing at any point. Every page is accounted for at every moment.
 */
module Processes {
  import opened PageTable
  import opened Vm

  /** A process's page table, the size of its memory and the address of its trapframe page. */
  datatype Space = Space(pt: nat, sz: nat, tf: nat)

  /** What can happen to the processes: Grow and Shrink are growproc. */
  datatype Op =
    | Spawn(id: nat)
    | Grow(id: nat, sz: nat)
    | Shrink(id: nat, sz: nat)
    | Fork(id: nat, kid: nat)
    | Exit(id: nat)

  /** Every process has the user pages its size says below its top, and a trapframe page of its own. */
  ghost predicate Living(g: Book, procs: map<nat, Space>) {
    && (forall id | id in procs :: Lives(g, id, procs[id]))
    && (forall id, other | id in procs && other in procs && procs[id].tf == procs[other].tf :: id == other)
  }

  ghost predicate Lives(g: Book, id: nat, s: Space) {
    Shape(g, id, Pages(s.sz), Top(id)) && Rooted(g, id, s.pt) && HasFrame(g, s)
  }

  ghost predicate HasFrame(g: Book, s: Space) {
    s.tf % PGSIZE == 0 && s.tf / PGSIZE in g.own && g.own[s.tf / PGSIZE] == Loose
  }

  /** The page is used by one of the processes. */
  ghost predicate Theirs(role: Role, p: nat, procs: map<nat, Space>) {
    exists id :: id in procs && (OfSpace(role, id) || (role == Loose && procs[id].tf == p * PGSIZE))
  }

  /** Since g0, free pages have gone to the processes, and nothing else has changed hands. */
  ghost predicate Accounted(g0: Book, g: Book, procs: map<nat, Space>) {
    && g.own.Keys == g0.own.Keys
    && (forall id | id in procs :: procs[id].tf / PGSIZE in g0.own && g0.own[procs[id].tf / PGSIZE] == Free)
    && forall p | p in g0.own :: g.own[p] == g0.own[p] || (g0.own[p] == Free && Theirs(g.own[p], p, procs))
  }

  /** Nothing of space id was there at the start. */
  ghost predicate Unknown(g0: Book, id: nat) { forall p | p in g0.own :: !OfSpace(g0.own[p], id) }

  lemma Started(g: Book)
    ensures Accounted(g, g, map[]) && Living(g, map[])
  {
  }

  lemma AllBack(g0: Book, g: Book)
    requires Accounted(g0, g, map[])
    ensures SamePages(g0, g)
  {
  }

  lemma NotYet(mem: Memory, lo: nat, head: nat, g0: Book, g: Book, procs: map<nat, Space>, id: nat)
    requires Inv(mem, lo, head, g, {}) && Accounted(g0, g, procs) && Unknown(g0, id) && id !in procs
    ensures Root(id) !in g.at
  {
    RolesKnown(mem, lo, head, g, {});
    hide Inv;
    assert forall p | p in g.own :: g.own[p] != Root(id);
  }

  /** Work on one process's space. */
  lemma StepAccounted(mem: Memory, m: Memory, g0: Book, g: Book, r: Book, procs: map<nat, Space>, id: nat)
    requires Accounted(g0, g, procs) && Frame(mem, m, g, r, id) && id in procs && Unknown(g0, id)
    requires forall p | p in g.own :: p in mem
    ensures Accounted(g0, r, procs)
  {
    forall p | p in g0.own ensures r.own[p] == g0.own[p] || (g0.own[p] == Free && Theirs(r.own[p], p, procs)) {
      if Foreign(g.own[p], id) {
        assert r.own[p] == g.own[p];
      } else {
        assert g0.own[p] == Free;
        assert r.own[p] == Free || OfSpace(r.own[p], id);
      }
    }
  }

  /** The others live on. */
  lemma OtherLives(mem: Memory, m: Memory, g: Book, r: Book, id: nat, other: nat, s: Space)
    requires Lives(g, other, s) && Frame(mem, m, g, r, id) && other != id && forall p | p in g.own :: p in mem
    ensures Lives(r, other, s)
  {
    hide Shape, Rooted;
    FrameShape(mem, m, g, r, id, other, Pages(s.sz), Top(other), s.pt);
  }

  lemma FrameKept(mem: Memory, m: Memory, g: Book, r: Book, id: nat, s: Space)
    requires HasFrame(g, s) && Frame(mem, m, g, r, id) && forall p | p in g.own :: p in mem
    ensures HasFrame(r, s)
  {
  }

  /** A process whose space has changed, the others as they were. */
  lemma StepLiving(mem: Memory, m: Memory, g: Book, r: Book, procs: map<nat, Space>, id: nat, s: Space)
    requires Living(g, procs) && Frame(mem, m, g, r, id) && (forall p | p in g.own :: p in mem)
    requires Lives(r, id, s) && (forall other | other in procs && other != id :: procs[other].tf != s.tf)
    ensures Living(r, procs[id := s])
  {
    hide Lives, Frame;
    forall other | other in procs && other != id ensures Lives(r, other, procs[other]) {
      OtherLives(mem, m, g, r, id, other, procs[other]);
    }
  }

  lemma StepGone(mem: Memory, m: Memory, g: Book, r: Book, procs: map<nat, Space>, id: nat)
    requires Living(g, procs) && Frame(mem, m, g, r, id) && (forall p | p in g.own :: p in mem)
    ensures Living(r, procs - {id})
  {
    hide Lives, Frame;
    forall other | other in procs && other != id ensures Lives(r, other, procs[other]) {
      OtherLives(mem, m, g, r, id, other, procs[other]);
    }
  }

  /** The size changes, the trapframe stays. */
  lemma AccountedSize(g0: Book, g: Book, procs: map<nat, Space>, id: nat, s: Space)
    requires Accounted(g0, g, procs) && id in procs && s.tf == procs[id].tf
    ensures Accounted(g0, g, procs[id := s])
  {
    forall p | p in g0.own && g.own[p] != g0.own[p] ensures Theirs(g.own[p], p, procs[id := s]) {
      var other :| other in procs && (OfSpace(g.own[p], other) || (g.own[p] == Loose && procs[other].tf == p * PGSIZE));
      assert other in procs[id := s] && procs[id := s][other].tf == procs[other].tf;
    }
  }

  // ---- the trapframe page ----

  /** kalloc of a trapframe. */
  lemma FrameTaken(mem: Memory, lo: nat, head: nat, g0: Book, g: Book, procs: map<nat, Space>, id: nat, s: Space)
    requires Inv(mem, lo, head, g, {}) && Accounted(g0, g, procs) && Living(g, procs) && id !in procs
    requires g.free != [] && s.tf == g.free[0] * PGSIZE && g.free[0] in g.own && g.own[g.free[0]] == Free
    ensures Accounted(g0, Taken(g), procs[id := s]) && Living(Taken(g), procs) && HasFrame(Taken(g), s)
    ensures forall other | other in procs :: procs[other].tf != s.tf
  {
    hide Inv, Shape, Rooted, Accounted;
    var r := Taken(g);
    TakenAccounted(g0, g, procs, id, s);
    forall other | other in procs ensures Lives(r, other, procs[other]) && procs[other].tf != s.tf {
      assert Lives(g, other, procs[other]);
      SameSpaces(g, r, other, Pages(procs[other].sz), procs[other].pt);
    }
  }

  lemma TakenAccounted(g0: Book, g: Book, procs: map<nat, Space>, id: nat, s: Space)
    requires Accounted(g0, g, procs) && id !in procs
    requires g.free != [] && s.tf == g.free[0] * PGSIZE && g.free[0] in g.own && g.own[g.free[0]] == Free
    ensures Accounted(g0, Taken(g), procs[id := s])
  {
    var p, r, all := g.free[0], Taken(g), procs[id := s];
    assert r.own.Keys == g.own.Keys;
    forall q | q in g0.own && r.own[q] != g0.own[q] ensures g0.own[q] == Free && Theirs(r.own[q], q, all) {
      if q == p {
        assert all[id].tf == q * PGSIZE;
      } else {
        var other :| other in procs && (OfSpace(g.own[q], other) ||
            (g.own[q] == Loose && procs[other].tf == q * PGSIZE));
        assert all[other] == procs[other];
      }
    }
  }

  lemma SameSpaces(g: Book, r: Book, id: nat, n: nat, pt: nat)
    requires Shape(g, id, n, Top(id)) && Rooted(g, id, pt) && r.at == g.at && r.flat == g.flat
    ensures Shape(r, id, n, Top(id)) && Rooted(r, id, pt)
  {
  }

  /** kfree of a trapframe; the process's space is still there. */
  lemma FrameFreed(g0: Book, g: Book, r: Book, procs: map<nat, Space>, rest: map<nat, Space>, id: nat)
    requires Accounted(g0, g, procs) && id in procs && rest == procs - {id} && Living(g, rest) && HasFrame(g, procs[id])
    requires forall other | other in rest :: rest[other].tf != procs[id].tf
    requires r.at == g.at && r.flat == g.flat && r.own == g.own[procs[id].tf / PGSIZE := Free]
    ensures Accounted(g0, r, procs) && Living(r, rest)
  {
    hide Shape, Rooted;
    assert r.own.Keys == g.own.Keys;
    forall q | q in g0.own && r.own[q] != g0.own[q] ensures g0.own[q] == Free && Theirs(r.own[q], q, procs) {
      assert r.own[q] == g.own[q];
    }
    forall other | other in rest ensures Lives(r, other, rest[other]) {
      assert Lives(g, other, rest[other]);
      SameSpaces(g, r, other, Pages(rest[other].sz), rest[other].pt);
    }
  }

  /** A process without pages is out of the accounts. */
  lemma Leaves(g0: Book, g: Book, procs: map<nat, Space>, id: nat)
    requires Accounted(g0, g, procs) && id in procs && (forall p | p in g.own :: !OfSpace(g.own[p], id))
    requires procs[id].tf / PGSIZE in g.own && procs[id].tf % PGSIZE == 0 && g.own[procs[id].tf / PGSIZE] != Loose
    ensures Accounted(g0, g, procs - {id})
  {
    var rest := procs - {id};
    forall q | q in g0.own && g.own[q] != g0.own[q] ensures g0.own[q] == Free && Theirs(g.own[q], q, rest) {
      var other :| other in procs && (OfSpace(g.own[q], other) || (g.own[q] == Loose && procs[other].tf == q * PGSIZE));
      assert other in rest && rest[other] == procs[other];
    }
  }

  lemma FreedPages(g: Book, r: Book, id: nat, p: nat)
    requires Freed(g, r, id) && p in g.own && g.own[p] == Free
    ensures (forall q | q in r.own :: !OfSpace(r.own[q], id)) && p in r.own && r.own[p] != Loose
  {
  }

  lemma Without(procs: map<nat, Space>, id: nat, s: Space)
    requires id !in procs
    ensures procs[id := s] - {id} == procs
  {
  }

  /** Every process has the trampoline and its own trapframe page at its top. */
  ghost predicate AllTopped(g: Book, procs: map<nat, Space>, trampoline: nat) {
    forall id | id in procs :: Topped(g, id, trampoline / PGSIZE, procs[id].tf / PGSIZE)
  }

  lemma StaysTopped(mem: Memory, m: Memory, g: Book, r: Book, procs: map<nat, Space>, few: map<nat, Space>,
                    trampoline: nat)
    requires AllTopped(g, procs, trampoline) && Living(g, procs) && AllStay(mem, m, g, r, few)
    requires forall id | id in few :: id in procs && few[id].tf == procs[id].tf
    ensures AllTopped(r, few, trampoline)
  {
    hide Shape, Topped, UserKept;
    forall id | id in few ensures Topped(r, id, trampoline / PGSIZE, few[id].tf / PGSIZE) {
      assert Lives(g, id, procs[id]) && Stays(mem, m, g, r, id, few[id]);
      UserTop(mem, m, g, r, id, Pages(procs[id].sz), Pages(few[id].sz));
      ToppedOn(g, r, id, trampoline / PGSIZE, procs[id].tf / PGSIZE);
    }
  }

  /** The child keeps its top while the parent's pages are copied. */
  lemma KidTopped(mem: Memory, m: Memory, g: Book, r: Book, procs: map<nat, Space>, rest: map<nat, Space>,
                  trampoline: nat, kid: nat)
    requires AllTopped(g, procs, trampoline) && Living(g, procs) && kid in procs && UserKept(mem, m, g, r, kid, 0, 0)
    requires AllTopped(r, rest, trampoline) && rest == procs - {kid}
    ensures AllTopped(r, procs, trampoline)
  {
    hide Shape, Topped, UserKept;
    assert Lives(g, kid, procs[kid]);
    UserTop(mem, m, g, r, kid, Pages(procs[kid].sz), 0);
    ToppedOn(g, r, kid, trampoline / PGSIZE, procs[kid].tf / PGSIZE);
    forall id | id in procs ensures Topped(r, id, trampoline / PGSIZE, procs[id].tf / PGSIZE) {
      if id != kid { assert id in rest && rest[id] == procs[id]; }
    }
  }

  lemma ToppedMore(g: Book, procs: map<nat, Space>, trampoline: nat, id: nat, s: Space)
    requires AllTopped(g, procs, trampoline) && Topped(g, id, trampoline / PGSIZE, s.tf / PGSIZE)
    ensures AllTopped(g, procs[id := s], trampoline)
  {
    hide Topped;
  }

  lemma ToppedSize(g: Book, procs: map<nat, Space>, trampoline: nat, id: nat, s: Space)
    requires AllTopped(g, procs, trampoline) && id in procs && s.tf == procs[id].tf
    ensures AllTopped(g, procs[id := s], trampoline)
  {
    hide Topped;
  }

  // ---- isolation ----

  /** Process id keeps the mapping and the bytes of all its user pages, its top and its trapframe page. */
  ghost predicate Stays(mem: Memory, m: Memory, g: Book, r: Book, id: nat, s: Space) {
    && UserKept(mem, m, g, r, id, 0, Pages(s.sz))
    && (s.tf / PGSIZE in mem ==> s.tf / PGSIZE in m && m[s.tf / PGSIZE] == mem[s.tf / PGSIZE])
  }

  ghost predicate AllStay(mem: Memory, m: Memory, g: Book, r: Book, procs: map<nat, Space>) {
    forall id | id in procs :: Stays(mem, m, g, r, id, procs[id])
  }

  lemma AllStaySame(mem: Memory, g: Book, procs: map<nat, Space>)
    ensures AllStay(mem, mem, g, g, procs)
  {
  }

  lemma StaysTwice(mem: Memory, m: Memory, n: Memory, g: Book, h: Book, r: Book, id: nat, s: Space)
    requires Stays(mem, m, g, h, id, s) && Stays(m, n, h, r, id, s)
    ensures Stays(mem, n, g, r, id, s)
  {
  }

  lemma AllStayTwice(mem: Memory, m: Memory, n: Memory, g: Book, h: Book, r: Book, procs: map<nat, Space>)
    requires AllStay(mem, m, g, h, procs) && AllStay(m, n, h, r, procs)
    ensures AllStay(mem, n, g, r, procs)
  {
    hide Stays;
    forall id | id in procs ensures Stays(mem, n, g, r, id, procs[id]) {
      StaysTwice(mem, m, n, g, h, r, id, procs[id]);
    }
  }

  /** Work on one space leaves the other processes alone. */
  lemma AllStayFrame(mem: Memory, m: Memory, lo: nat, head: nat, g: Book, r: Book, id: nat, procs: map<nat, Space>)
    requires Inv(mem, lo, head, g, {}) && Frame(mem, m, g, r, id) && Living(g, procs)
    ensures AllStay(mem, m, g, r, procs - {id})
  {
    RolesKnown(mem, lo, head, g, {});
    hide Inv, Shape, Rooted;
    forall other | other in procs && other != id ensures Stays(mem, m, g, r, other, procs[other]) {
      assert Lives(g, other, procs[other]);
      OtherStays(mem, m, g, r, id, other, procs[other]);
    }
  }

  lemma OtherStays(mem: Memory, m: Memory, g: Book, r: Book, id: nat, other: nat, s: Space)
    requires Frame(mem, m, g, r, id) && other != id && HasFrame(g, s) && (forall p | p in g.own :: p in mem)
    requires forall role | role in g.at :: g.at[role] in g.own && g.own[g.at[role]] == role
    ensures Stays(mem, m, g, r, other, s)
  {
    assert forall role: Role | role.Leaf? && role.id == other :: Foreign(role, id);
  }

  /** The process whose space is worked on, as far as the work keeps its pages. */
  lemma SelfStays(mem: Memory, m: Memory, g: Book, r: Book, id: nat, s: Space)
    requires Frame(mem, m, g, r, id) && UserKept(mem, m, g, r, id, 0, Pages(s.sz)) && HasFrame(g, s)
    ensures Stays(mem, m, g, r, id, s)
  {
    hide UserKept;
  }

  /** A page that none of the processes uses is filled. */
  lemma AllStayPage(mem: Memory, lo: nat, head: nat, g: Book, r: Book, p: nat, page: Page, procs: map<nat, Space>)
    requires Inv(mem, lo, head, g, {}) && Living(g, procs) && r.at == g.at && r.flat == g.flat && p in g.own
    requires g.own[p] == Free || (g.own[p] == Loose && forall id | id in procs :: procs[id].tf / PGSIZE != p)
    ensures AllStay(mem, mem[p := page], g, r, procs)
  {
    RolesKnown(mem, lo, head, g, {});
    hide Inv, Shape, Rooted;
    forall id | id in procs ensures Stays(mem, mem[p := page], g, r, id, procs[id]) {
      assert Lives(g, id, procs[id]);
      PageStays(mem, g, r, p, page, id, procs[id]);
    }
  }

  lemma PageStays(mem: Memory, g: Book, r: Book, p: nat, page: Page, id: nat, s: Space)
    requires HasFrame(g, s) && r.at == g.at && r.flat == g.flat && p in g.own && s.tf / PGSIZE != p
    requires g.own[p] == Free || g.own[p] == Loose
    requires forall q: Role | q in g.at :: g.at[q] in g.own && g.own[g.at[q]] == q
    requires forall q: Role | q in g.at :: q != Free && q != Loose
    ensures Stays(mem, mem[p := page], g, r, id, s)
  {
  }

  /** All of them, once the one worked on is seen to. */
  lemma AllStayWith(mem: Memory, m: Memory, g: Book, r: Book, procs: map<nat, Space>, id: nat)
    requires AllStay(mem, m, g, r, procs - {id}) && (id in procs ==> Stays(mem, m, g, r, id, procs[id]))
    ensures AllStay(mem, m, g, r, procs)
  {
    hide Stays;
    forall other | other in procs ensures Stays(mem, m, g, r, other, procs[other]) {
      if other != id { assert other in procs - {id}; }
    }
  }

  // ---- registers ----

  const FRAME_WORDS := 36
  const FRAME_A0 := 14

  /** The trapframe in page k holds the registers of that in page p, except that a0 is 0. */
  ghost predicate Resumes(mem: Memory, p: nat, k: nat) {
    && p in mem && k in mem && mem[k][FRAME_A0] == 0
    && forall i | 0 <= i < FRAME_WORDS && i != FRAME_A0 :: mem[k][i] == mem[p][i]
  }

  /** A loose page is nobody's user page. */
  lemma CopiedStays(mem: Memory, g: Book, id: nat, kid: nat, n: nat, p: nat, page: Page)
    requires Copied(mem, g, id, kid, n) && p in g.own && g.own[p] == Loose
    requires forall q: Role | q in g.at :: g.at[q] in g.own && g.own[g.at[q]] == q && q != Loose
    ensures Copied(mem[p := page], g, id, kid, n)
  {
    hide LeafOf;
    forall v: nat | v < n ensures CopyOf(mem[p := page], g, LeafOf(id, v), LeafOf(kid, v)) {
      assert CopyOf(mem, g, LeafOf(id, v), LeafOf(kid, v));
    }
  }

  // ---- whole runs ----

  /** Memory, its book and the processes at one moment. */
  datatype Moment = Moment(mem: Memory, g: Book, procs: map<nat, Space>)

  ghost predicate Unmoved(s: Moment, t: Moment, procs: map<nat, Space>) { AllStay(s.mem, t.mem, s.g, t.g, procs) }

  /** growproc has the pages it needs. */
  ghost predicate CanGrow(s: Moment, id: nat, sz: nat)
    requires id in s.procs
  {
    |s.g.free| >= Lack(s.g, Room(id, Pages(s.procs[id].sz), Pages(sz)))
  }

  /**
   * What an operation does. It succeeds exactly when the pages it takes are free; processes other than its own keep
   * everything, and its own keeps what it is to keep. An operation on a process that is not there, or a creation
   * under a name in use, does nothing.
   */
  ghost predicate Did(op: Op, s: Moment, t: Moment) {
    match op
    case Spawn(id) =>
      if id in s.procs then t == s
      else
        && Unmoved(s, t, s.procs)
        && if |s.g.free| < 4 then t.procs == s.procs
           else id in t.procs && t.procs == s.procs[id := t.procs[id]] && t.procs[id].sz == 0
    case Grow(id, sz) =>
      if id !in s.procs || sz < s.procs[id].sz || sz == 0 then t == s
      else
        && Unmoved(s, t, s.procs)
        && if !CanGrow(s, id, sz) then t.procs == s.procs
           else
             && t.procs == s.procs[id := s.procs[id].(sz := sz)]
             && ZeroPages(t.mem, t.g, id, Pages(s.procs[id].sz), Pages(sz))
    case Shrink(id, sz) =>
      if id !in s.procs || sz > s.procs[id].sz then t == s
      else t.procs == s.procs[id := s.procs[id].(sz := sz)] && Unmoved(s, t, t.procs)
    case Fork(id, kid) =>
      if id !in s.procs || kid in s.procs then t == s
      else
        && Unmoved(s, t, s.procs)
        && if |s.g.free| < 4 + Cost(Pages(s.procs[id].sz)) then t.procs == s.procs
           else
             && kid in t.procs && t.procs == s.procs[kid := t.procs[kid]] && t.procs[kid].sz == s.procs[id].sz
             && Copied(t.mem, t.g, id, kid, Pages(s.procs[id].sz))
             && Resumes(t.mem, s.procs[id].tf / PGSIZE, t.procs[kid].tf / PGSIZE)
    case Exit(id) =>
      if id !in s.procs then t == s else t.procs == s.procs - {id} && Unmoved(s, t, t.procs)
  }

  ghost predicate History(ops: seq<Op>, steps: seq<Moment>) {
    |steps| == |ops| + 1 && forall k | 0 <= k < |ops| :: Did(ops[k], steps[k], steps[k + 1])
  }

  /** The operation may change what process id sees. */
  predicate Concerns(op: Op, id: nat) {
    (op.Grow? || op.Shrink? || op.Exit?) && op.id == id
  }

  lemma OneStep(op: Op, s: Moment, t: Moment, id: nat)
    requires Did(op, s, t) && id in s.procs && !Concerns(op, id)
    ensures id in t.procs && t.procs[id] == s.procs[id] && Stays(s.mem, t.mem, s.g, t.g, id, s.procs[id])
  {
    hide Stays, CanGrow, ZeroPages, Copied, Cost;
    AllStaySame(s.mem, s.g, s.procs);
  }

  /** Isolation: a run that does not grow, shrink or end a process leaves all it sees as it was, whatever others do. */
  lemma {:induction false} Isolation(ops: seq<Op>, steps: seq<Moment>, id: nat, n: nat)
    requires History(ops, steps) && n <= |ops| && id in steps[0].procs
    requires forall k | 0 <= k < n :: !Concerns(ops[k], id)
    ensures var s, t := steps[0], steps[n];
            id in t.procs && t.procs[id] == s.procs[id] && Stays(s.mem, t.mem, s.g, t.g, id, s.procs[id])
  {
    hide Stays, Did;
    var s := steps[0];
    if n == 0 {
      AllStaySame(s.mem, s.g, s.procs);
    } else {
      Isolation(ops, steps, id, n - 1);
      var r, t := steps[n - 1], steps[n];
      OneStep(ops[n - 1], r, t, id);
      StaysTwice(s.mem, r.mem, t.mem, s.g, r.g, t.g, id, s.procs[id]);
    }
  }

  /** The process table, as far as memory is concerned. */
  class Table {
    const vm: Vm
    const trampoline: nat
    var procs: map<nat, Space>

    // The book at the start, before any of these processes existed.
    ghost const g0: Book

    ghost predicate Valid()
      reads this, vm
    {
      && vm.Valid() && vm.dying == {} && trampoline / PGSIZE + MAXVPN <= MAXPPN
      && Living(vm.g, procs) && Accounted(g0, vm.g, procs) && AllTopped(vm.g, procs, trampoline)
      && forall id | id in procs :: Unknown(g0, id)
    }

    constructor (vm: Vm, trampoline: nat)
      requires vm.Valid() && vm.dying == {} && trampoline / PGSIZE + MAXVPN <= MAXPPN
      ensures Valid() && this.vm == vm && procs == map[] && g0 == vm.g
    {
      this.vm, this.trampoline, procs, g0 := vm, trampoline, map[], vm.g;
      new;
      Started(vm.g);
      assert AllTopped(vm.g, procs, trampoline);
    }

    /** allocproc: a process with a trapframe page and a new space, or nothing changed; it takes four pages. */
    method AllocProc(id: nat) returns (ok: bool, panic: bool)
      requires Valid() && id !in procs && Unknown(g0, id)
      modifies this`procs, vm
      ensures !panic && Valid() && (ok <==> |old(vm.g).free| >= 4)
      ensures if ok then id in procs && procs == old(procs)[id := procs[id]] && procs[id].sz == 0
              else procs == old(procs)
      ensures ok ==> |old(vm.g).free| == |vm.g.free| + 4 && OnlyTop(vm.g, id)
      ensures AllStay(old(vm.mem), vm.mem, old(vm.g), vm.g, old(procs))
    {
      hide Inv, Living, Accounted, Frame, Fills, TopRoom, Unknown, Shape, Pte, Top, OnlyTop, AllStay, Popped, Pushed,
        AllTopped, Topped;
      panic, ok := false, false;
      AllStaySame(vm.mem, vm.g, procs);
      NotYet(vm.mem, vm.lo, vm.freelist, g0, vm.g, procs, id);
      NoRoles(vm.mem, vm.lo, vm.freelist, vm.g, {}, id);
      ghost var g, m := vm.g, vm.mem;
      var tf := vm.Kalloc();
      if tf == 0 { return; }
      ghost var none := Space(0, 0, tf);
      ghost var all := procs[id := none];
      FrameTaken(m, vm.lo, old(vm.freelist), g0, g, procs, id, none);
      FilledAside(m, vm.lo, old(vm.freelist), g, vm.g, tf / PGSIZE, procs);
      Without(procs, id, none);
      ghost var m1, g1, head1 := vm.mem, vm.g, vm.freelist;
      RolesKnown(vm.mem, vm.lo, vm.freelist, vm.g, {});
      var pt;
      pt, panic := vm.ProcPagetable(trampoline, tf, id);
      FrameKept(m1, vm.mem, g1, vm.g, id, none);
      AllStayFrame(m1, vm.mem, vm.lo, head1, g1, vm.g, id, procs);
      assert procs - {id} == procs;
      AllStayTwice(m, m1, vm.mem, g, g1, vm.g, procs);
      StepAccounted(m1, vm.mem, g0, g1, vm.g, all, id);
      if pt == 0 {
        StepGone(m1, vm.mem, g1, vm.g, procs, id);
        ghost var g2, m2, head2 := vm.g, vm.mem, vm.freelist;
        panic := vm.Kfree(tf);
        EmptiedAside(m2, vm.lo, head2, g2, vm.g, tf, procs);
        AllStayTwice(m, m2, vm.mem, g, g2, vm.g, procs);
        FrameFreed(g0, g2, vm.g, all, procs, id);
        StaysTopped(m, vm.mem, g, vm.g, procs, procs, trampoline);
        NewSpace(vm.mem, vm.lo, vm.freelist, vm.g, {}, id);
        Leaves(g0, vm.g, all, id);
        return;
      }
      TopAlone(g1, vm.g, id);
      StaysTopped(m, vm.mem, g, vm.g, procs, procs, trampoline);
      ToppedMore(vm.g, procs, trampoline, id, Space(pt, 0, tf));
      StepLiving(m1, vm.mem, g1, vm.g, procs, id, Space(pt, 0, tf));
      AccountedSize(g0, vm.g, all, id, Space(pt, 0, tf));
      assert all[id := Space(pt, 0, tf)] == procs[id := Space(pt, 0, tf)];
      procs := procs[id := Space(pt, 0, tf)];
      ok := true;
    }

    /** freeproc: the trapframe and the space go back to the free list. */
    method FreeProc(id: nat) returns (panic: bool)
      requires Valid() && id in procs
      modifies this`procs, vm
      ensures !panic && Valid() && procs == old(procs) - {id}
      ensures AllStay(old(vm.mem), vm.mem, old(vm.g), vm.g, procs)
    {
      hide Inv, Living, Accounted, Frame, Freed, Unknown, Shape, Top, AllStay, Pushed, AllTopped;
      var s := procs[id];
      ghost var rest := procs - {id};
      One(vm.g, procs, id);
      ghost var g, m, head := vm.g, vm.mem, vm.freelist;
      panic := vm.Kfree(s.tf);
      EmptiedAside(m, vm.lo, head, g, vm.g, s.tf, rest);
      FrameFreed(g0, g, vm.g, procs, rest, id);
      SameSpaces(g, vm.g, id, Pages(s.sz), s.pt);
      ghost var m1, g1, head1 := vm.mem, vm.g, vm.freelist;
      RolesKnown(vm.mem, vm.lo, vm.freelist, vm.g, {});
      panic := vm.ProcFreePagetable(s.pt, s.sz, id);
      AllStayFrame(m1, vm.mem, vm.lo, head1, g1, vm.g, id, rest);
      StepAccounted(m1, vm.mem, g0, g1, vm.g, procs, id);
      StepGone(m1, vm.mem, g1, vm.g, rest, id);
      assert rest - {id} == rest;
      AllStayTwice(m, m1, vm.mem, g, g1, vm.g, rest);
      StaysTopped(m, vm.mem, g, vm.g, procs, rest, trampoline);
      FreedPages(g1, vm.g, id, s.tf / PGSIZE);
      Leaves(g0, vm.g, procs, id);
      procs := procs - {id};
    }

    /** growproc upwards; false means -1. It succeeds exactly when the pages and their tables are to be had. */
    method Grow(id: nat, sz: nat) returns (ok: bool, panic: bool)
      requires Valid() && id in procs && procs[id].sz <= sz && sz > 0
      modifies this`procs, vm
      ensures !panic && Valid() && procs == if ok then old(procs)[id := old(procs)[id].(sz := sz)] else old(procs)
      ensures ok <==> |old(vm.g).free| >= Lack(old(vm.g), Room(id, Pages(old(procs)[id].sz), Pages(sz)))
      ensures AllStay(old(vm.mem), vm.mem, old(vm.g), vm.g, old(procs))
      ensures ok ==> ZeroPages(vm.mem, vm.g, id, Pages(old(procs)[id].sz), Pages(sz))
    {
      hide Inv, Living, Accounted, Frame, Unknown, Shape, Top, UserKept, ZeroPages, Room, Lack, Fills, AllStay, Stays,
        AllTopped;
      One(vm.g, procs, id);
      ghost var m1, g1, head1 := vm.mem, vm.g, vm.freelist;
      RolesKnown(vm.mem, vm.lo, vm.freelist, vm.g, {});
      var r;
      r, panic := vm.UvmAlloc(procs[id].pt, procs[id].sz, sz, id, Top(id));
      AllStayFrame(m1, vm.mem, vm.lo, head1, g1, vm.g, id, procs);
      SelfStays(m1, vm.mem, g1, vm.g, id, procs[id]);
      AllStayWith(m1, vm.mem, g1, vm.g, procs, id);
      StaysTopped(m1, vm.mem, g1, vm.g, procs, procs, trampoline);
      ToppedSize(vm.g, procs, trampoline, id, procs[id].(sz := if r == 0 then procs[id].sz else r));
      Resized(m1, vm.mem, g0, g1, vm.g, procs, id, if r == 0 then procs[id].sz else r);
      assert procs[id := procs[id].(sz := procs[id].sz)] == procs;
      ok := r != 0;
      if ok { procs := procs[id := procs[id].(sz := r)]; }
    }

    /** growproc downwards. */
    method Shrink(id: nat, sz: nat) returns (panic: bool)
      requires Valid() && id in procs && sz <= procs[id].sz
      modifies this`procs, vm
      ensures !panic && Valid() && procs == old(procs)[id := old(procs)[id].(sz := sz)]
      ensures AllStay(old(vm.mem), vm.mem, old(vm.g), vm.g, procs)
    {
      hide Inv, Living, Accounted, Frame, Unknown, Shape, Top, UserKept, AllStay, Stays, AllTopped;
      One(vm.g, procs, id);
      ghost var m1, g1, head1 := vm.mem, vm.g, vm.freelist;
      RolesKnown(vm.mem, vm.lo, vm.freelist, vm.g, {});
      var r;
      r, panic := vm.UvmDealloc(procs[id].pt, procs[id].sz, sz, id, Top(id));
      AllStayFrame(m1, vm.mem, vm.lo, head1, g1, vm.g, id, procs);
      SelfStays(m1, vm.mem, g1, vm.g, id, procs[id].(sz := r));
      Resized(m1, vm.mem, g0, g1, vm.g, procs, id, r);
      ghost var before := procs;
      procs := procs[id := procs[id].(sz := r)];
      assert procs - {id} == before - {id};
      AllStayWith(m1, vm.mem, g1, vm.g, procs, id);
      StaysTopped(m1, vm.mem, g1, vm.g, before, procs, trampoline);
    }

    /** fork's copy of the registers, the child's a0 being 0. */
    method CopyFrame(from: nat, to: nat, ghost others: map<nat, Space>)
      requires vm.Valid() && vm.dying == {} && Living(vm.g, others)
      requires from % PGSIZE == 0 && to % PGSIZE == 0 && from != to
      requires from / PGSIZE in vm.mem && to / PGSIZE in vm.g.own && vm.g.own[to / PGSIZE] == Loose
      requires forall id | id in others :: others[id].tf != to
      modifies vm`mem
      ensures vm.Valid() && Resumes(vm.mem, from / PGSIZE, to / PGSIZE)
      ensures to / PGSIZE in old(vm.mem) && vm.mem == old(vm.mem)[to / PGSIZE := vm.mem[to / PGSIZE]]
      ensures AllStay(old(vm.mem), vm.mem, vm.g, vm.g, others)
    {
      hide Inv, AllStay, Living;
      RolesKnown(vm.mem, vm.lo, vm.freelist, vm.g, {});
      var p, k := from / PGSIZE, to / PGSIZE;
      var page: Page := vm.mem[p][..FRAME_WORDS][FRAME_A0 := 0] + vm.mem[k][FRAME_WORDS..];
      LooseKeeps(vm.mem, vm.lo, vm.freelist, vm.g, {}, k, page);
      AsideFrame(vm.mem, vm.lo, vm.freelist, vm.g, to, page, others);
      vm.mem := vm.mem[k := page];
    }

    /**
     * fork's share of memory: a new process whose pages are copies of the parent's, in pages of its own, or nothing
     * changed. It succeeds exactly when there are pages for the trapframe, the tables and the copies.
     */
    method Fork(id: nat, kid: nat) returns (ok: bool, panic: bool)
      requires Valid() && id in procs && kid !in procs && Unknown(g0, kid)
      modifies this`procs, vm
      ensures !panic && Valid() && (ok <==> |old(vm.g).free| >= 4 + Cost(Pages(old(procs)[id].sz)))
      ensures if ok then kid in procs && procs == old(procs)[kid := procs[kid]] && procs[kid].sz == procs[id].sz
              else procs == old(procs)
      ensures ok ==> Copied(vm.mem, vm.g, id, kid, Pages(procs[id].sz))
      ensures ok ==> Resumes(vm.mem, procs[id].tf / PGSIZE, procs[kid].tf / PGSIZE)
      ensures AllStay(old(vm.mem), vm.mem, old(vm.g), vm.g, old(procs))
    {
      hide Inv, Living, Accounted, Frame, Unknown, Shape, Top, Copied, Room, Lack, Fills, Cost, OnlyTop, AllStay,
        AllTopped;
      ok, panic := AllocProc(kid);
      if !ok { return; }
      ghost var before := old(procs);
      RoomCost(vm.mem, vm.lo, vm.freelist, vm.g, {}, kid, Pages(procs[id].sz));
      One(vm.g, procs, id);
      One(vm.g, procs, kid);
      ghost var m1, g1, head1 := vm.mem, vm.g, vm.freelist;
      RolesKnown(vm.mem, vm.lo, vm.freelist, vm.g, {});
      var r;
      r, panic := vm.UvmCopy(procs[id].pt, procs[kid].pt, procs[id].sz, id, kid, Top(id), Top(kid));
      Without(before, kid, procs[kid]);
      AllStayFrame(m1, vm.mem, vm.lo, head1, g1, vm.g, kid, procs);
      StaysTopped(m1, vm.mem, g1, vm.g, procs, before, trampoline);
      KidTopped(m1, vm.mem, g1, vm.g, procs, before, trampoline, kid);
      ToppedSize(vm.g, procs, trampoline, kid, procs[kid].(sz := if r == 0 then procs[id].sz else 0));
      AllStayTwice(old(vm.mem), m1, vm.mem, old(vm.g), g1, vm.g, before);
      Resized(m1, vm.mem, g0, g1, vm.g, procs, kid, if r == 0 then procs[id].sz else 0);
      assert procs[kid := procs[kid].(sz := 0)] == procs;
      if r != 0 {
        ghost var m2, g2 := vm.mem, vm.g;
        panic := FreeProc(kid);
        AllStayTwice(old(vm.mem), m2, vm.mem, old(vm.g), g2, vm.g, before);
        assert procs == before;
        return false, panic;
      }
      ghost var m2 := vm.mem;
      FrameHeld(vm.g, procs, before, id, kid, procs[id].sz);
      RolesKnown(vm.mem, vm.lo, vm.freelist, vm.g, {});
      CopyFrame(procs[id].tf, procs[kid].tf, before);
      AllStayTwice(old(vm.mem), m2, vm.mem, old(vm.g), vm.g, vm.g, before);
      NotLoose(m2, vm.lo, vm.freelist, vm.g);
      CopiedStays(m2, vm.g, id, kid, Pages(procs[id].sz), procs[kid].tf / PGSIZE, vm.mem[procs[kid].tf / PGSIZE]);
      procs := procs[kid := procs[kid].(sz := procs[id].sz)];
    }

    ghost function Now(): (s: Moment)
      reads this, vm
    {
      Moment(vm.mem, vm.g, procs)
    }

    /** One operation, if it can be made now. */
    method Do(op: Op) returns (panic: bool)
      requires Valid() && (op.Spawn? ==> Unknown(g0, op.id)) && (op.Fork? ==> Unknown(g0, op.kid))
      modifies this`procs, vm
      ensures !panic && Valid() && Did(op, old(Now()), Now())
    {
      hide Inv, Living, Accounted, Unknown, Room, Lack, Cost, Copied, ZeroPages, AllStay;
      panic := false;
      var ok;
      match op
      case Spawn(id) => if id !in procs { ok, panic := AllocProc(id); }
      case Grow(id, sz) => if id in procs && procs[id].sz <= sz && sz > 0 { ok, panic := Grow(id, sz); }
      case Shrink(id, sz) => if id in procs && sz <= procs[id].sz { panic := Shrink(id, sz); }
      case Fork(id, kid) => if id in procs && kid !in procs { ok, panic := Fork(id, kid); }
      case Exit(id) => if id in procs { panic := FreeProc(id); }
    }

    /**
     * Any run of the processes, steps being what it goes through. Whatever the order in which they are created, grow,
     * shrink, fork and exit, and wherever kalloc fails, every operation does what it is to do, nothing panics, every
     * page is as at the start or in use by a live process, and when no process is left every page is used as at the
     * start.
     */
    method Run(ops: seq<Op>) returns (panic: bool, ghost steps: seq<Moment>)
      requires Valid()
      requires forall k | 0 <= k < |ops| ::
                 (ops[k].Spawn? ==> Unknown(g0, ops[k].id)) && (ops[k].Fork? ==> Unknown(g0, ops[k].kid))
      modifies this`procs, vm
      ensures !panic && Valid() && (procs == map[] ==> SamePages(g0, vm.g))
      ensures History(ops, steps) && steps[0] == old(Now()) && steps[|ops|] == Now()
    {
      hide Inv, Living, Accounted, Unknown, SamePages, Did;
      panic, steps := false, [Now()];
      for k := 0 to |ops|
        invariant !panic && Valid() && |steps| == k + 1 && steps[0] == old(Now()) && steps[k] == Now()
        invariant forall j | 0 <= j < k :: Did(ops[j], steps[j], steps[j + 1])
      {
        panic := Do(ops[k]);
        steps := steps + [Now()];
      }
      if procs == map[] { AllBack(g0, vm.g); }
    }
  }

  /** kalloc fills a page that was free. */
  lemma FilledAside(mem: Memory, lo: nat, head: nat, g: Book, r: Book, p: nat, procs: map<nat, Space>)
    requires Inv(mem, lo, head, g, {}) && Living(g, procs) && r.at == g.at && r.flat == g.flat
    requires p in g.own && g.own[p] == Free
    ensures AllStay(mem, Popped(mem, p), g, r, procs)
  {
    AllStayPage(mem, lo, head, g, r, p, Popped(mem, p)[p], procs);
  }

  /** kfree fills a trapframe page that was none of theirs. */
  lemma EmptiedAside(mem: Memory, lo: nat, head: Word, g: Book, r: Book, tf: nat, procs: map<nat, Space>)
    requires Inv(mem, lo, head, g, {}) && Living(g, procs) && r.at == g.at && r.flat == g.flat
    requires tf % PGSIZE == 0 && tf / PGSIZE in g.own && g.own[tf / PGSIZE] == Loose
    requires forall id | id in procs :: procs[id].tf != tf
    ensures AllStay(mem, Pushed(mem, head, tf / PGSIZE), g, r, procs)
  {
    hide Inv, Shape, Rooted, AllStay;
    var p := tf / PGSIZE;
    forall id | id in procs ensures procs[id].tf / PGSIZE != p { assert Lives(g, id, procs[id]); }
    AllStayPage(mem, lo, head, g, r, p, Pushed(mem, head, p)[p], procs);
  }

  /** Writing a trapframe page disturbs nobody else. */
  lemma AsideFrame(mem: Memory, lo: nat, head: nat, g: Book, tf: nat, page: Page, procs: map<nat, Space>)
    requires Inv(mem, lo, head, g, {}) && Living(g, procs) && tf % PGSIZE == 0
    requires tf / PGSIZE in g.own && g.own[tf / PGSIZE] == Loose && forall id | id in procs :: procs[id].tf != tf
    ensures AllStay(mem, mem[tf / PGSIZE := page], g, g, procs)
  {
    hide Inv, Shape, Rooted, AllStay;
    forall id | id in procs ensures procs[id].tf / PGSIZE != tf / PGSIZE { assert Lives(g, id, procs[id]); }
    AllStayPage(mem, lo, head, g, g, tf / PGSIZE, page, procs);
  }

  lemma NotLoose(mem: Memory, lo: nat, head: nat, g: Book)
    requires Inv(mem, lo, head, g, {})
    ensures forall q: Role | q in g.at :: g.at[q] in g.own && g.own[g.at[q]] == q && q != Loose
  {
  }

  /** What is known of the frames of parent and child. */
  lemma FrameHeld(g: Book, procs: map<nat, Space>, rest: map<nat, Space>, id: nat, kid: nat, sz: nat)
    requires id in procs && kid in procs && id != kid && rest == procs - {kid}
    requires Living(g, procs[kid := procs[kid].(sz := sz)])
    ensures HasFrame(g, procs[id]) && HasFrame(g, procs[kid]) && procs[id].tf != procs[kid].tf && Living(g, rest)
    ensures forall other | other in rest :: rest[other].tf != procs[kid].tf
  {
    hide Shape, Rooted;
    var all := procs[kid := procs[kid].(sz := sz)];
    assert Lives(g, id, all[id]) && Lives(g, kid, all[kid]);
    forall other | other in rest ensures Lives(g, other, rest[other]) && rest[other].tf != procs[kid].tf {
      assert Lives(g, other, all[other]) && other in all && all[other] == rest[other];
    }
    forall a, b | a in rest && b in rest && rest[a].tf == rest[b].tf ensures a == b {
      assert all[a] == rest[a] && all[b] == rest[b];
    }
  }

  lemma One(g: Book, procs: map<nat, Space>, id: nat)
    requires Living(g, procs) && id in procs
    ensures Lives(g, id, procs[id]) && Living(g, procs - {id})
    ensures forall other | other in procs && other != id :: procs[other].tf != procs[id].tf
  {
    hide Lives;
  }

  /** A process's space has grown or shrunk. */
  lemma Resized(mem: Memory, m: Memory, g0: Book, g: Book, r: Book, procs: map<nat, Space>, id: nat, sz: nat)
    requires Living(g, procs) && Accounted(g0, g, procs) && id in procs && Unknown(g0, id) && Frame(mem, m, g, r, id)
    requires Shape(r, id, Pages(sz), Top(id)) && Rooted(r, id, procs[id].pt) && forall p | p in g.own :: p in mem
    ensures var s := procs[id].(sz := sz); Living(r, procs[id := s]) && Accounted(g0, r, procs[id := s])
  {
    hide Living, Accounted, Frame, Unknown, Shape, Top;
    var s := procs[id].(sz := sz);
    One(g, procs, id);
    FrameKept(mem, m, g, r, id, procs[id]);
    StepLiving(mem, m, g, r, procs, id, s);
    StepAccounted(mem, m, g0, g, r, procs, id);
    AccountedSize(g0, r, procs, id, s);
  }
}
