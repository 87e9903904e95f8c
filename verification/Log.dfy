/**
 * The redo log over the buffer cache. Every disk write of a commit is recorded in the
 * cache's trace, and each recorded disk recovers to the state before the transaction
 * or to the state after it.
 */
module RedoLog {
  import opened Blocks
  import opened BufferCache
  import opened Recovery
  import opened Params
  import opened Counting
  import Admission = LogAdmission

  /** Equal outside the log area. */
  ghost predicate SameHome(l: Layout, d: Disk, e: Disk) {
    && |d| == |e| == l.total
    && forall b: nat | b < l.total && !l.InLog(b) :: d[b] == e[b]
  }

  ghost function Elements(s: seq<nat>): (r: set<nat>) {
    set b | b in s
  }

  lemma ElementsRest(s: seq<nat>)
    requires s != [] && forall i, j | 0 <= i < j < |s| :: s[i] != s[j]
    ensures s[0] in Elements(s) && Elements(s[1..]) == Elements(s) - {s[0]}
  {
    forall b | b in Elements(s) - {s[0]} ensures b in s[1..] {
      var i :| 0 <= i < |s| && s[i] == b;
      assert s[1..][i - 1] == b;
    }
  }

  /** Distinct block numbers: the pins left after the k-th has gone. */
  lemma PinsLeft(lh: seq<nat>, k: nat)
    requires k < |lh| && forall i, j | 0 <= i < j < |lh| :: lh[i] != lh[j]
    ensures lh[k] in Elements(lh[k..]) && Elements(lh[k + 1..]) == Elements(lh[k..]) - {lh[k]}
    ensures |Elements(lh[k..])| <= |lh|
  {
    assert lh[k..][0] == lh[k] && lh[k..][1..] == lh[k + 1..];
    ElementsRest(lh[k..]);
    PinnedFew(lh[k..]);
  }

  lemma ElementsAppend(s: seq<nat>, b: nat)
    ensures Elements(s + [b]) == Elements(s) + {b}
  {
  }

  lemma NoElements()
    ensures Elements([]) == {}
  {
  }

  lemma ElementsIn(s: seq<nat>, b: nat)
    ensures b in s <==> b in Elements(s)
  {
  }

  lemma {:induction false} PinnedFew(s: seq<nat>)
    ensures |Elements(s)| <= |s|
  {
    if s != [] {
      PinnedFew(s[1..]);
      assert Elements(s) == Elements(s[1..]) + {s[0]};
    }
  }

  lemma SameHomeUpdate(l: Layout, d: Disk, e: Disk, b: nat, data: Block)
    requires SameHome(l, d, e) && b < l.total && !l.InLog(b)
    ensures d[b] == e[b] && SameHome(l, d[b := data], e[b := data])
  {
  }

  lemma ErasedHome(l: Layout, h: Disk, d: Disk)
    requires l.Valid() && SameHome(l, h, d)
    ensures SameHome(l, h, Erased(l, d))
  {
  }

  lemma InstallsArePoints(l: Layout, d: Disk)
    requires LogOk(l, d)
    ensures forall e | e in Installs(l, d, Count(l, d)) :: RecoveryPoint(l, d, e)
  {
    var t := Installs(l, d, Count(l, d));
    forall e | e in t ensures RecoveryPoint(l, d, e) {
      var i :| 0 <= i < |t| && t[i] == e;
      InstallsAt(l, d, |t|, i);
    }
  }

  /** A crash that leaves disk e recovers to the home blocks of h. */
  ghost predicate Yields(l: Layout, e: Disk, h: Disk) {
    LogOk(l, e) && SameHome(l, Recovered(l, e), h)
  }

  /** Distinct buffers hold distinct blocks, so that many referenced blocks exist. */
  lemma {:induction false} CountBlocks(buf: seq<Buf>, dev: nat, k: nat, blocks: set<nat>)
    requires |buf| == NBUF + 1 && k <= NBUF && dev != 0 && Unique(buf)
    requires forall i | 0 <= i < k :: buf[i].dev == dev && buf[i].blockno in blocks
    ensures |blocks| >= k
    decreases k
  {
    if k > 0 {
      var b := buf[k - 1].blockno;
      CountBlocks(buf, dev, k - 1, blocks - {b});
    }
  }

  /** What the log knows about the cache: the contents readers see, and the locked and the pinned blocks. */
  datatype View = View(cur: Disk, held: set<nat>, pinned: set<nat>)

  /** A buffer is unused, or holds its block's current contents and one reference per use. */
  ghost predicate BufOk(b: Buf, dev: nat, l: Layout, disk: Disk, v: View)
    requires |disk| == |v.cur| == l.total
  {
    || (b.dev == 0 && !b.valid && !b.locked && b.refcnt == 0)
    || (&& b.dev == dev && b.blockno < l.total
        && (b.locked <==> b.blockno in v.held)
        && b.refcnt == (if b.locked then 1 else 0) + (if b.blockno in v.pinned then 1 else 0)
        && (b.valid ==> b.data == Contents(l, disk, v, b.blockno)))
  }

  /** The data a locked buffer of block b holds: log blocks are always as on disk. */
  ghost function Contents(l: Layout, disk: Disk, v: View, b: nat): (c: Block)
    requires |disk| == |v.cur| == l.total && b < l.total
  {
    if l.InLog(b) then disk[b] else v.cur[b]
  }

  ghost predicate Resident(buf: seq<Buf>, dev: nat, b: nat)
    requires |buf| == NBUF + 1
  {
    exists i :: 0 <= i < NBUF && Holds(buf[i], dev, b) && buf[i].valid
  }

  /** The cache agrees with the view, and every locked or pinned block is in it. */
  ghost predicate Mirrors(buf: seq<Buf>, dev: nat, l: Layout, disk: Disk, v: View) {
    && |buf| == NBUF + 1 && dev != 0 && |disk| == |v.cur| == l.total
    && Unique(buf)
    && (forall i | 0 <= i < NBUF :: BufOk(buf[i], dev, l, disk, v))
    && (forall b | b in v.held + v.pinned :: Resident(buf, dev, b))
  }

  /** From x to y the buffers that someone holds are as they were. */
  ghost predicate HeldSame(x: seq<Buf>, y: seq<Buf>) {
    && |x| == |y| == NBUF + 1
    && forall j | 0 <= j < NBUF && x[j].locked :: Core(y[j]) == Core(x[j])
  }

  lemma FewerHeld(held: set<nat>, pinned: set<nat>, b: nat)
    ensures |held + (pinned - {b})| <= |held + pinned|
  {
    Smaller(held + (pinned - {b}), held + pinned);
  }

  lemma HeldSelf(x: seq<Buf>)
    requires |x| == NBUF + 1
    ensures HeldSame(x, x)
  {
  }

  lemma HeldTwice(x: seq<Buf>, y: seq<Buf>, z: seq<Buf>)
    requires HeldSame(x, y) && HeldSame(y, z)
    ensures HeldSame(x, z)
  {
    forall j | 0 <= j < NBUF && x[j].locked ensures Core(z[j]) == Core(x[j]) {
      assert Core(y[j]) == Core(x[j]);
    }
  }

  /** Buffers i and k, which nobody held, are the only ones that changed. */
  lemma HeldBut(x: seq<Buf>, y: seq<Buf>, i: nat, k: nat)
    requires |x| == |y| == NBUF + 1 && i < NBUF && k < NBUF && !x[i].locked && !x[k].locked
    requires forall j | 0 <= j < NBUF && j != i && j != k :: Core(y[j]) == Core(x[j])
    ensures HeldSame(x, y)
  {
  }

  /** A buffer with one more pin. */
  lemma PinnedOk(buf: seq<Buf>, i: nat, dev: nat, l: Layout, disk: Disk, v: View)
    requires Mirrors(buf, dev, l, disk, v) && i < NBUF && buf[i].dev == dev && buf[i].blockno !in v.pinned
    ensures BufOk(buf[i].(refcnt := buf[i].refcnt + 1), dev, l, disk, v.(pinned := v.pinned + {buf[i].blockno}))
  {
    hide Unique, Resident;
    assert BufOk(buf[i], dev, l, disk, v);
  }

  /** Two buffers of the same device hold different blocks. */
  lemma Alone(buf: seq<Buf>, dev: nat, i: nat, j: nat)
    requires |buf| == NBUF + 1 && Unique(buf) && dev != 0
    requires i < NBUF && j < NBUF && i != j && buf[i].dev == buf[j].dev == dev
    ensures buf[i].blockno != buf[j].blockno
  {
    if i < j { assert buf[i].blockno != buf[j].blockno; }
  }

  /** What one buffer's change may do without losing the data of another block. */
  lemma KeepsResident(x: seq<Buf>, y: seq<Buf>, i: nat, dev: nat, blocks: set<nat>)
    requires |x| == |y| == NBUF + 1 && i < NBUF && SameCores(y, x, {i})
    requires forall b | b in blocks :: Resident(x, dev, b)
    requires forall b | b in blocks && Holds(x[i], dev, b) && x[i].valid :: Holds(y[i], dev, b) && y[i].valid
    ensures forall b | b in blocks :: Resident(y, dev, b)
  {
    forall b | b in blocks ensures Resident(y, dev, b) {
      var j :| 0 <= j < NBUF && Holds(x[j], dev, b) && x[j].valid;
      if j != i { assert Core(y[j]) == Core(x[j]); }
      assert Holds(y[j], dev, b) && y[j].valid;
    }
  }

  /** A change of view that touches only block b is a change for buffer i alone. */
  lemma KeepsOthers(x: seq<Buf>, y: seq<Buf>, i: nat, dev: nat, l: Layout, disk: Disk, disk': Disk, v: View, w: View)
    requires Mirrors(x, dev, l, disk, v) && i < NBUF && SameCores(y, x, {i}) && Unique(y)
    requires |disk'| == |w.cur| == l.total
    requires y[i].dev == dev && BufOk(y[i], dev, l, disk', w)
    requires forall b: nat | b < l.total && b != y[i].blockno ::
               && (b in v.held <==> b in w.held) && (b in v.pinned <==> b in w.pinned)
               && v.cur[b] == w.cur[b] && disk[b] == disk'[b]
    ensures forall j | 0 <= j < NBUF :: BufOk(y[j], dev, l, disk', w)
  {
    forall j | 0 <= j < NBUF ensures BufOk(y[j], dev, l, disk', w) {
      if j != i {
        assert Core(y[j]) == Core(x[j]) && BufOk(x[j], dev, l, disk, v);
        if y[j].dev == dev { Alone(y, dev, i, j); }
      }
    }
  }

  /** The buffer bread returns is the block's only buffer and holds its current contents. */
  lemma Fetched(x: seq<Buf>, y: Buf, i: nat, b: nat, dev: nat, l: Layout, disk: Disk, v: View)
    requires Mirrors(x, dev, l, disk, v) && b < l.total && b !in v.held && i < NBUF
    requires disk[b] == v.cur[b] || l.InLog(b) || b in v.pinned
    requires Holds(y, dev, b) && y.locked && y.valid
    requires if exists j :: 0 <= j < NBUF && Holds(x[j], dev, b) then
               && Holds(x[i], dev, b) && y.refcnt == x[i].refcnt + 1
               && y.data == (if x[i].valid then x[i].data else disk[b])
             else
               y.refcnt == 1 && y.data == disk[b]
    ensures BufOk(y, dev, l, disk, v.(held := v.held + {b}))
  {
    assert BufOk(x[i], dev, l, disk, v);
    if b in v.pinned {
      assert b in v.held + v.pinned && Resident(x, dev, b);
      var j :| 0 <= j < NBUF && Holds(x[j], dev, b) && x[j].valid;
      assert j == i;
    }
  }

  /** bread may be called on an unlocked block, and finds a buffer while few blocks are in use. */
  lemma CanFetch(x: seq<Buf>, b: nat, dev: nat, l: Layout, disk: Disk, v: View)
    requires Mirrors(x, dev, l, disk, v) && b < l.total && b !in v.held
    requires b in v.pinned || |v.held + v.pinned| < NBUF
    ensures forall i | 0 <= i < NBUF && Holds(x[i], dev, b) :: !x[i].locked
    ensures (exists i :: 0 <= i < NBUF && Holds(x[i], dev, b)) || (exists i :: 0 <= i < NBUF && x[i].refcnt == 0)
  {
    assert forall i | 0 <= i < NBUF :: BufOk(x[i], dev, l, disk, v);
    if b in v.pinned {
      assert b in v.held + v.pinned && Resident(x, dev, b);
    } else if forall i | 0 <= i < NBUF :: x[i].refcnt > 0 {
      CountBlocks(x, dev, NBUF, v.held + v.pinned);
    }
  }

  lemma MirrorsFetched(x: seq<Buf>, y: seq<Buf>, i: nat, b: nat, dev: nat, l: Layout, disk: Disk, v: View)
    requires Mirrors(x, dev, l, disk, v) && b < l.total && b !in v.held && i < NBUF
    requires disk[b] == v.cur[b] || l.InLog(b) || b in v.pinned
    requires SameCores(y, x, {i}) && Unique(y) && Holds(y[i], dev, b) && y[i].locked && y[i].valid
    requires if exists j :: 0 <= j < NBUF && Holds(x[j], dev, b) then
               && Holds(x[i], dev, b) && y[i].refcnt == x[i].refcnt + 1
               && y[i].data == (if x[i].valid then x[i].data else disk[b])
             else
               x[i].refcnt == 0 && y[i].refcnt == 1 && y[i].data == disk[b]
    ensures Mirrors(y, dev, l, disk, v.(held := v.held + {b}))
    ensures y[i].data == Contents(l, disk, v, b)
  {
    var w := v.(held := v.held + {b});
    Fetched(x, y[i], i, b, dev, l, disk, v);
    assert BufOk(x[i], dev, l, disk, v);
    KeepsOthers(x, y, i, dev, l, disk, disk, v, w);
    KeepsResident(x, y, i, dev, v.held + v.pinned);
  }

  /** Changing one buffer together with the view of its block keeps the whole cache in agreement. */
  lemma MirrorsChanged(x: seq<Buf>, y: seq<Buf>, i: nat, dev: nat, l: Layout, disk: Disk, disk': Disk, v: View, w: View)
    requires Mirrors(x, dev, l, disk, v) && i < NBUF && SameCores(y, x, {i}) && Unique(y)
    requires |disk'| == |w.cur| == l.total
    requires Holds(y[i], dev, x[i].blockno) && x[i].dev == dev && y[i].valid
    requires BufOk(y[i], dev, l, disk', w)
    requires forall b: nat | b < l.total && b != y[i].blockno ::
               && (b in v.held <==> b in w.held) && (b in v.pinned <==> b in w.pinned)
               && v.cur[b] == w.cur[b] && disk[b] == disk'[b]
    requires w.held + w.pinned <= v.held + v.pinned + {y[i].blockno}
    ensures Mirrors(y, dev, l, disk', w)
  {
    hide BufOk;
    KeepsOthers(x, y, i, dev, l, disk, disk', v, w);
    var rest := v.held + v.pinned - {y[i].blockno};
    KeepsResident(x, y, i, dev, rest);
    forall b | b in w.held + w.pinned ensures Resident(y, dev, b) {
      if b == y[i].blockno { assert Holds(y[i], dev, b) && y[i].valid; }
    }
  }

  /** The header block h lists the given block numbers. */
  predicate Lists(h: Block, blocks: seq<nat>) {
    && |blocks| <= LOGSIZE && GetWord(h, 0) == |blocks|
    && forall k: nat | k < |blocks| :: GetWord(h, 1 + k) == blocks[k]
  }

  /** The blocks are home to their disk, and the first k have a log slot each. */
  predicate Stageable(l: Layout, d: Disk, cur: Disk, blocks: seq<nat>, k: nat) {
    && l.Valid() && |d| == |cur| == l.total && k <= |blocks| && k < l.size
    && forall j | 0 <= j < |blocks| :: blocks[j] < l.total
  }

  /** The disk after write_log has filled the first k log slots. */
  function Staged(l: Layout, d: Disk, cur: Disk, blocks: seq<nat>, k: nat): (r: Disk)
    ensures |r| == |d|
    ensures Stageable(l, d, cur, blocks, k) ==>
              && r[l.start] == d[l.start]
              && (forall b: nat | b < l.total && !l.InLog(b) :: r[b] == d[b])
              && (forall j: nat | j < k :: r[Slot(l, j)] == cur[blocks[j]])
  {
    if k == 0 then d else
      var r := Staged(l, d, cur, blocks, k - 1);
      if k > |blocks| || blocks[k - 1] >= |cur| || Slot(l, k - 1) >= |r| then r
      else r[Slot(l, k - 1) := cur[blocks[k - 1]]]
  }

  /** The disks write_log writes while filling the first k log slots. */
  function Stages(l: Layout, d: Disk, cur: Disk, blocks: seq<nat>, k: nat): (t: seq<Disk>)
    ensures |t| == k
  {
    if k == 0 then [] else Stages(l, d, cur, blocks, k - 1) + [Staged(l, d, cur, blocks, k)]
  }

  lemma StagesNone(l: Layout, d: Disk, cur: Disk, blocks: seq<nat>)
    ensures Staged(l, d, cur, blocks, 0) == d && Stages(l, d, cur, blocks, 0) == []
  {
  }

  lemma StagesNext(l: Layout, d: Disk, cur: Disk, blocks: seq<nat>, k: nat, e: Disk)
    requires Stageable(l, d, cur, blocks, k + 1)
    requires e == Staged(l, d, cur, blocks, k)[Slot(l, k) := cur[blocks[k]]]
    ensures e == Staged(l, d, cur, blocks, k + 1)
    ensures Stages(l, d, cur, blocks, k + 1) == Stages(l, d, cur, blocks, k) + [e]
  {
  }

  /** While the header is empty, a crash recovers to the old home blocks whatever the slots hold. */
  lemma BeforeHead(l: Layout, d: Disk, e: Disk)
    requires LogOk(l, d) && Count(l, d) == 0 && SameHome(l, e, d) && e[l.start] == d[l.start]
    ensures Yields(l, e, d)
  {
  }

  /**
   * Once the header lists the logged blocks and the slots hold their contents, a crash
   * recovers to the current contents of every home block.
   */
  lemma AfterHead(l: Layout, e: Disk, cur: Disk, blocks: seq<nat>)
    requires l.Valid() && |e| == |cur| == l.total && |blocks| < l.size
    requires Lists(e[l.start], blocks)
    requires forall k | 0 <= k < |blocks| :: blocks[k] < l.total && !l.InLog(blocks[k])
    requires forall k: nat | k < |blocks| :: e[Slot(l, k)] == cur[blocks[k]]
    requires forall b: nat | b < l.total && !l.InLog(b) && b !in blocks :: e[b] == cur[b]
    ensures Yields(l, e, cur)
    ensures Count(l, e) == |blocks| && forall k: nat | k < |blocks| :: Target(l, e, k) == blocks[k]
  {
    assert forall k: nat | k < |blocks| :: Target(l, e, k) == blocks[k];
    forall b: nat | b < l.total && !l.InLog(b) ensures Recovered(l, e)[b] == cur[b] {
      InstalledAt(l, e, |blocks|, b);
      var j := LastFor(l, e, |blocks|, b);
      if j < 0 { assert forall k | 0 <= k < |blocks| :: blocks[k] != b; }
    }
  }

  /** The header written over the filled slots is the commit point. */
  lemma HeadWritten(l: Layout, d: Disk, cur: Disk, blocks: seq<nat>, e: Disk)
    requires l.Valid() && |d| == |cur| == l.total && |blocks| < l.size && |e| == l.total
    requires forall k | 0 <= k < |blocks| :: blocks[k] < l.total && !l.InLog(blocks[k])
    requires forall b: nat | b < l.total && !l.InLog(b) && b !in Elements(blocks) :: d[b] == cur[b]
    requires e == Staged(l, d, cur, blocks, |blocks|)[l.start := e[l.start]] && Lists(e[l.start], blocks)
    ensures LogOk(l, e) && Yields(l, e, cur)
    ensures Count(l, e) == |blocks|
    ensures forall k: nat | k < |blocks| :: Target(l, e, k) == blocks[k] && e[Slot(l, k)] == cur[blocks[k]]
  {
    hide Staged, Lists, Recovered;
    AfterHead(l, e, cur, blocks);
  }

  lemma {:induction false} StagesAt(l: Layout, d: Disk, cur: Disk, blocks: seq<nat>, k: nat, i: nat)
    requires i < k
    ensures Stages(l, d, cur, blocks, k)[i] == Staged(l, d, cur, blocks, i + 1)
  {
    if i < k - 1 {
      StagesAt(l, d, cur, blocks, k - 1, i);
    }
  }

  /** Every disk in t recovers to the home blocks of h. */
  ghost predicate AllYield(l: Layout, t: seq<Disk>, h: Disk) {
    forall e | e in t :: Yields(l, e, h)
  }

  /**
   * Every disk in t recovers to all of the old home blocks up to some moment, and to all
   * of the new ones from then on.
   */
  ghost predicate Atomic(l: Layout, t: seq<Disk>, before: Disk, after: Disk) {
    exists c :: 0 <= c <= |t| && AllYield(l, t[..c], before) && AllYield(l, t[c..], after)
  }

  lemma AtomicJoin(l: Layout, s: seq<Disk>, t: seq<Disk>, before: Disk, after: Disk)
    requires AllYield(l, s, before) && AllYield(l, t, after)
    ensures Atomic(l, s + t, before, after)
  {
    assert (s + t)[..|s|] == s && (s + t)[|s|..] == t;
  }

  lemma AtomicNone(l: Layout, t: seq<Disk>, before: Disk, after: Disk)
    requires t == []
    ensures Atomic(l, t, before, after)
  {
    AtomicJoin(l, [], [], before, after);
    assert t == [] + [];
  }

  lemma Regroup(t: seq<Disk>, a: seq<Disk>, e: Disk, b: seq<Disk>, f: Disk)
    ensures t + a + [e] + b + [f] == t + (a + ([e] + b + [f]))
  {
  }

  lemma SlotsAreBefore(l: Layout, d: Disk, cur: Disk, blocks: seq<nat>)
    requires LogOk(l, d) && Count(l, d) == 0 && |cur| == l.total && |blocks| < l.size
    requires forall j | 0 <= j < |blocks| :: blocks[j] < l.total
    ensures AllYield(l, Stages(l, d, cur, blocks, |blocks|), d)
  {
    hide Yields, Staged, Stages, Count;
    var t := Stages(l, d, cur, blocks, |blocks|);
    forall e | e in t ensures Yields(l, e, d) {
      var i :| 0 <= i < |t| && t[i] == e;
      StagesAt(l, d, cur, blocks, |blocks|, i);
      assert Stageable(l, d, cur, blocks, i + 1);
      BeforeHead(l, d, e);
    }
  }

  /** The disks of a whole commit: slots, header, home blocks, erased header. */
  lemma CommitIsAtomic(l: Layout, d: Disk, e: Disk, cur: Disk, slots: seq<Disk>, copies: seq<Disk>)
    requires AllYield(l, slots, d) && LogOk(l, e) && Yields(l, e, cur)
    requires forall f | f in copies :: RecoveryPoint(l, e, f)
    ensures Atomic(l, slots + ([e] + copies + [Recovered(l, e)]), d, cur)
  {
    hide Recovered, Yields;
    var rest := [e] + copies + [Recovered(l, e)];
    forall f | f in rest ensures Yields(l, f, cur) {
      if f != e {
        assert RecoveryPoint(l, e, f);
        YieldsSame(l, e, f, cur);
      }
    }
    AtomicJoin(l, slots, rest, d, cur);
  }

  /** Any moment of a recovery recovers to the same home blocks. */
  lemma YieldsSame(l: Layout, e: Disk, f: Disk, h: Disk)
    requires Yields(l, e, h) && RecoveryPoint(l, e, f)
    ensures Yields(l, f, h)
  {
    RecoveryPointKeeps(l, e, f);
  }

  class Log {
    const bc: Bcache
    const l: Layout
    const dev: nat
    const block: array<nat>
    var n: nat
    var outstanding: nat
    var committing: bool

    // The cache as the log sees it, and the blocks whose buffer was changed but not logged yet.
    ghost var v: View
    ghost var open: set<nat>

    // The blocks that each operation between begin_op and end_op has logged.
    ghost var ops: seq<set<nat>>

    /** The logged block numbers, log.lh. */
    ghost function Lh(): (s: seq<nat>)
      reads this, block
      requires n <= block.Length
    {
      block[..n]
    }

    /** The log as begin_op, log_write and end_op see it. */
    ghost function Admitted(): (s: Admission.State)
      reads this, block
      requires n <= block.Length
    {
      Admission.State(Lh(), committing, ops)
    }

    ghost predicate Synced()
      reads this, bc, bc.buf, block
    {
      && l.Valid() && l.size <= LOGSIZE && l.total < 0x1_0000_0000 && dev != 0
      && block.Length == LOGSIZE && n <= LOGSIZE && n < l.size
      && (forall k | 0 <= k < n :: block[k] < l.total && !l.InLog(block[k]))
      && open <= v.held
      && |bc.disk| == |v.cur| == l.total
      && bc.Valid()
      && Mirrors(bc.buf[..], dev, l, bc.disk, v)
    }

    /** A block that is neither logged nor being changed is the same on disk and in memory. */
    ghost predicate Valid()
      reads this, bc, bc.buf, block
    {
      && n <= block.Length
      && (forall i, j | 0 <= i < j < n :: block[i] != block[j])
      && v.pinned == Elements(Lh())
      && |ops| == outstanding && (committing ==> outstanding == 0)
      && LogOk(l, bc.disk) && Count(l, bc.disk) == 0
      && |v.cur| == l.total
      && (forall b: nat | b < l.total && !l.InLog(b) && b !in v.pinned && b !in open :: bc.disk[b] == v.cur[b])
      && Synced()
    }

    /** The log of a freshly booted cache, before recovery has run. */
    constructor Boot(bc: Bcache, dev: nat, l: Layout)
      requires bc.Valid() && dev != 0 && |bc.disk| == l.total
      requires l.Valid() && l.size <= LOGSIZE && l.total < 0x1_0000_0000
      requires forall i | 0 <= i < NBUF ::
                 bc.buf[i].dev == 0 && !bc.buf[i].valid && !bc.buf[i].locked && bc.buf[i].refcnt == 0
      ensures this.bc == bc && this.dev == dev && this.l == l && fresh(block)
      ensures Synced() && n == 0 && outstanding == 0 && !committing && ops == []
      ensures v == View(bc.disk, {}, {}) && open == {}
    {
      this.bc, this.dev, this.l := bc, dev, l;
      block := new nat[LOGSIZE](i => 0);
      n, outstanding, committing := 0, 0, false;
      v, open, ops := View(bc.disk, {}, {}), {}, [];
    }

    /** bread through the cache: the block, locked, with its current contents. */
    method Fetch(b: nat) returns (i: nat)
      requires Synced() && b < l.total && b !in v.held
      requires b in v.pinned || |v.held + v.pinned| < NBUF
      requires bc.disk[b] == v.cur[b] || l.InLog(b) || b in v.pinned
      modifies this`v, bc.buf
      ensures Synced() && v == old(v).(held := old(v.held) + {b})
      ensures i < NBUF && Holds(bc.buf[i], dev, b) && bc.buf[i].locked && bc.buf[i].valid
      ensures bc.buf[i].data == Contents(l, bc.disk, v, b)
      ensures !old(bc.buf[i].locked)
      ensures forall j | 0 <= j < NBUF && j != i :: Core(bc.buf[j]) == Core(old(bc.buf[j]))
    {
      hide Threaded, Unique, BufOk, Resident, Mirrors;
      ghost var was := bc.buf[..];
      CanFetch(was, b, dev, l, bc.disk, v);
      var r, granted := bc.Bread(dev, b);
      i := r.value;
      MirrorsFetched(was, bc.buf[..], i, b, dev, l, bc.disk, v);
      v := v.(held := v.held + {b});
    }

    /** brelse of a block whose changes, if any, have been logged. */
    method Release(i: nat)
      requires Synced() && i < NBUF && bc.buf[i].dev == dev && bc.buf[i].locked && bc.buf[i].valid
      requires bc.buf[i].blockno !in open
      modifies this`v, bc`order, bc.buf
      ensures Synced() && v == old(v).(held := old(v.held) - {old(bc.buf[i].blockno)})
      ensures forall j | 0 <= j < NBUF && j != i :: Core(bc.buf[j]) == Core(old(bc.buf[j]))
    {
      hide Threaded, Unique, Resident, MovedToFront;
      ghost var was, b := bc.buf[..], bc.buf[i].blockno;
      assert BufOk(was[i], dev, l, bc.disk, v);
      bc.Brelse(i);
      ghost var w := v.(held := v.held - {b});
      assert Core(bc.buf[i]).refcnt == was[i].refcnt - 1;
      MirrorsChanged(was, bc.buf[..], i, dev, l, bc.disk, bc.disk, v, w);
      v := w;
    }

    /** Store into a locked buffer and bwrite it. */
    method Overwrite(i: nat, data: Block)
      requires Synced() && i < NBUF && bc.buf[i].dev == dev && bc.buf[i].locked && bc.buf[i].valid
      modifies this`v, bc`disk, bc`trace, bc.buf
      ensures Synced()
      ensures bc.buf[i] == old(bc.buf[i]).(data := data)
      ensures forall j | 0 <= j < NBUF && j != i :: Core(bc.buf[j]) == Core(old(bc.buf[j]))
      ensures bc.buf[i].blockno < l.total && bc.disk == old(bc.disk)[bc.buf[i].blockno := data]
      ensures bc.trace == old(bc.trace) + [bc.disk]
      ensures v == if l.InLog(bc.buf[i].blockno) then old(v) else old(v).(cur := old(v.cur)[bc.buf[i].blockno := data])
    {
      hide Threaded, Unique, Resident;
      ghost var was, b, d := bc.buf[..], bc.buf[i].blockno, bc.disk;
      assert BufOk(was[i], dev, l, d, v);
      bc.Store(i, data);
      bc.Bwrite(i);
      ghost var w := if l.InLog(b) then v else v.(cur := v.cur[b := data]);
      assert BufOk(bc.buf[i], dev, l, bc.disk, w);
      MirrorsChanged(was, bc.buf[..], i, dev, l, d, bc.disk, v, w);
      v := w;
    }

    /**
     * Readers may hold buffers during a commit, but of no block that the commit needs, and they leave it one
     * buffer.
     */
    ghost predicate Quiet()
      reads this, block
    {
      n <= block.Length && (forall b | b in v.held :: !l.InLog(b) && b !in Lh()) && |v.held + v.pinned| < NBUF
    }

    /** One round of write_log: the current contents of a logged block go to its log slot. */
    method CopyToLog(tail: nat)
      requires Synced() && tail < n && Quiet() && block[tail] in v.pinned
      modifies this`v, bc, bc.buf
      ensures Synced() && v == old(v) && HeldSame(old(bc.buf[..]), bc.buf[..])
      ensures bc.disk == old(bc.disk)[Slot(l, tail) := v.cur[block[tail]]]
      ensures bc.trace == old(bc.trace) + [bc.disk]
    {
      hide Threaded, Unique, Resident, BufOk, Mirrors;
      assert block[tail] in Lh() && l.InLog(Slot(l, tail));
      var to := Fetch(Slot(l, tail));
      var from := Fetch(block[tail]);
      var data := bc.buf[from].data;
      Overwrite(to, data);
      Release(from);
      Release(to);
      assert v.held == old(v.held);
      HeldBut(old(bc.buf[..]), bc.buf[..], to, from);
    }

    /** One round of install_trans: a log slot goes to its home block, which is unpinned after a commit. */
    method CopyHome(tail: nat, recovering: bool)
      requires Synced() && tail < n && Quiet()
      requires if recovering then v.held == v.pinned == {} && bc.disk[block[tail]] == v.cur[block[tail]]
               else block[tail] in v.pinned
      modifies this`v, bc, bc.buf
      ensures Synced() && HeldSame(old(bc.buf[..]), bc.buf[..])
      ensures var b, data := block[tail], old(bc.disk[Slot(l, tail)]);
              && bc.disk == old(bc.disk)[b := data]
              && v == View(old(v.cur)[b := data], old(v.held), old(v.pinned) - {b})
      ensures bc.trace == old(bc.trace) + [bc.disk]
    {
      hide Threaded, Unique, Resident, Mirrors;
      assert block[tail] in Lh() && l.InLog(Slot(l, tail));
      var lbuf := Fetch(Slot(l, tail));
      var dbuf := Fetch(block[tail]);
      Overwrite(dbuf, bc.buf[lbuf].data);
      if !recovering {
        Unpin(dbuf);
      }
      Release(lbuf);
      Release(dbuf);
      assert v.pinned == old(v.pinned) - {block[tail]} && v.held == old(v.held);
      HeldBut(old(bc.buf[..]), bc.buf[..], lbuf, dbuf);
    }

    /** bunpin of a locked buffer. */
    method Unpin(i: nat)
      requires Synced() && i < NBUF && bc.buf[i].dev == dev && bc.buf[i].locked && bc.buf[i].valid
      requires bc.buf[i].blockno in v.pinned
      modifies this`v, bc.buf
      ensures Synced() && v == old(v).(pinned := old(v.pinned) - {bc.buf[i].blockno})
      ensures Core(bc.buf[i]) == Core(old(bc.buf[i])).(refcnt := old(bc.buf[i].refcnt) - 1)
      ensures forall j | 0 <= j < NBUF && j != i :: Core(bc.buf[j]) == Core(old(bc.buf[j]))
    {
      hide Threaded, Unique, Resident;
      ghost var was := bc.buf[..];
      assert BufOk(was[i], dev, l, bc.disk, v);
      bc.Bunpin(i);
      ghost var w := v.(pinned := v.pinned - {bc.buf[i].blockno});
      MirrorsChanged(was, bc.buf[..], i, dev, l, bc.disk, bc.disk, v, w);
      v := w;
    }

    /** The header block that write_head builds over the cached one. */
    method FillHead(was: Block) returns (h: Block)
      requires n <= block.Length == LOGSIZE && forall k | 0 <= k < n :: block[k] < 0x1_0000_0000
      ensures Lists(h, Lh()) && (n == 0 ==> h == PutWord(was, 0, 0))
    {
      h := PutWord(was, 0, n);
      var k := 0;
      while k < n
        invariant 0 <= k <= n
        invariant GetWord(h, 0) == n && forall j: nat | j < k :: GetWord(h, 1 + j) == block[j]
        invariant k == 0 ==> h == PutWord(was, 0, n)
      {
        h := PutWord(h, 1 + k, block[k]);
        k := k + 1;
      }
    }

    /** write_head: the in-memory header becomes the on-disk header, in one block write. */
    method WriteHead()
      requires Synced() && Quiet()
      modifies this`v, bc, bc.buf
      ensures Synced() && v == old(v) && HeldSame(old(bc.buf[..]), bc.buf[..])
      ensures Lists(bc.disk[l.start], Lh()) && bc.disk == old(bc.disk)[l.start := bc.disk[l.start]]
      ensures n == 0 ==> bc.disk == Erased(l, old(bc.disk))
      ensures bc.trace == old(bc.trace) + [bc.disk]
    {
      hide Threaded, Unique, Resident, BufOk, Mirrors, Lists;
      var i := Fetch(l.start);
      var h := FillHead(bc.buf[i].data);
      Overwrite(i, h);
      assert Lists(bc.disk[l.start], Lh());
      Release(i);
      assert v.held == old(v.held);
      HeldBut(old(bc.buf[..]), bc.buf[..], i, i);
    }

    /** write_log */
    method WriteLog()
      requires Synced() && Quiet()
      requires forall k | 0 <= k < n :: block[k] in v.pinned
      modifies this`v, bc, bc.buf
      ensures Synced() && v == old(v) && HeldSame(old(bc.buf[..]), bc.buf[..])
      ensures bc.disk == Staged(l, old(bc.disk), v.cur, Lh(), n)
      ensures bc.trace == old(bc.trace) + Stages(l, old(bc.disk), v.cur, Lh(), n)
    {
      hide Threaded, Unique, Resident, BufOk, Mirrors, Staged, Stages, HeldSame;
      HeldSelf(bc.buf[..]);
      var tail := 0;
      ghost var d, t, lh := bc.disk, bc.trace, Lh();
      StagesNone(l, d, v.cur, lh);
      while tail < n
        invariant 0 <= tail <= n && Synced() && v == old(v) && Lh() == lh && HeldSame(old(bc.buf[..]), bc.buf[..])
        invariant bc.disk == Staged(l, d, v.cur, lh, tail)
        invariant bc.trace == t + Stages(l, d, v.cur, lh, tail)
      {
        ghost var was := bc.buf[..];
        CopyToLog(tail);
        HeldTwice(old(bc.buf[..]), was, bc.buf[..]);
        StagesNext(l, d, v.cur, lh, tail, bc.disk);
        tail := tail + 1;
      }
    }

    /** The on-disk header of d lists log.lh. */
    ghost predicate OnDisk(d: Disk)
      reads this, block
    {
      && n <= block.Length && LogOk(l, d) && Count(l, d) == n
      && forall k | 0 <= k < n :: Target(l, d, k) == block[k]
    }

    /** A round of install_trans that started from disk d. */
    method InstallNext(tail: nat, recovering: bool, ghost d: Disk)
      requires Synced() && OnDisk(d) && tail < n && bc.disk == Installed(l, d, tail)
      requires Quiet()
      requires if recovering then v.held == v.pinned == {} && SameHome(l, v.cur, bc.disk)
               else block[tail] in v.pinned && d[Slot(l, tail)] == v.cur[block[tail]]
      modifies this`v, bc, bc.buf
      ensures Synced() && OnDisk(d) && bc.disk == Installed(l, d, tail + 1)
      ensures v.held == old(v.held) && v.pinned == old(v.pinned) - {block[tail]}
      ensures HeldSame(old(bc.buf[..]), bc.buf[..])
      ensures if recovering then SameHome(l, v.cur, bc.disk) else v.cur == old(v.cur)
      ensures bc.trace == old(bc.trace) + [bc.disk]
      ensures Installs(l, d, tail + 1) == Installs(l, d, tail) + [bc.disk]
    {
      hide Threaded, Unique, Resident, BufOk, Mirrors, Installed, Installs, SameHome;
      ghost var was := bc.disk;
      if recovering {
        SameHomeUpdate(l, v.cur, was, block[tail], was[Slot(l, tail)]);
      }
      assert l.InLog(Slot(l, tail)) && was[Slot(l, tail)] == d[Slot(l, tail)];
      CopyHome(tail, recovering);
      InstallsNext(l, d, tail, bc.disk);
    }

    /** install_trans */
    method InstallTrans(recovering: bool)
      requires Synced() && OnDisk(bc.disk) && Quiet()
      requires if recovering then
                 v.held == v.pinned == {} && SameHome(l, v.cur, bc.disk)
               else
                 && v.pinned == Elements(Lh())
                 && (forall i, j | 0 <= i < j < n :: block[i] != block[j])
                 && forall k | 0 <= k < n :: bc.disk[Slot(l, k)] == v.cur[block[k]]
      modifies this`v, bc, bc.buf
      ensures Synced() && v.held == old(v.held) && v.pinned == {} && HeldSame(old(bc.buf[..]), bc.buf[..])
      ensures if recovering then SameHome(l, v.cur, bc.disk) else v.cur == old(v.cur)
      ensures bc.disk == Installed(l, old(bc.disk), n)
      ensures bc.trace == old(bc.trace) + Installs(l, old(bc.disk), n)
    {
      hide Installed, Installs, SameHome, LogOk, Elements, HeldSame, Count, Target, Slot, Bcache.Valid, Mirrors;
      AllBuffers(bc);
      HeldSelf(bc.buf[..]);
      var tail := 0;
      ghost var d, t, lh := bc.disk, bc.trace, Lh();
      InstallsNone(l, d);
      assert lh[0..] == lh;
      while tail < n
        invariant 0 <= tail <= n && Synced() && OnDisk(d) && Quiet() && v.held == old(v.held)
        invariant HeldSame(old(bc.buf[..]), bc.buf[..])
        invariant if recovering then v.held == v.pinned == {} && SameHome(l, v.cur, bc.disk)
                  else v.cur == old(v.cur) && v.pinned == Elements(lh[tail..])
        invariant bc.disk == Installed(l, d, tail) && bc.trace == t + Installs(l, d, tail)
      {
        ghost var trace, was := bc.trace, bc.buf[..];
        if !recovering {
          PinsLeft(lh, tail);
        }
        FewerHeld(v.held, v.pinned, block[tail]);
        InstallNext(tail, recovering, d);
        HeldTwice(old(bc.buf[..]), was, bc.buf[..]);
        assert trace + [bc.disk] == t + (Installs(l, d, tail) + [bc.disk]);
        tail := tail + 1;
      }
      PinnedFew(lh[n..]);
    }

    /** The first half of commit: log slots, then the header that commits. */
    method Publish() returns (ghost slots: seq<Disk>)
      requires Valid() && Quiet() && open == {}
      modifies this`v, bc, bc.buf
      ensures Synced() && v == old(v) && OnDisk(bc.disk) && HeldSame(old(bc.buf[..]), bc.buf[..])
      ensures forall k | 0 <= k < n :: bc.disk[Slot(l, k)] == v.cur[block[k]]
      ensures bc.trace == old(bc.trace) + slots + [bc.disk]
      ensures AllYield(l, slots, old(bc.disk)) && Yields(l, bc.disk, v.cur)
    {
      hide Threaded, Unique, Resident, BufOk, Mirrors, Staged, Stages, Yields, AllYield, HeldSame, Lists, LogOk,
        Elements, Count, Target, Slot;
      ghost var d, lh := bc.disk, Lh();
      slots := Stages(l, d, v.cur, lh, n);
      SlotsAreBefore(l, d, v.cur, lh);
      forall k | 0 <= k < n ensures block[k] in v.pinned { ElementsIn(lh, lh[k]); }
      WriteLog();
      ghost var was := bc.buf[..];
      WriteHead();
      HeldTwice(old(bc.buf[..]), was, bc.buf[..]);
      HeadWritten(l, d, v.cur, lh, bc.disk);
    }

    /** The second half of commit: home blocks, then the empty header. */
    method Retire() returns (ghost copies: seq<Disk>)
      requires Synced() && OnDisk(bc.disk) && Quiet() && v.pinned == Elements(Lh())
      requires forall i, j | 0 <= i < j < n :: block[i] != block[j]
      requires forall k | 0 <= k < n :: bc.disk[Slot(l, k)] == v.cur[block[k]]
      modifies this`v, this`n, bc, bc.buf
      ensures Synced() && n == 0 && v == View(old(v.cur), old(v.held), {}) && HeldSame(old(bc.buf[..]), bc.buf[..])
      ensures bc.disk == Recovered(l, old(bc.disk))
      ensures bc.trace == old(bc.trace) + copies + [bc.disk]
      ensures forall e | e in copies :: RecoveryPoint(l, old(bc.disk), e)
    {
      hide Threaded, Unique, Resident, BufOk, Mirrors, Installed, Installs, Erased, RecoveryPoint, HeldSame;
      copies := Installs(l, bc.disk, n);
      InstallsArePoints(l, bc.disk);
      InstallTrans(false);
      n := 0;
      ghost var was := bc.buf[..];
      WriteHead();
      HeldTwice(old(bc.buf[..]), was, bc.buf[..]);
    }

    /** commit */
    method Commit()
      requires Valid() && Quiet() && open == {}
      modifies this`v, this`n, bc, bc.buf
      ensures Valid() && n == 0 && v == View(old(v.cur), old(v.held), {}) && HeldSame(old(bc.buf[..]), bc.buf[..])
      ensures SameHome(l, bc.disk, v.cur)
      ensures old(bc.trace) <= bc.trace && Atomic(l, bc.trace[|old(bc.trace)|..], old(bc.disk), v.cur)
    {
      hide Threaded, Unique, Resident, BufOk, Mirrors, Recovered, Atomic, AllYield, RecoveryPoint, HeldSame, Elements,
        LogOk,
        Count;
      ghost var d, t := bc.disk, bc.trace;
      HeldSelf(bc.buf[..]);
      NoElements();
      if n > 0 {
        ghost var slots := Publish();
        ghost var e, was := bc.disk, bc.buf[..];
        ghost var copies := Retire();
        HeldTwice(old(bc.buf[..]), was, bc.buf[..]);
        Regroup(t, slots, e, copies, bc.disk);
        CommitIsAtomic(l, d, e, v.cur, slots, copies);
        RecoverAfterErase(l, e);
      } else {
        AtomicNone(l, bc.trace[|t|..], d, v.cur);
      }
      assert Lh() == [];
    }

    /** The copy loop of read_head. */
    method LoadHead(h: Block)
      requires block.Length == LOGSIZE && GetWord(h, 0) <= LOGSIZE
      modifies this`n, block
      ensures n == GetWord(h, 0) && Lists(h, Lh())
    {
      n := GetWord(h, 0);
      var k := 0;
      while k < n
        modifies block
        invariant 0 <= k <= n
        invariant forall j | 0 <= j < k :: block[j] == GetWord(h, 1 + j)
      {
        block[k] := GetWord(h, 1 + k);
        k := k + 1;
      }
    }

    /** read_head */
    method ReadHead()
      requires Synced() && LogOk(l, bc.disk) && v.held == {} && v.pinned == {}
      modifies this`n, this`v, block, bc`order, bc.buf
      ensures Synced() && OnDisk(bc.disk) && v == old(v)
    {
      hide Threaded, Unique, Resident, BufOk, Mirrors;
      var i := Fetch(l.start);
      var h: Block := bc.buf[i].data;
      Release(i);
      assert v == old(v);
      LoadHead(h);
      assert forall k | 0 <= k < n :: Target(l, bc.disk, k) == block[..n][k];
    }

    /** recover_from_log, on the cache of a fresh boot. */
    method RecoverFromLog()
      requires Synced() && LogOk(l, bc.disk) && v == View(v.cur, {}, {}) && SameHome(l, v.cur, bc.disk)
      requires ops == [] && outstanding == 0 && open == {}
      modifies this`n, this`v, block, bc, bc.buf
      ensures Valid() && n == 0 && v == View(v.cur, {}, {}) && SameHome(l, v.cur, bc.disk)
      ensures bc.disk == Recovered(l, old(bc.disk))
      ensures old(bc.trace) <= bc.trace
      ensures forall e | e in bc.trace[|old(bc.trace)|..] :: RecoveryPoint(l, old(bc.disk), e)
    {
      hide Threaded, Unique, Resident, BufOk, Mirrors, Installed, Installs, Erased;
      ghost var d, t := bc.disk, bc.trace;
      ReadHead();
      InstallTrans(true);
      n := 0;
      WriteHead();
      RecoverAfterErase(l, d);
      ErasedHome(l, v.cur, Installed(l, d, Count(l, d)));
      assert bc.trace[|t|..] == Installs(l, d, Count(l, d)) + [bc.disk];
      InstallsArePoints(l, d);
    }

    /** bread by a file system operation: the current contents of the block, locked. */
    method Read(b: nat) returns (i: nat)
      requires Valid() && b < l.total && !l.InLog(b) && b !in v.held
      requires b in v.pinned || |v.held + v.pinned| < NBUF
      modifies this`v, bc.buf
      ensures Valid() && v == old(v).(held := old(v.held) + {b})
      ensures i < NBUF && Holds(bc.buf[i], dev, b) && bc.buf[i].locked && bc.buf[i].valid
      ensures bc.buf[i].data == v.cur[b] && !old(bc.buf[i].locked)
      ensures forall j | 0 <= j < NBUF && j != i :: Core(bc.buf[j]) == Core(old(bc.buf[j]))
    {
      hide Threaded, Unique, BufOk, Resident, Mirrors, Elements, LogOk;
      i := Fetch(b);
    }

    /** brelse by a file system operation, once its changes have been logged. */
    method Put(i: nat)
      requires Valid() && i < NBUF && bc.buf[i].dev == dev && bc.buf[i].locked && bc.buf[i].valid
      requires bc.buf[i].blockno !in open
      modifies this`v, bc`order, bc.buf
      ensures Valid() && v == old(v).(held := old(v.held) - {old(bc.buf[i].blockno)})
      ensures forall j | 0 <= j < NBUF && j != i :: Core(bc.buf[j]) == Core(old(bc.buf[j]))
    {
      hide Threaded, Unique, BufOk, Resident, Mirrors, Elements, LogOk;
      Release(i);
    }

    /** Change the data of a locked home block; log_write must follow before it is released. */
    method Modify(i: nat, data: Block)
      requires Valid() && i < NBUF && bc.buf[i].dev == dev && bc.buf[i].locked && bc.buf[i].valid
      requires bc.buf[i].blockno < l.total && !l.InLog(bc.buf[i].blockno)
      modifies this`v, this`open, bc.buf
      ensures Valid() && bc.buf[i] == old(bc.buf[i]).(data := data)
      ensures v == old(v).(cur := old(v.cur)[bc.buf[i].blockno := data])
      ensures open == old(open) + {bc.buf[i].blockno}
      ensures forall j | 0 <= j < NBUF && j != i :: Core(bc.buf[j]) == Core(old(bc.buf[j]))
    {
      hide Threaded, Unique, Resident, Elements, LogOk;
      ghost var was, b := bc.buf[..], bc.buf[i].blockno;
      assert BufOk(was[i], dev, l, bc.disk, v);
      bc.Store(i, data);
      ghost var w := v.(cur := v.cur[b := data]);
      assert BufOk(bc.buf[i], dev, l, bc.disk, w);
      MirrorsChanged(was, bc.buf[..], i, dev, l, bc.disk, bc.disk, v, w);
      v, open := w, open + {b};
    }

    /** The absorption loop of log_write: the position of b in log.lh, or n. */
    method FindLogged(b: nat) returns (k: nat)
      requires n <= block.Length
      ensures k <= n && (k < n ==> block[k] == b)
      ensures k < n <==> b in Lh()
    {
      k := 0;
      while k < n && block[k] != b
        invariant k <= n && forall j | 0 <= j < k :: block[j] != b
      {
        k := k + 1;
      }
    }

    /** Append a block to log.lh and pin its buffer. */
    method Append(i: nat)
      requires Valid() && i < NBUF && bc.buf[i].dev == dev && bc.buf[i].locked && bc.buf[i].valid
      requires bc.buf[i].blockno < l.total && !l.InLog(bc.buf[i].blockno)
      requires bc.buf[i].blockno !in Lh() && n < LOGSIZE && n < l.size - 1
      modifies this`n, this`v, block, bc.buf
      ensures Valid() && Lh() == old(Lh()) + [bc.buf[i].blockno]
      ensures v == old(v).(pinned := old(v.pinned) + {bc.buf[i].blockno})
      ensures Core(bc.buf[i]) == Core(old(bc.buf[i])).(refcnt := old(bc.buf[i].refcnt) + 1)
      ensures forall j | 0 <= j < NBUF && j != i :: Core(bc.buf[j]) == Core(old(bc.buf[j]))
    {
      hide Threaded, Unique, Resident, LogOk, Count, Elements, Mirrors, BufOk;
      ghost var was, b, lh := bc.buf[..], bc.buf[i].blockno, Lh();
      block[n] := bc.buf[i].blockno;
      bc.Bpin(i);
      ghost var w := v.(pinned := v.pinned + {b});
      assert b !in v.pinned by { ElementsIn(lh, b); }
      PinnedOk(was, i, dev, l, bc.disk, v);
      MirrorsChanged(was, bc.buf[..], i, dev, l, bc.disk, bc.disk, v, w);
      v := w;
      n := n + 1;
      assert Lh() == lh + [b];
      ElementsAppend(lh, b);
    }

    /**
     * log_write by operation p. False is a panic: the log is too full, or no operation is
     * active. Otherwise the block is logged, pinned on its first logging.
     */
    method LogWrite(i: nat, ghost p: nat) returns (ok: bool)
      requires Valid() && i < NBUF && bc.buf[i].dev == dev && bc.buf[i].locked && bc.buf[i].valid
      requires bc.buf[i].blockno < l.total && !l.InLog(bc.buf[i].blockno)
      requires outstanding > 0 ==> p < |ops|
      modifies this`n, this`v, this`open, this`ops, block, bc.buf
      ensures Valid()
      ensures ok <==> !Admission.TooBig(old(Admitted()), l.size) && outstanding >= 1
      ensures ok <==> outstanding >= 1 && old(n) < LOGSIZE && l.InLog(Slot(l, old(n)))
      ensures ok ==> n == old(n) + if bc.buf[i].blockno in old(Lh()) then 0 else 1
      ensures !ok ==> Admitted() == old(Admitted()) && v == old(v) && open == old(open)
      ensures ok ==> var b := bc.buf[i].blockno;
                && Admitted() == Admission.Write(old(Admitted()), p, b)
                && v == old(v).(pinned := old(v.pinned) + {b}) && open == old(open) - {b}
                && Core(bc.buf[i]) == Core(old(bc.buf[i])).(refcnt := bc.buf[i].refcnt)
      ensures forall j | 0 <= j < NBUF && j != i :: Core(bc.buf[j]) == Core(old(bc.buf[j]))
    {
      hide Threaded, Unique, Resident, BufOk, Mirrors, LogOk, Elements, Count;
      if n >= LOGSIZE || n >= l.size - 1 || outstanding < 1 {
        return false;
      }
      ghost var b := bc.buf[i].blockno;
      var k := FindLogged(bc.buf[i].blockno);
      if k == n {
        Append(i);
      } else {
        assert b in v.pinned by { ElementsIn(Lh(), b); }
        assert v.pinned + {b} == v.pinned;
      }
      ElementsIn(Lh(), b);
      ops := ops[p := ops[p] + {b}];
      open := open - {b};
      ok := true;
    }

    /** One pass of begin_op: admitted, or it has to sleep and try again. */
    method BeginOp() returns (admitted: bool)
      requires Valid()
      modifies this`outstanding, this`ops
      ensures Valid()
      ensures admitted <==> Admission.Admits(old(Admitted()))
      ensures admitted <==>
              !committing && n + Admission.Unused(Admission.NewOps(old(outstanding) + 1), MAXOPBLOCKS) <= LOGSIZE
      ensures outstanding == old(outstanding) + if admitted then 1 else 0
      ensures Admitted() == if admitted then Admission.Begin(old(Admitted())) else old(Admitted())
    {
      hide Threaded, Unique, Resident, BufOk, Mirrors, LogOk, Elements;
      Admission.AdmitsIff(Admitted());
      if committing || n + (outstanding + 1) * MAXOPBLOCKS > LOGSIZE {
        return false;
      }
      outstanding := outstanding + 1;
      ops := ops + [{}];
      admitted := true;
    }

    /**
     * end_op by operation p. The last one out commits: the current contents become
     * durable, in a sequence of disk writes any of which may be the last before a crash.
     */
    method EndOp(ghost p: nat)
      requires Valid() && p < |ops| && (|ops| == 1 ==> Quiet() && open == {})
      modifies this`n, this`v, this`outstanding, this`committing, this`ops, bc, bc.buf
      ensures Valid()
      ensures outstanding == old(outstanding) - 1 && !committing && (outstanding == 0 ==> n == 0)
      ensures var s := Admission.End(old(Admitted()), p);
              Admitted() == if s.committing then Admission.Committed(s) else s
      ensures v.cur == old(v.cur) && v.held == old(v.held) && old(bc.trace) <= bc.trace
      ensures HeldSame(old(bc.buf[..]), bc.buf[..])
      ensures if outstanding == 0 then
                SameHome(l, bc.disk, v.cur) && Atomic(l, bc.trace[|old(bc.trace)|..], old(bc.disk), v.cur)
              else
                bc.disk == old(bc.disk) && bc.trace == old(bc.trace)
    {
      hide Threaded, Unique, Resident, BufOk, Mirrors, LogOk, Elements, Atomic, SameHome, HeldSame;
      HeldSelf(bc.buf[..]);
      outstanding := outstanding - 1;
      ops := ops[..p] + ops[p + 1..];
      if outstanding == 0 {
        committing := true;
        Commit();
        committing := false;
      }
    }
  }

  /** A boot on the disk a crash left: an empty cache, then recovery. */
  method Restart(disk: Disk, dev: nat, l: Layout) returns (log: Log)
    requires LogOk(l, disk) && dev != 0 && l.size <= LOGSIZE && l.total < 0x1_0000_0000
    ensures fresh(log) && fresh(log.block) && fresh(log.bc) && fresh(log.bc.buf) && log.l == l && log.dev == dev
    ensures log.Valid() && log.n == 0 && log.outstanding == 0 && !log.committing && log.v.held == {}
    ensures log.bc.disk == Recovered(l, disk) && SameHome(l, log.v.cur, Recovered(l, disk))
    ensures [disk] <= log.bc.trace && AllYield(l, log.bc.trace, log.v.cur)
  {
    hide Threaded, Unique, Resident, BufOk, Mirrors, Recovered, RecoveryPoint, AllYield, SameHome;
    var bc := new Bcache.Binit(disk);
    log := new Log.Boot(bc, dev, l);
    SameHomeSelf(l, disk);
    log.RecoverFromLog();
    BootYields(l, disk, log.bc.trace, log.v.cur);
  }

  lemma AllBuffers(bc: Bcache)
    requires bc.Valid()
    ensures bc.buf.Length == NBUF + 1
  {
  }

  lemma SameHomeSelf(l: Layout, d: Disk)
    requires |d| == l.total
    ensures SameHome(l, d, d)
  {
  }

  /** A crash at any moment of a boot recovers to what the boot recovers. */
  lemma BootYields(l: Layout, disk: Disk, t: seq<Disk>, cur: Disk)
    requires LogOk(l, disk) && [disk] <= t && SameHome(l, cur, Recovered(l, disk))
    requires forall e | e in t[1..] :: RecoveryPoint(l, disk, e)
    ensures AllYield(l, t, cur)
  {
    hide LogOk, Recovered, RecoveryPoint;
    StartIsPoint(l, disk);
    assert t == [disk] + t[1..];
    forall e | e in t ensures Yields(l, e, cur) {
      assert e == disk || e in t[1..];
      RecoveryPointKeeps(l, disk, e);
    }
  }

  lemma StartIsPoint(l: Layout, d: Disk)
    requires LogOk(l, d)
    ensures RecoveryPoint(l, d, d)
  {
    hide LogOk, Recovered;
    InstallsNone(l, d);
  }

  /**
   * Crash atomicity: whichever disk write of a commit is the last before a crash, and
   * however often the following recoveries crash, the recovery that completes leaves
   * every home block as before the transaction or every one as after it, and an empty log.
   */
  lemma CrashAtomicity(l: Layout, t: seq<Disk>, before: Disk, after: Disk, ds: seq<Disk>)
    requires Atomic(l, t, before, after)
    requires |ds| >= 1 && ds[0] in t && LogOk(l, ds[0]) && CrashChain(l, ds)
    ensures var last := ds[|ds| - 1];
            && LogOk(l, last) && Count(l, Recovered(l, last)) == 0
            && (SameHome(l, Recovered(l, last), before) || SameHome(l, Recovered(l, last), after))
  {
    hide Recovered, LogOk;
    RepeatedCrashes(l, ds);
    var last := ds[|ds| - 1];
    RecoverAfterErase(l, last);
    var c :| 0 <= c <= |t| && AllYield(l, t[..c], before) && AllYield(l, t[c..], after);
    assert t == t[..c] + t[c..];
    assert Yields(l, ds[0], before) || Yields(l, ds[0], after);
  }
}
