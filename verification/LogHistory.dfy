/**
 * Whole runs of the file system's operations over the log, with a crash at any moment: the disk always recovers
 * to the contents at the end of some transaction.
 */
module LogHistory {
  import opened Blocks
  import opened BufferCache
  import opened Recovery
  import opened RedoLog
  import opened Params
  import opened Counting
  import Admission = LogAdmission

  /**
   * What file system code does, by any processes in any order: begin_op, bread of block b, a change of b's buffer,
   * log_write of b by operation p, brelse of b, and end_op of operation p.
   */
  datatype Call =
    | Begin
    | Read(b: nat)
    | Write(b: nat, data: Block)
    | Log(p: nat, b: nat)
    | Release(b: nat)
    | End(p: nat)

  /**
   * What the calls mean: the current contents, the blocks whose buffers are held, those of them that are changed
   * but not logged, and the contents at the end of every transaction so far.
   */
  datatype Story = Story(s: Admission.State, cur: Disk, held: set<nat>, open: set<nat>, states: seq<Disk>)

  /**
   * The call can be made now. bread waits for a buffer that is held, and needs an unused buffer unless the block is
   * logged; changes happen inside operations, to held buffers, and are logged before the buffer is released; the
   * commit waits for the buffers of logged blocks, and needs a buffer.
   */
  predicate Allowed(l: Layout, a: Story, c: Call) {
    match c
    case Begin => Admission.Admits(a.s)
    case Read(b) => b < l.total && !l.InLog(b) && b !in a.held && (b in a.s.lh || |a.held| + |a.s.lh| < NBUF)
    case Write(b, _) => b in a.held && a.s.ops != [] && b < |a.cur|
    case Log(p, b) => b in a.held && p < |a.s.ops| && !Admission.TooBig(a.s, l.size)
    case Release(b) => b in a.held && b !in a.open
    case End(p) =>
      && p < |a.s.ops|
      && (|a.s.ops| == 1 ==> a.open == {} && (forall b | b in a.held :: b !in a.s.lh) && |a.held| + |a.s.lh| < NBUF)
  }

  /** A call that cannot be made now changes nothing. */
  function Next(l: Layout, a: Story, c: Call): (r: Story)
    ensures |r.cur| == |a.cur|
  {
    if !Allowed(l, a, c) then a
    else
      match c
      case Begin => a.(s := Admission.Begin(a.s))
      case Read(b) => a.(held := a.held + {b})
      case Write(b, data) => a.(cur := a.cur[b := data], open := a.open + {b})
      case Log(p, b) => a.(s := Admission.Write(a.s, p, b), open := a.open - {b})
      case Release(b) => a.(held := a.held - {b})
      case End(p) =>
        var s := Admission.End(a.s, p);
        if s.committing then a.(s := Admission.Committed(s), states := a.states + [a.cur]) else a.(s := s)
  }

  function Told(l: Layout, a: Story, calls: seq<Call>): (r: Story)
    ensures |r.cur| == |a.cur|
  {
    if calls == [] then a else Next(l, Told(l, a, calls[..|calls| - 1]), calls[|calls| - 1])
  }

  /** The contents at the ends of the transactions of the first k calls. */
  function Past(l: Layout, a: Story, calls: seq<Call>, k: nat): (states: seq<Disk>)
    requires k <= |calls|
  {
    Told(l, a, calls[..k]).states
  }

  /** What one call writes: nothing, unless it ends a transaction, and then a commit. */
  ghost predicate Writes(l: Layout, u: seq<Disk>, before: seq<Disk>, after: seq<Disk>) {
    && before != [] && after != []
    && (after == before ==> u == [])
    && Atomic(l, u, before[|before| - 1], after[|after| - 1])
  }

  /** Between marks[k] and marks[k + 1] the k-th call wrote its disks. */
  ghost predicate Wrote(l: Layout, t: seq<Disk>, a: Story, calls: seq<Call>, marks: seq<nat>, k: nat)
    requires k < |calls| && k + 1 < |marks|
  {
    && marks[k] <= marks[k + 1] <= |t|
    && Writes(l, t[marks[k]..marks[k + 1]], Past(l, a, calls, k), Past(l, a, calls, k + 1))
  }

  /** Once k calls are done, the disk recovers to the end of the last transaction. */
  ghost predicate Durable(l: Layout, t: seq<Disk>, a: Story, calls: seq<Call>, marks: seq<nat>, k: nat)
    requires k <= |calls| && k < |marks|
  {
    var states := Past(l, a, calls, k);
    states != [] && marks[k] <= |t| && (marks[k] > 0 ==> Yields(l, t[marks[k] - 1], states[|states| - 1]))
  }

  /** t is the disks of a run of the calls, marks[k] how many there are once k calls are done. */
  ghost predicate Recorded(l: Layout, t: seq<Disk>, a: Story, calls: seq<Call>, marks: seq<nat>) {
    && |marks| == |calls| + 1 && marks[|calls|] == |t|
    && (forall k | 0 <= k < |calls| :: Wrote(l, t, a, calls, marks, k))
    && (forall k | 0 <= k <= |calls| :: Durable(l, t, a, calls, marks, k))
    && a.states != [] && marks[0] <= |t| && AllYield(l, t[..marks[0]], a.states[|a.states| - 1])
  }

  lemma AtomicFrom(l: Layout, t: seq<Disk>, d: Disk, before: Disk, after: Disk)
    requires Atomic(l, t, d, after) && SameHome(l, d, before)
    ensures Atomic(l, t, before, after)
  {
    hide Recovered, LogOk;
    var c :| 0 <= c <= |t| && AllYield(l, t[..c], d) && AllYield(l, t[c..], after);
    assert AllYield(l, t[..c], before);
  }

  lemma {:induction false} PastGrows(l: Layout, a: Story, calls: seq<Call>, i: nat, j: nat)
    requires i <= j <= |calls|
    ensures Past(l, a, calls, i) <= Past(l, a, calls, j)
    decreases j
  {
    if i < j {
      PastGrows(l, a, calls, i, j - 1);
      ToldNext(l, a, calls, j - 1);
    }
  }

  /** One more call. */
  lemma RecordedNext(l: Layout, t: seq<Disk>, u: seq<Disk>, a: Story, calls: seq<Call>, c: Call, marks: seq<nat>)
    requires Recorded(l, t, a, calls, marks) && Writes(l, u, Told(l, a, calls).states, Told(l, a, calls + [c]).states)
    requires var states := Told(l, a, calls + [c]).states;
             |t + u| > 0 ==> Yields(l, (t + u)[|t + u| - 1], states[|states| - 1])
    ensures Recorded(l, t + u, a, calls + [c], marks + [|t + u|])
  {
    hide Told, Writes, Yields, AllYield;
    var n, all, cs, ms := |calls|, t + u, calls + [c], marks + [|t + u|];
    assert calls[..n] == calls && cs[..n + 1] == cs;
    assert forall k | 0 <= k <= n :: cs[..k] == calls[..k];
    assert all[..ms[0]] == t[..marks[0]];
    forall k | 0 <= k < |cs| ensures Wrote(l, all, a, cs, ms, k) {
      if k < n {
        assert Wrote(l, t, a, calls, marks, k);
        assert all[ms[k]..ms[k + 1]] == t[marks[k]..marks[k + 1]];
      } else {
        assert all[|t|..|all|] == u;
      }
    }
    assert Writes(l, u, Told(l, a, calls).states, Told(l, a, cs).states);
    forall k | 0 <= k <= |cs| ensures Durable(l, all, a, cs, ms, k) {
      if k <= n {
        assert Durable(l, t, a, calls, marks, k);
      } else {
        WritesSome(l, u, Told(l, a, calls).states, Told(l, a, cs).states);
      }
    }
  }

  lemma WritesSome(l: Layout, u: seq<Disk>, before: seq<Disk>, after: seq<Disk>)
    requires Writes(l, u, before, after)
    ensures after != []
  {
  }

  /** Disk p was on the platter at some moment after i calls were done, and before j were. */
  predicate During(marks: seq<nat>, i: nat, j: nat, p: nat) {
    i <= j < |marks| && (i == 0 || marks[i] <= p + 1) && p < marks[j]
  }

  /** after[k] is the last of before, or a later one. */
  predicate Among(before: seq<Disk>, after: seq<Disk>, k: nat) {
    |before| <= k + 1 && k < |after|
  }

  /** d has the home blocks of the end of a transaction that is among the first j calls, but not lost to the first i. */
  ghost predicate Within(l: Layout, a: Story, calls: seq<Call>, i: nat, j: nat, d: Disk)
    requires i <= j <= |calls|
  {
    exists k: nat :: Among(Past(l, a, calls, i), Past(l, a, calls, j), k) && SameHome(l, d, Past(l, a, calls, j)[k])
  }

  /**
   * Durability and order: a disk that was on the platter after i calls recovers to no transaction before the last one
   * ended by then, and one from before the j-th call to none that ended later.
   */
  lemma {:induction false} Recovers(l: Layout, t: seq<Disk>, a: Story, calls: seq<Call>, marks: seq<nat>, i: nat,
                                    j: nat, p: nat)
    requires Recorded(l, t, a, calls, marks) && During(marks, i, j, p) && p < |t|
    ensures LogOk(l, t[p]) && Within(l, a, calls, i, j, Recovered(l, t[p]))
    decreases j
  {
    hide Told, SameHome, Recovered, LogOk, Atomic;
    PastGrows(l, a, calls, i, j);
    assert Durable(l, t, a, calls, marks, i) && Durable(l, t, a, calls, marks, j);
    var was := Past(l, a, calls, i);
    if marks[i] == p + 1 {
      assert Past(l, a, calls, j)[|was| - 1] == was[|was| - 1] && Among(was, Past(l, a, calls, j), |was| - 1);
    } else if p < marks[i] {
      RecoversFirst(l, t, a, calls, marks, p);
      assert Past(l, a, calls, j)[|was| - 1] == was[|was| - 1] && Among(was, Past(l, a, calls, j), |was| - 1);
    } else if p < marks[j - 1] {
      Recovers(l, t, a, calls, marks, i, j - 1, p);
      WithinMore(l, a, calls, i, j - 1, j, Recovered(l, t[p]));
    } else {
      RecoversCommit(l, t, a, calls, marks, j - 1, p);
      PastGrows(l, a, calls, i, j - 1);
      WithinLess(l, a, calls, i, j - 1, j, Recovered(l, t[p]));
    }
  }

  /** Before the first call. */
  lemma RecoversFirst(l: Layout, t: seq<Disk>, a: Story, calls: seq<Call>, marks: seq<nat>, p: nat)
    requires Recorded(l, t, a, calls, marks) && p < |t| && p < marks[0]
    ensures Yields(l, t[p], a.states[|a.states| - 1]) && Past(l, a, calls, 0) == a.states
  {
    assert t[..marks[0]][p] == t[p];
    assert calls[..0] == [];
  }

  /** During a call. */
  lemma RecoversCommit(l: Layout, t: seq<Disk>, a: Story, calls: seq<Call>, marks: seq<nat>, k: nat, p: nat)
    requires Recorded(l, t, a, calls, marks) && k < |calls| && marks[k] <= p < marks[k + 1] && p < |t|
    ensures LogOk(l, t[p]) && Within(l, a, calls, k, k + 1, Recovered(l, t[p]))
  {
    hide Told, SameHome, Recovered, LogOk;
    assert Wrote(l, t, a, calls, marks, k);
    PastGrows(l, a, calls, k, k + 1);
    var u, x, y := t[marks[k]..marks[k + 1]], Past(l, a, calls, k), Past(l, a, calls, k + 1);
    var c :| 0 <= c <= |u| && AllYield(l, u[..c], x[|x| - 1]) && AllYield(l, u[c..], y[|y| - 1]);
    var q := p - marks[k];
    assert u[q] == t[p];
    if q < c {
      assert u[..c][q] == t[p];
      assert Yields(l, t[p], x[|x| - 1]) && y[|x| - 1] == x[|x| - 1] && Among(x, y, |x| - 1);
    } else {
      assert u[c..][q - c] == t[p];
      assert Yields(l, t[p], y[|y| - 1]) && Among(x, y, |y| - 1);
    }
  }

  lemma WithinMore(l: Layout, a: Story, calls: seq<Call>, i: nat, j: nat, m: nat, d: Disk)
    requires i <= j <= m <= |calls| && Within(l, a, calls, i, j, d)
    ensures Within(l, a, calls, i, m, d)
  {
    hide Told, SameHome;
    PastGrows(l, a, calls, j, m);
    var k: nat :| Among(Past(l, a, calls, i), Past(l, a, calls, j), k) && SameHome(l, d, Past(l, a, calls, j)[k]);
    assert Past(l, a, calls, m)[k] == Past(l, a, calls, j)[k];
    assert Among(Past(l, a, calls, i), Past(l, a, calls, m), k);
  }

  lemma WithinLess(l: Layout, a: Story, calls: seq<Call>, i: nat, j: nat, m: nat, d: Disk)
    requires i <= j <= m <= |calls| && Within(l, a, calls, j, m, d)
    ensures Within(l, a, calls, i, m, d)
  {
    hide Told, SameHome;
    PastGrows(l, a, calls, i, j);
    var k: nat :| Among(Past(l, a, calls, j), Past(l, a, calls, m), k) && SameHome(l, d, Past(l, a, calls, m)[k]);
    assert Among(Past(l, a, calls, i), Past(l, a, calls, m), k);
  }

  /**
   * Crash consistency: a crash after any disk write of any run, and any number of further crashes inside
   * recovery, end with an empty log and the home blocks as they were at the end of some transaction: one that had
   * ended by the crash, and none before the last that had ended when the disk was written.
   */
  lemma CrashConsistency(l: Layout, t: seq<Disk>, a: Story, calls: seq<Call>, marks: seq<nat>, i: nat, j: nat, p: nat,
                         ds: seq<Disk>)
    requires Recorded(l, t, a, calls, marks) && During(marks, i, j, p) && p < |t|
    requires |ds| >= 1 && ds[0] == t[p] && LogOk(l, ds[0]) && CrashChain(l, ds)
    ensures var last := ds[|ds| - 1];
            && LogOk(l, last) && Count(l, Recovered(l, last)) == 0
            && Within(l, a, calls, i, j, Recovered(l, last))
  {
    hide Recovered, LogOk, Recorded, SameHome;
    RepeatedCrashes(l, ds);
    RecoverAfterErase(l, ds[|ds| - 1]);
    Recovers(l, t, a, calls, marks, i, j, p);
  }

  /** The log at rest: no operation is active, nothing is logged and no buffer is held. */
  ghost predicate Idle(log: Log)
    reads log, log.block, log.bc, log.bc.buf
  {
    log.Valid() && log.v.held == {} && log.outstanding == 0 && !log.committing && log.n == 0
  }

  lemma IdleNow(log: Log)
    requires log.Valid() && log.v.held == {} && log.outstanding == 0 && !log.committing && log.n == 0
    ensures Idle(log)
  {
  }

  /** The story of a log at rest. */
  function Rest(cur: Disk): (a: Story) { Story(Admission.Boot, cur, {}, {}, [cur]) }

  /** Buffer i is the locked buffer of block b and holds its newest contents. */
  predicate IsBuffer(buf: seq<Buf>, dev: nat, cur: Disk, b: nat, i: nat) {
    && i < NBUF < |buf| && Holds(buf[i], dev, b) && buf[i].locked && buf[i].valid
    && b < |cur| && buf[i].data == cur[b]
  }

  /** bufs has the buffer of every held block. */
  ghost predicate Buffers(buf: seq<Buf>, dev: nat, cur: Disk, held: set<nat>, bufs: map<nat, nat>) {
    bufs.Keys == held && forall b | b in bufs :: IsBuffer(buf, dev, cur, b, bufs[b])
  }

  /** The log agrees with what the calls mean, and the disk holds the last transaction. */
  ghost predicate Follows(log: Log, a: Story)
    reads log, log.block, log.bc, log.bc.buf
  {
    && log.Valid() && !log.committing && log.Admitted() == a.s && log.v.cur == a.cur && log.v.held == a.held
    && log.open == a.open && (forall b | b in a.held :: b < log.l.total && !log.l.InLog(b))
    && a.states != [] && SameHome(log.l, log.bc.disk, a.states[|a.states| - 1])
  }

  lemma IdleFollows(log: Log)
    requires Idle(log)
    ensures Follows(log, Rest(log.v.cur)) && InHands(log, Rest(log.v.cur), Hands(map[], {}))
  {
    hide Mirrors, Threaded, Unique, LogOk;
    PinnedFew(log.Lh());
  }

  /** What a valid log promises about its counters. */
  lemma Counters(log: Log)
    requires log.Valid()
    ensures log.n <= log.block.Length == LOGSIZE && log.n < log.l.size <= LOGSIZE && |log.ops| == log.outstanding
    ensures log.v.pinned == Elements(log.Lh()) && |log.v.pinned| <= log.n && |log.v.cur| == log.l.total
    ensures |log.v.held + log.v.pinned| <= |log.v.held| + log.n && log.bc.buf.Length == NBUF + 1
  {
    hide Mirrors, Threaded, Unique, LogOk, Elements;
    PinnedFew(log.Lh());
    Both(log.v.held, log.v.pinned);
  }

  lemma Both(a: set<nat>, b: set<nat>)
    ensures |a + b| <= |a| + |b|
  {
    assert a + b == a + (b - a);
    Smaller(b - a, b);
  }

  /** What happens to one buffer leaves the others. */
  lemma BuffersBut(x: seq<Buf>, y: seq<Buf>, dev: nat, cur: Disk, now: Disk, held: set<nat>, bufs: map<nat, nat>,
                   b: nat, i: nat)
    requires Buffers(x, dev, cur, held, bufs) && |y| == |x| == NBUF + 1 && |now| == |cur| && i < NBUF
    requires forall j | 0 <= j < NBUF && j != i :: Core(y[j]) == Core(x[j])
    requires forall c: nat | c < |cur| && c != b :: now[c] == cur[c]
    requires (x[i].locked && Holds(x[i], dev, b)) || !x[i].locked
    ensures Buffers(y, dev, now, held - {b}, bufs - {b})
    ensures IsBuffer(y, dev, now, b, i) ==> Buffers(y, dev, now, held + {b}, bufs[b := i])
  {
    forall c | c in bufs && c != b ensures IsBuffer(y, dev, now, c, bufs[c]) {
      assert IsBuffer(x, dev, cur, c, bufs[c]);
      assert Core(y[bufs[c]]) == Core(x[bufs[c]]);
    }
  }

  lemma BuffersHeld(x: seq<Buf>, y: seq<Buf>, dev: nat, cur: Disk, held: set<nat>, bufs: map<nat, nat>)
    requires Buffers(x, dev, cur, held, bufs) && HeldSame(x, y)
    ensures Buffers(y, dev, cur, held, bufs)
  {
    forall b | b in bufs ensures IsBuffer(y, dev, cur, b, bufs[b]) {
      assert IsBuffer(x, dev, cur, b, bufs[b]);
      assert Core(y[bufs[b]]) == Core(x[bufs[b]]);
    }
  }

  /** The buffers that callers hold, and the blocks they have changed but not logged. */
  datatype Hands = Hands(bufs: map<nat, nat>, open: set<nat>)

  ghost predicate InHands(log: Log, a: Story, h: Hands)
    reads log.bc, log.bc.buf
  {
    h.open == a.open && Buffers(log.bc.buf[..], log.dev, a.cur, a.held, h.bufs)
  }

  /**
   * Any run of calls from rest, with h what callers hold at its end. The disks written since the moment from, when
   * the disk already recovered to the contents at rest, are recorded call by call.
   */
  method Run(log: Log, calls: seq<Call>, ghost from: nat) returns (h: Hands, ghost a: Story, ghost marks: seq<nat>)
    requires Idle(log) && from <= |log.bc.trace| && AllYield(log.l, log.bc.trace[from..], log.v.cur)
    modifies log, log.block, log.bc, log.bc.buf
    ensures a == Told(log.l, Rest(old(log.v.cur)), calls) && Follows(log, a) && InHands(log, a, h)
    ensures old(log.bc.trace) <= log.bc.trace && |marks| == |calls| + 1 && from + marks[0] == |old(log.bc.trace)|
    ensures Recorded(log.l, log.bc.trace[from..], Rest(old(log.v.cur)), calls, marks)
  {
    hide Log.Valid, SameHome, Recorded, Next, Follows, Told, InHands, AllYield, Yields;
    ghost var first := Rest(log.v.cur);
    a, h, marks := first, Hands(map[], {}), [|log.bc.trace| - from];
    IdleFollows(log);
    NothingYet(log.l, first, log.bc.trace[from..]);
    assert calls[..0] == [];
    for k := 0 to |calls|
      invariant Follows(log, a) && InHands(log, a, h) && a == Told(log.l, first, calls[..k])
      invariant old(log.bc.trace) <= log.bc.trace && |marks| == k + 1 && from + marks[0] == |old(log.bc.trace)|
      invariant Recorded(log.l, log.bc.trace[from..], first, calls[..k], marks)
    {
      ToldNext(log.l, first, calls, k);
      assert calls[..k + 1] == calls[..k] + [calls[k]];
      h, marks := DoNext(log, first, calls[..k], calls[k], h, marks, from);
      a := Next(log.l, a, calls[k]);
    }
    assert calls[..|calls|] == calls;
  }

  /** A call after those of done, and what it adds to the record. */
  method DoNext(log: Log, ghost first: Story, ghost done: seq<Call>, c: Call, h: Hands, ghost marks: seq<nat>,
                ghost from: nat)
    returns (r: Hands, ghost more: seq<nat>)
    requires Follows(log, Told(log.l, first, done)) && InHands(log, Told(log.l, first, done), h)
    requires from <= |log.bc.trace| && Recorded(log.l, log.bc.trace[from..], first, done, marks)
    requires Told(log.l, first, done + [c]) == Next(log.l, Told(log.l, first, done), c)
    modifies log, log.block, log.bc, log.bc.buf
    ensures Follows(log, Told(log.l, first, done + [c])) && InHands(log, Told(log.l, first, done + [c]), r)
    ensures old(log.bc.trace) <= log.bc.trace && more == marks + [|log.bc.trace| - from]
    ensures Recorded(log.l, log.bc.trace[from..], first, done + [c], more)
  {
    hide Log.Valid, SameHome, Recorded, Next, Follows, Told, InHands, AllYield, Writes, Yields;
    ghost var t := log.bc.trace;
    r := Do(log, c, h, Told(log.l, first, done));
    LastYields(log, Told(log.l, first, done + [c]));
    ghost var u := log.bc.trace[|t|..];
    assert log.bc.trace[from..] == t[from..] + u;
    RecordedNext(log.l, t[from..], u, first, done, c, marks);
    more := marks + [|log.bc.trace| - from];
  }

  /** Between calls the disk recovers to the end of the last transaction. */
  lemma LastYields(log: Log, a: Story)
    requires Follows(log, a)
    ensures a.states != [] && log.bc.trace != []
    ensures Yields(log.l, log.bc.trace[|log.bc.trace| - 1], a.states[|a.states| - 1])
  {
    hide Log.Valid, LogOk, Recovered, Count;
    EmptyHead(log);
    SameHomeSelf(log.l, log.bc.disk);
    BeforeHead(log.l, log.bc.disk, log.bc.disk);
  }

  lemma EmptyHead(log: Log)
    requires log.Valid()
    ensures LogOk(log.l, log.bc.disk) && Count(log.l, log.bc.disk) == 0 && |log.bc.disk| == log.l.total
    ensures log.bc.trace != [] && log.bc.trace[|log.bc.trace| - 1] == log.bc.disk
  {
    hide Mirrors, Threaded, Unique, LogOk, Count;
  }

  lemma NothingYet(l: Layout, a: Story, t: seq<Disk>)
    requires |a.states| == 1 && AllYield(l, t, a.states[0])
    ensures Recorded(l, t, a, [], [|t|]) && Told(l, a, []) == a
  {
    assert t[..|t|] == t;
    assert Past(l, a, [], 0) == a.states;
  }

  lemma ToldNext(l: Layout, a: Story, calls: seq<Call>, k: nat)
    requires k < |calls|
    ensures Told(l, a, calls[..k + 1]) == Next(l, Told(l, a, calls[..k]), calls[k])
  {
    assert calls[..k + 1][..k] == calls[..k];
  }

  /** One call, if it can be made now. */
  method Do(log: Log, c: Call, h: Hands, ghost a: Story) returns (r: Hands)
    requires Follows(log, a) && InHands(log, a, h)
    modifies log, log.block, log.bc, log.bc.buf
    ensures Follows(log, Next(log.l, a, c)) && InHands(log, Next(log.l, a, c), r)
    ensures old(log.bc.trace) <= log.bc.trace
    ensures Writes(log.l, log.bc.trace[|old(log.bc.trace)|..], a.states, Next(log.l, a, c).states)
  {
    hide Log.Valid, SameHome, Writes, Buffers, IsBuffer, Elements;
    WritesNone(log.l, a.states);
    assert log.bc.trace[|log.bc.trace|..] == [];
    Counters(log);
    r := h;
    HeldKeys(log.bc.buf[..], log.dev, a.cur, a.held, h.bufs);
    match c {
      case Begin =>
        var admitted := log.BeginOp();
        Counters(log);
      case Read(b) =>
        if b < log.l.total && !log.l.InLog(b) && b !in h.bufs {
          var k := log.FindLogged(b);
          if k < log.n || |h.bufs| + log.n < NBUF { r := DoRead(log, b, h, a); }
        }
      case Write(b, data) =>
        if b in h.bufs && log.outstanding > 0 { r := DoWrite(log, b, data, h, a); }
      case Log(p, b) =>
        if b in h.bufs && p < log.outstanding && log.n < LOGSIZE && log.n < log.l.size - 1 {
          r := DoLog(log, p, b, h, a);
        }
      case Release(b) =>
        if b in h.bufs && b !in h.open { r := DoRelease(log, b, h, a); }
      case End(p) =>
        if p < log.outstanding {
          if log.outstanding == 1 {
            if h.open != {} || |h.bufs| + log.n >= NBUF || exists b | b in h.bufs :: b in log.block[..log.n] { return; }
          }
          DoEnd(log, p, h, a);
        }
    }
  }

  lemma HeldKeys(buf: seq<Buf>, dev: nat, cur: Disk, held: set<nat>, bufs: map<nat, nat>)
    requires Buffers(buf, dev, cur, held, bufs)
    ensures bufs.Keys == held && |bufs| == |held|
  {
    assert |bufs.Keys| == |bufs|;
  }

  lemma BufferOf(buf: seq<Buf>, dev: nat, cur: Disk, held: set<nat>, bufs: map<nat, nat>, b: nat)
    requires Buffers(buf, dev, cur, held, bufs) && b in bufs
    ensures b in held && IsBuffer(buf, dev, cur, b, bufs[b])
  {
  }

  /** bread of a home block. */
  method DoRead(log: Log, b: nat, h: Hands, ghost a: Story) returns (r: Hands)
    requires Follows(log, a) && InHands(log, a, h) && Allowed(log.l, a, Read(b))
    modifies log`v, log.bc.buf
    ensures Follows(log, Next(log.l, a, Read(b))) && InHands(log, Next(log.l, a, Read(b)), r)
  {
    hide Log.Valid, SameHome, Buffers, Elements;
    Counters(log);
    ElementsIn(log.Lh(), b);
    ghost var was := log.bc.buf[..];
    var i := log.Read(b);
    Counters(log);
    BuffersBut(was, log.bc.buf[..], log.dev, a.cur, a.cur, a.held, h.bufs, b, i);
    r := h.(bufs := h.bufs[b := i]);
  }

  /** A change of the data in a held buffer. */
  method DoWrite(log: Log, b: nat, data: Block, h: Hands, ghost a: Story) returns (r: Hands)
    requires Follows(log, a) && InHands(log, a, h) && Allowed(log.l, a, Write(b, data)) && b in h.bufs
    modifies log`v, log`open, log.bc.buf
    ensures Follows(log, Next(log.l, a, Write(b, data))) && InHands(log, Next(log.l, a, Write(b, data)), r)
  {
    hide Log.Valid, SameHome, Buffers, Elements;
    Counters(log);
    BufferOf(log.bc.buf[..], log.dev, a.cur, a.held, h.bufs, b);
    ghost var was := log.bc.buf[..];
    var i := h.bufs[b];
    log.Modify(i, data);
    Counters(log);
    BuffersBut(was, log.bc.buf[..], log.dev, a.cur, a.cur[b := data], a.held, h.bufs, b, i);
    assert a.held + {b} == a.held && h.bufs[b := i] == h.bufs;
    r := h.(open := h.open + {b});
  }

  /** log_write of a held buffer. */
  method DoLog(log: Log, p: nat, b: nat, h: Hands, ghost a: Story) returns (r: Hands)
    requires Follows(log, a) && InHands(log, a, h) && Allowed(log.l, a, Log(p, b)) && b in h.bufs
    modifies log`n, log`v, log`open, log`ops, log.block, log.bc.buf
    ensures Follows(log, Next(log.l, a, Log(p, b))) && InHands(log, Next(log.l, a, Log(p, b)), r)
  {
    hide Log.Valid, SameHome, Buffers, Elements;
    Counters(log);
    BufferOf(log.bc.buf[..], log.dev, a.cur, a.held, h.bufs, b);
    ghost var was := log.bc.buf[..];
    var i := h.bufs[b];
    var ok := log.LogWrite(i, p);
    Counters(log);
    BuffersBut(was, log.bc.buf[..], log.dev, a.cur, a.cur, a.held, h.bufs, b, i);
    assert a.held + {b} == a.held && h.bufs[b := i] == h.bufs;
    r := h.(open := h.open - {b});
  }

  /** brelse of a held buffer. */
  method DoRelease(log: Log, b: nat, h: Hands, ghost a: Story) returns (r: Hands)
    requires Follows(log, a) && InHands(log, a, h) && Allowed(log.l, a, Release(b)) && b in h.bufs
    modifies log`v, log.bc`order, log.bc.buf
    ensures Follows(log, Next(log.l, a, Release(b))) && InHands(log, Next(log.l, a, Release(b)), r)
  {
    hide Log.Valid, SameHome, Buffers, Elements;
    Counters(log);
    BufferOf(log.bc.buf[..], log.dev, a.cur, a.held, h.bufs, b);
    ghost var was := log.bc.buf[..];
    var i := h.bufs[b];
    log.Put(i);
    Counters(log);
    BuffersBut(was, log.bc.buf[..], log.dev, a.cur, a.cur, a.held, h.bufs, b, i);
    r := h.(bufs := h.bufs - {b});
  }

  /** end_op, which commits when it is the last. */
  method DoEnd(log: Log, p: nat, h: Hands, ghost a: Story)
    requires Follows(log, a) && InHands(log, a, h) && Allowed(log.l, a, End(p))
    modifies log, log.block, log.bc, log.bc.buf
    ensures Follows(log, Next(log.l, a, End(p))) && InHands(log, Next(log.l, a, End(p)), h)
    ensures old(log.bc.trace) <= log.bc.trace
    ensures Writes(log.l, log.bc.trace[|old(log.bc.trace)|..], a.states, Next(log.l, a, End(p)).states)
  {
    hide Log.Valid, SameHome, Atomic, Buffers, Elements, HeldSame, Writes;
    Counters(log);
    ghost var d, was, x := log.bc.disk, log.bc.trace, log.bc.buf[..];
    log.EndOp(p);
    Counters(log);
    BuffersHeld(x, log.bc.buf[..], log.dev, a.cur, a.held, h.bufs);
    if log.outstanding == 0 {
      WritesCommit(log.l, log.bc.trace[|was|..], d, a.states, a.cur);
    } else {
      assert log.bc.trace[|was|..] == [];
      WritesNone(log.l, a.states);
    }
  }

  lemma WritesCommit(l: Layout, u: seq<Disk>, d: Disk, states: seq<Disk>, cur: Disk)
    requires states != [] && SameHome(l, d, states[|states| - 1]) && Atomic(l, u, d, cur)
    ensures Writes(l, u, states, states + [cur])
  {
    hide Atomic, SameHome;
    AtomicFrom(l, u, d, states[|states| - 1], cur);
  }

  lemma WritesNone(l: Layout, states: seq<Disk>)
    requires states != []
    ensures Writes(l, [], states, states)
  {
    AtomicNone(l, [], states[|states| - 1], states[|states| - 1]);
  }

  // ---- a transaction as file system code makes it ----

  /** bread, a change, log_write and brelse of one block, by the first operation. */
  function Update(b: nat, data: Block): (calls: seq<Call>) { [Read(b), Write(b, data), Log(0, b), Release(b)] }

  function Updates(us: seq<(nat, Block)>): (calls: seq<Call>) {
    if us == [] then [] else Updates(us[..|us| - 1]) + Update(us[|us| - 1].0, us[|us| - 1].1)
  }

  function Changed(d: Disk, us: seq<(nat, Block)>): (e: Disk)
    ensures |e| == |d|
  {
    if us == [] then d else
      var e := Changed(d, us[..|us| - 1]);
      if us[|us| - 1].0 < |e| then e[us[|us| - 1].0 := us[|us| - 1].1] else e
  }

  /** One operation is active, with k blocks logged at most, and no buffer held. */
  ghost predicate Between(a: Story, cur: Disk, states: seq<Disk>, k: nat) {
    && a.cur == cur && a.states == states && a.held == {} && a.open == {} && !a.s.committing
    && |a.s.ops| == 1 && |a.s.lh| <= k
  }

  lemma {:induction false} ToldTwice(l: Layout, a: Story, x: seq<Call>, y: seq<Call>)
    ensures Told(l, a, x + y) == Told(l, Told(l, a, x), y)
    decreases |y|
  {
    if y == [] {
      assert x + y == x;
    } else {
      var all := x + y;
      assert all[..|all| - 1] == x + y[..|y| - 1];
      ToldTwice(l, a, x, y[..|y| - 1]);
    }
  }

  lemma ToldOne(l: Layout, a: Story, c: Call)
    ensures Told(l, a, [c]) == Next(l, a, c)
  {
    assert [c][..0] == [];
  }

  lemma ToldFour(l: Layout, a: Story, w: Call, x: Call, y: Call, z: Call)
    ensures Told(l, a, [w, x, y, z]) == Next(l, Next(l, Next(l, Next(l, a, w), x), y), z)
  {
    hide Next;
    ToldTwice(l, a, [w, x, y], [z]);
    ToldTwice(l, a, [w, x], [y]);
    ToldTwice(l, a, [w], [x]);
    ToldOne(l, a, w);
    ToldOne(l, Next(l, a, w), x);
    ToldOne(l, Next(l, Next(l, a, w), x), y);
    ToldOne(l, Next(l, Next(l, Next(l, a, w), x), y), z);
    assert [w] + [x] == [w, x] && [w, x] + [y] == [w, x, y] && [w, x, y] + [z] == [w, x, y, z];
  }

  lemma UpdateDone(l: Layout, a: Story, states: seq<Disk>, k: nat, b: nat, data: Block)
    requires Between(a, a.cur, states, k) && b < l.total == |a.cur| && !l.InLog(b) && k < LOGSIZE && k < l.size - 1
    ensures Between(Told(l, a, Update(b, data)), a.cur[b := data], states, k + 1)
  {
    ToldFour(l, a, Read(b), Write(b, data), Log(0, b), Release(b));
    hide Told;
    var x := Next(l, a, Read(b));
    assert x == a.(held := {b});
    var y := Next(l, x, Write(b, data));
    assert y == x.(cur := a.cur[b := data], open := {b});
    var z := Next(l, y, Log(0, b));
    assert z.held == {b} && z.open == {} && |z.s.lh| <= k + 1 && |z.s.ops| == 1 && !z.s.committing;
  }

  lemma {:induction false} UpdatesDone(l: Layout, a: Story, states: seq<Disk>, us: seq<(nat, Block)>)
    requires Between(a, a.cur, states, 0) && |a.cur| == l.total && |us| <= LOGSIZE && |us| <= l.size - 1
    requires forall i | 0 <= i < |us| :: us[i].0 < l.total && !l.InLog(us[i].0)
    ensures Between(Told(l, a, Updates(us)), Changed(a.cur, us), states, |us|)
    decreases |us|
  {
    hide Update, Next;
    if us != [] {
      var init, u := us[..|us| - 1], us[|us| - 1];
      UpdatesDone(l, a, states, init);
      ToldTwice(l, a, Updates(init), Update(u.0, u.1));
      UpdateDone(l, Told(l, a, Updates(init)), states, |init|, u.0, u.1);
    }
  }

  /**
   * An operation on an idle log that updates fewer home blocks than the log has slots and the cache has buffers goes
   * through: exactly one transaction ends, with exactly those updates.
   */
  lemma UpdatesCommit(l: Layout, cur: Disk, us: seq<(nat, Block)>)
    requires |cur| == l.total && |us| < NBUF && |us| <= LOGSIZE && |us| <= l.size - 1
    requires forall i | 0 <= i < |us| :: us[i].0 < l.total && !l.InLog(us[i].0)
    ensures var a := Told(l, Rest(cur), [Begin] + Updates(us) + [End(0)]);
            && a.states == [cur, Changed(cur, us)] && a.cur == Changed(cur, us) && a.held == {}
            && a.s == Admission.Boot
  {
    var first := Rest(cur);
    ToldTwice(l, first, [Begin] + Updates(us), [End(0)]);
    ToldTwice(l, first, [Begin], Updates(us));
    ToldOne(l, first, Begin);
    var a := Next(l, first, Begin);
    assert Between(a, cur, [cur], 0);
    UpdatesDone(l, a, [cur], us);
    var b := Told(l, a, Updates(us));
    ToldOne(l, b, End(0));
    hide Told, Updates, Changed;
    assert b.s.ops[..0] + b.s.ops[1..] == [];
  }

  // ---- boot after boot ----

  /** One boot: some calls, then a crash that leaves the given disk. */
  datatype Life = Life(calls: seq<Call>, left: Disk)

  /**
   * If the crash left a disk that was on the platter between the ends of calls i and j, then cur has the home blocks
   * of the end of a transaction: one that ended by then, and none before the last that had ended when it was written.
   */
  ghost predicate Survives(l: Layout, t: seq<Disk>, a: Story, life: Life, marks: seq<nat>, cur: Disk)
    requires |marks| == |life.calls| + 1
  {
    forall i: nat, j: nat, p: nat | During(marks, i, j, p) && p < |t| && t[p] == life.left ::
      Within(l, a, life.calls, i, j, cur)
  }

  /** One life: the calls, and, if the crash leaves a disk with a usable log, the next boot. */
  method Reboot(log: Log, life: Life) returns (ok: bool, next: Log, ghost marks: seq<nat>)
    requires Idle(log) && AllYield(log.l, log.bc.trace, log.v.cur)
    modifies log, log.block, log.bc, log.bc.buf
    ensures Follows(log, Told(log.l, Rest(old(log.v.cur)), life.calls))
    ensures old(log.bc.trace) <= log.bc.trace && |marks| == |life.calls| + 1 && marks[0] == |old(log.bc.trace)|
    ensures Recorded(log.l, log.bc.trace, Rest(old(log.v.cur)), life.calls, marks)
    ensures (ok <==> LogOk(log.l, life.left)) && (life.left in log.bc.trace ==> ok)
    ensures ok ==> fresh(next) && fresh(next.block) && fresh(next.bc) && fresh(next.bc.buf)
    ensures ok ==> Idle(next) && next.l == log.l && AllYield(next.l, next.bc.trace, next.v.cur)
    ensures ok ==> [life.left] <= next.bc.trace && SameHome(next.l, next.v.cur, Recovered(next.l, life.left))
    ensures ok ==> Survives(log.l, log.bc.trace, Rest(old(log.v.cur)), life, marks, next.v.cur)
  {
    hide Log.Valid, SameHome, Recorded, Follows, Told, Buffers, Recovered, AllYield, Survives, LogOk;
    Sizes(log);
    assert log.bc.trace[0..] == log.bc.trace;
    var h;
    ghost var a;
    ghost var first := Rest(log.v.cur);
    h, a, marks := Run(log, life.calls, 0);
    assert log.bc.trace[0..] == log.bc.trace;
    Marked(log.l, log.bc.trace, first, life.calls, marks);
    next, ok := log, LogOk(log.l, life.left);
    if life.left in log.bc.trace { LeftUsable(log.l, log.bc.trace, first, life, marks); }
    if ok {
      next := Restart(life.left, log.dev, log.l);
      Survived(log.l, log.bc.trace, first, life, marks, next.v.cur);
    }
  }

  lemma Sizes(log: Log)
    requires log.Valid()
    ensures log.dev != 0 && log.l.size <= LOGSIZE && log.l.total < 0x1_0000_0000
  {
  }

  lemma Marked(l: Layout, t: seq<Disk>, a: Story, calls: seq<Call>, marks: seq<nat>)
    requires Recorded(l, t, a, calls, marks)
    ensures |marks| == |calls| + 1 && marks[|calls|] == |t|
  {
  }

  lemma LeftUsable(l: Layout, t: seq<Disk>, a: Story, life: Life, marks: seq<nat>)
    requires Recorded(l, t, a, life.calls, marks) && life.left in t
    ensures LogOk(l, life.left)
  {
    hide Recorded, LogOk;
    Marked(l, t, a, life.calls, marks);
    var p :| 0 <= p < |t| && t[p] == life.left;
    Recovers(l, t, a, life.calls, marks, 0, |life.calls|, p);
  }

  lemma Survived(l: Layout, t: seq<Disk>, a: Story, life: Life, marks: seq<nat>, cur: Disk)
    requires Recorded(l, t, a, life.calls, marks) && |marks| == |life.calls| + 1
    requires LogOk(l, life.left) && SameHome(l, cur, Recovered(l, life.left))
    ensures Survives(l, t, a, life, marks, cur)
  {
    hide Recorded, Recovered, LogOk, Told;
    forall i: nat, j: nat, p: nat | During(marks, i, j, p) && p < |t| && t[p] == life.left
      ensures Within(l, a, life.calls, i, j, cur)
    {
      Recovers(l, t, a, life.calls, marks, i, j, p);
    }
  }

  /** A log that was booted and used, what the boot found on the disk, and how many disks there were after each call. */
  datatype Era = Era(log: Log, cur: Disk, marks: seq<nat>)

  /** The boot was on the disk given, found what recovering it yields, and the calls of this life followed. */
  ghost predicate Lived(e: Era, l: Layout, disk: Disk, life: Life)
    reads e.log, e.log.block, e.log.bc, e.log.bc.buf
  {
    && e.log.l == l && [disk] <= e.log.bc.trace && LogOk(l, disk) && SameHome(l, e.cur, Recovered(l, disk))
    && Follows(e.log, Told(l, Rest(e.cur), life.calls))
    && Recorded(l, e.log.bc.trace, Rest(e.cur), life.calls, e.marks)
  }

  lemma LivedNow(e: Era, l: Layout, disk: Disk, life: Life)
    requires e.log.l == l && [disk] <= e.log.bc.trace && LogOk(l, disk) && SameHome(l, e.cur, Recovered(l, disk))
    requires Follows(e.log, Told(l, Rest(e.cur), life.calls))
    requires Recorded(l, e.log.bc.trace, Rest(e.cur), life.calls, e.marks)
    ensures Lived(e, l, disk, life)
  {
  }

  /** The disk that boot k finds. */
  function Found(disk: Disk, lives: seq<Life>, k: nat): (d: Disk)
    requires k <= |lives|
  {
    if k == 0 then disk else lives[k - 1].left
  }

  /** What life e hands on to the next, whose boot finds cur. */
  ghost predicate Handed(e: Era, l: Layout, life: Life, cur: Disk)
    reads e.log, e.log.bc
  {
    && |e.marks| == |life.calls| + 1
    && Survives(l, e.log.bc.trace, Rest(e.cur), life, e.marks, cur)
  }

  /** The disk of any moment of life e could be booted. */
  ghost predicate Usable(e: Era, l: Layout, life: Life)
    reads e.log, e.log.bc
  {
    life.left in e.log.bc.trace ==> LogOk(l, life.left)
  }

  /** The lives from a boot on, if there is one to come. */
  method Lives(log: Log, ghost disk: Disk, lives: seq<Life>) returns (ghost eras: seq<Era>)
    requires lives != [] && Idle(log) && AllYield(log.l, log.bc.trace, log.v.cur)
    requires [disk] <= log.bc.trace && LogOk(log.l, disk) && SameHome(log.l, log.v.cur, Recovered(log.l, disk))
    modifies log, log.block, log.bc, log.bc.buf
    ensures 1 <= |eras| <= |lives| && eras[0].log == log && eras[0].cur == old(log.v.cur)
    ensures forall k | 0 <= k < |eras| :: Lived(eras[k], log.l, Found(disk, lives, k), lives[k])
    ensures forall k | 0 <= k < |eras| :: Usable(eras[k], log.l, lives[k])
    ensures forall k, m | 0 <= k < m < |eras| && m == k + 1 :: Handed(eras[k], log.l, lives[k], eras[m].cur)
    ensures |eras| == |lives| || !LogOk(log.l, lives[|eras| - 1].left)
    decreases |lives|
  {
    hide Log.Valid, SameHome, Idle, Lived, Told, Recovered, Survives, AllYield, Recorded, LogOk, Follows;
    ghost var cur := log.v.cur;
    var ok, next;
    ghost var marks;
    ok, next, marks := Reboot(log, lives[0]);
    ghost var first := Era(log, cur, marks);
    LivedNow(first, log.l, disk, lives[0]);
    eras := [first];
    if ok && |lives| > 1 {
      ghost var rest;
      rest := Lives(next, lives[0].left, lives[1..]);
      eras := [first] + rest;
      Prepend(first, rest, log.l, disk, lives);
    }
  }

  /** A life and those after it. */
  lemma Prepend(e: Era, rest: seq<Era>, l: Layout, disk: Disk, lives: seq<Life>)
    requires 1 <= |rest| < |lives| && Lived(e, l, disk, lives[0]) && Usable(e, l, lives[0])
    requires Handed(e, l, lives[0], rest[0].cur)
    requires forall k | 0 <= k < |rest| :: Lived(rest[k], l, Found(lives[0].left, lives[1..], k), lives[1..][k])
    requires forall k | 0 <= k < |rest| :: Usable(rest[k], l, lives[1..][k])
    requires forall k, m | 0 <= k < m < |rest| && m == k + 1 :: Handed(rest[k], l, lives[1..][k], rest[m].cur)
    ensures var eras := [e] + rest;
            && (forall k | 0 <= k < |eras| :: Lived(eras[k], l, Found(disk, lives, k), lives[k]))
            && (forall k | 0 <= k < |eras| :: Usable(eras[k], l, lives[k]))
            && (forall k, m | 0 <= k < m < |eras| && m == k + 1 :: Handed(eras[k], l, lives[k], eras[m].cur))
  {
    hide Lived, Usable, Handed;
    var eras := [e] + rest;
    forall k | 0 < k < |eras|
      ensures Lived(eras[k], l, Found(disk, lives, k), lives[k]) && Usable(eras[k], l, lives[k])
    {
      assert Lived(rest[k - 1], l, Found(lives[0].left, lives[1..], k - 1), lives[1..][k - 1]);
      assert Usable(rest[k - 1], l, lives[1..][k - 1]);
    }
    forall k, m | 0 <= k < m < |eras| && m == k + 1 ensures Handed(eras[k], l, lives[k], eras[m].cur) {
      if k > 0 { assert Handed(rest[k - 1], l, lives[1..][k - 1], rest[k].cur); }
    }
  }

  /**
   * Boot after boot, eras[k] being the k-th. Each boot finds the disk the crash before it left, and whatever moment of
   * a life that crash picked, the next life begins with the end of a transaction of the one before: one that had
   * ended, and none older than the last that had ended when the disk was written. The boots go on for as long as the
   * disk left has a usable log, which every disk of a life has.
   */
  method Boots(disk: Disk, dev: nat, l: Layout, lives: seq<Life>) returns (ghost eras: seq<Era>)
    requires LogOk(l, disk) && dev != 0 && l.size <= LOGSIZE && l.total < 0x1_0000_0000
    ensures |eras| <= |lives| && (lives != [] ==> eras != [])
    ensures forall k | 0 <= k < |eras| :: Lived(eras[k], l, Found(disk, lives, k), lives[k])
    ensures forall k | 0 <= k < |eras| :: Usable(eras[k], l, lives[k])
    ensures forall k, m | 0 <= k < m < |eras| && m == k + 1 :: Handed(eras[k], l, lives[k], eras[m].cur)
    ensures |eras| == |lives| || !LogOk(l, lives[|eras| - 1].left)
  {
    hide Log.Valid, SameHome, Idle, Lived, Recovered, AllYield, LogOk, Handed, Usable;
    eras := [];
    if lives != [] {
      var log := Restart(disk, dev, l);
      IdleNow(log);
      eras := Lives(log, disk, lives);
    }
  }
}
