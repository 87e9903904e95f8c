/**
 * Admission of concurrent file system operations to the log. begin_op reserves
 * MAXOPBLOCKS of LOGSIZE slots per operation, while log_write panics one slot short of
 * the log's size; the module proves exactly how many distinct blocks an operation may
 * write for the panic to be unreachable in every interleaving.
 */
module LogAdmission {
  import opened Basics
  import opened Params
  import opened Counting

  /**
   * lh lists the logged blocks; ops holds, for each operation between begin_op and
   * end_op, the distinct blocks it has logged, so that log.outstanding is |ops|.
   */
  datatype State = State(lh: seq<nat>, committing: bool, ops: seq<set<nat>>)

  const Boot := State([], false, [])

  /** begin_op proceeds instead of sleeping. */
  predicate Admits(s: State) {
    !s.committing && |s.lh| + (|s.ops| + 1) * MAXOPBLOCKS <= LOGSIZE
  }

  function Begin(s: State): (t: State) {
    s.(ops := s.ops + [{}])
  }

  /** log_write's "too big a transaction" test, for a log of the given size (log.size). */
  predicate TooBig(s: State, size: nat) {
    |s.lh| >= LOGSIZE || |s.lh| >= size - 1
  }

  /** log_write of block b by operation p; a block already listed is absorbed. */
  function Write(s: State, p: nat, b: nat): (t: State)
    requires p < |s.ops|
  {
    s.(lh := if b in s.lh then s.lh else s.lh + [b], ops := s.ops[p := s.ops[p] + {b}])
  }

  /** end_op up to the point where the last operation starts the commit. */
  function End(s: State, p: nat): (t: State)
    requires p < |s.ops|
  {
    var rest := s.ops[..p] + s.ops[p + 1..];
    s.(ops := rest, committing := rest == [])
  }

  /** commit has finished. */
  function Committed(s: State): (t: State) {
    s.(lh := [], committing := false)
  }

  datatype Event = BeginOp | LogWrite(op: nat, block: nat) | EndOp(op: nat) | Commit

  /** The code can take this event: begin_op is admitted, the rest concern an active operation. */
  predicate Enabled(s: State, e: Event) {
    match e
    case BeginOp => Admits(s)
    case LogWrite(p, _) => p < |s.ops|
    case EndOp(p) => p < |s.ops|
    case Commit => s.committing
  }

  function Step(s: State, e: Event): (t: State)
    requires Enabled(s, e)
  {
    match e
    case BeginOp => Begin(s)
    case LogWrite(p, b) => Write(s, p, b)
    case EndOp(p) => End(s, p)
    case Commit => Committed(s)
  }

  /** Operation p may log block b without exceeding m distinct blocks. */
  predicate MayWrite(s: State, p: nat, b: nat, m: nat) {
    p < |s.ops| && |s.ops[p] + {b}| <= m
  }

  /**
   * The state after the events, none of whose operations logs more than m distinct
   * blocks and none of whose log_writes panics.
   */
  function Run(events: seq<Event>, m: nat, size: nat): (s: Option<State>) {
    if events == [] then Some(Boot)
    else
      var e := events[|events| - 1];
      match Run(events[..|events| - 1], m, size)
      case None => None
      case Some(r) =>
        if Enabled(r, e) && (e.LogWrite? ==> !TooBig(r, size) && MayWrite(r, e.op, e.block, m))
        then Some(Step(r, e)) else None
  }

  /** Slots that active operations may still fill when each may log m blocks. */
  function Unused(ops: seq<set<nat>>, m: nat): (u: int) {
    if ops == [] then 0 else Unused(ops[..|ops| - 1], m) + m - |ops[|ops| - 1]|
  }

  lemma {:induction false} UnusedRemove(ops: seq<set<nat>>, p: nat, m: nat)
    requires p < |ops|
    ensures Unused(ops[..p] + ops[p + 1..], m) == Unused(ops, m) - (m - |ops[p]|)
  {
    var last := |ops| - 1;
    var rest := ops[..p] + ops[p + 1..];
    if p == last {
      assert rest == ops[..last];
    } else {
      UnusedRemove(ops[..last], p, m);
      assert rest[..last - 1] == ops[..last][..p] + ops[..last][p + 1..];
    }
  }

  lemma {:induction false} UnusedUpdate(ops: seq<set<nat>>, p: nat, blocks: set<nat>, m: nat)
    requires p < |ops|
    ensures Unused(ops[p := blocks], m) == Unused(ops, m) + |ops[p]| - |blocks|
  {
    var last := |ops| - 1;
    if p == last {
      assert ops[p := blocks][..last] == ops[..last];
    } else {
      UnusedUpdate(ops[..last], p, blocks, m);
      assert ops[p := blocks][..last] == ops[..last][p := blocks];
    }
  }

  lemma {:induction false} UnusedAtMost(ops: seq<set<nat>>, m: nat)
    ensures Unused(ops, m) <= m * |ops|
    ensures (forall i | 0 <= i < |ops| :: |ops[i]| <= m) ==> Unused(ops, m) >= 0
  {
    if ops != [] {
      UnusedAtMost(ops[..|ops| - 1], m);
      assert m * |ops| == m * (|ops| - 1) + m;
    }
  }

  /**
   * What every reachable state satisfies: each operation's blocks are listed, the log
   * and the unused reservations fit, and an idle log is empty.
   */
  ghost predicate Inv(s: State, m: nat) {
    && (forall p | 0 <= p < |s.ops| :: |s.ops[p]| <= m && forall b | b in s.ops[p] :: b in s.lh)
    && |s.lh| + Unused(s.ops, m) <= (if m < MAXOPBLOCKS then LOGSIZE - 2 else LOGSIZE)
    && (s.ops == [] && !s.committing ==> s.lh == [])
    && (s.committing ==> s.ops == [])
  }

  lemma InvBegin(s: State, m: nat)
    requires Inv(s, m) && m <= MAXOPBLOCKS && Admits(s)
    ensures Inv(Begin(s), m)
  {
    var t := Begin(s);
    assert t.ops[..|s.ops|] == s.ops;
    UnusedAtMost(s.ops, m);
    if s.ops != [] {
      assert m * |s.ops| <= MAXOPBLOCKS * |s.ops|;
      if m < MAXOPBLOCKS {
        assert m * |s.ops| <= (MAXOPBLOCKS - 1) * |s.ops|;
      }
    }
  }

  lemma InvWrite(s: State, m: nat, p: nat, b: nat)
    requires Inv(s, m) && p < |s.ops| && |s.ops[p] + {b}| <= m
    ensures Inv(Write(s, p, b), m)
  {
    var t := Write(s, p, b);
    UnusedUpdate(s.ops, p, s.ops[p] + {b}, m);
    if b !in s.lh {
      assert b !in s.ops[p];
    }
  }

  lemma InvEnd(s: State, m: nat, p: nat)
    requires Inv(s, m) && p < |s.ops|
    ensures Inv(End(s, p), m)
  {
    UnusedRemove(s.ops, p, m);
    assert |s.ops[p]| <= m;
  }

  /** Log admission: the invariant holds in every state of every run. */
  lemma {:induction false} RunsKeepInv(events: seq<Event>, m: nat, size: nat)
    requires m <= MAXOPBLOCKS && Run(events, m, size).Some?
    ensures Inv(Run(events, m, size).value, m)
    decreases |events|
  {
    if events != [] {
      var init, e := events[..|events| - 1], events[|events| - 1];
      RunsKeepInv(init, m, size);
      var r := Run(init, m, size).value;
      match e
      case BeginOp => InvBegin(r, m);
      case LogWrite(p, b) => InvWrite(r, m, p, b);
      case EndOp(p) => InvEnd(r, m, p);
      case Commit =>
    }
  }

  /** No run in which operations log at most m distinct blocks reaches log_write's panic. */
  ghost predicate PanicFree(m: nat, size: nat) {
    forall events: seq<Event>, p: nat, b: nat ::
      Run(events, m, size).Some? && MayWrite(Run(events, m, size).value, p, b, m) ==>
      !TooBig(Run(events, m, size).value, size)
  }

  // ---- what begin_op's test is for ----

  /** Every operation has logged at most MAXOPBLOCKS blocks, all of them listed. */
  ghost predicate Sound(s: State) {
    forall p | 0 <= p < |s.ops| :: |s.ops[p]| <= MAXOPBLOCKS && forall b | b in s.ops[p] :: b in s.lh
  }

  /** The log after log_writes of active operations, each given as operation and block, that stay within MAXOPBLOCKS. */
  function WriteAll(s: State, writes: seq<(nat, nat)>): (t: Option<State>)
    decreases |writes|
  {
    if writes == [] then Some(s)
    else if !MayWrite(s, writes[0].0, writes[0].1, MAXOPBLOCKS) then None
    else WriteAll(Write(s, writes[0].0, writes[0].1), writes[1..])
  }

  /** The active operations cannot log more than the log has room for, whatever they write. */
  ghost predicate Contained(s: State) {
    forall writes :: WriteAll(s, writes).Some? ==> |WriteAll(s, writes).value.lh| <= LOGSIZE
  }

  /** t has as many blocks listed and as many operations active as s. */
  ghost predicate SameCounts(s: State, t: State) {
    Sound(t) && |t.lh| == |s.lh| && |t.ops| == |s.ops|
  }

  lemma {:induction false} WritesBounded(s: State, writes: seq<(nat, nat)>)
    requires Sound(s) && WriteAll(s, writes).Some?
    ensures |WriteAll(s, writes).value.lh| <= |s.lh| + Unused(s.ops, MAXOPBLOCKS)
    decreases |writes|
  {
    if writes == [] {
      UnusedAtMost(s.ops, MAXOPBLOCKS);
    } else {
      var p, b := writes[0].0, writes[0].1;
      var t := Write(s, p, b);
      UnusedUpdate(s.ops, p, s.ops[p] + {b}, MAXOPBLOCKS);
      if b !in s.lh { assert b !in s.ops[p]; }
      assert Sound(t);
      WritesBounded(t, writes[1..]);
    }
  }

  /** The operations can fill all they have reserved. */
  lemma {:induction false} WritesFill(s: State) returns (writes: seq<(nat, nat)>)
    requires Sound(s)
    ensures WriteAll(s, writes).Some? && |WriteAll(s, writes).value.lh| == |s.lh| + Unused(s.ops, MAXOPBLOCKS)
    decreases Unused(s.ops, MAXOPBLOCKS)
  {
    UnusedAtMost(s.ops, MAXOPBLOCKS);
    if p :| 0 <= p < |s.ops| && |s.ops[p]| < MAXOPBLOCKS {
      var b := Fresh(s.lh);
      assert b !in s.ops[p];
      UnusedUpdate(s.ops, p, s.ops[p] + {b}, MAXOPBLOCKS);
      var t := Write(s, p, b);
      assert Sound(t);
      var rest := WritesFill(t);
      writes := [(p, b)] + rest;
      assert writes[1..] == rest;
    } else {
      NoneUnused(s.ops);
      writes := [];
    }
  }

  lemma {:induction false} NoneUnused(ops: seq<set<nat>>)
    requires forall p | 0 <= p < |ops| :: |ops[p]| == MAXOPBLOCKS
    ensures Unused(ops, MAXOPBLOCKS) == 0
  {
    if ops != [] { NoneUnused(ops[..|ops| - 1]); }
  }

  lemma {:induction false} Fresh(lh: seq<nat>) returns (b: nat)
    ensures forall x | x in lh :: x < b
  {
    b := 0;
    if lh != [] {
      var last := lh[|lh| - 1];
      b := Fresh(lh[..|lh| - 1]);
      assert lh == lh[..|lh| - 1] + [last];
      b := if last < b then b else last + 1;
    }
  }

  /** k operations that have logged nothing yet. */
  function NewOps(k: nat): (ops: seq<set<nat>>)
    ensures |ops| == k && forall p | 0 <= p < k :: ops[p] == {}
  {
    seq(k, _ => {})
  }

  lemma {:induction false} UnusedFresh(k: nat)
    ensures Unused(NewOps(k), MAXOPBLOCKS) == k * MAXOPBLOCKS
  {
    if k > 0 {
      assert NewOps(k)[..k - 1] == NewOps(k - 1);
      UnusedFresh(k - 1);
    }
  }

  /**
   * begin_op lets an operation in exactly when no commit runs and the active operations and the new one cannot
   * overflow the log, as far as the counts of listed blocks and active operations tell.
   */
  lemma AdmitsIff(s: State)
    ensures Admits(s) <==> !s.committing && forall t | SameCounts(s, t) :: Contained(Begin(t))
    ensures Admits(s) <==> !s.committing && |s.lh| + Unused(NewOps(|s.ops| + 1), MAXOPBLOCKS) <= LOGSIZE
  {
    UnusedFresh(|s.ops| + 1);
    if Admits(s) {
      forall t | SameCounts(s, t) ensures Contained(Begin(t)) { NewContained(t); }
    } else if !s.committing {
      Overflows(s);
    }
  }

  lemma NewContained(t: State)
    requires Sound(t) && |t.lh| + (|t.ops| + 1) * MAXOPBLOCKS <= LOGSIZE
    ensures Contained(Begin(t))
  {
    var b := Begin(t);
    assert Sound(b);
    forall writes | WriteAll(b, writes).Some? ensures |WriteAll(b, writes).value.lh| <= LOGSIZE {
      WritesBounded(b, writes);
      UnusedAtMost(b.ops, MAXOPBLOCKS);
    }
  }

  /** With that many blocks listed by operations that have ended, those active can overflow the log. */
  lemma Overflows(s: State)
    requires |s.lh| + (|s.ops| + 1) * MAXOPBLOCKS > LOGSIZE
    ensures exists t :: SameCounts(s, t) && !Contained(Begin(t))
  {
    var t := State(seq(|s.lh|, i => i), false, NewOps(|s.ops|));
    var b := Begin(t);
    assert b.ops == NewOps(|s.ops| + 1);
    UnusedFresh(|s.ops| + 1);
    var writes := WritesFill(b);
    assert SameCounts(s, t) && !Contained(b);
  }

  /** Three operations are active and have logged blocks 0..k between them, w each. */
  ghost function Filled(k: nat, w: nat): (s: State)
    requires k < 3 * w
  {
    State(seq(k, i => i), false,
          [Span(0, if k < w then k else w), Span(w, if k < 2 * w then k else 2 * w), Span(2 * w, k)])
  }

  lemma Extend(events: seq<Event>, e: Event, m: nat, size: nat)
    requires Run(events, m, size).Some? && Enabled(Run(events, m, size).value, e)
    requires e.LogWrite? ==>
               !TooBig(Run(events, m, size).value, size) && MayWrite(Run(events, m, size).value, e.op, e.block, m)
    ensures Run(events + [e], m, size) == Some(Step(Run(events, m, size).value, e))
  {
    assert (events + [e])[..|events|] == events;
  }

  lemma FilledNone(w: nat)
    requires w > 0
    ensures Begin(Begin(Begin(Boot))) == Filled(0, w)
  {
    var t := Begin(Begin(Begin(Boot)));
    assert t.ops == [{}, {}, {}] && t.lh == Filled(0, w).lh;
  }

  lemma FilledOps(k: nat, w: nat, p: nat, lo: nat)
    requires 0 < k < 3 * w && p == (if k <= w then 0 else if k <= 2 * w then 1 else 2)
    requires lo == if p == 0 then 0 else if p == 1 then w else 2 * w
    ensures Filled(k - 1, w).ops[p := Span(lo, k)] == Filled(k, w).ops
  {
    hide Span;
    if p == 0 {
      NoSpan(w, k - 1);
      NoSpan(w, k);
    }
    if p < 2 {
      NoSpan(2 * w, k - 1);
      NoSpan(2 * w, k);
    }
  }

  lemma NoSpan(lo: nat, hi: nat)
    requires hi <= lo
    ensures Span(lo, hi) == {}
  {
  }

  lemma SpanNext(lo: nat, hi: nat)
    requires lo < hi
    ensures Span(lo, hi - 1) + {hi - 1} == Span(lo, hi) && hi - 1 !in Span(lo, hi - 1)
  {
  }

  lemma FilledLog(k: nat, w: nat)
    requires 0 < k < 3 * w
    ensures k - 1 !in Filled(k - 1, w).lh && Filled(k - 1, w).lh + [k - 1] == Filled(k, w).lh
    ensures !Filled(k, w).committing && |Filled(k, w).ops| == 3
  {
    hide Span;
  }

  lemma FilledWrite(k: nat, w: nat, p: nat)
    requires 0 < k < 3 * w && p == (if k <= w then 0 else if k <= 2 * w then 1 else 2)
    ensures Write(Filled(k - 1, w), p, k - 1) == Filled(k, w)
    ensures MayWrite(Filled(k - 1, w), p, k - 1, w)
  {
    var lo := if p == 0 then 0 else if p == 1 then w else 2 * w;
    assert Filled(k - 1, w).ops[p] == Span(lo, k - 1) by { hide Span; }
    hide Filled;
    SpanNext(lo, k);
    hide Span;
    FilledLog(k, w);
    FilledOps(k, w, p, lo);
  }

  lemma {:induction false} FilledReached(k: nat, w: nat, m: nat) returns (events: seq<Event>)
    requires k < 3 * w == LOGSIZE && w <= m
    ensures Run(events, m, LOGSIZE) == Some(Filled(k, w))
  {
    hide Filled, Span;
    if k == 0 {
      Extend([], BeginOp, m, LOGSIZE);
      Extend([] + [BeginOp], BeginOp, m, LOGSIZE);
      Extend([] + [BeginOp] + [BeginOp], BeginOp, m, LOGSIZE);
      events := [] + [BeginOp] + [BeginOp] + [BeginOp];
      FilledNone(w);
    } else {
      var before := FilledReached(k - 1, w, m);
      var p := if k <= w then 0 else if k <= 2 * w then 1 else 2;
      FilledWrite(k, w, p);
      FilledLength(k - 1, w);
      Extend(before, LogWrite(p, k - 1), m, LOGSIZE);
      events := before + [LogWrite(p, k - 1)];
    }
  }

  lemma FilledLength(k: nat, w: nat)
    requires k < 3 * w
    ensures |Filled(k, w).lh| == k && |Filled(k, w).ops| == 3
    ensures k + 1 == 3 * w ==> MayWrite(Filled(k, w), 2, k, w)
  {
    hide Span;
    if k + 1 == 3 * w {
      SpanNext(2 * w, k + 1);
    }
  }

  /**
   * With mkfs's nlog = LOGSIZE, the panic is unreachable exactly when every operation
   * logs at most MAXOPBLOCKS - 1 distinct blocks; at MAXOPBLOCKS, three concurrent
   * operations reach it.
   */
  lemma PanicFreeIff(m: nat)
    ensures PanicFree(m, LOGSIZE) <==> m <= MAXOPBLOCKS - 1
  {
    hide Filled, Span;
    if m <= MAXOPBLOCKS - 1 {
      forall events: seq<Event>, p: nat, b: nat |
        Run(events, m, LOGSIZE).Some? && MayWrite(Run(events, m, LOGSIZE).value, p, b, m)
        ensures !TooBig(Run(events, m, LOGSIZE).value, LOGSIZE)
      {
        RunsKeepInv(events, m, LOGSIZE);
        UnusedAtMost(Run(events, m, LOGSIZE).value.ops, m);
      }
    } else {
      var w := MAXOPBLOCKS;
      var events := FilledReached(3 * w - 1, w, m);
      FilledLength(3 * w - 1, w);
      var s := Filled(3 * w - 1, w);
      assert MayWrite(s, 2, 3 * w - 1, m) && TooBig(s, LOGSIZE);
    }
  }
}
