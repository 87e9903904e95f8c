/**
 * fork, exit and wait under wait_lock and the per-process locks, as interleaved steps of
 * any number of processes. Slot 0 of the process table is init.
 */
module ExitWait {
  import opened Basics

  const INIT := 0

  datatype RunState = UNUSED | USED | SLEEPING | RUNNABLE | RUNNING | ZOMBIE

  /**
   * Where a process stands.
   *   Dead, Embryo       slot unused; slot taken by a fork that has not finished
   *   User               outside fork, exit and wait
   *   ForkAlloc(i)       in allocproc, about to look at slot i
   *   ForkCopy(c)        has slot c, holds its lock, copies memory
   *   ForkLink(c)        about to acquire wait_lock and set the child's parent
   *   ForkReady(c)       about to make the child runnable
   *   ExitStart          about to acquire wait_lock in exit
   *   ExitMove(i)        in reparent, about to look at slot i
   *   ExitMoveWake(i, j) has given slot i to init, in wakeup(initproc) at slot j
   *   ExitWake(j)        in wakeup(p->parent) at slot j
   *   ExitMark           about to become a zombie and drop wait_lock
   *   Gone               a zombie
   *   WaitStart          about to acquire wait_lock in wait
   *   Scan(i, kids)      in wait's scan, about to look at slot i
   *   SleepLock          in sleep, holds wait_lock, about to acquire its own lock
   *   SleepDrop          about to release wait_lock
   *   SleepMark          about to be marked SLEEPING
   *   Asleep             sleeping in wait, or woken from there and not yet running
   *   Woken              running again, holds its own lock
   */
  datatype Pc =
    | Dead | Embryo | User
    | ForkAlloc(i: nat) | ForkCopy(c: nat) | ForkLink(c: nat) | ForkReady(c: nat)
    | ExitStart | ExitMove(i: nat) | ExitMoveWake(i: nat, j: nat) | ExitWake(j: nat) | ExitMark | Gone
    | WaitStart | Scan(i: nat, kids: bool) | SleepLock | SleepDrop | SleepMark | Asleep | Woken

  /** plock says whether p->lock is held, by a process or by the scheduler. */
  datatype Proc = Proc(pc: Pc, state: RunState, parent: Option<nat>, plock: bool, killed: bool)

  datatype State = State(procs: seq<Proc>, wlock: Option<nat>)

  datatype Call = Fork | Exit | Wait

  datatype Step =
    | Run(p: nat, ok: bool)   // p executes its next stretch; ok says whether an allocation or copyout succeeds
    | Enter(p: nat, call: Call)
    | Settle(p: nat)          // the scheduler releases the lock of a process that switched away
    | Schedule(p: nat)
    | Preempt(p: nat)
    | Kill(p: nat)

  const Free := Proc(Dead, UNUSED, None, false, false)

  /** init runs and every other slot is unused. */
  function Boot(n: nat): (s: State) {
    State(seq(n, i => if i == INIT then Proc(User, RUNNING, None, false, false) else Free), None)
  }

  function Put(s: State, p: nat, q: Proc): (t: State)
    requires p < |s.procs|
  {
    s.(procs := s.procs[p := q])
  }

  /** One round of wakeup(chan): a process sleeping in wait sleeps on its own address. */
  function Wake(s: State, chan: nat, j: nat): (t: State)
    requires j < |s.procs|
  {
    if j == chan && s.procs[j].state == SLEEPING then Put(s, j, s.procs[j].(state := RUNNABLE)) else s
  }

  /** Slot i can be locked by p. */
  predicate CanLock(s: State, p: nat, i: nat) {
    i >= |s.procs| || i == p || !s.procs[i].plock
  }

  /** p is on a CPU, inside fork, exit or wait, and not waiting for a lock. */
  predicate CanRun(s: State, p: nat)
    requires p < |s.procs|
  {
    var q := s.procs[p];
    && q.state == RUNNING
    && match q.pc
       case ForkAlloc(i) => CanLock(s, p, i)
       case ForkCopy(c) => c < |s.procs|
       case ForkLink(c) => c < |s.procs| && s.wlock == None
       case ForkReady(c) => c < |s.procs| && CanLock(s, p, c)
       case ExitStart => s.wlock == None
       case ExitMove(_) => true
       case ExitMoveWake(_, j) => CanLock(s, p, j)
       case ExitWake(j) => CanLock(s, p, j)
       case ExitMark => !q.plock
       case WaitStart => s.wlock == None
       case Scan(i, _) => i >= |s.procs| || s.procs[i].parent != Some(p) || !s.procs[i].plock
       case SleepLock => !q.plock
       case SleepDrop => true
       case SleepMark => true
       case Woken => true
       case _ => false
  }

  function ForkCode(s: State, p: nat, ok: bool): (t: State)
    requires p < |s.procs| && CanRun(s, p)
  {
    var q := s.procs[p];
    match q.pc
    case ForkAlloc(i) =>
      if i >= |s.procs| then Put(s, p, q.(pc := User))
      else if i != p && s.procs[i].state == UNUSED then
        Put(Put(s, i, s.procs[i].(pc := Embryo, state := USED, plock := true)), p, q.(pc := ForkCopy(i)))
      else Put(s, p, q.(pc := ForkAlloc(i + 1)))
    case ForkCopy(c) =>
      if ok then Put(Put(s, c, s.procs[c].(plock := false)), p, q.(pc := ForkLink(c)))
      else Put(Put(s, c, Free), p, q.(pc := User))
    case ForkLink(c) =>
      Put(Put(s, c, s.procs[c].(parent := Some(p))), p, q.(pc := ForkReady(c)))
    case ForkReady(c) =>
      Put(Put(s, c, s.procs[c].(pc := User, state := RUNNABLE)), p, q.(pc := User))
    case _ => s
  }

  function ExitCode(s: State, p: nat): (t: State)
    requires p < |s.procs| && CanRun(s, p)
  {
    var q := s.procs[p];
    match q.pc
    case ExitStart => Put(s, p, q.(pc := ExitMove(0))).(wlock := Some(p))
    case ExitMove(i) =>
      if i >= |s.procs| then Put(s, p, q.(pc := ExitWake(0)))
      else if s.procs[i].parent == Some(p) then
        Put(Put(s, i, s.procs[i].(parent := Some(INIT))), p, q.(pc := ExitMoveWake(i, 0)))
      else Put(s, p, q.(pc := ExitMove(i + 1)))
    case ExitMoveWake(i, j) =>
      if j >= |s.procs| then Put(s, p, q.(pc := ExitMove(i + 1)))
      else Put(if j == p then s else Wake(s, INIT, j), p, q.(pc := ExitMoveWake(i, j + 1)))
    case ExitWake(j) =>
      if j >= |s.procs| then Put(s, p, q.(pc := ExitMark))
      else Put(if j == p || q.parent == None then s else Wake(s, q.parent.value, j), p, q.(pc := ExitWake(j + 1)))
    case ExitMark => Put(s, p, q.(pc := Gone, state := ZOMBIE, plock := true)).(wlock := None)
    case _ => s
  }

  function WaitCode(s: State, p: nat, ok: bool): (t: State)
    requires p < |s.procs| && CanRun(s, p)
  {
    var q := s.procs[p];
    match q.pc
    case WaitStart => Put(s, p, q.(pc := Scan(0, false))).(wlock := Some(p))
    case Scan(i, kids) =>
      if i >= |s.procs| then
        if !kids || q.killed then Put(s, p, q.(pc := User)).(wlock := None)
        else Put(s, p, q.(pc := SleepLock))
      else if s.procs[i].parent == Some(p) then
        if s.procs[i].state == ZOMBIE then
          if ok then Put(Put(s, i, Free), p, q.(pc := User)).(wlock := None)
          else Put(s, p, q.(pc := User)).(wlock := None)
        else Put(s, p, q.(pc := Scan(i + 1, true)))
      else Put(s, p, q.(pc := Scan(i + 1, kids)))
    case SleepLock => Put(s, p, q.(pc := SleepDrop, plock := true))
    case SleepDrop => Put(s, p, q.(pc := SleepMark)).(wlock := None)
    case SleepMark => Put(s, p, q.(pc := Asleep, state := SLEEPING))
    case Woken => Put(s, p, q.(pc := WaitStart, plock := false))
    case _ => s
  }

  predicate InFork(pc: Pc) { pc.ForkAlloc? || pc.ForkCopy? || pc.ForkLink? || pc.ForkReady? }

  predicate InExit(pc: Pc) { pc.ExitStart? || pc.ExitMove? || pc.ExitMoveWake? || pc.ExitWake? || pc.ExitMark? }

  /** Places where the process holds no spin lock, so that interrupts are on. */
  predicate Interruptible(pc: Pc) {
    pc == User || pc.ForkAlloc? || pc.ForkLink? || pc.ForkReady? || pc == ExitStart || pc == WaitStart
  }

  predicate Enabled(s: State, step: Step) {
    && step.p < |s.procs|
    && var q := s.procs[step.p];
       match step
       case Run(p, _) => CanRun(s, p)
       case Enter(p, call) => q.state == RUNNING && q.pc == User && (call == Exit ==> p != INIT)
       case Settle(p) => (q.pc == Asleep || q.pc == Gone) && q.state != RUNNING && q.plock
       case Schedule(p) => q.state == RUNNABLE && !q.plock
       case Preempt(p) => q.state == RUNNING && !q.plock && Interruptible(q.pc)
       case Kill(p) => !q.plock
  }

  function Apply(s: State, step: Step): (t: State)
    requires Enabled(s, step)
  {
    var p := step.p;
    var q := s.procs[p];
    match step
    case Run(_, ok) =>
      if InFork(q.pc) then ForkCode(s, p, ok) else if InExit(q.pc) then ExitCode(s, p) else WaitCode(s, p, ok)
    case Enter(_, call) =>
      Put(s, p, q.(pc := match call case Fork => ForkAlloc(0) case Exit => ExitStart case Wait => WaitStart))
    case Settle(_) => Put(s, p, q.(plock := false))
    case Schedule(_) =>
      if q.pc == Asleep then Put(s, p, q.(pc := Woken, state := RUNNING, plock := true))
      else Put(s, p, q.(state := RUNNING))
    case Preempt(_) => Put(s, p, q.(state := RUNNABLE))
    case Kill(_) => Put(s, p, q.(killed := true, state := if q.state == SLEEPING then RUNNABLE else q.state))
  }

  function After(n: nat, steps: seq<Step>): (s: Option<State>) {
    if steps == [] then Some(Boot(n))
    else
      match After(n, steps[..|steps| - 1])
      case None => None
      case Some(s) => if Enabled(s, steps[|steps| - 1]) then Some(Apply(s, steps[|steps| - 1])) else None
  }

  /** The process owns wait_lock at this point of its code. */
  predicate InWaitLock(pc: Pc) {
    || pc.ExitMove? || pc.ExitMoveWake? || pc.ExitWake? || pc.ExitMark?
    || pc.Scan? || pc.SleepLock? || pc.SleepDrop?
  }

  predicate Alive(q: Proc) {
    q.state == RUNNING || q.state == RUNNABLE || q.state == SLEEPING
  }

  /** The process has dropped wait_lock in order to sleep in wait and has not been woken. */
  predicate GoingToSleep(q: Proc) {
    q.pc == SleepMark || (q.pc == Asleep && q.state == SLEEPING)
  }

  /** wait_lock is held by the process whose code says so. */
  ghost predicate Locks(s: State) {
    && |s.procs| > INIT
    && (s.wlock.Some? ==> s.wlock.value < |s.procs|)
    && forall p | 0 <= p < |s.procs| :: InWaitLock(s.procs[p].pc) <==> s.wlock == Some(p)
  }

  /** States and code positions match; init never exits; everyone else that lives has a parent. */
  ghost predicate Shape(q: Proc, p: nat) {
    && (q.state == UNUSED <==> q.pc == Dead) && (q.state == USED <==> q.pc == Embryo)
    && (q.state == ZOMBIE <==> q.pc == Gone)
    && (q.state == SLEEPING ==> q.pc == Asleep) && (q.pc == Asleep ==> q.state != RUNNING)
    && (q.state == UNUSED ==> q.parent == None)
    && (p == INIT ==> Alive(q) && !InExit(q.pc) && q.parent == None)
    && (p != INIT && (Alive(q) || q.state == ZOMBIE) ==> q.parent.Some?)
    && (q.pc == SleepDrop || q.pc == SleepMark ==> q.plock)
    && q.parent != Some(p)
  }

  ghost predicate Shapes(s: State) {
    forall p | 0 <= p < |s.procs| :: Shape(s.procs[p], p)
  }

  /** A fork has taken a slot. */
  predicate HasSlot(pc: Pc) { pc.ForkCopy? || pc.ForkLink? || pc.ForkReady? }

  /** A slot taken by a fork is taken by one fork, and gets its parent when it is linked. */
  ghost predicate Forks(s: State) {
    && (forall p | 0 <= p < |s.procs| && HasSlot(s.procs[p].pc) :: SlotOk(s, p))
    && (forall p, r | 0 <= p < |s.procs| && 0 <= r < |s.procs| && HasSlot(s.procs[p].pc) && HasSlot(s.procs[r].pc) ::
          s.procs[p].pc.c == s.procs[r].pc.c ==> p == r)
  }

  ghost predicate SlotOk(s: State, p: nat)
    requires p < |s.procs| && HasSlot(s.procs[p].pc)
  {
    var pc := s.procs[p].pc;
    && pc.c < |s.procs| && s.procs[pc.c].state == USED
    && s.procs[pc.c].parent == if pc.ForkReady? then Some(p) else None
  }

  /** c is a child of q. */
  predicate ChildOf(s: State, c: nat, q: nat) {
    c < |s.procs| && q < |s.procs| && s.procs[c].parent == Some(q)
  }

  /** Parents are alive, and an exiting process has no children below the slot it has come to. */
  ghost predicate Parents(s: State) {
    && (forall c | 0 <= c < |s.procs| && s.procs[c].parent.Some? :: s.procs[c].parent.value < |s.procs|)
    && (forall c, q | 0 <= c < |s.procs| && 0 <= q < |s.procs| && ChildOf(s, c, q) ::
          Alive(s.procs[q]) && !ChildlessTo(s.procs[q].pc, c))
  }

  /** A process at this point of exit has given its child in slot c away. */
  predicate ChildlessTo(pc: Pc, c: nat) {
    match pc
    case ExitMove(i) => c < i
    case ExitMoveWake(i, _) => c <= i
    case ExitWake(_) => true
    case ExitMark => true
    case _ => false
  }

  /** A process at this point of wait has seen that its child in slot c is no zombie. */
  predicate SeenAlive(pc: Pc, c: nat) {
    match pc
    case Scan(i, _) => c < i
    case SleepLock => true
    case SleepDrop => true
    case _ => false
  }

  /** The scan of wait has found no zombie child so far. */
  ghost predicate Scanned(s: State) {
    forall c, q | 0 <= c < |s.procs| && 0 <= q < |s.procs| && ChildOf(s, c, q) && s.procs[c].state == ZOMBIE ::
      !SeenAlive(s.procs[q].pc, c)
  }

  /** reparent is in wakeup(initproc) and has not come to init yet. */
  ghost predicate WakingInit(s: State) {
    && s.wlock.Some? && s.wlock.value < |s.procs|
    && s.procs[s.wlock.value].pc.ExitMoveWake? && s.procs[s.wlock.value].pc.j <= INIT
  }

  /** A process sleeping in wait has a zombie child only while reparent is about to wake it. */
  ghost predicate Watched(s: State) {
    forall c, q | 0 <= c < |s.procs| && 0 <= q < |s.procs| && ChildOf(s, c, q) && s.procs[c].state == ZOMBIE ::
      GoingToSleep(s.procs[q]) ==> q == INIT && WakingInit(s)
  }

  /** A process at this point of exit has woken its parent q. */
  predicate HasWoken(pc: Pc, q: nat) {
    (pc.ExitWake? && q < pc.j) || pc.ExitMark?
  }

  /** A parent that an exiting process has woken is not going to sleep. */
  ghost predicate Waking(s: State) {
    forall c, q | 0 <= c < |s.procs| && 0 <= q < |s.procs| && ChildOf(s, c, q) && HasWoken(s.procs[c].pc, q) ::
      !GoingToSleep(s.procs[q])
  }

  ghost predicate Inv(s: State) {
    Locks(s) && Shapes(s) && Forks(s) && Parents(s) && Scanned(s) && Watched(s) && Waking(s)
  }

  /** What a stretch of wait does to another process: nothing, or it frees its zombie child. */
  lemma WaitFrame(s: State, p: nat, ok: bool, r: nat)
    requires p < |s.procs| && CanRun(s, p) && !InFork(s.procs[p].pc) && !InExit(s.procs[p].pc) && r < |s.procs|
    requires r != p
    ensures var q, t := s.procs[p], WaitCode(s, p, ok);
            && |t.procs| == |s.procs|
            && (t.procs[r] == s.procs[r]
                || (t.procs[r] == Free && s.procs[r].state == ZOMBIE && s.procs[r].parent == Some(p)
                    && !s.procs[r].plock
                    && q.pc.Scan? && q.pc.i == r))
  {
  }

  /** What a stretch of wait does to the process itself. */
  lemma WaitSelf(s: State, p: nat, ok: bool)
    requires p < |s.procs| && CanRun(s, p) && !InFork(s.procs[p].pc) && !InExit(s.procs[p].pc)
    requires s.procs[p].parent != Some(p) && s.procs[p].pc != Asleep
    requires (s.procs[p].pc == SleepDrop ==> s.procs[p].plock)
    ensures var q, t := s.procs[p], WaitCode(s, p, ok);
            var u := t.procs[p];
            && u.parent == q.parent && Alive(u) && !InFork(u.pc) && !InExit(u.pc) && u.pc != Gone && u.pc != Dead
            && u.pc != Embryo
            && (u.state == SLEEPING <==> u.pc == Asleep) && (u.pc == Asleep ==> q.pc == SleepMark)
            && (u.pc == SleepDrop || u.pc == SleepMark ==> u.plock)
            && (GoingToSleep(u) ==> GoingToSleep(q) || q.pc == SleepDrop)
            && |t.procs| == |s.procs|
            && ((s.wlock == Some(p) <==> InWaitLock(q.pc)) ==>
                  && (t.wlock == Some(p) <==> InWaitLock(u.pc))
                  && (t.wlock == s.wlock || (s.wlock == None && t.wlock == Some(p)) ||
                      (s.wlock == Some(p) && t.wlock == None)))
  {
  }

  /** wait's scan moves past a slot only when it holds no zombie child. */
  lemma WaitScans(s: State, p: nat, ok: bool, c: nat)
    requires p < |s.procs| && CanRun(s, p) && !InFork(s.procs[p].pc) && !InExit(s.procs[p].pc) && c < |s.procs|
    ensures SeenAlive(WaitCode(s, p, ok).procs[p].pc, c) ==>
            SeenAlive(s.procs[p].pc, c) || !(s.procs[c].parent == Some(p) && s.procs[c].state == ZOMBIE)
  {
  }

  lemma WaitKeepsLocks(s: State, p: nat, ok: bool)
    requires Locks(s) && Shapes(s) && p < |s.procs| && CanRun(s, p) && !InFork(s.procs[p].pc) && !InExit(s.procs[p].pc)
    ensures Locks(WaitCode(s, p, ok))
  {
    hide WaitCode;
    assert Shape(s.procs[p], p) && (InWaitLock(s.procs[p].pc) <==> s.wlock == Some(p));
    WaitSelf(s, p, ok);
    var t := WaitCode(s, p, ok);
    forall r | 0 <= r < |t.procs| && r != p ensures InWaitLock(t.procs[r].pc) <==> t.wlock == Some(r) {
      WaitFrame(s, p, ok, r);
      assert Shape(s.procs[r], r) && (InWaitLock(s.procs[r].pc) <==> s.wlock == Some(r));
    }
  }

  lemma WaitKeepsShapes(s: State, p: nat, ok: bool)
    requires Shapes(s) && p < |s.procs| && CanRun(s, p) && !InFork(s.procs[p].pc) && !InExit(s.procs[p].pc)
    ensures Shapes(WaitCode(s, p, ok))
  {
    hide WaitCode;
    assert Shape(s.procs[p], p);
    WaitSelf(s, p, ok);
    var t := WaitCode(s, p, ok);
    forall r | 0 <= r < |t.procs| && r != p ensures Shape(t.procs[r], r) {
      WaitFrame(s, p, ok, r);
      assert Shape(s.procs[r], r);
    }
  }

  lemma WaitKeepsForks(s: State, p: nat, ok: bool)
    requires Shapes(s) && Forks(s) && p < |s.procs| && CanRun(s, p) && !InFork(s.procs[p].pc) && !InExit(s.procs[p].pc)
    ensures Forks(WaitCode(s, p, ok))
  {
    hide WaitCode;
    assert Shape(s.procs[p], p);
    WaitSelf(s, p, ok);
    var t := WaitCode(s, p, ok);
    hide Shapes, Shape;
    forall r | 0 <= r < |t.procs| && HasSlot(t.procs[r].pc) ensures t.procs[r] == s.procs[r] && SlotOk(t, r) {
      WaitFrame(s, p, ok, r);
      assert SlotOk(s, r);
      WaitFrame(s, p, ok, s.procs[r].pc.c);
    }
  }

  lemma WaitKeepsParents(s: State, p: nat, ok: bool)
    requires Shapes(s) && Parents(s) && p < |s.procs| && CanRun(s, p) && !InFork(s.procs[p].pc)
    requires !InExit(s.procs[p].pc)
    ensures Parents(WaitCode(s, p, ok))
  {
    hide WaitCode;
    assert Shape(s.procs[p], p);
    WaitSelf(s, p, ok);
    var t := WaitCode(s, p, ok);
    hide Shapes, Shape;
    forall c | 0 <= c < |t.procs| && t.procs[c].parent.Some? ensures t.procs[c].parent == s.procs[c].parent {
      if c != p { WaitFrame(s, p, ok, c); }
    }
    forall c, q | 0 <= c < |t.procs| && 0 <= q < |t.procs| && ChildOf(t, c, q)
      ensures Alive(t.procs[q]) && !ChildlessTo(t.procs[q].pc, c)
    {
      assert ChildOf(s, c, q);
      if q != p { WaitFrame(s, p, ok, q); }
    }
  }

  lemma WaitKeepsScanned(s: State, p: nat, ok: bool)
    requires Shapes(s) && Parents(s) && Scanned(s) && p < |s.procs| && CanRun(s, p) && !InFork(s.procs[p].pc)
    requires !InExit(s.procs[p].pc)
    ensures Scanned(WaitCode(s, p, ok))
  {
    hide WaitCode;
    assert Shape(s.procs[p], p);
    WaitSelf(s, p, ok);
    var t := WaitCode(s, p, ok);
    hide Shapes, Shape;
    forall c, q | 0 <= c < |t.procs| && 0 <= q < |t.procs| && ChildOf(t, c, q) && t.procs[c].state == ZOMBIE
      ensures !SeenAlive(t.procs[q].pc, c)
    {
      if c != p { WaitFrame(s, p, ok, c); }
      assert ChildOf(s, c, q);
      if q != p { WaitFrame(s, p, ok, q); } else { WaitScans(s, p, ok, c); }
    }
  }

  lemma WaitKeepsWatched(s: State, p: nat, ok: bool)
    requires Locks(s) && Shapes(s) && Parents(s) && Scanned(s) && Watched(s)
    requires p < |s.procs| && CanRun(s, p) && !InFork(s.procs[p].pc) && !InExit(s.procs[p].pc)
    ensures Watched(WaitCode(s, p, ok))
  {
    hide WaitCode;
    assert Shape(s.procs[p], p) && (InWaitLock(s.procs[p].pc) <==> s.wlock == Some(p));
    WaitSelf(s, p, ok);
    var t := WaitCode(s, p, ok);
    hide Shapes, Shape;
    forall c, q | 0 <= c < |t.procs| && 0 <= q < |t.procs| && ChildOf(t, c, q)
        && t.procs[c].state == ZOMBIE && GoingToSleep(t.procs[q])
      ensures q == INIT && WakingInit(t)
    {
      if c != p { WaitFrame(s, p, ok, c); }
      assert ChildOf(s, c, q);
      if q != p { WaitFrame(s, p, ok, q); }
      assert GoingToSleep(s.procs[q]);
      WaitFrame(s, p, ok, s.wlock.value);
    }
  }

  lemma WaitKeepsWaking(s: State, p: nat, ok: bool)
    requires Locks(s) && Shapes(s) && Parents(s) && Waking(s)
    requires p < |s.procs| && CanRun(s, p) && !InFork(s.procs[p].pc) && !InExit(s.procs[p].pc)
    ensures Waking(WaitCode(s, p, ok))
  {
    hide WaitCode;
    assert Shape(s.procs[p], p) && (InWaitLock(s.procs[p].pc) <==> s.wlock == Some(p));
    WaitSelf(s, p, ok);
    var t := WaitCode(s, p, ok);
    hide Shapes, Shape;
    forall c, q | 0 <= c < |t.procs| && 0 <= q < |t.procs| && ChildOf(t, c, q) && HasWoken(t.procs[c].pc, q)
      ensures !GoingToSleep(t.procs[q])
    {
      if c != p { WaitFrame(s, p, ok, c); }
      assert ChildOf(s, c, q) && (InWaitLock(s.procs[c].pc) <==> s.wlock == Some(c));
      if q != p { WaitFrame(s, p, ok, q); }
    }
  }

  /** What a stretch of exit does to another process: nothing, wake it, or give it to init. */
  lemma ExitFrame(s: State, p: nat, r: nat)
    requires p < |s.procs| && CanRun(s, p) && InExit(s.procs[p].pc) && r < |s.procs| && r != p
    ensures var q, t := s.procs[p], ExitCode(s, p);
            && |t.procs| == |s.procs|
            && (|| t.procs[r] == s.procs[r]
                || (t.procs[r] == s.procs[r].(state := RUNNABLE) && s.procs[r].state == SLEEPING)
                || (t.procs[r] == s.procs[r].(parent := Some(INIT))
                    && s.procs[r].parent == Some(p) && q.pc == ExitMove(r)))
            && (q.pc == ExitMove(r) ==> t.procs[r].parent != Some(p) || p == INIT)
  {
  }

  /** What a stretch of exit does to the process itself. */
  lemma ExitSelf(s: State, p: nat)
    requires p < |s.procs| && CanRun(s, p) && InExit(s.procs[p].pc) && s.procs[p].parent != Some(p)
    ensures var q, t := s.procs[p], ExitCode(s, p);
            var u := t.procs[p];
            && |t.procs| == |s.procs| && u.parent == q.parent
            && (if q.pc == ExitMark then u.pc == Gone && u.state == ZOMBIE
                else InExit(u.pc) && u.pc != ExitStart && u.state == RUNNING)
            && ((s.wlock == Some(p) <==> InWaitLock(q.pc)) ==>
                  && (t.wlock == Some(p) <==> InWaitLock(u.pc))
                  && (t.wlock == s.wlock || (s.wlock == None && t.wlock == Some(p)) ||
                      (s.wlock == Some(p) && t.wlock == None)))
            && (q.pc.ExitMove? && q.pc.i < |s.procs| && s.procs[q.pc.i].parent == Some(p) ==>
                  u.pc == ExitMoveWake(q.pc.i, 0))
  {
  }

  /** exit moves past a slot only when it holds no child of the process any more. */
  lemma ExitMoves(s: State, p: nat, c: nat)
    requires p < |s.procs| && CanRun(s, p) && InExit(s.procs[p].pc) && c < |s.procs| && p != INIT
    ensures ChildlessTo(ExitCode(s, p).procs[p].pc, c) ==>
            ChildlessTo(s.procs[p].pc, c) || ExitCode(s, p).procs[c].parent != Some(p) || c == p
  {
  }

  /** exit moves past its parent's slot only when the parent is not asleep. */
  lemma ExitWakes(s: State, p: nat, q: nat)
    requires p < |s.procs| && CanRun(s, p) && InExit(s.procs[p].pc) && q < |s.procs| && q != p
    requires s.procs[q].pc == SleepMark ==> s.procs[q].plock
    ensures s.procs[p].parent == Some(q) && HasWoken(ExitCode(s, p).procs[p].pc, q) ==>
            HasWoken(s.procs[p].pc, q) || !GoingToSleep(ExitCode(s, p).procs[q])
    ensures q == INIT && s.procs[p].pc.ExitMoveWake? && s.procs[p].pc.j <= INIT ==>
              !GoingToSleep(ExitCode(s, p).procs[q])
  {
  }

  lemma ExitKeepsLocks(s: State, p: nat)
    requires Locks(s) && Shapes(s) && p < |s.procs| && CanRun(s, p) && InExit(s.procs[p].pc)
    ensures Locks(ExitCode(s, p))
  {
    hide ExitCode;
    assert Shape(s.procs[p], p) && (InWaitLock(s.procs[p].pc) <==> s.wlock == Some(p));
    ExitSelf(s, p);
    hide Shapes, Shape;
    var t := ExitCode(s, p);
    forall r | 0 <= r < |t.procs| && r != p ensures InWaitLock(t.procs[r].pc) <==> t.wlock == Some(r) {
      ExitFrame(s, p, r);
      assert InWaitLock(s.procs[r].pc) <==> s.wlock == Some(r);
    }
  }

  lemma ExitKeepsShapes(s: State, p: nat)
    requires Shapes(s) && p < |s.procs| && CanRun(s, p) && InExit(s.procs[p].pc)
    ensures Shapes(ExitCode(s, p))
  {
    hide ExitCode;
    assert Shape(s.procs[p], p);
    ExitSelf(s, p);
    var t := ExitCode(s, p);
    forall r | 0 <= r < |t.procs| && r != p ensures Shape(t.procs[r], r) {
      ExitFrame(s, p, r);
      assert Shape(s.procs[r], r);
    }
  }

  lemma ExitKeepsForks(s: State, p: nat)
    requires Shapes(s) && Forks(s) && p < |s.procs| && CanRun(s, p) && InExit(s.procs[p].pc)
    ensures Forks(ExitCode(s, p))
  {
    hide ExitCode;
    assert Shape(s.procs[p], p);
    ExitSelf(s, p);
    var t := ExitCode(s, p);
    hide Shapes, Shape;
    forall r | 0 <= r < |t.procs| && HasSlot(t.procs[r].pc) ensures t.procs[r].pc == s.procs[r].pc && SlotOk(t, r) {
      ExitFrame(s, p, r);
      assert SlotOk(s, r);
      ExitFrame(s, p, s.procs[r].pc.c);
    }
  }

  lemma ExitKeepsParents(s: State, p: nat)
    requires |s.procs| > INIT && Shapes(s) && Parents(s) && p < |s.procs| && CanRun(s, p) && InExit(s.procs[p].pc)
    ensures Parents(ExitCode(s, p))
  {
    hide ExitCode;
    assert Shape(s.procs[p], p) && Shape(s.procs[INIT], INIT);
    ExitSelf(s, p);
    ExitFrame(s, p, INIT);
    var t := ExitCode(s, p);
    hide Shapes, Shape;
    forall c | 0 <= c < |t.procs| && t.procs[c].parent.Some?
      ensures t.procs[c].parent == s.procs[c].parent || t.procs[c].parent == Some(INIT)
    {
      if c != p { ExitFrame(s, p, c); }
    }
    forall c, q | 0 <= c < |t.procs| && 0 <= q < |t.procs| && ChildOf(t, c, q)
      ensures Alive(t.procs[q]) && !ChildlessTo(t.procs[q].pc, c)
    {
      if q != INIT {
        assert ChildOf(s, c, q);
        if q != p { ExitFrame(s, p, q); } else { ExitMoves(s, p, c); }
      }
    }
  }

  lemma ExitKeepsScanned(s: State, p: nat)
    requires Locks(s) && Shapes(s) && Scanned(s) && p < |s.procs| && CanRun(s, p) && InExit(s.procs[p].pc)
    ensures Scanned(ExitCode(s, p))
  {
    hide ExitCode;
    assert Shape(s.procs[p], p) && (InWaitLock(s.procs[p].pc) <==> s.wlock == Some(p));
    ExitSelf(s, p);
    var t := ExitCode(s, p);
    hide Shapes, Shape;
    forall c, q | 0 <= c < |t.procs| && 0 <= q < |t.procs| && ChildOf(t, c, q) && t.procs[c].state == ZOMBIE
      ensures !SeenAlive(t.procs[q].pc, c)
    {
      if q != p {
        ExitFrame(s, p, q);
        assert InWaitLock(s.procs[q].pc) <==> s.wlock == Some(q);
        if c != p { ExitFrame(s, p, c); }
        assert ChildOf(s, c, q) || InWaitLock(s.procs[p].pc);
      }
    }
  }

  lemma ExitKeepsWatched(s: State, p: nat)
    requires Locks(s) && Shapes(s) && Watched(s) && Waking(s) && p < |s.procs| && CanRun(s, p) && InExit(s.procs[p].pc)
    ensures Watched(ExitCode(s, p))
  {
    hide ExitCode;
    assert Shape(s.procs[p], p) && (InWaitLock(s.procs[p].pc) <==> s.wlock == Some(p));
    ExitSelf(s, p);
    var t := ExitCode(s, p);
    forall c, q | 0 <= c < |t.procs| && 0 <= q < |t.procs| && ChildOf(t, c, q)
        && t.procs[c].state == ZOMBIE && GoingToSleep(t.procs[q])
      ensures q == INIT && WakingInit(t)
    {
      assert Shape(s.procs[q], q);
      ExitFrame(s, p, q);
      hide Shapes, Shape;
      ExitWakes(s, p, q);
      if c != p { ExitFrame(s, p, c); }
      if ChildOf(s, c, q) {}
    }
  }

  lemma ExitKeepsWaking(s: State, p: nat)
    requires Locks(s) && Shapes(s) && Waking(s) && p < |s.procs| && CanRun(s, p) && InExit(s.procs[p].pc)
    ensures Waking(ExitCode(s, p))
  {
    hide ExitCode;
    assert Shape(s.procs[p], p) && (InWaitLock(s.procs[p].pc) <==> s.wlock == Some(p));
    ExitSelf(s, p);
    var t := ExitCode(s, p);
    forall c, q | 0 <= c < |t.procs| && 0 <= q < |t.procs| && ChildOf(t, c, q) && HasWoken(t.procs[c].pc, q)
      ensures !GoingToSleep(t.procs[q])
    {
      assert Shape(s.procs[q], q);
      hide Shapes, Shape;
      if q != p {
        ExitFrame(s, p, q);
        ExitWakes(s, p, q);
        if c != p { ExitFrame(s, p, c); }
        assert InWaitLock(s.procs[c].pc) <==> s.wlock == Some(c);
        if ChildOf(s, c, q) {}
      }
    }
  }

  /** What a stretch of fork does to another slot: nothing, or one of the five things done to the child's slot. */
  lemma ForkFrame(s: State, p: nat, ok: bool, r: nat)
    requires p < |s.procs| && CanRun(s, p) && InFork(s.procs[p].pc) && r < |s.procs| && r != p
    ensures var q, t := s.procs[p], ForkCode(s, p, ok);
            var v, u := s.procs[r], t.procs[r];
            && |t.procs| == |s.procs| && t.wlock == s.wlock
            && (|| u == v
                || (q.pc == ForkAlloc(r) && v.state == UNUSED && u == v.(pc := Embryo, state := USED, plock := true)
                    && t.procs[p].pc == ForkCopy(r))
                || (q.pc == ForkCopy(r) && (u == v.(plock := false) || (u == Free && t.procs[p].pc == User)))
                || (q.pc == ForkLink(r) && u == v.(parent := Some(p)))
                || (q.pc == ForkReady(r) && u == v.(pc := User, state := RUNNABLE) && t.procs[p].pc == User))
            && (q.pc == ForkLink(r) ==> u.parent == Some(p))
  {
  }

  lemma ForkSelf(s: State, p: nat, ok: bool)
    requires p < |s.procs| && CanRun(s, p) && InFork(s.procs[p].pc)
    requires HasSlot(s.procs[p].pc) ==> s.procs[p].pc.c != p
    ensures var q, t := s.procs[p], ForkCode(s, p, ok);
            var u := t.procs[p];
            && |t.procs| == |s.procs| && t.wlock == s.wlock && u == q.(pc := u.pc) && (InFork(u.pc) || u.pc == User)
            && (HasSlot(u.pc) ==>
                  && (u.pc.ForkReady? <==> q.pc.ForkLink?)
                  && u.pc.c < |s.procs|
                  && if q.pc.ForkAlloc? then q.pc.i == u.pc.c && u.pc.c != p && s.procs[u.pc.c].state == UNUSED
                     else u.pc.c == q.pc.c)
  {
  }

  /** The slot a fork has taken is not its own, and nobody else's. */
  lemma ForkSlot(s: State, p: nat)
    requires Shapes(s) && Forks(s) && p < |s.procs| && CanRun(s, p) && InFork(s.procs[p].pc)
    ensures HasSlot(s.procs[p].pc) ==>
            var c := s.procs[p].pc.c;
            && c != p && c < |s.procs| && c != INIT && s.procs[c].state == USED && s.procs[c].pc == Embryo
            && s.procs[c].parent == if s.procs[p].pc.ForkReady? then Some(p) else None
  {
    if HasSlot(s.procs[p].pc) {
      assert SlotOk(s, p);
      assert Shape(s.procs[s.procs[p].pc.c], s.procs[p].pc.c);
    }
  }

  /** fork touches no process but itself: only a slot that holds no process yet. */
  lemma ForkOthers(s: State, p: nat, ok: bool, r: nat)
    requires Shapes(s) && Forks(s) && p < |s.procs| && CanRun(s, p) && InFork(s.procs[p].pc) && r < |s.procs| && r != p
    ensures var t := ForkCode(s, p, ok);
            var v, u := s.procs[r], t.procs[r];
            && |t.procs| == |s.procs|
            && (|| u == v
                || (&& (v.pc == Dead || v.pc == Embryo) && (u.pc == Dead || u.pc == Embryo || u.pc == User)
                    && u.state != ZOMBIE && !Alive(v) && v.state != ZOMBIE && (u.parent.Some? ==> u.parent == Some(p))))
  {
    hide ForkCode;
    ForkFrame(s, p, ok, r);
    ForkSlot(s, p);
    assert Shape(s.procs[r], r);
  }

  lemma ForkKeepsLocks(s: State, p: nat, ok: bool)
    requires Locks(s) && Shapes(s) && Forks(s) && p < |s.procs| && CanRun(s, p) && InFork(s.procs[p].pc)
    ensures Locks(ForkCode(s, p, ok))
  {
    hide ForkCode;
    ForkSlot(s, p);
    ForkSelf(s, p, ok);
    var t := ForkCode(s, p, ok);
    forall r | 0 <= r < |t.procs| ensures InWaitLock(t.procs[r].pc) <==> t.wlock == Some(r) {
      assert InWaitLock(s.procs[r].pc) <==> s.wlock == Some(r);
      if r != p { ForkOthers(s, p, ok, r); }
    }
  }

  lemma ForkKeepsShapes(s: State, p: nat, ok: bool)
    requires Shapes(s) && Forks(s) && p < |s.procs| && CanRun(s, p) && InFork(s.procs[p].pc)
    ensures Shapes(ForkCode(s, p, ok))
  {
    hide ForkCode;
    ForkSlot(s, p);
    ForkSelf(s, p, ok);
    hide Forks;
    var t := ForkCode(s, p, ok);
    forall r | 0 <= r < |t.procs| ensures Shape(t.procs[r], r) {
      assert Shape(s.procs[r], r);
      if r != p { ForkFrame(s, p, ok, r); }
    }
  }

  lemma ForkKeepsForks(s: State, p: nat, ok: bool)
    requires Shapes(s) && Forks(s) && p < |s.procs| && CanRun(s, p) && InFork(s.procs[p].pc)
    ensures Forks(ForkCode(s, p, ok))
  {
    hide ForkCode;
    ForkSlot(s, p);
    ForkSelf(s, p, ok);
    var t := ForkCode(s, p, ok);
    forall r | 0 <= r < |t.procs| && r != p && HasSlot(t.procs[r].pc)
      ensures t.procs[r].pc == s.procs[r].pc && SlotOk(t, r)
      ensures HasSlot(t.procs[p].pc) ==> t.procs[r].pc.c != t.procs[p].pc.c
    {
      ForkOthers(s, p, ok, r);
      assert SlotOk(s, r);
      hide Shapes;
      ForkFrame(s, p, ok, s.procs[r].pc.c);
    }
    ForkTakes(s, p, ok);
  }

  /** The slot of a fork is in use without a parent, and has the forking process as its parent once linked. */
  lemma ForkTakes(s: State, p: nat, ok: bool)
    requires Shapes(s) && p < |s.procs| && CanRun(s, p) && InFork(s.procs[p].pc)
    requires HasSlot(s.procs[p].pc) ==> s.procs[p].pc.c != p && SlotOk(s, p)
    ensures HasSlot(ForkCode(s, p, ok).procs[p].pc) ==> SlotOk(ForkCode(s, p, ok), p)
  {
    if s.procs[p].pc.ForkAlloc? && s.procs[p].pc.i < |s.procs| {
      assert Shape(s.procs[s.procs[p].pc.i], s.procs[p].pc.i);
    }
  }

  lemma ForkKeepsParents(s: State, p: nat, ok: bool)
    requires Shapes(s) && Forks(s) && Parents(s) && p < |s.procs| && CanRun(s, p) && InFork(s.procs[p].pc)
    ensures Parents(ForkCode(s, p, ok))
  {
    hide ForkCode;
    ForkSlot(s, p);
    ForkSelf(s, p, ok);
    var t := ForkCode(s, p, ok);
    forall c | 0 <= c < |t.procs| && t.procs[c].parent.Some?
      ensures t.procs[c].parent == s.procs[c].parent || t.procs[c].parent == Some(p)
    {
      if c != p { ForkOthers(s, p, ok, c); }
    }
    forall c, q | 0 <= c < |t.procs| && 0 <= q < |t.procs| && ChildOf(t, c, q)
      ensures Alive(t.procs[q]) && !ChildlessTo(t.procs[q].pc, c)
    {
      if q != p {
        assert ChildOf(s, c, q);
        ForkOthers(s, p, ok, q);
      }
    }
  }

  lemma ForkKeepsScanned(s: State, p: nat, ok: bool)
    requires Shapes(s) && Forks(s) && Scanned(s) && p < |s.procs| && CanRun(s, p) && InFork(s.procs[p].pc)
    ensures Scanned(ForkCode(s, p, ok))
  {
    hide ForkCode;
    ForkSlot(s, p);
    ForkSelf(s, p, ok);
    var t := ForkCode(s, p, ok);
    forall c, q | 0 <= c < |t.procs| && 0 <= q < |t.procs| && ChildOf(t, c, q) && t.procs[c].state == ZOMBIE
      ensures !SeenAlive(t.procs[q].pc, c)
    {
      if c != p { ForkOthers(s, p, ok, c); }
      assert ChildOf(s, c, q);
      if q != p { ForkOthers(s, p, ok, q); }
    }
  }

  lemma ForkKeepsWatched(s: State, p: nat, ok: bool)
    requires Shapes(s) && Forks(s) && Watched(s) && p < |s.procs| && CanRun(s, p) && InFork(s.procs[p].pc)
    ensures Watched(ForkCode(s, p, ok))
  {
    hide ForkCode;
    ForkSlot(s, p);
    ForkSelf(s, p, ok);
    var t := ForkCode(s, p, ok);
    forall c, q | 0 <= c < |t.procs| && 0 <= q < |t.procs| && ChildOf(t, c, q)
        && t.procs[c].state == ZOMBIE && GoingToSleep(t.procs[q])
      ensures q == INIT && WakingInit(t)
    {
      if c != p { ForkOthers(s, p, ok, c); }
      assert ChildOf(s, c, q);
      if q != p { ForkOthers(s, p, ok, q); }
      ForkOthers(s, p, ok, s.wlock.value);
    }
  }

  lemma ForkKeepsWaking(s: State, p: nat, ok: bool)
    requires Shapes(s) && Forks(s) && Waking(s) && p < |s.procs| && CanRun(s, p) && InFork(s.procs[p].pc)
    ensures Waking(ForkCode(s, p, ok))
  {
    hide ForkCode;
    ForkSlot(s, p);
    ForkSelf(s, p, ok);
    var t := ForkCode(s, p, ok);
    forall c, q | 0 <= c < |t.procs| && 0 <= q < |t.procs| && ChildOf(t, c, q) && HasWoken(t.procs[c].pc, q)
      ensures !GoingToSleep(t.procs[q])
    {
      if c != p { ForkOthers(s, p, ok, c); }
      assert ChildOf(s, c, q);
      if q != p { ForkOthers(s, p, ok, q); }
    }
  }

  /** The change made to a process by the scheduler, by kill, or by entering a call. */
  ghost predicate Mild(v: Proc, u: Proc) {
    && u.parent == v.parent
    && (u.pc == v.pc || ((v.pc == User || v.pc == Asleep)
        && (u.pc == ForkAlloc(0) || u.pc == ExitStart || u.pc == WaitStart || u.pc == Woken)))
    && (Alive(u) <==> Alive(v)) && (u.state == ZOMBIE <==> v.state == ZOMBIE) && (u.state == USED <==> v.state == USED)
    && (GoingToSleep(u) ==> GoingToSleep(v))
  }

  lemma OtherIsMild(s: State, step: Step)
    requires Shapes(s) && Enabled(s, step) && !step.Run?
    ensures var u := Apply(s, step).procs[step.p];
            Apply(s, step) == Put(s, step.p, u) && Mild(s.procs[step.p], u) && Shape(u, step.p)
  {
    assert Shape(s.procs[step.p], step.p);
  }

  lemma MildKeepsInv(s: State, p: nat, u: Proc)
    requires Inv(s) && p < |s.procs| && Mild(s.procs[p], u) && Shape(u, p)
    ensures Inv(Put(s, p, u))
  {
    MildKeepsForks(s, p, u);
    MildKeepsFamilies(s, p, u);
    var t := Put(s, p, u);
    hide Forks, Parents, Scanned, Watched, Waking, Shape;
    forall r | 0 <= r < |t.procs| ensures InWaitLock(t.procs[r].pc) <==> t.wlock == Some(r) {
      assert InWaitLock(s.procs[r].pc) <==> s.wlock == Some(r);
    }
  }

  lemma MildKeepsForks(s: State, p: nat, u: Proc)
    requires Forks(s) && p < |s.procs| && Mild(s.procs[p], u)
    ensures Forks(Put(s, p, u))
  {
    var t := Put(s, p, u);
    forall r | 0 <= r < |t.procs| && HasSlot(t.procs[r].pc) ensures t.procs[r].pc == s.procs[r].pc && SlotOk(t, r) {
      assert SlotOk(s, r);
    }
  }

  lemma MildKeepsFamilies(s: State, p: nat, u: Proc)
    requires Parents(s) && Scanned(s) && Watched(s) && Waking(s) && p < |s.procs| && Mild(s.procs[p], u)
    ensures var t := Put(s, p, u); Parents(t) && Scanned(t) && Watched(t) && Waking(t)
  {
    var t := Put(s, p, u);
    forall c, q | 0 <= c < |t.procs| && 0 <= q < |t.procs| && ChildOf(t, c, q)
      ensures Alive(t.procs[q]) && !ChildlessTo(t.procs[q].pc, c)
      ensures t.procs[c].state == ZOMBIE ==> !SeenAlive(t.procs[q].pc, c)
      ensures t.procs[c].state == ZOMBIE && GoingToSleep(t.procs[q]) ==> q == INIT && WakingInit(t)
      ensures HasWoken(t.procs[c].pc, q) ==> !GoingToSleep(t.procs[q])
    {
      assert ChildOf(s, c, q);
    }
  }

  lemma RunKeepsInv(s: State, p: nat, ok: bool)
    requires Inv(s) && Enabled(s, Run(p, ok))
    ensures Inv(Apply(s, Run(p, ok)))
  {
    hide ForkCode, ExitCode, WaitCode, Locks, Shapes, Forks, Parents, Scanned, Watched, Waking;
    if InFork(s.procs[p].pc) {
      ForkKeepsLocks(s, p, ok);
      ForkKeepsShapes(s, p, ok);
      ForkKeepsForks(s, p, ok);
      ForkKeepsParents(s, p, ok);
      ForkKeepsScanned(s, p, ok);
      ForkKeepsWatched(s, p, ok);
      ForkKeepsWaking(s, p, ok);
    } else if InExit(s.procs[p].pc) {
      assert |s.procs| > INIT;
      ExitKeepsLocks(s, p);
      ExitKeepsShapes(s, p);
      ExitKeepsForks(s, p);
      ExitKeepsParents(s, p);
      ExitKeepsScanned(s, p);
      ExitKeepsWatched(s, p);
      ExitKeepsWaking(s, p);
    } else {
      WaitKeepsLocks(s, p, ok);
      WaitKeepsShapes(s, p, ok);
      WaitKeepsForks(s, p, ok);
      WaitKeepsParents(s, p, ok);
      WaitKeepsScanned(s, p, ok);
      WaitKeepsWatched(s, p, ok);
      WaitKeepsWaking(s, p, ok);
    }
  }

  lemma ApplyKeepsInv(s: State, step: Step)
    requires Inv(s) && Enabled(s, step)
    ensures Inv(Apply(s, step))
  {
    if step.Run? {
      RunKeepsInv(s, step.p, step.ok);
    } else {
      OtherIsMild(s, step);
      hide Apply, Shape, Mild;
      MildKeepsInv(s, step.p, Apply(s, step).procs[step.p]);
    }
  }

  lemma {:induction false} RunsKeepInv(n: nat, steps: seq<Step>)
    requires n > 0
    ensures After(n, steps).Some? ==> Inv(After(n, steps).value)
  {
    if steps == [] {
      assert forall p | 0 <= p < n :: Shape(Boot(n).procs[p], p);
    } else {
      var before := steps[..|steps| - 1];
      RunsKeepInv(n, before);
      hide Inv, Apply, Enabled;
      if After(n, steps).Some? { ApplyKeepsInv(After(n, before).value, steps[|steps| - 1]); }
    }
  }

  /**
   * In every reachable state with wait_lock free, nobody who is asleep in wait, or on the way
   * there without wait_lock, has a zombie child: no exit is missed.
   */
  lemma NoMissedExit(n: nat, steps: seq<Step>, c: nat, q: nat)
    requires n > 0 && After(n, steps).Some? && After(n, steps).value.wlock == None
    requires ChildOf(After(n, steps).value, c, q) && After(n, steps).value.procs[c].state == ZOMBIE
    ensures !GoingToSleep(After(n, steps).value.procs[q])
  {
    RunsKeepInv(n, steps);
  }

  /** In every reachable state each process but init has a parent, and that parent is neither free nor a zombie. */
  lemma ParentsLive(n: nat, steps: seq<Step>, c: nat)
    requires n > 0 && After(n, steps).Some? && c != INIT && c < |After(n, steps).value.procs|
    requires Alive(After(n, steps).value.procs[c]) || After(n, steps).value.procs[c].state == ZOMBIE
    ensures var s := After(n, steps).value;
            && s.procs[c].parent.Some? && s.procs[c].parent.value < |s.procs| && s.procs[c].parent.value != c
            && Alive(s.procs[s.procs[c].parent.value])
  {
    RunsKeepInv(n, steps);
    var s := After(n, steps).value;
    assert Shape(s.procs[c], c);
    assert ChildOf(s, c, s.procs[c].parent.value);
  }

  /**
   * A zombie leaves the table in one way: its parent's wait, holding wait_lock, finds it after it has
   * switched to the scheduler for the last time, frees its slot and returns.
   */
  lemma ReapedByParent(n: nat, steps: seq<Step>, step: Step, c: nat)
    requires n > 0 && After(n, steps).Some? && Enabled(After(n, steps).value, step)
    requires c < |After(n, steps).value.procs| && After(n, steps).value.procs[c].state == ZOMBIE
    ensures var s := After(n, steps).value;
            var t := Apply(s, step);
            && c < |t.procs|
            && (t.procs[c].state != ZOMBIE <==>
                  && step.Run? && step.ok && s.procs[c].parent == Some(step.p)
                  && s.procs[step.p].pc.Scan? && s.procs[step.p].pc.i == c)
            && (t.procs[c].state != ZOMBIE ==>
                  && s.wlock == Some(step.p) && !s.procs[c].plock
                  && t.procs[c] == Free && t.procs[step.p].pc == User && t.wlock == None)
  {
    RunsKeepInv(n, steps);
    ReapStep(After(n, steps).value, step, c);
  }

  lemma ReapStep(s: State, step: Step, c: nat)
    requires Inv(s) && Enabled(s, step) && c < |s.procs| && s.procs[c].state == ZOMBIE
    ensures var t := Apply(s, step);
            && c < |t.procs|
            && (t.procs[c].state != ZOMBIE <==>
                  && step.Run? && step.ok && s.procs[c].parent == Some(step.p)
                  && s.procs[step.p].pc.Scan? && s.procs[step.p].pc.i == c)
            && (t.procs[c].state != ZOMBIE ==>
                  && s.wlock == Some(step.p) && !s.procs[c].plock
                  && t.procs[c] == Free && t.procs[step.p].pc == User && t.wlock == None)
  {
    var p := step.p;
    assert InWaitLock(s.procs[p].pc) <==> s.wlock == Some(p);
    if step.Run? && InFork(s.procs[p].pc) {
      hide ForkCode;
      ForkOthers(s, p, step.ok, c);
    } else if step.Run? && InExit(s.procs[p].pc) {
      hide ExitCode;
      ExitFrame(s, p, c);
    } else {
      hide Inv;
    }
  }

  // ---- who is whose child ----

  /** How the parent of slot c can change in one step: fork links it, exit gives it away, wait frees it. */
  ghost predicate ParentMoves(s: State, t: State, step: Step, c: nat)
    requires step.p < |s.procs| && c < |s.procs| && c < |t.procs|
  {
    var pc, was, now := s.procs[step.p].pc, s.procs[c].parent, t.procs[c].parent;
    || now == was
    || (step.Run? && pc == ForkLink(c) && s.wlock == None && was == None && now == Some(step.p))
    || (step.Run? && pc == ExitMove(c) && s.wlock == Some(step.p) && was == Some(step.p) && now == Some(INIT))
    || (step.Run? && step.ok && pc.Scan? && pc.i == c && s.wlock == Some(step.p) && was == Some(step.p)
        && s.procs[c].state == ZOMBIE && t.procs[c] == Free)
  }

  lemma ParentStep(s: State, step: Step, c: nat)
    requires Inv(s) && Enabled(s, step) && c < |s.procs|
    ensures |Apply(s, step).procs| == |s.procs| && ParentMoves(s, Apply(s, step), step, c)
  {
    var p := step.p;
    assert InWaitLock(s.procs[p].pc) <==> s.wlock == Some(p);
    assert Shape(s.procs[c], c) && Shape(s.procs[p], p);
    if HasSlot(s.procs[p].pc) { assert SlotOk(s, p); }
    hide Inv, Locks, Shapes, Forks;
    if step.Run? && InFork(s.procs[p].pc) {
      ForkParent(s, p, step.ok, c);
    } else if step.Run? && InExit(s.procs[p].pc) {
      ExitParent(s, p, c);
    }
  }

  lemma ForkParent(s: State, p: nat, ok: bool, c: nat)
    requires p < |s.procs| && CanRun(s, p) && InFork(s.procs[p].pc) && c < |s.procs|
    requires HasSlot(s.procs[p].pc) ==> SlotOk(s, p)
    requires s.procs[c].state == UNUSED ==> s.procs[c].parent == None
    ensures var t := ForkCode(s, p, ok);
            && |t.procs| == |s.procs|
            && (t.procs[c].parent == s.procs[c].parent
                || (s.procs[p].pc == ForkLink(c) && s.procs[c].parent == None && t.procs[c].parent == Some(p)))
  {
  }

  lemma ExitParent(s: State, p: nat, c: nat)
    requires p < |s.procs| && CanRun(s, p) && InExit(s.procs[p].pc) && c < |s.procs|
    ensures var t := ExitCode(s, p);
            && |t.procs| == |s.procs|
            && (t.procs[c].parent == s.procs[c].parent
                || (s.procs[p].pc == ExitMove(c) && s.procs[c].parent == Some(p) && t.procs[c].parent == Some(INIT)))
  {
  }

  /** In every run a process gets its parent from fork, or init when that exits, and loses it to a reaping wait. */
  lemma ParentsMove(n: nat, steps: seq<Step>, step: Step, c: nat)
    requires n > 0 && After(n, steps).Some? && Enabled(After(n, steps).value, step)
    requires c < |After(n, steps).value.procs|
    ensures var s := After(n, steps).value;
            |Apply(s, step).procs| == |s.procs| && ParentMoves(s, Apply(s, step), step, c)
  {
    RunsKeepInv(n, steps);
    ParentStep(After(n, steps).value, step, c);
  }

  // ---- what wait knows ----

  /** Process p has a child in a slot below i. */
  ghost predicate KidBelow(s: State, p: nat, i: nat) {
    exists c: nat :: c < i && ChildOf(s, c, p)
  }

  /** havekids says whether the slots passed hold a child, and a process that is going to sleep has one. */
  ghost predicate Counted(s: State, p: nat)
    requires p < |s.procs|
  {
    && (s.procs[p].pc.Scan? ==> (s.procs[p].pc.kids <==> KidBelow(s, p, s.procs[p].pc.i)))
    && (s.procs[p].pc.SleepLock? || s.procs[p].pc.SleepDrop? ==> KidBelow(s, p, |s.procs|))
  }

  /** While p has wait_lock, nobody else changes its children. */
  lemma KidsStay(s: State, step: Step, p: nat, i: nat)
    requires Inv(s) && Enabled(s, step) && s.wlock == Some(p) && (step.p != p || !step.Run?)
    ensures KidBelow(Apply(s, step), p, i) <==> KidBelow(s, p, i)
  {
    var t := Apply(s, step);
    forall c: nat ensures ChildOf(t, c, p) <==> ChildOf(s, c, p) {
      ParentStep(s, step, if c < |s.procs| then c else p);
      hide Inv, Apply, Enabled;
    }
  }

  lemma OthersKeepPc(s: State, step: Step, p: nat)
    requires Inv(s) && Enabled(s, step) && p < |s.procs| && InWaitLock(s.procs[p].pc) && (step.p != p || !step.Run?)
    ensures p < |Apply(s, step).procs| && Apply(s, step).procs[p].pc == s.procs[p].pc
  {
    var q := step.p;
    assert Shape(s.procs[p], p);
    if step.Run? && InFork(s.procs[q].pc) {
      ForkOthers(s, q, step.ok, p);
      hide ForkCode;
    } else if step.Run? && InExit(s.procs[q].pc) {
      ExitFrame(s, q, p);
      hide ExitCode;
    } else if step.Run? {
      WaitFrame(s, q, step.ok, p);
      hide WaitCode;
    }
  }

  /** A stretch of p's own code. */
  lemma OwnCounted(s: State, p: nat, ok: bool)
    requires Inv(s) && p < |s.procs| && CanRun(s, p) && Counted(s, p)
    ensures p < |Apply(s, Run(p, ok)).procs| && Counted(Apply(s, Run(p, ok)), p)
  {
    if InFork(s.procs[p].pc) || InExit(s.procs[p].pc) {
      NotIntoWait(s, p, ok);
    } else {
      assert Shape(s.procs[p], p);
      hide Inv;
      WaitCounted(s, p, ok);
    }
  }

  lemma NotIntoWait(s: State, p: nat, ok: bool)
    requires Inv(s) && p < |s.procs| && CanRun(s, p) && (InFork(s.procs[p].pc) || InExit(s.procs[p].pc))
    ensures var t := Apply(s, Run(p, ok));
            p < |t.procs| && !InWait(t.procs[p].pc)
  {
    hide ForkCode, ExitCode;
    assert Shape(s.procs[p], p);
    if InFork(s.procs[p].pc) {
      ForkSlot(s, p);
      ForkSelf(s, p, ok);
    } else {
      ExitSelf(s, p);
    }
  }

  lemma WaitCounted(s: State, p: nat, ok: bool)
    requires p < |s.procs| && CanRun(s, p) && !InFork(s.procs[p].pc) && !InExit(s.procs[p].pc) && Counted(s, p)
    ensures |WaitCode(s, p, ok).procs| == |s.procs| && Counted(WaitCode(s, p, ok), p)
  {
    var q, t := s.procs[p], WaitCode(s, p, ok);
    if !InWaitLock(t.procs[p].pc) { return; }
    assert forall c: nat :: ChildOf(t, c, p) <==> ChildOf(s, c, p);
    if q.pc.Scan? && q.pc.i < |s.procs| {
      var i := q.pc.i;
      if ChildOf(s, i, p) {
        assert i < i + 1 && ChildOf(t, i, p);
      } else if KidBelow(s, p, i) {
        var c: nat :| c < i && ChildOf(s, c, p);
        assert c < i + 1 && ChildOf(t, c, p);
      }
    } else if q.pc.Scan? && q.pc.kids {
      var c: nat :| c < q.pc.i && ChildOf(s, c, p);
      assert c < |t.procs| && ChildOf(t, c, p);
    } else if q.pc.SleepLock? {
      var c: nat :| c < |s.procs| && ChildOf(s, c, p);
      assert c < |t.procs| && ChildOf(t, c, p);
    }
  }

  lemma {:induction false} AllCounted(n: nat, steps: seq<Step>, p: nat)
    requires n > 0 && After(n, steps).Some? && p < |After(n, steps).value.procs|
    ensures Counted(After(n, steps).value, p)
  {
    if steps != [] {
      var init, last := steps[..|steps| - 1], steps[|steps| - 1];
      var s := After(n, init).value;
      RunsKeepInv(n, init);
      ParentStep(s, last, 0);
      AllCounted(n, init, p);
      hide Inv, Apply, Enabled;
      StepCounted(s, last, p);
    }
  }

  lemma StepCounted(s: State, step: Step, p: nat)
    requires Inv(s) && Enabled(s, step) && p < |s.procs| && Counted(s, p)
    ensures p < |Apply(s, step).procs| && Counted(Apply(s, step), p)
  {
    var t := Apply(s, step);
    ParentStep(s, step, p);
    ApplyKeepsInv(s, step);
    assert (InWaitLock(s.procs[p].pc) <==> s.wlock == Some(p)) && (InWaitLock(t.procs[p].pc) <==> t.wlock == Some(p));
    if step.Run? && step.p == p {
      OwnCounted(s, p, step.ok);
    } else if InWaitLock(s.procs[p].pc) {
      OthersKeepPc(s, step, p);
      KidsStay(s, step, p, if s.procs[p].pc.Scan? then s.procs[p].pc.i else |s.procs|);
    } else {
      NotIntoLock(s, step, p);
    }
  }

  /** Nobody comes to hold wait_lock but by its own code. */
  lemma NotIntoLock(s: State, step: Step, p: nat)
    requires Inv(s) && Enabled(s, step) && p < |s.procs| && !InWaitLock(s.procs[p].pc) && (step.p != p || !step.Run?)
    ensures p < |Apply(s, step).procs| && !InWaitLock(Apply(s, step).procs[p].pc)
  {
    var q := step.p;
    assert Shape(s.procs[p], p);
    if step.Run? && InFork(s.procs[q].pc) {
      ForkOthers(s, q, step.ok, p);
      hide ForkCode;
    } else if step.Run? && InExit(s.procs[q].pc) {
      ExitFrame(s, q, p);
      hide ExitCode;
    } else if step.Run? {
      WaitFrame(s, q, step.ok, p);
      hide WaitCode;
    }
  }

  // ---- how the calls end ----

  predicate InWait(pc: Pc) {
    pc.WaitStart? || pc.Scan? || pc.SleepLock? || pc.SleepDrop? || pc.SleepMark? || pc.Asleep? || pc.Woken?
  }

  /** wait of p ended with a zombie child freed, or none touched: copyout failed, no child, or p is killed. */
  ghost predicate WaitEnded(s: State, t: State, step: Step, p: nat)
    requires p < |s.procs| == |t.procs|
  {
    && step.Run? && step.p == p && t.procs[p].pc == User && s.wlock == Some(p) && t.wlock == None
    && var c := if s.procs[p].pc.Scan? then s.procs[p].pc.i else 0;
       if c < |s.procs|
       then ChildOf(s, c, p) && s.procs[c].state == ZOMBIE && t.procs[c] == if step.ok then Free else s.procs[c]
       else (forall k: nat :: !ChildOf(s, k, p)) || s.procs[p].killed
  }

  lemma WaitEnds(n: nat, steps: seq<Step>, step: Step, p: nat)
    requires n > 0 && After(n, steps).Some? && Enabled(After(n, steps).value, step)
    requires p < |After(n, steps).value.procs| && InWait(After(n, steps).value.procs[p].pc)
    ensures var s := After(n, steps).value;
            var t := Apply(s, step);
            |t.procs| == |s.procs| && (!InWait(t.procs[p].pc) ==> WaitEnded(s, t, step, p))
  {
    RunsKeepInv(n, steps);
    AllCounted(n, steps, p);
    WaitEndStep(After(n, steps).value, step, p);
  }

  lemma WaitEndStep(s: State, step: Step, p: nat)
    requires Inv(s) && Enabled(s, step) && p < |s.procs| && InWait(s.procs[p].pc) && Counted(s, p)
    ensures |Apply(s, step).procs| == |s.procs|
    ensures !InWait(Apply(s, step).procs[p].pc) ==> WaitEnded(s, Apply(s, step), step, p)
  {
    ParentStep(s, step, p);
    assert Shape(s.procs[p], p) && (InWaitLock(s.procs[p].pc) <==> s.wlock == Some(p));
    var q := step.p;
    if step.Run? && q == p {
      hide Inv;
      if s.procs[p].pc.Scan? && s.procs[p].pc.i >= |s.procs| && !s.procs[p].pc.kids {
        forall k: nat ensures !ChildOf(s, k, p) { assert !(k < s.procs[p].pc.i && ChildOf(s, k, p)); }
      }
    } else if step.Run? && InFork(s.procs[q].pc) {
      ForkOthers(s, q, step.ok, p);
      hide ForkCode, Inv;
    } else if step.Run? && InExit(s.procs[q].pc) {
      ExitFrame(s, q, p);
      hide ExitCode, Inv;
    } else if step.Run? {
      WaitFrame(s, q, step.ok, p);
      hide WaitCode, Inv;
    } else {
      hide Inv;
    }
  }

  /** A process goes to sleep in wait only if it was not killed and has children, none of them a zombie. */
  lemma SleepsForChild(n: nat, steps: seq<Step>, ok: bool, p: nat)
    requires n > 0 && After(n, steps).Some? && Enabled(After(n, steps).value, Run(p, ok))
    requires After(n, steps).value.procs[p].pc.Scan?
    ensures var s := After(n, steps).value;
            var t := Apply(s, Run(p, ok));
            p < |t.procs| && (t.procs[p].pc.SleepLock? ==>
              && !s.procs[p].killed && (exists c :: ChildOf(s, c, p))
              && forall c: nat | ChildOf(s, c, p) :: s.procs[c].state != ZOMBIE)
  {
    RunsKeepInv(n, steps);
    AllCounted(n, steps, p);
    var s := After(n, steps).value;
    var i := s.procs[p].pc.i;
    if i >= |s.procs| && s.procs[p].pc.kids {
      var k: nat :| k < i && ChildOf(s, k, p);
      forall c: nat | ChildOf(s, c, p) ensures s.procs[c].state != ZOMBIE { assert SeenAlive(s.procs[p].pc, c); }
    }
    hide Inv;
  }

  /**
   * exit ends in a zombie without children, whose parent is not asleep in wait or on its way there.
   */
  lemma ExitEnds(n: nat, steps: seq<Step>, step: Step, p: nat)
    requires n > 0 && After(n, steps).Some? && Enabled(After(n, steps).value, step)
    requires p < |After(n, steps).value.procs| && InExit(After(n, steps).value.procs[p].pc)
    ensures var s := After(n, steps).value;
            var t := Apply(s, step);
            && |t.procs| == |s.procs|
            && (!InExit(t.procs[p].pc) ==>
                  && step.Run? && step.p == p && t.procs[p].state == ZOMBIE && t.procs[p].parent == s.procs[p].parent
                  && s.wlock == Some(p) && t.wlock == None && (forall c: nat :: !ChildOf(t, c, p))
                  && forall q: nat | ChildOf(t, p, q) :: !GoingToSleep(t.procs[q]))
  {
    RunsKeepInv(n, steps);
    ExitEndStep(After(n, steps).value, step, p);
  }

  lemma ExitEndStep(s: State, step: Step, p: nat)
    requires Inv(s) && Enabled(s, step) && p < |s.procs| && InExit(s.procs[p].pc)
    ensures var t := Apply(s, step);
            && |t.procs| == |s.procs|
            && (!InExit(t.procs[p].pc) ==>
                  && step.Run? && step.p == p && t.procs[p].state == ZOMBIE && t.procs[p].parent == s.procs[p].parent
                  && s.wlock == Some(p) && t.wlock == None && (forall c: nat :: !ChildOf(t, c, p))
                  && forall q: nat | ChildOf(t, p, q) :: !GoingToSleep(t.procs[q]))
  {
    ParentStep(s, step, p);
    assert Shape(s.procs[p], p) && (InWaitLock(s.procs[p].pc) <==> s.wlock == Some(p));
    var q := step.p;
    if step.Run? && q == p {
      if s.procs[p].pc == ExitMark { LastOfExit(s, step, p); }
      hide Inv;
    } else if step.Run? && InFork(s.procs[q].pc) {
      ForkOthers(s, q, step.ok, p);
      hide ForkCode, Inv;
    } else if step.Run? && InExit(s.procs[q].pc) {
      ExitFrame(s, q, p);
      hide ExitCode, Inv;
    } else if step.Run? {
      WaitFrame(s, q, step.ok, p);
      hide WaitCode, Inv;
    } else {
      hide Inv;
    }
  }

  lemma LastOfExit(s: State, step: Step, p: nat)
    requires Inv(s) && Enabled(s, step) && step.Run? && step.p == p && s.procs[p].pc == ExitMark
    ensures var t := Apply(s, step);
            && (forall c: nat :: !ChildOf(t, c, p)) && forall q: nat | ChildOf(t, p, q) :: !GoingToSleep(t.procs[q])
  {
    var t := Apply(s, step);
    assert Shape(s.procs[p], p);
    forall c: nat ensures !ChildOf(t, c, p) {
      if c < |s.procs| && c != p { assert ChildlessTo(s.procs[p].pc, c) && (ChildOf(s, c, p) <==> ChildOf(t, c, p)); }
    }
    forall q: nat | ChildOf(t, p, q) ensures !GoingToSleep(t.procs[q]) {
      assert ChildOf(s, p, q) && HasWoken(s.procs[p].pc, q);
    }
  }

  /**
   * fork ends with the child runnable and its own, or with the slot it had taken unused again, or with no slot at all
   * after looking at each; it passes a slot only if that is not unused.
   */
  lemma ForkEnds(s: State, p: nat, ok: bool)
    requires Inv(s) && p < |s.procs| && CanRun(s, p) && InFork(s.procs[p].pc)
    ensures var pc, t := s.procs[p].pc, Apply(s, Run(p, ok));
            && |t.procs| == |s.procs|
            && (pc.ForkReady? ==>
                  && t.procs[p].pc == User && t.procs[pc.c].state == RUNNABLE && t.procs[pc.c].pc == User
                  && ChildOf(t, pc.c, p))
            && (pc.ForkCopy? ==>
                  if ok then t.procs[p].pc == ForkLink(pc.c) else t.procs[p].pc == User && t.procs[pc.c] == Free)
            && (pc.ForkLink? ==> t.procs[p].pc == ForkReady(pc.c) && ChildOf(t, pc.c, p))
            && (pc.ForkAlloc? && pc.i < |s.procs| && pc.i != p && s.procs[pc.i].state == UNUSED ==>
                  t.procs[p].pc == ForkCopy(pc.i) && t.procs[pc.i].state == USED)
            && (pc.ForkAlloc? && t.procs[p].pc == User ==> pc.i >= |s.procs|)
  {
    ForkSlot(s, p);
    hide Inv;
  }

  // ---- wait finds what is there ----

  function Follow(s: State, steps: seq<Step>): (t: Option<State>)
    decreases |steps|
  {
    if steps == [] then Some(s)
    else if Enabled(s, steps[0]) then Follow(Apply(s, steps[0]), steps[1..]) else None
  }

  /** p's own steps lead to its return from wait with a zombie child of s freed. */
  ghost predicate Reaps(s: State, p: nat, steps: seq<Step>) {
    && (forall i | 0 <= i < |steps| :: steps[i] == Run(p, true))
    && Follow(s, steps).Some?
    && var t := Follow(s, steps).value;
       && |t.procs| == |s.procs| && p < |t.procs| && t.procs[p].pc == User
       && exists c: nat :: ChildOf(s, c, p) && s.procs[c].state == ZOMBIE && t.procs[c] == Free
  }

  /** p scans from slot i on, a zombie child is still ahead, and no child is locked. */
  ghost predicate Ahead(s: State, p: nat, i: nat) {
    && p < |s.procs| && s.procs[p].pc.Scan? && s.procs[p].pc.i == i && s.procs[p].state == RUNNING
    && s.procs[p].parent != Some(p) && (forall c: nat | ChildOf(s, c, p) :: !s.procs[c].plock)
    && exists c: nat :: i <= c && ChildOf(s, c, p) && s.procs[c].state == ZOMBIE
  }

  lemma ScanStep(s: State, p: nat, i: nat)
    requires Ahead(s, p, i) && !(ChildOf(s, i, p) && s.procs[i].state == ZOMBIE)
    ensures Enabled(s, Run(p, true)) && i < |s.procs|
    ensures var t := Apply(s, Run(p, true));
            && Ahead(t, p, i + 1) && |t.procs| == |s.procs|
            && forall c: nat | c < |s.procs| && c != p :: t.procs[c] == s.procs[c]
  {
    var c: nat :| i <= c && ChildOf(s, c, p) && s.procs[c].state == ZOMBIE;
    var t := Apply(s, Run(p, true));
    assert i + 1 <= c && ChildOf(t, c, p) && t.procs[c].state == ZOMBIE;
  }

  lemma {:induction false} ScanReaps(s: State, p: nat, i: nat) returns (steps: seq<Step>)
    requires Ahead(s, p, i)
    ensures Reaps(s, p, steps)
    decreases |s.procs| - i
  {
    if ChildOf(s, i, p) && s.procs[i].state == ZOMBIE {
      steps := [Run(p, true)];
      var t := Apply(s, Run(p, true));
      assert steps[1..] == [] && Follow(t, []) == Some(t);
      assert t.procs[i] == Free && t.procs[p].pc == User;
    } else {
      ScanStep(s, p, i);
      var t := Apply(s, Run(p, true));
      var rest := ScanReaps(t, p, i + 1);
      steps := [Run(p, true)] + rest;
      ReapsLater(s, t, p, rest);
    }
  }

  lemma ReapsLater(s: State, t: State, p: nat, rest: seq<Step>)
    requires Enabled(s, Run(p, true)) && t == Apply(s, Run(p, true)) && Reaps(t, p, rest) && |t.procs| == |s.procs|
    requires s.procs[p].parent != Some(p) && t.procs[p].parent == s.procs[p].parent
    requires forall c: nat | c < |s.procs| && c != p :: t.procs[c] == s.procs[c]
    ensures Reaps(s, p, [Run(p, true)] + rest)
  {
    hide Apply, Enabled;
    var all := [Run(p, true)] + rest;
    assert all[1..] == rest;
    var u := Follow(t, rest).value;
    var c: nat :| ChildOf(t, c, p) && t.procs[c].state == ZOMBIE && u.procs[c] == Free;
    assert ChildOf(s, c, p) && s.procs[c].state == ZOMBIE;
  }

  /**
   * wait returns with a zombie child as soon as there is one: in every reachable state in which p is about to look,
   * wait_lock is free and no child is locked, p's own steps free one.
   */
  lemma ZombieIsReaped(n: nat, before: seq<Step>, p: nat) returns (steps: seq<Step>)
    requires n > 0 && After(n, before).Some? && p < |After(n, before).value.procs|
    requires var s := After(n, before).value;
             && s.procs[p].pc == WaitStart && s.procs[p].state == RUNNING && s.wlock == None
             && (forall c: nat | ChildOf(s, c, p) :: !s.procs[c].plock)
             && exists c: nat :: ChildOf(s, c, p) && s.procs[c].state == ZOMBIE
    ensures Reaps(After(n, before).value, p, steps)
  {
    RunsKeepInv(n, before);
    var s := After(n, before).value;
    assert Shape(s.procs[p], p);
    hide Inv, Reaps, Apply, Enabled, After;
    StartsScan(s, p);
    var t := Apply(s, Run(p, true));
    var rest := ScanReaps(t, p, 0);
    ReapsLater(s, t, p, rest);
    steps := [Run(p, true)] + rest;
  }

  lemma StartsScan(s: State, p: nat)
    requires p < |s.procs| && s.procs[p].pc == WaitStart && s.procs[p].state == RUNNING && s.wlock == None
    requires s.procs[p].parent != Some(p) && (forall c: nat | ChildOf(s, c, p) :: !s.procs[c].plock)
    requires exists c: nat :: ChildOf(s, c, p) && s.procs[c].state == ZOMBIE
    ensures Enabled(s, Run(p, true))
    ensures var t := Apply(s, Run(p, true));
            && Ahead(t, p, 0) && |t.procs| == |s.procs| && t.procs[p].parent == s.procs[p].parent
            && forall c: nat | c < |s.procs| && c != p :: t.procs[c] == s.procs[c]
  {
    var c: nat :| ChildOf(s, c, p) && s.procs[c].state == ZOMBIE;
    var t := Apply(s, Run(p, true));
    assert 0 <= c && ChildOf(t, c, p) && t.procs[c].state == ZOMBIE;
  }

  // ---- the calls end ----

  /** No other process holds a lock that p may need. */
  ghost predicate Unhindered(s: State, p: nat) {
    && p < |s.procs| && s.procs[p].state == RUNNING && (s.wlock == None || s.wlock == Some(p))
    && s.procs[p].parent != Some(p) && !s.procs[p].plock
    && forall c: nat | c < |s.procs| && c != p :: !s.procs[c].plock
  }

  /** steps are p's own, and lead to t. */
  ghost predicate Leads(s: State, p: nat, steps: seq<Step>, t: State) {
    (forall i | 0 <= i < |steps| :: steps[i] == Run(p, true)) && Follow(s, steps) == Some(t)
  }

  lemma LeadsNow(s: State, p: nat)
    ensures Leads(s, p, [], s)
  {
  }

  lemma LeadsLater(s: State, p: nat, steps: seq<Step>, t: State)
    requires Enabled(s, Run(p, true)) && Leads(Apply(s, Run(p, true)), p, steps, t)
    ensures Leads(s, p, [Run(p, true)] + steps, t)
  {
    assert ([Run(p, true)] + steps)[1..] == steps;
  }

  /** How far exit still has to go, largest first. */
  function ExitPhase(pc: Pc): (n: nat) {
    match pc case ExitStart => 4 case ExitMove(_) => 3 case ExitMoveWake(_, _) => 3 case ExitWake(_) => 2 case _ => 1
  }

  function ExitOuter(pc: Pc, n: nat): (k: int) {
    match pc case ExitMove(i) => n - i case ExitMoveWake(i, _) => n - i - 1 case ExitWake(j) => n - j case _ => 0
  }

  function ExitInner(pc: Pc, n: nat): (k: int) { match pc case ExitMoveWake(_, j) => 1 + n - j case _ => 0 }

  predicate ExitPlace(pc: Pc, n: nat) {
    match pc
    case ExitMove(i) => i <= n
    case ExitMoveWake(i, j) => i < n && j <= n
    case ExitWake(j) => j <= n
    case _ => true
  }

  /** From s to t, p's children have gone to init at most. */
  ghost predicate Handed(s: State, t: State, p: nat) {
    && |t.procs| == |s.procs|
    && forall c: nat | c < |s.procs| :: t.procs[c].parent == s.procs[c].parent
                                        || (s.procs[c].parent == Some(p) && t.procs[c].parent == Some(INIT))
  }

  lemma ExitStep(s: State, p: nat)
    requires Unhindered(s, p) && p != INIT && InExit(s.procs[p].pc) && ExitPlace(s.procs[p].pc, |s.procs|)
    requires s.procs[p].pc == ExitStart <==> s.wlock == None
    ensures Enabled(s, Run(p, true))
    ensures var t := Apply(s, Run(p, true));
            && Handed(s, t, p)
            && (s.procs[p].pc == ExitMark ==> t.procs[p].state == ZOMBIE)
            && (s.procs[p].pc != ExitMark ==>
                  && Unhindered(t, p) && InExit(t.procs[p].pc) && ExitPlace(t.procs[p].pc, |t.procs|)
                  && t.procs[p].pc != ExitStart && t.wlock == Some(p)
                  && var v, w, n := s.procs[p].pc, t.procs[p].pc, |s.procs|;
                     || ExitPhase(w) < ExitPhase(v)
                     || (ExitPhase(w) == ExitPhase(v) && ExitOuter(w, n) < ExitOuter(v, n))
                     || (&& ExitPhase(w) == ExitPhase(v) && ExitOuter(w, n) == ExitOuter(v, n)
                         && ExitInner(w, n) < ExitInner(v, n)))
  {
  }

  lemma {:induction false} ExitRuns(s: State, p: nat) returns (steps: seq<Step>, t: State)
    requires Unhindered(s, p) && p != INIT && InExit(s.procs[p].pc) && ExitPlace(s.procs[p].pc, |s.procs|)
    requires s.procs[p].pc == ExitStart <==> s.wlock == None
    ensures Leads(s, p, steps, t) && Handed(s, t, p) && t.procs[p].state == ZOMBIE
    decreases ExitPhase(s.procs[p].pc), ExitOuter(s.procs[p].pc, |s.procs|), ExitInner(s.procs[p].pc, |s.procs|)
  {
    ExitStep(s, p);
    var u := Apply(s, Run(p, true));
    hide Apply, Enabled, Leads, Unhindered;
    if s.procs[p].pc == ExitMark {
      steps, t := [], u;
      LeadsNow(u, p);
    } else {
      steps, t := ExitRuns(u, p);
      HandedTwice(s, u, t, p);
    }
    LeadsLater(s, p, steps, t);
    steps := [Run(p, true)] + steps;
  }

  lemma HandedTwice(s: State, u: State, t: State, p: nat)
    requires Handed(s, u, p) && Handed(u, t, p) && p != INIT
    ensures Handed(s, t, p)
  {
  }

  /** exit comes to its end, a zombie whose children have all gone to init, as soon as nobody else holds a lock. */
  lemma ExitCompletes(n: nat, before: seq<Step>, p: nat) returns (steps: seq<Step>, t: State)
    requires n > 0 && After(n, before).Some? && p < |After(n, before).value.procs|
    requires var s := After(n, before).value;
             Unhindered(s, p) && s.procs[p].pc == ExitStart && s.wlock == None
    ensures var s := After(n, before).value;
            && Leads(s, p, steps, t) && Handed(s, t, p) && t.procs[p].state == ZOMBIE
            && forall c: nat | ChildOf(s, c, p) :: t.procs[c].parent == Some(INIT)
  {
    RunsKeepInv(n, before);
    var s := After(n, before).value;
    assert Shape(s.procs[p], p);
    hide Inv;
    steps, t := ExitRuns(s, p);
    AfterFollow(n, before, steps);
    RunsKeepInv(n, before + steps);
    forall c: nat | ChildOf(s, c, p) ensures t.procs[c].parent == Some(INIT) { ZombieHasNone(t, c, p); }
  }

  lemma ZombieHasNone(t: State, c: nat, p: nat)
    requires Inv(t) && c < |t.procs| && p < |t.procs| && t.procs[p].state == ZOMBIE
    ensures !ChildOf(t, c, p)
  {
  }

  lemma {:induction false} AfterFollow(n: nat, before: seq<Step>, steps: seq<Step>)
    requires After(n, before).Some? && Follow(After(n, before).value, steps).Some?
    ensures After(n, before + steps) == Follow(After(n, before).value, steps)
    decreases |steps|
  {
    hide Apply, Enabled;
    if steps == [] {
      assert before + steps == before;
    } else {
      AfterNext(n, before, steps[0]);
      hide After;
      AfterFollow(n, before + [steps[0]], steps[1..]);
      assert before + steps == before + [steps[0]] + steps[1..];
    }
  }

  lemma AfterNext(n: nat, before: seq<Step>, step: Step)
    requires After(n, before).Some? && Enabled(After(n, before).value, step)
    ensures After(n, before + [step]) == Some(Apply(After(n, before).value, step))
  {
    hide Apply, Enabled;
    assert (before + [step])[..|before|] == before;
  }

  /** p is in wait's scan, at slot i. */
  ghost predicate Scanning(s: State, p: nat, i: nat) {
    && Unhindered(s, p) && s.procs[p].pc.Scan? && s.procs[p].pc.i == i && s.wlock == Some(p) && s.procs[p].killed
  }

  lemma KilledStep(s: State, p: nat, i: nat)
    requires Scanning(s, p, i)
    ensures Enabled(s, Run(p, true))
    ensures var t := Apply(s, Run(p, true));
            && |t.procs| == |s.procs|
            && (t.procs[p].pc == User || (i < |s.procs| && Scanning(t, p, i + 1)))
  {
  }

  lemma {:induction false} KilledScan(s: State, p: nat, i: nat) returns (steps: seq<Step>, t: State)
    requires Scanning(s, p, i)
    ensures Leads(s, p, steps, t) && p < |t.procs| && t.procs[p].pc == User
    decreases |s.procs| - i
  {
    KilledStep(s, p, i);
    var u := Apply(s, Run(p, true));
    if u.procs[p].pc == User {
      steps, t := [], u;
      LeadsNow(u, p);
    } else {
      steps, t := KilledScan(u, p, i + 1);
    }
    hide Apply, Enabled, Leads;
    LeadsLater(s, p, steps, t);
    steps := [Run(p, true)] + steps;
  }

  /** A killed process comes back from wait, children or not. */
  lemma KilledReturns(s: State, p: nat) returns (steps: seq<Step>, t: State)
    requires Unhindered(s, p) && s.procs[p].pc == WaitStart && s.procs[p].killed && s.wlock == None
    ensures Leads(s, p, steps, t) && p < |t.procs| && t.procs[p].pc == User
  {
    var u := Apply(s, Run(p, true));
    assert Scanning(u, p, 0);
    steps, t := KilledScan(u, p, 0);
    hide Apply, Enabled, Leads;
    LeadsLater(s, p, steps, t);
    steps := [Run(p, true)] + steps;
  }

  /** kill marks a process, and wakes it if it sleeps. */
  lemma KillWakes(s: State, p: nat)
    requires Enabled(s, Kill(p))
    ensures var t := Apply(s, Kill(p));
            && p < |t.procs| && t.procs[p].killed && t.procs[p].state != SLEEPING
            && (s.procs[p].state == SLEEPING ==> t.procs[p].state == RUNNABLE)
            && (s.procs[p].state != SLEEPING ==> t.procs[p].state == s.procs[p].state)
  {
  }

  /** fork with slot c in hand. */
  lemma ForkRuns(s: State, p: nat, c: nat) returns (steps: seq<Step>, t: State)
    requires p < |s.procs| && c < |s.procs| && c != p && s.procs[p].pc == ForkCopy(c) && s.procs[p].state == RUNNING
    requires s.wlock == None
    ensures Leads(s, p, steps, t) && ChildOf(t, c, p) && t.procs[c].state == RUNNABLE && t.procs[p].pc == User
  {
    var a := Apply(s, Run(p, true));
    var b := Apply(a, Run(p, true));
    t := Apply(b, Run(p, true));
    LeadsNow(t, p);
    LeadsLater(b, p, [], t);
    LeadsLater(a, p, [Run(p, true)] + [], t);
    LeadsLater(s, p, [Run(p, true)] + ([Run(p, true)] + []), t);
    steps := [Run(p, true)] + ([Run(p, true)] + ([Run(p, true)] + []));
  }

  /** fork makes a child in a slot that was unused, whenever there is one ahead, memory suffices and no lock is held. */
  lemma {:induction false} ForkCompletes(s: State, p: nat, i: nat) returns (steps: seq<Step>, t: State, c: nat)
    requires Unhindered(s, p) && s.procs[p].pc == ForkAlloc(i) && s.wlock == None
    requires exists k: nat :: i <= k < |s.procs| && k != p && s.procs[k].state == UNUSED
    ensures Leads(s, p, steps, t) && c < |s.procs| && s.procs[c].state == UNUSED
    ensures ChildOf(t, c, p) && t.procs[c].state == RUNNABLE && t.procs[p].pc == User
    decreases |s.procs| - i
  {
    var u := Apply(s, Run(p, true));
    if i != p && s.procs[i].state == UNUSED {
      c := i;
      steps, t := ForkRuns(u, p, i);
    } else {
      var k: nat :| i <= k < |s.procs| && k != p && s.procs[k].state == UNUSED;
      assert i + 1 <= k < |u.procs| && u.procs[k].state == UNUSED;
      steps, t, c := ForkCompletes(u, p, i + 1);
    }
    hide Apply, Enabled, Leads;
    LeadsLater(s, p, steps, t);
    steps := [Run(p, true)] + steps;
  }
}
