/**
 * Sleep locks over sleep and wakeup, as interleaved steps of any number of processes.
 * A step is a stretch of code between lock operations; a process that holds a spin lock
 * blocks the steps that need it.
 */
module SleepLock {
  import opened Basics

  datatype RunState = RUNNING | RUNNABLE | SLEEPING

  /**
   * Where a process stands in acquiresleep (Want, Test, Sleep*) or releasesleep (Give*).
   *   Outside    not using the lock
   *   Want       about to acquire lk->lk
   *   Test       holds lk->lk, about to test lk->locked
   *   SleepLock  in sleep, holds lk->lk, about to acquire its own p->lock
   *   SleepDrop  holds both, about to release lk->lk
   *   SleepMark  holds p->lock, about to set chan and SLEEPING and switch away
   *   Asleep     switched away on channel lk
   *   Woken      switched back in, holds p->lock, about to release it
   *   Holding    has the sleep lock
   *   Give       about to acquire lk->lk in releasesleep
   *   Clear      holds lk->lk, about to clear lk->locked
   *   Waking(i)  holds lk->lk, in wakeup, about to look at process i
   */
  datatype Pc = Outside | Want | Test | SleepLock | SleepDrop | SleepMark | Asleep | Woken
              | Holding | Give | Clear | Waking(i: nat)

  /** plock says whether p->lock is held, by the process or for it by the scheduler. */
  datatype Proc = Proc(pc: Pc, state: RunState, plock: bool, killed: bool)

  /** spin is the holder of lk->lk; locked and pid are the fields of the sleep lock. */
  datatype State = State(procs: seq<Proc>, spin: Option<nat>, locked: bool, pid: Option<nat>)

  datatype Step =
    | Run(p: nat)       // process p executes its next stretch of code
    | Call(p: nat)      // process p calls acquiresleep, or releasesleep if it holds the lock
    | Settle(p: nat)    // the scheduler releases the lock of a process that went to sleep
    | Schedule(p: nat)  // the scheduler picks a runnable process
    | Preempt(p: nat)   // a timer interrupt makes a process without spin locks yield
    | Kill(p: nat)      // kill(p)

  /** Nothing is in use and every process runs elsewhere. */
  function Boot(n: nat): (s: State) {
    State(seq(n, i => Proc(Outside, RUNNING, false, false)), None, false, None)
  }

  function Put(s: State, p: nat, q: Proc): (t: State)
    requires p < |s.procs|
  {
    s.(procs := s.procs[p := q])
  }

  /** The process can execute code: it is on a CPU and not waiting for a spin lock. */
  predicate CanRun(s: State, p: nat)
    requires p < |s.procs|
  {
    var q := s.procs[p];
    && q.state == RUNNING
    && match q.pc
       case Want => s.spin == None
       case Give => s.spin == None
       case SleepLock => !q.plock
       case Waking(i) => i >= |s.procs| || i == p || !s.procs[i].plock
       case Outside => false
       case Holding => false
       case Asleep => false
       case _ => true
  }

  predicate Enabled(s: State, step: Step) {
    && step.p < |s.procs|
    && var q := s.procs[step.p];
       match step
       case Run(p) => CanRun(s, p)
       case Call(p) => q.state == RUNNING && (q.pc == Outside || q.pc == Holding)
       case Settle(p) => q.pc == Asleep && q.state != RUNNING && q.plock
       case Schedule(p) => q.state == RUNNABLE && !q.plock
       case Preempt(p) =>
         q.state == RUNNING && !q.plock && (q.pc == Outside || q.pc == Holding || q.pc == Want || q.pc == Give)
       case Kill(p) => !q.plock
  }

  /** The code a running process executes next. */
  function RunCode(s: State, p: nat): (t: State)
    requires p < |s.procs| && CanRun(s, p)
  {
    var q := s.procs[p];
    match q.pc
    case Want => Put(s, p, q.(pc := Test)).(spin := Some(p))
    case Test =>
      if s.locked then Put(s, p, q.(pc := SleepLock))
      else Put(s, p, q.(pc := Holding)).(spin := None, locked := true, pid := Some(p))
    case SleepLock => Put(s, p, q.(pc := SleepDrop, plock := true))
    case SleepDrop => Put(s, p, q.(pc := SleepMark)).(spin := None)
    case SleepMark => Put(s, p, q.(pc := Asleep, state := SLEEPING))
    case Woken => Put(s, p, q.(pc := Want, plock := false))
    case Give => Put(s, p, q.(pc := Clear)).(spin := Some(p))
    case Clear => Put(s, p, q.(pc := Waking(0))).(locked := false, pid := None)
    case Waking(i) =>
      if i >= |s.procs| then Put(s, p, q.(pc := Outside)).(spin := None)
      else if i != p && s.procs[i].pc == Asleep && s.procs[i].state == SLEEPING then
        Put(Put(s, i, s.procs[i].(state := RUNNABLE)), p, q.(pc := Waking(i + 1)))
      else Put(s, p, q.(pc := Waking(i + 1)))
  }

  function Apply(s: State, step: Step): (t: State)
    requires Enabled(s, step)
  {
    var p := step.p;
    var q := s.procs[p];
    match step
    case Run(_) => RunCode(s, p)
    case Call(_) => Put(s, p, q.(pc := if q.pc == Outside then Want else Give))
    case Settle(_) => Put(s, p, q.(plock := false))
    case Schedule(_) =>
      if q.pc == Asleep then Put(s, p, q.(pc := Woken, state := RUNNING, plock := true))
      else Put(s, p, q.(state := RUNNING))
    case Preempt(_) => Put(s, p, q.(state := RUNNABLE))
    case Kill(_) => Put(s, p, q.(killed := true, state := if q.state == SLEEPING then RUNNABLE else q.state))
  }

  /** The state after the steps, if each could be taken. */
  function After(n: nat, steps: seq<Step>): (s: Option<State>) {
    if steps == [] then Some(Boot(n))
    else
      match After(n, steps[..|steps| - 1])
      case None => None
      case Some(s) => if Enabled(s, steps[|steps| - 1]) then Some(Apply(s, steps[|steps| - 1])) else None
  }

  /** The process owns lk->lk at this point of its code. */
  predicate InSpin(pc: Pc) {
    pc.Test? || pc.SleepLock? || pc.SleepDrop? || pc.Clear? || pc.Waking?
  }

  /** The process has the sleep lock: from acquiresleep's return until releasesleep clears it. */
  predicate Owns(pc: Pc) {
    pc.Holding? || pc.Give? || pc.Clear?
  }

  /** The process has given up lk->lk in order to sleep and has not been woken. */
  predicate GoingToSleep(q: Proc) {
    q.pc == SleepMark || (q.pc == Asleep && q.state == SLEEPING)
  }

  /** Some process is in wakeup and has still to look at process p. */
  ghost predicate WillBeSeen(s: State, p: nat) {
    && s.spin.Some? && s.spin.value < |s.procs|
    && s.procs[s.spin.value].pc.Waking? && s.procs[s.spin.value].pc.i <= p != s.spin.value
  }

  /** Who holds lk->lk and who owns the sleep lock, by the code each process is in. */
  ghost predicate Owners(s: State) {
    && (forall p | 0 <= p < |s.procs| :: InSpin(s.procs[p].pc) <==> s.spin == Some(p))
    && (s.spin.Some? ==> s.spin.value < |s.procs|)
    && (forall p | 0 <= p < |s.procs| :: Owns(s.procs[p].pc) <==> s.pid == Some(p))
    && (s.locked <==> s.pid.Some?) && (s.pid.Some? ==> s.pid.value < |s.procs|)
  }

  /** A process goes to sleep only while the lock is taken, holding its own lock until it is marked. */
  ghost predicate Sleepers(s: State) {
    && (forall p | 0 <= p < |s.procs| && (s.procs[p].pc.SleepLock? || s.procs[p].pc.SleepDrop?) :: s.locked)
    && (forall p | 0 <= p < |s.procs| && (s.procs[p].pc.SleepDrop? || s.procs[p].pc.SleepMark?) :: s.procs[p].plock)
    && (forall p | 0 <= p < |s.procs| && s.procs[p].state == SLEEPING :: s.procs[p].pc == Asleep)
  }

  /** Whoever is going to sleep will find the lock taken or be looked at by wakeup. */
  ghost predicate Watched(s: State) {
    forall p | 0 <= p < |s.procs| && GoingToSleep(s.procs[p]) :: s.locked || WillBeSeen(s, p)
  }

  ghost predicate Inv(s: State) {
    Owners(s) && Sleepers(s) && Watched(s)
  }

  /** A running process changes no other process except to wake a sleeper. */
  lemma RunFrame(s: State, p: nat, r: nat)
    requires p < |s.procs| && CanRun(s, p) && r < |s.procs| && r != p
    ensures var t := RunCode(s, p);
            && |t.procs| == |s.procs|
            && (t.procs[r] == s.procs[r] || (t.procs[r] == s.procs[r].(state := RUNNABLE) && s.procs[r].pc == Asleep))
  {
  }

  /** A running process takes or gives up each lock only for itself, where its code says so. */
  lemma RunSelf(s: State, p: nat)
    requires Owners(s) && p < |s.procs| && CanRun(s, p)
    ensures var t := RunCode(s, p);
            && |t.procs| == |s.procs|
            && (InSpin(t.procs[p].pc) <==> t.spin == Some(p)) && (Owns(t.procs[p].pc) <==> t.pid == Some(p))
            && (t.spin == s.spin || (s.spin == None && t.spin == Some(p)) || (s.spin == Some(p) && t.spin == None))
            && (t.pid == s.pid || (s.pid == None && t.pid == Some(p)) || (s.pid == Some(p) && t.pid == None))
            && (t.locked <==> t.pid.Some?)
  {
    assert InSpin(s.procs[p].pc) <==> s.spin == Some(p);
    assert Owns(s.procs[p].pc) <==> s.pid == Some(p);
  }

  lemma RunKeepsOwners(s: State, p: nat)
    requires Owners(s) && p < |s.procs| && CanRun(s, p)
    ensures Owners(RunCode(s, p))
  {
    hide RunCode;
    RunSelf(s, p);
    var t := RunCode(s, p);
    forall r | 0 <= r < |t.procs| && r != p
      ensures (InSpin(t.procs[r].pc) <==> t.spin == Some(r)) && (Owns(t.procs[r].pc) <==> t.pid == Some(r))
    {
      RunFrame(s, p, r);
      assert InSpin(s.procs[r].pc) <==> s.spin == Some(r);
    }
  }

  lemma RunKeepsSleepers(s: State, p: nat)
    requires Owners(s) && Sleepers(s) && p < |s.procs| && CanRun(s, p)
    ensures Sleepers(RunCode(s, p))
  {
    var t := RunCode(s, p);
    RunSelf(s, p);
    assert InSpin(s.procs[p].pc) <==> s.spin == Some(p);
    forall r | 0 <= r < |t.procs| && r != p
      ensures (t.procs[r].pc.SleepLock? || t.procs[r].pc.SleepDrop?) ==> t.locked
      ensures (t.procs[r].pc.SleepDrop? || t.procs[r].pc.SleepMark?) ==> t.procs[r].plock
      ensures t.procs[r].state == SLEEPING ==> t.procs[r].pc == Asleep
    {
      RunFrame(s, p, r);
      assert InSpin(s.procs[r].pc) <==> s.spin == Some(r);
    }
  }

  lemma RunKeepsWatched(s: State, p: nat)
    requires Inv(s) && p < |s.procs| && CanRun(s, p)
    ensures Watched(RunCode(s, p))
  {
    var t := RunCode(s, p);
    assert InSpin(s.procs[p].pc) <==> s.spin == Some(p);
    forall r | 0 <= r < |t.procs| && GoingToSleep(t.procs[r]) ensures t.locked || WillBeSeen(t, r) {
      if r != p { assert GoingToSleep(s.procs[r]); }
    }
  }

  lemma ApplyKeepsInv(s: State, step: Step)
    requires Inv(s) && Enabled(s, step)
    ensures Inv(Apply(s, step))
  {
    if step.Run? {
      RunKeepsOwners(s, step.p);
      RunKeepsSleepers(s, step.p);
      RunKeepsWatched(s, step.p);
    } else {
      OtherKeepsInv(s, step);
    }
  }

  lemma OtherKeepsInv(s: State, step: Step)
    requires Inv(s) && Enabled(s, step) && !step.Run?
    ensures Inv(Apply(s, step))
  {
    OtherFrame(s, step);
    hide Apply;
    OtherKeepsOwners(s, Apply(s, step), step.p);
    OtherKeepsWatched(s, Apply(s, step), step.p);
  }

  /** A step other than running code changes one process and no lock of the sleep lock. */
  ghost predicate Mild(s: State, t: State, p: nat) {
    && p < |s.procs| == |t.procs| && t.spin == s.spin && t.locked == s.locked && t.pid == s.pid
    && (forall r | 0 <= r < |s.procs| && r != p :: t.procs[r] == s.procs[r])
    && (InSpin(s.procs[p].pc) <==> InSpin(t.procs[p].pc)) && (Owns(s.procs[p].pc) <==> Owns(t.procs[p].pc))
    && (GoingToSleep(t.procs[p]) ==> GoingToSleep(s.procs[p]))
    && (s.procs[p].pc.Waking? ==> t.procs[p].pc == s.procs[p].pc)
  }

  lemma OtherFrame(s: State, step: Step)
    requires Inv(s) && Enabled(s, step) && !step.Run?
    ensures Mild(s, Apply(s, step), step.p) && Sleepers(Apply(s, step))
  {
    hide RunCode, CanRun, Owners, Watched;
    assert s.procs[step.p].state == SLEEPING ==> s.procs[step.p].pc == Asleep;
  }

  lemma OtherKeepsOwners(s: State, t: State, p: nat)
    requires Mild(s, t, p) && Owners(s)
    ensures Owners(t)
  {
    hide InSpin, Owns;
    forall r | 0 <= r < |t.procs|
      ensures (InSpin(t.procs[r].pc) <==> t.spin == Some(r)) && (Owns(t.procs[r].pc) <==> t.pid == Some(r))
    {
      assert (InSpin(s.procs[r].pc) <==> s.spin == Some(r)) && (Owns(s.procs[r].pc) <==> s.pid == Some(r));
    }
  }

  lemma OtherKeepsWatched(s: State, t: State, p: nat)
    requires Mild(s, t, p) && Watched(s)
    ensures Watched(t)
  {
    hide InSpin, Owns, GoingToSleep;
    forall r | 0 <= r < |t.procs| && GoingToSleep(t.procs[r]) ensures t.locked || WillBeSeen(t, r) {
      assert GoingToSleep(s.procs[r]);
    }
  }

  lemma {:induction false} RunsKeepInv(n: nat, steps: seq<Step>)
    requires After(n, steps).Some?
    ensures Inv(After(n, steps).value)
  {
    if steps != [] {
      RunsKeepInv(n, steps[..|steps| - 1]);
      ApplyKeepsInv(After(n, steps[..|steps| - 1]).value, steps[|steps| - 1]);
    }
  }

  /** At most one process has the sleep lock, and lk->locked and lk->pid say which. */
  lemma MutualExclusion(n: nat, steps: seq<Step>, p: nat, q: nat)
    requires After(n, steps).Some?
    requires var s := After(n, steps).value;
             p < |s.procs| && q < |s.procs| && Owns(s.procs[p].pc) && Owns(s.procs[q].pc)
    ensures p == q && After(n, steps).value.locked && After(n, steps).value.pid == Some(p)
  {
    RunsKeepInv(n, steps);
  }

  /** No wakeup is lost: when the lock is free and nobody is changing it, nobody sleeps on it. */
  lemma NoLostWakeup(n: nat, steps: seq<Step>, p: nat)
    requires After(n, steps).Some? && p < |After(n, steps).value.procs|
    requires var s := After(n, steps).value; s.spin == None && !s.locked
    ensures !GoingToSleep(After(n, steps).value.procs[p])
  {
    RunsKeepInv(n, steps);
  }

  // ---- what a call is for ----

  /** Inside acquiresleep. */
  predicate Acquiring(pc: Pc) {
    pc.Want? || pc.Test? || pc.SleepLock? || pc.SleepDrop? || pc.SleepMark? || pc.Asleep? || pc.Woken?
  }

  /** Inside releasesleep. */
  predicate Releasing(pc: Pc) { pc.Give? || pc.Clear? || pc.Waking? }

  /** From s to t, process p has left a call only with what the call is for. */
  ghost predicate Returns(s: State, t: State, step: Step, p: nat) {
    && p < |s.procs| == |t.procs|
    && var v, w := s.procs[p].pc, t.procs[p].pc;
       && (Acquiring(v) && !Acquiring(w) ==>
             step == Run(p) && w == Holding && !s.locked && t.locked && t.pid == Some(p))
       && (Releasing(v) && !Releasing(w) ==> step == Run(p) && w == Outside && t.pid != Some(p))
       && (v == Holding && w != Holding ==> step == Call(p) && w == Give)
       && (v == Outside && w != Outside ==> step == Call(p) && w == Want)
  }

  lemma RunReturns(s: State, p: nat)
    requires p < |s.procs| && CanRun(s, p) && (Owns(s.procs[p].pc) <==> s.pid == Some(p))
    ensures Returns(s, RunCode(s, p), Run(p), p)
  {
  }

  lemma StepReturns(s: State, step: Step, p: nat)
    requires Enabled(s, step) && p < |s.procs| && (Owns(s.procs[p].pc) <==> s.pid == Some(p))
    ensures Returns(s, Apply(s, step), step, p)
  {
    if step.Run? {
      if step.p == p { RunReturns(s, p); } else { RunFrame(s, step.p, p); }
      hide RunCode;
    } else {
      hide RunCode, CanRun;
    }
  }

  /**
   * acquiresleep returns only with the lock, which it has found free; releasesleep returns without it; and between
   * the two the process neither loses it nor enters acquiresleep again.
   */
  lemma CallsReturn(n: nat, steps: seq<Step>, step: Step, p: nat)
    requires After(n, steps).Some? && Enabled(After(n, steps).value, step) && p < |After(n, steps).value.procs|
    ensures Returns(After(n, steps).value, Apply(After(n, steps).value, step), step, p)
  {
    RunsKeepInv(n, steps);
    var s := After(n, steps).value;
    assert Owns(s.procs[p].pc) <==> s.pid == Some(p);
    hide Inv, Apply, Enabled, Returns;
    StepReturns(s, step, p);
  }

  /** Where a process can be off the CPU, and where its own lock is held. */
  predicate Placed(q: Proc) {
    && (q.plock ==> q.pc.SleepDrop? || q.pc.SleepMark? || q.pc.Asleep? || q.pc.Woken?)
    && (q.pc.Woken? ==> q.plock) && (q.pc.Asleep? ==> q.state != RUNNING)
    && (q.state != RUNNING ==> q.pc.Asleep? || q.pc.Outside? || q.pc.Holding? || q.pc.Want? || q.pc.Give?)
  }

  lemma PlacedStep(s: State, step: Step, p: nat)
    requires Enabled(s, step) && p < |s.procs| && Placed(s.procs[p])
    ensures |Apply(s, step).procs| == |s.procs| && Placed(Apply(s, step).procs[p])
  {
    if step.Run? && step.p != p { RunFrame(s, step.p, p); }
  }

  lemma {:induction false} AllPlaced(n: nat, steps: seq<Step>, p: nat)
    requires After(n, steps).Some? && p < |After(n, steps).value.procs|
    ensures Placed(After(n, steps).value.procs[p])
  {
    if steps != [] {
      var init, last := steps[..|steps| - 1], steps[|steps| - 1];
      var s := After(n, init).value;
      assert |Apply(s, last).procs| == |s.procs| by {
        hide Enabled;
        if last.Run? && |s.procs| > 1 { RunFrame(s, last.p, if last.p == 0 then 1 else 0); }
      }
      AllPlaced(n, init, p);
      PlacedStep(s, last, p);
    }
  }

  /** The state after further steps, if each could be taken. */
  function Follow(s: State, steps: seq<Step>): (t: Option<State>)
    decreases |steps|
  {
    if steps == [] then Some(s)
    else if Enabled(s, steps[0]) then Follow(Apply(s, steps[0]), steps[1..]) else None
  }

  /** steps of p alone lead to a place where p has the lock. */
  ghost predicate Gets(s: State, p: nat, steps: seq<Step>) {
    && (forall i | 0 <= i < |steps| :: steps[i].p == p && !steps[i].Kill?)
    && Follow(s, steps).Some? && p < |Follow(s, steps).value.procs|
    && Follow(s, steps).value.procs[p].pc == Holding && Follow(s, steps).value.pid == Some(p)
  }

  lemma GetsLater(s: State, p: nat, step: Step, steps: seq<Step>)
    requires Enabled(s, step) && step.p == p && !step.Kill? && Gets(Apply(s, step), p, steps)
    ensures Gets(s, p, [step] + steps)
  {
    assert ([step] + steps)[1..] == steps;
  }

  lemma WantGets(s: State, p: nat) returns (steps: seq<Step>)
    requires p < |s.procs| && s.procs[p].pc == Want && s.procs[p].state == RUNNING && s.spin == None && !s.locked
    ensures Gets(s, p, steps)
  {
    var t := Apply(s, Run(p));
    var u := Apply(t, Run(p));
    assert u.procs[p].pc == Holding;
    assert Gets(u, p, []);
    GetsLater(t, p, Run(p), []);
    GetsLater(s, p, Run(p), [Run(p)] + []);
    steps := [Run(p)] + ([Run(p)] + []);
  }

  lemma WokenGets(s: State, p: nat) returns (steps: seq<Step>)
    requires p < |s.procs| && s.procs[p].pc == Woken && s.procs[p].state == RUNNING && s.spin == None && !s.locked
    ensures Gets(s, p, steps)
  {
    var rest := WantGets(Apply(s, Run(p)), p);
    GetsLater(s, p, Run(p), rest);
    steps := [Run(p)] + rest;
  }

  lemma AsleepGets(s: State, p: nat) returns (steps: seq<Step>)
    requires p < |s.procs| && s.procs[p].pc == Asleep && s.procs[p].state == RUNNABLE && !s.procs[p].plock
    requires s.spin == None && !s.locked
    ensures Gets(s, p, steps)
  {
    var rest := WokenGets(Apply(s, Schedule(p)), p);
    GetsLater(s, p, Schedule(p), rest);
    steps := [Schedule(p)] + rest;
  }

  /**
   * No process is left waiting: in every reachable state in which the lock is free and nobody is changing it, every
   * process inside acquiresleep gets the lock by steps of its own.
   */
  lemma FreeLockIsTaken(n: nat, before: seq<Step>, p: nat) returns (steps: seq<Step>)
    requires After(n, before).Some? && p < |After(n, before).value.procs|
    requires var s := After(n, before).value; s.spin == None && !s.locked && Acquiring(s.procs[p].pc)
    ensures Gets(After(n, before).value, p, steps)
  {
    var s := After(n, before).value;
    RunsKeepInv(n, before);
    NoLostWakeup(n, before, p);
    AllPlaced(n, before, p);
    assert InSpin(s.procs[p].pc) <==> s.spin == Some(p);
    hide Inv, Gets;
    var q := s.procs[p];
    if q.pc.Woken? {
      steps := WokenGets(s, p);
    } else if q.pc.Want? {
      if q.state == RUNNING {
        steps := WantGets(s, p);
      } else {
        var rest := WantGets(Apply(s, Schedule(p)), p);
        GetsLater(s, p, Schedule(p), rest);
        steps := [Schedule(p)] + rest;
      }
    } else if q.plock {
      var rest := AsleepGets(Apply(s, Settle(p)), p);
      GetsLater(s, p, Settle(p), rest);
      steps := [Settle(p)] + rest;
    } else {
      steps := AsleepGets(s, p);
    }
  }

  /** Steps of p alone lead out of releasesleep, with the lock free and nobody asleep on it. */
  ghost predicate Frees(s: State, p: nat, steps: seq<Step>) {
    && (forall i | 0 <= i < |steps| :: steps[i] == Run(p))
    && Follow(s, steps).Some?
    && var t := Follow(s, steps).value;
       && p < |t.procs| && t.procs[p].pc == Outside && !t.locked && t.pid == None && t.spin == None
       && forall r | 0 <= r < |t.procs| :: t.procs[r].state != SLEEPING
  }

  lemma FreesLater(s: State, p: nat, steps: seq<Step>)
    requires Enabled(s, Run(p)) && Frees(Apply(s, Run(p)), p, steps)
    ensures Frees(s, p, [Run(p)] + steps)
  {
    assert ([Run(p)] + steps)[1..] == steps;
  }

  /** Process p is in wakeup at process i, those below it are awake, and no process's own lock is held. */
  ghost predicate WakingAt(s: State, p: nat, i: nat) {
    && p < |s.procs| && i <= |s.procs| && s.procs[p].pc == Waking(i) && s.procs[p].state == RUNNING
    && !s.locked && s.pid == None && (forall r | 0 <= r < |s.procs| :: !s.procs[r].plock)
    && (forall r | 0 <= r < |s.procs| && s.procs[r].state == SLEEPING :: s.procs[r].pc == Asleep && i <= r)
  }

  lemma WakeStep(s: State, p: nat, i: nat)
    requires WakingAt(s, p, i) && i < |s.procs|
    ensures Enabled(s, Run(p)) && WakingAt(Apply(s, Run(p)), p, i + 1) && |Apply(s, Run(p)).procs| == |s.procs|
  {
  }

  lemma {:induction false} WakesAll(s: State, p: nat, i: nat) returns (steps: seq<Step>)
    requires WakingAt(s, p, i)
    ensures Frees(s, p, steps)
    decreases |s.procs| - i
  {
    if i == |s.procs| {
      var t := Apply(s, Run(p));
      assert t.procs[p].pc == Outside;
      assert Frees(t, p, []);
      FreesLater(s, p, []);
      steps := [Run(p)] + [];
    } else {
      WakeStep(s, p, i);
      hide Frees, WakingAt, Apply, Enabled;
      var rest := WakesAll(Apply(s, Run(p)), p, i + 1);
      FreesLater(s, p, rest);
      steps := [Run(p)] + rest;
    }
  }

  /** releasesleep ends with the lock free and everyone who slept on it awake. */
  lemma LockIsFreed(n: nat, before: seq<Step>, p: nat) returns (steps: seq<Step>)
    requires After(n, before).Some? && p < |After(n, before).value.procs|
    requires var s := After(n, before).value;
             && s.procs[p].pc == Give && s.procs[p].state == RUNNING && s.spin == None
             && forall r | 0 <= r < |s.procs| :: !s.procs[r].plock
    ensures Frees(After(n, before).value, p, steps)
  {
    var s := After(n, before).value;
    RunsKeepInv(n, before);
    var t := Apply(s, Run(p));
    var u := Apply(t, Run(p));
    assert Sleepers(s);
    assert WakingAt(u, p, 0);
    hide Inv, Frees, WakingAt;
    var rest := WakesAll(u, p, 0);
    FreesLater(t, p, rest);
    FreesLater(s, p, [Run(p)] + rest);
    steps := [Run(p)] + ([Run(p)] + rest);
  }
}
