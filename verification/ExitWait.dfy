/**
 * Fork, exit and wait (kernel/proc.c) for a table of any number of processes, in
 * every interleaving.
 *
 * Spinlocks are atomic, so the model is a state machine whose steps are the
 * stretches of code between two lock operations; a section that only looks at
 * one process under its `p->lock` is one step, possible when that lock is free.
 * A process holds its own lock across steps in exit, from before it becomes a
 * zombie until the scheduler has switched away, and likewise in sleep.
 * `exited` and `reaped` record the pids of processes that have become zombies
 * and that kwait has returned, in order.
 */
module ExitWait {
  import opened Wrappers

  const INIT := 0     // the slot of initproc

  datatype ProcState = Unused | Used | Sleeping | Runnable | Running | Zombie

  datatype Pc =
    | Free                       // no process in the slot
    | Embryo(maker: nat)         // being made by fork
    | Ready                      // made, not yet scheduled
    | User                       // outside fork, exit and wait
    | ForkWant(c: nat)           // kfork: the child is USED; acquiring wait_lock
    | ForkLink(c: nat)           // holds wait_lock, about to set the child's parent
    | ForkGo(c: nat)             // about to make the child RUNNABLE
    | ExitWant                   // kexit: acquiring wait_lock
    | Reparent(i: nat)           // looking at process i
    | WakeInit(i: nat, j: nat)   // has given child i to init; wakeup(initproc) is at process j
    | WakeParent(j: nat)         // wakeup(p->parent) is at process j
    | ExitOwn                    // acquiring its own lock
    | ExitMark                   // about to become ZOMBIE
    | ExitDrop                   // about to release wait_lock
    | ExitSwitch                 // its own lock not yet released by the scheduler
    | Gone                       // never runs again
    | WaitWant                   // kwait or the end of sleep: acquiring wait_lock
    | Scan(i: nat, kids: bool)   // looking at process i
    | SleepOwn                   // sleep: acquiring its own lock
    | SleepDrop                  // about to release wait_lock
    | SleepMark                  // about to become SLEEPING
    | SleepSwitch                // its own lock not yet released by the scheduler
    | Asleep                     // switched away
    | Woken                      // scheduled again, holds its own lock
    | Nap                        // asleep elsewhere in the kernel

  datatype Proc = Proc(pc: Pc, state: ProcState, parent: Option<nat>, pid: nat, chan: Option<nat>, killed: bool)

  datatype State = State(procs: seq<Proc>, waitLock: Option<nat>, nextpid: nat, exited: set<nat>, reaped: seq<nat>)

  datatype Action =
    | Fork(p: nat, c: nat)        // p calls kfork and allocproc finds slot c
    | ForkFail(p: nat)            // p calls kfork, which fails with a pid taken and the slot free again
    | Exit(p: nat)                // p calls kexit
    | Wait(p: nat)                // p calls kwait
    | Go(p: nat, fault: bool)     // p executes its next step; `fault`: copying out the status fails
    | Doze(p: nat)                // p sleeps on a channel that is no process
    | Rouse(p: nat)               // a wakeup for that channel
    | Schedule(p: nat)            // the scheduler switches to p
    | Kill(p: nat)                // kkill

  /** The process holds its own lock. */
  predicate Held(pc: Pc) {
    pc.ExitMark? || pc.ExitDrop? || pc.ExitSwitch? || pc.SleepDrop? || pc.SleepMark? || pc.SleepSwitch? || pc.Woken?
  }

  predicate HoldsWait(pc: Pc) {
    || pc.ForkLink? || pc.Reparent? || pc.WakeInit? || pc.WakeParent? || pc.ExitOwn? || pc.ExitMark? || pc.ExitDrop?
    || pc.Scan? || pc.SleepOwn? || pc.SleepDrop?
  }

  function Set(s: State, p: nat, me: Proc): State
    requires p < |s.procs|
  {
    s.(procs := s.procs[p := me])
  }

  function SetPc(s: State, p: nat, pc: Pc): State
    requires p < |s.procs|
  {
    Set(s, p, s.procs[p].(pc := pc))
  }

  /** What wakeup(chan) does to one process. */
  function Wake(q: Proc, chan: Option<nat>): Proc {
    if q.state == Sleeping && q.chan == chan then q.(state := Runnable) else q
  }

  /** A wakeup loop at process j: the lock of process j must be free. */
  predicate CanWake(s: State, p: nat, j: nat) {
    j < |s.procs| && j != p ==> !Held(s.procs[j].pc)
  }

  function WakeOne(s: State, p: nat, j: nat, chan: Option<nat>): State {
    if j < |s.procs| && j != p then Set(s, j, Wake(s.procs[j], chan)) else s
  }

  predicate Enabled(s: State, a: Action) {
    && a.p < |s.procs|
    && var me := s.procs[a.p];
       match a
       case Fork(_, c) => me.pc == User && c < |s.procs| && s.procs[c].state == Unused
       case ForkFail(_) => me.pc == User
       case Exit(p) => me.pc == User && p != INIT
       case Wait(_) => me.pc == User
       case Doze(_) => me.pc == User
       case Rouse(_) => me.pc == Nap && me.state == Sleeping
       case Schedule(_) => (me.pc == Asleep || me.pc == Ready || me.pc == Nap) && me.state == Runnable
       case Kill(_) => !Held(me.pc)
       case Go(p, _) =>
         match me.pc
         case Free => false
         case Embryo(_) => false
         case Ready => false
         case User => false
         case Gone => false
         case Asleep => false
         case Nap => false
         case ForkWant(_) => s.waitLock == None
         case ExitWant => s.waitLock == None
         case WaitWant => s.waitLock == None
         case WakeInit(_, j) => CanWake(s, p, j)
         case WakeParent(j) => CanWake(s, p, j)
         case Scan(i, _) => i < |s.procs| && s.procs[i].parent == Some(p) ==> !Held(s.procs[i].pc)
         case _ => true
  }

  function ForkStep(s: State, p: nat): State
    requires p < |s.procs|
  {
    match s.procs[p].pc
    case ForkWant(c) => SetPc(s.(waitLock := Some(p)), p, ForkLink(c))
    case ForkLink(c) =>
      if c < |s.procs| then SetPc(Set(s.(waitLock := None), c, s.procs[c].(parent := Some(p))), p, ForkGo(c)) else s
    case ForkGo(c) =>
      if c < |s.procs| then SetPc(Set(s, c, s.procs[c].(state := Runnable, pc := Ready)), p, User) else s
    case _ => s
  }

  function ExitStep(s: State, p: nat): State
    requires p < |s.procs|
  {
    var me := s.procs[p];
    match me.pc
    case ExitWant => SetPc(s.(waitLock := Some(p)), p, Reparent(0))
    case Reparent(i) =>
      if i >= |s.procs| then SetPc(s, p, WakeParent(0))
      else if s.procs[i].parent == Some(p) then
        SetPc(Set(s, i, s.procs[i].(parent := Some(INIT))), p, WakeInit(i, 0))
      else SetPc(s, p, Reparent(i + 1))
    case WakeInit(i, j) =>
      if j >= |s.procs| then SetPc(s, p, Reparent(i + 1))
      else SetPc(WakeOne(s, p, j, Some(INIT)), p, WakeInit(i, j + 1))
    case WakeParent(j) =>
      if j >= |s.procs| then SetPc(s, p, ExitOwn) else SetPc(WakeOne(s, p, j, me.parent), p, WakeParent(j + 1))
    case ExitOwn => SetPc(s, p, ExitMark)
    case ExitMark => Set(s.(exited := s.exited + {me.pid}), p, me.(state := Zombie, pc := ExitDrop))
    case ExitDrop => SetPc(s.(waitLock := None), p, ExitSwitch)
    case ExitSwitch => SetPc(s, p, Gone)
    case _ => s
  }

  const FREE := Proc(Free, Unused, None, 0, None, false)

  function WaitStep(s: State, p: nat, fault: bool): State
    requires p < |s.procs|
  {
    var me := s.procs[p];
    match me.pc
    case WaitWant => SetPc(s.(waitLock := Some(p)), p, Scan(0, false))
    case Scan(i, kids) =>
      if i >= |s.procs| then
        if !kids || me.killed then SetPc(s.(waitLock := None), p, User) else SetPc(s, p, SleepOwn)
      else if s.procs[i].parent == Some(p) then
        if s.procs[i].state != Zombie then SetPc(s, p, Scan(i + 1, true))
        else if fault then SetPc(s.(waitLock := None), p, User)
        else SetPc(Set(s.(waitLock := None, reaped := s.reaped + [s.procs[i].pid]), i, FREE), p, User)
      else SetPc(s, p, Scan(i + 1, kids))
    case SleepOwn => SetPc(s, p, SleepDrop)
    case SleepDrop => SetPc(s.(waitLock := None), p, SleepMark)
    case SleepMark => Set(s, p, me.(chan := Some(p), state := Sleeping, pc := SleepSwitch))
    case SleepSwitch => SetPc(s, p, Asleep)
    case Woken => Set(s, p, me.(chan := None, pc := WaitWant))
    case _ => s
  }

  predicate InFork(pc: Pc) { pc.ForkWant? || pc.ForkLink? || pc.ForkGo? }

  predicate InExit(pc: Pc) {
    || pc.ExitWant? || pc.Reparent? || pc.WakeInit? || pc.WakeParent? || pc.ExitOwn? || pc.ExitMark? || pc.ExitDrop?
    || pc.ExitSwitch? || pc.Gone?
  }

  function Apply(s: State, a: Action): State
    requires Enabled(s, a)
  {
    var me := s.procs[a.p];
    match a
    case Fork(p, c) =>
      SetPc(Set(s.(nextpid := s.nextpid + 1), c, Proc(Embryo(p), Used, None, s.nextpid, None, false)), p, ForkWant(c))
    case ForkFail(p) => s.(nextpid := s.nextpid + 1)
    case Exit(p) => SetPc(s, p, ExitWant)
    case Wait(p) => SetPc(s, p, WaitWant)
    case Doze(p) => Set(s, p, me.(pc := Nap, state := Sleeping, chan := Some(|s.procs|)))
    case Rouse(p) => Set(s, p, me.(state := Runnable))
    case Schedule(p) => Set(s, p, me.(state := Running, pc := if me.pc == Asleep then Woken else User))
    case Kill(p) => Set(s, p, me.(killed := true, state := if me.state == Sleeping then Runnable else me.state))
    case Go(p, fault) =>
      if InFork(me.pc) then ForkStep(s, p) else if InExit(me.pc) then ExitStep(s, p) else WaitStep(s, p, fault)
  }

  /** Only the first process runs; every other slot is unused. */
  predicate Initial(s: State) {
    && |s.procs| > 0 && s.procs[INIT] == Proc(User, Running, None, 1, None, false)
    && (forall p :: 0 < p < |s.procs| ==> s.procs[p] == FREE)
    && s.waitLock == None && s.nextpid == 2 && s.exited == {} && s.reaped == []
  }

  ghost predicate IsRun(s: State, run: seq<Action>)
    decreases |run|
  {
    run == [] || (Enabled(s, run[0]) && IsRun(Apply(s, run[0]), run[1..]))
  }

  ghost function Run(s: State, run: seq<Action>): State
    requires IsRun(s, run)
    decreases |run|
  {
    if run == [] then s else Run(Apply(s, run[0]), run[1..])
  }

  // ---- What is promised ----

  /** The process sleeps on its own address, as kwait does. */
  predicate InKwait(s: State, p: int)
    requires 0 <= p < |s.procs|
  {
    s.procs[p].state == Sleeping && s.procs[p].chan == Some(p)
  }

  ghost predicate Safe(s: State) {
    // No lost wakeup: a process asleep in kwait has no exited child.
    && (s.waitLock == None ==>
          forall p, c :: 0 <= p < |s.procs| && 0 <= c < |s.procs| ==>
            !(InKwait(s, p) && s.procs[c].parent == Some(p) && s.procs[c].state == Zombie))
    // A parent pointer leads to a live process.
    && (forall c :: 0 <= c < |s.procs| && s.procs[c].parent.Some? ==>
          var q := s.procs[c].parent.value; q < |s.procs| && s.procs[q].state != Zombie && s.procs[q].state != Unused)
    // Each exited process is reaped at most once; one not yet reaped is a zombie.
    && Distinct(s.reaped)
    && (forall pid :: pid in s.reaped ==> pid in s.exited)
    && (forall pid :: pid in s.exited && pid !in s.reaped ==>
          exists p :: 0 <= p < |s.procs| && s.procs[p].state == Zombie && s.procs[p].pid == pid)
  }

  // ---- The invariant ----

  predicate Alive(st: ProcState) { st != Zombie && st != Unused }

  /** The process has found no exited child and is going to sleep, or asleep. */
  predicate Committed(q: Proc) {
    q.pc.SleepOwn? || q.pc.SleepDrop? || q.pc.SleepMark? || q.pc.SleepSwitch? || (q.pc.Asleep? && q.state == Sleeping)
  }

  predicate InSleep(pc: Pc) { pc.SleepSwitch? || pc.Asleep? || pc.Woken? }

  /** What holds of one process by itself. */
  ghost predicate ProcOk(s: State, p: int)
    requires 0 <= p < |s.procs|
  {
    var me := s.procs[p];
    && (HoldsWait(me.pc) <==> s.waitLock == Some(p))
    && (me.state == Unused <==> me.pc.Free?)
    && (me.state == Zombie <==> me.pc.ExitDrop? || me.pc.ExitSwitch? || me.pc.Gone?)
    && (me.pc.Embryo? <==> me.state == Used)
    && (me.state == Sleeping ==> me.pc.SleepSwitch? || me.pc.Asleep? || me.pc.Nap?)
    && (me.pc.Nap? ==> me.chan == Some(|s.procs|))
    && (me.pc.SleepSwitch? ==> me.state == Sleeping)
    && (InSleep(me.pc) ==> me.chan == Some(p))
    && (me.pc.Free? ==> me.parent == None)
    && (p == INIT ==> !InExit(me.pc) && !me.pc.Free? && !me.pc.Embryo?)
    && (me.state != Unused ==> me.pid < s.nextpid && me.pid !in s.reaped)
    && (me.state == Zombie <==> me.state != Unused && me.pid in s.exited)
  }

  /** The child that a process in kfork is making, and back. */
  ghost predicate MakerOk(s: State, p: int)
    requires 0 <= p < |s.procs|
  {
    var me := s.procs[p];
    && (InFork(me.pc) ==> me.pc.c < |s.procs| && s.procs[me.pc.c].pc == Embryo(p))
    && (me.pc.Embryo? ==> me.pc.maker < |s.procs| && InFork(s.procs[me.pc.maker].pc) && s.procs[me.pc.maker].pc.c == p)
  }

  /** wakeup(initproc) is on its way to init. */
  predicate InitWakeupComing(s: State) {
    s.waitLock.Some? && s.waitLock.value < |s.procs| && s.procs[s.waitLock.value].pc.WakeInit?
      && s.procs[s.waitLock.value].pc.j <= INIT
  }

  /** Process p in exit has already given child c away. */
  predicate PassedOver(pc: Pc, c: int) {
    match pc
    case Reparent(i) => c < i
    case WakeInit(i, _) => c <= i
    case WakeParent(_) => true
    case ExitOwn => true
    case ExitMark => true
    case _ => false
  }

  /** A process in exit has already woken process q. */
  predicate HasWoken(pc: Pc, q: int) {
    match pc
    case WakeParent(j) => q < j
    case ExitOwn => true
    case ExitMark => true
    case ExitDrop => true
    case _ => false
  }

  /** What holds of a process p and another one, c, that may be its child. */
  ghost predicate PairOk(s: State, p: int, c: int)
    requires 0 <= p < |s.procs| && 0 <= c < |s.procs|
  {
    var me, q := s.procs[p], s.procs[c];
    && (q.parent == Some(p) ==>
          && Alive(me.state) && !PassedOver(me.pc, c)
          && (Committed(me) && q.state == Zombie ==> p == INIT && InitWakeupComing(s))
          && (me.pc.Scan? && c < me.pc.i ==> q.state != Zombie)
          && (HasWoken(q.pc, p) ==> !Committed(me)))
    && (q.parent.Some? ==> q.parent.value < |s.procs|)
    && (p != c && me.state != Unused && q.state != Unused ==> me.pid != q.pid)
  }

  ghost predicate HistoryOk(s: State) {
    && Distinct(s.reaped) && (forall pid :: pid in s.reaped ==> pid < s.nextpid && pid in s.exited)
    && (forall pid :: pid in s.exited ==> pid < s.nextpid)
    && (forall pid :: pid in s.exited && pid !in s.reaped ==> ZombieWith(s, pid))
  }

  ghost predicate ZombieWith(s: State, pid: nat) {
    exists p :: 0 <= p < |s.procs| && s.procs[p].state == Zombie && s.procs[p].pid == pid
  }

  ghost predicate Inv(s: State) {
    && |s.procs| > 0 && (s.waitLock.Some? ==> s.waitLock.value < |s.procs|)
    && (forall p :: 0 <= p < |s.procs| ==> ProcOk(s, p))
    && (forall p :: 0 <= p < |s.procs| ==> MakerOk(s, p))
    && (forall p, c :: 0 <= p < |s.procs| && 0 <= c < |s.procs| ==> PairOk(s, p, c))
    && HistoryOk(s)
  }

  lemma InvIsSafe(s: State)
    requires Inv(s)
    ensures Safe(s)
  {
    forall p, c | s.waitLock == None && 0 <= p < |s.procs| && 0 <= c < |s.procs|
      ensures !(InKwait(s, p) && s.procs[c].parent == Some(p) && s.procs[c].state == Zombie)
    {
      assert ProcOk(s, p) && PairOk(s, p, c);
    }
    forall c | 0 <= c < |s.procs| && s.procs[c].parent.Some?
      ensures var q := s.procs[c].parent.value;
              q < |s.procs| && s.procs[q].state != Zombie && s.procs[q].state != Unused
    {
      assert PairOk(s, c, c);
      assert PairOk(s, s.procs[c].parent.value, c);
    }
    forall pid | pid in s.exited && pid !in s.reaped
      ensures exists p :: 0 <= p < |s.procs| && s.procs[p].state == Zombie && s.procs[p].pid == pid
    {
      assert ZombieWith(s, pid);
    }
  }

  // ---- Each step keeps it ----

  lemma ForkKeepsProc(s: State, p: nat, q: nat)
    requires Enabled(s, Go(p, false)) && InFork(s.procs[p].pc) && q < |s.procs| && ProcOk(s, p) && ProcOk(s, q)
             && MakerOk(s, p)
    ensures ProcOk(ForkStep(s, p), q)
  {
  }

  lemma WakeKeepsProc(s: State, p: nat, q: nat)
    requires Enabled(s, Go(p, false)) && (s.procs[p].pc.WakeInit? || s.procs[p].pc.WakeParent?)
    requires q < |s.procs| && ProcOk(s, p) && ProcOk(s, q)
    ensures ProcOk(ExitStep(s, p), q)
  {
  }

  lemma ReparentKeepsProc(s: State, p: nat, q: nat)
    requires Enabled(s, Go(p, false)) && s.procs[p].pc.Reparent? && q < |s.procs| && ProcOk(s, p) && ProcOk(s, q)
    ensures ProcOk(ExitStep(s, p), q)
  {
  }

  lemma LeaveKeepsProc(s: State, p: nat, q: nat)
    requires Enabled(s, Go(p, false)) && InExit(s.procs[p].pc) && !s.procs[p].pc.WakeInit? && !s.procs[p].pc.WakeParent?
    requires !s.procs[p].pc.Reparent? && q < |s.procs| && ProcOk(s, p) && ProcOk(s, q) && PairOk(s, p, q)
    ensures ProcOk(ExitStep(s, p), q)
  {
  }

  lemma ExitKeepsProc(s: State, p: nat, q: nat)
    requires Enabled(s, Go(p, false)) && InExit(s.procs[p].pc) && !s.procs[p].pc.WakeInit? && !s.procs[p].pc.WakeParent?
    requires q < |s.procs| && ProcOk(s, p) && ProcOk(s, q) && PairOk(s, p, q)
    ensures ProcOk(ExitStep(s, p), q)
  {
    if s.procs[p].pc.Reparent? { ReparentKeepsProc(s, p, q); } else { LeaveKeepsProc(s, p, q); }
  }

  predicate InWait(pc: Pc) { !InFork(pc) && !InExit(pc) }

  /** The scan of process p is at an exited child, whose status can be copied out. */
  predicate Reaps(s: State, p: nat, fault: bool)
    requires p < |s.procs| && s.procs[p].pc.Scan?
  {
    var i := s.procs[p].pc.i;
    i < |s.procs| && s.procs[i].parent == Some(p) && s.procs[i].state == Zombie && !fault
  }

  lemma ScanOnProc(s: State, p: nat, fault: bool, q: nat)
    requires Enabled(s, Go(p, fault)) && s.procs[p].pc.Scan? && !Reaps(s, p, fault)
    requires q < |s.procs| && ProcOk(s, p) && ProcOk(s, q)
    ensures ProcOk(WaitStep(s, p, fault), q)
  {
  }

  lemma ReapProc(s: State, p: nat, fault: bool, q: nat)
    requires Enabled(s, Go(p, fault)) && s.procs[p].pc.Scan? && Reaps(s, p, fault)
    requires q < |s.procs| && ProcOk(s, p) && ProcOk(s, q)
    requires var i := s.procs[p].pc.i; ProcOk(s, i) && PairOk(s, i, q)
    ensures ProcOk(WaitStep(s, p, fault), q)
  {
    var i, s' := s.procs[p].pc.i, WaitStep(s, p, fault);
    assert forall pid :: pid in s'.reaped <==> pid in s.reaped || pid == s.procs[i].pid;
  }

  lemma ScanKeepsProc(s: State, p: nat, fault: bool, q: nat)
    requires Enabled(s, Go(p, fault)) && s.procs[p].pc.Scan? && q < |s.procs| && ProcOk(s, p) && ProcOk(s, q)
    requires var i := s.procs[p].pc.i; i < |s.procs| ==> ProcOk(s, i) && PairOk(s, i, q)
    ensures ProcOk(WaitStep(s, p, fault), q)
  {
    if Reaps(s, p, fault) { ReapProc(s, p, fault, q); } else { ScanOnProc(s, p, fault, q); }
  }

  lemma GoToSleepProc(s: State, p: nat, fault: bool, q: nat)
    requires Enabled(s, Go(p, fault)) && q < |s.procs| && ProcOk(s, p) && ProcOk(s, q)
    requires var pc := s.procs[p].pc; pc.WaitWant? || pc.SleepOwn? || pc.SleepDrop?
    ensures ProcOk(WaitStep(s, p, fault), q)
  {
  }

  lemma SleepProc(s: State, p: nat, fault: bool, q: nat)
    requires Enabled(s, Go(p, fault)) && q < |s.procs| && ProcOk(s, p) && ProcOk(s, q)
    requires var pc := s.procs[p].pc; pc.SleepMark? || pc.SleepSwitch? || pc.Woken?
    ensures ProcOk(WaitStep(s, p, fault), q)
  {
  }

  lemma SleepKeepsProc(s: State, p: nat, fault: bool, q: nat)
    requires Enabled(s, Go(p, fault)) && InWait(s.procs[p].pc) && !s.procs[p].pc.Scan?
    requires q < |s.procs| && ProcOk(s, p) && ProcOk(s, q)
    ensures ProcOk(WaitStep(s, p, fault), q)
  {
    var pc := s.procs[p].pc;
    if pc.WaitWant? || pc.SleepOwn? || pc.SleepDrop? {
      GoToSleepProc(s, p, fault, q);
    } else {
      SleepProc(s, p, fault, q);
    }
  }

  lemma CallForkProc(s: State, p: nat, c: nat, q: nat)
    requires Enabled(s, Fork(p, c)) && q < |s.procs| && ProcOk(s, p) && ProcOk(s, c) && ProcOk(s, q) && HistoryOk(s)
    ensures ProcOk(Apply(s, Fork(p, c)), q)
  {
  }

  lemma CallKeepsProc(s: State, a: Action, q: nat)
    requires Enabled(s, a) && !a.Go? && !a.Fork? && q < |s.procs| && ProcOk(s, a.p) && ProcOk(s, q)
    ensures ProcOk(Apply(s, a), q)
  {
  }

  lemma ActionKeepsProc(s: State, a: Action, q: nat)
    requires Inv(s) && Enabled(s, a) && q < |s.procs|
    ensures ProcOk(Apply(s, a), q)
  {
    var pc := s.procs[a.p].pc;
    assert ProcOk(s, a.p) && ProcOk(s, q) && PairOk(s, a.p, q) && MakerOk(s, a.p);
    if a.Fork? {
      assert ProcOk(s, a.c);
      CallForkProc(s, a.p, a.c, q);
    } else if !a.Go? {
      CallKeepsProc(s, a, q);
    } else if InFork(pc) {
      ForkKeepsProc(s, a.p, q);
    } else if pc.WakeInit? || pc.WakeParent? {
      WakeKeepsProc(s, a.p, q);
    } else if InExit(pc) {
      ExitKeepsProc(s, a.p, q);
    } else if pc.Scan? {
      assert pc.i < |s.procs| ==> ProcOk(s, pc.i) && PairOk(s, pc.i, q);
      ScanKeepsProc(s, a.p, a.fault, q);
    } else {
      SleepKeepsProc(s, a.p, a.fault, q);
    }
  }

  lemma ForkKeepsMaker(s: State, p: nat, q: nat)
    requires Enabled(s, Go(p, false)) && InFork(s.procs[p].pc) && q < |s.procs| && MakerOk(s, p) && MakerOk(s, q)
    ensures MakerOk(ForkStep(s, p), q)
  {
  }

  /** A step that leaves alone who makes whom. */
  ghost predicate SameMakers(s: State, s': State) {
    && |s'.procs| == |s.procs|
    && forall i :: 0 <= i < |s.procs| ==> SameMaker(s.procs[i].pc, s'.procs[i].pc)
  }

  predicate SameMaker(pc: Pc, pc': Pc) {
    pc' == pc || !(InFork(pc) || pc.Embryo? || InFork(pc') || pc'.Embryo?)
  }

  lemma SameMakersKeep(s: State, s': State, q: nat)
    requires SameMakers(s, s') && q < |s.procs| && MakerOk(s, q)
    ensures MakerOk(s', q)
  {
    var pc := s.procs[q].pc;
    assert SameMaker(pc, s'.procs[q].pc);
    assert InFork(pc) ==> SameMaker(s.procs[pc.c].pc, s'.procs[pc.c].pc);
    assert pc.Embryo? ==> SameMaker(s.procs[pc.maker].pc, s'.procs[pc.maker].pc);
  }

  lemma ExitMakers(s: State, p: nat)
    requires p < |s.procs| && InExit(s.procs[p].pc)
    ensures SameMakers(s, ExitStep(s, p))
  {
  }

  lemma WaitMakers(s: State, p: nat, fault: bool)
    requires p < |s.procs| && InWait(s.procs[p].pc) && Enabled(s, Go(p, fault))
    requires var pc := s.procs[p].pc; pc.Scan? && pc.i < |s.procs| ==> ProcOk(s, pc.i)
    ensures SameMakers(s, WaitStep(s, p, fault))
  {
  }

  lemma CallMakers(s: State, a: Action)
    requires Enabled(s, a) && !a.Go? && !a.Fork?
    ensures SameMakers(s, Apply(s, a))
  {
  }

  lemma CallForkMaker(s: State, p: nat, c: nat, q: nat)
    requires Enabled(s, Fork(p, c)) && q < |s.procs| && MakerOk(s, q) && MakerOk(s, p) && ProcOk(s, c) && ProcOk(s, q)
             && ProcOk(s, p)
    ensures MakerOk(Apply(s, Fork(p, c)), q)
  {
  }

  lemma ActionKeepsMaker(s: State, a: Action, q: nat)
    requires Inv(s) && Enabled(s, a) && q < |s.procs|
    ensures MakerOk(Apply(s, a), q)
  {
    var pc := s.procs[a.p].pc;
    assert MakerOk(s, q) && MakerOk(s, a.p) && ProcOk(s, q) && ProcOk(s, a.p);
    match a
    case Fork(p, c) =>
      assert ProcOk(s, c);
      CallForkMaker(s, p, c, q);
    case Go(p, fault) =>
      if InFork(pc) {
        ForkKeepsMaker(s, p, q);
      } else {
        if InExit(pc) { ExitMakers(s, p); } else {
          assert pc.Scan? && pc.i < |s.procs| ==> ProcOk(s, pc.i);
          WaitMakers(s, p, fault);
        }
        SameMakersKeep(s, Apply(s, a), q);
      }
    case _ =>
      CallMakers(s, a);
      SameMakersKeep(s, Apply(s, a), q);
  }

  // ---- Parents and children ----

  /** What the lemmas about a step of process p need to know about m and c. */
  ghost predicate Ready3(s: State, p: nat, m: nat, c: nat) {
    && p < |s.procs| && m < |s.procs| && c < |s.procs| && ProcOk(s, p) && ProcOk(s, m) && ProcOk(s, c)
    && PairOk(s, m, c) && PairOk(s, p, c)
  }

  lemma ExitMovesPair(s: State, p: nat, m: nat, c: nat)
    requires Ready3(s, p, m, c) && Enabled(s, Go(p, false))
    requires var pc := s.procs[p].pc; pc.ExitWant? || pc.ExitOwn? || pc.ExitDrop? || pc.ExitSwitch?
    ensures PairOk(ExitStep(s, p), m, c)
  {
  }

  lemma ReparentPair(s: State, p: nat, m: nat, c: nat)
    requires Ready3(s, p, m, c) && Enabled(s, Go(p, false)) && s.procs[p].pc.Reparent? && INIT < |s.procs|
             && ProcOk(s, INIT)
    ensures PairOk(ExitStep(s, p), m, c)
  {
  }

  lemma WakeInitNextPair(s: State, p: nat, m: nat, c: nat)
    requires Ready3(s, p, m, c) && Enabled(s, Go(p, false)) && s.procs[p].pc.WakeInit? && s.procs[p].pc.j < |s.procs|
    ensures PairOk(ExitStep(s, p), m, c)
  {
  }

  lemma WakeInitEndPair(s: State, p: nat, m: nat, c: nat)
    requires Ready3(s, p, m, c) && Enabled(s, Go(p, false)) && s.procs[p].pc.WakeInit? && s.procs[p].pc.j >= |s.procs|
    ensures PairOk(ExitStep(s, p), m, c)
  {
  }

  lemma WakeInitPair(s: State, p: nat, m: nat, c: nat)
    requires Ready3(s, p, m, c) && Enabled(s, Go(p, false)) && s.procs[p].pc.WakeInit?
    ensures PairOk(ExitStep(s, p), m, c)
  {
    if s.procs[p].pc.j < |s.procs| { WakeInitNextPair(s, p, m, c); } else { WakeInitEndPair(s, p, m, c); }
  }

  lemma WakeParentPair(s: State, p: nat, m: nat, c: nat)
    requires Ready3(s, p, m, c) && Enabled(s, Go(p, false)) && s.procs[p].pc.WakeParent?
    ensures PairOk(ExitStep(s, p), m, c)
  {
  }

  lemma ExitMarkPair(s: State, p: nat, m: nat, c: nat)
    requires Ready3(s, p, m, c) && Enabled(s, Go(p, false)) && s.procs[p].pc.ExitMark?
    ensures PairOk(ExitStep(s, p), m, c)
  {
  }

  lemma ScanEndPair(s: State, p: nat, fault: bool, m: nat, c: nat)
    requires Ready3(s, p, m, c) && Enabled(s, Go(p, fault)) && s.procs[p].pc.Scan? && s.procs[p].pc.i >= |s.procs|
    ensures PairOk(WaitStep(s, p, fault), m, c)
  {
  }

  lemma ScanKidPair(s: State, p: nat, fault: bool, m: nat, c: nat)
    requires Ready3(s, p, m, c) && Enabled(s, Go(p, fault)) && s.procs[p].pc.Scan? && s.procs[p].pc.i < |s.procs|
    requires !Reaps(s, p, fault) && s.procs[s.procs[p].pc.i].parent == Some(p)
    ensures PairOk(WaitStep(s, p, fault), m, c)
  {
  }

  lemma ScanOtherPair(s: State, p: nat, fault: bool, m: nat, c: nat)
    requires Ready3(s, p, m, c) && Enabled(s, Go(p, fault)) && s.procs[p].pc.Scan? && s.procs[p].pc.i < |s.procs|
    requires s.procs[s.procs[p].pc.i].parent != Some(p)
    ensures PairOk(WaitStep(s, p, fault), m, c)
  {
  }

  lemma ScanNextPair(s: State, p: nat, fault: bool, m: nat, c: nat)
    requires Ready3(s, p, m, c) && Enabled(s, Go(p, fault)) && s.procs[p].pc.Scan? && s.procs[p].pc.i < |s.procs|
    requires !Reaps(s, p, fault)
    ensures PairOk(WaitStep(s, p, fault), m, c)
  {
    if s.procs[s.procs[p].pc.i].parent == Some(p) {
      ScanKidPair(s, p, fault, m, c);
    } else {
      ScanOtherPair(s, p, fault, m, c);
    }
  }

  lemma ScanOnPair(s: State, p: nat, fault: bool, m: nat, c: nat)
    requires Ready3(s, p, m, c) && Enabled(s, Go(p, fault)) && s.procs[p].pc.Scan? && !Reaps(s, p, fault)
    ensures PairOk(WaitStep(s, p, fault), m, c)
  {
    if s.procs[p].pc.i >= |s.procs| { ScanEndPair(s, p, fault, m, c); } else { ScanNextPair(s, p, fault, m, c); }
  }

  lemma ReapPair(s: State, p: nat, fault: bool, m: nat, c: nat)
    requires Ready3(s, p, m, c) && Enabled(s, Go(p, fault)) && s.procs[p].pc.Scan? && Reaps(s, p, fault)
    requires var i := s.procs[p].pc.i; i < |s.procs| ==> ProcOk(s, i) && PairOk(s, i, c)
    ensures PairOk(WaitStep(s, p, fault), m, c)
  {
  }

  lemma GoToSleepPair(s: State, p: nat, fault: bool, m: nat, c: nat)
    requires Ready3(s, p, m, c) && Enabled(s, Go(p, fault))
    requires var pc := s.procs[p].pc; pc.WaitWant? || pc.SleepOwn? || pc.SleepDrop?
    ensures PairOk(WaitStep(s, p, fault), m, c)
  {
  }

  lemma SleepPair(s: State, p: nat, fault: bool, m: nat, c: nat)
    requires Ready3(s, p, m, c) && Enabled(s, Go(p, fault))
    requires var pc := s.procs[p].pc; pc.SleepMark? || pc.SleepSwitch? || pc.Woken?
    ensures PairOk(WaitStep(s, p, fault), m, c)
  {
  }

  lemma ForkMovesPair(s: State, p: nat, m: nat, c: nat)
    requires Ready3(s, p, m, c) && Enabled(s, Go(p, false)) && s.procs[p].pc.ForkWant?
    ensures PairOk(ForkStep(s, p), m, c)
  {
  }

  lemma ForkLinkPair(s: State, p: nat, m: nat, c: nat)
    requires Ready3(s, p, m, c) && Enabled(s, Go(p, false)) && s.procs[p].pc.ForkLink? && MakerOk(s, p)
    requires ProcOk(s, s.procs[p].pc.c)
    ensures PairOk(ForkStep(s, p), m, c)
  {
  }

  lemma ForkGoPair(s: State, p: nat, m: nat, c: nat)
    requires Ready3(s, p, m, c) && Enabled(s, Go(p, false)) && s.procs[p].pc.ForkGo? && MakerOk(s, p)
    requires ProcOk(s, s.procs[p].pc.c)
    ensures PairOk(ForkStep(s, p), m, c)
  {
  }

  lemma CallStartPair(s: State, a: Action, m: nat, c: nat)
    requires Ready3(s, a.p, m, c) && Enabled(s, a) && (a.ForkFail? || a.Exit? || a.Wait? || a.Doze?)
    ensures PairOk(Apply(s, a), m, c)
  {
  }

  lemma CallWakePair(s: State, a: Action, m: nat, c: nat)
    requires Ready3(s, a.p, m, c) && Enabled(s, a) && (a.Rouse? || a.Schedule? || a.Kill?)
    ensures PairOk(Apply(s, a), m, c)
  {
  }

  lemma CallPair(s: State, a: Action, m: nat, c: nat)
    requires Ready3(s, a.p, m, c) && Enabled(s, a) && !a.Go? && !a.Fork?
    ensures PairOk(Apply(s, a), m, c)
  {
    if a.Rouse? || a.Schedule? || a.Kill? { CallWakePair(s, a, m, c); } else { CallStartPair(s, a, m, c); }
  }

  lemma CallForkPair(s: State, p: nat, k: nat, m: nat, c: nat)
    requires Ready3(s, p, m, c) && Enabled(s, Fork(p, k)) && ProcOk(s, k) && PairOk(s, k, c)
    ensures PairOk(Apply(s, Fork(p, k)), m, c)
  {
  }

  lemma ForkKeepsPair(s: State, p: nat, m: nat, c: nat)
    requires Inv(s) && Ready3(s, p, m, c) && Enabled(s, Go(p, false)) && InFork(s.procs[p].pc)
    ensures PairOk(ForkStep(s, p), m, c)
  {
    assert MakerOk(s, p);
    assert ProcOk(s, s.procs[p].pc.c);
    if s.procs[p].pc.ForkWant? {
      ForkMovesPair(s, p, m, c);
    } else if s.procs[p].pc.ForkLink? {
      ForkLinkPair(s, p, m, c);
    } else {
      ForkGoPair(s, p, m, c);
    }
  }

  lemma ExitKeepsPair(s: State, p: nat, m: nat, c: nat)
    requires Inv(s) && Ready3(s, p, m, c) && Enabled(s, Go(p, false)) && InExit(s.procs[p].pc)
    ensures PairOk(ExitStep(s, p), m, c)
  {
    assert ProcOk(s, INIT);
    var pc := s.procs[p].pc;
    if pc.Reparent? {
      ReparentPair(s, p, m, c);
    } else if pc.WakeInit? {
      WakeInitPair(s, p, m, c);
    } else if pc.WakeParent? {
      WakeParentPair(s, p, m, c);
    } else if pc.ExitMark? {
      ExitMarkPair(s, p, m, c);
    } else {
      ExitMovesPair(s, p, m, c);
    }
  }

  lemma WaitKeepsPair(s: State, p: nat, fault: bool, m: nat, c: nat)
    requires Inv(s) && Ready3(s, p, m, c) && Enabled(s, Go(p, fault)) && InWait(s.procs[p].pc)
    ensures PairOk(WaitStep(s, p, fault), m, c)
  {
    var pc := s.procs[p].pc;
    if pc.Scan? {
      if Reaps(s, p, fault) {
        assert ProcOk(s, pc.i) && PairOk(s, pc.i, c);
        ReapPair(s, p, fault, m, c);
      } else {
        ScanOnPair(s, p, fault, m, c);
      }
    } else if pc.WaitWant? || pc.SleepOwn? || pc.SleepDrop? {
      GoToSleepPair(s, p, fault, m, c);
    } else {
      SleepPair(s, p, fault, m, c);
    }
  }

  lemma ActionKeepsPair(s: State, a: Action, m: nat, c: nat)
    requires Inv(s) && Enabled(s, a) && m < |s.procs| && c < |s.procs|
    ensures PairOk(Apply(s, a), m, c)
  {
    assert ProcOk(s, a.p) && ProcOk(s, m) && ProcOk(s, c) && PairOk(s, m, c) && PairOk(s, a.p, c);
    match a
    case Go(p, fault) =>
      if InFork(s.procs[p].pc) {
        ForkKeepsPair(s, p, m, c);
      } else if InExit(s.procs[p].pc) {
        ExitKeepsPair(s, p, m, c);
      } else {
        WaitKeepsPair(s, p, fault, m, c);
      }
    case Fork(p, k) =>
      assert ProcOk(s, k) && PairOk(s, k, c);
      CallForkPair(s, p, k, m, c);
    case _ => CallPair(s, a, m, c);
  }

  // ---- Histories ----

  /** A zombie stays a zombie with its pid until it is reaped. */
  lemma ZombieStays(s: State, a: Action, pid: nat)
    requires Inv(s) && Enabled(s, a) && ZombieWith(s, pid) && pid !in Apply(s, a).reaped
    ensures ZombieWith(Apply(s, a), pid)
  {
    var s' := Apply(s, a);
    var q :| 0 <= q < |s.procs| && s.procs[q].state == Zombie && s.procs[q].pid == pid;
    assert ProcOk(s, q) && ProcOk(s, a.p) && MakerOk(s, a.p);
    assert s'.procs[q].state == Zombie && s'.procs[q].pid == pid by {
      ZombieSlotStays(s, a, q);
    }
  }

  lemma ZombieSlotStays(s: State, a: Action, q: nat)
    requires Enabled(s, a) && q < |s.procs| && s.procs[q].state == Zombie && ProcOk(s, q) && ProcOk(s, a.p)
             && MakerOk(s, a.p)
    requires s.procs[q].pid !in Apply(s, a).reaped
    ensures Apply(s, a).procs[q].state == Zombie && Apply(s, a).procs[q].pid == s.procs[q].pid
  {
    var s', pc := Apply(s, a), s.procs[a.p].pc;
    assert pc.Scan? && s'.reaped != s.reaped ==> s.procs[pc.i].pid == s'.reaped[|s.reaped|];
  }

  /** The pid that a step adds to the processes that have exited, or to those that were reaped. */
  lemma HistoryGrows(s: State, a: Action)
    requires Enabled(s, a) && ProcOk(s, a.p) && MakerOk(s, a.p)
    requires var pc := s.procs[a.p].pc; pc.Scan? && pc.i < |s.procs| ==> ProcOk(s, pc.i)
    ensures var s' := Apply(s, a);
            && s'.nextpid >= s.nextpid && |s'.procs| == |s.procs|
            && (s'.exited == s.exited
                || (s'.exited == s.exited + {s.procs[a.p].pid} && s'.procs[a.p].state == Zombie
                    && s'.procs[a.p].pid == s.procs[a.p].pid && s.procs[a.p].pid < s.nextpid))
            && (s'.reaped == s.reaped
                || (exists i ::
                      0 <= i < |s.procs| && ProcOk(s, i) && s.procs[i].state == Zombie
                      && s'.reaped == s.reaped + [s.procs[i].pid]))
  {
    var s', pc := Apply(s, a), s.procs[a.p].pc;
    assert s'.reaped != s.reaped ==> pc.Scan? && pc.i < |s.procs| && ProcOk(s, pc.i) && s.procs[pc.i].state == Zombie;
  }

  lemma ActionKeepsHistory(s: State, a: Action)
    requires Inv(s) && Enabled(s, a)
    ensures HistoryOk(Apply(s, a))
  {
    var s', pc := Apply(s, a), s.procs[a.p].pc;
    assert ProcOk(s, a.p) && MakerOk(s, a.p);
    assert pc.Scan? && pc.i < |s.procs| ==> ProcOk(s, pc.i);
    HistoryGrows(s, a);
    forall pid | pid in s'.exited && pid !in s'.reaped ensures ZombieWith(s', pid) {
      if pid in s.exited {
        assert pid !in s.reaped;
        ZombieStays(s, a, pid);
      }
    }
  }

  lemma ActionKeepsInv(s: State, a: Action)
    requires Inv(s) && Enabled(s, a)
    ensures Inv(Apply(s, a))
  {
    var s' := Apply(s, a);
    ActionKeepsHistory(s, a);
    ActionKeepsLock(s, a);
    forall p | 0 <= p < |s'.procs| ensures ProcOk(s', p) && MakerOk(s', p) {
      ActionKeepsProc(s, a, p);
      ActionKeepsMaker(s, a, p);
    }
    forall p, c | 0 <= p < |s'.procs| && 0 <= c < |s'.procs| ensures PairOk(s', p, c) {
      ActionKeepsPair(s, a, p, c);
    }
  }

  lemma ActionKeepsLock(s: State, a: Action)
    requires Enabled(s, a) && (s.waitLock.Some? ==> s.waitLock.value < |s.procs|)
    ensures var s' := Apply(s, a); |s'.procs| == |s.procs| && (s'.waitLock.Some? ==> s'.waitLock.value < |s'.procs|)
  {
  }

  lemma {:induction false} RunKeepsInv(s: State, run: seq<Action>)
    requires Inv(s) && IsRun(s, run)
    ensures Inv(Run(s, run))
    decreases |run|
  {
    if run != [] {
      ActionKeepsInv(s, run[0]);
      RunKeepsInv(Apply(s, run[0]), run[1..]);
    }
  }

  lemma InitialInv(s: State)
    requires Initial(s)
    ensures Inv(s)
  {
  }

  /**
   * In every interleaving of fork, exit and wait: whenever wait_lock is free no
   * process sleeps in kwait while a child of it is a zombie, parent pointers lead
   * to live processes only, and every process that exits is reaped at most once.
   */
  lemma ExitAndWait(s: State, run: seq<Action>)
    requires Initial(s) && IsRun(s, run)
    ensures Safe(Run(s, run))
  {
    InitialInv(s);
    RunKeepsInv(s, run);
    InvIsSafe(Run(s, run));
  }
}
