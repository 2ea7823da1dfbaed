/**
 * Sleep-locks (kernel/sleeplock.c) over sleep and wakeup (kernel/proc.c), for
 * any number of processes contending for one sleep-lock.
 *
 * Spinlocks are atomic, so the model is a state machine whose steps are the
 * stretches of code between two lock operations.  `lk` is the spinlock inside
 * the sleep-lock; every process also has its own spinlock `p->lock`, which
 * sleep holds from before it drops `lk` until the scheduler has switched away.
 */
module SleepLock {
  import opened Wrappers

  datatype ProcState = Running | Runnable | Sleeping

  /** Where a process is; `Waking(i)` and `Poking(i)` are in the wakeup loop. */
  datatype Pc =
    | Outside     // not using the sleep-lock
    | WantLk      // acquiresleep or the end of sleep: acquiring lk
    | Testing     // holds lk, about to test `locked`
    | WantOwn     // sleep: holds lk, acquiring its own lock
    | DropLk      // sleep: holds lk and its own lock, about to release lk
    | GoSleep     // sleep: holds its own lock, about to become SLEEPING
    | Switching   // SLEEPING, its own lock not yet released by the scheduler
    | Asleep      // switched away
    | Woken       // scheduled again, holds its own lock
    | Holding     // acquiresleep has returned
    | WantLkBack  // releasesleep: acquiring lk
    | Clearing    // releasesleep: holds lk, about to clear `locked`
    | Waking(i: nat)  // wakeup: holds lk, about to look at process i
    | Poking(i: nat)  // wakeup: holds lk and process i's lock

  datatype Proc = Proc(pc: Pc, state: ProcState, onChan: bool, lock: Option<nat>)

  datatype State = State(procs: seq<Proc>, lk: Option<nat>, locked: bool, owner: Option<nat>)

  datatype Action =
    | Acquire(p: nat)   // call acquiresleep
    | Release(p: nat)   // the holder calls releasesleep
    | Go(p: nat)        // p executes its next step
    | Schedule(p: nat)  // the scheduler switches to p
    | Kill(p: nat)      // kkill makes a sleeping p runnable

  function SetPc(s: State, p: nat, pc: Pc): State
    requires p < |s.procs|
  {
    s.(procs := s.procs[p := s.procs[p].(pc := pc)])
  }

  predicate Enabled(s: State, a: Action) {
    && a.p < |s.procs|
    && var me := s.procs[a.p];
      match a
      case Acquire(_) => me.pc == Outside
      case Release(_) => me.pc == Holding
      case Schedule(_) => me.pc == Asleep && me.state == Runnable && me.lock == None
      case Kill(_) => me.state == Sleeping && me.lock == None
      case Go(p) =>
        match me.pc
        case Outside => false
        case Holding => false
        case Asleep => false
        case WantLk => s.lk == None
        case WantLkBack => s.lk == None
        case WantOwn => me.lock == None
        case Waking(i) => i < |s.procs| && i != p ==> s.procs[i].lock == None
        case Poking(i) => i < |s.procs|
        case _ => true
  }

  function Step(s: State, p: nat): State
    requires Enabled(s, Go(p))
  {
    var me := s.procs[p];
    match me.pc
    case WantLk => SetPc(s.(lk := Some(p)), p, Testing)
    case Testing =>
      if s.locked then SetPc(s, p, WantOwn)
      else SetPc(s.(locked := true, owner := Some(p), lk := None), p, Holding)
    case WantOwn => s.(procs := s.procs[p := me.(lock := Some(p), pc := DropLk)])
    case DropLk => SetPc(s.(lk := None), p, GoSleep)
    case GoSleep => s.(procs := s.procs[p := me.(onChan := true, state := Sleeping, pc := Switching)])
    case Switching => s.(procs := s.procs[p := me.(lock := None, pc := Asleep)])
    case Woken => s.(procs := s.procs[p := me.(onChan := false, lock := None, pc := WantLk)])
    case WantLkBack => SetPc(s.(lk := Some(p)), p, Clearing)
    case Clearing => SetPc(s.(locked := false, owner := None), p, Waking(0))
    case Waking(i) =>
      if i >= |s.procs| then SetPc(s.(lk := None), p, Outside)
      else if i == p then SetPc(s, p, Waking(i + 1))
      else SetPc(s.(procs := s.procs[i := s.procs[i].(lock := Some(p))]), p, Poking(i))
    case Poking(i) =>
      var q := s.procs[i];
      var q' := q.(lock := None, state := if q.state == Sleeping && q.onChan then Runnable else q.state);
      SetPc(s.(procs := s.procs[i := q']), p, Waking(i + 1))
    case _ => s
  }

  function Apply(s: State, a: Action): State
    requires Enabled(s, a)
  {
    match a
    case Acquire(p) => SetPc(s, p, WantLk)
    case Release(p) => SetPc(s, p, WantLkBack)
    case Go(p) => Step(s, p)
    case Schedule(p) =>
      s.(procs := s.procs[p := s.procs[p].(pc := Woken, state := Running, lock := Some(p))])
    case Kill(p) => s.(procs := s.procs[p := s.procs[p].(state := Runnable)])
  }

  predicate Initial(s: State) {
    && (forall p :: 0 <= p < |s.procs| ==> s.procs[p] == Proc(Outside, Running, false, None))
    && s.lk == None && !s.locked && s.owner == None
  }

  ghost predicate IsRun(s: State, run: seq<Action>)
    decreases |run|
  {
    run == [] || (Enabled(s, run[0]) && IsRun(Apply(s, run[0]), run[1..]))
  }

  ghost function Run(s: State, run: seq<Action>): State
    requires IsRun(s, run)
    decreases |run|
  {
    if run == [] then s else Run(Apply(s, run[0]), run[1..])
  }

  // ---- What is promised ----

  /** The processes that have the sleep-lock: from acquiresleep's return until `locked` is cleared. */
  predicate Owns(pc: Pc) { pc.Holding? || pc.WantLkBack? || pc.Clearing? }

  ghost predicate Safe(s: State) {
    // At most one holder.
    && (forall p, q :: 0 <= p < |s.procs| && 0 <= q < |s.procs| && Owns(s.procs[p].pc) && Owns(s.procs[q].pc) ==>
          p == q)
    // No lost wakeup.
    && (s.lk == None && !s.locked ==>
          forall p :: 0 <= p < |s.procs| ==> !(s.procs[p].state == Sleeping && s.procs[p].onChan))
  }

  // ---- The invariant ----

  predicate UsesLk(pc: Pc) {
    pc.Testing? || pc.WantOwn? || pc.DropLk? || pc.Clearing? || pc.Waking? || pc.Poking?
  }

  predicate UsesOwn(pc: Pc) { pc.DropLk? || pc.GoSleep? || pc.Switching? || pc.Woken? }

  /** A releaser has yet to look at process `q`. */
  predicate WakeupComing(s: State, q: int) {
    && s.lk.Some? && s.lk.value < |s.procs|
    && match s.procs[s.lk.value].pc
       case Waking(i) => i <= q
       case Poking(i) => i <= q
       case _ => false
  }

  ghost predicate ProcOk(s: State, p: int)
    requires 0 <= p < |s.procs|
  {
    var me := s.procs[p];
    && (UsesLk(me.pc) <==> s.lk == Some(p))
    && (UsesOwn(me.pc) <==> me.lock == Some(p))
    && (me.lock.Some? && me.lock.value != p ==>
          me.lock.value < |s.procs| && s.procs[me.lock.value].pc == Poking(p))
    && (me.pc.Poking? ==> me.pc.i < |s.procs| && me.pc.i != p && s.procs[me.pc.i].lock == Some(p))
    && (me.pc.Waking? ==> me.pc.i <= |s.procs|)
    && (me.pc.Waking? || me.pc.Poking? ==> !s.locked)
    && (Owns(me.pc) ==> s.locked && s.owner == Some(p))
    && (me.pc.WantOwn? || me.pc.DropLk? ==> s.locked)
    && (me.state == Sleeping ==> me.pc.Switching? || me.pc.Asleep?)
    && (me.pc.Switching? ==> me.state == Sleeping && me.onChan)
    && (me.pc.Asleep? ==> me.state != Running && me.onChan)
    && (me.pc.GoSleep? || me.state == Sleeping ==> s.locked || WakeupComing(s, p))
  }

  ghost predicate Inv(s: State) {
    && (s.lk.Some? ==> s.lk.value < |s.procs|)
    && (s.locked ==> s.owner.Some? && s.owner.value < |s.procs| && Owns(s.procs[s.owner.value].pc))
    && forall p :: 0 <= p < |s.procs| ==> ProcOk(s, p)
  }

  lemma InvIsSafe(s: State)
    requires Inv(s)
    ensures Safe(s)
  {
    forall p, q | 0 <= p < |s.procs| && 0 <= q < |s.procs| && Owns(s.procs[p].pc) && Owns(s.procs[q].pc)
      ensures p == q
    {
      assert ProcOk(s, p) && ProcOk(s, q);
    }
    forall p | s.lk == None && !s.locked && 0 <= p < |s.procs|
      ensures !(s.procs[p].state == Sleeping && s.procs[p].onChan)
    {
      assert ProcOk(s, p);
    }
  }

  /** The steps that take or drop `lk` or the sleep-lock keep each process's invariant. */
  lemma LockStep(s: State, p: nat, q: nat)
    requires Enabled(s, Go(p)) && q < |s.procs| && ProcOk(s, p) && ProcOk(s, q)
    requires var pc := s.procs[p].pc; pc.WantLk? || pc.Testing? || pc.WantLkBack? || pc.Clearing?
    ensures ProcOk(Step(s, p), q)
  {
  }

  lemma SleepStep(s: State, p: nat, q: nat)
    requires Enabled(s, Go(p)) && q < |s.procs| && ProcOk(s, p) && ProcOk(s, q)
    requires s.procs[p].pc.WantOwn? || s.procs[p].pc.DropLk? || s.procs[p].pc.GoSleep?
    ensures ProcOk(Step(s, p), q)
  {
  }

  lemma SwitchStep(s: State, p: nat, q: nat)
    requires Enabled(s, Go(p)) && q < |s.procs| && ProcOk(s, p) && ProcOk(s, q)
    requires s.procs[p].pc.Switching? || s.procs[p].pc.Woken?
    ensures ProcOk(Step(s, p), q)
  {
  }

  lemma WakingStep(s: State, p: nat, q: nat)
    requires Enabled(s, Go(p)) && q < |s.procs| && ProcOk(s, p) && ProcOk(s, q) && s.procs[p].pc.Waking?
    ensures ProcOk(Step(s, p), q)
  {
  }

  lemma PokingStep(s: State, p: nat, q: nat)
    requires Enabled(s, Go(p)) && q < |s.procs| && ProcOk(s, p) && ProcOk(s, q) && s.procs[p].pc.Poking?
    ensures ProcOk(Step(s, p), q)
  {
  }

  lemma OtherStep(s: State, a: Action, q: nat)
    requires Enabled(s, a) && !a.Go? && q < |s.procs| && ProcOk(s, a.p) && ProcOk(s, q)
    ensures ProcOk(Apply(s, a), q)
  {
  }

  lemma ActionKeepsProc(s: State, a: Action, q: nat)
    requires Enabled(s, a) && q < |s.procs| && ProcOk(s, a.p) && ProcOk(s, q)
    ensures ProcOk(Apply(s, a), q)
  {
    var pc := s.procs[a.p].pc;
    if !a.Go? {
      OtherStep(s, a, q);
    } else if pc.Waking? {
      WakingStep(s, a.p, q);
    } else if pc.Poking? {
      PokingStep(s, a.p, q);
    } else if pc.WantOwn? || pc.DropLk? || pc.GoSleep? {
      SleepStep(s, a.p, q);
    } else if UsesOwn(pc) {
      SwitchStep(s, a.p, q);
    } else {
      LockStep(s, a.p, q);
    }
  }

  lemma ActionKeepsOwner(s: State, a: Action)
    requires Inv(s) && Enabled(s, a)
    ensures var s' := Apply(s, a);
            && |s'.procs| == |s.procs|
            && (s'.lk.Some? ==> s'.lk.value < |s'.procs|)
            && (s'.locked ==> s'.owner.Some? && s'.owner.value < |s'.procs| && Owns(s'.procs[s'.owner.value].pc))
  {
    assert ProcOk(s, a.p);
  }

  lemma ActionKeepsInv(s: State, a: Action)
    requires Inv(s) && Enabled(s, a)
    ensures Inv(Apply(s, a))
  {
    ActionKeepsOwner(s, a);
    forall q: nat | q < |s.procs| ensures ProcOk(Apply(s, a), q) {
      ActionKeepsProc(s, a, q);
    }
  }

  lemma {:induction false} RunKeepsInv(s: State, run: seq<Action>)
    requires Inv(s) && IsRun(s, run)
    ensures Inv(Run(s, run))
    decreases |run|
  {
    if run != [] {
      ActionKeepsInv(s, run[0]);
      RunKeepsInv(Apply(s, run[0]), run[1..]);
    }
  }

  /**
   * Mutual exclusion and no lost wakeup.  In every interleaving there is at
   * most one holder, and whenever the sleep-lock and its spinlock are both
   * free no process is SLEEPING on it.
   */
  lemma NoLostWakeup(s: State, run: seq<Action>)
    requires Initial(s) && IsRun(s, run)
    ensures Safe(Run(s, run))
  {
    assert Inv(s);
    RunKeepsInv(s, run);
    InvIsSafe(Run(s, run));
  }

  // ---- Progress ----

  /** The process is in acquiresleep, or in a releasesleep that has cleared `locked`. */
  predicate Busy(pc: Pc) { !pc.Outside? && !Owns(pc) }

  /** Some process can move without anyone else's decision to call, release or kill. */
  ghost predicate CanMove(s: State) {
    exists p: nat :: p < |s.procs| && (Enabled(s, Go(p)) || Enabled(s, Schedule(p)))
  }

  /** The lock of a process is held by itself, by a releaser poking it, or by nobody. */
  lemma LockHolder(s: State, p: nat)
    requires Inv(s) && p < |s.procs|
    ensures var l := s.procs[p].lock;
            l.Some? ==>
              && l.value < |s.procs|
              && ((l.value == p && UsesOwn(s.procs[p].pc)) || (s.procs[l.value].pc == Poking(p) && s.lk == l))
  {
    assert ProcOk(s, p);
    var l := s.procs[p].lock;
    assert l.Some? ==> l.value < |s.procs|;
    assert l.Some? ==> ProcOk(s, l.value);
  }

  /** Whenever the sleep-lock is free and some process wants it, the system can move. */
  lemma FreeLockMakesProgress(s: State, p: nat)
    requires Inv(s) && !s.locked && p < |s.procs| && Busy(s.procs[p].pc)
    ensures CanMove(s)
  {
    assert ProcOk(s, p);
    LockHolder(s, p);
    if s.lk.Some? {
      var r := s.lk.value;
      assert ProcOk(s, r);
      LockHolder(s, r);
      var pc := s.procs[r].pc;
      if pc.Waking? && pc.i < |s.procs| && pc.i != r && s.procs[pc.i].lock.Some? {
        LockHolder(s, pc.i);
        assert Enabled(s, Go(pc.i));
      } else {
        assert Enabled(s, Go(r));
      }
    } else if s.procs[p].pc.Asleep? {
      InvIsSafe(s);
      assert Enabled(s, Schedule(p));
    } else {
      assert Enabled(s, Go(p));
    }
  }
}
