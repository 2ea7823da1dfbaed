/**
 * The lottery scheduler of kernel/proc.c on one CPU.
 *
 * `Cpu.Draw` is one pass of the scheduler's loop up to the context switch:
 * sum the tickets of the RUNNABLE processes, draw a winner, find it in a
 * second pass.  The fairness theorem fixes the runnable set (the winner yields
 * at the end of its slice) and counts wins over a whole period of the
 * generator.
 */
module Lottery {
  import opened Wrappers
  import opened Lcg

  datatype ProcState = Unused | Used | Sleeping | Runnable | Running | Zombie

  datatype Proc = Proc(state: ProcState, tickets: int, ticks: int)

  const INT_MAX := 0x7fff_ffff

  function Share(p: Proc): int { if p.state == Runnable then p.tickets else 0 }

  /** The tickets of the runnable processes in the first `n` slots. */
  function Before(ps: seq<Proc>, n: nat): int
    requires n <= |ps|
  {
    if n == 0 then 0 else Before(ps, n - 1) + Share(ps[n - 1])
  }

  function Total(ps: seq<Proc>): int { Before(ps, |ps|) }

  /** What allocproc and settickets maintain, with a ticket sum that fits in an int. */
  ghost predicate WellFormed(ps: seq<Proc>) {
    && (forall i :: 0 <= i < |ps| && ps[i].state == Runnable ==> ps[i].tickets >= 1)
    && Total(ps) <= INT_MAX
  }

  /** The slot `i` owns ticket number `w`. */
  ghost predicate Owns(ps: seq<Proc>, w: int, i: int) {
    && 0 <= i < |ps|
    && ps[i].state == Runnable
    && Before(ps, i) <= w < Before(ps, i + 1)
  }

  lemma {:induction false} BeforeGrows(ps: seq<Proc>, i: nat, j: nat)
    requires WellFormed(ps) && i <= j <= |ps|
    ensures 0 <= Before(ps, i) <= Before(ps, j)
    decreases j
  {
    if i < j {
      BeforeGrows(ps, i, j - 1);
    } else if j > 0 {
      BeforeGrows(ps, j - 1, j - 1);
    }
  }

  /** Each ticket number has at most one owner. */
  lemma OwnerIsUnique(ps: seq<Proc>, w: int, i: int, j: int)
    requires WellFormed(ps) && Owns(ps, w, i) && Owns(ps, w, j)
    ensures i == j
  {
    if i < j {
      BeforeGrows(ps, i + 1, j);
    } else if j < i {
      BeforeGrows(ps, j + 1, i);
    }
  }

  class Cpu {
    var proc: array<Proc>
    var randState: nat

    constructor (n: nat)
      ensures fresh(proc) && proc.Length == n && randState == 1
      ensures forall i :: 0 <= i < n ==> proc[i].state == Unused
    {
      proc := new Proc[n](_ => Proc(Unused, 0, 0));
      randState := 1;
    }

    /** `ksettickets` for the process in slot `i`. */
    method SetTickets(i: nat, number: int) returns (r: int)
      requires i < proc.Length
      modifies proc
      ensures number < 1 ==> r == -1 && proc[..] == old(proc[..])
      ensures number >= 1 ==> r == 0 && proc[..] == old(proc[..])[i := old(proc[i]).(tickets := number)]
    {
      if number < 1 {
        return -1;
      }
      proc[i] := proc[i].(tickets := number);
      r := 0;
    }

    /** `yield`, up to the switch back to the scheduler. */
    method Yield(i: nat)
      requires i < proc.Length
      modifies proc
      ensures proc[..] == old(proc[..])[i := old(proc[i]).(state := Runnable)]
    {
      proc[i] := proc[i].(state := Runnable);
    }

    /** The first pass: the total number of runnable tickets. */
    method CountTickets() returns (total: int)
      requires WellFormed(proc[..])
      ensures total == Total(proc[..]) && 0 <= total <= INT_MAX
    {
      total := 0;
      var i := 0;
      while i < proc.Length
        invariant 0 <= i <= proc.Length && total == Before(proc[..], i)
      {
        if proc[i].state == Runnable {
          total := total + proc[i].tickets;
        }
        i := i + 1;
      }
      BeforeGrows(proc[..], 0, proc.Length);
    }

    /** The second pass: the slot whose tickets cover `winner`. */
    method FindWinner(winner: int) returns (found: Option<nat>)
      requires WellFormed(proc[..]) && 0 <= winner < Total(proc[..])
      ensures found.Some? && Owns(proc[..], winner, found.value)
    {
      var counter := 0;
      var i := 0;
      while i < proc.Length
        invariant 0 <= i <= proc.Length && counter == Before(proc[..], i) && counter <= winner
      {
        if proc[i].state == Runnable {
          counter := counter + proc[i].tickets;
          if counter > winner {
            return Some(i);
          }
        }
        i := i + 1;
      }
      assert false;
      found := None;
    }

    /**
     * One iteration of `scheduler` up to the switch.  With no runnable tickets
     * nothing is drawn; otherwise the generator moves one step and the owner
     * of the drawn ticket is set running and its tick count incremented.
     */
    method Draw() returns (won: Option<nat>)
      requires WellFormed(proc[..])
      modifies this`randState, proc
      ensures won.None? <==> old(Total(proc[..])) == 0
      ensures won.None? ==> randState == old(randState) && proc[..] == old(proc[..])
      ensures won.Some? ==>
                && randState == Next(old(randState))
                && Owns(old(proc[..]), randState % old(Total(proc[..])), won.value)
                && proc[..] == old(proc[..])[won.value :=
                     old(proc[..])[won.value].(state := Running, ticks := old(proc[..])[won.value].ticks + 1)]
    {
      var total := CountTickets();
      if total == 0 {
        return None;
      }
      randState := Next(randState);
      won := FindWinner(randState % total);
      var i := won.value;
      proc[i] := proc[i].(state := Running, ticks := proc[i].ticks + 1);
    }
  }

  /** One time slice: draw a winner, run it until it yields.  Its effect is `Turn`. */
  method TimeSlice(cpu: Cpu)
    requires WellFormed(cpu.proc[..])
    modifies cpu`randState, cpu.proc
    ensures Sched(cpu.proc[..], cpu.randState) == Turn(old(Sched(cpu.proc[..], cpu.randState)))
  {
    ghost var s := Sched(cpu.proc[..], cpu.randState);
    BeforeGrows(s.ps, 0, |s.ps|);
    var won := cpu.Draw();
    if won.Some? {
      WinnerOwns(s.ps, cpu.randState);
      OwnerIsUnique(s.ps, cpu.randState % Total(s.ps), won.value, Winner(s.ps, cpu.randState));
      cpu.Yield(won.value);
    }
  }

  // ---- Consecutive turns with a fixed runnable set ----

  datatype Sched = Sched(ps: seq<Proc>, rand: nat)

  function OwnerFrom(ps: seq<Proc>, w: int, i: nat): nat
    requires i <= |ps|
    decreases |ps| - i
  {
    if i == |ps| then i
    else if ps[i].state == Runnable && Before(ps, i + 1) > w then i
    else OwnerFrom(ps, w, i + 1)
  }

  lemma {:induction false} OwnerExists(ps: seq<Proc>, w: int, i: nat)
    requires WellFormed(ps) && i <= |ps| && Before(ps, i) <= w < Total(ps)
    ensures Owns(ps, w, OwnerFrom(ps, w, i))
    decreases |ps| - i
  {
    if i < |ps| && !(ps[i].state == Runnable && Before(ps, i + 1) > w) {
      OwnerExists(ps, w, i + 1);
    }
  }

  /** The slot that wins when the generator returns `x`. */
  function Winner(ps: seq<Proc>, x: nat): nat
    requires Total(ps) > 0
  {
    OwnerFrom(ps, x % Total(ps), 0)
  }

  lemma WinnerOwns(ps: seq<Proc>, x: nat)
    requires WellFormed(ps) && Total(ps) > 0
    ensures Owns(ps, x % Total(ps), Winner(ps, x))
  {
    OwnerExists(ps, x % Total(ps), 0);
  }

  /** A draw followed by the winner's yield: `Cpu.Draw` then `Cpu.Yield`. */
  function Turn(s: Sched): Sched {
    if Total(s.ps) <= 0 then s
    else
      var x := Next(s.rand);
      var i := Winner(s.ps, x);
      if i < |s.ps| then Sched(s.ps[i := s.ps[i].(ticks := s.ps[i].ticks + 1)], x) else Sched(s.ps, x)
  }

  function Turns(s: Sched, n: nat): Sched {
    if n == 0 then s else Turn(Turns(s, n - 1))
  }

  ghost predicate SameShares(ps: seq<Proc>, qs: seq<Proc>) {
    && |ps| == |qs|
    && forall i :: 0 <= i < |ps| ==> ps[i].state == qs[i].state && ps[i].tickets == qs[i].tickets
  }

  lemma {:induction false} SameBefore(ps: seq<Proc>, qs: seq<Proc>, n: nat)
    requires SameShares(ps, qs) && n <= |ps|
    ensures Before(ps, n) == Before(qs, n)
    decreases n
  {
    if n > 0 { SameBefore(ps, qs, n - 1); }
  }

  lemma {:induction false} SameOwner(ps: seq<Proc>, qs: seq<Proc>, w: int, i: nat)
    requires SameShares(ps, qs) && i <= |ps|
    ensures OwnerFrom(ps, w, i) == OwnerFrom(qs, w, i)
    decreases |ps| - i
  {
    if i < |ps| {
      SameBefore(ps, qs, i + 1);
      SameOwner(ps, qs, w, i + 1);
    }
  }

  lemma {:induction false} SameWinner(ps: seq<Proc>, qs: seq<Proc>, x: nat)
    requires SameShares(ps, qs) && Total(ps) > 0
    ensures Total(qs) == Total(ps) && Winner(ps, x) == Winner(qs, x)
  {
    SameBefore(ps, qs, |ps|);
    SameOwner(ps, qs, x % Total(ps), 0);
  }

  /** The value drawn at turn `i`, counting from 0. */
  function DrawAt(x: nat, i: nat): nat { Iter(x, i + 1) }

  /** The turns among the first `n` from generator state `x` that slot `p` wins. */
  ghost function Wins(ps: seq<Proc>, x: nat, n: nat, p: nat): set<nat>
    requires Total(ps) > 0
  {
    set i: nat | i < n && Winner(ps, DrawAt(x, i)) == p
  }

  lemma DrawIsNext(x: nat, i: nat)
    ensures DrawAt(x, i) == Next(Iter(x, i))
  {
    IterAdd(x, i, 1);
    assert Iter(Iter(x, i), 1) == Iter(Next(Iter(x, i)), 0);
  }

  lemma WinsStep(ps: seq<Proc>, x: nat, n: nat, p: nat)
    requires Total(ps) > 0
    ensures |Wins(ps, x, n + 1, p)| == |Wins(ps, x, n, p)| + if Winner(ps, DrawAt(x, n)) == p then 1 else 0
  {
    var before, after := Wins(ps, x, n, p), Wins(ps, x, n + 1, p);
    if Winner(ps, DrawAt(x, n)) == p {
      assert after == before + {n};
    } else {
      assert after == before;
    }
  }

  /** After `n` turns each tick count has grown by the number of turns its process won. */
  lemma {:induction false} TicksCountWins(s: Sched, n: nat, p: nat)
    requires Total(s.ps) > 0 && p < |s.ps|
    ensures SameShares(s.ps, Turns(s, n).ps) && Turns(s, n).rand == Iter(s.rand, n)
    ensures Turns(s, n).ps[p].ticks == s.ps[p].ticks + |Wins(s.ps, s.rand, n, p)|
    decreases n
  {
    if n == 0 {
      assert Wins(s.ps, s.rand, 0, p) == {};
    } else {
      TicksCountWins(s, n - 1, p);
      DrawIsNext(s.rand, n - 1);
      SameWinner(s.ps, Turns(s, n - 1).ps, DrawAt(s.rand, n - 1));
      WinsStep(s.ps, s.rand, n - 1, p);
    }
  }

  // ---- Counting over a period ----

  lemma ModuloIs(m: nat, q: nat, r: nat)
    requires r < m
    ensures (m * q + r) % m == r && (m * q + r) / m == q
  {
    var x := m * q + r;
    var q', r' := x / m, x % m;
    Distribute(m, q, q');
    assert m * (q - q') == r' - r;
    if q - q' >= 1 {
      Distribute(m, q - q' - 1, 1);
      if q - q' - 1 > 0 { ProductSign(m, q - q' - 1); }
    } else if q' - q >= 1 {
      Distribute(m, q' - q - 1, 1);
      Distribute(m, q', q);
      if q' - q - 1 > 0 { ProductSign(m, q' - q - 1); }
    }
  }

  function Clamp(x: int, t: nat): (r: nat)
    ensures r <= t
  {
    if x < 0 then 0 else if x > t then t else x
  }

  /** The values below `n` whose remainder by `m` lies in the window [lo, lo+t). */
  ghost function InWindow(m: nat, lo: nat, t: nat, n: nat): set<nat>
    requires m > 0
  {
    set v: nat | v < n && lo <= v % m < lo + t
  }

  lemma WindowStep(m: nat, lo: nat, t: nat, q: nat, r: nat)
    requires r < m
    ensures |InWindow(m, lo, t, m * q + r + 1)|
            == |InWindow(m, lo, t, m * q + r)| + if lo <= r < lo + t then 1 else 0
  {
    ModuloIs(m, q, r);
    var n := m * q + r;
    var before, after := InWindow(m, lo, t, n), InWindow(m, lo, t, n + 1);
    if lo <= r < lo + t {
      assert after == before + {n};
    } else {
      assert after == before;
    }
  }

  lemma {:induction false} WindowSize(m: nat, lo: nat, t: nat, n: nat) returns (q: nat, r: nat)
    requires m > 0 && lo + t <= m
    ensures n == m * q + r && r < m
    ensures |InWindow(m, lo, t, n)| == q * t + Clamp(r - lo, t)
    decreases n
  {
    if n == 0 {
      q, r := 0, 0;
      assert InWindow(m, lo, t, 0) == {};
    } else {
      q, r := WindowSize(m, lo, t, n - 1);
      WindowStep(m, lo, t, q, r);
      if r + 1 < m {
        r := r + 1;
      } else {
        NextBlock(m, q, t);
        q, r := q + 1, 0;
      }
    }
  }

  lemma NextBlock(m: nat, q: nat, t: nat)
    ensures m * (q + 1) == m * q + m
    ensures (q + 1) * t == q * t + t
  {
  }

  ghost function Image(x: nat, ids: set<nat>): set<nat> { set i | i in ids :: DrawAt(x, i) }

  lemma {:induction false} ImageSize(x: nat, ids: set<nat>)
    requires forall i :: i in ids ==> i < M
    ensures |Image(x, ids)| == |ids|
    decreases ids
  {
    if ids != {} {
      var i :| i in ids;
      var rest := ids - {i};
      ImageSize(x, rest);
      forall j | j in rest ensures DrawAt(x, j) != DrawAt(x, i) {
        TurnsDiffer(x, i, j);
      }
      ImageAdd(x, rest, i);
      assert ids == rest + {i};
    }
  }

  lemma ImageAdd(x: nat, ids: set<nat>, i: nat)
    ensures Image(x, ids + {i}) == Image(x, ids) + {DrawAt(x, i)}
  {
  }

  lemma TurnsDiffer(x: nat, i: nat, j: nat)
    requires i < M && j < M && i != j
    ensures DrawAt(x, i) != DrawAt(x, j)
  {
    if j < i { DrawsDiffer(x, j + 1, i + 1); } else { DrawsDiffer(x, i + 1, j + 1); }
  }

  lemma WinsByWindow(ps: seq<Proc>, p: nat, x: nat)
    requires WellFormed(ps) && p < |ps| && ps[p].state == Runnable && Total(ps) > 0
    ensures Winner(ps, x) == p <==> Before(ps, p) <= x % Total(ps) < Before(ps, p) + ps[p].tickets
  {
    WinnerOwns(ps, x);
    if Owns(ps, x % Total(ps), p) {
      OwnerIsUnique(ps, x % Total(ps), p, Winner(ps, x));
    }
  }

  /** The draws that `p` wins in one period are exactly the values in its window. */
  lemma WinningDraws(ps: seq<Proc>, p: nat, x: nat)
    requires WellFormed(ps) && p < |ps| && ps[p].state == Runnable && Total(ps) > 0 && x < M
    requires 0 <= Before(ps, p)
    ensures Image(x, Wins(ps, x, M, p))
            == InWindow(Total(ps), Before(ps, p), ps[p].tickets, M)
  {
    var ids := Wins(ps, x, M, p);
    var vs := InWindow(Total(ps), Before(ps, p), ps[p].tickets, M);
    forall v | v in vs ensures v in Image(x, ids) {
      EveryValueReached(Next(x), v);
      var i: nat :| i < M && Iter(Next(x), i) == v;
      WinsByWindow(ps, p, v);
      assert DrawAt(x, i) == v;
      assert i in ids;
    }
    forall i | i in ids ensures DrawAt(x, i) in vs {
      IterBound(x, i + 1);
      WinsByWindow(ps, p, DrawAt(x, i));
    }
  }

  lemma QuotientBounds(n: nat, m: nat, q: nat, r: nat, c: nat, t: nat)
    requires n == m * q + r && r < m && c <= t && (r == 0 ==> c == 0)
    ensures n / m * t <= q * t + c <= (n + m - 1) / m * t
  {
    ModuloIs(m, q, r);
    if r == 0 {
      ModuloIs(m, q, m - 1);
    } else {
      Distribute(m, q, 1);
      ModuloIs(m, q + 1, r - 1);
      Distribute(t, q, 1);
    }
  }

  /**
   * No starvation.  In any 2^32 consecutive draws with a fixed runnable set, a
   * process with t of the T tickets wins between t*floor(2^32/T) and
   * t*ceil(2^32/T) times, hence at least once.
   */
  lemma Fairness(ps: seq<Proc>, p: nat, x: nat)
    requires WellFormed(ps) && p < |ps| && ps[p].state == Runnable && x < M
    ensures Total(ps) > 0
    ensures M / Total(ps) * ps[p].tickets
            <= |Wins(ps, x, M, p)|
            <= (M + Total(ps) - 1) / Total(ps) * ps[p].tickets
    ensures Wins(ps, x, M, p) != {}
  {
    var lo, t, m := Before(ps, p), ps[p].tickets, Total(ps);
    BeforeGrows(ps, 0, p);
    BeforeGrows(ps, p + 1, |ps|);
    assert Before(ps, p + 1) == lo + t;
    var ids := Wins(ps, x, M, p);
    ImageSize(x, ids);
    WinningDraws(ps, p, x);
    var q, r := WindowSize(m, lo, t, M);
    QuotientBounds(M, m, q, r, Clamp(r - lo, t), t);
    assert q > 0;
    ProductSign(t, q);
  }
}
