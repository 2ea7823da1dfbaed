/**
 * User address spaces: growproc, sbrk, page faults, fork and exit, over the page
 * tables of module Vm (kernel/proc.c, kernel/sysproc.c, kernel/vm.c).
 *
 * The class invariant says, for every process, that user mappings lie below its
 * size, and for every process that never grew eagerly from size 0 (the ghost
 * set `guarded`) that page 0 is not mapped.  `Run` says so of any sequence of
 * operations on any processes.
 */
module AddressSpace {
  import opened Wrappers
  import opened PageTable
  import opened Vm

  const TOP := TRAPFRAME * PGSIZE

  /** The trapframe and the trampoline are not accessible to the user. */
  ghost predicate KernelOnly(flat: map<int, Pte>) {
    forall v :: v in flat && v >= TRAPFRAME ==> !flat[v].perm.u
  }

  /** The size of a process and its mappings agree. */
  ghost predicate Space(s: Phys, r: int, sz: int) {
    r in s.tables && 0 <= sz <= TOP && MapsOnly(s, r, RoundUp(sz) / PGSIZE) && KernelOnly(s.tables[r].flat)
  }

  ghost predicate NullGuard(s: Phys, r: int)
    requires r in s.tables
  {
    0 !in s.tables[r].flat
  }

  /** p->sz + n in 64 bits: a process that gives back more than it has keeps its size. */
  function Shrunk(sz: int, n: int): int { if sz + n < 0 then sz else sz + n }

  lemma OtherSpace(s: Phys, t: Phys, r: int, lo: int, hi: int, r': int, sz: int)
    requires Touches(s, t, r, lo, hi, {}) && Space(s, r', sz) && r' != r
    ensures Space(t, r', sz)
  {
  }

  /** Pages that were not touched were within the old size. */
  lemma SpaceAfter(s: Phys, t: Phys, r: int, lo: int, hi: int, sz: int, sz': int)
    requires Touches(s, t, r, lo, hi, {}) && Space(s, r, sz) && 0 <= lo && 0 <= sz' <= TOP
    requires forall v :: lo <= v < hi && v in t.tables[r].flat ==> v < RoundUp(sz') / PGSIZE
    requires RoundUp(sz) <= RoundUp(sz') || (RoundUp(sz') / PGSIZE >= lo && RoundUp(sz) / PGSIZE <= hi)
    requires hi <= TRAPFRAME
    ensures Space(t, r, sz')
  {
    forall v | v in t.tables[r].flat && v >= TRAPFRAME ensures !t.tables[r].flat[v].perm.u {
      assert LeafSame(s, t, r, v);
    }
    forall v | v in t.tables[r].flat ensures 0 <= v < RoundUp(sz') / PGSIZE || v == TRAPFRAME || v == TRAMPOLINE {
      if v < lo || v >= hi { assert LeafSame(s, t, r, v); }
    }
  }

  lemma GuardAfter(s: Phys, t: Phys, r: int, lo: int, hi: int)
    requires Touches(s, t, r, lo, hi, {}) && (lo > 0 || hi <= 0)
    ensures NullGuard(t, r) <==> NullGuard(s, r)
  {
    assert LeafSame(s, t, r, 0);
  }

  ghost predicate Spaces(s: Phys, size: map<int, int>) {
    forall r :: r in size ==> Space(s, r, size[r])
  }

  lemma SpacesAfter(s: Phys, t: Phys, r: int, lo: int, hi: int, size: map<int, int>, sz': int)
    requires Spaces(s, size) && Touches(s, t, r, lo, hi, {}) && Space(t, r, sz')
    ensures Spaces(t, size[r := sz'])
  {
    forall r' | r' in size && r' != r ensures Space(t, r', size[r']) {
      OtherSpace(s, t, r, lo, hi, r', size[r']);
    }
  }

  const WRITE := Perm(false, true, false, false, 0)

  /** Growing maps exactly the new pages, writable and zero. */
  ghost predicate GrewTo(s: Phys, t: Phys, r: int, sz: int, sz': int) {
    && Touches(s, t, r, RoundUp(sz) / PGSIZE, RoundUp(sz') / PGSIZE, {})
    && forall v :: RoundUp(sz) / PGSIZE <= v < RoundUp(sz') / PGSIZE ==> ZeroPage(t, r, v, UserPerm(WRITE))
  }

  /** Shrinking unmaps exactly the pages beyond the new size and frees them. */
  ghost predicate ShrankTo(s: Phys, t: Phys, r: int, sz: int, sz': int) {
    if sz' == sz then t == s
    else
      && Touches(s, t, r, RoundUp(sz') / PGSIZE, RoundUp(sz) / PGSIZE, {})
      && Returned(s, t, r, RoundUp(sz') / PGSIZE, RoundUp(sz) / PGSIZE)
      && forall v :: RoundUp(sz') / PGSIZE <= v < RoundUp(sz) / PGSIZE ==> v !in t.tables[r].flat
  }

  lemma Failed(s: Phys, t: Phys, r: int, size: map<int, int>)
    requires Spaces(s, size) && r in size && Touches(s, t, r, 0, 0, {})
    ensures Spaces(t, size) && (NullGuard(t, r) <==> NullGuard(s, r))
  {
    SpaceAfter(s, t, r, 0, 0, size[r], size[r]);
    SpacesAfter(s, t, r, 0, 0, size, size[r]);
    GuardAfter(s, t, r, 0, 0);
    assert size[r := size[r]] == size;
  }

  lemma Grown(s: Phys, t: Phys, r: int, size: map<int, int>, sz: int, sz': int)
    requires Spaces(s, size) && r in size && size[r] == sz <= sz' <= TOP && GrewTo(s, t, r, sz, sz')
    ensures Spaces(t, size[r := sz']) && (NullGuard(s, r) ==> (NullGuard(t, r) <==> !(sz == 0 && sz' > 0)))
  {
    var lo, hi := RoundUp(sz) / PGSIZE, RoundUp(sz') / PGSIZE;
    SpaceAfter(s, t, r, lo, hi, sz, sz');
    SpacesAfter(s, t, r, lo, hi, size, sz');
    if sz == 0 && sz' > 0 {
      assert ZeroPage(t, r, 0, UserPerm(WRITE));
    } else {
      GuardAfter(s, t, r, lo, hi);
    }
  }

  lemma Shrank(s: Phys, t: Phys, r: int, size: map<int, int>, sz: int, sz': int)
    requires Spaces(s, size) && r in size && size[r] == sz && 0 <= sz' <= sz && ShrankTo(s, t, r, sz, sz')
    ensures Spaces(t, size[r := sz']) && (NullGuard(s, r) ==> NullGuard(t, r))
  {
    if sz' != sz {
      var lo, hi := RoundUp(sz') / PGSIZE, RoundUp(sz) / PGSIZE;
      SpaceAfter(s, t, r, lo, hi, sz, sz');
      SpacesAfter(s, t, r, lo, hi, size, sz');
      if lo > 0 { GuardAfter(s, t, r, lo, hi); }
      assert lo <= 0 && hi <= 0 ==> LeafSame(s, t, r, 0);
    }
  }

  /** What fork copied is what the parent had before it. */
  lemma CopyFromStart(s: Phys, t: Phys, u: Phys, r: int, c: int, sz: int, v: int)
    requires Ok(s) && Space(s, r, sz) && Spawned(s, t, c) && r in t.tables && t.tables[r] == s.tables[r]
             && 0 < v < TRAPFRAME
    requires c in t.tables && Touches(t, u, c, 1, RoundUp(sz) / PGSIZE, {}) && v !in t.tables[c].flat
    requires v < RoundUp(sz) / PGSIZE ==> CopyOk(t, u, r, c, v)
    ensures CopyOk(s, u, r, c, v)
  {
    if v in s.tables[r].flat {
      SlotRoles(s, r, v);
      assert SpawnedPage(s, t, c, s.tables[r].flat[v].ppn);
    } else if v >= RoundUp(sz) / PGSIZE {
      assert LeafSame(t, u, c, v);
    }
  }

  lemma SpacesAfterFork(s: Phys, t: Phys, u: Phys, c: int, size: map<int, int>, sz: int)
    requires Spaces(s, size) && Spawned(s, u, c) && 0 <= sz <= TOP && c in t.tables
    requires Touches(t, u, c, 1, RoundUp(sz) / PGSIZE, {}) && MapsOnly(t, c, 0) && KernelOnly(t.tables[c].flat)
    ensures Spaces(u, size[c := sz])
  {
    forall v | v in u.tables[c].flat && v >= TRAPFRAME ensures !u.tables[c].flat[v].perm.u {
      assert LeafSame(t, u, c, v);
    }
    forall r | r in size && r != c ensures Space(u, r, size[r]) {
      assert Space(s, r, size[r]) && r in u.tables - {c};
    }
    forall v | v in u.tables[c].flat ensures 0 <= v < RoundUp(sz) / PGSIZE || v == TRAPFRAME || v == TRAMPOLINE {
      if v < 1 || v >= RoundUp(sz) / PGSIZE { assert LeafSame(t, u, c, v); }
    }
  }

  // ---- Page 0 ----

  ghost predicate Guards(s: Phys, guarded: set<int>) {
    forall r :: r in guarded ==> r in s.tables && NullGuard(s, r)
  }

  /** Every user page of the process is one of pages 1 to RoundUp(sz) / PGSIZE - 1. */
  ghost predicate UserPagesIn(s: Phys, r: int, sz: int) {
    r in s.tables && forall v :: v in s.tables[r].flat && v < TRAPFRAME ==> 1 <= v < RoundUp(sz) / PGSIZE
  }

  /** Work on the table of `r` does not map page 0 of another process. */
  lemma GuardsTouched(s: Phys, t: Phys, r: int, lo: int, hi: int, guarded: set<int>)
    requires Guards(s, guarded) && Touches(s, t, r, lo, hi, {}) && (r in guarded ==> NullGuard(t, r))
    ensures Guards(t, guarded)
  {
  }

  lemma GuardsSpawned(s: Phys, t: Phys, c: int, guarded: set<int>)
    requires Guards(s, guarded) && Spawned(s, t, c) && NullGuard(t, c)
    ensures Guards(t, guarded + {c})
  {
    forall r | r in guarded ensures r in t.tables && NullGuard(t, r) {
      assert r in s.tables && r in t.tables - {c};
    }
  }

  lemma GuardsDropped(s: Phys, t: Phys, r: int, guarded: set<int>)
    requires Guards(s, guarded) && DroppedFrom(s, t, r)
    ensures Guards(t, guarded - {r})
  {
    forall q | q in guarded - {r} ensures q in t.tables && NullGuard(t, q) {
      assert q in s.tables - {r};
    }
  }

  /** The processes whose page 0 is known to be unmapped after an eager growth of `r`. */
  function StillGuarded(guarded: set<int>, r: int, fromZero: bool): set<int> {
    if fromZero then guarded - {r} else guarded
  }

  /** The pages it takes a process of size `sz` to grow by `n`. */
  ghost function ToGrow(s: Phys, r: int, sz: int, n: int): nat
    requires r in s.tables
  {
    var lo, k := RoundUp(sz) / PGSIZE, PagesBetween(sz, sz + n);
    Needed(s.tables[r].node.Keys, Span(lo, k), lo, k)
  }

  /** The pages it takes to copy a process of size `sz`. */
  ghost function ToFork(s: Phys, r: int, sz: int): nat
    requires r in s.tables
  {
    3 + Needed(KernelNodes(), s.tables[r].flat.Keys, 1, PagesBetween(PGSIZE, sz))
  }

  /** An operation on the address space of a process. */
  datatype Operation =
    | NewImageOp(trapframe: int)
    | SbrkOp(r: int, n: int, eager: bool)
    | FaultOp(r: int, va: int)
    | ForkOp(r: int, trapframe: int)
    | ExitOp(r: int)

  /** Arguments are a 32-bit increment and an address. */
  predicate ArgsOk(op: Operation) {
    match op
    case SbrkOp(_, n, _) => -0x8000_0000 <= n < 0x8000_0000
    case FaultOp(_, va) => 0 <= va
    case _ => true
  }

  /** The operation is an eager growth of process `r` from size 0. */
  predicate FromZero(op: Operation, size: map<int, int>, r: int) {
    op.SbrkOp? && op.r == r && op.eager && op.n > 0 && r in size && size[r] == 0
  }

  /** What an operation can do to the sizes. */
  ghost predicate SizeStep(size: map<int, int>, op: Operation, size': map<int, int>) {
    match op
    case NewImageOp(_) => size' == size || exists r :: r !in size && size' == size[r := PGSIZE]
    case SbrkOp(r, n, _) =>
      if r !in size then size' == size
      else if n <= 0 then size' == size[r := Shrunk(size[r], n)]
      else size' == size || size' == size[r := size[r] + n]
    case FaultOp(_, _) => size' == size
    case ForkOp(r, _) => size' == size || (r in size && exists c :: c !in size && size' == size[c := size[r]])
    case ExitOp(r) => size' == size - {r}
  }

  /** `hist` are the sizes before each of the operations and after the last. */
  ghost predicate History(ops: seq<Operation>, hist: seq<map<int, int>>) {
    && |hist| == |ops| + 1
    && forall i :: 0 <= i < |ops| ==> SizeStep(hist[i], ops[i], hist[i + 1])
  }

  ghost predicate NeverFromZero(ops: seq<Operation>, hist: seq<map<int, int>>, r: int) {
    forall i :: 0 <= i < |ops| && i < |hist| ==> !FromZero(ops[i], hist[i], r)
  }

  ghost predicate NoSizeZero(hist: seq<map<int, int>>) {
    forall i, r :: 0 <= i < |hist| && r in hist[i] ==> hist[i][r] != 0
  }

  lemma GuardedPages(s: Phys, size: map<int, int>, guarded: set<int>)
    requires Spaces(s, size) && Guards(s, guarded) && guarded <= size.Keys
    ensures forall r :: r in guarded ==> r in size && UserPagesIn(s, r, size[r])
  {
    forall r | r in guarded ensures r in size && UserPagesIn(s, r, size[r]) {
      assert r in size.Keys;
      assert Space(s, r, size[r]) && NullGuard(s, r);
    }
  }

  lemma SizesAboveZero(ops: seq<Operation>, hist: seq<map<int, int>>)
    ensures NoSizeZero(hist) ==> forall r :: NeverFromZero(ops, hist, r)
  {
  }

  /** Extending the history by one operation. */
  lemma RunOn(ops: seq<Operation>, hist: seq<map<int, int>>, i: nat, after: map<int, int>,
              first: map<int, int>, guarded0: set<int>, g: set<int>, g': set<int>)
    requires i < |ops| && |hist| == i + 1 && History(ops[..i], hist) && hist[0] == first
             && SizeStep(hist[i], ops[i], after)
    requires forall r :: r in hist[i] && (r in guarded0 || r !in first) && NeverFromZero(ops[..i], hist, r) ==> r in g
    requires forall r :: r in after && (r in g || r !in hist[i]) && !FromZero(ops[i], hist[i], r) ==> r in g'
    ensures History(ops[..i + 1], hist + [after])
    ensures forall r :: r in after && (r in guarded0 || r !in first) ==>
              NeverFromZero(ops[..i + 1], hist + [after], r) ==> r in g'
  {
    var hist' := hist + [after];
    forall k | 0 <= k < i + 1 ensures SizeStep(hist'[k], ops[..i + 1][k], hist'[k + 1]) {
      assert k < i ==> SizeStep(hist[k], ops[..i][k], hist[k + 1]);
    }
    forall r | r in after && (r in guarded0 || r !in first) && NeverFromZero(ops[..i + 1], hist', r) ensures r in g' {
      assert !FromZero(ops[..i + 1][i], hist'[i], r);
      forall k | 0 <= k < i ensures !FromZero(ops[..i][k], hist[k], r) {
        assert !FromZero(ops[..i + 1][k], hist'[k], r);
      }
    }
  }

  class Processes {
    const memory: Memory
    const trampoline: int
    var size: map<int, int>
    ghost var guarded: set<int>   // the processes that never grew eagerly from size 0

    ghost predicate Valid()
      reads this, memory
    {
      && memory.Valid() && Spaces(memory.S(), size)
      && guarded <= size.Keys && Guards(memory.S(), guarded)
    }

    constructor (memory: Memory, trampoline: int)
      requires memory.Valid()
      ensures Valid() && size == map[] && guarded == {} && this.memory == memory
    {
      this.memory := memory;
      this.trampoline := trampoline;
      size := map[];
      guarded := {};
    }

    /** The part of `growproc` that grows. */
    method GrowBy(r: int, n: int) returns (ok: bool)
      requires Valid() && r in size && 0 < n && size[r] + n <= TOP
      modifies this`size, this`guarded, memory
      ensures Valid() && r in size && size == old(size)[r := if ok then old(size)[r] + n else old(size)[r]]
      ensures !ok ==> Touches(old(memory.S()), memory.S(), r, 0, 0, {})
      ensures ok ==> GrewTo(old(memory.S()), memory.S(), r, old(size)[r], size[r])
      ensures ok <==> |old(memory.free)| >= ToGrow(old(memory.S()), r, old(size)[r], n)
      ensures guarded == StillGuarded(old(guarded), r, ok && old(size)[r] == 0)
      ensures NullGuard(old(memory.S()), r) && old(size)[r] != 0 ==> NullGuard(memory.S(), r)
      ensures ok && old(size)[r] == 0 ==> !NullGuard(memory.S(), r)
    {
      ghost var s, sz0 := memory.S(), size[r];
      forall v | RoundUp(sz0) / PGSIZE <= v < RoundUp(sz0 + n) / PGSIZE ensures v !in memory.tables[r].flat { }
      var sz;
      ghost var done;
      sz, done := memory.Uvmalloc(r, size[r], size[r] + n, WRITE);
      if sz == 0 {
        Failed(s, memory.S(), r, size);
        GuardsTouched(s, memory.S(), r, 0, 0, guarded);
        assert size == size[r := size[r]];
        return false;
      }
      Grown(s, memory.S(), r, size, sz0, sz);
      if sz0 == 0 {
        assert ZeroPage(memory.S(), r, 0, UserPerm(WRITE));
      }
      guarded := StillGuarded(guarded, r, sz0 == 0);
      GuardsTouched(s, memory.S(), r, RoundUp(sz0) / PGSIZE, RoundUp(sz) / PGSIZE, guarded);
      size := size[r := sz];
      ok := true;
    }

    /** The part of `growproc` that shrinks. */
    method ShrinkBy(r: int, n: int)
      requires Valid() && r in size && -0x8000_0000 <= n < 0
      modifies this`size, memory
      ensures Valid() && r in size && size == old(size)[r := Shrunk(old(size)[r], n)]
      ensures ShrankTo(old(memory.S()), memory.S(), r, old(size)[r], size[r])
      ensures |memory.free| >= |old(memory.free)|
      ensures NullGuard(old(memory.S()), r) ==> NullGuard(memory.S(), r)
    {
      ghost var s, sz0 := memory.S(), size[r];
      var sz := size[r];
      var newsz := if sz + n < 0 then sz + n + 0x1_0000_0000_0000_0000 else sz + n;
      sz := memory.Uvmdealloc(r, sz, newsz);
      Shrank(s, memory.S(), r, size, sz0, sz);
      if sz != sz0 {
        GuardsTouched(s, memory.S(), r, RoundUp(sz) / PGSIZE, RoundUp(sz0) / PGSIZE, guarded);
      }
      size := size[r := sz];
    }

    /** `growproc`. */
    method Growproc(r: int, n: int) returns (ok: bool)
      requires Valid() && r in size && -0x8000_0000 <= n < 0x8000_0000
      modifies this`size, this`guarded, memory
      ensures Valid() && r in size && size == old(size)[r := size[r]]
      ensures !ok ==> n > 0 && size[r] == old(size)[r] && Touches(old(memory.S()), memory.S(), r, 0, 0, {})
      ensures ok && n >= 0 ==> size[r] == old(size)[r] + n
      ensures ok && n < 0 ==> size[r] == Shrunk(old(size)[r], n)
      ensures ok && n > 0 ==> GrewTo(old(memory.S()), memory.S(), r, old(size)[r], size[r])
      ensures n <= 0 ==> ShrankTo(old(memory.S()), memory.S(), r, old(size)[r], size[r])
      // Growth fails exactly beyond the top or when there are too few free pages.
      ensures n > 0 ==> (ok <==> old(size)[r] + n <= TOP
                                 && |old(memory.free)| >= ToGrow(old(memory.S()), r, old(size)[r], n))
      ensures n <= 0 ==> |memory.free| >= |old(memory.free)|
      ensures guarded == StillGuarded(old(guarded), r, ok && n > 0 && old(size)[r] == 0)
      // Page 0 stays unmapped unless a process of size 0 grows; if that succeeds it is mapped.
      ensures NullGuard(old(memory.S()), r) && !(n > 0 && old(size)[r] == 0) ==> NullGuard(memory.S(), r)
      ensures ok && n > 0 && old(size)[r] == 0 ==> !NullGuard(memory.S(), r)
    {
      TouchesNothing(memory.S(), r);
      assert size == size[r := size[r]];
      ok := true;
      if n > 0 {
        if size[r] + n > TOP {
          return false;
        }
        ok := GrowBy(r, n);
      } else if n < 0 {
        ShrinkBy(r, n);
      }
    }

    /** `sys_sbrk`: lazy growth changes the size and nothing else. */
    method Sbrk(r: int, n: int, eager: bool) returns (addr: Option<int>)
      requires Valid() && r in size && -0x8000_0000 <= n < 0x8000_0000
      modifies this`size, this`guarded, memory
      ensures Valid() && r in size && size == old(size)[r := size[r]]
      ensures addr.Some? ==> addr.value == old(size)[r]
      ensures addr.Some? ==> size[r] == if n < 0 then Shrunk(old(size)[r], n) else old(size)[r] + n
      ensures addr.None? ==> n > 0 && size[r] == old(size)[r] && Touches(old(memory.S()), memory.S(), r, 0, 0, {})
      ensures !eager && n >= 0 ==> memory.S() == old(memory.S()) && (addr.None? <==> old(size)[r] + n > TOP)
      ensures eager && n > 0 && addr.Some? ==> GrewTo(old(memory.S()), memory.S(), r, old(size)[r], size[r])
      ensures n < 0 || (eager && n == 0) ==> ShrankTo(old(memory.S()), memory.S(), r, old(size)[r], size[r])
      ensures eager && n > 0 ==>
                (addr.Some? <==>
                   old(size)[r] + n <= TOP && |old(memory.free)| >= ToGrow(old(memory.S()), r, old(size)[r], n))
      ensures n <= 0 ==> |memory.free| >= |old(memory.free)|
      ensures guarded == StillGuarded(old(guarded), r, addr.Some? && eager && n > 0 && old(size)[r] == 0)
      // Page 0 stays unmapped unless a process of size 0 grows eagerly; if that succeeds it is mapped.
      ensures NullGuard(old(memory.S()), r) && !(eager && n > 0 && old(size)[r] == 0) ==> NullGuard(memory.S(), r)
      ensures addr.Some? && eager && n > 0 && old(size)[r] == 0 ==> !NullGuard(memory.S(), r)
    {
      var start := size[r];
      if eager || n < 0 {
        var ok := Growproc(r, n);
        if !ok {
          return None;
        }
      } else {
        ghost var s := memory.S();
        TouchesNothing(s, r);
        if start + n > TOP {
          return None;
        }
        SpaceAfter(s, s, r, 0, 0, start, start + n);
        SpacesAfter(s, s, r, 0, 0, size, start + n);
        size := size[r := start + n];
      }
      return Some(start);
    }

    /** `ismapped`. */
    method Ismapped(r: int, va: int) returns (yes: bool)
      requires Valid() && r in memory.tables && 0 <= va && va / PGSIZE < MAXVPN
      modifies memory
      ensures memory.S() == old(memory.S()) && (yes <==> va / PGSIZE in memory.tables[r].flat)
    {
      var slot := memory.Walk(r, va, false);
      if slot == None {
        return false;
      }
      var (q, j) := slot.value;
      TreeOf(memory.S(), r);
      SlotOf(memory.mem, memory.role, memory.tables[r], r, va / PGSIZE);
      return memory.mem[q].entries[j].v;
    }

    /**
     * `vmfault`: a page below the size that is not page 0 and not mapped yet gets
     * a fresh zero page; anything else is refused.
     */
    method Vmfault(r: int, va: int) returns (pa: Option<int>)
      requires Valid() && r in size && 0 <= va
      modifies memory
      ensures Valid() && (NullGuard(memory.S(), r) <==> NullGuard(old(memory.S()), r))
      ensures va < PGSIZE || va >= size[r] || va / PGSIZE in old(memory.tables)[r].flat ==>
                pa.None? && memory.S() == old(memory.S())
      // Any other page is refused exactly when there are too few free pages.
      ensures PGSIZE <= va < size[r] && va / PGSIZE !in old(memory.tables)[r].flat ==>
                (pa.Some? <==> |old(memory.free)| >= 1 + Missing(old(memory.tables)[r].node.Keys, va / PGSIZE))
      ensures pa.None? ==> Touches(old(memory.S()), memory.S(), r, 0, 0, {})
      ensures pa.Some? ==>
                && Touches(old(memory.S()), memory.S(), r, va / PGSIZE, va / PGSIZE + 1, {})
                && ZeroPage(memory.S(), r, va / PGSIZE, UserPerm(WRITE))
                && memory.tables[r].flat[va / PGSIZE].ppn == pa.value
                && Took(old(memory.S()), memory.S(), r, va / PGSIZE, 1, true)
    {
      ghost var s := memory.S();
      TouchesNothing(s, r);
      if va < PGSIZE {
        return None;
      }
      if va >= size[r] {
        return None;
      }
      var a := va / PGSIZE * PGSIZE;
      ghost var vpn := va / PGSIZE;
      assert a / PGSIZE == vpn;
      var yes := Ismapped(r, a);
      if yes {
        return None;
      }
      pa := FaultIn(r, a);
    }

    /** The last lines of `vmfault`: a zero page for the unmapped page at `a`. */
    method FaultIn(r: int, a: int) returns (pa: Option<int>)
      requires Valid() && r in size && a % PGSIZE == 0 && PGSIZE <= a < size[r] && a / PGSIZE !in memory.tables[r].flat
      modifies memory
      ensures Valid() && (NullGuard(memory.S(), r) <==> NullGuard(old(memory.S()), r))
      ensures Took(old(memory.S()), memory.S(), r, a / PGSIZE, 1, pa.Some?)
      ensures pa.None? ==> Touches(old(memory.S()), memory.S(), r, 0, 0, {})
      ensures pa.Some? ==>
                && Touches(old(memory.S()), memory.S(), r, a / PGSIZE, a / PGSIZE + 1, {})
                && ZeroPage(memory.S(), r, a / PGSIZE, UserPerm(WRITE))
                && memory.tables[r].flat[a / PGSIZE].ppn == pa.value
    {
      ghost var s, vpn := memory.S(), a / PGSIZE;
      pa := memory.MapNew(r, a, Filled(0), UserPerm(WRITE));
      if pa == None {
        Failed(s, memory.S(), r, size);
        GuardsTouched(s, memory.S(), r, 0, 0, guarded);
        return;
      }
      SpaceAfter(s, memory.S(), r, vpn, vpn + 1, size[r], size[r]);
      SpacesAfter(s, memory.S(), r, vpn, vpn + 1, size, size[r]);
      assert size[r := size[r]] == size;
      GuardAfter(s, memory.S(), r, vpn, vpn + 1);
      GuardsTouched(s, memory.S(), r, vpn, vpn + 1, guarded);
    }

    /** The page table of a new image: size PGSIZE, so that page 0 stays out of it. */
    method NewImage(trapframe: int) returns (r: Option<int>)
      requires Valid()
      modifies this`size, this`guarded, memory
      ensures Valid()
      ensures r.None? ==> size == old(size) && guarded == old(guarded) && BackTo(old(memory.S()), memory.S())
      ensures r.Some? ==> Spawned(old(memory.S()), memory.S(), r.value) && size == old(size)[r.value := PGSIZE]
      ensures r.Some? ==> memory.tables[r.value].flat == KernelPages(trampoline, trapframe)
      ensures r.Some? ==> guarded == old(guarded) + {r.value}
      ensures r.Some? <==> |old(memory.free)| >= 3
      ensures r.Some? ==> |memory.free| == |old(memory.free)| - 3
    {
      ghost var s := memory.S();
      r := memory.ProcPagetable(trampoline, trapframe);
      if r == None {
        return;
      }
      forall r' | r' in size ensures Space(memory.S(), r', size[r']) {
        assert Space(s, r', size[r']) && r' in memory.tables - {r.value};
      }
      GuardsSpawned(s, memory.S(), r.value, guarded);
      size := size[r.value := PGSIZE];
      guarded := guarded + {r.value};
    }

    /**
     * The memory part of `kfork`.  On failure nothing has changed; on success the
     * child has the parent's size and a copy of each of its pages.
     */
    method Fork(r: int, trapframe: int) returns (child: Option<int>)
      requires Valid() && r in size
      modifies this`size, this`guarded, memory
      ensures Valid() && r in memory.tables && memory.tables[r] == old(memory.tables)[r]
      ensures child.None? ==> size == old(size) && guarded == old(guarded) && BackTo(old(memory.S()), memory.S())
      // The pages and the mappings of every other process, the parent's among them, are untouched.
      ensures child.Some? ==> Spawned(old(memory.S()), memory.S(), child.value)
      ensures child.Some? ==> size == old(size)[child.value := old(size)[r]] && guarded == old(guarded) + {child.value}
      ensures child.Some? ==> forall v :: 0 < v < TRAPFRAME ==> CopyOk(old(memory.S()), memory.S(), r, child.value, v)
      ensures child.Some? <==> |old(memory.free)| >= ToFork(old(memory.S()), r, old(size)[r])
    {
      ghost var s := memory.S();
      child := memory.ProcPagetable(trampoline, trapframe);
      if child == None {
        return;
      }
      var c := child.value;
      ghost var t := memory.S();
      assert t.tables[r] == s.tables[r] by { assert r in t.tables - {c}; }
      var ok := memory.Uvmcopy(r, c, size[r]);
      ghost var u := memory.S();
      if !ok {
        FlatSame(t, u, c);
        memory.ProcFreepagetable(c, 0);
        TouchThenFreed(t, u, memory.S(), c, 0, 0);
        NoTrace(s, t, memory.S(), c);
        return None;
      }
      SpawnedThenTouched(s, t, u, c, 1, RoundUp(size[r]) / PGSIZE);
      forall v | 0 < v < TRAPFRAME ensures CopyOk(s, u, r, c, v) {
        CopyFromStart(s, t, u, r, c, size[r], v);
      }
      assert LeafSame(t, u, c, 0);
      SpacesAfterFork(s, t, u, c, size, size[r]);
      GuardsSpawned(s, u, c, guarded);
      size := size[c := size[r]];
      guarded := guarded + {c};
    }

    /** Giving a page table back, when a process is freed. */
    method Exit(r: int)
      requires Valid() && r in size
      modifies this`size, this`guarded, memory
      ensures Valid() && size == old(size) - {r} && guarded == old(guarded) - {r}
      ensures DroppedFrom(old(memory.S()), memory.S(), r)
    {
      ghost var s := memory.S();
      memory.ProcFreepagetable(r, size[r]);
      GuardsDropped(s, memory.S(), r, guarded);
      size := size - {r};
      guarded := guarded - {r};
      forall r' | r' in size ensures Space(memory.S(), r', size[r']) {
        assert Space(s, r', size[r']) && r' in s.tables - {r};
      }
    }

    /** Perform one operation, if the process is there. */
    method Step(op: Operation)
      requires Valid() && ArgsOk(op)
      modifies this`size, this`guarded, memory
      ensures Valid() && SizeStep(old(size), op, size)
      // A process leaves `guarded` only by growing eagerly from size 0 or by exiting; a new one is in it.
      ensures forall r :: r in size && (r in old(guarded) || r !in old(size)) && !FromZero(op, old(size), r) ==>
              r in guarded
    {
      match op
      case NewImageOp(trapframe) =>
        var _ := NewImage(trapframe);
      case SbrkOp(r, n, eager) =>
        if r in size {
          var _ := Sbrk(r, n, eager);
          assert old(size)[r := old(size)[r]] == old(size);
        }
      case FaultOp(r, va) =>
        if r in size {
          var _ := Vmfault(r, va);
        }
      case ForkOp(r, trapframe) =>
        if r in size {
          var _ := Fork(r, trapframe);
        }
      case ExitOp(r) =>
        if r in size {
          Exit(r);
        }
        assert size == old(size) - {r};
    }

    /**
     * After any sequence of operations on any processes, the user pages of every
     * process lie below its size, and of every process that never grew eagerly from
     * size 0 also above page 0.  If no size ever reaches 0, that is every process.
     */
    method Run(ops: seq<Operation>) returns (ghost hist: seq<map<int, int>>)
      requires Valid() && forall i :: 0 <= i < |ops| ==> ArgsOk(ops[i])
      modifies this`size, this`guarded, memory
      ensures Valid() && History(ops, hist) && hist[0] == old(size) && hist[|ops|] == size
      ensures forall r :: r in old(size) && ExitOp(r) !in ops ==> r in size
      ensures forall r :: r in size ==> Space(memory.S(), r, size[r])
      ensures forall r :: r in size && (r in old(guarded) || r !in old(size)) && NeverFromZero(ops, hist, r) ==>
                r in guarded && UserPagesIn(memory.S(), r, size[r])
      ensures old(guarded) == old(size).Keys && NoSizeZero(hist) ==>
                forall r :: r in size ==> UserPagesIn(memory.S(), r, size[r])
    {
      hist := [size];
      for i := 0 to |ops|
        invariant Valid() && History(ops[..i], hist) && hist[0] == old(size) && hist[i] == size
        invariant forall r :: r in old(size) && ExitOp(r) !in ops ==> r in size
        invariant forall r :: r in size && (r in old(guarded) || r !in old(size)) ==>
                    NeverFromZero(ops[..i], hist, r) ==> r in guarded
      {
        ghost var g := guarded;
        Step(ops[i]);
        RunOn(ops, hist, i, size, old(size), old(guarded), g, guarded);
        hist := hist + [size];
      }
      assert ops[..|ops|] == ops;
      GuardedPages(memory.S(), size, guarded);
      SizesAboveZero(ops, hist);
    }

    /** Giving everything back and growing eagerly maps page 0, if there are pages for it. */
    method GrowFromZero(r: int) returns (grown: bool)
      requires Valid() && r in size && size[r] <= 0x8000_0000
      modifies this`size, this`guarded, memory
      ensures Valid() && r in size && (grown ==> !NullGuard(memory.S(), r))
      ensures |old(memory.free)| >= 3 ==> grown
    {
      if size[r] > 0 {
        var _ := Sbrk(r, -size[r], true);
      }
      assert size[r] == 0;
      NeededAtMost(memory.tables[r].node.Keys, Span(0, 1), 0, 1);
      assert PagesBetween(0, 1) == 1;
      var addr := Sbrk(r, 1, true);
      grown := addr != None;
    }
  }

  /** A machine with six pages is enough: a new image shrinks to 0, grows eagerly, and has page 0 mapped. */
  method PageZeroMapped(trampoline: int, trapframe: int) returns (ps: Processes, r: int)
    ensures fresh(ps) && ps.Valid() && r in ps.size && !NullGuard(ps.memory.S(), r)
  {
    var memory := new Memory(0, 6);
    ps := new Processes(memory, trampoline);
    var image := ps.NewImage(trapframe);
    r := image.value;
    var grown := ps.GrowFromZero(r);
  }
}
