/**
 * copyout and copyin of kernel/vm.c, which fault pages in on demand.
 *
 * `Peek` is the memory of a process as its program sees it: a page that is not
 * mapped yet reads as zeros, so a page fault changes nothing that is seen.
 */
module UserCopy {
  import opened Wrappers
  import opened PageTable
  import opened Vm
  import opened AddressSpace

  function ByteIn(page: Page, i: int): int {
    if page.Bytes? && 0 <= i < |page.content| then page.content[i] else 0
  }

  /** The page with `bytes` stored from `off` on. */
  function Patch(page: Page, off: int, bytes: seq<int>): Page {
    Bytes(seq(PGSIZE, i => if off <= i < off + |bytes| then bytes[i - off] else ByteIn(page, i)))
  }

  function Slice(page: Page, off: int, n: nat): seq<int> {
    seq(n, i => ByteIn(page, off + i))
  }

  ghost function Peek(s: Phys, r: int, a: int): int {
    if r in s.tables && a / PGSIZE in s.tables[r].flat && s.tables[r].flat[a / PGSIZE].ppn in s.mem
    then ByteIn(s.mem[s.tables[r].flat[a / PGSIZE].ppn], a % PGSIZE) else 0
  }

  /** Page `v` of the process is there for its program, to write if `w`. */
  ghost predicate Accessible(s: Phys, r: int, v: int, w: bool) {
    r in s.tables && v in s.tables[r].flat && s.tables[r].flat[v].perm.u && (w ==> s.tables[r].flat[v].perm.w)
  }

  ghost predicate AllAccessible(s: Phys, r: int, at: nat, n: nat, w: bool) {
    forall v :: n > 0 && at / PGSIZE <= v && v * PGSIZE < at + n ==> Accessible(s, r, v, w)
  }

  /** Page `v` is one that a fault may bring in. */
  ghost predicate Faultable(s: Phys, r: int, sz: int, v: int) {
    r in s.tables && v !in s.tables[r].flat && PGSIZE <= v * PGSIZE < sz
  }

  /** Page `v` is there, or there are enough free pages to bring it in. */
  ghost predicate PageOk(s: Phys, r: int, sz: int, v: int, w: bool) {
    || Accessible(s, r, v, w)
    || (Faultable(s, r, sz, v) && |s.free| >= 1 + Missing(s.tables[r].node.Keys, v))
  }

  /** What it costs to have page `v` there. */
  ghost predicate Served(s: Phys, t: Phys, r: int, v: int) {
    && r in s.tables && r in t.tables && v in t.tables[r].flat
    && if v in s.tables[r].flat then t.tables[r].node == s.tables[r].node && t.free == s.free
       else Took(s, t, r, v, 1, true)
  }

  ghost function Unmapped(s: Phys, r: int, v: int, k: nat): set<int>
    requires r in s.tables
  {
    Span(v, k) - s.tables[r].flat.Keys
  }

  /** The `k` pages from `v` on are there or may be brought in, and there are enough free pages for all of those. */
  ghost predicate CanServe(s: Phys, r: int, sz: int, v: int, k: nat, w: bool) {
    && r in s.tables
    && (forall u :: v <= u < v + k ==> Accessible(s, r, u, w) || Faultable(s, r, sz, u))
    && |s.free| >= Needed(s.tables[r].node.Keys, Unmapped(s, r, v, k), v, k)
  }

  /** Only the wanted pages among those counted matter. */
  lemma {:induction false} NeededSame(nodes: set<At>, want: set<int>, want': set<int>, v: int, n: nat)
    requires forall u :: v <= u < v + n ==> (u in want <==> u in want')
    ensures Needed(nodes, want, v, n) == Needed(nodes, want', v, n)
    decreases n
  {
    if n > 0 {
      NeededSame(if v in want then nodes + Path(v) else nodes, want, want', v + 1, n - 1);
    }
  }

  /** Nothing is needed if no page is wanted. */
  lemma {:induction false} NoneNeeded(nodes: set<At>, want: set<int>, v: int, n: nat)
    requires forall u :: v <= u < v + n ==> u !in want
    ensures Needed(nodes, want, v, n) == 0
    decreases n
  {
    if n > 0 {
      NoneNeeded(nodes, want, v + 1, n - 1);
    }
  }

  /** All pages can be served exactly when the first one can, and then the others. */
  lemma ServeStep(s: Phys, t: Phys, r: int, sz: int, v: int, k: nat, w: bool, ok: bool)
    requires k > 0 && r in s.tables && (ok <==> PageOk(s, r, sz, v, w))
    requires ok ==> Touches(s, t, r, v, v + 1, {}) && Served(s, t, r, v)
    ensures CanServe(s, r, sz, v, k, w) <==> ok && CanServe(t, r, sz, v + 1, k - 1, w)
  {
    var nodes, want := s.tables[r].node.Keys, Unmapped(s, r, v, k);
    assert v in want <==> v !in s.tables[r].flat;
    if ok {
      forall u | u != v
        ensures u in t.tables[r].flat <==> u in s.tables[r].flat
        ensures Accessible(t, r, u, w) <==> Accessible(s, r, u, w)
        ensures Faultable(t, r, sz, u) <==> Faultable(s, r, sz, u)
      {
        assert LeafSame(s, t, r, u);
      }
      NeededSame(t.tables[r].node.Keys, want, Unmapped(t, r, v + 1, k - 1), v + 1, k - 1);
    }
  }

  /** What the program sees has changed by `bytes` from `at` on and by nothing else. */
  ghost predicate SeenAs(s: Phys, t: Phys, r: int, at: int, bytes: seq<int>) {
    forall a :: 0 <= a < TOP ==> Peek(t, r, a) == if at <= a < at + |bytes| then bytes[a - at] else Peek(s, r, a)
  }

  lemma SeenThen(s: Phys, t: Phys, u: Phys, r: int, at: int, first: seq<int>, rest: seq<int>)
    requires SeenAs(s, t, r, at, first) && SeenAs(t, u, r, at + |first|, rest)
    ensures SeenAs(s, u, r, at, first + rest)
  {
  }

  lemma SeenSame(s: Phys, t: Phys, r: int, at: int)
    requires Touches(s, t, r, 0, 0, {})
    ensures SeenAs(s, t, r, at, [])
  {
    forall a | 0 <= a < TOP ensures Peek(t, r, a) == Peek(s, r, a) {
      assert LeafSame(s, t, r, a / PGSIZE);
    }
  }

  /** A page that a fault brings in holds the zeros that were seen there before. */
  lemma FaultSeen(s: Phys, t: Phys, r: int, v: int, perm: Perm, at: int)
    requires Touches(s, t, r, v, v + 1, {}) && v !in s.tables[r].flat && ZeroPage(t, r, v, perm)
    ensures SeenAs(s, t, r, at, [])
  {
    forall a | 0 <= a < TOP ensures Peek(t, r, a) == Peek(s, r, a) {
      if a / PGSIZE != v { assert LeafSame(s, t, r, a / PGSIZE); }
    }
  }

  lemma StoreSeen(s: Phys, t: Phys, r: int, v: int, off: nat, bytes: seq<int>)
    requires r in s.tables && v in s.tables[r].flat && s.tables[r].flat[v].ppn in s.mem && off + |bytes| <= PGSIZE
    requires var p := s.tables[r].flat[v].ppn; t == s.(mem := s.mem[p := Patch(s.mem[p], off, bytes)])
    requires Touches(s, t, r, v, v + 1, {})
    ensures SeenAs(s, t, r, v * PGSIZE + off, bytes)
  {
    forall a | 0 <= a < TOP
      ensures Peek(t, r, a) ==
              if v * PGSIZE + off <= a < v * PGSIZE + off + |bytes| then bytes[a - (v * PGSIZE + off)]
              else Peek(s, r, a)
    {
      if a / PGSIZE != v { assert LeafSame(s, t, r, a / PGSIZE); }
    }
  }

  /** The memory of another process is seen as before. */
  lemma OthersSeen(s: Phys, t: Phys, r: int, lo: int, hi: int, q: int, a: int)
    requires Ok(s) && Touches(s, t, r, lo, hi, {}) && q in s.tables && q != r && 0 <= a < TOP
    ensures Peek(t, q, a) == Peek(s, q, a)
  {
    if a / PGSIZE in s.tables[q].flat {
      SlotRoles(s, q, a / PGSIZE);
      assert PageTouch(s, t, r, s.tables[q].flat[a / PGSIZE].ppn);
    }
  }

  /** An accessible page is one of the process's own. */
  lemma AccessibleBelow(ps: Processes, r: int, v: int, w: bool)
    requires ps.Valid() && r in ps.size && Accessible(ps.memory.S(), r, v, w)
    ensures 0 <= v < TRAPFRAME && ps.memory.tables[r].flat[v].ppn in ps.memory.mem
  {
    assert Space(ps.memory.S(), r, ps.size[r]);
    SlotRoles(ps.memory.S(), r, v);
    FreeOf(ps.memory.S());
  }

  /** The page of address `va`: already there, or brought in by `vmfault`. */
  method GetPage(ps: Processes, r: int, va: nat) returns (pa: Option<int>)
    requires ps.Valid() && r in ps.size
    modifies ps.memory
    ensures ps.Valid() && Touches(old(ps.memory.S()), ps.memory.S(), r, va / PGSIZE, va / PGSIZE + 1, {})
    ensures SeenAs(old(ps.memory.S()), ps.memory.S(), r, va, [])
    ensures Accessible(old(ps.memory.S()), r, va / PGSIZE, false) ==> pa.Some? && ps.memory.S() == old(ps.memory.S())
    ensures pa.Some? <==> PageOk(old(ps.memory.S()), r, ps.size[r], va / PGSIZE, false)
    ensures pa.Some? ==>
              && Accessible(ps.memory.S(), r, va / PGSIZE, false)
              && Served(old(ps.memory.S()), ps.memory.S(), r, va / PGSIZE)
              && pa.value == ps.memory.tables[r].flat[va / PGSIZE].ppn
              && (va / PGSIZE !in old(ps.memory.tables)[r].flat ==> Accessible(ps.memory.S(), r, va / PGSIZE, true))
  {
    ghost var s, v := ps.memory.S(), va / PGSIZE;
    TouchesNothing(s, r);
    TouchesMore(s, s, r, 0, 0, {}, v, v + 1, {});
    SeenSame(s, s, r, va);
    pa := ps.memory.Walkaddr(r, va);
    if pa == None {
      pa := ps.Vmfault(r, va / PGSIZE * PGSIZE);
      assert va / PGSIZE * PGSIZE / PGSIZE == v;
      if pa.Some? {
        FaultSeen(s, ps.memory.S(), r, v, UserPerm(WRITE), va);
      } else {
        SeenSame(s, ps.memory.S(), r, va);
        TouchesMore(s, ps.memory.S(), r, 0, 0, {}, v, v + 1, {});
      }
    }
  }

  /** The test of PTE_W in `copyout`. */
  method IsWritable(ps: Processes, r: int, va: nat) returns (yes: bool)
    requires ps.Valid() && r in ps.size && Accessible(ps.memory.S(), r, va / PGSIZE, false)
    modifies ps.memory
    ensures ps.memory.S() == old(ps.memory.S()) && (yes <==> Accessible(ps.memory.S(), r, va / PGSIZE, true))
  {
    AccessibleBelow(ps, r, va / PGSIZE, false);
    var slot := ps.memory.Walk(r, va, false);
    var (q, j) := slot.value;
    TreeOf(ps.memory.S(), r);
    SlotOf(ps.memory.mem, ps.memory.role, ps.memory.tables[r], r, va / PGSIZE);
    yes := ps.memory.mem[q].entries[j].perm.w;
  }

  /** Storing into a page of the process keeps the invariant. */
  method StorePage(ps: Processes, r: int, va: nat, p: int, bytes: seq<int>)
    requires ps.Valid() && r in ps.size && Accessible(ps.memory.S(), r, va / PGSIZE, true)
    requires p == ps.memory.tables[r].flat[va / PGSIZE].ppn && va % PGSIZE + |bytes| <= PGSIZE
    modifies ps.memory
    ensures ps.Valid() && Touches(old(ps.memory.S()), ps.memory.S(), r, va / PGSIZE, va / PGSIZE + 1, {})
    ensures SeenAs(old(ps.memory.S()), ps.memory.S(), r, va, bytes) && Accessible(ps.memory.S(), r, va / PGSIZE, true)
    ensures ps.memory.tables == old(ps.memory.tables) && ps.memory.free == old(ps.memory.free)
  {
    ghost var s, v := ps.memory.S(), va / PGSIZE;
    AccessibleBelow(ps, r, v, true);
    ps.memory.Store(r, v, p, Patch(ps.memory.mem[p], va % PGSIZE, bytes));
    StoreSeen(s, ps.memory.S(), r, v, va % PGSIZE, bytes);
    forall q | q in ps.size ensures Space(ps.memory.S(), q, ps.size[q]) { assert Space(s, q, ps.size[q]); }
  }

  /** What an iteration of copyout or copyin does to the page of `a`. */
  ghost predicate Worked(t: Phys, u: Phys, r: int, sz: int, a: nat, w: bool, ok: bool) {
    && r in t.tables && Touches(t, u, r, a / PGSIZE, a / PGSIZE + 1, {})
    && (ok <==> PageOk(t, r, sz, a / PGSIZE, w))
    && (ok ==> Served(t, u, r, a / PGSIZE) && (w ==> Accessible(u, r, a / PGSIZE, true)))
  }

  /** One iteration of `copyout`. */
  method CopyoutPage(ps: Processes, r: int, va: nat, bytes: seq<int>) returns (ok: bool)
    requires ps.Valid() && r in ps.size && va % PGSIZE + |bytes| <= PGSIZE
    modifies ps.memory
    ensures ps.Valid() && Worked(old(ps.memory.S()), ps.memory.S(), r, ps.size[r], va, true, ok)
    ensures SeenAs(old(ps.memory.S()), ps.memory.S(), r, va, if ok then bytes else [])
  {
    ghost var s, v := ps.memory.S(), va / PGSIZE;
    var pa := GetPage(ps, r, va);
    if pa == None {
      return false;
    }
    ok := IsWritable(ps, r, va);
    if ok {
      ghost var t := ps.memory.S();
      StorePage(ps, r, va, pa.value, bytes);
      TouchesTwice(s, t, ps.memory.S(), r, v, v + 1, {});
      SeenThen(s, t, ps.memory.S(), r, va, [], bytes);
      assert [] + bytes == bytes;
    }
  }

  /** How far a copy gets in the page it is in. */
  function Within(at: nat, left: nat): nat {
    if left < PGSIZE - at % PGSIZE then left else PGSIZE - at % PGSIZE
  }

  /** The copy is at its start, its end, or the start of a page. */
  predicate AtBoundary(at: nat, n: nat, i: nat) { i == 0 || i == n || (i < n && (at + i) % PGSIZE == 0) }

  function LastPage(at: nat, n: nat): int { (at + n + PGSIZE - 1) / PGSIZE }

  /** Work on the page of `at + i` makes the pages up to `at + i + m` accessible. */
  lemma AccessNext(s: Phys, t: Phys, r: int, at: nat, i: nat, m: nat, n: nat, w: bool)
    requires Touches(s, t, r, (at + i) / PGSIZE, (at + i) / PGSIZE + 1, {}) && Accessible(t, r, (at + i) / PGSIZE, w)
    requires i < n && m == Within(at + i, n - i)
    ensures AllAccessible(s, r, at, i, w) ==> AllAccessible(t, r, at, i + m, w)
  {
    var v := (at + i) / PGSIZE;
    forall u | u != v ensures Accessible(t, r, u, w) <==> Accessible(s, r, u, w) { assert LeafSame(s, t, r, u); }
  }

  lemma WithinNext(at: nat, i: nat, n: nat)
    requires i < n && AtBoundary(at, n, i)
    ensures var m := Within(at + i, n - i);
            && 0 < m <= n - i && (at + i) % PGSIZE + m <= PGSIZE && AtBoundary(at, n, i + m)
            && at / PGSIZE <= (at + i) / PGSIZE < LastPage(at, n)
            && (at + i) / PGSIZE + 1 == if i + m < n then (at + i + m) / PGSIZE else LastPage(at, n)
  {
  }

  /** The bytes from place `i` on of a copy of `n` bytes at `at` can be copied. */
  ghost predicate CanCopy(s: Phys, r: int, sz: int, at: nat, n: nat, i: nat, w: bool) {
    i < n ==> (at + i) / PGSIZE <= LastPage(at, n)
              && CanServe(s, r, sz, (at + i) / PGSIZE, LastPage(at, n) - (at + i) / PGSIZE, w)
  }

  lemma CopyStep(s: Phys, t: Phys, r: int, sz: int, at: nat, n: nat, i: nat, w: bool, ok: bool)
    requires i < n && AtBoundary(at, n, i) && r in s.tables && (ok <==> PageOk(s, r, sz, (at + i) / PGSIZE, w))
    requires ok ==> Touches(s, t, r, (at + i) / PGSIZE, (at + i) / PGSIZE + 1, {}) && Served(s, t, r, (at + i) / PGSIZE)
    ensures CanCopy(s, r, sz, at, n, i, w) <==> ok && CanCopy(t, r, sz, at, n, i + Within(at + i, n - i), w)
  {
    WithinNext(at, i, n);
    ServeStep(s, t, r, sz, (at + i) / PGSIZE, LastPage(at, n) - (at + i) / PGSIZE, w, ok);
  }

  /** A copy to or from pages that are all there needs no free page. */
  lemma AllThere(s: Phys, r: int, sz: int, at: nat, n: nat, w: bool)
    ensures AllAccessible(s, r, at, n, w) ==> CanCopy(s, r, sz, at, n, 0, w)
  {
    if n > 0 && AllAccessible(s, r, at, n, w) {
      var lo, hi := at / PGSIZE, LastPage(at, n);
      assert Accessible(s, r, lo, w);
      var want := Unmapped(s, r, lo, hi - lo);
      forall u | lo <= u < hi ensures Accessible(s, r, u, w) && u !in want { assert u * PGSIZE < at + n; }
      NoneNeeded(s.tables[r].node.Keys, want, lo, hi - lo);
    }
  }

  lemma CopyoutOn(s: Phys, t: Phys, u: Phys, r: int, at: nat, src: seq<int>, i: nat, m: nat, ok: bool)
    requires i + m <= |src| && at / PGSIZE <= (at + i) / PGSIZE < LastPage(at, |src|)
    requires SeenAs(s, t, r, at, src[..i]) && SeenAs(t, u, r, at + i, if ok then src[i..i + m] else [])
    requires Touches(s, t, r, at / PGSIZE, LastPage(at, |src|), {})
    requires Touches(t, u, r, (at + i) / PGSIZE, (at + i) / PGSIZE + 1, {})
    ensures SeenAs(s, u, r, at, src[..if ok then i + m else i])
            && Touches(s, u, r, at / PGSIZE, LastPage(at, |src|), {})
  {
    SeenThen(s, t, u, r, at, src[..i], if ok then src[i..i + m] else []);
    assert src[..i] + src[i..i + m] == src[..i + m] && src[..i] + [] == src[..i];
    TouchesMore(t, u, r, (at + i) / PGSIZE, (at + i) / PGSIZE + 1, {}, at / PGSIZE, LastPage(at, |src|), {});
    TouchesTwice(s, t, u, r, at / PGSIZE, LastPage(at, |src|), {});
  }

  /** The first `i` bytes of `src` have been stored, and the rest can be exactly if all of it could. */
  ghost predicate StoredTo(s: Phys, t: Phys, r: int, sz: int, at: nat, src: seq<int>, i: nat) {
    && i <= |src| && AtBoundary(at, |src|, i)
    && SeenAs(s, t, r, at, src[..i]) && Touches(s, t, r, at / PGSIZE, LastPage(at, |src|), {})
    && AllAccessible(t, r, at, i, true)
    && (CanCopy(s, r, sz, at, |src|, 0, true) <==> CanCopy(t, r, sz, at, |src|, i, true))
  }

  lemma StoredNext(s: Phys, t: Phys, u: Phys, r: int, sz: int, at: nat, src: seq<int>, i: nat, m: nat, ok: bool)
    requires StoredTo(s, t, r, sz, at, src, i) && i < |src| && m == Within(at + i, |src| - i) <= |src| - i
    requires Worked(t, u, r, sz, at + i, true, ok) && SeenAs(t, u, r, at + i, if ok then src[i..i + m] else [])
    ensures ok ==> StoredTo(s, u, r, sz, at, src, i + m)
    ensures !ok ==> SeenAs(s, u, r, at, src[..i]) && !CanCopy(s, r, sz, at, |src|, 0, true)
    ensures Touches(s, u, r, at / PGSIZE, LastPage(at, |src|), {})
  {
    WithinNext(at, i, |src|);
    CopyoutOn(s, t, u, r, at, src, i, m, ok);
    CopyStep(t, u, r, sz, at, |src|, i, true, ok);
    if ok {
      AccessNext(t, u, r, at, i, m, |src|, true);
    }
  }

  /** One iteration of `copyout`, with `i` bytes stored before it. */
  method CopyoutNext(ps: Processes, r: int, at: nat, src: seq<int>, i: nat, ghost s: Phys) returns (ok: bool, m: nat)
    requires ps.Valid() && r in ps.size && i < |src| && StoredTo(s, ps.memory.S(), r, ps.size[r], at, src, i)
    modifies ps.memory
    ensures ps.Valid() && 0 < m <= |src| - i
    ensures ok ==> StoredTo(s, ps.memory.S(), r, ps.size[r], at, src, i + m)
    ensures !ok ==> SeenAs(s, ps.memory.S(), r, at, src[..i]) && !CanCopy(s, r, ps.size[r], at, |src|, 0, true)
    ensures Touches(s, ps.memory.S(), r, at / PGSIZE, LastPage(at, |src|), {})
  {
    ghost var t := ps.memory.S();
    m := Within(at + i, |src| - i);
    WithinNext(at, i, |src|);
    ok := CopyoutPage(ps, r, at + i, src[i..i + m]);
    StoredNext(s, t, ps.memory.S(), r, ps.size[r], at, src, i, m, ok);
  }

  lemma NothingStored(s: Phys, r: int, sz: int, at: nat, src: seq<int>)
    requires Ok(s) && r in s.tables
    ensures StoredTo(s, s, r, sz, at, src, 0)
  {
    TouchesNothing(s, r);
    TouchesMore(s, s, r, 0, 0, {}, at / PGSIZE, LastPage(at, |src|), {});
    SeenSame(s, s, r, at);
  }

  lemma AllOthersSeen(s: Phys, t: Phys, r: int, lo: int, hi: int)
    requires Ok(s) && Touches(s, t, r, lo, hi, {})
    ensures forall q, a :: q in s.tables && q != r && 0 <= a < TOP ==> Peek(t, q, a) == Peek(s, q, a)
  {
    forall q, a | q in s.tables && q != r && 0 <= a < TOP ensures Peek(t, q, a) == Peek(s, q, a) {
      OthersSeen(s, t, r, lo, hi, q, a);
    }
  }

  /**
   * `copyout`.  `done` bytes of `src` reach the memory of the process, all of them
   * exactly when the call succeeds; nothing else in it changes, and nothing in the
   * memory of any other process.  It succeeds exactly when every page is there, or
   * lies below the size and can be brought in with the free pages there are.
   */
  method Copyout(ps: Processes, r: int, dstva: nat, src: seq<int>) returns (ok: bool, ghost done: nat)
    requires ps.Valid() && r in ps.size
    modifies ps.memory
    ensures ps.Valid() && done <= |src| && (ok <==> done == |src|)
    ensures SeenAs(old(ps.memory.S()), ps.memory.S(), r, dstva, src[..done])
    ensures Touches(old(ps.memory.S()), ps.memory.S(), r, dstva / PGSIZE, LastPage(dstva, |src|), {})
    ensures forall q, a :: q in old(ps.memory.tables) && q != r && 0 <= a < TOP ==>
              Peek(ps.memory.S(), q, a) == Peek(old(ps.memory.S()), q, a)
    ensures ok ==> AllAccessible(ps.memory.S(), r, dstva, |src|, true)
    ensures ok <==> CanCopy(old(ps.memory.S()), r, ps.size[r], dstva, |src|, 0, true)
    ensures AllAccessible(old(ps.memory.S()), r, dstva, |src|, true) ==> ok
  {
    ghost var s, lo, hi := ps.memory.S(), dstva / PGSIZE, LastPage(dstva, |src|);
    NothingStored(s, r, ps.size[r], dstva, src);
    AllThere(s, r, ps.size[r], dstva, |src|, true);
    var i := 0;
    done, ok := 0, true;
    while i < |src|
      invariant i <= |src| && done == i && ok && ps.Valid()
      invariant StoredTo(s, ps.memory.S(), r, ps.size[r], dstva, src, i)
    {
      var m;
      ok, m := CopyoutNext(ps, r, dstva, src, i, s);
      if !ok {
        break;
      }
      i := i + m;
      done := i;
    }
    AllOthersSeen(s, ps.memory.S(), r, lo, hi);
  }

  lemma CopyinOn(s: Phys, t: Phys, u: Phys, r: int, at: nat, n: nat, i: nat)
    requires at / PGSIZE <= (at + i) / PGSIZE < LastPage(at, n)
    requires Touches(s, t, r, at / PGSIZE, LastPage(at, n), {})
    requires Touches(t, u, r, (at + i) / PGSIZE, (at + i) / PGSIZE + 1, {})
    requires SeenAs(s, t, r, at, []) && SeenAs(t, u, r, at + i, [])
    ensures Touches(s, u, r, at / PGSIZE, LastPage(at, n), {}) && SeenAs(s, u, r, at, [])
  {
    TouchesMore(t, u, r, (at + i) / PGSIZE, (at + i) / PGSIZE + 1, {}, at / PGSIZE, LastPage(at, n), {});
    TouchesTwice(s, t, u, r, at / PGSIZE, LastPage(at, n), {});
  }

  /** `bytes` are what the program sees from `a` on. */
  ghost predicate SeenAt(s: Phys, r: int, a: nat, bytes: seq<int>) {
    forall i :: 0 <= i < |bytes| ==> bytes[i] == Peek(s, r, a + i)
  }

  lemma ReadSeen(s: Phys, t: Phys, r: int, a: nat, m: nat)
    requires SeenAs(s, t, r, a, []) && Accessible(t, r, a / PGSIZE, false) && a % PGSIZE + m <= PGSIZE
    requires 0 <= a / PGSIZE < TRAPFRAME && t.tables[r].flat[a / PGSIZE].ppn in t.mem
    ensures SeenAt(s, r, a, Slice(t.mem[t.tables[r].flat[a / PGSIZE].ppn], a % PGSIZE, m))
  {
    var bytes := Slice(t.mem[t.tables[r].flat[a / PGSIZE].ppn], a % PGSIZE, m);
    forall i | 0 <= i < |bytes| ensures bytes[i] == Peek(s, r, a + i) {
      assert (a + i) / PGSIZE == a / PGSIZE && (a + i) % PGSIZE == a % PGSIZE + i && a + i < TOP;
      assert Peek(t, r, a + i) == Peek(s, r, a + i);
    }
  }

  /** One iteration of `copyin`. */
  method CopyinPage(ps: Processes, r: int, va: nat, m: nat) returns (ok: bool, bytes: seq<int>)
    requires ps.Valid() && r in ps.size && va % PGSIZE + m <= PGSIZE
    modifies ps.memory
    ensures ps.Valid() && Worked(old(ps.memory.S()), ps.memory.S(), r, ps.size[r], va, false, ok)
    ensures SeenAs(old(ps.memory.S()), ps.memory.S(), r, va, [])
    ensures ok ==> |bytes| == m && SeenAt(old(ps.memory.S()), r, va, bytes) && va + m <= TOP
  {
    ghost var s := ps.memory.S();
    var pa := GetPage(ps, r, va);
    if pa == None {
      return false, [];
    }
    AccessibleBelow(ps, r, va / PGSIZE, false);
    ReadSeen(s, ps.memory.S(), r, va, m);
    return true, Slice(ps.memory.mem[pa.value], va % PGSIZE, m);
  }

  lemma SeenAtNext(s: Phys, t: Phys, r: int, a: nat, dst: seq<int>, bytes: seq<int>)
    requires SeenAt(s, r, a, dst) && SeenAt(t, r, a + |dst|, bytes) && SeenAs(s, t, r, a, [])
             && a + |dst| + |bytes| <= TOP
    ensures SeenAt(s, r, a, dst + bytes)
  {
    forall i | 0 <= i < |bytes| ensures bytes[i] == Peek(s, r, a + |dst| + i) {
      assert Peek(t, r, a + |dst| + i) == Peek(s, r, a + |dst| + i);
    }
  }

  /** `dst` are the first bytes the program sees there, and the rest can be read exactly if all of it could. */
  ghost predicate ReadTo(s: Phys, t: Phys, r: int, sz: int, at: nat, n: nat, dst: seq<int>) {
    && |dst| <= n && AtBoundary(at, n, |dst|) && SeenAt(s, r, at, dst)
    && SeenAs(s, t, r, at, []) && Touches(s, t, r, at / PGSIZE, LastPage(at, n), {})
    && (CanCopy(s, r, sz, at, n, 0, false) <==> CanCopy(t, r, sz, at, n, |dst|, false))
  }

  lemma ReadNext(s: Phys, t: Phys, u: Phys, r: int, sz: int, at: nat, n: nat, dst: seq<int>, bytes: seq<int>, ok: bool)
    requires ReadTo(s, t, r, sz, at, n, dst) && |dst| < n && Worked(t, u, r, sz, at + |dst|, false, ok)
    requires SeenAs(t, u, r, at + |dst|, [])
    requires ok ==> |bytes| == Within(at + |dst|, n - |dst|) && SeenAt(t, r, at + |dst|, bytes)
                    && at + |dst| + |bytes| <= TOP
    ensures ok ==> ReadTo(s, u, r, sz, at, n, dst + bytes)
    ensures !ok ==> !CanCopy(s, r, sz, at, n, 0, false)
    ensures SeenAs(s, u, r, at, []) && Touches(s, u, r, at / PGSIZE, LastPage(at, n), {})
  {
    WithinNext(at, |dst|, n);
    CopyinOn(s, t, u, r, at, n, |dst|);
    CopyStep(t, u, r, sz, at, n, |dst|, false, ok);
    if ok {
      SeenAtNext(s, t, r, at, dst, bytes);
    }
  }

  /** One iteration of `copyin`, with `dst` read before it. */
  method CopyinNext(ps: Processes, r: int, at: nat, n: nat, dst: seq<int>, ghost s: Phys)
    returns (ok: bool, bytes: seq<int>)
    requires ps.Valid() && r in ps.size && |dst| < n && ReadTo(s, ps.memory.S(), r, ps.size[r], at, n, dst)
    modifies ps.memory
    ensures ps.Valid()
    ensures ok ==> 0 < |bytes| && ReadTo(s, ps.memory.S(), r, ps.size[r], at, n, dst + bytes)
    ensures !ok ==> !CanCopy(s, r, ps.size[r], at, n, 0, false)
    ensures SeenAs(s, ps.memory.S(), r, at, []) && Touches(s, ps.memory.S(), r, at / PGSIZE, LastPage(at, n), {})
  {
    ghost var t := ps.memory.S();
    var m := Within(at + |dst|, n - |dst|);
    WithinNext(at, |dst|, n);
    ok, bytes := CopyinPage(ps, r, at + |dst|, m);
    ReadNext(s, t, ps.memory.S(), r, ps.size[r], at, n, dst, bytes, ok);
  }

  /**
   * `copyin`: the bytes the program sees there; what it sees does not change.  It
   * succeeds under the same condition as copyout, but for the right to write.
   */
  method Copyin(ps: Processes, r: int, srcva: nat, len: nat) returns (ok: bool, dst: seq<int>)
    requires ps.Valid() && r in ps.size
    modifies ps.memory
    ensures ps.Valid() && SeenAs(old(ps.memory.S()), ps.memory.S(), r, srcva, [])
    ensures Touches(old(ps.memory.S()), ps.memory.S(), r, srcva / PGSIZE, LastPage(srcva, len), {})
    ensures ok ==> |dst| == len && SeenAt(old(ps.memory.S()), r, srcva, dst)
    ensures ok <==> CanCopy(old(ps.memory.S()), r, ps.size[r], srcva, len, 0, false)
    ensures AllAccessible(old(ps.memory.S()), r, srcva, len, false) ==> ok
  {
    ghost var s := ps.memory.S();
    TouchesNothing(s, r);
    TouchesMore(s, s, r, 0, 0, {}, srcva / PGSIZE, LastPage(srcva, len), {});
    SeenSame(s, s, r, srcva);
    AllThere(s, r, ps.size[r], srcva, len, false);
    dst, ok := [], true;
    while |dst| < len
      invariant ps.Valid() && ok && ReadTo(s, ps.memory.S(), r, ps.size[r], srcva, len, dst)
      decreases len - |dst|
    {
      var bytes;
      ok, bytes := CopyinNext(ps, r, srcva, len, dst, s);
      if !ok {
        return;
      }
      dst := dst + bytes;
    }
  }

  /** What copyout has put there copyin gets back, and copyin cannot fail then. */
  method RoundTrip(ps: Processes, r: int, va: nat, src: seq<int>) returns (put: bool, got: bool, dst: seq<int>)
    requires ps.Valid() && r in ps.size
    modifies ps.memory
    ensures ps.Valid() && (put ==> got && dst == src)
    ensures put <==> CanCopy(old(ps.memory.S()), r, ps.size[r], va, |src|, 0, true)
    ensures AllAccessible(old(ps.memory.S()), r, va, |src|, true) ==> put
  {
    ghost var done;
    put, done := Copyout(ps, r, va, src);
    got, dst := false, [];
    if put {
      ghost var t := ps.memory.S();
      forall i | 0 <= i < |src| ensures Peek(t, r, va + i) == src[i] {
        AccessibleBelow(ps, r, (va + i) / PGSIZE, true);
        assert va + i < TOP;
      }
      forall v | |src| > 0 && va / PGSIZE <= v && v * PGSIZE < va + |src| ensures Accessible(t, r, v, false) {
        assert Accessible(t, r, v, true);
      }
      got, dst := Copyin(ps, r, va, |src|);
    }
  }
}
