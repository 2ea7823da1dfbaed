/**
 * The physical page allocator of kernel/kalloc.c and the page-table operations
 * of kernel/vm.c, working in place on one memory.
 *
 * Addresses are bytes, as in the source; page numbers count pages of PGSIZE.  A
 * call that would reach a panic is excluded by a precondition, and every call
 * made here meets it.
 */
module Vm {
  import opened Wrappers
  import opened PageTable

  const PGSIZE := 4096

  /** A page filled with one byte: what memset leaves. */
  function Filled(b: int): Page { Bytes(seq(PGSIZE, i => b)) }

  function RoundUp(x: int): int { (x + PGSIZE - 1) / PGSIZE * PGSIZE }

  // ---- What an operation on one table may change ----

  predicate Foreign(role: Role, r: int) { !role.Free? && !Of(role, r) }

  ghost predicate SamePage(s: Phys, s': Phys, p: int)
    requires p in s.role
  {
    p in s'.role && s'.role[p] == s.role[p] && p in s.mem && p in s'.mem && s'.mem[p] == s.mem[p]
  }

  /** Pages of others keep role and contents; free pages and those of `r` stay free or with `r`. */
  ghost predicate PageTouch(s: Phys, s': Phys, r: int, p: int)
    requires p in s.role
  {
    p in s'.role && if Foreign(s.role[p], r) then SamePage(s, s', p) else !Foreign(s'.role[p], r)
  }

  /** Virtual page `v` keeps its entry, and the page behind it its contents. */
  ghost predicate LeafSame(s: Phys, s': Phys, r: int, v: int)
    requires r in s.tables && r in s'.tables
  {
    var flat, flat' := s.tables[r].flat, s'.tables[r].flat;
    && (v in flat <==> v in flat')
    && (v in flat ==> flat'[v] == flat[v])
    && (v in flat && v < TRAPFRAME ==>
          flat[v].ppn in s.mem && flat[v].ppn in s'.mem && s'.mem[flat[v].ppn] == s.mem[flat[v].ppn])
  }

  ghost predicate OneTable(s: Phys, s': Phys, r: int) {
    r in s.tables && r in s'.tables && s'.tables == s.tables[r := s'.tables[r]] && s'.role.Keys == s.role.Keys
  }

  /**
   * The step from `s` to `s'` touches only the table of `r`, and in it only
   * virtual pages in [lo, hi); pages in `mine` are the caller's own.
   */
  ghost predicate Touches(s: Phys, s': Phys, r: int, lo: int, hi: int, mine: set<int>) {
    && OneTable(s, s', r)
    && (forall p :: p in s.role && p !in mine ==> PageTouch(s, s', r, p))
    && (forall v :: v < lo || v >= hi ==> LeafSame(s, s', r, v))
  }

  lemma TouchesTwice(s: Phys, t: Phys, u: Phys, r: int, lo: int, hi: int, mine: set<int>)
    requires Touches(s, t, r, lo, hi, mine) && Touches(t, u, r, lo, hi, mine)
    ensures Touches(s, u, r, lo, hi, mine)
  {
    forall p | p in s.role && p !in mine ensures PageTouch(s, u, r, p) {
      assert PageTouch(s, t, r, p) && PageTouch(t, u, r, p);
    }
    forall v | v < lo || v >= hi ensures LeafSame(s, u, r, v) {
      assert LeafSame(s, t, r, v) && LeafSame(t, u, r, v);
    }
  }

  lemma TouchesMore(s: Phys, t: Phys, r: int, lo: int, hi: int, mine: set<int>, lo': int, hi': int, mine': set<int>)
    requires Touches(s, t, r, lo, hi, mine) && mine <= mine'
    requires lo >= hi || lo' <= lo <= hi <= hi'
    ensures Touches(s, t, r, lo', hi', mine')
  {
    forall v | v < lo' || v >= hi' ensures LeafSame(s, t, r, v) {
      assert v < lo || v >= hi;
    }
  }

  /** A page the caller took from the free list and put into the table counts as the table's. */
  lemma Absorb(s: Phys, t: Phys, r: int, lo: int, hi: int, p: int)
    requires Touches(s, t, r, lo, hi, {p}) && p in s.role && p in t.role
    requires !Foreign(s.role[p], r) && !Foreign(t.role[p], r)
    ensures Touches(s, t, r, lo, hi, {})
  {
    forall q | q in s.role ensures PageTouch(s, t, r, q) {
      assert q != p ==> PageTouch(s, t, r, q);
    }
  }

  lemma FlatSame(s: Phys, t: Phys, r: int)
    requires Touches(s, t, r, 0, 0, {})
    ensures t.tables[r].flat == s.tables[r].flat
  {
    var f, f' := s.tables[r].flat, t.tables[r].flat;
    forall v ensures (v in f <==> v in f') && (v in f ==> f'[v] == f[v]) {
      assert LeafSame(s, t, r, v);
    }
  }

  lemma TouchesNothing(s: Phys, r: int)
    requires Ok(s) && r in s.tables
    ensures Touches(s, s, r, 0, 0, {})
  {
    FreeOf(s);
    forall v ensures LeafSame(s, s, r, v) {
      if v in s.tables[r].flat { SlotRoles(s, r, v); }
    }
  }

  /** A change to one loose page touches no table. */
  lemma LooseTouches(s: Phys, s': Phys, r: int, p: int)
    requires Ok(s) && r in s.tables && s'.tables == s.tables && p in s.role && Loose(s.role[p])
    requires s'.role.Keys == s.role.Keys && s.mem.Keys <= s'.mem.Keys
    requires forall q :: q in s.role && q != p ==> s'.role[q] == s.role[q] && (q in s.mem ==> s'.mem[q] == s.mem[q])
    ensures Touches(s, s', r, 0, 0, {p})
  {
    FreeOf(s);
    forall v ensures LeafSame(s, s', r, v) {
      if v in s.tables[r].flat { SlotRoles(s, r, v); }
    }
  }

  lemma LinkTouches(s: Phys, r: int, at: At, j: int, p: int)
    requires Ok(s) && r in s.tables && at in s.tables[r].node && at.level > 0 && 0 <= j < FANOUT
    requires Child(at, j) !in s.tables[r].node
    requires p in s.role && s.role[p] == Held && p in s.mem && s.mem[p] == Table(EMPTY)
    ensures NodeOk(s.mem, s.role, s.tables[r], r, at) && Touches(s, LinkStep(s, r, at, j, p), r, 0, 0, {p})
  {
    LinkKeepsOk(s, r, at, j, p);
    var s' := LinkStep(s, r, at, j, p);
    FreeOf(s);
    forall v ensures LeafSame(s, s', r, v) {
      if v in s.tables[r].flat { SlotRoles(s, r, v); }
    }
  }

  /** The entry that a walk reads at `level`. */
  lemma EntryAt(s: Phys, r: int, at: At, j: int)
    requires Ok(s) && r in s.tables && at in s.tables[r].node && 0 <= j < FANOUT
    ensures PlaceOk(s.tables[r].node, at)
    ensures var q := s.tables[r].node[at];
            && q in s.mem && s.mem[q].Table? && |s.mem[q].entries| == FANOUT
            && EntryOk(s.mem[q].entries[j], s.tables[r], at, j)
  {
    TreeOf(s, r);
    assert NodeOk(s.mem, s.role, s.tables[r], r, at);
  }

  /** A walk that stops early shows that the page has no leaf slot. */
  lemma NoPath(s: Phys, r: int, vpn: int, level: int)
    requires Ok(s) && r in s.tables && 0 <= vpn < MAXVPN && 0 <= level <= 1 && NodeFor(level, vpn) !in s.tables[r].node
    ensures NodeFor(0, vpn) !in s.tables[r].node && vpn !in s.tables[r].flat
  {
    TreeOf(s, r);
    assert NodeFor(0, vpn) in s.tables[r].node ==> NodeOk(s.mem, s.role, s.tables[r], r, NodeFor(0, vpn));
    assert Parent(NodeFor(0, vpn)) == NodeFor(1, vpn);
    assert vpn in s.tables[r].flat ==> LeafOk(s.role, s.tables[r], r, vpn);
  }

  /** The map that gives every page in [lo, hi) the same value. */
  function Uniform<T>(lo: int, hi: int, x: T): (m: map<int, T>)
    ensures forall p :: p in m <==> lo <= p < hi
    ensures forall p :: p in m ==> m[p] == x
    decreases hi - lo
  {
    if lo >= hi then map[] else Uniform(lo, hi - 1, x)[hi - 1 := x]
  }

  // ---- Ranges ----

  ghost function Pages(lo: int, hi: int): (ps: set<int>)
    ensures forall p :: p in ps <==> lo <= p < hi
  {
    set p | lo <= p < hi && InPages(p)
  }

  predicate InPages(p: int) { true }

  /** The caller's pages that become user pages: kernel pages are mapped without changing hands. */
  ghost function Mine(vpn: int, lo: int, hi: int): (ps: set<int>)
    ensures forall p :: p in ps <==> vpn < TRAPFRAME && lo <= p < hi
  {
    if vpn < TRAPFRAME then Pages(lo, hi) else {}
  }

  /** The flat map after mapping `m` pages from `vpn` on to the pages from `ppn` on. */
  function MapRange(flat: map<int, Pte>, vpn: int, ppn: int, perm: Perm, m: nat): map<int, Pte> {
    if m == 0 then flat else MapRange(flat, vpn, ppn, perm, m - 1)[vpn + m - 1 := Pte(ppn + m - 1, true, perm)]
  }

  lemma {:induction false} MapRangeDomain(flat: map<int, Pte>, vpn: int, ppn: int, perm: Perm, m: nat, v: int)
    ensures v in MapRange(flat, vpn, ppn, perm, m) <==> v in flat || vpn <= v < vpn + m
    ensures vpn <= v < vpn + m ==> MapRange(flat, vpn, ppn, perm, m)[v] == Pte(ppn + v - vpn, true, perm)
    ensures v in flat && !(vpn <= v < vpn + m) ==> MapRange(flat, vpn, ppn, perm, m)[v] == flat[v]
  {
    if m > 0 { MapRangeDomain(flat, vpn, ppn, perm, m - 1, v); }
  }

  lemma HeldStays(s: Phys, t: Phys, r: int, lo: int, hi: int, mine: set<int>, p: int)
    requires Touches(s, t, r, lo, hi, mine) && p in s.role && s.role[p] == Held && p !in mine
    ensures p in t.role && t.role[p] == Held
  {
    assert PageTouch(s, t, r, p);
  }

  /** The pages in [lo, hi) keep their contents. */
  ghost predicate Intact(s: Phys, t: Phys, lo: int, hi: int) {
    forall p :: lo <= p < hi ==> p in s.mem && p in t.mem && t.mem[p] == s.mem[p]
  }

  /** The first `m` of the `n` pages from `ppn` on have been mapped from `vpn` on; the others are still held. */
  ghost predicate Mapping(s: Phys, t: Phys, r: int, vpn: int, ppn: int, perm: Perm, m: nat, n: nat) {
    && Touches(s, t, r, vpn, vpn + m, Mine(vpn, ppn, ppn + m))
    && t.tables[r].flat == MapRange(s.tables[r].flat, vpn, ppn, perm, m)
    && (vpn < TRAPFRAME ==> Intact(s, t, ppn, ppn + n))
  }

  lemma MappingStarts(s: Phys, r: int, vpn: int, ppn: int, perm: Perm, n: nat)
    requires Ok(s) && r in s.tables
    requires vpn < TRAPFRAME ==> forall p :: ppn <= p < ppn + n ==> p in s.role
    ensures Mapping(s, s, r, vpn, ppn, perm, 0, n)
  {
    FreeOf(s);
    TouchesNothing(s, r);
    TouchesMore(s, s, r, 0, 0, {}, vpn, vpn, Mine(vpn, ppn, ppn));
  }

  /** What the next page to be mapped meets. */
  lemma MappingNext(s: Phys, t: Phys, r: int, vpn: int, ppn: int, perm: Perm, m: nat, n: nat)
    requires Mapping(s, t, r, vpn, ppn, perm, m, n) && m < n && vpn + m !in s.tables[r].flat
    ensures vpn + m !in t.tables[r].flat
    ensures ppn + m in s.role && s.role[ppn + m] == Held ==> ppn + m in t.role && t.role[ppn + m] == Held
  {
    MapRangeDomain(s.tables[r].flat, vpn, ppn, perm, m, vpn + m);
    assert ppn + m in s.role ==> PageTouch(s, t, r, ppn + m);
  }

  lemma MappingStops(s: Phys, t: Phys, u: Phys, r: int, vpn: int, ppn: int, perm: Perm, m: nat, n: nat)
    requires Mapping(s, t, r, vpn, ppn, perm, m, n) && Touches(t, u, r, 0, 0, {}) && Ok(s) && m <= n
    requires vpn < TRAPFRAME ==>
               vpn + n <= TRAPFRAME && forall p :: ppn <= p < ppn + n ==> p in s.role && s.role[p] == Held
    ensures Mapping(s, u, r, vpn, ppn, perm, m, n)
  {
    FlatSame(t, u, r);
    TouchesMore(t, u, r, 0, 0, {}, vpn, vpn + m, Mine(vpn, ppn, ppn + m));
    TouchesTwice(s, t, u, r, vpn, vpn + m, Mine(vpn, ppn, ppn + m));
    forall p | ppn <= p < ppn + n && vpn < TRAPFRAME ensures p in s.mem && p in u.mem && u.mem[p] == s.mem[p] {
      MappedIntact(s, t, u, r, vpn, ppn, perm, m, n, p, 0, 0, {});
    }
  }

  /** A page that is mapped already, or still held, keeps its contents. */
  lemma MappedIntact(s: Phys, t: Phys, u: Phys, r: int, vpn: int, ppn: int, perm: Perm, m: nat, n: nat, p: int,
                     lo: int, hi: int, mine: set<int>)
    requires Mapping(s, t, r, vpn, ppn, perm, m, n) && Touches(t, u, r, lo, hi, mine) && m <= n
    requires vpn + n <= TRAPFRAME && ppn <= p < ppn + n && p in s.role && s.role[p] == Held
    requires (lo >= hi || lo >= vpn + m) && p !in mine
    ensures p in s.mem && p in u.mem && u.mem[p] == s.mem[p]
  {
    if p < ppn + m {
      MapRangeDomain(s.tables[r].flat, vpn, ppn, perm, m, vpn + p - ppn);
      assert LeafSame(t, u, r, vpn + p - ppn);
    } else {
      assert PageTouch(s, t, r, p);
      assert PageTouch(t, u, r, p);
    }
  }

  lemma MappingGrows(s: Phys, t: Phys, u: Phys, r: int, vpn: int, ppn: int, perm: Perm, m: nat, n: nat)
    requires Mapping(s, t, r, vpn, ppn, perm, m, n)
             && Touches(t, u, r, vpn + m, vpn + m + 1, Mine(vpn, ppn + m, ppn + m + 1)) && m < n
    requires u.tables[r].flat == t.tables[r].flat[vpn + m := Pte(ppn + m, true, perm)]
    requires vpn < TRAPFRAME ==>
               vpn + n <= TRAPFRAME && forall p :: ppn <= p < ppn + n ==> p in s.role && s.role[p] == Held
    requires vpn < TRAPFRAME ==> Intact(t, u, ppn + m, ppn + m + 1)
    ensures Mapping(s, u, r, vpn, ppn, perm, m + 1, n)
  {
    TouchesMore(s, t, r, vpn, vpn + m, Mine(vpn, ppn, ppn + m), vpn, vpn + m + 1, Mine(vpn, ppn, ppn + m + 1));
    TouchesMore(t, u, r, vpn + m, vpn + m + 1, Mine(vpn, ppn + m, ppn + m + 1), vpn, vpn + m + 1,
      Mine(vpn, ppn, ppn + m + 1));
    TouchesTwice(s, t, u, r, vpn, vpn + m + 1, Mine(vpn, ppn, ppn + m + 1));
    forall p | ppn <= p < ppn + n && vpn < TRAPFRAME ensures p in s.mem && p in u.mem && u.mem[p] == s.mem[p] {
      if p != ppn + m {
        MappedIntact(s, t, u, r, vpn, ppn, perm, m, n, p, vpn + m, vpn + m + 1, Mine(vpn, ppn + m, ppn + m + 1));
      }
    }
  }

  // ---- Mapping and unmapping one page ----

  /** Every user page keeps its contents except `p`, which no table but `r` uses. */
  lemma MapTouches(s: Phys, r: int, vpn: int, e: Pte)
    requires Ok(s) && HasSlot(s, r, vpn) && vpn !in s.tables[r].flat
    requires e.v && Grants(e.perm) && (vpn < TRAPFRAME ==> e.ppn in s.role && s.role[e.ppn] == Held)
    ensures Touches(s, Mapped(s, r, vpn, e, LeafTable(s, r, vpn)), r, vpn, vpn + 1, Mine(vpn, e.ppn, e.ppn + 1))
  {
    var s' := Mapped(s, r, vpn, e, LeafTable(s, r, vpn));
    FreeOf(s);
    TreeOf(s, r);
    SlotOf(s.mem, s.role, s.tables[r], r, vpn);
    forall v | v != vpn ensures LeafSame(s, s', r, v) {
      if v in s.tables[r].flat { SlotRoles(s, r, v); }
    }
  }

  lemma HeldSame(s: Phys, t: Phys, r: int, p: int)
    requires Touches(s, t, r, 0, 0, {}) && p in s.role && s.role[p] == Held
    ensures SamePage(s, t, p)
  {
    assert PageTouch(s, t, r, p);
  }

  /** Finding the slot and writing it, together. */
  lemma MapAfterWalk(s: Phys, t: Phys, r: int, vpn: int, e: Pte)
    requires Touches(s, t, r, 0, 0, {}) && Ok(t) && HasSlot(t, r, vpn) && vpn !in t.tables[r].flat
    requires e.v && Grants(e.perm) && (vpn < TRAPFRAME ==> e.ppn in t.role && t.role[e.ppn] == Held)
    ensures var q := LeafTable(t, r, vpn);
            && t.mem[q].Table? && |t.mem[q].entries| == FANOUT && q in t.role && t.role[q] != Held
            && Ok(Mapped(t, r, vpn, e, q))
            && Touches(s, Mapped(t, r, vpn, e, q), r, vpn, vpn + 1, Mine(vpn, e.ppn, e.ppn + 1))
  {
    TreeOf(t, r);
    SlotOf(t.mem, t.role, t.tables[r], r, vpn);
    MapKeepsOk(t, r, vpn, e);
    MapTouches(t, r, vpn, e);
    TouchesMore(s, t, r, 0, 0, {}, vpn, vpn + 1, Mine(vpn, e.ppn, e.ppn + 1));
    TouchesTwice(s, t, Mapped(t, r, vpn, e, LeafTable(t, r, vpn)), r, vpn, vpn + 1, Mine(vpn, e.ppn, e.ppn + 1));
  }

  /** The roles after unmapping virtual pages [lo, hi) of `r` and freeing the pages behind them. */
  ghost predicate Returned(s: Phys, s': Phys, r: int, lo: int, hi: int) {
    && s'.role.Keys == s.role.Keys
    && forall p :: p in s.role ==> s'.role[p] == (if InRange(s.role[p], r, lo, hi) then Free else s.role[p])
  }

  predicate InRange(role: Role, r: int, lo: int, hi: int) { role.User? && role.r == r && lo <= role.vpn < hi }

  /** The state in which the pages of a mapping about to be removed have been dealt with. */
  ghost predicate Disposed(s: Phys, t: Phys, r: int, vpn: int)
    requires r in s.tables && vpn in s.tables[r].flat
  {
    && t.tables == s.tables && FreeOk(t.mem, t.free, t.role)
    && if vpn < TRAPFRAME then
         t.mem == s.mem[s.tables[r].flat[vpn].ppn := Filled(1)] && t.role == s.role[s.tables[r].flat[vpn].ppn := Free]
       else t.mem == s.mem && t.role == s.role
  }

  /** ... and in which the slot has then been cleared. */
  function Cleared(t: Phys, r: int, vpn: int, q: int): Phys
    requires r in t.tables && q in t.mem
  {
    t.(mem := t.mem[q := SlotPage(t.mem[q], vpn, ZERO)], tables := t.tables[r := Updated(t.tables[r], vpn, ZERO)])
  }

  lemma UnmapFacts(s: Phys, r: int, vpn: int)
    requires Ok(s) && r in s.tables && vpn in s.tables[r].flat
    ensures HasSlot(s, r, vpn) && s.role.Keys <= s.mem.Keys
    ensures LeafTable(s, r, vpn) in s.role && s.role[LeafTable(s, r, vpn)] == Node(r, NodeFor(0, vpn))
    ensures var p := s.tables[r].flat[vpn].ppn;
            vpn < TRAPFRAME ==>
              && p in s.role && s.role[p] == User(r, vpn)
              && forall q :: q in s.role && s.role[q] == User(r, vpn) ==> q == p
  {
    FreeOf(s);
    SlotRoles(s, r, vpn);
    TreeOf(s, r);
    SlotOf(s.mem, s.role, s.tables[r], r, vpn);
  }

  lemma ClearedOk(s: Phys, t: Phys, r: int, vpn: int)
    requires Ok(s) && r in s.tables && vpn in s.tables[r].flat && Disposed(s, t, r, vpn)
    ensures HasSlot(s, r, vpn) && LeafTable(s, r, vpn) in t.mem
    ensures Ok(Cleared(t, r, vpn, LeafTable(s, r, vpn)))
  {
    UnmapFacts(s, r, vpn);
    var s' := Cleared(t, r, vpn, LeafTable(s, r, vpn));
    SameFree(t.mem, s'.mem, t.free, t.role, t.role);
    UnmapKeepsOk(s, s', r, vpn);
  }

  lemma ClearedReturns(s: Phys, t: Phys, r: int, vpn: int)
    requires Ok(s) && r in s.tables && vpn in s.tables[r].flat && Disposed(s, t, r, vpn)
    ensures Returned(s, t, r, vpn, if vpn < TRAPFRAME then vpn + 1 else vpn)
  {
    UnmapFacts(s, r, vpn);
  }

  lemma ClearedTouches(s: Phys, t: Phys, r: int, vpn: int)
    requires Ok(s) && r in s.tables && vpn in s.tables[r].flat && Disposed(s, t, r, vpn)
    requires HasSlot(s, r, vpn) && LeafTable(s, r, vpn) in t.mem
    ensures Touches(s, Cleared(t, r, vpn, LeafTable(s, r, vpn)), r, vpn, vpn + 1, {})
  {
    UnmapFacts(s, r, vpn);
    var s' := Cleared(t, r, vpn, LeafTable(s, r, vpn));
    forall v | v != vpn ensures LeafSame(s, s', r, v) {
      if v in s.tables[r].flat { SlotRoles(s, r, v); }
    }
  }

  lemma ReturnedTwice(s: Phys, t: Phys, u: Phys, r: int, lo: int, mid: int, hi: int)
    requires lo <= mid <= hi && Returned(s, t, r, lo, mid) && Returned(t, u, r, mid, hi)
    ensures Returned(s, u, r, lo, hi)
  {
  }

  /** A page that is not mapped has no user page to return. */
  lemma NothingToReturn(s: Phys, r: int, vpn: int)
    requires Ok(s) && r in s.tables && vpn !in s.tables[r].flat
    ensures Returned(s, s, r, vpn, vpn + 1)
  {
    forall p | p in s.role ensures !InRange(s.role[p], r, vpn, vpn + 1) {
      RoleOf(s, p);
    }
  }

  // ---- A fresh page for one virtual page ----

  lemma OnePage(s: Phys, t: Phys, r: int, vpn: int, p: int, perm: Perm, m: nat)
    requires Mapping(s, t, r, vpn, p, perm, m, 1) && m <= 1 && vpn < TRAPFRAME
    ensures Touches(s, t, r, vpn, vpn + m, {p}) && p in s.mem && p in t.mem && t.mem[p] == s.mem[p]
    ensures t.tables[r].flat == if m == 1 then s.tables[r].flat[vpn := Pte(p, true, perm)] else s.tables[r].flat
  {
    TouchesMore(s, t, r, vpn, vpn + m, Mine(vpn, p, p + m), vpn, vpn + m, {p});
    var flat := s.tables[r].flat;
    assert MapRange(flat, vpn, p, perm, 1) == MapRange(flat, vpn, p, perm, 0)[vpn := Pte(p, true, perm)];
  }

  /** Taking a page, filling it and failing or succeeding to map it, seen from the start. */
  lemma FreshTouches(s: Phys, s1: Phys, s2: Phys, s3: Phys, r: int, vpn: int, p: int, m: nat)
    requires Ok(s) && Ok(s1) && r in s.tables && p in s.role && s.role[p] == Free
    requires s1.tables == s.tables && s1.role == s.role[p := Held] && p in s1.mem && s1.mem == s.mem[p := s1.mem[p]]
    requires s2.tables == s1.tables && s2.role == s1.role && p in s2.mem && s2.mem == s1.mem[p := s2.mem[p]]
    requires Touches(s2, s3, r, vpn, vpn + m, {p})
    ensures Touches(s, s3, r, vpn, vpn + m, {p})
  {
    LooseTouches(s, s1, r, p);
    LooseTouches(s1, s2, r, p);
    TouchesTwice(s, s1, s2, r, 0, 0, {p});
    TouchesMore(s, s2, r, 0, 0, {p}, vpn, vpn + m, {p});
    TouchesTwice(s, s2, s3, r, vpn, vpn + m, {p});
  }

  // ---- Growing a user address space ----

  /** PTE_R | PTE_U | xperm. */
  function UserPerm(xperm: Perm): Perm { xperm.(r := true, u := true) }

  /** Virtual page `v` is mapped with `perm` to a page full of zeros. */
  ghost predicate ZeroPage(s: Phys, r: int, v: int, perm: Perm)
    requires r in s.tables
  {
    var flat := s.tables[r].flat;
    v in flat && flat[v].perm == perm && flat[v].ppn in s.mem && s.mem[flat[v].ppn] == Filled(0)
  }

  lemma GrowsByOne(s: Phys, t: Phys, u: Phys, r: int, lo: int, m: nat, perm: Perm)
    requires Touches(s, t, r, lo, lo + m, {}) && Touches(t, u, r, lo + m, lo + m + 1, {})
    requires lo + m < TRAPFRAME && (forall v :: lo <= v < lo + m ==> ZeroPage(t, r, v, perm))
             && ZeroPage(u, r, lo + m, perm)
    ensures Touches(s, u, r, lo, lo + m + 1, {}) && forall v :: lo <= v < lo + m + 1 ==> ZeroPage(u, r, v, perm)
  {
    TouchesMore(s, t, r, lo, lo + m, {}, lo, lo + m + 1, {});
    TouchesMore(t, u, r, lo + m, lo + m + 1, {}, lo, lo + m + 1, {});
    TouchesTwice(s, t, u, r, lo, lo + m + 1, {});
    forall v | lo <= v < lo + m + 1 ensures ZeroPage(u, r, v, perm) {
      if v < lo + m {
        assert ZeroPage(t, r, v, perm);
        assert LeafSame(t, u, r, v);
      }
    }
  }

  /** Unmapping what was mapped brings the user map back. */
  lemma Restored(s: Phys, u: Phys, r: int, lo: int, hi: int)
    requires Touches(s, u, r, lo, hi, {})
    requires forall v :: lo <= v < hi ==> v !in s.tables[r].flat && v !in u.tables[r].flat
    ensures Touches(s, u, r, 0, 0, {})
  {
    forall v ensures LeafSame(s, u, r, v) {
      assert v < lo || v >= hi || (v !in s.tables[r].flat && v !in u.tables[r].flat);
    }
  }

  // ---- Copying an address space ----

  /** Virtual page `v` is mapped in the copy exactly if it is in the original, with the same rights and contents. */
  ghost predicate CopyOk(s: Phys, t: Phys, src: int, dst: int, v: int)
    requires src in s.tables && dst in t.tables
  {
    var flat, flat' := s.tables[src].flat, t.tables[dst].flat;
    && (v in flat <==> v in flat')
    && (v in flat ==> flat'[v].perm == flat[v].perm && flat[v].ppn in s.mem && flat'[v].ppn in t.mem
                      && t.mem[flat'[v].ppn] == s.mem[flat[v].ppn])
  }

  lemma LeafGrants(s: Phys, r: int, vpn: int)
    requires Ok(s) && r in s.tables && vpn in s.tables[r].flat
    ensures Grants(s.tables[r].flat[vpn].perm)
  {
    SlotRoles(s, r, vpn);
    TreeOf(s, r);
    assert NodeOk(s.mem, s.role, s.tables[r], r, NodeFor(0, vpn));
    var page := s.mem[s.tables[r].node[NodeFor(0, vpn)]];
    assert EntryOk(page.entries[vpn % FANOUT], s.tables[r], NodeFor(0, vpn), vpn % FANOUT);
  }

  /** An operation on one table leaves the pages of another as they are. */
  lemma OtherLeaf(s: Phys, t: Phys, src: int, dst: int, v: int)
    requires Ok(s) && Touches(s, t, dst, 1, v, {}) && src in s.tables && src != dst && v in s.tables[src].flat
             && v < TRAPFRAME
    ensures src in t.tables && t.tables[src] == s.tables[src]
    ensures var p := s.tables[src].flat[v].ppn; p in s.mem && p in t.mem && t.mem[p] == s.mem[p]
  {
    SlotRoles(s, src, v);
    assert PageTouch(s, t, dst, s.tables[src].flat[v].ppn);
  }

  /** Copying goes on to the next page, which was mapped or skipped. */
  lemma CopyNext(s: Phys, t: Phys, u: Phys, src: int, dst: int, m: nat)
    requires src in s.tables && Touches(s, t, dst, 1, m, {}) && Touches(t, u, dst, m, m + 1, {}) && 1 <= m < TRAPFRAME
    requires (forall v :: 1 <= v < m ==> CopyOk(s, t, src, dst, v)) && CopyOk(s, u, src, dst, m)
    ensures Touches(s, u, dst, 1, m + 1, {}) && forall v :: 1 <= v < m + 1 ==> CopyOk(s, u, src, dst, v)
  {
    TouchesMore(s, t, dst, 1, m, {}, 1, m + 1, {});
    TouchesMore(t, u, dst, m, m + 1, {}, 1, m + 1, {});
    TouchesTwice(s, t, u, dst, 1, m + 1, {});
    forall v | 1 <= v < m + 1 ensures CopyOk(s, u, src, dst, v) {
      if v < m {
        assert CopyOk(s, t, src, dst, v);
        assert LeafSame(t, u, dst, v);
      }
    }
  }

  // ---- Freeing table pages ----

  predicate Under(a: At, at: At) { a == at || Parent(a) == at || Parent(Parent(a)) == at }

  /** Properly below `at`, in one of the first `i` entries. */
  predicate Before(a: At, at: At, i: int) {
    (Parent(a) == at && a.key % FANOUT < i) || (Parent(Parent(a)) == at && Parent(a).key % FANOUT < i)
  }

  predicate UnderRole(role: Role, r: int, at: At) { role.Node? && role.r == r && Under(role.at, at) }

  predicate BeforeRole(role: Role, r: int, at: At, i: int) { role.Node? && role.r == r && Before(role.at, at, i) }

  /** The part of table `r` below `at` is intact, and holds no leaves. */
  ghost predicate Subtree(mem: map<int, Page>, role: map<int, Role>, tree: Tree, r: int, at: At) {
    && at in tree.node && NoLeaves(tree)
    && (forall a :: a in tree.node ==> PlaceOk(tree.node, a))
    && (forall a :: a in tree.node && Under(a, at) ==> NodeOk(mem, role, tree, r, a))
    && (forall p :: p in role && role[p].Node? && role[p].r == r ==>
          role[p].at in tree.node && tree.node[role[p].at] == p)
  }

  ghost predicate Unchanged(mem: map<int, Page>, role: map<int, Role>, mem': map<int, Page>, role': map<int, Role>,
                            p: int)
    requires p in role
  {
    p in role' && role'[p] == role[p] && p in mem && p in mem' && mem'[p] == mem[p]
  }

  ghost predicate FreedPage(mem: map<int, Page>, role: map<int, Role>, mem': map<int, Page>, role': map<int, Role>,
                            r: int, at: At, p: int)
    requires p in role
  {
    if UnderRole(role[p], r, at) then p in role' && role'[p] == Free else Unchanged(mem, role, mem', role', p)
  }

  /** Exactly the table pages at and below `at` have been freed. */
  ghost predicate FreedBelow(mem: map<int, Page>, role: map<int, Role>, mem': map<int, Page>, role': map<int, Role>,
                             r: int, at: At) {
    role'.Keys == role.Keys && forall p :: p in role ==> FreedPage(mem, role, mem', role', r, at, p)
  }

  ghost predicate PassedPage(mem: map<int, Page>, role: map<int, Role>, mem': map<int, Page>, role': map<int, Role>,
                             r: int, at: At, page: int, i: int, p: int)
    requires p in role
  {
    if BeforeRole(role[p], r, at, i) then p in role' && role'[p] == Free
    else if p == page then p in role' && role'[p] == role[p]
    else Unchanged(mem, role, mem', role', p)
  }

  /** ... and here those below its first `i` entries, which are now clear. */
  ghost predicate Passed(mem: map<int, Page>, role: map<int, Role>, mem': map<int, Page>, role': map<int, Role>,
                         r: int, at: At, page: int, i: nat) {
    && role'.Keys == role.Keys && page in mem && mem[page].Table? && page in mem' && mem'[page].Table?
    && |mem[page].entries| == |mem'[page].entries| == FANOUT
    && (forall j :: i <= j < FANOUT ==> mem'[page].entries[j] == mem[page].entries[j])
    && (forall p :: p in role ==> PassedPage(mem, role, mem', role', r, at, page, i, p))
  }

  lemma UnderChild(a: At, at: At, i: int)
    requires 0 <= i < FANOUT && 0 <= a.level && at.level <= 2
    ensures Under(a, Child(at, i)) <==> Before(a, at, i + 1) && !Before(a, at, i)
    ensures Under(a, Child(at, i)) ==> Under(a, at) && a != at
  {
    ParentOfChild(at, i);
    ChildOfParent(a);
    ChildOfParent(Parent(a));
  }

  lemma ChildSubtree(mem: map<int, Page>, role: map<int, Role>, mem': map<int, Page>, role': map<int, Role>,
                     tree: Tree, r: int, at: At, page: int, i: int)
    requires Subtree(mem, role, tree, r, at) && page == tree.node[at] && 0 <= i < FANOUT && Child(at, i) in tree.node
    requires Passed(mem, role, mem', role', r, at, page, i)
    ensures Subtree(mem', role', tree, r, Child(at, i))
  {
    forall a | a in tree.node && Under(a, Child(at, i)) ensures NodeOk(mem', role', tree, r, a) {
      assert PlaceOk(tree.node, a) && PlaceOk(tree.node, at);
      UnderChild(a, at, i);
      assert NodeOk(mem, role, tree, r, a) && NodeOk(mem, role, tree, r, at);
      assert PassedPage(mem, role, mem', role', r, at, page, i, tree.node[a]);
    }
    forall p | p in role' && role'[p].Node? && role'[p].r == r
      ensures role'[p].at in tree.node && tree.node[role'[p].at] == p
    {
      assert PassedPage(mem, role, mem', role', r, at, page, i, p);
    }
  }

  /** Freeing the child in entry `i` and clearing the entry. */
  lemma PassChild(mem: map<int, Page>, role: map<int, Role>, mem1: map<int, Page>, role1: map<int, Role>,
                  mem2: map<int, Page>, role2: map<int, Role>, tree: Tree, r: int, at: At, page: int, i: int)
    requires Subtree(mem, role, tree, r, at) && page == tree.node[at] && 0 <= i < FANOUT
    requires Passed(mem, role, mem1, role1, r, at, page, i) && FreedBelow(mem1, role1, mem2, role2, r, Child(at, i))
    ensures page in mem2 && mem2[page].Table? && |mem2[page].entries| == FANOUT
    ensures Passed(mem, role, mem2[page := Table(mem2[page].entries[i := ZERO])], role2, r, at, page, i + 1)
  {
    assert PlaceOk(tree.node, at) && NodeOk(mem, role, tree, r, at);
    UnderChild(at, at, i);
    assert PassedPage(mem, role, mem1, role1, r, at, page, i, page);
    assert FreedPage(mem1, role1, mem2, role2, r, Child(at, i), page);
    var mem3 := mem2[page := Table(mem2[page].entries[i := ZERO])];
    forall p | p in role ensures PassedPage(mem, role, mem3, role2, r, at, page, i + 1, p) {
      assert PassedPage(mem, role, mem1, role1, r, at, page, i, p);
      assert FreedPage(mem1, role1, mem2, role2, r, Child(at, i), p);
      if role[p].Node? && role[p].r == r {
        assert PlaceOk(tree.node, role[p].at);
        UnderChild(role[p].at, at, i);
      }
    }
  }

  /** An entry that is not valid has no table pages below it. */
  lemma PassNothing(mem: map<int, Page>, role: map<int, Role>, mem1: map<int, Page>, role1: map<int, Role>,
                    tree: Tree, r: int, at: At, page: int, i: int)
    requires Subtree(mem, role, tree, r, at) && page == tree.node[at] && 0 <= i < FANOUT && Child(at, i) !in tree.node
    requires Passed(mem, role, mem1, role1, r, at, page, i)
    ensures Passed(mem, role, mem1, role1, r, at, page, i + 1)
  {
    assert PlaceOk(tree.node, at);
    forall p | p in role ensures PassedPage(mem, role, mem1, role1, r, at, page, i + 1, p) {
      assert PassedPage(mem, role, mem1, role1, r, at, page, i, p);
      if role[p].Node? && role[p].r == r {
        assert PlaceOk(tree.node, role[p].at);
        UnderChild(role[p].at, at, i);
      }
    }
  }

  /** What is left when all entries have been passed and the page itself is freed. */
  lemma PassAll(mem: map<int, Page>, role: map<int, Role>, mem1: map<int, Page>, role1: map<int, Role>,
                page': Page, tree: Tree, r: int, at: At, page: int)
    requires Subtree(mem, role, tree, r, at) && page == tree.node[at]
             && Passed(mem, role, mem1, role1, r, at, page, FANOUT)
    ensures FreedBelow(mem, role, mem1[page := page'], role1[page := Free], r, at)
  {
    assert PlaceOk(tree.node, at) && NodeOk(mem, role, tree, r, at);
    forall p | p in role ensures FreedPage(mem, role, mem1[page := page'], role1[page := Free], r, at, p) {
      assert PassedPage(mem, role, mem1, role1, r, at, page, FANOUT, p);
    }
  }

  /** No table page has been freed yet. */
  lemma PassStarts(mem: map<int, Page>, free: seq<int>, role: map<int, Role>, tree: Tree, r: int, at: At, page: int)
    requires Subtree(mem, role, tree, r, at) && page == tree.node[at] && FreeOk(mem, free, role)
    ensures Passed(mem, role, mem, role, r, at, page, 0)
  {
    assert PlaceOk(tree.node, at) && NodeOk(mem, role, tree, r, at);
  }

  /** A table without leaves is ready for `freewalk`. */
  lemma EmptyTable(s: Phys, r: int)
    requires Ok(s) && r in s.tables && NoLeaves(s.tables[r])
    ensures Subtree(s.mem, s.role, s.tables[r], r, ROOT)
  {
    TreeOf(s, r);
    forall a | a in s.tables[r].node ensures PlaceOk(s.tables[r].node, a) {
      assert NodeOk(s.mem, s.role, s.tables[r], r, a);
    }
    forall p | p in s.role && s.role[p].Node? && s.role[p].r == r
      ensures s.role[p].at in s.tables[r].node && s.tables[r].node[s.role[p].at] == p
    {
      RoleOf(s, p);
    }
  }

  lemma FreedIsDropped(s: Phys, t: Phys, r: int)
    requires Ok(s) && r in s.tables && NoLeaves(s.tables[r]) && t.tables == s.tables - {r}
    requires FreedBelow(s.mem, s.role, t.mem, t.role, r, ROOT) && FreeOk(t.mem, t.free, t.role)
    ensures Ok(t) && DroppedFrom(s, t, r)
  {
    EmptyTable(s, r);
    forall p | p in s.role ensures Of(s.role[p], r) <==> UnderRole(s.role[p], r, ROOT) {
      RoleOf(s, p);
      if s.role[p].Node? && s.role[p].r == r { UnderRoot(s.tables[r].node, s.role[p].at); }
    }
    forall p | p in s.role ensures DroppedPage(s, t, r, p) {
      assert FreedPage(s.mem, s.role, t.mem, t.role, r, ROOT, p);
    }
    DropKeepsOk(s, t, r);
  }

  /** Every table page is below the root. */
  lemma UnderRoot(node: map<At, int>, a: At)
    requires a in node && forall b :: b in node ==> PlaceOk(node, b)
    ensures Under(a, ROOT)
  {
    assert PlaceOk(node, a);
    if a.level == 1 { assert PlaceOk(node, Parent(a)); }
    if a.level == 0 { assert PlaceOk(node, Parent(a)) && PlaceOk(node, Parent(Parent(a))); }
  }

  /** Unmapping first: what was touched and then dropped was all of `r`. */
  lemma TouchThenFreed(s: Phys, t: Phys, u: Phys, r: int, lo: int, hi: int)
    requires Touches(s, t, r, lo, hi, {}) && DroppedFrom(t, u, r)
    ensures DroppedFrom(s, u, r)
  {
    forall p | p in s.role ensures DroppedPage(s, u, r, p) {
      assert PageTouch(s, t, r, p) && DroppedPage(t, u, r, p);
    }
  }

  ghost predicate DroppedPage(s: Phys, u: Phys, r: int, p: int)
    requires p in s.role
  {
    p in u.role && if Foreign(s.role[p], r) then SamePage(s, u, p) else u.role[p] == Free
  }

  /** The table of `r` is gone, every page of it is free, and no other page has changed. */
  ghost predicate DroppedFrom(s: Phys, u: Phys, r: int) {
    u.tables == s.tables - {r} && u.role.Keys == s.role.Keys && forall p :: p in s.role ==> DroppedPage(s, u, r, p)
  }

  /** Only virtual pages below `n`, the trapframe and the trampoline are mapped. */
  ghost predicate MapsOnly(s: Phys, r: int, n: int)
    requires r in s.tables
  {
    forall v :: v in s.tables[r].flat ==> 0 <= v < n || v == TRAPFRAME || v == TRAMPOLINE
  }

  /** Everything is as it was, except that free pages may hold other bytes. */
  ghost predicate BackTo(s: Phys, u: Phys) {
    && u.tables == s.tables && u.role.Keys == s.role.Keys
    && forall p :: p in s.role ==> u.role[p] == s.role[p] && (!s.role[p].Free? ==> SamePage(s, u, p))
  }

  /** The state just after `uvmcreate` has taken page `r` for an empty table. */
  ghost predicate Created(s: Phys, t: Phys, r: int) {
    && r in s.role && s.role[r] == Free && r !in s.tables && t.tables == s.tables[r := Tree(map[ROOT := r], map[])]
    && t.role == s.role[r := Node(r, ROOT)]
    && forall p :: p in s.role && p != r ==> SamePage(s, t, p)
  }

  /** A new table `r` has been made of free pages, and nothing else has changed. */
  ghost predicate Spawned(s: Phys, t: Phys, r: int) {
    && r !in s.tables && r in t.tables && t.tables - {r} == s.tables && t.role.Keys == s.role.Keys
    && forall p :: p in s.role ==> SpawnedPage(s, t, r, p)
  }

  ghost predicate SpawnedPage(s: Phys, t: Phys, r: int, p: int)
    requires p in s.role
  {
    p in t.role && if s.role[p].Free? then !Foreign(t.role[p], r) else SamePage(s, t, p) && Foreign(t.role[p], r)
  }

  lemma CreatedIsSpawned(s: Phys, t: Phys, r: int)
    requires Ok(s) && Created(s, t, r)
    ensures Spawned(s, t, r)
  {
    forall p | p in s.role ensures SpawnedPage(s, t, r, p) { RoleOf(s, p); }
  }

  lemma SpawnedThenTouched(s: Phys, t: Phys, u: Phys, r: int, lo: int, hi: int)
    requires Spawned(s, t, r) && Touches(t, u, r, lo, hi, {})
    ensures Spawned(s, u, r)
  {
    forall p | p in s.role ensures SpawnedPage(s, u, r, p) {
      assert SpawnedPage(s, t, r, p) && PageTouch(t, u, r, p);
    }
  }

  /** A table that is created, used and dropped leaves no trace. */
  lemma NoTrace(s: Phys, t: Phys, u: Phys, r: int)
    requires Spawned(s, t, r) && DroppedFrom(t, u, r)
    ensures BackTo(s, u)
  {
    forall p | p in s.role ensures u.role[p] == s.role[p] && (!s.role[p].Free? ==> SamePage(s, u, p)) {
      assert SpawnedPage(s, t, r, p) && DroppedPage(t, u, r, p);
    }
  }

  /** The two mappings every process table starts with. */
  function KernelPages(trampoline: int, trapframe: int): map<int, Pte> {
    map[TRAMPOLINE := Pte(trampoline, true, Perm(true, false, true, false, 0)),
        TRAPFRAME := Pte(trapframe, true, Perm(true, true, false, false, 0))]
  }

  lemma StoreTouches(s: Phys, r: int, vpn: int, page: Page)
    requires Ok(s) && r in s.tables && vpn in s.tables[r].flat && vpn < TRAPFRAME
    ensures Touches(s, s.(mem := s.mem[s.tables[r].flat[vpn].ppn := page]), r, vpn, vpn + 1, {})
  {
    var p := s.tables[r].flat[vpn].ppn;
    var t := s.(mem := s.mem[p := page]);
    TouchesNothing(s, r);
    SlotRoles(s, r, vpn);
    assert t.tables == s.tables[r := t.tables[r]];
    forall q | q in s.role ensures PageTouch(s, t, r, q) { assert PageTouch(s, s, r, q); }
    forall v | v < vpn || v >= vpn + 1 ensures LeafSame(s, t, r, v) {
      assert LeafSame(s, s, r, v);
      if v in s.tables[r].flat { SlotRoles(s, r, v); }
    }
  }

  /**
   * Table pages for page `vpn`, and `extra` pages besides, have been taken from the
   * free list, or there were too few of them.
   */
  ghost predicate Took(s: Phys, t: Phys, r: int, vpn: int, extra: nat, ok: bool) {
    && r in s.tables && r in t.tables
    && (ok <==> |s.free| >= extra + Missing(s.tables[r].node.Keys, vpn))
    && (ok ==> |t.free| == |s.free| - extra - Missing(s.tables[r].node.Keys, vpn))
    && (ok ==> t.tables[r].node.Keys == s.tables[r].node.Keys + Path(vpn))
  }

  /** The pages between two sizes. */
  function PagesBetween(oldsz: int, newsz: int): nat {
    var n := RoundUp(newsz) / PGSIZE - RoundUp(oldsz) / PGSIZE;
    if n > 0 then n else 0
  }

  lemma PageCount(oldsz: int, newsz: int)
    requires oldsz <= newsz
    ensures RoundUp(newsz) / PGSIZE == RoundUp(oldsz) / PGSIZE + PagesBetween(oldsz, newsz)
    ensures RoundUp(oldsz) == RoundUp(oldsz) / PGSIZE * PGSIZE
  {
  }

  /** The loop from the first page up to `sz` reaches every page below RoundUp(sz) / PGSIZE. */
  lemma PageLeft(v: int, sz: int)
    ensures v * PGSIZE < sz <==> v < RoundUp(sz) / PGSIZE
  {
  }

  /** The same for the `n` pages from `lo` on, all of them new. */
  ghost predicate TookAll(s: Phys, t: Phys, r: int, lo: int, n: nat, ok: bool) {
    TookThose(s, t, r, Span(lo, n), lo, n, ok)
  }

  /** The same for those of the `n` pages from `lo` on that are in `want`. */
  ghost predicate TookThose(s: Phys, t: Phys, r: int, want: set<int>, lo: int, n: nat, ok: bool) {
    && r in s.tables && r in t.tables
    && (ok <==> |s.free| >= Needed(s.tables[r].node.Keys, want, lo, n))
    && (ok ==> |t.free| == |s.free| - Needed(s.tables[r].node.Keys, want, lo, n))
  }

  /** After `m` of the pages, what is free and what is still needed differ as at the start. */
  ghost predicate Books(s: Phys, t: Phys, r: int, want: set<int>, lo: int, n: nat, m: nat) {
    && r in s.tables && r in t.tables && m <= n
    && |t.free| + Needed(s.tables[r].node.Keys, want, lo, n)
       == |s.free| + Needed(t.tables[r].node.Keys, want, lo + m, n - m)
  }

  lemma TookNext(s: Phys, t: Phys, u: Phys, r: int, want: set<int>, lo: int, n: nat, m: nat, ok: bool)
    requires Books(s, t, r, want, lo, n, m) && m < n && lo + m in want && Took(t, u, r, lo + m, 1, ok)
    ensures ok ==> Books(s, u, r, want, lo, n, m + 1)
    ensures !ok ==> |s.free| < Needed(s.tables[r].node.Keys, want, lo, n)
  {
  }

  /** The table pages of a table that maps only the trampoline and the trapframe. */
  function KernelNodes(): set<At> { {ROOT} + Path(TRAMPOLINE) }

  lemma KernelPath()
    ensures Path(TRAPFRAME) == Path(TRAMPOLINE) && Missing({ROOT}, TRAMPOLINE) == 2
            && Missing(KernelNodes(), TRAPFRAME) == 0
    ensures KernelNodes() + Path(TRAPFRAME) == KernelNodes()
  {
  }

  class Memory {
    var mem: map<int, Page>
    var free: seq<int>
    ghost var tables: map<int, Tree>
    ghost var role: map<int, Role>

    ghost function S(): Phys
      reads this
    {
      Phys(mem, free, tables, role)
    }

    ghost predicate Valid()
      reads this
    {
      Ok(S())
    }

    /** `kfree`. */
    method Kfree(p: int)
      requires FreeOk(mem, free, role) && p in role && role[p] != Free
      modifies this`mem, this`free, this`role
      ensures FreeOk(mem, free, role) && free == [p] + old(free)
      ensures mem == old(mem)[p := Filled(1)] && role == old(role)[p := Free]
    {
      PutFree(mem, free, role, p, Filled(1));
      mem := mem[p := Filled(1)];
      free := [p] + free;
      role := role[p := Free];
    }

    /** `kinit` and `freerange`: hand all pages from `lo` up to `hi` to the allocator. */
    constructor (lo: int, hi: int)
      requires lo <= hi
      ensures Valid() && tables == map[]
      ensures forall p :: p in role <==> lo <= p < hi
      ensures forall p :: p in role ==> role[p] == Free
      ensures |free| == hi - lo
    {
      mem := Uniform(lo, hi, Filled(5));
      free := [];
      tables := map[];
      role := Uniform(lo, hi, Held);
      new;
      var p := lo;
      while p < hi
        invariant lo <= p <= hi && tables == map[] && FreeOk(mem, free, role) && |free| == p - lo
        invariant forall q :: q in role <==> lo <= q < hi
        invariant forall q :: q in role ==> role[q] == if q < p then Free else Held
      {
        Kfree(p);
        p := p + 1;
      }
      Fold(S());
    }

    /** `kalloc`. */
    method Kalloc() returns (p: Option<int>)
      requires Valid()
      modifies this`mem, this`free, this`role
      ensures Valid()
      ensures p.None? <==> old(free) == []
      ensures p.None? ==> S() == old(S())
      ensures p.Some? ==> p.value in old(role) && old(role)[p.value] == Free && role == old(role)[p.value := Held]
      ensures p.Some? ==> mem == old(mem)[p.value := Filled(5)] && free == old(free)[1..]
    {
      if free == [] {
        return None;
      }
      ghost var s := S();
      FreeOf(s);
      TakeFree(mem, free, role, Filled(5));
      p := Some(free[0]);
      mem := mem[free[0] := Filled(5)];
      role := role[free[0] := Held];
      free := free[1..];
      LoosePage(s, S(), p.value);
    }

    /** `kfree` of a page the caller holds. */
    method Release(p: int)
      requires Valid() && p in role && role[p] == Held
      modifies this`mem, this`free, this`role
      ensures Valid() && free == [p] + old(free)
      ensures mem == old(mem)[p := Filled(1)] && role == old(role)[p := Free]
    {
      ghost var s := S();
      FreeOf(s);
      Kfree(p);
      LoosePage(s, S(), p);
    }

    /** `memset` or `memmove` to a page the caller holds. */
    method Fill(p: int, page: Page)
      requires Valid() && p in role && role[p] == Held
      modifies this`mem
      ensures Valid() && mem == old(mem)[p := page]
    {
      ghost var s := S();
      FreeOf(s);
      mem := mem[p := page];
      SameFree(s.mem, mem, free, role, role);
      LoosePage(s, S(), p);
    }

    /** The body of `walk` that allocates a table page for entry `j` of the page at `at`. */
    method Extend(ghost r: int, ghost at: At, q: int, j: int) returns (p: Option<int>)
      requires Valid() && r in tables && at in tables[r].node && q == tables[r].node[at]
      requires at.level > 0 && 0 <= j < FANOUT && Child(at, j) !in tables[r].node
      modifies this
      ensures Valid() && Touches(old(S()), S(), r, 0, 0, {})
      ensures p.None? ==> S() == old(S()) && free == []
      ensures p.Some? ==> tables[r].node == old(tables[r].node)[Child(at, j) := p.value] && |free| == |old(free)| - 1
    {
      ghost var s := S();
      p := Kalloc();
      if p == None {
        TouchesNothing(s, r);
        return;
      }
      ghost var s1 := S();
      LooseTouches(s, s1, r, p.value);
      Fill(p.value, Table(EMPTY));
      ghost var s2 := S();
      LooseTouches(s1, s2, r, p.value);
      TouchesTwice(s, s1, s2, r, 0, 0, {p.value});
      EntryAt(s2, r, at, j);
      LinkKeepsOk(s2, r, at, j, p.value);
      LinkTouches(s2, r, at, j, p.value);
      mem := mem[q := Table(mem[q].entries[j := Pte(p.value, true, NOPERM)])];
      tables := tables[r := Linked(tables[r], at, j, p.value)];
      role := role[p.value := Node(r, Child(at, j))];
      TouchesTwice(s, s2, S(), r, 0, 0, {p.value});
      Absorb(s, S(), r, 0, 0, p.value);
    }

    /** `walk`: the page and index of the leaf slot for address `va`. */
    method Walk(r: int, va: int, alloc: bool) returns (slot: Option<(int, int)>)
      requires Valid() && r in tables && 0 <= va && va / PGSIZE < MAXVPN
      modifies this
      ensures Valid() && Touches(old(S()), S(), r, 0, 0, {})
      ensures !alloc ==> S() == old(S())
      ensures slot.Some? ==> HasSlot(S(), r, va / PGSIZE)
                             && slot.value == (LeafTable(S(), r, va / PGSIZE), (va / PGSIZE) % FANOUT)
      ensures slot.None? ==> NodeFor(0, va / PGSIZE) !in tables[r].node && va / PGSIZE !in tables[r].flat
      ensures slot.None? && alloc ==> free == []
      // With allocation it fails exactly when there are too few pages for the tables that are missing.
      ensures alloc ==> (slot.Some? <==> |old(free)| >= Missing(old(tables[r].node).Keys, va / PGSIZE))
      ensures alloc && slot.Some? ==>
                && |free| == |old(free)| - Missing(old(tables[r].node).Keys, va / PGSIZE)
                && tables[r].node.Keys == old(tables[r].node).Keys + Path(va / PGSIZE)
    {
      ghost var s := S();
      ghost var vpn := va / PGSIZE;
      ghost var nodes := tables[r].node.Keys;
      TouchesNothing(s, r);
      TreeOf(s, r);
      var level := 2;
      var pagetable := r;
      while level > 0
        invariant 0 <= level <= 2 && Valid() && Touches(s, S(), r, 0, 0, {}) && (!alloc ==> S() == s)
        invariant NodeFor(level, vpn) in tables[r].node && tables[r].node[NodeFor(level, vpn)] == pagetable
        invariant |free| + Missing(nodes, vpn) == |s.free| + Missing(tables[r].node.Keys, vpn)
        invariant nodes <= tables[r].node.Keys <= nodes + Path(vpn)
        invariant level < 2 ==> NodeFor(1, vpn) in tables[r].node
      {
        ghost var at := NodeFor(level, vpn);
        var j := PX(level, va);
        WalkStep(level, va);
        EntryAt(S(), r, at, j);
        var pte := mem[pagetable].entries[j];
        if pte.v {
          pagetable := pte.ppn;
        } else {
          if !alloc {
            NoPath(S(), r, vpn, level - 1);
            return None;
          }
          ghost var t := S();
          var p := Extend(r, at, pagetable, j);
          TouchesTwice(s, t, S(), r, 0, 0, {});
          if p == None {
            NoPath(S(), r, vpn, level - 1);
            return None;
          }
          pagetable := p.value;
        }
        level := level - 1;
      }
      EntryAt(S(), r, NodeFor(0, vpn), 0);
      LeafStep(va);
      slot := Some((pagetable, PX(0, va)));
    }

    /** The body of the loop of `mappages`, for one page. */
    method MapPage(r: int, a: int, ppn: int, perm: Perm) returns (ok: bool)
      requires Valid() && r in tables && 0 <= a && a / PGSIZE < MAXVPN && Grants(perm)
      requires a / PGSIZE !in tables[r].flat                              // else panic("mappages: remap")
      requires a / PGSIZE < TRAPFRAME ==> ppn in role && role[ppn] == Held
      modifies this
      ensures Valid()
      ensures !ok ==> Touches(old(S()), S(), r, 0, 0, {}) && free == []
      ensures ok ==> Touches(old(S()), S(), r, a / PGSIZE, a / PGSIZE + 1, Mine(a / PGSIZE, ppn, ppn + 1))
                     && tables[r].flat == old(tables[r].flat)[a / PGSIZE := Pte(ppn, true, perm)]
      ensures a / PGSIZE < TRAPFRAME ==> ppn in role && ppn in old(mem) && ppn in mem && mem[ppn] == old(mem)[ppn]
                                         && role[ppn] == if ok then User(r, a / PGSIZE) else Held
      ensures Took(old(S()), S(), r, a / PGSIZE, 0, ok)
    {
      ghost var s, vpn := S(), a / PGSIZE;
      FreeOf(s);
      var slot := Walk(r, a, true);
      ghost var t := S();
      FlatSame(s, t, r);
      if vpn < TRAPFRAME {
        HeldSame(s, t, r, ppn);
      }
      if slot == None {
        return false;
      }
      var (q, j) := slot.value;
      ghost var e := Pte(ppn, true, perm);
      MapAfterWalk(s, t, r, vpn, e);
      mem := mem[q := Table(mem[q].entries[j := Pte(ppn, true, perm)])];
      tables := tables[r := Updated(tables[r], vpn, e)];
      if vpn < TRAPFRAME {
        role := role[ppn := User(r, vpn)];
      }
      return true;
    }

    /** One iteration of `mappages`, with `m` of `n` pages mapped before it. */
    method MapNext(r: int, a: int, pa: int, perm: Perm, ghost s: Phys, ghost vpn: int, ghost ppn: int,
                   ghost m: nat, ghost n: nat)
      returns (ok: bool)
      requires Valid() && Ok(s) && Grants(perm) && 0 <= vpn && m < n && vpn + n <= MAXVPN && a == (vpn + m) * PGSIZE
               && pa == ppn + m
      requires Mapping(s, S(), r, vpn, ppn, perm, m, n) && vpn + m !in s.tables[r].flat
      requires vpn < TRAPFRAME ==>
                 vpn + n <= TRAPFRAME && forall p :: ppn <= p < ppn + n ==> p in s.role && s.role[p] == Held
      modifies this
      ensures Valid() && Mapping(s, S(), r, vpn, ppn, perm, if ok then m + 1 else m, n) && (!ok ==> free == [])
      ensures Took(old(S()), S(), r, vpn + m, 0, ok)
    {
      ghost var t := S();
      assert a / PGSIZE == vpn + m;
      MappingNext(s, t, r, vpn, ppn, perm, m, n);
      ok := MapPage(r, a, pa, perm);
      if ok {
        MappingGrows(s, t, S(), r, vpn, ppn, perm, m, n);
      } else {
        MappingStops(s, t, S(), r, vpn, ppn, perm, m, n);
      }
    }

    /**
     * `mappages`.  `m` pages were mapped; fewer than asked for only when memory
     * for table pages ran out, and the mappings made so far stay.
     */
    method Mappages(r: int, va: int, size: int, ppn: int, perm: Perm) returns (ok: bool, ghost m: nat)
      requires Valid() && r in tables && Grants(perm)
      requires va % PGSIZE == 0 && size % PGSIZE == 0 && size > 0 && 0 <= va && va + size <= MAXVPN * PGSIZE
      requires forall v :: va / PGSIZE <= v < va / PGSIZE + size / PGSIZE ==> v !in tables[r].flat
      requires va / PGSIZE < TRAPFRAME ==> va + size <= TRAPFRAME * PGSIZE
      requires va / PGSIZE < TRAPFRAME ==> forall p :: ppn <= p < ppn + size / PGSIZE ==> p in role && role[p] == Held
      modifies this
      ensures Valid() && m <= size / PGSIZE && (ok <==> m == size / PGSIZE) && (!ok ==> free == [])
      ensures Mapping(old(S()), S(), r, va / PGSIZE, ppn, perm, m, size / PGSIZE)
      ensures size == PGSIZE ==> Took(old(S()), S(), r, va / PGSIZE, 0, ok)
    {
      ghost var s, vpn, n := S(), va / PGSIZE, size / PGSIZE;
      MappingStarts(s, r, vpn, ppn, perm, n);
      var a := va;
      var last := va + size - PGSIZE;
      var pa := ppn;
      m := 0;
      while true
        invariant 0 <= m < n && a == va + m * PGSIZE && pa == ppn + m
        invariant Valid() && Mapping(s, S(), r, vpn, ppn, perm, m, n) && (m == 0 ==> S() == s)
        decreases n - m
      {
        ok := MapNext(r, a, pa, perm, s, vpn, ppn, m, n);
        if !ok {
          return;
        }
        m := m + 1;
        if a == last {
          break;
        }
        a := a + PGSIZE;
        pa := pa + 1;
      }
    }

    /** The body of the loop of `uvmunmap`. */
    method UnmapPage(r: int, a: int, doFree: bool)
      requires Valid() && r in tables && 0 <= a && a / PGSIZE < MAXVPN
      requires doFree <==> a / PGSIZE < TRAPFRAME
      modifies this
      ensures Valid() && Touches(old(S()), S(), r, a / PGSIZE, a / PGSIZE + 1, {})
      ensures tables[r] == old(tables[r]).(flat := old(tables[r]).flat - {a / PGSIZE})
      ensures Returned(old(S()), S(), r, a / PGSIZE, if doFree then a / PGSIZE + 1 else a / PGSIZE)
      ensures |free| >= |old(free)|
    {
      ghost var s, vpn := S(), a / PGSIZE;
      FreeOf(s);
      TouchesNothing(s, r);
      TouchesMore(s, s, r, 0, 0, {}, vpn, vpn + 1, {});
      var slot := Walk(r, a, false);
      if slot == None {
        NothingToReturn(s, r, vpn);
        return;
      }
      var (q, j) := slot.value;
      TreeOf(s, r);
      SlotOf(s.mem, s.role, s.tables[r], r, vpn);
      var pte := mem[q].entries[j];
      if !pte.v {
        NothingToReturn(s, r, vpn);
        return;
      }
      ClearPage(r, vpn, q, j, doFree);
    }

    /** Freeing the page behind a leaf entry, if asked to, and clearing the entry. */
    method ClearPage(r: int, ghost vpn: int, q: int, j: int, doFree: bool)
      requires Valid() && r in tables && vpn in tables[r].flat && HasSlot(S(), r, vpn) && j == vpn % FANOUT
      requires q == LeafTable(S(), r, vpn) && mem[q].Table? && |mem[q].entries| == FANOUT
               && mem[q].entries[j] == tables[r].flat[vpn]
      requires doFree <==> vpn < TRAPFRAME
      modifies this
      ensures Valid() && Touches(old(S()), S(), r, vpn, vpn + 1, {})
      ensures tables[r] == old(tables[r]).(flat := old(tables[r]).flat - {vpn})
      ensures Returned(old(S()), S(), r, vpn, if doFree then vpn + 1 else vpn)
      ensures |free| >= |old(free)|
    {
      ghost var s := S();
      FreeOf(s);
      TreeOf(s, r);
      SlotOf(s.mem, s.role, s.tables[r], r, vpn);
      SlotRoles(s, r, vpn);
      if doFree {
        Kfree(mem[q].entries[j].ppn);
      }
      ghost var t := S();
      ClearedOk(s, t, r, vpn);
      ClearedReturns(s, t, r, vpn);
      ClearedTouches(s, t, r, vpn);
      mem := mem[q := Table(mem[q].entries[j := ZERO])];
      tables := tables[r := Updated(tables[r], vpn, ZERO)];
    }

    /** `uvmunmap`: user pages are freed; the trampoline and trapframe mappings are removed without freeing. */
    method Uvmunmap(r: int, va: int, npages: nat, doFree: bool)
      requires Valid() && r in tables && 0 <= va && va % PGSIZE == 0 && va / PGSIZE + npages <= MAXVPN
      requires if doFree then va / PGSIZE + npages <= TRAPFRAME else va / PGSIZE >= TRAPFRAME
      modifies this
      ensures Valid() && Touches(old(S()), S(), r, va / PGSIZE, va / PGSIZE + npages, {})
      ensures forall v :: va / PGSIZE <= v < va / PGSIZE + npages ==> v !in tables[r].flat
      ensures tables[r].node == old(tables[r]).node
      ensures Returned(old(S()), S(), r, va / PGSIZE, if doFree then va / PGSIZE + npages else va / PGSIZE)
      ensures |free| >= |old(free)|
    {
      ghost var s, vpn := S(), va / PGSIZE;
      TouchesNothing(s, r);
      TouchesMore(s, s, r, 0, 0, {}, vpn, vpn + npages, {});
      var a := va;
      ghost var m := 0;
      while a < va + npages * PGSIZE
        invariant 0 <= m <= npages && a == va + m * PGSIZE
        invariant Valid() && Touches(s, S(), r, vpn, vpn + npages, {}) && tables[r].node == s.tables[r].node
        invariant forall v :: vpn <= v < vpn + m ==> v !in tables[r].flat
        invariant Returned(s, S(), r, vpn, if doFree then vpn + m else vpn) && |free| >= |s.free|
      {
        ghost var t := S();
        assert a / PGSIZE == vpn + m;
        UnmapPage(r, a, doFree);
        TouchesMore(t, S(), r, vpn + m, vpn + m + 1, {}, vpn, vpn + npages, {});
        TouchesTwice(s, t, S(), r, vpn, vpn + npages, {});
        if doFree {
          ReturnedTwice(s, t, S(), r, vpn, vpn + m, vpn + m + 1);
        }
        m := m + 1;
        a := a + PGSIZE;
      }
    }

    /**
     * The steps that `uvmalloc`, `uvmcopy` and `vmfault` share: take a page, fill
     * it, map it at `a`, and give it back if that fails.
     */
    method MapNew(r: int, a: int, page: Page, perm: Perm) returns (p: Option<int>)
      requires Valid() && r in tables && 0 <= a && a % PGSIZE == 0 && a / PGSIZE < TRAPFRAME && Grants(perm)
      requires a / PGSIZE !in tables[r].flat
      modifies this
      ensures Valid()
      ensures p.None? ==> Touches(old(S()), S(), r, 0, 0, {})
      ensures p.Some? ==> Touches(old(S()), S(), r, a / PGSIZE, a / PGSIZE + 1, {})
      ensures p.Some? ==> tables[r].flat == old(tables[r].flat)[a / PGSIZE := Pte(p.value, true, perm)]
                          && p.value in mem && mem[p.value] == page
      ensures Took(old(S()), S(), r, a / PGSIZE, 1, p.Some?)
    {
      ghost var s, vpn := S(), a / PGSIZE;
      p := Kalloc();
      if p == None {
        TouchesNothing(s, r);
        return;
      }
      ghost var s1 := S();
      Fill(p.value, page);
      ghost var s2 := S();
      var ok;
      ghost var m: nat;
      ok, m := Mappages(r, a, PGSIZE, p.value, perm);
      ghost var s3 := S();
      OnePage(s2, s3, r, vpn, p.value, perm, m);
      FreshTouches(s, s1, s2, s3, r, vpn, p.value, m);
      if !ok {
        HeldStays(s2, s3, r, vpn, vpn, Mine(vpn, p.value, p.value), p.value);
        Release(p.value);
        LooseTouches(s3, S(), r, p.value);
        TouchesMore(s, s3, r, vpn, vpn, {p.value}, 0, 0, {p.value});
        TouchesTwice(s, s3, S(), r, 0, 0, {p.value});
        Absorb(s, S(), r, 0, 0, p.value);
        return None;
      }
      SlotRoles(s3, r, vpn);
      Absorb(s, s3, r, vpn, vpn + 1, p.value);
    }

    /** `uvmdealloc`. */
    method Uvmdealloc(r: int, oldsz: int, newsz: int) returns (size: int)
      requires Valid() && r in tables && 0 <= newsz && 0 <= oldsz <= TRAPFRAME * PGSIZE
      modifies this
      ensures Valid() && size == if newsz < oldsz then newsz else oldsz
      ensures newsz >= oldsz ==> S() == old(S())
      ensures newsz < oldsz ==> Touches(old(S()), S(), r, RoundUp(newsz) / PGSIZE, RoundUp(oldsz) / PGSIZE, {})
      ensures newsz < oldsz ==> forall v :: RoundUp(newsz) / PGSIZE <= v < RoundUp(oldsz) / PGSIZE ==>
              v !in tables[r].flat
      ensures newsz < oldsz ==> Returned(old(S()), S(), r, RoundUp(newsz) / PGSIZE, RoundUp(oldsz) / PGSIZE)
      ensures |free| >= |old(free)| && tables[r].node == old(tables[r]).node
    {
      if newsz >= oldsz {
        return oldsz;
      }
      if RoundUp(newsz) < RoundUp(oldsz) {
        var npages := (RoundUp(oldsz) - RoundUp(newsz)) / PGSIZE;
        Uvmunmap(r, RoundUp(newsz), npages, true);
      } else {
        TouchesNothing(S(), r);
        TouchesMore(S(), S(), r, 0, 0, {}, RoundUp(newsz) / PGSIZE, RoundUp(oldsz) / PGSIZE, {});
      }
      return newsz;
    }

    /** `uvmalloc`; `ok` tells success from failure. */
    method Uvmalloc(r: int, oldsz: int, newsz: int, xperm: Perm) returns (size: int, ghost ok: bool)
      requires Valid() && r in tables && 0 <= oldsz && newsz <= TRAPFRAME * PGSIZE
      requires forall v :: RoundUp(oldsz) / PGSIZE <= v < RoundUp(newsz) / PGSIZE ==> v !in tables[r].flat
      modifies this
      ensures Valid()
      ensures newsz < oldsz ==> size == oldsz && S() == old(S())
      ensures newsz >= oldsz ==> size == if ok then newsz else 0
      ensures newsz >= oldsz && !ok ==> Touches(old(S()), S(), r, 0, 0, {})
      ensures newsz >= oldsz && ok ==> Touches(old(S()), S(), r, RoundUp(oldsz) / PGSIZE, RoundUp(newsz) / PGSIZE, {})
      ensures newsz >= oldsz && ok ==> forall v :: RoundUp(oldsz) / PGSIZE <= v < RoundUp(newsz) / PGSIZE ==>
                                                     ZeroPage(S(), r, v, UserPerm(xperm))
      // It fails exactly when there are too few free pages.
      ensures newsz >= oldsz ==> TookAll(old(S()), S(), r, RoundUp(oldsz) / PGSIZE, PagesBetween(oldsz, newsz), ok)
    {
      ok := true;
      if newsz < oldsz {
        return oldsz, true;
      }
      ghost var s := S();
      ghost var lo, n := RoundUp(oldsz) / PGSIZE, PagesBetween(oldsz, newsz);
      PageCount(oldsz, newsz);
      TouchesNothing(s, r);
      TouchesMore(s, s, r, 0, 0, {}, lo, lo, {});
      var base := RoundUp(oldsz);
      var a := base;
      ghost var m: nat := 0;
      PageLeft(lo, newsz);
      PageLeft(lo + n, TRAPFRAME * PGSIZE);
      while a < newsz
        invariant m <= n && a == (lo + m) * PGSIZE && (a < newsz <==> m < n)
        invariant Valid() && Touches(s, S(), r, lo, lo + m, {}) && Books(s, S(), r, Span(lo, n), lo, n, m)
        invariant forall v :: lo <= v < lo + m ==> ZeroPage(S(), r, v, UserPerm(xperm))
      {
        var more := GrowPage(r, a, base, UserPerm(xperm), s, lo, n, m);
        if !more {
          return 0, false;
        }
        a := a + PGSIZE;
        m := m + 1;
        PageLeft(lo + m, newsz);
      }
      return newsz, true;
    }

    /** The body of the loop of `uvmalloc`, after `m` of `n` pages; false when it fails. */
    method GrowPage(r: int, a: int, base: int, perm: Perm, ghost s: Phys, ghost lo: int, ghost n: nat, ghost m: nat)
      returns (ok: bool)
      requires Valid() && r in tables && 0 <= lo && m < n && lo + n <= TRAPFRAME && base == lo * PGSIZE
               && a == (lo + m) * PGSIZE
      requires Touches(s, S(), r, lo, lo + m, {}) && Books(s, S(), r, Span(lo, n), lo, n, m) && Grants(perm)
      requires forall v :: lo <= v < lo + n ==> v !in s.tables[r].flat
      requires forall v :: lo <= v < lo + m ==> ZeroPage(S(), r, v, perm)
      modifies this
      ensures Valid() && r in tables
      ensures ok ==> Touches(s, S(), r, lo, lo + m + 1, {}) && Books(s, S(), r, Span(lo, n), lo, n, m + 1)
      ensures ok ==> forall v :: lo <= v < lo + m + 1 ==> ZeroPage(S(), r, v, perm)
      ensures !ok ==> Touches(s, S(), r, 0, 0, {}) && |s.free| < Needed(s.tables[r].node.Keys, Span(lo, n), lo, n)
    {
      ghost var t := S();
      assert a / PGSIZE == lo + m;
      assert LeafSame(s, t, r, lo + m);
      var p := MapNew(r, a, Filled(0), perm);
      TookNext(s, t, S(), r, Span(lo, n), lo, n, m, p.Some?);
      ok := p.Some?;
      if ok {
        GrowsByOne(s, t, S(), r, lo, m, perm);
      } else {
        GiveUp(s, t, r, a, base, lo, m);
      }
    }

    /** The failure path of `uvmalloc`: take back the pages mapped so far. */
    method GiveUp(ghost s: Phys, ghost t: Phys, r: int, a: int, base: int, ghost lo: int, ghost m: nat)
      requires Valid() && r in tables && 0 <= lo && lo + m <= TRAPFRAME && base == lo * PGSIZE && a == (lo + m) * PGSIZE
      requires Touches(s, t, r, lo, lo + m, {}) && Touches(t, S(), r, 0, 0, {})
      requires forall v :: lo <= v < lo + m ==> v !in s.tables[r].flat
      modifies this
      ensures Valid() && Touches(s, S(), r, 0, 0, {})
    {
      ghost var u := S();
      TouchesMore(t, u, r, 0, 0, {}, lo, lo + m, {});
      TouchesTwice(s, t, u, r, lo, lo + m, {});
      var _ := Uvmdealloc(r, a, base);
      if m > 0 {
        TouchesTwice(s, u, S(), r, lo, lo + m, {});
      }
      Restored(s, S(), r, lo, lo + m);
    }

    /** The body of the loop of `uvmcopy`; false when it fails. */
    method CopyPage(ghost s: Phys, src: int, dst: int, i: int, ghost m: nat) returns (ok: bool)
      requires Valid() && Ok(s) && src in s.tables && src in tables && src != dst
      requires 1 <= m < TRAPFRAME && i == m * PGSIZE && Touches(s, S(), dst, 1, m, {}) && m !in s.tables[dst].flat
      requires tables[src] == s.tables[src]
      modifies this
      ensures Valid() && src in tables && tables[src] == s.tables[src]
      ensures ok ==> Touches(old(S()), S(), dst, m, m + 1, {}) && CopyOk(s, S(), src, dst, m)
      ensures !ok ==> Touches(old(S()), S(), dst, 0, 0, {})
      ensures m in tables[src].flat ==> Took(old(S()), S(), dst, m, 1, ok)
      ensures m !in tables[src].flat ==> ok && S() == old(S())
    {
      ghost var t := S();
      assert i / PGSIZE == m;
      assert LeafSame(s, t, dst, m);
      TouchesNothing(t, dst);
      TouchesMore(t, t, dst, 0, 0, {}, m, m + 1, {});
      var slot := Walk(src, i, false);
      if slot == None {
        return true;
      }
      var (q, j) := slot.value;
      TreeOf(t, src);
      SlotOf(t.mem, t.role, t.tables[src], src, m);
      var pte := mem[q].entries[j];
      if !pte.v {
        return true;
      }
      OtherLeaf(s, t, src, dst, m);
      LeafGrants(t, src, m);
      var p := MapNew(dst, i, mem[pte.ppn], pte.perm);
      return p != None;
    }

    /** `uvmcopy` into a table without user pages. */
    method Uvmcopy(src: int, dst: int, sz: int) returns (ok: bool)
      requires Valid() && src in tables && dst in tables && src != dst && 0 <= sz <= TRAPFRAME * PGSIZE
      requires forall v :: 0 <= v < TRAPFRAME ==> v !in tables[dst].flat
      modifies this
      ensures Valid() && src in tables && dst in tables && tables[src] == old(tables)[src]
      ensures ok ==> Touches(old(S()), S(), dst, 1, RoundUp(sz) / PGSIZE, {})
      ensures ok ==> forall v :: 1 <= v < RoundUp(sz) / PGSIZE ==> CopyOk(old(S()), S(), src, dst, v)
      ensures !ok ==> Touches(old(S()), S(), dst, 0, 0, {})
      ensures TookThose(old(S()), S(), dst, old(tables[src]).flat.Keys, 1, PagesBetween(PGSIZE, sz), ok)
    {
      ghost var s := S();
      TouchesNothing(s, dst);
      TouchesMore(s, s, dst, 0, 0, {}, 1, 1, {});
      var i := PGSIZE;
      ghost var m: nat, n := 1, PagesBetween(PGSIZE, sz);
      while i < sz
        invariant m <= n + 1 && Books(s, S(), dst, s.tables[src].flat.Keys, 1, n, m - 1)
        invariant 1 <= m && i == m * PGSIZE && (m == 1 || m <= RoundUp(sz) / PGSIZE) && Valid()
        invariant src in tables && tables[src] == s.tables[src] && Touches(s, S(), dst, 1, m, {})
        invariant forall v :: 1 <= v < m ==> CopyOk(s, S(), src, dst, v)
      {
        ok := CopyOne(src, dst, i, s, m, n);
        if !ok {
          return;
        }
        i := i + PGSIZE;
        m := m + 1;
      }
      TouchesMore(s, S(), dst, 1, m, {}, 1, RoundUp(sz) / PGSIZE, {});
      ok := true;
    }

    /** One iteration of `uvmcopy`, with page `m` next, and the way out if it fails. */
    method CopyOne(src: int, dst: int, i: int, ghost s: Phys, ghost m: nat, ghost n: nat) returns (ok: bool)
      requires Valid() && Ok(s) && src in s.tables && src in tables && src != dst && 1 <= m <= n && m < TRAPFRAME
               && i == m * PGSIZE
      requires tables[src] == s.tables[src] && Touches(s, S(), dst, 1, m, {})
      requires forall v :: 0 <= v < TRAPFRAME ==> v !in s.tables[dst].flat
      requires forall v :: 1 <= v < m ==> CopyOk(s, S(), src, dst, v)
      requires Books(s, S(), dst, s.tables[src].flat.Keys, 1, n, m - 1)
      modifies this
      ensures Valid() && src in tables && dst in tables && tables[src] == s.tables[src]
      ensures ok ==> Touches(s, S(), dst, 1, m + 1, {}) && Books(s, S(), dst, s.tables[src].flat.Keys, 1, n, m)
      ensures ok ==> forall v :: 1 <= v < m + 1 ==> CopyOk(s, S(), src, dst, v)
      ensures !ok ==> Touches(s, S(), dst, 0, 0, {})
                      && |s.free| < Needed(s.tables[dst].node.Keys, s.tables[src].flat.Keys, 1, n)
    {
      ghost var t := S();
      ok := CopyPage(s, src, dst, i, m);
      ghost var u := S();
      if m in s.tables[src].flat {
        TookNext(s, t, u, dst, s.tables[src].flat.Keys, 1, n, m - 1, ok);
      }
      if ok {
        CopyNext(s, t, u, src, dst, m);
      } else {
        CopyFails(s, t, dst, i, m);
      }
    }

    /** The failure path of `uvmcopy`. */
    method CopyFails(ghost s: Phys, ghost t: Phys, dst: int, i: int, ghost m: nat)
      requires Valid() && 1 <= m < TRAPFRAME && i == m * PGSIZE
      requires Touches(s, t, dst, 1, m, {}) && Touches(t, S(), dst, 0, 0, {})
      requires forall v :: 0 <= v < TRAPFRAME ==> v !in s.tables[dst].flat
      modifies this
      ensures Valid() && Touches(s, S(), dst, 0, 0, {})
    {
      ghost var u := S();
      assert i / PGSIZE == m;
      TouchesMore(s, t, dst, 1, m, {}, 0, m, {});
      TouchesMore(t, u, dst, 0, 0, {}, 0, m, {});
      TouchesTwice(s, t, u, dst, 0, m, {});
      Uvmunmap(dst, 0, i / PGSIZE, true);
      TouchesTwice(s, u, S(), dst, 0, m, {});
      Restored(s, S(), dst, 0, m);
    }

    /** `freewalk` of the table page at `at`.  The leaf panic cannot be reached. */
    method Freewalk(page: int, ghost tree: Tree, ghost r: int, ghost at: At)
      requires FreeOk(mem, free, role) && Subtree(mem, role, tree, r, at) && page == tree.node[at]
      modifies this`mem, this`free, this`role
      ensures FreeOk(mem, free, role) && FreedBelow(old(mem), old(role), mem, role, r, at)
      decreases at.level
    {
      ghost var mem0, role0 := mem, role;
      PassStarts(mem, free, role, tree, r, at, page);
      assert NodeOk(mem0, role0, tree, r, at);
      for i := 0 to FANOUT
        invariant FreeOk(mem, free, role) && Passed(mem0, role0, mem, role, r, at, page, i)
      {
        var pte := mem[page].entries[i];
        assert EntryOk(pte, tree, at, i);
        if pte.v && !Grants(pte.perm) {
          ghost var mem1, role1 := mem, role;
          ChildSubtree(mem0, role0, mem1, role1, tree, r, at, page, i);
          Freewalk(pte.ppn, tree, r, Child(at, i));
          PassChild(mem0, role0, mem1, role1, mem, role, tree, r, at, page, i);
          mem := mem[page := Table(mem[page].entries[i := ZERO])];
        } else {
          assert !pte.v;                                              // else panic("freewalk: leaf")
          PassNothing(mem0, role0, mem, role, tree, r, at, page, i);
        }
      }
      assert PassedPage(mem0, role0, mem, role, r, at, page, FANOUT, page);
      PassAll(mem0, role0, mem, role, Filled(1), tree, r, at, page);
      Kfree(page);
    }

    /** `uvmfree` of a table in which only virtual pages below the size are mapped. */
    method Uvmfree(r: int, sz: int)
      requires Valid() && r in tables && 0 <= sz <= TRAPFRAME * PGSIZE
      requires forall v :: v in tables[r].flat ==> 0 <= v < RoundUp(sz) / PGSIZE
      modifies this
      ensures Valid() && DroppedFrom(old(S()), S(), r)
    {
      ghost var s := S();
      ghost var n := RoundUp(sz) / PGSIZE;
      TouchesNothing(s, r);
      TouchesMore(s, s, r, 0, 0, {}, 0, n, {});
      if sz > 0 {
        Uvmunmap(r, 0, RoundUp(sz) / PGSIZE, true);
      }
      ghost var t := S();
      forall v ensures v !in t.tables[r].flat {
        assert v < 0 || v >= n ==> LeafSame(s, t, r, v);
      }
      FreeOf(t);
      TreeOf(t, r);
      EmptyTable(t, r);
      Freewalk(r, tables[r], r, ROOT);
      tables := tables - {r};
      FreedIsDropped(t, S(), r);
      TouchThenFreed(s, t, S(), r, 0, n);
    }

    /** `proc_freepagetable`. */
    method ProcFreepagetable(r: int, sz: int)
      requires Valid() && r in tables && 0 <= sz <= TRAPFRAME * PGSIZE && MapsOnly(S(), r, RoundUp(sz) / PGSIZE)
      modifies this
      ensures Valid() && DroppedFrom(old(S()), S(), r)
    {
      ghost var s, n := S(), RoundUp(sz) / PGSIZE;
      Uvmunmap(r, TRAMPOLINE * PGSIZE, 1, false);
      ghost var t := S();
      Uvmunmap(r, TRAPFRAME * PGSIZE, 1, false);
      ghost var u := S();
      TouchesMore(s, t, r, TRAMPOLINE, TRAMPOLINE + 1, {}, TRAPFRAME, MAXVPN, {});
      TouchesMore(t, u, r, TRAPFRAME, TRAPFRAME + 1, {}, TRAPFRAME, MAXVPN, {});
      TouchesTwice(s, t, u, r, TRAPFRAME, MAXVPN, {});
      forall v | v in u.tables[r].flat ensures 0 <= v < n {
        assert v != TRAPFRAME ==> LeafSame(t, u, r, v);
        assert v != TRAMPOLINE ==> LeafSame(s, t, r, v);
      }
      Uvmfree(r, sz);
      TouchThenFreed(s, u, S(), r, TRAPFRAME, MAXVPN);
    }

    /** `walkaddr`: the page behind a user address. */
    method Walkaddr(r: int, va: int) returns (pa: Option<int>)
      requires Valid() && r in tables && 0 <= va
      modifies this
      ensures S() == old(S())
      ensures pa.Some? <==> va / PGSIZE in tables[r].flat && tables[r].flat[va / PGSIZE].perm.u
      ensures pa.Some? ==> pa.value == tables[r].flat[va / PGSIZE].ppn
    {
      TreeOf(S(), r);
      assert va / PGSIZE in tables[r].flat ==> LeafOk(role, tables[r], r, va / PGSIZE);
      if va / PGSIZE >= MAXVPN {
        return None;
      }
      var slot := Walk(r, va, false);
      if slot == None {
        return None;
      }
      var (q, j) := slot.value;
      SlotOf(mem, role, tables[r], r, va / PGSIZE);
      var pte := mem[q].entries[j];
      if !pte.v || !pte.perm.u {
        return None;
      }
      return Some(pte.ppn);
    }

    /** The kernel stores into the user page at `vpn`: only that page of that process changes. */
    method Store(r: int, ghost vpn: int, p: int, page: Page)
      requires Valid() && r in tables && vpn in tables[r].flat && vpn < TRAPFRAME && p == tables[r].flat[vpn].ppn
      modifies this`mem
      ensures Valid() && Touches(old(S()), S(), r, vpn, vpn + 1, {}) && S() == old(S()).(mem := old(mem)[p := page])
    {
      ghost var s := S();
      SlotRoles(s, r, vpn);
      UserPage(s, p, page);
      mem := mem[p := page];
      StoreTouches(s, r, vpn, page);
    }

    /** `uvmcreate`. */
    method Uvmcreate() returns (r: Option<int>)
      requires Valid()
      modifies this
      ensures Valid()
      ensures r.None? ==> S() == old(S()) && free == []
      ensures r.Some? ==> Created(old(S()), S(), r.value) && |free| == |old(free)| - 1
    {
      ghost var s := S();
      FreeOf(s);
      r := Kalloc();
      if r == None {
        return;
      }
      Fill(r.value, Table(EMPTY));
      NewRootKeepsOk(S(), r.value);
      tables := tables[r.value := Tree(map[ROOT := r.value], map[])];
      role := role[r.value := Node(r.value, ROOT)];
    }

    /** `mappages` for one of the kernel's pages. */
    method MapKernel(r: int, vpn: int, ppn: int, perm: Perm) returns (ok: bool)
      requires Valid() && r in tables && TRAPFRAME <= vpn < MAXVPN && vpn !in tables[r].flat && Grants(perm)
      modifies this
      ensures Valid()
      ensures Touches(old(S()), S(), r, TRAPFRAME, MAXVPN, {})
      ensures tables[r].flat == if ok then old(tables[r].flat)[vpn := Pte(ppn, true, perm)] else old(tables[r].flat)
      ensures Took(old(S()), S(), r, vpn, 0, ok)
    {
      ghost var s := S();
      ghost var m: nat;
      ok, m := Mappages(r, vpn * PGSIZE, PGSIZE, ppn, perm);
      TouchesMore(s, S(), r, vpn, vpn + m, Mine(vpn, ppn, ppn + m), TRAPFRAME, MAXVPN, {});
      ghost var flat := s.tables[r].flat;
      assert MapRange(flat, vpn, ppn, perm, 1) == MapRange(flat, vpn, ppn, perm, 0)[vpn := Pte(ppn, true, perm)];
    }

    /** `proc_pagetable`: all or nothing. */
    method ProcPagetable(trampoline: int, trapframe: int) returns (r: Option<int>)
      requires Valid()
      modifies this
      ensures Valid()
      ensures r.None? ==> BackTo(old(S()), S())
      ensures r.Some? ==> Spawned(old(S()), S(), r.value) && tables[r.value].flat == KernelPages(trampoline, trapframe)
      // The root and two table pages, which the two mappings share.
      ensures r.Some? <==> |old(free)| >= 3
      ensures r.Some? ==> |free| == |old(free)| - 3 && tables[r.value].node.Keys == KernelNodes()
    {
      ghost var s := S();
      FreeOf(s);
      r := Uvmcreate();
      if r == None {
        return;
      }
      ghost var t := S();
      CreatedIsSpawned(s, t, r.value);
      KernelPath();
      assert t.tables[r.value].node.Keys == {ROOT};
      var ok := MapKernel(r.value, TRAMPOLINE, trampoline, Perm(true, false, true, false, 0));
      ghost var u := S();
      if !ok {
        Uvmfree(r.value, 0);
        TouchThenFreed(t, u, S(), r.value, TRAPFRAME, MAXVPN);
        NoTrace(s, t, S(), r.value);
        return None;
      }
      ok := MapKernel(r.value, TRAPFRAME, trapframe, Perm(true, true, false, false, 0));
      TouchesTwice(t, u, S(), r.value, TRAPFRAME, MAXVPN, {});
      ghost var v := S();
      // The code undoes the first mapping if this one fails, which cannot happen: it needs no further table page.
      assert ok;
      SpawnedThenTouched(s, t, v, r.value, TRAPFRAME, MAXVPN);
    }
  }
}
