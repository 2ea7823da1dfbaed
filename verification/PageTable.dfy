/**
 * Physical pages and Sv39 page tables: the state that kernel/kalloc.c and
 * kernel/vm.c share, its invariant, and what each single step keeps.
 *
 * Pages are named by page number.  `mem` and `free` are the real state; `tables`
 * and `role` are ghost.  `tables[r]` describes the table rooted at page `r`:
 * its table pages by place in the tree, and the flat map from virtual page
 * number to leaf entry that the tree stands for.  `role` says what every managed
 * page is used for.  It is a function, so that free pages, table pages and user
 * pages never overlap.
 */
module PageTable {
  import opened Wrappers


  // ---- Page-table entries: kernel/riscv.h ----

  datatype Perm = Perm(r: bool, w: bool, x: bool, u: bool, rest: int)

  datatype Pte = Pte(ppn: int, v: bool, perm: Perm)

  const NOPERM := Perm(false, false, false, false, 0)
  const ZERO := Pte(0, false, NOPERM)

  predicate Grants(perm: Perm) { perm.r || perm.w || perm.x }

  function Bit(b: bool): int { if b then 1 else 0 }

  /** The 64-bit word of an entry, lowest bit first: V, R, W, X, U, five more flags, page number. */
  function Encode(e: Pte): int {
    Bit(e.v) + 2 * (Bit(e.perm.r) + 2 * (Bit(e.perm.w) + 2 * (Bit(e.perm.x) + 2 * (Bit(e.perm.u)
    + 2 * (e.perm.rest + 32 * e.ppn)))))
  }

  function Decode(w: int): Pte {
    var w1 := w / 2;
    var w2 := w1 / 2;
    var w3 := w2 / 2;
    var w4 := w3 / 2;
    var w5 := w4 / 2;
    Pte(w5 / 32, w % 2 == 1, Perm(w1 % 2 == 1, w2 % 2 == 1, w3 % 2 == 1, w4 % 2 == 1, w5 % 32))
  }

  lemma DecodeEncode(e: Pte)
    requires 0 <= e.perm.rest < 32
    ensures Decode(Encode(e)) == e
  {
  }

  /** PTE2PA and PTE_FLAGS: the page number starts at bit 10. */
  lemma EncodeDecode(w: int)
    ensures Encode(Decode(w)) == w && Decode(w).ppn == w / 1024
  {
  }

  // ---- The tree ----

  const FANOUT := 512
  const MAXVPN := 0x400_0000          // MAXVA / PGSIZE
  const TRAMPOLINE := MAXVPN - 1
  const TRAPFRAME := MAXVPN - 2

  /** The place of a table page: its level and the part of the page number above it. */
  datatype At = At(level: int, key: int)

  const ROOT := At(2, 0)

  function Child(at: At, j: int): At { At(at.level - 1, FANOUT * at.key + j) }
  function Parent(at: At): At { At(at.level + 1, at.key / FANOUT) }

  lemma ParentOfChild(at: At, j: int)
    requires 0 <= j < FANOUT
    ensures Parent(Child(at, j)) == at && Child(at, j).key % FANOUT == j
  {
  }

  lemma ChildOfParent(at: At)
    ensures Child(Parent(at), at.key % FANOUT) == at
  {
  }

  /** The table page at `level` that the walk for page `vpn` goes through. */
  function NodeFor(level: int, vpn: int): At {
    if level == 2 then ROOT else if level == 1 then At(1, vpn / 0x4_0000) else At(0, vpn / FANOUT)
  }

  /** The index into it: PX(level, va). */
  function PX(level: int, va: int): (r: int)
    ensures 0 <= r < FANOUT
  {
    if level == 2 then va / 0x4000_0000 % FANOUT
    else if level == 1 then va / 0x20_0000 % FANOUT
    else va / 0x1000 % FANOUT
  }

  lemma WalkStep(level: int, va: int)
    requires 0 <= va / 4096 < MAXVPN && 0 < level <= 2
    ensures NodeFor(level - 1, va / 4096) == Child(NodeFor(level, va / 4096), PX(level, va))
  {
    if level == 2 {
      assert va / 0x4000_0000 == va / 4096 / 0x4_0000;
    } else {
      assert va / 0x20_0000 == va / 4096 / FANOUT && va / 4096 / FANOUT / FANOUT == va / 4096 / 0x4_0000;
    }
  }

  lemma LeafStep(va: int)
    ensures Child(NodeFor(0, va / 4096), PX(0, va)).key == va / 4096
  {
  }

  // ---- The state ----

  datatype Page = Table(entries: seq<Pte>) | Bytes(content: seq<int>)

  datatype Role = Free | Held | Node(r: int, at: At) | User(r: int, vpn: int)

  datatype Tree = Tree(node: map<At, int>, flat: map<int, Pte>)

  datatype Phys = Phys(mem: map<int, Page>, free: seq<int>, tables: map<int, Tree>, role: map<int, Role>)

  ghost predicate NoLeaves(tree: Tree) { forall v :: v !in tree.flat }

  /** What entry `j` of the table page at `at` has to be. */
  ghost predicate EntryOk(e: Pte, tree: Tree, at: At, j: int) {
    var c := Child(at, j);
    if at.level > 0 then
      (e.v <==> c in tree.node) && (e.v ==> e.ppn == tree.node[c] && !Grants(e.perm))
    else
      (e.v <==> c.key in tree.flat) && (e.v ==> e == tree.flat[c.key] && Grants(e.perm))
  }

  ghost predicate PlaceOk(node: map<At, int>, at: At) {
    && 0 <= at.level <= 2 && at.key >= 0
    && (at.level == 2 ==> at == ROOT) && (at.level < 2 ==> Parent(at) in node)
  }

  ghost predicate EntriesOk(page: Page, tree: Tree, at: At) {
    page.Table? && |page.entries| == FANOUT && forall j :: 0 <= j < FANOUT ==> EntryOk(page.entries[j], tree, at, j)
  }

  ghost predicate NodeOk(mem: map<int, Page>, role: map<int, Role>, tree: Tree, r: int, at: At) {
    && at in tree.node && PlaceOk(tree.node, at)
    && tree.node[at] in role && role[tree.node[at]] == Node(r, at)
    && tree.node[at] in mem && EntriesOk(mem[tree.node[at]], tree, at)
  }

  ghost predicate LeafOk(role: map<int, Role>, tree: Tree, r: int, vpn: int) {
    && vpn in tree.flat && 0 <= vpn < MAXVPN && NodeFor(0, vpn) in tree.node && tree.flat[vpn].v
    && (vpn < TRAPFRAME ==> tree.flat[vpn].ppn in role && role[tree.flat[vpn].ppn] == User(r, vpn))
  }

  ghost predicate TreeOk(mem: map<int, Page>, role: map<int, Role>, tree: Tree, r: int) {
    && ROOT in tree.node && tree.node[ROOT] == r
    && (forall at :: at in tree.node ==> NodeOk(mem, role, tree, r, at))
    && (forall vpn :: vpn in tree.flat ==> LeafOk(role, tree, r, vpn))
  }

  ghost predicate RoleOk(tables: map<int, Tree>, p: int, role: Role) {
    match role
    case Free => true
    case Held => true
    case Node(r, at) => r in tables && at in tables[r].node && tables[r].node[at] == p
    case User(r, vpn) => r in tables && vpn in tables[r].flat && vpn < TRAPFRAME && tables[r].flat[vpn].ppn == p
  }

  /** The free list holds every free page once. */
  ghost predicate FreeOk(mem: map<int, Page>, free: seq<int>, role: map<int, Role>) {
    && Distinct(free) && role.Keys <= mem.Keys
    && (forall p :: p in free <==> p in role && role[p] == Free)
  }

  ghost predicate TreesOk(s: Phys) {
    forall r :: r in s.tables ==> TreeOk(s.mem, s.role, s.tables[r], r)
  }

  ghost predicate RolesOk(s: Phys) {
    forall p :: p in s.role ==> RoleOk(s.tables, p, s.role[p])
  }

  ghost predicate Opened(s: Phys) { true }

  /** The invariant, unfolded only for a state that a proof mentions with `Opened`. */
  ghost predicate Ok(s: Phys) {
    forall t: Phys {:trigger Opened(t)} :: t == s && Opened(t) ==>
      FreeOk(t.mem, t.free, t.role) && TreesOk(t) && RolesOk(t)
  }

  lemma FreeOf(s: Phys)
    requires Ok(s)
    ensures FreeOk(s.mem, s.free, s.role)
  {
    assert Opened(s);
  }

  lemma TreeOf(s: Phys, r: int)
    requires Ok(s) && r in s.tables
    ensures TreeOk(s.mem, s.role, s.tables[r], r)
  {
    assert Opened(s);
  }

  lemma RoleOf(s: Phys, p: int)
    requires Ok(s) && p in s.role
    ensures RoleOk(s.tables, p, s.role[p])
  {
    assert Opened(s);
  }

  lemma Fold(s: Phys)
    requires FreeOk(s.mem, s.free, s.role) && TreesOk(s) && RolesOk(s)
    ensures Ok(s)
  {
  }

  // ---- What a change to some pages leaves alone ----

  predicate Of(role: Role, r: int) { (role.Node? || role.User?) && role.r == r }

  ghost predicate PageKept(mem: map<int, Page>, role: map<int, Role>, mem': map<int, Page>, role': map<int, Role>,
                           p: int)
    requires p in role
  {
    p in role' && role'[p] == role[p] && (role[p].Node? ==> p in mem && p in mem' && mem'[p] == mem[p])
  }

  /** Every page of the table rooted at `r` keeps its role, and table pages their contents. */
  ghost predicate Untouched(mem: map<int, Page>, role: map<int, Role>, mem': map<int, Page>, role': map<int, Role>,
                            r: int) {
    forall p :: p in role && Of(role[p], r) ==> PageKept(mem, role, mem', role', p)
  }

  lemma TreeFrame(mem: map<int, Page>, role: map<int, Role>, mem': map<int, Page>, role': map<int, Role>, tree: Tree,
                  r: int)
    requires TreeOk(mem, role, tree, r) && Untouched(mem, role, mem', role', r)
    ensures TreeOk(mem', role', tree, r)
  {
    forall at | at in tree.node ensures NodeOk(mem', role', tree, r, at) {
      assert NodeOk(mem, role, tree, r, at);
      assert PageKept(mem, role, mem', role', tree.node[at]);
    }
    forall vpn | vpn in tree.flat ensures LeafOk(role', tree, r, vpn) {
      assert LeafOk(role, tree, r, vpn);
      assert vpn < TRAPFRAME ==> PageKept(mem, role, mem', role', tree.flat[vpn].ppn);
    }
  }

  // ---- Linking a fresh table page into the tree ----

  const EMPTY: seq<Pte> := seq(FANOUT, i => ZERO)

  function Linked(tree: Tree, at: At, j: int, p: int): Tree {
    tree.(node := tree.node[Child(at, j) := p])
  }

  function LinkedMem(mem: map<int, Page>, q: int, j: int, p: int): map<int, Page>
    requires q in mem && mem[q].Table? && 0 <= j < |mem[q].entries|
  {
    mem[q := Table(mem[q].entries[j := Pte(p, true, NOPERM)])]
  }

  /** A place with no entry in its parent has nothing below it either. */
  lemma NothingBelow(mem: map<int, Page>, role: map<int, Role>, tree: Tree, r: int, c: At, j: int)
    requires TreeOk(mem, role, tree, r) && c !in tree.node && c.level < 2 && 0 <= j < FANOUT
    ensures Child(c, j) !in tree.node && (c.level == 0 ==> Child(c, j).key !in tree.flat)
  {
    ParentOfChild(c, j);
    assert Child(c, j) in tree.node ==> NodeOk(mem, role, tree, r, Child(c, j));
    assert Child(c, j).key in tree.flat ==> LeafOk(role, tree, r, Child(c, j).key);
  }

  lemma EmptyPage(mem: map<int, Page>, role: map<int, Role>, tree: Tree, r: int, c: At, tree': Tree)
    requires TreeOk(mem, role, tree, r) && c !in tree.node && 0 <= c.level < 2
    requires tree'.flat == tree.flat && (forall a :: a in tree'.node ==> a in tree.node || a == c)
    ensures EntriesOk(Table(EMPTY), tree', c)
  {
    forall j | 0 <= j < FANOUT ensures EntryOk(EMPTY[j], tree', c, j) {
      NothingBelow(mem, role, tree, r, c, j);
      assert Child(c, j) != c;
    }
  }

  lemma LinkedEntries(page: Page, tree: Tree, at: At, j: int, p: int)
    requires EntriesOk(page, tree, at) && at.level > 0 && 0 <= j < FANOUT
    ensures EntriesOk(Table(page.entries[j := Pte(p, true, NOPERM)]), Linked(tree, at, j, p), at)
  {
    var tree', page' := Linked(tree, at, j, p), Table(page.entries[j := Pte(p, true, NOPERM)]);
    forall i | 0 <= i < FANOUT ensures EntryOk(page'.entries[i], tree', at, i) {
      assert EntryOk(page.entries[i], tree, at, i);
      assert Child(at, i) == Child(at, j) <==> i == j;
    }
  }

  lemma OtherEntries(page: Page, tree: Tree, at: At, j: int, p: int, a: At)
    requires EntriesOk(page, tree, a) && a != at && 0 <= j < FANOUT
    ensures EntriesOk(page, Linked(tree, at, j, p), a)
  {
    forall i | 0 <= i < FANOUT ensures EntryOk(page.entries[i], Linked(tree, at, j, p), a, i) {
      assert EntryOk(page.entries[i], tree, a, i);
      ParentOfChild(a, i);
      ParentOfChild(at, j);
    }
  }

  lemma LinkNode(mem: map<int, Page>, role: map<int, Role>, tree: Tree, r: int, at: At, j: int, p: int, a: At)
    requires TreeOk(mem, role, tree, r) && at in tree.node && at.level > 0 && 0 <= j < FANOUT
    requires Child(at, j) !in tree.node && p in role && role[p] == Held && p in mem && mem[p] == Table(EMPTY)
    requires a in Linked(tree, at, j, p).node
    ensures NodeOk(mem, role, tree, r, at)
    ensures NodeOk(LinkedMem(mem, tree.node[at], j, p), role[p := Node(r, Child(at, j))], Linked(tree, at, j, p), r, a)
  {
    assert NodeOk(mem, role, tree, r, at);
    ParentOfChild(at, j);
    if a == Child(at, j) {
      EmptyPage(mem, role, tree, r, a, Linked(tree, at, j, p));
    } else if a == at {
      LinkedEntries(mem[tree.node[at]], tree, at, j, p);
    } else {
      assert NodeOk(mem, role, tree, r, a);
      OtherEntries(mem[tree.node[a]], tree, at, j, p, a);
    }
  }

  lemma LinkTree(mem: map<int, Page>, role: map<int, Role>, tree: Tree, r: int, at: At, j: int, p: int)
    requires TreeOk(mem, role, tree, r) && at in tree.node && at.level > 0 && 0 <= j < FANOUT
    requires Child(at, j) !in tree.node && p in role && role[p] == Held && p in mem && mem[p] == Table(EMPTY)
    ensures NodeOk(mem, role, tree, r, at)
    ensures TreeOk(LinkedMem(mem, tree.node[at], j, p), role[p := Node(r, Child(at, j))], Linked(tree, at, j, p), r)
  {
    assert NodeOk(mem, role, tree, r, at);
    var mem', role', tree' := LinkedMem(mem, tree.node[at], j, p), role[p := Node(r, Child(at, j))],
      Linked(tree, at, j, p);
    forall a | a in tree'.node ensures NodeOk(mem', role', tree', r, a) {
      LinkNode(mem, role, tree, r, at, j, p, a);
    }
    forall vpn | vpn in tree'.flat ensures LeafOk(role', tree', r, vpn) {
      assert LeafOk(role, tree, r, vpn);
    }
    assert Child(at, j) != ROOT by { assert NodeOk(mem, role, tree, r, at); }
  }

  // ---- Writing a leaf entry ----

  /** The flat map with entry `e` at `vpn`: an invalid entry takes the page out of the map. */
  function Updated(tree: Tree, vpn: int, e: Pte): Tree {
    tree.(flat := if e.v then tree.flat[vpn := e] else tree.flat - {vpn})
  }

  lemma UpdatedEntries(page: Page, tree: Tree, at: At, vpn: int, e: Pte)
    requires EntriesOk(page, tree, at) && at == NodeFor(0, vpn) && (e.v ==> Grants(e.perm))
    ensures EntriesOk(Table(page.entries[vpn % FANOUT := e]), Updated(tree, vpn, e), at)
  {
    var page' := Table(page.entries[vpn % FANOUT := e]);
    forall i | 0 <= i < FANOUT ensures EntryOk(page'.entries[i], Updated(tree, vpn, e), at, i) {
      assert EntryOk(page.entries[i], tree, at, i);
      assert Child(at, i).key == vpn <==> i == vpn % FANOUT;
    }
  }

  lemma NotUpdatedEntries(page: Page, tree: Tree, at: At, vpn: int, e: Pte)
    requires EntriesOk(page, tree, at) && at != NodeFor(0, vpn) && at.level >= 0
    ensures EntriesOk(page, Updated(tree, vpn, e), at)
  {
    forall i | 0 <= i < FANOUT ensures EntryOk(page.entries[i], Updated(tree, vpn, e), at, i) {
      assert EntryOk(page.entries[i], tree, at, i);
      ParentOfChild(at, i);
    }
  }

  /** The leaf slot of `vpn` in the table rooted at `r` exists, and its entry is the flat map's. */
  lemma SlotOf(mem: map<int, Page>, role: map<int, Role>, tree: Tree, r: int, vpn: int)
    requires TreeOk(mem, role, tree, r) && NodeFor(0, vpn) in tree.node
    ensures var q := tree.node[NodeFor(0, vpn)];
            && q in role && role[q] == Node(r, NodeFor(0, vpn))
            && q in mem && mem[q].Table? && |mem[q].entries| == FANOUT
            && (mem[q].entries[vpn % FANOUT].v <==> vpn in tree.flat)
            && (vpn in tree.flat ==> mem[q].entries[vpn % FANOUT] == tree.flat[vpn])
  {
    var at := NodeFor(0, vpn);
    assert NodeOk(mem, role, tree, r, at);
    assert EntryOk(mem[tree.node[at]].entries[vpn % FANOUT], tree, at, vpn % FANOUT);
  }

  ghost predicate PageWritten(mem: map<int, Page>, role: map<int, Role>, mem': map<int, Page>, role': map<int, Role>,
                              p: int, q: int, w: Page)
    requires p in role
  {
    && p in role' && role'[p] == role[p]
    && (role[p].Node? ==> p in mem && p in mem' && mem'[p] == if p == q then w else mem[p])
  }

  /** Of the pages of `r` only table page `q`, now `w`, and the user page at `vpn` may have changed. */
  ghost predicate Written(mem: map<int, Page>, role: map<int, Role>, mem': map<int, Page>, role': map<int, Role>,
                          r: int, vpn: int, q: int, w: Page) {
    forall p :: p in role && Of(role[p], r) && role[p] != User(r, vpn) ==> PageWritten(mem, role, mem', role', p, q, w)
  }

  function SlotPage(page: Page, vpn: int, e: Pte): Page {
    if page.Table? && |page.entries| == FANOUT then Table(page.entries[vpn % FANOUT := e]) else page
  }

  /** Writing the leaf slot of `vpn` changes the flat map there and nowhere else. */
  lemma UpdateTree(mem: map<int, Page>, role: map<int, Role>, mem': map<int, Page>, role': map<int, Role>,
                   tree: Tree, r: int, vpn: int, e: Pte)
    requires TreeOk(mem, role, tree, r) && NodeFor(0, vpn) in tree.node && 0 <= vpn < MAXVPN
    requires e.v ==> Grants(e.perm) && (vpn < TRAPFRAME ==> e.ppn in role' && role'[e.ppn] == User(r, vpn))
    requires tree.node[NodeFor(0, vpn)] in mem
    requires var q := tree.node[NodeFor(0, vpn)]; Written(mem, role, mem', role', r, vpn, q, SlotPage(mem[q], vpn, e))
    ensures TreeOk(mem', role', Updated(tree, vpn, e), r)
  {
    var at0, tree' := NodeFor(0, vpn), Updated(tree, vpn, e);
    var q := tree.node[at0];
    assert NodeOk(mem, role, tree, r, at0);
    forall at | at in tree'.node ensures NodeOk(mem', role', tree', r, at) {
      assert NodeOk(mem, role, tree, r, at);
      assert PageWritten(mem, role, mem', role', tree.node[at], q, SlotPage(mem[q], vpn, e));
      if at == at0 {
        UpdatedEntries(mem[q], tree, at, vpn, e);
      } else {
        NotUpdatedEntries(mem[tree.node[at]], tree, at, vpn, e);
      }
    }
    forall v | v in tree'.flat ensures LeafOk(role', tree', r, v) {
      if v != vpn {
        assert LeafOk(role, tree, r, v);
        assert v < TRAPFRAME ==> PageWritten(mem, role, mem', role', tree.flat[v].ppn, q, SlotPage(mem[q], vpn, e));
      }
    }
  }

  // ---- Steps of the whole state ----

  predicate Loose(role: Role) { role.Free? || role.Held? }

  /** The trees of the tables that a step does not touch. */
  lemma OtherTree(s: Phys, s': Phys, r: int)
    requires Ok(s) && r in s.tables && r in s'.tables && s'.tables[r] == s.tables[r]
    requires Untouched(s.mem, s.role, s'.mem, s'.role, r)
    ensures TreeOk(s'.mem, s'.role, s'.tables[r], r)
  {
    TreeOf(s, r);
    TreeFrame(s.mem, s.role, s'.mem, s'.role, s.tables[r], r);
  }

  /** A page that is in no table may change its contents, be handed out or be given back. */
  lemma LoosePage(s: Phys, s': Phys, p: int)
    requires Ok(s) && p in s.role && Loose(s.role[p]) && p in s'.role && Loose(s'.role[p])
    requires s'.tables == s.tables && s'.role == s.role[p := s'.role[p]]
    requires FreeOk(s'.mem, s'.free, s'.role) && p in s'.mem && s'.mem == s.mem[p := s'.mem[p]]
    ensures Ok(s')
  {
    FreeOf(s);
    forall r | r in s'.tables ensures TreeOk(s'.mem, s'.role, s'.tables[r], r) {
      OtherTree(s, s', r);
    }
    forall q | q in s'.role ensures RoleOk(s'.tables, q, s'.role[q]) {
      if q != p { RoleOf(s, q); }
    }
    Fold(s');
  }

  /** The contents of a user page may change. */
  lemma UserPage(s: Phys, p: int, page: Page)
    requires Ok(s) && p in s.role && s.role[p].User?
    ensures Ok(s.(mem := s.mem[p := page]))
  {
    var s' := s.(mem := s.mem[p := page]);
    FreeOf(s);
    forall r | r in s'.tables ensures TreeOk(s'.mem, s'.role, s'.tables[r], r) {
      OtherTree(s, s', r);
    }
    forall q | q in s'.role ensures RoleOk(s'.tables, q, s'.role[q]) { RoleOf(s, q); }
    Fold(s');
  }

  /** kalloc takes the first free page. */
  lemma TakeFree(mem: map<int, Page>, free: seq<int>, role: map<int, Role>, page: Page)
    requires FreeOk(mem, free, role) && free != []
    ensures free[0] in role && role[free[0]] == Free
    ensures FreeOk(mem[free[0] := page], free[1..], role[free[0] := Held])
  {
    var role' := role[free[0] := Held];
    assert free[0] in free;
    assert free == [free[0]] + free[1..];
    forall p ensures p in free[1..] <==> p in role' && role'[p] == Free {
      assert p in free <==> p == free[0] || p in free[1..];
      assert free[0] !in free[1..];
    }
  }

  /** kfree puts a page in front. */
  lemma PutFree(mem: map<int, Page>, free: seq<int>, role: map<int, Role>, p: int, page: Page)
    requires FreeOk(mem, free, role) && p in role && role[p] != Free
    ensures FreeOk(mem[p := page], [p] + free, role[p := Free])
  {
    var free', role' := [p] + free, role[p := Free];
    assert p !in free;
    forall q ensures q in free' <==> q in role' && role'[q] == Free {
      assert q in free' <==> q == p || q in free;
    }
  }

  /** Pages that stay free, or stay in use, keep the free list right. */
  lemma SameFree(mem: map<int, Page>, mem': map<int, Page>, free: seq<int>, role: map<int, Role>, role': map<int, Role>)
    requires FreeOk(mem, free, role) && mem.Keys <= mem'.Keys && role'.Keys == role.Keys
    requires forall p :: p in role ==> (role'[p] == Free <==> role[p] == Free)
    ensures FreeOk(mem', free, role')
  {
  }

  function LinkStep(s: Phys, r: int, at: At, j: int, p: int): Phys
    requires r in s.tables && at in s.tables[r].node && s.tables[r].node[at] in s.mem
    requires var page := s.mem[s.tables[r].node[at]]; page.Table? && 0 <= j < |page.entries|
  {
    Phys(LinkedMem(s.mem, s.tables[r].node[at], j, p), s.free, s.tables[r := Linked(s.tables[r], at, j, p)],
         s.role[p := Node(r, Child(at, j))])
  }

  lemma LinkKeepsOk(s: Phys, r: int, at: At, j: int, p: int)
    requires Ok(s) && r in s.tables && at in s.tables[r].node && at.level > 0 && 0 <= j < FANOUT
    requires Child(at, j) !in s.tables[r].node
    requires p in s.role && s.role[p] == Held && p in s.mem && s.mem[p] == Table(EMPTY)
    ensures NodeOk(s.mem, s.role, s.tables[r], r, at) && Ok(LinkStep(s, r, at, j, p))
  {
    TreeOf(s, r);
    LinkTree(s.mem, s.role, s.tables[r], r, at, j, p);
    var s' := LinkStep(s, r, at, j, p);
    FreeOf(s);
    SameFree(s.mem, s'.mem, s.free, s.role, s'.role);
    forall r' | r' in s'.tables ensures TreeOk(s'.mem, s'.role, s'.tables[r'], r') {
      if r' != r { OtherTree(s, s', r'); }
    }
    forall q | q in s'.role ensures RoleOk(s'.tables, q, s'.role[q]) {
      if q != p { RoleOf(s, q); }
    }
    Fold(s');
  }

  /** A held page becomes the root of a new, empty table. */
  function NewRoot(s: Phys, p: int): Phys {
    s.(tables := s.tables[p := Tree(map[ROOT := p], map[])], role := s.role[p := Node(p, ROOT)])
  }

  lemma RootRole(s: Phys, r: int)
    requires Ok(s) && r in s.tables
    ensures r in s.role && s.role[r] == Node(r, ROOT)
  {
    TreeOf(s, r);
    assert NodeOk(s.mem, s.role, s.tables[r], r, ROOT);
  }

  lemma NewRootKeepsOk(s: Phys, p: int)
    requires Ok(s) && p in s.role && s.role[p] == Held && p in s.mem && s.mem[p] == Table(EMPTY)
    ensures p !in s.tables && Ok(NewRoot(s, p))
  {
    var s' := NewRoot(s, p);
    FreeOf(s);
    SameFree(s.mem, s'.mem, s.free, s.role, s'.role);
    assert p !in s.tables by {
      if p in s.tables { RootRole(s, p); }
    }
    forall r' | r' in s'.tables ensures TreeOk(s'.mem, s'.role, s'.tables[r'], r') {
      if r' != p { OtherTree(s, s', r'); } else {
        assert NodeOk(s'.mem, s'.role, s'.tables[p], p, ROOT);
      }
    }
    forall q | q in s'.role ensures RoleOk(s'.tables, q, s'.role[q]) {
      if q != p { RoleOf(s, q); }
    }
    Fold(s');
  }

  /** The table page holding the leaf slot of `vpn`. */
  ghost function LeafTable(s: Phys, r: int, vpn: int): int
    requires r in s.tables && NodeFor(0, vpn) in s.tables[r].node
  {
    s.tables[r].node[NodeFor(0, vpn)]
  }

  ghost predicate HasSlot(s: Phys, r: int, vpn: int) {
    r in s.tables && 0 <= vpn < MAXVPN && NodeFor(0, vpn) in s.tables[r].node && LeafTable(s, r, vpn) in s.mem
  }

  // ---- How many pages an operation needs ----

  /** The table pages below the root on the way to page `vpn`. */
  function Path(vpn: int): set<At> { {NodeFor(1, vpn), NodeFor(0, vpn)} }

  /** How many of them are missing from a table with the pages `nodes`. */
  function Missing(nodes: set<At>, vpn: int): nat {
    (if NodeFor(1, vpn) in nodes then 0 else 1) + (if NodeFor(0, vpn) in nodes then 0 else 1)
  }

  /** The pages it takes to map those of the virtual pages v, ..., v + n - 1 that are in `want`, in order. */
  ghost function Needed(nodes: set<At>, want: set<int>, v: int, n: nat): nat
    decreases n
  {
    if n == 0 then 0
    else if v in want then 1 + Missing(nodes, v) + Needed(nodes + Path(v), want, v + 1, n - 1)
    else Needed(nodes, want, v + 1, n - 1)
  }

  ghost function Span(lo: int, n: nat): (r: set<int>)
    ensures forall v :: v in r <==> lo <= v < lo + n
  {
    if n == 0 then {} else Span(lo, n - 1) + {lo + n - 1}
  }

  /** Three pages are always enough for one: the page and two table pages. */
  lemma {:induction false} NeededAtMost(nodes: set<At>, want: set<int>, v: int, n: nat)
    ensures Needed(nodes, want, v, n) <= 3 * n
    decreases n
  {
    if n > 0 {
      NeededAtMost(if v in want then nodes + Path(v) else nodes, want, v + 1, n - 1);
    }
  }

  /** No two virtual pages share a leaf slot, in one table or in two. */
  lemma OneSlot(s: Phys, r: int, v: int, q: int, w: int)
    requires Ok(s) && HasSlot(s, r, v) && HasSlot(s, q, w)
    ensures LeafTable(s, r, v) == LeafTable(s, q, w) && v % FANOUT == w % FANOUT <==> r == q && v == w
  {
    TreeOf(s, r);
    TreeOf(s, q);
    SlotOf(s.mem, s.role, s.tables[r], r, v);
    SlotOf(s.mem, s.role, s.tables[q], q, w);
    assert v == v / FANOUT * FANOUT + v % FANOUT && w == w / FANOUT * FANOUT + w % FANOUT;
  }

  /** Only the slot of `vpn` and pages in no table are written. */
  ghost predicate SlotWritten(s: Phys, s': Phys, r: int, vpn: int, e: Pte)
    requires HasSlot(s, r, vpn)
  {
    var q := LeafTable(s, r, vpn);
    && s'.tables == s.tables[r := Updated(s.tables[r], vpn, e)]
    && (forall p :: p in s.role && s.role[p].Node? ==>
          p in s.mem && p in s'.mem && s'.mem[p] == if p == q then SlotPage(s.mem[q], vpn, e) else s.mem[p])
  }

  lemma SlotTrees(s: Phys, s': Phys, r: int, vpn: int, e: Pte)
    requires Ok(s) && HasSlot(s, r, vpn) && SlotWritten(s, s', r, vpn, e)
    requires forall p :: p in s.role && !Loose(s.role[p]) && s.role[p] != User(r, vpn) ==>
               p in s'.role && s'.role[p] == s.role[p]
    requires e.v ==> Grants(e.perm) && (vpn < TRAPFRAME ==> e.ppn in s'.role && s'.role[e.ppn] == User(r, vpn))
    ensures TreesOk(s')
  {
    var q := LeafTable(s, r, vpn);
    TreeOf(s, r);
    SlotOf(s.mem, s.role, s.tables[r], r, vpn);
    UpdateTree(s.mem, s.role, s'.mem, s'.role, s.tables[r], r, vpn, e);
    forall r' | r' in s'.tables ensures TreeOk(s'.mem, s'.role, s'.tables[r'], r') {
      if r' != r { OtherTree(s, s', r'); }
    }
  }

  function Mapped(s: Phys, r: int, vpn: int, e: Pte, q: int): Phys
    requires r in s.tables && q in s.mem
  {
    Phys(s.mem[q := SlotPage(s.mem[q], vpn, e)], s.free, s.tables[r := Updated(s.tables[r], vpn, e)],
         if vpn < TRAPFRAME then s.role[e.ppn := User(r, vpn)] else s.role)
  }

  /** Mapping a held page at a virtual page that is not mapped. */
  lemma MapKeepsOk(s: Phys, r: int, vpn: int, e: Pte)
    requires Ok(s) && HasSlot(s, r, vpn) && vpn !in s.tables[r].flat
    requires e.v && Grants(e.perm) && (vpn < TRAPFRAME ==> e.ppn in s.role && s.role[e.ppn] == Held)
    ensures Ok(Mapped(s, r, vpn, e, LeafTable(s, r, vpn)))
  {
    var s' := Mapped(s, r, vpn, e, LeafTable(s, r, vpn));
    FreeOf(s);
    SameFree(s.mem, s'.mem, s.free, s.role, s'.role);
    SlotTrees(s, s', r, vpn, e);
    forall p | p in s'.role ensures RoleOk(s'.tables, p, s'.role[p]) {
      if vpn >= TRAPFRAME || p != e.ppn { RoleOf(s, p); }
    }
    Fold(s');
  }

  /** What unmapping `vpn` does to the roles: a user page is given back or kept by the caller. */
  ghost predicate Given(s: Phys, s': Phys, r: int, vpn: int)
    requires r in s.tables && vpn in s.tables[r].flat
  {
    var p := s.tables[r].flat[vpn].ppn;
    if vpn < TRAPFRAME then p in s'.role && Loose(s'.role[p]) && s'.role == s.role[p := s'.role[p]]
    else s'.role == s.role
  }

  lemma UnmapKeepsOk(s: Phys, s': Phys, r: int, vpn: int)
    requires Ok(s) && HasSlot(s, r, vpn) && vpn in s.tables[r].flat
    requires SlotWritten(s, s', r, vpn, ZERO) && Given(s, s', r, vpn) && FreeOk(s'.mem, s'.free, s'.role)
    ensures Ok(s')
  {
    SlotRoles(s, r, vpn);
    SlotTrees(s, s', r, vpn, ZERO);
    forall p | p in s'.role ensures RoleOk(s'.tables, p, s'.role[p]) {
      if vpn >= TRAPFRAME || p != s.tables[r].flat[vpn].ppn { RoleOf(s, p); }
    }
    Fold(s');
  }

  /** A mapped user page is that table's own, and used for nothing else. */
  lemma SlotRoles(s: Phys, r: int, vpn: int)
    requires Ok(s) && r in s.tables && vpn in s.tables[r].flat
    ensures 0 <= vpn < MAXVPN && NodeFor(0, vpn) in s.tables[r].node
    ensures var p := s.tables[r].flat[vpn].ppn;
            vpn < TRAPFRAME ==>
              && p in s.role && s.role[p] == User(r, vpn)
              && forall q :: q in s.role && s.role[q] == User(r, vpn) ==> q == p
  {
    TreeOf(s, r);
    assert LeafOk(s.role, s.tables[r], r, vpn);
    forall q | q in s.role && s.role[q] == User(r, vpn) ensures q == s.tables[r].flat[vpn].ppn { RoleOf(s, q); }
  }

  /** Every page of an empty table has been given back. */
  lemma DropKeepsOk(s: Phys, s': Phys, r: int)
    requires Ok(s) && r in s.tables && NoLeaves(s.tables[r])
    requires s'.tables == s.tables - {r} && FreeOk(s'.mem, s'.free, s'.role) && s'.role.Keys == s.role.Keys
    requires forall p :: p in s.role ==> s'.role[p] == if Of(s.role[p], r) then Free else s.role[p]
    requires forall p :: p in s.role && !Of(s.role[p], r) && p in s.mem ==> p in s'.mem && s'.mem[p] == s.mem[p]
    ensures Ok(s')
  {
    FreeOf(s);
    forall r' | r' in s'.tables ensures TreeOk(s'.mem, s'.role, s'.tables[r'], r') { OtherTree(s, s', r'); }
    forall p | p in s'.role ensures RoleOk(s'.tables, p, s'.role[p]) { RoleOf(s, p); }
    Fold(s');
  }

  // ---- Conservation ----

  /** The ways a page can be in use: a place on the free list, in a tree or in a flat map. */
  datatype Use = OnFreeList(i: int) | TablePage(table: int, at: At) | UserLeaf(table: int, vpn: int)

  ghost predicate UsedAs(s: Phys, p: int, use: Use) {
    match use
    case OnFreeList(i) => 0 <= i < |s.free| && s.free[i] == p
    case TablePage(r, at) => r in s.tables && at in s.tables[r].node && s.tables[r].node[at] == p
    case UserLeaf(r, vpn) =>
      r in s.tables && vpn in s.tables[r].flat && vpn < TRAPFRAME && s.tables[r].flat[vpn].ppn == p
  }

  /** The role of a page that is used in some way. */
  ghost function RoleFor(use: Use): Role {
    match use
    case OnFreeList(i) => Free
    case TablePage(r, at) => Node(r, at)
    case UserLeaf(r, vpn) => User(r, vpn)
  }

  lemma UseGivesRole(s: Phys, p: int, use: Use)
    requires Ok(s) && UsedAs(s, p, use)
    ensures p in s.role && s.role[p] == RoleFor(use)
  {
    match use
    case OnFreeList(i) =>
      FreeOf(s);
      assert p in s.free;
    case TablePage(r, at) =>
      TreeOf(s, r);
      assert NodeOk(s.mem, s.role, s.tables[r], r, at);
    case UserLeaf(r, vpn) => SlotRoles(s, r, vpn);
  }

  /** No page is used twice: not in two places of the free list, of one table or of two tables. */
  lemma UsedOnce(s: Phys, p: int, use: Use, use': Use)
    requires Ok(s) && UsedAs(s, p, use) && UsedAs(s, p, use')
    ensures use == use'
  {
    UseGivesRole(s, p, use);
    UseGivesRole(s, p, use');
    FreeOf(s);
  }

  /** No page is lost: one that no kernel data structure holds is free, in a tree, or mapped. */
  lemma NothingLost(s: Phys, p: int) returns (use: Use)
    requires Ok(s) && p in s.role && s.role[p] != Held
    ensures UsedAs(s, p, use)
  {
    RoleOf(s, p);
    match s.role[p]
    case Free =>
      FreeOf(s);
      assert p in s.free;
      var i :| 0 <= i < |s.free| && s.free[i] == p;
      use := OnFreeList(i);
    case Node(r, at) => use := TablePage(r, at);
    case User(r, vpn) => use := UserLeaf(r, vpn);
  }
}
