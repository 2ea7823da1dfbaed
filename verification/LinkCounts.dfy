/**
 * Link counts: create, link and unlink of kernel/sysfile.c with dirlookup and
 * dirlink of kernel/fs.c.
 *
 * The state is the table of allocated inodes; a directory holds its entries, and
 * an entry with inode number 0 is free.  Path resolution is left out: the
 * operations are given the inodes that a path leads to.  Whether a directory
 * entry can be written is decided by the environment (`room`).
 */
module LinkCounts {
  import opened Wrappers

  const ROOT := 1

  datatype Kind = Dir | File | Device

  datatype Dirent = Dirent(name: string, inum: int)

  datatype Node = Node(kind: Kind, nlink: int, entries: seq<Dirent>)

  type Nodes = map<int, Node>

  const FREE := Dirent("", 0)

  predicate Dots(name: string) { name == "." || name == ".." }

  /** A directory that can be reached: it has not been unlinked. */
  predicate Linked(n: Nodes, d: int) { d in n && n[d].kind.Dir? && n[d].nlink > 0 }

  /** Slot `s` of the linked directory `d` gives `i` a name. */
  predicate Names(n: Nodes, d: int, s: int, i: int) {
    Linked(n, d) && 0 <= s < |n[d].entries| && n[d].entries[s].inum == i && i != 0 && !Dots(n[d].entries[s].name)
  }

  /** Slot `s` of the linked directory `d`, not the root, is a ".." entry for `i`. */
  predicate DotDot(n: Nodes, d: int, s: int, i: int) {
    Linked(n, d) && d != ROOT && 0 <= s < |n[d].entries| && n[d].entries[s].inum == i && n[d].entries[s].name == ".."
  }

  ghost function NameRefs(n: Nodes, i: int): set<(int, int)> {
    set d, s | d in n && 0 <= s < |n[d].entries| && Names(n, d, s, i) :: (d, s)
  }

  ghost function DotRefs(n: Nodes, i: int): set<(int, int)> {
    set d, s | d in n && 0 <= s < |n[d].entries| && DotDot(n, d, s, i) :: (d, s)
  }

  /** What the link count of `i` should be. */
  ghost function Count(n: Nodes, i: int): int {
    |NameRefs(n, i)| + |DotRefs(n, i)| + if i == ROOT then 1 else 0
  }

  // ---- The invariant ----

  ghost predicate SlotOk(n: Nodes, d: int, s: int)
    requires d in n && 0 <= s < |n[d].entries|
  {
    var e := n[d].entries[s];
    e.inum != 0 ==> e.inum in n && !Dots(e.name)
  }

  /** A linked directory starts with "." and "..", and everything it names exists. */
  ghost predicate DirOk(n: Nodes, d: int)
    requires d in n
  {
    var e := n[d].entries;
    && |e| >= 2 && e[0] == Dirent(".", d) && e[1].name == ".." && e[1].inum != 0
    && (d == ROOT ==> e[1].inum == ROOT)
    && forall s :: 2 <= s < |e| ==> SlotOk(n, d, s)
  }

  function ParentOf(n: Nodes, d: int): int {
    if d in n && |n[d].entries| >= 2 then n[d].entries[1].inum else 0
  }

  /**
   * A directory that is named is linked, and its ".." leads back to the one
   * directory that names it; `home` is ghost and tells in which slot.
   */
  ghost predicate ChildOk(n: Nodes, home: map<int, int>, d: int, s: int, i: int) {
    Names(n, d, s, i) && i in n && n[i].kind.Dir? ==>
      Linked(n, i) && i != ROOT && ParentOf(n, i) == d && i in home && home[i] == s
  }

  /** A linked directory other than the root is named by its parent. */
  ghost predicate NamedOk(n: Nodes, home: map<int, int>, c: int) {
    Linked(n, c) && c != ROOT ==> c in home && home[c] >= 2 && Names(n, ParentOf(n, c), home[c], c)
  }

  /** A directory that has been unlinked names nothing. */
  ghost predicate UnlinkedOk(n: Nodes, d: int) {
    d in n && n[d].kind.Dir? && !Linked(n, d) ==> OnlyDots(n[d].entries)
  }

  predicate OnlyDots(entries: seq<Dirent>) {
    forall s :: 0 <= s < |entries| && entries[s].inum != 0 ==> Dots(entries[s].name)
  }

  ghost predicate Shape(n: Nodes, home: map<int, int>) {
    && Linked(n, ROOT) && 0 !in n
    && (forall d :: Linked(n, d) ==> DirOk(n, d))
    && (forall d :: UnlinkedOk(n, d))
    && (forall d, s, i :: ChildOk(n, home, d, s, i))
    && (forall c :: NamedOk(n, home, c))
  }

  ghost predicate CountsOk(n: Nodes) {
    forall i :: i in n ==> n[i].nlink == Count(n, i)
  }

  // ---- Counting references ----

  lemma InNameRefs(n: Nodes, i: int, d: int, s: int)
    ensures (d, s) in NameRefs(n, i) <==> Names(n, d, s, i)
  {
  }

  lemma InDotRefs(n: Nodes, i: int, d: int, s: int)
    ensures (d, s) in DotRefs(n, i) <==> DotDot(n, d, s, i)
  {
  }

  /** The names of `i` in `n'` are those in `n`, and in addition slot (d, s) if `more`. */
  ghost predicate NamesPlus(n: Nodes, n': Nodes, i: int, d: int, s: int, more: bool) {
    && (more ==> !Names(n, d, s, i))
    && forall d', s' :: Names(n', d', s', i) <==> Names(n, d', s', i) || (more && d' == d && s' == s)
  }

  ghost predicate DotsPlus(n: Nodes, n': Nodes, i: int, d: int, s: int, more: bool) {
    && (more ==> !DotDot(n, d, s, i))
    && forall d', s' :: DotDot(n', d', s', i) <==> DotDot(n, d', s', i) || (more && d' == d && s' == s)
  }

  lemma CountNames(n: Nodes, n': Nodes, i: int, d: int, s: int, more: bool)
    requires NamesPlus(n, n', i, d, s, more)
    ensures |NameRefs(n', i)| == |NameRefs(n, i)| + if more then 1 else 0
  {
    var a, b := NameRefs(n, i), NameRefs(n', i);
    var want := a + if more then {(d, s)} else {};
    forall x: (int, int) ensures x in b <==> x in want {
      InNameRefs(n, i, x.0, x.1);
      InNameRefs(n', i, x.0, x.1);
    }
    assert b == want;
    InNameRefs(n, i, d, s);
  }

  lemma CountDots(n: Nodes, n': Nodes, i: int, d: int, s: int, more: bool)
    requires DotsPlus(n, n', i, d, s, more)
    ensures |DotRefs(n', i)| == |DotRefs(n, i)| + if more then 1 else 0
  {
    var a, b := DotRefs(n, i), DotRefs(n', i);
    var want := a + if more then {(d, s)} else {};
    forall x: (int, int) ensures x in b <==> x in want {
      InDotRefs(n, i, x.0, x.1);
      InDotRefs(n', i, x.0, x.1);
    }
    assert b == want;
    InDotRefs(n, i, d, s);
  }

  // ---- Steps ----

  function Put(entries: seq<Dirent>, s: nat, e: Dirent): seq<Dirent> {
    if s < |entries| then entries[s := e] else entries + [e]
  }

  /** Slot `s` of directory `d` can take a new entry. */
  predicate FreeSlot(n: Nodes, d: int, s: int) {
    Linked(n, d) && 2 <= s <= |n[d].entries| && (s < |n[d].entries| ==> n[d].entries[s].inum == 0)
  }

  function WithEntry(n: Nodes, d: int, s: nat, e: Dirent): Nodes
    requires d in n
  {
    n[d := n[d].(entries := Put(n[d].entries, s, e))]
  }

  function WithLinks(n: Nodes, i: int, delta: int): Nodes
    requires i in n
  {
    n[i := n[i].(nlink := n[i].nlink + delta)]
  }

  /** The tree with one more name for the file `i`, and its count raised. */
  function Named(n: Nodes, d: int, s: nat, name: string, i: int): Nodes
    requires d in n && i in n
  {
    WithLinks(WithEntry(n, d, s, Dirent(name, i)), i, 1)
  }

  lemma NamedShape(n: Nodes, home: map<int, int>, d: int, s: nat, name: string, i: int)
    requires Shape(n, home) && FreeSlot(n, d, s) && i in n && !n[i].kind.Dir? && !Dots(name)
    ensures Shape(Named(n, d, s, name, i), home)
  {
    var n' := Named(n, d, s, name, i);
    assert DirOk(n, d);
    forall d' | Linked(n', d') ensures DirOk(n', d') {
      assert Linked(n, d') && DirOk(n, d');
      forall s' | 2 <= s' < |n'[d'].entries| ensures SlotOk(n', d', s') {
        assert d' != d || s' != s ==> SlotOk(n, d', s');
      }
    }
    forall d' ensures UnlinkedOk(n', d') {
      assert UnlinkedOk(n, d');
    }
    forall d', s', j ensures ChildOk(n', home, d', s', j) {
      assert ChildOk(n, home, d', s', j);
    }
    forall c ensures NamedOk(n', home, c) {
      assert NamedOk(n, home, c);
    }
  }

  lemma NamedRefs(n: Nodes, d: int, s: nat, name: string, i: int, j: int)
    requires FreeSlot(n, d, s) && i in n && !n[i].kind.Dir? && !Dots(name) && i != 0 && j != 0
    ensures NamesPlus(n, Named(n, d, s, name, i), j, d, s, j == i)
    ensures DotsPlus(n, Named(n, d, s, name, i), j, d, s, false)
  {
    var n' := Named(n, d, s, name, i);
    forall d', s' ensures Names(n', d', s', j) <==> Names(n, d', s', j) || (j == i && d' == d && s' == s) { }
    forall d', s' ensures DotDot(n', d', s', j) <==> DotDot(n, d', s', j) { }
  }

  lemma NamedCounts(n: Nodes, d: int, s: nat, name: string, i: int)
    requires CountsOk(n) && FreeSlot(n, d, s) && i in n && !n[i].kind.Dir? && !Dots(name) && 0 !in n
    ensures CountsOk(Named(n, d, s, name, i))
  {
    var n' := Named(n, d, s, name, i);
    forall j | j in n' ensures n'[j].nlink == Count(n', j) {
      NamedRefs(n, d, s, name, i, j);
      CountNames(n, n', j, d, s, j == i);
      CountDots(n, n', j, d, s, false);
    }
  }

  /** The tree with the name of the file `i` in slot (d, s) removed, and its count lowered. */
  function Unnamed(n: Nodes, d: int, s: nat, i: int): Nodes
    requires d in n && i in n
  {
    WithLinks(WithEntry(n, d, s, FREE), i, -1)
  }

  lemma UnnamedShape(n: Nodes, home: map<int, int>, d: int, s: nat, i: int)
    requires Shape(n, home) && Names(n, d, s, i) && i in n && !n[i].kind.Dir?
    ensures Shape(Unnamed(n, d, s, i), home)
  {
    var n' := Unnamed(n, d, s, i);
    assert DirOk(n, d);
    forall d' | Linked(n', d') ensures DirOk(n', d') {
      assert Linked(n, d') && DirOk(n, d');
      forall s' | 2 <= s' < |n'[d'].entries| ensures SlotOk(n', d', s') {
        assert d' != d || s' != s ==> SlotOk(n, d', s');
      }
    }
    forall d' ensures UnlinkedOk(n', d') {
      assert UnlinkedOk(n, d');
    }
    forall d', s', j ensures ChildOk(n', home, d', s', j) {
      assert ChildOk(n, home, d', s', j);
    }
    forall c ensures NamedOk(n', home, c) {
      assert NamedOk(n, home, c);
    }
  }

  lemma UnnamedRefs(n: Nodes, d: int, s: nat, i: int, j: int)
    requires Names(n, d, s, i) && i in n && !n[i].kind.Dir? && j != 0
    ensures NamesPlus(Unnamed(n, d, s, i), n, j, d, s, j == i)
    ensures DotsPlus(Unnamed(n, d, s, i), n, j, d, s, false)
  {
    var n' := Unnamed(n, d, s, i);
    forall d', s' ensures Names(n, d', s', j) <==> Names(n', d', s', j) || (j == i && d' == d && s' == s) { }
    forall d', s' ensures DotDot(n', d', s', j) <==> DotDot(n, d', s', j) { }
  }

  lemma UnnamedCounts(n: Nodes, d: int, s: nat, i: int)
    requires CountsOk(n) && Names(n, d, s, i) && i in n && !n[i].kind.Dir? && 0 !in n
    ensures CountsOk(Unnamed(n, d, s, i))
  {
    var n' := Unnamed(n, d, s, i);
    forall j | j in n' ensures n'[j].nlink == Count(n', j) {
      UnnamedRefs(n, d, s, i, j);
      CountNames(n', n, j, d, s, j == i);
      CountDots(n', n, j, d, s, false);
    }
  }

  // ---- New inodes ----

  /** A new file `i` and its first name. */
  function NewFile(n: Nodes, d: int, s: nat, name: string, i: int, kind: Kind): Nodes
    requires d in n && d != i
  {
    WithEntry(n[i := Node(kind, 1, [])], d, s, Dirent(name, i))
  }

  /** A new directory `i`, its name, and its ".." counted in `d`. */
  function NewDir(n: Nodes, d: int, s: nat, name: string, i: int): Nodes
    requires d in n && d != i
  {
    WithLinks(WithEntry(n[i := Node(Dir, 1, [Dirent(".", i), Dirent("..", d)])], d, s, Dirent(name, i)), d, 1)
  }

  lemma NewFileShape(n: Nodes, home: map<int, int>, d: int, s: nat, name: string, i: int, kind: Kind)
    requires Shape(n, home) && FreeSlot(n, d, s) && i !in n && i != 0 && !kind.Dir? && !Dots(name)
    ensures Shape(NewFile(n, d, s, name, i, kind), home)
  {
    var n' := NewFile(n, d, s, name, i, kind);
    assert DirOk(n, d);
    forall d' | Linked(n', d') ensures DirOk(n', d') {
      assert Linked(n, d') && DirOk(n, d');
      forall s' | 2 <= s' < |n'[d'].entries| ensures SlotOk(n', d', s') {
        assert d' != d || s' != s ==> SlotOk(n, d', s');
      }
    }
    forall d' ensures UnlinkedOk(n', d') {
      assert UnlinkedOk(n, d');
    }
    forall d', s', j ensures ChildOk(n', home, d', s', j) {
      assert ChildOk(n, home, d', s', j);
    }
    forall c ensures NamedOk(n', home, c) {
      assert NamedOk(n, home, c);
    }
  }

  /** An inode number that is not allocated is named nowhere. */
  lemma Unknown(n: Nodes, home: map<int, int>, i: int, d: int, s: int)
    requires Shape(n, home) && i !in n && i != 0
    ensures !Names(n, d, s, i) && !DotDot(n, d, s, i)
  {
    if Linked(n, d) {
      assert DirOk(n, d);
      assert 2 <= s < |n[d].entries| ==> SlotOk(n, d, s);
      assert NamedOk(n, home, d);
    }
  }

  lemma NewFileRefs(n: Nodes, home: map<int, int>, d: int, s: nat, name: string, i: int, kind: Kind, j: int)
    requires Shape(n, home) && FreeSlot(n, d, s) && i !in n && i != 0 && !kind.Dir? && !Dots(name) && j != 0
    ensures NamesPlus(n, NewFile(n, d, s, name, i, kind), j, d, s, j == i)
    ensures DotsPlus(n, NewFile(n, d, s, name, i, kind), j, d, s, false)
  {
    var n' := NewFile(n, d, s, name, i, kind);
    forall d', s' ensures Names(n', d', s', j) <==> Names(n, d', s', j) || (j == i && d' == d && s' == s) { }
    forall d', s' ensures DotDot(n', d', s', j) <==> DotDot(n, d', s', j) { }
  }

  lemma NewFileCount(n: Nodes, home: map<int, int>, d: int, s: nat, name: string, i: int, kind: Kind, j: int)
    requires Shape(n, home) && CountsOk(n) && FreeSlot(n, d, s) && i !in n && i != 0 && !kind.Dir? && !Dots(name)
    requires j in n || j == i
    ensures var n' := NewFile(n, d, s, name, i, kind); n'[j].nlink == Count(n', j)
  {
    var n' := NewFile(n, d, s, name, i, kind);
    NewFileRefs(n, home, d, s, name, i, kind, j);
    CountNames(n, n', j, d, s, j == i);
    CountDots(n, n', j, d, s, false);
    if j == i { NoCount(n, home, i); }
  }

  lemma NewFileCounts(n: Nodes, home: map<int, int>, d: int, s: nat, name: string, i: int, kind: Kind)
    requires Shape(n, home) && CountsOk(n) && FreeSlot(n, d, s) && i !in n && i != 0 && !kind.Dir? && !Dots(name)
    ensures CountsOk(NewFile(n, d, s, name, i, kind))
  {
    var n' := NewFile(n, d, s, name, i, kind);
    forall j | j in n' ensures n'[j].nlink == Count(n', j) {
      NewFileCount(n, home, d, s, name, i, kind, j);
    }
  }

  lemma NoCount(n: Nodes, home: map<int, int>, i: int)
    requires Shape(n, home) && i !in n && i != 0
    ensures Count(n, i) == 0
  {
    forall x: (int, int) ensures x !in NameRefs(n, i) && x !in DotRefs(n, i) {
      Unknown(n, home, i, x.0, x.1);
    }
    assert NameRefs(n, i) == {} && DotRefs(n, i) == {};
  }

  lemma NewDirShape(n: Nodes, home: map<int, int>, d: int, s: nat, name: string, i: int)
    requires Shape(n, home) && FreeSlot(n, d, s) && i !in n && i != 0 && !Dots(name)
    ensures Shape(NewDir(n, d, s, name, i), home[i := s])
  {
    var n', home' := NewDir(n, d, s, name, i), home[i := s];
    assert DirOk(n, d);
    forall d' | Linked(n', d') ensures DirOk(n', d') {
      assert d' != i ==> Linked(n, d') && DirOk(n, d');
      forall s' | 2 <= s' < |n'[d'].entries| ensures SlotOk(n', d', s') {
        assert d' != d || s' != s ==> SlotOk(n, d', s');
      }
    }
    forall d' ensures UnlinkedOk(n', d') {
      assert UnlinkedOk(n, d');
    }
    forall d', s', j ensures ChildOk(n', home', d', s', j) {
      assert ChildOk(n, home, d', s', j);
      Unknown(n, home, i, d', s');
    }
    forall c ensures NamedOk(n', home', c) {
      assert NamedOk(n, home, c);
    }
  }

  lemma NewDirRefs(n: Nodes, home: map<int, int>, d: int, s: nat, name: string, i: int, j: int)
    requires Shape(n, home) && FreeSlot(n, d, s) && i !in n && i != 0 && !Dots(name) && j != 0
    ensures NamesPlus(n, NewDir(n, d, s, name, i), j, d, s, j == i)
    ensures DotsPlus(n, NewDir(n, d, s, name, i), j, i, 1, j == d)
  {
    var n' := NewDir(n, d, s, name, i);
    assert DirOk(n, d);
    forall d', s' ensures Names(n', d', s', j) <==> Names(n, d', s', j) || (j == i && d' == d && s' == s) { }
    forall d', s' ensures DotDot(n', d', s', j) <==> DotDot(n, d', s', j) || (j == d && d' == i && s' == 1) { }
  }

  lemma NewDirCounts(n: Nodes, home: map<int, int>, d: int, s: nat, name: string, i: int)
    requires Shape(n, home) && CountsOk(n) && FreeSlot(n, d, s) && i !in n && i != 0 && !Dots(name)
    ensures CountsOk(NewDir(n, d, s, name, i))
  {
    var n' := NewDir(n, d, s, name, i);
    forall j | j in n' ensures n'[j].nlink == Count(n', j) {
      NewDirRefs(n, home, d, s, name, i, j);
      CountNames(n, n', j, d, s, j == i);
      CountDots(n, n', j, i, 1, j == d);
      if j == i { NoCount(n, home, i); }
    }
  }

  // ---- Removing a directory ----

  predicate Empty(entries: seq<Dirent>) { forall s :: 2 <= s < |entries| ==> entries[s].inum == 0 }

  /** Slot `s` of `d` names the empty directory `i`. */
  ghost predicate CanRemove(n: Nodes, home: map<int, int>, d: int, s: int, i: int) {
    Shape(n, home) && Names(n, d, s, i) && i in n && n[i].kind.Dir? && Empty(n[i].entries)
  }

  lemma NoChildren(n: Nodes, home: map<int, int>, d: int, s: int, i: int, c: int, t: int)
    requires CanRemove(n, home, d, s, i)
    ensures !DotDot(n, c, t, i) && !Names(n, i, t, c) && i != d && (Names(n, c, t, i) ==> c == d && t == s)
  {
    assert ChildOk(n, home, d, s, i) && ChildOk(n, home, c, t, i) && NamedOk(n, home, c);
    assert DirOk(n, i);
    if Linked(n, c) {
      assert DirOk(n, c);
      assert 2 <= t < |n[c].entries| ==> SlotOk(n, c, t);
    }
  }

  lemma RemovableCount(n: Nodes, home: map<int, int>, d: int, s: int, i: int)
    requires CanRemove(n, home, d, s, i) && CountsOk(n)
    ensures n[i].nlink == 1 && i != ROOT && n[d].nlink >= 2 && DotDot(n, i, 1, d)
  {
    assert ChildOk(n, home, d, s, i);
    forall x: (int, int) ensures (x in NameRefs(n, i) <==> x == (d, s)) && x !in DotRefs(n, i) {
      NoChildren(n, home, d, s, i, x.0, x.1);
      InNameRefs(n, i, x.0, x.1);
    }
    assert NameRefs(n, i) == {(d, s)} && DotRefs(n, i) == {};
    assert DirOk(n, i);
    InDotRefs(n, d, i, 1);
    assert NamedOk(n, home, d);
    if d != ROOT { InNameRefs(n, d, ParentOf(n, d), home[d]); }
  }

  function Removed(n: Nodes, d: int, s: nat, i: int): Nodes
    requires d in n && i in n
  {
    WithLinks(WithLinks(WithEntry(n, d, s, FREE), d, -1), i, -1)
  }

  lemma RemovedDirs(n: Nodes, home: map<int, int>, d: int, s: nat, i: int, d': int)
    requires CanRemove(n, home, d, s, i) && n[i].nlink == 1 && n[d].nlink >= 2
    ensures var n' := Removed(n, d, s, i); UnlinkedOk(n', d') && (Linked(n', d') ==> DirOk(n', d'))
  {
    var n' := Removed(n, d, s, i);
    NoChildren(n, home, d, s, i, d, s);
    assert ChildOk(n, home, d, s, i) && DirOk(n, d) && DirOk(n, i) && UnlinkedOk(n, d');
    if Linked(n', d') {
      assert Linked(n, d') && DirOk(n, d');
      forall s' | 2 <= s' < |n'[d'].entries| ensures SlotOk(n', d', s') {
        assert d' != d || s' != s ==> SlotOk(n, d', s');
      }
    }
  }

  lemma RemovedShape(n: Nodes, home: map<int, int>, d: int, s: nat, i: int)
    requires CanRemove(n, home, d, s, i) && n[i].nlink == 1 && n[d].nlink >= 2
    ensures Shape(Removed(n, d, s, i), home)
  {
    var n' := Removed(n, d, s, i);
    NoChildren(n, home, d, s, i, d, s);
    assert ChildOk(n, home, d, s, i) && DirOk(n, d);
    forall d' ensures UnlinkedOk(n', d') && (Linked(n', d') ==> DirOk(n', d')) {
      RemovedDirs(n, home, d, s, i, d');
    }
    forall d', s', j ensures ChildOk(n', home, d', s', j) {
      assert ChildOk(n, home, d', s', j);
      NoChildren(n, home, d, s, i, d', s');
    }
    forall c ensures NamedOk(n', home, c) {
      assert NamedOk(n, home, c);
      if c in home { NoChildren(n, home, d, s, i, c, home[c]); }
    }
  }

  lemma RemovedRefs(n: Nodes, home: map<int, int>, d: int, s: nat, i: int, j: int)
    requires CanRemove(n, home, d, s, i) && n[i].nlink == 1 && n[d].nlink >= 2 && j != 0
    ensures NamesPlus(Removed(n, d, s, i), n, j, d, s, j == i)
    ensures DotsPlus(Removed(n, d, s, i), n, j, i, 1, j == d)
  {
    var n' := Removed(n, d, s, i);
    assert DirOk(n, i) && ChildOk(n, home, d, s, i);
    NoChildren(n, home, d, s, i, d, s);
    forall d', s' ensures Names(n, d', s', j) <==> Names(n', d', s', j) || (j == i && d' == d && s' == s) {
      NoChildren(n, home, d, s, i, j, s');
    }
    forall d', s' ensures DotDot(n, d', s', j) <==> DotDot(n', d', s', j) || (j == d && d' == i && s' == 1) {
      assert 2 <= s' < |n[i].entries| ==> SlotOk(n, i, s');
    }
  }

  lemma RemovedCounts(n: Nodes, home: map<int, int>, d: int, s: nat, i: int)
    requires CanRemove(n, home, d, s, i) && CountsOk(n)
    ensures n[i].nlink == 1 && n[d].nlink >= 2 && i != d
    ensures CountsOk(Removed(n, d, s, i)) && Shape(Removed(n, d, s, i), home)
  {
    RemovableCount(n, home, d, s, i);
    NoChildren(n, home, d, s, i, d, s);
    RemovedShape(n, home, d, s, i);
    var n' := Removed(n, d, s, i);
    forall j | j in n' ensures n'[j].nlink == Count(n', j) {
      RemovedRefs(n, home, d, s, i, j);
      CountNames(n', n, j, d, s, j == i);
      CountDots(n', n, j, i, 1, j == d);
    }
  }

  // ---- Inodes without links ----

  /** An inode without links, new or about to be freed, bears on nothing. */
  lemma UnlinkedInode(n: Nodes, home: map<int, int>, i: int, node: Node)
    requires Shape(n, home) && CountsOk(n) && i !in n && i != 0 && node.nlink == 0 && OnlyDots(node.entries)
    ensures Shape(n[i := node], home) && CountsOk(n[i := node])
  {
    var n' := n[i := node];
    forall d | Linked(n', d) ensures DirOk(n', d) {
      assert DirOk(n, d);
      forall s | 2 <= s < |n'[d].entries| ensures SlotOk(n', d, s) { assert SlotOk(n, d, s); }
    }
    forall d ensures UnlinkedOk(n', d) {
      assert UnlinkedOk(n, d);
    }
    forall d, s, j ensures ChildOk(n', home, d, s, j) {
      assert ChildOk(n, home, d, s, j);
      Unknown(n, home, i, d, s);
    }
    forall c ensures NamedOk(n', home, c) { assert NamedOk(n, home, c); }
    forall j | j in n' ensures n'[j].nlink == Count(n', j) {
      CountNames(n, n', j, 0, 0, false);
      CountDots(n, n', j, 0, 0, false);
      if j == i { NoCount(n, home, i); }
    }
  }

  lemma FreedShape(n: Nodes, home: map<int, int>, i: int)
    requires Shape(n, home) && i in n && n[i].nlink == 0 && forall d, s :: !Names(n, d, s, i)
    ensures Shape(n - {i}, home)
  {
    var n' := n - {i};
    forall d | Linked(n', d) ensures DirOk(n', d) {
      assert Linked(n, d) && DirOk(n, d);
      forall s | 2 <= s < |n'[d].entries| ensures SlotOk(n', d, s) {
        assert SlotOk(n, d, s) && !Names(n, d, s, i);
      }
    }
    forall d ensures UnlinkedOk(n', d) { assert UnlinkedOk(n, d); }
    forall d, s, j ensures ChildOk(n', home, d, s, j) { assert ChildOk(n, home, d, s, j); }
    forall c ensures NamedOk(n', home, c) { assert NamedOk(n, home, c); }
  }

  lemma FreedRefs(n: Nodes, i: int, j: int)
    requires i in n && n[i].nlink == 0
    ensures NamesPlus(n, n - {i}, j, 0, 0, false) && DotsPlus(n, n - {i}, j, 0, 0, false)
  {
  }

  lemma FreedCounts(n: Nodes, i: int)
    requires CountsOk(n) && i in n && n[i].nlink == 0
    ensures CountsOk(n - {i})
  {
    var n' := n - {i};
    forall j | j in n' ensures n'[j].nlink == Count(n', j) {
      FreedRefs(n, i, j);
      CountNames(n, n', j, 0, 0, false);
      CountDots(n, n', j, 0, 0, false);
    }
  }

  lemma FreedInode(n: Nodes, home: map<int, int>, i: int)
    requires Shape(n, home) && CountsOk(n) && i in n && n[i].nlink == 0
    ensures Shape(n - {i}, home) && CountsOk(n - {i})
  {
    forall d, s ensures !Names(n, d, s, i) { InNameRefs(n, i, d, s); }
    FreedShape(n, home, i);
    FreedCounts(n, i);
  }

  // ---- The invariant as a whole ----

  ghost predicate Opened(n: Nodes) { true }

  /** The invariant, unfolded only for a state that a proof mentions with `Opened`. */
  ghost predicate Ok(n: Nodes, home: map<int, int>) {
    forall m: Nodes {:trigger Opened(m)} :: m == n && Opened(m) ==> Shape(m, home) && CountsOk(m)
  }

  lemma ShapeOf(n: Nodes, home: map<int, int>)
    requires Ok(n, home)
    ensures Shape(n, home)
  {
    assert Opened(n);
  }

  lemma DirOf(n: Nodes, home: map<int, int>, d: int)
    requires Ok(n, home) && Linked(n, d)
    ensures DirOk(n, d) && 0 !in n
  {
    ShapeOf(n, home);
  }

  /** What the invariant says about one inode. */
  lemma LinkCount(n: Nodes, home: map<int, int>, i: int)
    requires Ok(n, home) && i in n
    ensures n[i].nlink == |NameRefs(n, i)| + |DotRefs(n, i)| + if i == ROOT then 1 else 0
  {
    assert Opened(n);
  }

  /** What a directory entry leads to exists, and a file's entry is a name. */
  lemma Existing(n: Nodes, home: map<int, int>, d: int, s: nat)
    requires Ok(n, home) && Linked(n, d) && s < |n[d].entries| && n[d].entries[s].inum != 0
    ensures var i := n[d].entries[s].inum; i in n && (!n[i].kind.Dir? ==> Names(n, d, s, i))
  {
    DirOf(n, home, d);
    ShapeOf(n, home);
    assert NamedOk(n, home, d);
    assert 2 <= s ==> SlotOk(n, d, s);
  }

  /** An inode that has a name has a link count of at least 1. */
  lemma NamedIsLinked(n: Nodes, home: map<int, int>, d: int, s: int, i: int)
    requires Ok(n, home) && Names(n, d, s, i)
    ensures i in n && n[i].nlink >= 1 && 2 <= s < |n[d].entries|
  {
    DirOf(n, home, d);
    assert 2 <= s ==> SlotOk(n, d, s);
    LinkCount(n, home, i);
    InNameRefs(n, i, d, s);
  }

  /** The slot that dirlink finds in a linked directory, and the name it accepts. */
  lemma FoundSlot(n: Nodes, home: map<int, int>, d: int, s: nat, name: string)
    requires Ok(n, home) && Linked(n, d) && s <= |n[d].entries|
    requires s < |n[d].entries| ==> n[d].entries[s].inum == 0
    requires forall t :: 0 <= t < |n[d].entries| ==> n[d].entries[t].inum == 0 || n[d].entries[t].name != name
    ensures FreeSlot(n, d, s) && !Dots(name)
  {
    DirOf(n, home, d);
    assert n[d].entries[0].inum == d && n[d].entries[1].inum != 0;
  }

  lemma NamedStep(n: Nodes, home: map<int, int>, d: int, s: nat, name: string, i: int)
    requires Ok(n, home) && FreeSlot(n, d, s) && i in n && !n[i].kind.Dir? && !Dots(name)
    ensures Ok(Named(n, d, s, name, i), home)
  {
    assert Opened(n);
    NamedShape(n, home, d, s, name, i);
    NamedCounts(n, d, s, name, i);
  }

  lemma UnnamedStep(n: Nodes, home: map<int, int>, d: int, s: nat, i: int)
    requires Ok(n, home) && Names(n, d, s, i) && i in n && !n[i].kind.Dir?
    ensures Ok(Unnamed(n, d, s, i), home)
  {
    assert Opened(n);
    UnnamedShape(n, home, d, s, i);
    UnnamedCounts(n, d, s, i);
  }

  lemma RemovedStep(n: Nodes, home: map<int, int>, d: int, s: nat, i: int)
    requires Ok(n, home) && Names(n, d, s, i) && i in n && n[i].kind.Dir? && Empty(n[i].entries)
    ensures Ok(Removed(n, d, s, i), home) && i != d && n[i].nlink == 1 && n[d].nlink >= 2
  {
    assert Opened(n);
    RemovedCounts(n, home, d, s, i);
  }

  lemma NewFileStep(n: Nodes, home: map<int, int>, d: int, s: nat, name: string, i: int, kind: Kind)
    requires Ok(n, home) && FreeSlot(n, d, s) && i !in n && i != 0 && !kind.Dir? && !Dots(name)
    ensures Ok(NewFile(n, d, s, name, i, kind), home)
  {
    assert Opened(n);
    NewFileShape(n, home, d, s, name, i, kind);
    NewFileCounts(n, home, d, s, name, i, kind);
  }

  lemma NewDirStep(n: Nodes, home: map<int, int>, d: int, s: nat, name: string, i: int)
    requires Ok(n, home) && FreeSlot(n, d, s) && i !in n && i != 0 && !Dots(name)
    ensures Ok(NewDir(n, d, s, name, i), home[i := s])
  {
    assert Opened(n);
    NewDirShape(n, home, d, s, name, i);
    NewDirCounts(n, home, d, s, name, i);
  }

  lemma OrphanStep(n: Nodes, home: map<int, int>, i: int, node: Node)
    requires Ok(n, home) && i !in n && i != 0 && node.nlink == 0 && OnlyDots(node.entries)
    ensures Ok(n[i := node], home)
  {
    assert Opened(n);
    UnlinkedInode(n, home, i, node);
  }

  lemma FreedStep(n: Nodes, home: map<int, int>, i: int)
    requires Ok(n, home) && i in n && n[i].nlink == 0
    ensures Ok(n - {i}, home)
  {
    assert Opened(n);
    FreedInode(n, home, i);
  }

  // ---- Directories that have been unlinked ----

  /** Slot `s` of directory `d`, linked or not, can take a new entry. */
  predicate OpenSlot(n: Nodes, d: int, s: int) {
    d in n && n[d].kind.Dir? && 0 <= s <= |n[d].entries| && (s < |n[d].entries| ==> n[d].entries[s].inum == 0)
  }

  /** Nothing refers to an unlinked directory. */
  lemma UnlinkedUnnamed(n: Nodes, home: map<int, int>, d: int, p: int, t: int)
    requires Ok(n, home) && d in n && n[d].kind.Dir? && !Linked(n, d)
    ensures d != ROOT && n[d].nlink == 0 && OnlyDots(n[d].entries)
    ensures !Names(n, p, t, d) && !DotDot(n, p, t, d)
  {
    assert Opened(n);
    assert UnlinkedOk(n, d);
    InNameRefs(n, d, p, t);
    InDotRefs(n, d, p, t);
  }

  /** A name in an unlinked directory gives the new file a count of 1 that no linked name explains. */
  lemma NewFileUnlinked(n: Nodes, home: map<int, int>, d: int, s: nat, name: string, i: int, kind: Kind)
    requires Ok(n, home) && d in n && n[d].kind.Dir? && !Linked(n, d) && i !in n && i != 0 && !kind.Dir?
    ensures !CountsOk(NewFile(n, d, s, name, i, kind))
  {
    var n' := NewFile(n, d, s, name, i, kind);
    assert Opened(n);
    forall x: (int, int) ensures x !in NameRefs(n', i) && x !in DotRefs(n', i) {
      Unknown(n, home, i, x.0, x.1);
    }
    assert NameRefs(n', i) == {} && DotRefs(n', i) == {};
    assert i in n' && n'[i].nlink == 1 && Count(n', i) == 0;
  }

  /** The same happens to the file that gets a second name there. */
  lemma NamedUnlinked(n: Nodes, home: map<int, int>, d: int, s: nat, name: string, i: int)
    requires Ok(n, home) && d in n && n[d].kind.Dir? && !Linked(n, d) && i in n && !n[i].kind.Dir?
    ensures !CountsOk(Named(n, d, s, name, i))
  {
    var n' := Named(n, d, s, name, i);
    assert Opened(n);
    CountNames(n, n', i, d, s, false);
    CountDots(n, n', i, d, s, false);
    assert i in n' && n'[i].nlink == Count(n', i) + 1;
  }

  /** A new directory there links the unlinked directory again, which nothing names. */
  lemma NewDirUnlinked(n: Nodes, home: map<int, int>, d: int, s: nat, name: string, i: int, h: map<int, int>)
    requires Ok(n, home) && OpenSlot(n, d, s) && !Linked(n, d) && i !in n && i != 0
    ensures !Shape(NewDir(n, d, s, name, i), h)
  {
    var n' := NewDir(n, d, s, name, i);
    UnlinkedUnnamed(n, home, d, 0, 0);
    assert Linked(n', d);
    forall p, t ensures !Names(n', p, t, d) {
      UnlinkedUnnamed(n, home, d, p, t);
    }
    assert !NamedOk(n', h, d);
  }

  /** Creating a file keeps the invariant exactly when the directory is still linked. */
  lemma NewFileNeedsLinked(n: Nodes, home: map<int, int>, d: int, s: nat, name: string, i: int, kind: Kind)
    requires Ok(n, home) && OpenSlot(n, d, s) && i !in n && i != 0 && !kind.Dir?
    requires Linked(n, d) ==> s >= 2 && !Dots(name)
    ensures (exists h :: Ok(NewFile(n, d, s, name, i, kind), h)) <==> Linked(n, d)
  {
    var n' := NewFile(n, d, s, name, i, kind);
    if Linked(n, d) {
      NewFileStep(n, home, d, s, name, i, kind);
    } else {
      NewFileUnlinked(n, home, d, s, name, i, kind);
      assert Opened(n');
    }
  }

  /** Creating a directory keeps the invariant exactly when the directory it goes into is still linked. */
  lemma NewDirNeedsLinked(n: Nodes, home: map<int, int>, d: int, s: nat, name: string, i: int)
    requires Ok(n, home) && OpenSlot(n, d, s) && i !in n && i != 0
    requires Linked(n, d) ==> s >= 2 && !Dots(name)
    ensures (exists h :: Ok(NewDir(n, d, s, name, i), h)) <==> Linked(n, d)
  {
    var n' := NewDir(n, d, s, name, i);
    if Linked(n, d) {
      NewDirStep(n, home, d, s, name, i);
    } else {
      assert Opened(n');
      forall h ensures !Ok(n', h) {
        NewDirUnlinked(n, home, d, s, name, i, h);
      }
    }
  }

  /** Linking a file keeps the invariant exactly when the directory is still linked. */
  lemma NamedNeedsLinked(n: Nodes, home: map<int, int>, d: int, s: nat, name: string, i: int)
    requires Ok(n, home) && OpenSlot(n, d, s) && i in n && !n[i].kind.Dir?
    requires Linked(n, d) ==> s >= 2 && !Dots(name)
    ensures (exists h :: Ok(Named(n, d, s, name, i), h)) <==> Linked(n, d)
  {
    var n' := Named(n, d, s, name, i);
    if Linked(n, d) {
      NamedStep(n, home, d, s, name, i);
    } else {
      NamedUnlinked(n, home, d, s, name, i);
      assert Opened(n');
    }
  }

  predicate NameAt(entries: seq<Dirent>, s: int, name: string) {
    0 <= s < |entries| && entries[s].inum != 0 && entries[s].name == name
  }

  predicate HasName(entries: seq<Dirent>, name: string) {
    exists s :: 0 <= s < |entries| && NameAt(entries, s, name)
  }

  /** The slot that dirlink finds for a name that is not there. */
  lemma FoundOpen(n: Nodes, home: map<int, int>, d: int, s: nat, name: string)
    requires Ok(n, home) && OpenSlot(n, d, s) && !HasName(n[d].entries, name)
    ensures Linked(n, d) ==> FreeSlot(n, d, s) && !Dots(name)
  {
    if Linked(n, d) {
      forall t | 0 <= t < |n[d].entries| ensures n[d].entries[t].inum == 0 || n[d].entries[t].name != name {
        assert !NameAt(n[d].entries, t, name);
      }
      FoundSlot(n, home, d, s, name);
    }
  }

  /** What an entry leads to: in a linked directory always an inode, in an unlinked one only dots are left. */
  lemma Found(n: Nodes, home: map<int, int>, d: int, s: nat, name: string)
    requires Ok(n, home) && d in n && n[d].kind.Dir? && NameAt(n[d].entries, s, name)
    ensures var i := n[d].entries[s].inum;
            if Linked(n, d) then i in n && (!n[i].kind.Dir? ==> Names(n, d, s, i)) else Dots(name)
  {
    if Linked(n, d) {
      Existing(n, home, d, s);
    } else {
      UnlinkedUnnamed(n, home, d, 0, 0);
    }
  }

  // ---- The operations ----

  class DirTree {
    var nodes: Nodes
    ghost var home: map<int, int>

    ghost predicate Valid()
      reads this
    {
      Ok(nodes, home)
    }

    /** The file system that mkfs makes, before it has files. */
    constructor ()
      ensures Valid() && nodes == map[ROOT := Node(Dir, 1, [Dirent(".", ROOT), Dirent("..", ROOT)])]
    {
      nodes := map[ROOT := Node(Dir, 1, [Dirent(".", ROOT), Dirent("..", ROOT)])];
      home := map[];
      new;
      assert NameRefs(nodes, ROOT) == {} && DotRefs(nodes, ROOT) == {};
    }

    /** `dirlookup`: the first slot with that name. */
    method Dirlookup(d: int, name: string) returns (slot: Option<nat>)
      requires d in nodes && nodes[d].kind.Dir?
      ensures slot.Some? ==> NameAt(nodes[d].entries, slot.value, name)
      ensures slot.None? ==> !HasName(nodes[d].entries, name)
    {
      var e := nodes[d].entries;
      for s := 0 to |e|
        invariant forall t :: 0 <= t < s ==> !NameAt(e, t, name)
      {
        if e[s].inum == 0 {
          continue;
        }
        if e[s].name == name {
          return Some(s);
        }
      }
      return None;
    }

    /** `dirlink`: the entry goes to the first free slot or a new one; None if the name is taken or there is no room. */
    method Dirlink(d: int, name: string, inum: int, room: bool) returns (slot: Option<nat>)
      requires d in nodes && nodes[d].kind.Dir? && inum != 0
      modifies this`nodes
      ensures slot.Some? <==> room && !HasName(old(nodes)[d].entries, name)
      ensures slot.None? ==> nodes == old(nodes)
      ensures slot.Some? ==> OpenSlot(old(nodes), d, slot.value)
      ensures slot.Some? ==> nodes == WithEntry(old(nodes), d, slot.value, Dirent(name, inum))
      ensures slot.Some? ==> forall s :: 0 <= s < slot.value ==> old(nodes)[d].entries[s].inum != 0
    {
      var taken := Dirlookup(d, name);
      if taken != None {
        return None;
      }
      var e := nodes[d].entries;
      var s := 0;
      while s < |e|
        invariant 0 <= s <= |e| && forall t :: 0 <= t < s ==> e[t].inum != 0
      {
        if e[s].inum == 0 {
          break;
        }
        s := s + 1;
      }
      if !room {
        return None;
      }
      nodes := nodes[d := nodes[d].(entries := Put(e, s, Dirent(name, inum)))];
      slot := Some(s);
    }

    /** `sys_link`: a new name in `d` for the file `i`. */
    method Link(i: int, d: int, name: string, sameDev: bool, room: bool) returns (ok: bool, ghost s: nat)
      requires Valid() && i in nodes && d in nodes && nodes[d].kind.Dir?
      modifies this`nodes
      ensures ok <==> !old(nodes)[i].kind.Dir? && sameDev && room && !HasName(old(nodes)[d].entries, name)
      ensures !ok ==> nodes == old(nodes)
      ensures ok ==> OpenSlot(old(nodes), d, s) && nodes == Named(old(nodes), d, s, name, i)
      // A link in a directory that has been unlinked breaks the counts.
      ensures Valid() <==> !ok || Linked(old(nodes), d)
    {
      ghost var n := nodes;
      s := 0;
      ShapeOf(n, home);
      if nodes[i].kind.Dir? {
        return false, 0;
      }
      nodes := nodes[i := nodes[i].(nlink := nodes[i].nlink + 1)];
      var slot := None;
      if sameDev {
        slot := Dirlink(d, name, i, room);
      }
      if slot == None {
        nodes := nodes[i := nodes[i].(nlink := nodes[i].nlink - 1)];
        assert nodes == n;
        return false, 0;
      }
      s := slot.value;
      assert nodes == Named(n, d, s, name, i);
      FoundOpen(n, home, d, s, name);
      if Linked(n, d) {
        NamedStep(n, home, d, s, name, i);
      } else {
        NamedUnlinked(n, home, d, s, name, i);
        assert Opened(nodes);
      }
      ok := true;
    }

    /** `isdirempty`. */
    method Isdirempty(d: int) returns (yes: bool)
      requires d in nodes
      ensures yes <==> Empty(nodes[d].entries)
    {
      var e := nodes[d].entries;
      var s := 2;
      while s < |e|
        invariant 2 <= s && forall t :: 2 <= t < s && t < |e| ==> e[t].inum == 0
      {
        if e[s].inum != 0 {
          return false;
        }
        s := s + 1;
      }
      return true;
    }

    /** `sys_unlink`: the name `name` in `d`.  The panic for a count below 1 cannot be reached. */
    method Unlink(d: int, name: string) returns (ok: bool, ghost s: nat, ghost i: int)
      requires Valid() && d in nodes && nodes[d].kind.Dir?
      modifies this`nodes
      ensures Valid()
      ensures !ok ==> nodes == old(nodes)
      ensures !ok ==> Dots(name) || !HasName(old(nodes)[d].entries, name) ||
                      (NameAt(old(nodes)[d].entries, s, name) && i == old(nodes)[d].entries[s].inum && i in old(nodes)
                       && old(nodes)[i].kind.Dir? && !Empty(old(nodes)[i].entries))
      ensures ok ==> !Dots(name) && Names(old(nodes), d, s, i) && NameAt(old(nodes)[d].entries, s, name)
                     && i in old(nodes)
      ensures ok && !old(nodes)[i].kind.Dir? ==> nodes == Unnamed(old(nodes), d, s, i)
      ensures ok && old(nodes)[i].kind.Dir? ==> Empty(old(nodes)[i].entries) && nodes == Removed(old(nodes), d, s, i)
    {
      ghost var n := nodes;
      s, i := 0, 0;
      if name == "." || name == ".." {
        return false, 0, 0;
      }
      var slot := Dirlookup(d, name);
      if slot == None {
        return false, 0, 0;
      }
      s := slot.value;
      var ip := nodes[d].entries[slot.value].inum;
      i := ip;
      Found(n, home, d, s, name);
      NamedIsLinked(n, home, d, s, i);
      assert nodes[ip].nlink >= 1;                                // else panic("unlink: nlink < 1")
      if nodes[ip].kind.Dir? {
        var yes := Isdirempty(ip);
        if !yes {
          return false, s, i;
        }
        RemovedStep(n, home, d, s, i);
      } else {
        UnnamedStep(n, home, d, s, i);
      }
      nodes := nodes[d := nodes[d].(entries := Put(nodes[d].entries, slot.value, FREE))];
      if nodes[ip].kind.Dir? {
        nodes := nodes[d := nodes[d].(nlink := nodes[d].nlink - 1)];
      }
      nodes := nodes[ip := nodes[ip].(nlink := nodes[ip].nlink - 1)];
      ok := true;
    }

    /** The "." and ".." entries of the new directory `i`. */
    method MakeDots(i: int, d: int, room: bool, room': bool) returns (ok: bool)
      requires i in nodes && nodes[i] == Node(Dir, 1, []) && i != 0 && d != 0
      modifies this`nodes
      ensures i in nodes && nodes == old(nodes)[i := nodes[i]] && nodes[i].kind.Dir? && OnlyDots(nodes[i].entries)
      ensures ok <==> room && room'
      ensures ok ==> nodes[i] == Node(Dir, 1, [Dirent(".", i), Dirent("..", d)])
    {
      assert !HasName(nodes[i].entries, ".");
      var slot := Dirlink(i, ".", i, room);
      if slot == None {
        return false;
      }
      assert nodes[i].entries == [Dirent(".", i)];
      assert !HasName(nodes[i].entries, "..");
      slot := Dirlink(i, "..", d, room');
      ok := slot != None;
    }

    /** The part of `create` after ialloc has found inode `i`. */
    method Fill(d: int, name: string, kind: Kind, i: int, room: bool, room': bool, room'': bool)
      returns (made: bool, ghost s: nat)
      requires Valid() && d in nodes && nodes[d].kind.Dir? && i !in nodes && i != 0 && !HasName(nodes[d].entries, name)
      modifies this
      ensures made <==> room'' && (kind.Dir? ==> room && room')
      ensures made ==> OpenSlot(old(nodes), d, s)
      ensures made && kind.Dir? ==> nodes == NewDir(old(nodes), d, s, name, i)
      ensures made && !kind.Dir? ==> nodes == NewFile(old(nodes), d, s, name, i, kind)
      ensures !made ==> i in nodes && nodes[i].nlink == 0 && nodes == old(nodes)[i := nodes[i]]
      ensures Valid() <==> !made || Linked(old(nodes), d)
    {
      ghost var n := nodes;
      s := 0;
      ShapeOf(n, home);
      nodes := nodes[i := Node(kind, 1, [])];
      made := true;
      if kind == Dir {
        made := MakeDots(i, d, room, room');
      }
      var slot := None;
      if made {
        slot := Dirlink(d, name, i, room'');
        made := slot != None;
      }
      if !made {
        nodes := nodes[i := nodes[i].(nlink := 0)];
        OrphanStep(n, home, i, nodes[i]);
        assert nodes == n[i := nodes[i]];
        return false, 0;
      }
      s := slot.value;
      FoundOpen(n, home, d, s, name);
      if kind == Dir {
        nodes := nodes[d := nodes[d].(nlink := nodes[d].nlink + 1)];
        assert nodes == NewDir(n, d, s, name, i);
        home := home[i := s];
      } else {
        assert nodes == NewFile(n, d, s, name, i, kind);
      }
      Judge(n, old(home), d, s, name, kind, i);
    }

    /** Whether the new inode has kept the invariant. */
    ghost method Judge(n: Nodes, h: map<int, int>, d: int, s: nat, name: string, kind: Kind, i: int)
      requires Ok(n, h) && OpenSlot(n, d, s) && i !in n && i != 0 && (Linked(n, d) ==> FreeSlot(n, d, s) && !Dots(name))
      requires if kind.Dir? then nodes == NewDir(n, d, s, name, i) && home == h[i := s]
               else nodes == NewFile(n, d, s, name, i, kind) && home == h
      ensures Valid() <==> Linked(n, d)
    {
      if kind.Dir? {
        if Linked(n, d) {
          NewDirStep(n, h, d, s, name, i);
        } else {
          NewDirUnlinked(n, h, d, s, name, i, home);
          assert Opened(nodes);
        }
      } else {
        if Linked(n, d) {
          NewFileStep(n, h, d, s, name, i, kind);
        } else {
          NewFileUnlinked(n, h, d, s, name, i, kind);
          assert Opened(nodes);
        }
      }
    }

    /**
     * `create` in directory `d`; `found` is what ialloc finds.  `made` tells that a
     * new inode was linked into slot `s`.  The ".." of an unlinked directory can lead
     * to an inode that has been freed, and ilock panics then: no inode is returned.
     */
    method Create(d: int, name: string, kind: Kind, found: Option<int>, room: bool, room': bool, room'': bool)
      returns (ip: Option<int>, made: bool, ghost s: nat)
      requires Valid() && d in nodes && nodes[d].kind.Dir?
               && (found.Some? ==> found.value !in nodes && found.value != 0)
      modifies this
      ensures made <==> !HasName(old(nodes)[d].entries, name) && found.Some? && room'' && (kind.Dir? ==> room && room')
      ensures made ==> ip == found && OpenSlot(old(nodes), d, s)
      ensures made && kind.Dir? ==> nodes == NewDir(old(nodes), d, s, name, ip.value)
      ensures made && !kind.Dir? ==> nodes == NewFile(old(nodes), d, s, name, ip.value, kind)
      ensures !made && ip.Some? ==>
                && nodes == old(nodes) && kind.File? && ip.value in nodes && !nodes[ip.value].kind.Dir?
                && NameAt(nodes[d].entries, s, name) && nodes[d].entries[s].inum == ip.value
                && (Linked(nodes, d) ==> Names(nodes, d, s, ip.value))
      ensures !made && nodes != old(nodes) ==>
                && ip.None? && found.Some? && found.value in nodes && nodes[found.value].nlink == 0
                && nodes == old(nodes)[found.value := nodes[found.value]]
      // A new inode in a directory that has been unlinked breaks the invariant.
      ensures Valid() <==> !made || Linked(old(nodes), d)
    {
      made, s := false, 0;
      var slot := Dirlookup(d, name);
      if slot != None {
        var i := nodes[d].entries[slot.value].inum;
        Found(nodes, home, d, slot.value, name);
        if i in nodes && kind == File && (nodes[i].kind == File || nodes[i].kind == Device) {
          return Some(i), false, slot.value;
        }
        return None, false, 0;
      }
      if found == None {
        return None, false, 0;
      }
      made, s := Fill(d, name, kind, found.value, room, room', room'');
      ip := if made then found else None;
    }

    /** `iput`: an inode without links is freed when the last reference to it goes. */
    method Iput(i: int, lastRef: bool)
      requires Valid() && i in nodes
      modifies this`nodes
      ensures Valid() && nodes == if lastRef && old(nodes)[i].nlink == 0 then old(nodes) - {i} else old(nodes)
    {
      if lastRef && nodes[i].nlink == 0 {
        FreedStep(nodes, home, i);
        nodes := nodes - {i};
      }
    }
  }

  /** A directory is made and unlinked while a process still has it; a file made in it then has a wrong count. */
  method CreateInUnlinked() returns (tree: DirTree)
    ensures fresh(tree) && !tree.Valid()
  {
    tree := new DirTree();
    assert !NameAt(tree.nodes[ROOT].entries, 0, "a") && !NameAt(tree.nodes[ROOT].entries, 1, "a");
    var ip, made;
    ghost var s;
    ip, made, s := tree.Create(ROOT, "a", Dir, Some(2), true, true, true);
    assert NameAt(tree.nodes[ROOT].entries, 2, "a");
    ghost var i;
    var ok;
    ok, s, i := tree.Unlink(ROOT, "a");
    ip, made, s := tree.Create(2, "b", File, Some(3), true, true, true);
  }
}
