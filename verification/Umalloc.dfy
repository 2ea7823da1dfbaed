/**
 * The user heap allocator of user/umalloc.c: first fit over a circular,
 * address-ordered free list with coalescing.
 *
 * Addresses count Header-sized units.  `mem` is memory seen as headers; the
 * allocator reads and writes only the headers of blocks.  Ghost state: `fl` is
 * the free list in address order, starting with the static header at `base`;
 * `blk` maps the start of every block, free or live, to its size in units;
 * `live` are the blocks handed out, with the sizes they were given; `own` maps
 * every unit obtained from sbrk to the block it belongs to, so that `own` being
 * consistent with `blk` says that the blocks partition the heap.
 */
module Umalloc {
  import opened Wrappers

  datatype Header = Header(ptr: int, size: int)

  type Memory = map<int, Header>

  // ---- The free list ----

  function NextIndex(n: nat, i: nat): (r: nat)
    requires i < n
    ensures r < n
  {
    if i + 1 == n then 0 else i + 1
  }

  /** The i-th free block points to the next one and ends strictly before it. */
  ghost predicate NodeOk(mem: Memory, fl: seq<int>, i: int)
    requires 0 <= i < |fl|
  {
    && fl[i] in mem
    && mem[fl[i]].ptr == fl[NextIndex(|fl|, i)]
    && (i + 1 < |fl| ==> fl[i] + mem[fl[i]].size < fl[i + 1])
  }

  /** Circular, address-ordered with one wrap, and no two free blocks adjacent. */
  ghost predicate ListOk(mem: Memory, fl: seq<int>, base: int) {
    && |fl| >= 1 && fl[0] == base && base in mem && mem[base].size == 0
    && (forall i :: 0 <= i < |fl| ==> NodeOk(mem, fl, i))
    && Sorted(fl)
  }

  ghost predicate Sorted(fl: seq<int>) {
    forall i, j :: 0 <= i < j < |fl| ==> fl[i] < fl[j]
  }

  // ---- The blocks ----

  ghost predicate BlocksOk(mem: Memory, blk: map<int, int>, base: int) {
    forall a :: a in blk ==> a in mem && mem[a].size == blk[a] && blk[a] >= 1 && a > base
  }

  /** The unit `x` lies in the block that starts at `a`. */
  predicate Covers(blk: map<int, int>, a: int, x: int) {
    a in blk && a <= x < a + blk[a]
  }

  /** Every unit belongs to exactly the block that covers it, and no block is empty. */
  ghost predicate Partition(blk: map<int, int>, own: map<int, int>) {
    && (forall a :: a in blk ==> Covers(blk, a, a))
    && (forall x :: x in own ==> Covers(blk, own[x], x))
    && (forall a, x :: Covers(blk, a, x) ==> x in own && own[x] == a)
  }

  ghost function Elements(fl: seq<int>): set<int> { set x | x in fl }

  /** A block is free exactly when it is on the free list; `base` is on the list but is no block. */
  ghost predicate FreeOrLive(fl: seq<int>, blk: map<int, int>, live: map<int, int>, base: int) {
    live.Keys !! Elements(fl) && blk.Keys == (Elements(fl) - {base}) + live.Keys
  }

  /** The blocks in use have the sizes they were handed out with. */
  ghost predicate SizesKept(blk: map<int, int>, live: map<int, int>) {
    forall a :: a in live ==> a in blk && blk[a] == live[a]
  }

  lemma BlocksDisjoint(blk: map<int, int>, own: map<int, int>, a: int, b: int)
    requires Partition(blk, own) && a in blk && b in blk && a < b
    ensures a + blk[a] <= b
  {
    assert Covers(blk, b, b);
    assert !Covers(blk, a, b);
  }

  ghost function Merged(blk: map<int, int>, a: int, b: int): map<int, int>
    requires a in blk && b in blk
  {
    (blk - {b})[a := blk[a] + blk[b]]
  }

  ghost function Reowned(own: map<int, int>, b: int, a: int): map<int, int> {
    map x | x in own :: if own[x] == b then a else own[x]
  }

  /** Two neighbouring blocks become one. */
  lemma MergeBlocks(blk: map<int, int>, own: map<int, int>, a: int, b: int)
    requires Partition(blk, own) && a in blk && b in blk && a + blk[a] == b
    ensures Partition(Merged(blk, a, b), Reowned(own, b, a))
  {
    var blk', own' := Merged(blk, a, b), Reowned(own, b, a);
    assert Covers(blk, a, a) && Covers(blk, b, b);
    forall c | c in blk' ensures Covers(blk', c, c) {
      assert Covers(blk, c, c);
    }
    forall x | x in own' ensures Covers(blk', own'[x], x) {
      assert Covers(blk, own[x], x);
    }
    forall c, x | Covers(blk', c, x) ensures x in own' && own'[x] == c {
      assert Covers(blk, c, x) || Covers(blk, b, x);
    }
  }

  /** The last `n` units of block `a` become a block of their own. */
  ghost function Split(blk: map<int, int>, a: int, n: int): map<int, int>
    requires a in blk
  {
    blk[a := blk[a] - n][a + blk[a] - n := n]
  }

  ghost function SplitOwn(own: map<int, int>, a: int, q: int): map<int, int> {
    map x | x in own :: if own[x] == a && x >= q then q else own[x]
  }

  lemma SplitBlock(blk: map<int, int>, own: map<int, int>, a: int, n: int)
    requires Partition(blk, own) && a in blk && 0 < n < blk[a]
    ensures a + blk[a] - n !in blk
    ensures Partition(Split(blk, a, n), SplitOwn(own, a, a + blk[a] - n))
  {
    var q := a + blk[a] - n;
    var blk', own' := Split(blk, a, n), SplitOwn(own, a, q);
    assert Covers(blk, a, q);
    assert q in blk ==> Covers(blk, q, q);
    forall c | c in blk' ensures Covers(blk', c, c) {
      assert c != a && c != q ==> Covers(blk, c, c);
    }
    forall x | x in own' ensures Covers(blk', own'[x], x) {
      assert Covers(blk, own[x], x);
    }
    forall c, x | Covers(blk', c, x) ensures x in own' && own'[x] == c {
      assert Covers(blk, c, x) || Covers(blk, a, x);
    }
  }

  /** Fresh units above the heap become a new block. */
  ghost function GrownOwn(own: map<int, int>, hp: int, n: nat): (r: map<int, int>)
    ensures forall x :: x in r <==> x in own || hp <= x < hp + n
    ensures forall x :: x in r ==> r[x] == if hp <= x < hp + n then hp else own[x]
  {
    if n == 0 then own else GrownOwn(own, hp, n - 1)[hp + n - 1 := hp]
  }

  /** The units owned have grown by exactly [lo, lo + n). */
  ghost predicate Gained(own: map<int, int>, own': map<int, int>, lo: int, n: nat) {
    forall x :: x in own' <==> x in own || lo <= x < lo + n
  }

  lemma GrowBlocks(blk: map<int, int>, own: map<int, int>, hp: int, n: nat)
    requires Partition(blk, own) && n >= 1 && (forall x :: x in own ==> x < hp)
    ensures hp !in blk && Partition(blk[hp := n], GrownOwn(own, hp, n))
  {
    var blk', own' := blk[hp := n], GrownOwn(own, hp, n);
    assert hp in blk ==> Covers(blk, hp, hp);
    forall c | c in blk' ensures Covers(blk', c, c) {
      assert c != hp ==> Covers(blk, c, c);
    }
    forall x | x in own' ensures Covers(blk', own'[x], x) {
      assert !(hp <= x < hp + n) ==> Covers(blk, own[x], x);
    }
    forall c, x | Covers(blk', c, x) ensures x in own' && own'[x] == c {
      assert c != hp ==> Covers(blk, c, x);
    }
  }

  // ---- The heap as a whole ----

  datatype Heap =
    Heap(base: int, mem: Memory, fl: seq<int>, blk: map<int, int>, live: map<int, int>, own: map<int, int>)

  ghost predicate Ok(h: Heap) {
    && ListOk(h.mem, h.fl, h.base)
    && BlocksOk(h.mem, h.blk, h.base)
    && FreeOrLive(h.fl, h.blk, h.live, h.base)
    && SizesKept(h.blk, h.live)
    && Partition(h.blk, h.own)
  }

  ghost predicate Opened(h: Heap) { true }

  /** `Ok`, unfolded only for a heap that a proof mentions with `Opened`. */
  ghost predicate Sound(h: Heap) {
    forall g: Heap {:trigger Opened(g)} :: g == h && Opened(g) ==> Ok(g)
  }

  lemma Fold(h: Heap)
    requires Ok(h)
    ensures Sound(h)
  {
  }

  lemma Parts(h: Heap)
    requires Sound(h)
    ensures Ok(h)
  {
    assert Opened(h);
  }

  // The three parts of `Ok`, folded in the same way.

  ghost predicate HeadersOk(h: Heap) {
    forall g: Heap {:trigger Opened(g)} :: g == h && Opened(g) ==>
      ListOk(g.mem, g.fl, g.base) && BlocksOk(g.mem, g.blk, g.base)
  }

  ghost predicate InUseOk(h: Heap) {
    forall g: Heap {:trigger Opened(g)} :: g == h && Opened(g) ==>
      FreeOrLive(g.fl, g.blk, g.live, g.base) && SizesKept(g.blk, g.live)
  }

  ghost predicate PartitionOk(h: Heap) {
    forall g: Heap {:trigger Opened(g)} :: g == h && Opened(g) ==> Partition(g.blk, g.own)
  }

  lemma FoldParts(h: Heap)
    requires HeadersOk(h) && InUseOk(h) && PartitionOk(h)
    ensures Sound(h)
  {
    assert Opened(h);
  }

  lemma FoldHeaders(h: Heap)
    requires ListOk(h.mem, h.fl, h.base) && BlocksOk(h.mem, h.blk, h.base)
    ensures HeadersOk(h)
  {
  }

  lemma FoldInUse(h: Heap)
    requires FreeOrLive(h.fl, h.blk, h.live, h.base) && SizesKept(h.blk, h.live)
    ensures InUseOk(h)
  {
  }

  lemma HeadersOf(h: Heap)
    requires Sound(h)
    ensures ListOk(h.mem, h.fl, h.base) && BlocksOk(h.mem, h.blk, h.base)
  {
    assert Opened(h);
  }

  lemma InUseOf(h: Heap)
    requires Sound(h)
    ensures FreeOrLive(h.fl, h.blk, h.live, h.base) && SizesKept(h.blk, h.live)
  {
    assert Opened(h);
  }

  lemma PartitionOf(h: Heap)
    requires Sound(h)
    ensures Partition(h.blk, h.own)
  {
    assert Opened(h);
  }

  /** The place of the free list after which a block at `bp` belongs. */
  ghost predicate Slot(fl: seq<int>, j: int, bp: int) {
    0 <= j < |fl| && fl[j] < bp && (j + 1 < |fl| ==> bp < fl[j + 1])
  }

  lemma {:induction false} SlotExists(fl: seq<int>, bp: int, n: nat) returns (j: nat)
    requires 1 <= n <= |fl| && fl[0] < bp && bp !in fl
    requires n < |fl| ==> bp < fl[n]
    ensures Slot(fl, j, bp)
    decreases n
  {
    if fl[n - 1] < bp { j := n - 1; } else { j := SlotExists(fl, bp, n - 1); }
  }

  // ---- Changes to the free list ----

  lemma InsertSorted(fl: seq<int>, j: nat, bp: int)
    requires Sorted(fl) && Slot(fl, j, bp)
    ensures Sorted(fl[..j + 1] + [bp] + fl[j + 1..])
  {
  }

  lemma DropSorted(fl: seq<int>, j: nat)
    requires Sorted(fl) && j + 1 < |fl|
    ensures Sorted(fl[..j + 1] + fl[j + 2..])
  {
  }

  lemma InsertElements(fl: seq<int>, j: nat, bp: int)
    requires j < |fl|
    ensures Elements(fl[..j + 1] + [bp] + fl[j + 1..]) == Elements(fl) + {bp}
  {
    assert fl == fl[..j + 1] + fl[j + 1..];
  }

  lemma DropElements(fl: seq<int>, j: nat)
    requires Sorted(fl) && j + 1 < |fl|
    ensures Elements(fl[..j + 1] + fl[j + 2..]) == Elements(fl) - {fl[j + 1]}
  {
    assert fl == fl[..j + 1] + [fl[j + 1]] + fl[j + 2..];
  }

  lemma ReplaceElements(fl: seq<int>, j: nat, bp: int)
    requires Sorted(fl) && j + 1 < |fl| && bp !in fl
    ensures Elements(fl[j + 1 := bp]) == Elements(fl) - {fl[j + 1]} + {bp}
  {
    assert fl == fl[..j + 1] + [fl[j + 1]] + fl[j + 2..];
    assert fl[j + 1 := bp] == fl[..j + 1] + [bp] + fl[j + 2..];
  }

  lemma InsertNode(mem: Memory, fl: seq<int>, j: nat, bp: int, size: int, i: nat)
    requires Sorted(fl) && Slot(fl, j, bp) && bp !in fl && i <= |fl| && NodeOk(mem, fl, j)
    requires i < j ==> NodeOk(mem, fl, i)
    requires i > j + 1 ==> NodeOk(mem, fl, i - 1)
    requires fl[j] + mem[fl[j]].size < bp && (j + 1 < |fl| ==> bp + size < fl[j + 1])
    ensures var mem' := mem[bp := Header(mem[fl[j]].ptr, size)][fl[j] := mem[fl[j]].(ptr := bp)];
            NodeOk(mem', fl[..j + 1] + [bp] + fl[j + 1..], i)
  {
    var fl' := fl[..j + 1] + [bp] + fl[j + 1..];
    assert fl'[0] == fl[0];
    if i < j {
      assert fl[i] < fl[j] && fl'[i] == fl[i] && fl'[i + 1] == fl[i + 1];
    } else if i == j {
      assert fl'[j] == fl[j] && fl'[j + 1] == bp;
    } else if i == j + 1 {
      assert fl'[i] == bp;
      assert i < |fl| ==> fl'[i + 1] == fl[i];
    } else {
      assert fl[j] < fl[i - 1] && fl'[i] == fl[i - 1];
      assert i < |fl| ==> fl'[i + 1] == fl[i];
    }
  }

  lemma InsertAfter(mem: Memory, fl: seq<int>, base: int, j: nat, bp: int, size: int)
    requires ListOk(mem, fl, base) && Slot(fl, j, bp) && bp !in fl && fl[j] in mem
    requires fl[j] + mem[fl[j]].size < bp && (j + 1 < |fl| ==> bp + size < fl[j + 1])
    ensures var mem' := mem[bp := Header(mem[fl[j]].ptr, size)][fl[j] := mem[fl[j]].(ptr := bp)];
            ListOk(mem', fl[..j + 1] + [bp] + fl[j + 1..], base)
  {
    var fl' := fl[..j + 1] + [bp] + fl[j + 1..];
    var mem' := mem[bp := Header(mem[fl[j]].ptr, size)][fl[j] := mem[fl[j]].(ptr := bp)];
    InsertSorted(fl, j, bp);
    assert fl'[0] == fl[0];
    forall i | 0 <= i < |fl'| ensures NodeOk(mem', fl', i) {
      assert NodeOk(mem, fl, j);
      assert i < j ==> NodeOk(mem, fl, i);
      assert i > j + 1 ==> NodeOk(mem, fl, i - 1);
      InsertNode(mem, fl, j, bp, size, i);
    }
  }

  lemma ReplaceNext(mem: Memory, fl: seq<int>, base: int, j: nat, bp: int, size: int)
    requires ListOk(mem, fl, base) && Slot(fl, j, bp) && size >= 1 && j + 1 < |fl|
    requires fl[j] in mem && fl[j + 1] in mem
    requires fl[j] + mem[fl[j]].size < bp && bp + size == fl[j + 1]
    ensures var nx := mem[fl[j + 1]];
            var mem' := mem[bp := Header(nx.ptr, size + nx.size)][fl[j] := mem[fl[j]].(ptr := bp)];
            ListOk(mem', fl[j + 1 := bp], base)
  {
    var nx := mem[fl[j + 1]];
    var fl' := fl[j + 1 := bp];
    var mem' := mem[bp := Header(nx.ptr, size + nx.size)][fl[j] := mem[fl[j]].(ptr := bp)];
    assert NodeOk(mem, fl, j) && NodeOk(mem, fl, j + 1);
    forall i | 0 <= i < |fl'| ensures NodeOk(mem', fl', i) {
      assert NodeOk(mem, fl, i);
    }
  }

  lemma DropNode(mem: Memory, fl: seq<int>, j: nat, size: int, i: nat)
    requires Sorted(fl) && j + 1 < |fl| && i + 1 < |fl| && NodeOk(mem, fl, j + 1)
    requires NodeOk(mem, fl, if i < j then i else i + 1)
    requires fl[j] + size <= fl[j + 1] + mem[fl[j + 1]].size
    ensures var mem' := mem[fl[j] := Header(mem[fl[j + 1]].ptr, size)];
            NodeOk(mem', fl[..j + 1] + fl[j + 2..], i)
  {
    var fl' := fl[..j + 1] + fl[j + 2..];
    var mem' := mem[fl[j] := Header(mem[fl[j + 1]].ptr, size)];
    if i < j {
      assert fl[i] < fl[j] && fl'[i] == fl[i] && fl'[i + 1] == fl[i + 1];
    } else if i == j {
      assert fl'[j] == fl[j] && fl'[0] == fl[0];
      assert j + 2 < |fl| ==> fl'[j + 1] == fl[j + 2];
    } else {
      assert fl[j] < fl[i + 1] && fl'[i] == fl[i + 1] && fl'[0] == fl[0];
      assert i + 2 < |fl| ==> fl'[i + 1] == fl[i + 2];
    }
  }

  lemma DropNext(mem: Memory, fl: seq<int>, base: int, j: nat, size: int)
    requires ListOk(mem, fl, base) && j + 1 < |fl| && fl[j + 1] in mem
    requires j == 0 ==> size == 0
    requires fl[j] + size <= fl[j + 1] + mem[fl[j + 1]].size
    ensures var mem' := mem[fl[j] := Header(mem[fl[j + 1]].ptr, size)];
            ListOk(mem', fl[..j + 1] + fl[j + 2..], base)
  {
    var fl' := fl[..j + 1] + fl[j + 2..];
    var mem' := mem[fl[j] := Header(mem[fl[j + 1]].ptr, size)];
    DropSorted(fl, j);
    forall i | 0 <= i < |fl'| ensures NodeOk(mem', fl', i) {
      assert NodeOk(mem, fl, if i < j then i else i + 1);
      assert NodeOk(mem, fl, j + 1);
      DropNode(mem, fl, j, size, i);
    }
    assert fl'[0] == fl[0];
    assert j > 0 ==> fl[0] < fl[j];
  }

  lemma Resize(mem: Memory, fl: seq<int>, base: int, j: nat, size: int)
    requires ListOk(mem, fl, base) && 0 < j < |fl| && fl[j] in mem
    requires j + 1 < |fl| ==> fl[j] + size < fl[j + 1]
    ensures ListOk(mem[fl[j] := mem[fl[j]].(size := size)], fl, base)
  {
    var mem' := mem[fl[j] := mem[fl[j]].(size := size)];
    forall i | 0 <= i < |fl| ensures NodeOk(mem', fl, i) {
      assert NodeOk(mem, fl, i);
    }
  }

  lemma OffList(mem: Memory, fl: seq<int>, base: int, a: int, x: Header)
    requires ListOk(mem, fl, base) && a !in fl
    ensures ListOk(mem[a := x], fl, base)
  {
    var mem' := mem[a := x];
    forall i | 0 <= i < |fl| ensures NodeOk(mem', fl, i) {
      assert NodeOk(mem, fl, i);
    }
  }

  // ---- Freeing a block ----

  /** The block at `bp` is live and belongs after place `j` of the free list. */
  ghost predicate CanFree(h: Heap, j: int, bp: int) {
    Sound(h) && bp in h.live && Slot(h.fl, j, bp)
  }

  predicate MeetsNext(h: Heap, j: nat, bp: int)
    requires bp in h.mem
  {
    j + 1 < |h.fl| && bp + h.mem[bp].size == h.fl[j + 1]
  }

  predicate MeetsPrevious(h: Heap, j: nat, bp: int)
    requires j < |h.fl| && h.fl[j] in h.mem
  {
    h.fl[j] + h.mem[h.fl[j]].size == bp
  }

  /** The neighbours of a block about to be freed do not overlap it. */
  lemma Neighbours(h: Heap, j: nat, bp: int)
    requires CanFree(h, j, bp)
    ensures bp in h.mem && bp in h.blk && h.mem[bp].size == h.blk[bp] >= 1 && bp !in h.fl
    ensures h.fl[j] in h.mem && NodeOk(h.mem, h.fl, j)
    ensures h.fl[j] + h.mem[h.fl[j]].size <= bp && (j == 0 ==> !MeetsPrevious(h, j, bp))
    ensures j > 0 ==> h.fl[j] in h.blk && h.mem[h.fl[j]].size == h.blk[h.fl[j]]
    ensures j + 1 < |h.fl| ==>
              && h.fl[j + 1] in h.blk && h.fl[j + 1] in h.mem && h.mem[h.fl[j + 1]].size == h.blk[h.fl[j + 1]] >= 1
              && bp + h.mem[bp].size <= h.fl[j + 1]
  {
    assert Opened(h);
    assert NodeOk(h.mem, h.fl, j);
    assert bp in h.blk.Keys && bp !in Elements(h.fl);
    if j > 0 {
      assert h.fl[0] < h.fl[j] && h.fl[j] in Elements(h.fl);
      BlocksDisjoint(h.blk, h.own, h.fl[j], bp);
    }
    if j + 1 < |h.fl| {
      assert h.fl[0] < h.fl[j + 1] && h.fl[j + 1] in Elements(h.fl);
      BlocksDisjoint(h.blk, h.own, bp, h.fl[j + 1]);
    }
  }

  ghost function FreedAlone(h: Heap, j: nat, bp: int): Heap
    requires j < |h.fl| && h.fl[j] in h.mem && bp in h.mem
  {
    h.(mem := h.mem[bp := h.mem[bp].(ptr := h.mem[h.fl[j]].ptr)][h.fl[j] := h.mem[h.fl[j]].(ptr := bp)],
       fl := h.fl[..j + 1] + [bp] + h.fl[j + 1..],
       live := h.live - {bp})
  }

  lemma AloneHeaders(h: Heap, j: nat, bp: int)
    requires CanFree(h, j, bp) && bp in h.mem && h.fl[j] in h.mem
    requires !MeetsNext(h, j, bp) && !MeetsPrevious(h, j, bp)
    ensures HeadersOk(FreedAlone(h, j, bp))
  {
    Neighbours(h, j, bp);
    HeadersOf(h);
    InsertAfter(h.mem, h.fl, h.base, j, bp, h.mem[bp].size);
    FoldHeaders(FreedAlone(h, j, bp));
  }

  lemma AloneInUse(h: Heap, j: nat, bp: int)
    requires CanFree(h, j, bp) && bp in h.mem && h.fl[j] in h.mem
    ensures InUseOk(FreedAlone(h, j, bp))
  {
    Neighbours(h, j, bp);
    HeadersOf(h);
    InUseOf(h);
    InsertElements(h.fl, j, bp);
    FoldInUse(FreedAlone(h, j, bp));
  }

  lemma FreeAlone(h: Heap, j: nat, bp: int)
    requires CanFree(h, j, bp) && bp in h.mem && h.fl[j] in h.mem
    requires !MeetsNext(h, j, bp) && !MeetsPrevious(h, j, bp)
    ensures Sound(FreedAlone(h, j, bp))
  {
    AloneHeaders(h, j, bp);
    AloneInUse(h, j, bp);
    assert PartitionOk(FreedAlone(h, j, bp)) by { PartitionOf(h); }
    FoldParts(FreedAlone(h, j, bp));
  }

  ghost function FreedUp(h: Heap, j: nat, bp: int): Heap
    requires j + 1 < |h.fl| && h.fl[j] in h.mem && h.fl[j + 1] in h.mem && bp in h.mem
    requires bp in h.blk && h.fl[j + 1] in h.blk
  {
    var nx := h.fl[j + 1];
    h.(mem := h.mem[bp := Header(h.mem[nx].ptr, h.mem[bp].size + h.mem[nx].size)]
                   [h.fl[j] := h.mem[h.fl[j]].(ptr := bp)],
       fl := h.fl[j + 1 := bp],
       live := h.live - {bp},
       blk := Merged(h.blk, bp, nx),
       own := Reowned(h.own, nx, bp))
  }

  lemma UpHeaders(h: Heap, j: nat, bp: int)
    requires CanFree(h, j, bp) && bp in h.mem && h.fl[j] in h.mem && bp in h.blk
    requires MeetsNext(h, j, bp) && !MeetsPrevious(h, j, bp) && h.fl[j + 1] in h.mem && h.fl[j + 1] in h.blk
    ensures HeadersOk(FreedUp(h, j, bp))
  {
    Neighbours(h, j, bp);
    HeadersOf(h);
    ReplaceNext(h.mem, h.fl, h.base, j, bp, h.mem[bp].size);
    FoldHeaders(FreedUp(h, j, bp));
  }

  lemma UpInUse(h: Heap, j: nat, bp: int)
    requires CanFree(h, j, bp) && bp in h.mem && h.fl[j] in h.mem && bp in h.blk
    requires MeetsNext(h, j, bp) && h.fl[j + 1] in h.mem && h.fl[j + 1] in h.blk
    ensures InUseOk(FreedUp(h, j, bp))
  {
    Neighbours(h, j, bp);
    HeadersOf(h);
    InUseOf(h);
    ReplaceElements(h.fl, j, bp);
    assert h.fl[0] < h.fl[j + 1];
    FoldInUse(FreedUp(h, j, bp));
  }

  lemma UpPartition(h: Heap, j: nat, bp: int)
    requires CanFree(h, j, bp) && bp in h.mem && h.fl[j] in h.mem && bp in h.blk
    requires MeetsNext(h, j, bp) && h.fl[j + 1] in h.mem && h.fl[j + 1] in h.blk
    ensures PartitionOk(FreedUp(h, j, bp))
  {
    Neighbours(h, j, bp);
    PartitionOf(h);
    MergeBlocks(h.blk, h.own, bp, h.fl[j + 1]);
  }

  lemma FreeUp(h: Heap, j: nat, bp: int)
    requires CanFree(h, j, bp) && bp in h.mem && h.fl[j] in h.mem
    requires MeetsNext(h, j, bp) && !MeetsPrevious(h, j, bp)
    ensures bp in h.blk && h.fl[j + 1] in h.mem && h.fl[j + 1] in h.blk
    ensures Sound(FreedUp(h, j, bp))
  {
    Neighbours(h, j, bp);
    UpHeaders(h, j, bp);
    UpInUse(h, j, bp);
    UpPartition(h, j, bp);
    FoldParts(FreedUp(h, j, bp));
  }

  ghost function FreedDown(h: Heap, j: nat, bp: int): Heap
    requires j < |h.fl| && h.fl[j] in h.mem && bp in h.mem && bp in h.blk && h.fl[j] in h.blk
  {
    var p := h.fl[j];
    h.(mem := h.mem[bp := h.mem[bp].(ptr := h.mem[p].ptr)][p := Header(h.mem[p].ptr, h.mem[p].size + h.mem[bp].size)],
       live := h.live - {bp},
       blk := Merged(h.blk, p, bp),
       own := Reowned(h.own, bp, p))
  }

  lemma FreeDown(h: Heap, j: nat, bp: int)
    requires CanFree(h, j, bp) && bp in h.mem && h.fl[j] in h.mem
    requires !MeetsNext(h, j, bp) && MeetsPrevious(h, j, bp)
    ensures bp in h.blk && h.fl[j] in h.blk && Sound(FreedDown(h, j, bp))
  {
    Neighbours(h, j, bp);
    assert Opened(h);
    var p := h.fl[j];
    var mem1 := h.mem[bp := h.mem[bp].(ptr := h.mem[p].ptr)];
    OffList(h.mem, h.fl, h.base, bp, mem1[bp]);
    Resize(mem1, h.fl, h.base, j, h.mem[p].size + h.mem[bp].size);
    MergeBlocks(h.blk, h.own, p, bp);
    assert h.fl[0] < p;
    Fold(FreedDown(h, j, bp));
  }

  ghost function FreedBoth(h: Heap, j: nat, bp: int): Heap
    requires j + 1 < |h.fl| && h.fl[j] in h.mem && h.fl[j + 1] in h.mem && bp in h.mem
    requires bp in h.blk && h.fl[j] in h.blk && h.fl[j + 1] in h.blk && h.fl[j] != h.fl[j + 1] && bp != h.fl[j + 1]
  {
    var p, nx := h.fl[j], h.fl[j + 1];
    var grown := Header(h.mem[nx].ptr, h.mem[bp].size + h.mem[nx].size);
    h.(mem := h.mem[bp := grown][p := Header(grown.ptr, h.mem[p].size + grown.size)],
       fl := h.fl[..j + 1] + h.fl[j + 2..],
       live := h.live - {bp},
       blk := Merged(Merged(h.blk, bp, nx), p, bp),
       own := Reowned(Reowned(h.own, nx, bp), bp, p))
  }

  /** The three blocks that become one. */
  ghost predicate CanFreeBoth(h: Heap, j: nat, bp: int) {
    && CanFree(h, j, bp) && bp in h.mem && h.fl[j] in h.mem
    && MeetsNext(h, j, bp) && MeetsPrevious(h, j, bp)
    && bp in h.blk && h.fl[j] in h.blk && h.fl[j + 1] in h.blk && h.fl[j + 1] in h.mem
    && h.fl[0] < h.fl[j] < bp < h.fl[j + 1]
  }

  lemma BothHeaders(h: Heap, j: nat, bp: int)
    requires CanFreeBoth(h, j, bp)
    ensures HeadersOk(FreedBoth(h, j, bp))
  {
    Neighbours(h, j, bp);
    HeadersOf(h);
    var p, nx := h.fl[j], h.fl[j + 1];
    var mem1 := h.mem[bp := Header(h.mem[nx].ptr, h.mem[bp].size + h.mem[nx].size)];
    OffList(h.mem, h.fl, h.base, bp, mem1[bp]);
    DropNext(mem1, h.fl, h.base, j, h.mem[p].size + mem1[bp].size);
    FoldHeaders(FreedBoth(h, j, bp));
  }

  lemma BothInUse(h: Heap, j: nat, bp: int)
    requires CanFreeBoth(h, j, bp)
    ensures InUseOk(FreedBoth(h, j, bp))
  {
    Neighbours(h, j, bp);
    HeadersOf(h);
    InUseOf(h);
    DropElements(h.fl, j);
    FoldInUse(FreedBoth(h, j, bp));
  }

  lemma BothPartition(h: Heap, j: nat, bp: int)
    requires CanFreeBoth(h, j, bp)
    ensures PartitionOk(FreedBoth(h, j, bp))
  {
    Neighbours(h, j, bp);
    PartitionOf(h);
    var p, nx := h.fl[j], h.fl[j + 1];
    MergeBlocks(h.blk, h.own, bp, nx);
    MergeBlocks(Merged(h.blk, bp, nx), Reowned(h.own, nx, bp), p, bp);
  }

  lemma FreeBoth(h: Heap, j: nat, bp: int)
    requires CanFree(h, j, bp) && bp in h.mem && h.fl[j] in h.mem
    requires MeetsNext(h, j, bp) && MeetsPrevious(h, j, bp)
    ensures CanFreeBoth(h, j, bp) && Sound(FreedBoth(h, j, bp))
  {
    Neighbours(h, j, bp);
    assert h.fl[0] < h.fl[j] by { HeadersOf(h); }
    BothHeaders(h, j, bp);
    BothInUse(h, j, bp);
    BothPartition(h, j, bp);
    FoldParts(FreedBoth(h, j, bp));
  }

  /** Freeing `bp`: it joins the free list, merged with the free blocks it touches. */
  ghost function Freed(h: Heap, j: nat, bp: int): Heap
    requires CanFree(h, j, bp)
  {
    Neighbours(h, j, bp);
    if MeetsNext(h, j, bp) then
      if MeetsPrevious(h, j, bp) then FreeBoth(h, j, bp); FreedBoth(h, j, bp) else FreedUp(h, j, bp)
    else
      if MeetsPrevious(h, j, bp) then FreeDown(h, j, bp); FreedDown(h, j, bp) else FreedAlone(h, j, bp)
  }

  /** The units [a, a+n) lie in one free block. */
  ghost predicate InFreeBlock(h: Heap, a: int, n: int) {
    exists i :: 0 < i < |h.fl| && h.fl[i] in h.blk && h.fl[i] <= a && a + n <= h.fl[i] + h.blk[h.fl[i]]
  }

  /** What freeing `bp` at place `j` of `h` achieves. */
  ghost predicate SoundFree(h: Heap, j: nat, bp: int, h': Heap)
    requires j < |h.fl| && bp in h.blk
  {
    && Sound(h') && h'.base == h.base && h'.live == h.live - {bp} && h'.own.Keys == h.own.Keys
    && h.fl[j] in h'.fl && InFreeBlock(h', bp, h.blk[bp])
  }

  lemma FreeIsSound(h: Heap, j: nat, bp: int)
    requires CanFree(h, j, bp)
    ensures bp in h.blk && SoundFree(h, j, bp, Freed(h, j, bp))
  {
    Neighbours(h, j, bp);
    if MeetsNext(h, j, bp) { MergeUpIsSound(h, j, bp); } else { NoMergeUpIsSound(h, j, bp); }
  }

  lemma LiveAreBlocks(h: Heap)
    requires Sound(h)
    ensures forall a :: a in h.live ==> a in h.blk && a !in h.fl
  {
    assert Opened(h);
    assert forall a :: a in h.live ==> a in h.blk.Keys && a !in Elements(h.fl);
  }

  lemma MergeUpIsSound(h: Heap, j: nat, bp: int)
    requires CanFree(h, j, bp) && bp in h.mem && bp in h.blk && MeetsNext(h, j, bp)
    ensures SoundFree(h, j, bp, Freed(h, j, bp))
  {
    Neighbours(h, j, bp);
    LiveAreBlocks(h);
    var h' := Freed(h, j, bp);
    if MeetsPrevious(h, j, bp) {
      FreeBoth(h, j, bp);
      assert h'.fl[j] == h.fl[j];
    } else {
      FreeUp(h, j, bp);
      assert h'.fl[j] == h.fl[j] && h'.fl[j + 1] == bp;
    }
  }

  lemma NoMergeUpIsSound(h: Heap, j: nat, bp: int)
    requires CanFree(h, j, bp) && bp in h.mem && bp in h.blk && !MeetsNext(h, j, bp)
    ensures SoundFree(h, j, bp, Freed(h, j, bp))
  {
    Neighbours(h, j, bp);
    LiveAreBlocks(h);
    var h' := Freed(h, j, bp);
    if MeetsPrevious(h, j, bp) {
      FreeDown(h, j, bp);
      assert h'.fl[j] == h.fl[j];
    } else {
      FreeAlone(h, j, bp);
      assert h'.fl[j] == h.fl[j] && h'.fl[j + 1] == bp;
    }
  }

  /** The header writes of `free` once it has found `p`: join to the upper neighbour, then to the lower. */
  function Linked(mem: Memory, p: int, bp: int): Memory
    requires p in mem && bp in mem && p != bp && mem[p].ptr in mem
  {
    var nx := mem[p].ptr;
    var mem1 := if bp + mem[bp].size == nx then mem[bp := Header(mem[nx].ptr, mem[bp].size + mem[nx].size)]
                else mem[bp := mem[bp].(ptr := nx)];
    if p + mem1[p].size == bp then mem1[p := Header(mem1[bp].ptr, mem1[p].size + mem1[bp].size)]
    else mem1[p := mem1[p].(ptr := bp)]
  }

  lemma LinkedIsFreed(h: Heap, j: nat, bp: int)
    requires CanFree(h, j, bp)
    ensures h.fl[j] in h.mem && bp in h.mem && h.fl[j] != bp && h.mem[h.fl[j]].ptr in h.mem
    ensures Freed(h, j, bp).mem == Linked(h.mem, h.fl[j], bp)
  {
    Neighbours(h, j, bp);
    HeadersOf(h);
  }

  // ---- Taking a block ----

  /** Writing only the size field of the header at `a`. */
  function SetSize(mem: Memory, a: int, n: int): Memory {
    mem[a := Header(if a in mem then mem[a].ptr else 0, n)]
  }

  ghost function TookWhole(h: Heap, j: nat): Heap
    requires j + 1 < |h.fl| && h.fl[j] in h.mem && h.fl[j + 1] in h.mem
  {
    h.(mem := h.mem[h.fl[j] := h.mem[h.fl[j]].(ptr := h.mem[h.fl[j + 1]].ptr)],
       fl := h.fl[..j + 1] + h.fl[j + 2..],
       live := h.live[h.fl[j + 1] := h.mem[h.fl[j + 1]].size])
  }

  lemma TakeWhole(h: Heap, j: nat)
    requires Ok(h) && j + 1 < |h.fl|
    ensures h.fl[j] in h.mem && h.fl[j + 1] in h.mem && h.fl[j + 1] in h.blk && h.fl[j + 1] !in h.live
    ensures Ok(TookWhole(h, j)) && h.fl[j] in TookWhole(h, j).fl
  {
    assert NodeOk(h.mem, h.fl, j) && NodeOk(h.mem, h.fl, j + 1);
    assert h.fl[0] < h.fl[j + 1] && h.fl[j + 1] in Elements(h.fl);
    DropNext(h.mem, h.fl, h.base, j, h.mem[h.fl[j]].size);
    DropElements(h.fl, j);
    assert TookWhole(h, j).fl[j] == h.fl[j];
  }

  ghost function TookTail(h: Heap, p: int, n: int): Heap
    requires p in h.mem && p in h.blk
  {
    var q := p + h.blk[p] - n;
    h.(mem := CutTail(h.mem, p, n),
       live := h.live[q := n],
       blk := Split(h.blk, p, n),
       own := SplitOwn(h.own, p, q))
  }

  /** The header writes that cut `n` units off the end of block `p`. */
  function CutTail(mem: Memory, p: int, n: int): Memory
    requires p in mem
  {
    SetSize(mem[p := mem[p].(size := mem[p].size - n)], p + mem[p].size - n, n)
  }

  lemma TailList(mem: Memory, fl: seq<int>, base: int, i: nat, n: int)
    requires ListOk(mem, fl, base) && 0 < i < |fl| && fl[i] in mem && 0 < n < mem[fl[i]].size
    requires fl[i] + mem[fl[i]].size - n !in fl
    ensures ListOk(CutTail(mem, fl[i], n), fl, base)
  {
    var p := fl[i];
    assert NodeOk(mem, fl, i) && fl[0] < p;
    var q := p + mem[p].size - n;
    var mem1 := mem[p := mem[p].(size := q - p)];
    Resize(mem, fl, base, i, q - p);
    OffList(mem1, fl, base, q, SetSize(mem1, q, n)[q]);
  }

  lemma TailBlocks(mem: Memory, blk: map<int, int>, base: int, p: int, n: int)
    requires BlocksOk(mem, blk, base) && p in blk && p in mem && 0 < n < blk[p] && p + blk[p] - n !in blk
    ensures BlocksOk(CutTail(mem, p, n), Split(blk, p, n), base)
  {
  }

  lemma TailLive(h: Heap, p: int, n: int)
    requires FreeOrLive(h.fl, h.blk, h.live, h.base) && SizesKept(h.blk, h.live)
    requires p in h.fl && p in h.blk && p + h.blk[p] - n !in h.blk && h.base < p < p + h.blk[p] - n
    ensures p + h.blk[p] - n !in h.fl
    ensures FreeOrLive(h.fl, Split(h.blk, p, n), h.live[p + h.blk[p] - n := n], h.base)
    ensures SizesKept(Split(h.blk, p, n), h.live[p + h.blk[p] - n := n])
  {
    var q := p + h.blk[p] - n;
    assert p in Elements(h.fl) && q !in Elements(h.fl);
    assert Split(h.blk, p, n).Keys == h.blk.Keys + {q};
  }

  /** Where the tail of the free block at place `i` lies. */
  lemma TailFacts(h: Heap, i: nat, n: int)
    requires Sound(h) && 0 < i < |h.fl| && h.fl[i] in h.mem && 0 < n < h.mem[h.fl[i]].size
    ensures h.base < h.fl[i] && h.fl[i] in h.blk && h.mem[h.fl[i]].size == h.blk[h.fl[i]]
  {
    assert Opened(h);
    assert h.fl[0] < h.fl[i] && h.fl[i] in Elements(h.fl);
    assert h.fl[i] in h.blk.Keys;
  }

  lemma TailPartition(h: Heap, p: int, n: int)
    requires Sound(h) && p in h.mem && p in h.blk && 0 < n < h.blk[p]
    ensures p + h.blk[p] - n !in h.blk
    ensures PartitionOk(TookTail(h, p, n))
  {
    PartitionOf(h);
    SplitBlock(h.blk, h.own, p, n);
  }

  lemma SplitOwnKeys(own: map<int, int>, a: int, q: int)
    ensures SplitOwn(own, a, q).Keys == own.Keys
  {
  }

  lemma TailInUse(h: Heap, p: int, n: int)
    requires Sound(h) && p in h.mem && p in h.fl && p in h.blk && p + h.blk[p] - n !in h.blk
             && h.base < p < p + h.blk[p] - n
    ensures p + h.blk[p] - n !in h.fl && p + h.blk[p] - n !in h.live
    ensures InUseOk(TookTail(h, p, n))
  {
    InUseOf(h);
    TailLive(h, p, n);
    FoldInUse(TookTail(h, p, n));
  }

  lemma TailHeaders(h: Heap, i: nat, n: int)
    requires Sound(h) && 0 < i < |h.fl| && h.fl[i] in h.mem && 0 < n < h.mem[h.fl[i]].size
    requires h.fl[i] in h.blk && h.mem[h.fl[i]].size == h.blk[h.fl[i]]
    requires h.fl[i] + h.mem[h.fl[i]].size - n !in h.fl && h.fl[i] + h.mem[h.fl[i]].size - n !in h.blk
    ensures HeadersOk(TookTail(h, h.fl[i], n))
  {
    HeadersOf(h);
    TailList(h.mem, h.fl, h.base, i, n);
    TailBlocks(h.mem, h.blk, h.base, h.fl[i], n);
    FoldHeaders(TookTail(h, h.fl[i], n));
  }

  lemma TakeTail(h: Heap, i: nat, n: int)
    requires Sound(h) && 0 < i < |h.fl| && h.fl[i] in h.mem && 0 < n < h.mem[h.fl[i]].size
    ensures h.fl[i] in h.blk && h.mem[h.fl[i]].size == h.blk[h.fl[i]]
    ensures h.fl[i] + h.blk[h.fl[i]] - n !in h.live && Sound(TookTail(h, h.fl[i], n))
  {
    TailFacts(h, i, n);
    TailPartition(h, h.fl[i], n);
    TailInUse(h, h.fl[i], n);
    TailHeaders(h, i, n);
    FoldParts(TookTail(h, h.fl[i], n));
  }

  /** New units from sbrk, as a block in use that is about to be freed. */
  ghost function Grown(h: Heap, hp: int, n: nat): Heap {
    h.(mem := SetSize(h.mem, hp, n), live := h.live[hp := n], blk := h.blk[hp := n], own := GrownOwn(h.own, hp, n))
  }

  lemma GrownHeaders(h: Heap, hp: int, n: nat)
    requires Sound(h) && n >= 1 && h.base < hp && hp !in h.fl && hp !in h.blk
    ensures HeadersOk(Grown(h, hp, n))
  {
    HeadersOf(h);
    OffList(h.mem, h.fl, h.base, hp, SetSize(h.mem, hp, n)[hp]);
    FoldHeaders(Grown(h, hp, n));
  }

  lemma GrownInUse(h: Heap, hp: int, n: nat)
    requires Sound(h) && h.base < hp && hp !in h.blk
    ensures hp !in h.fl && hp !in h.live && InUseOk(Grown(h, hp, n))
  {
    InUseOf(h);
    assert hp in h.fl ==> hp in Elements(h.fl);
    FoldInUse(Grown(h, hp, n));
  }

  lemma Grow(h: Heap, hp: int, n: nat)
    requires Sound(h) && n >= 1 && h.base < hp && (forall x :: x in h.own ==> x < hp)
    ensures hp !in h.blk && hp !in h.live && Sound(Grown(h, hp, n))
  {
    PartitionOf(h);
    GrowBlocks(h.blk, h.own, hp, n);
    assert PartitionOk(Grown(h, hp, n));
    GrownInUse(h, hp, n);
    GrownHeaders(h, hp, n);
    FoldParts(Grown(h, hp, n));
  }

  // ---- Request sizes ----

  const HEADER := 16          // sizeof(Header)
  const MINUNITS := 4096
  const UINT := 0x1_0000_0000

  /** The units malloc needs for `nbytes`: the payload rounded up, and one header. */
  function Units(nbytes: nat): nat { (nbytes + HEADER - 1) / HEADER + 1 }

  function MoreUnits(nu: nat): nat { if nu < MINUNITS then MINUNITS else nu }

  /** Conversion to a 32-bit signed int, the type of sbrk's argument. */
  function AsInt(x: int): int {
    var w := x % UINT;
    if w < UINT / 2 then w else w - UINT
  }

  /** morecore asks sbrk for exactly the memory it goes on to use if and only if the request is below 2^27 units. */
  lemma RequestFits(nu: nat)
    requires nu < UINT
    ensures AsInt(MoreUnits(nu) * HEADER) == MoreUnits(nu) * HEADER <==> nu < 0x800_0000
  {
  }

  /** A request that does not fit: sbrk is asked for no memory at all. */
  lemma RequestOverflows()
    ensures Units(0xffff_fff0) == 0x1000_0000
    ensures AsInt(MoreUnits(Units(0xffff_fff0)) * HEADER) == 0
  {
  }

  // ---- The steps of the allocator, on whole heaps ----

  lemma FreeStep(h: Heap, j: nat, bp: int) returns (h': Heap)
    requires Sound(h) && bp in h.live && Slot(h.fl, j, bp)
    ensures h.fl[j] in h.mem && bp in h.mem && h.fl[j] != bp && h.mem[h.fl[j]].ptr in h.mem
    ensures Sound(h') && h'.base == h.base && h'.mem == Linked(h.mem, h.fl[j], bp) && h.fl[j] in h'.fl
    ensures h'.live == h.live - {bp} && h'.own.Keys == h.own.Keys && InFreeBlock(h', bp, h.live[bp])
  {
    InUseOf(h);
    FreeIsSound(h, j, bp);
    LinkedIsFreed(h, j, bp);
    h' := Freed(h, j, bp);
  }

  lemma TakeWholeStep(h: Heap, j: nat) returns (h': Heap)
    requires Sound(h) && j + 1 < |h.fl|
    ensures h.fl[j] in h.mem && h.fl[j + 1] in h.mem
    ensures h'.mem == h.mem[h.fl[j] := h.mem[h.fl[j]].(ptr := h.mem[h.fl[j + 1]].ptr)]
    ensures Sound(h') && h'.base == h.base && h.fl[j] in h'.fl && h'.own == h.own
    ensures h.fl[j + 1] !in h.live && h'.live == h.live[h.fl[j + 1] := h.mem[h.fl[j + 1]].size]
  {
    assert Opened(h);
    TakeWhole(h, j);
    h' := TookWhole(h, j);
  }

  lemma TakeTailStep(h: Heap, i: nat, n: int) returns (h': Heap)
    requires Sound(h) && 0 < i < |h.fl| && h.fl[i] in h.mem && 0 < n < h.mem[h.fl[i]].size
    ensures var p := h.fl[i]; var q := p + h.mem[p].size - n;
            && h'.mem == CutTail(h.mem, p, n)
            && Sound(h') && h'.base == h.base && h'.fl == h.fl && h'.own.Keys == h.own.Keys
            && q !in h.live && h'.live == h.live[q := n]
  {
    TakeTail(h, i, n);
    h' := TookTail(h, h.fl[i], n);
    SplitOwnKeys(h.own, h.fl[i], h.fl[i] + h.blk[h.fl[i]] - n);
  }

  lemma GrowStep(h: Heap, hp: int, n: nat) returns (h': Heap)
    requires Sound(h) && n >= 1 && h.base < hp && (forall x :: x in h.own ==> x < hp)
    ensures Sound(h') && h'.base == h.base && h'.mem == SetSize(h.mem, hp, n) && h'.fl == h.fl
    ensures hp !in h.live && h'.live == h.live[hp := n] && Gained(h.own, h'.own, hp, n)
  {
    Grow(h, hp, n);
    h' := Grown(h, hp, n);
  }

  /** The heap of the first call: the free list is the static header alone. */
  lemma StartStep(base: int, mem: Memory) returns (h': Heap)
    requires base in mem && mem[base] == Header(base, 0)
    ensures h' == Heap(base, mem, [base], map[], map[], map[]) && Sound(h')
  {
    h' := Heap(base, mem, [base], map[], map[], map[]);
    assert NodeOk(mem, h'.fl, 0);
    assert Elements([base]) == {base};
  }

  lemma NodeAt(h: Heap, i: nat)
    requires Sound(h) && i < |h.fl|
    ensures NodeOk(h.mem, h.fl, i)
  {
    assert Opened(h);
  }

  lemma BigEnough(h: Heap, a: int, n: int) returns (i: nat)
    requires Sound(h) && InFreeBlock(h, a, n)
    ensures FitsAt(h.mem, h.fl, i, n)
  {
    assert Opened(h);
    i :| 0 < i < |h.fl| && h.fl[i] in h.blk && h.fl[i] <= a && a + n <= h.fl[i] + h.blk[h.fl[i]];
  }

  /** Two blocks in use never overlap, and a block in use never overlaps a free one. */
  lemma InUseDisjoint(h: Heap, a: int, b: int)
    requires Sound(h) && a in h.live && b in h.blk && a != b
    ensures a < b ==> a + h.live[a] <= b
    ensures b < a ==> b + h.blk[b] <= a
    ensures b in h.live ==> h.blk[b] == h.live[b]
  {
    Parts(h);
    if a < b { BlocksDisjoint(h.blk, h.own, a, b); } else { BlocksDisjoint(h.blk, h.own, b, a); }
  }

  /** No two free blocks touch: memory given back is always merged with its free neighbours. */
  lemma FreeBlocksApart(h: Heap, i: nat, j: nat)
    requires Sound(h) && 0 < i < j < |h.fl|
    ensures h.fl[i] in h.blk && h.fl[i] + h.blk[h.fl[i]] < h.fl[j]
  {
    Parts(h);
    assert NodeOk(h.mem, h.fl, i) && h.fl[0] < h.fl[i] && h.fl[i] in Elements(h.fl);
    assert i + 1 < j ==> h.fl[i + 1] < h.fl[j];
  }

  // ---- The allocator ----

  /** Index arithmetic on a circle of `n`. */
  function Wrap(n: nat, i: nat): (r: nat)
    requires n > 0 && i < 2 * n
    ensures r < n
  {
    if i < n then i else i - n
  }

  /** How many steps after the place following `k` the place `i` is reached. */
  ghost function StepsTo(n: nat, k: nat, i: nat): (w: nat)
    requires k < n && i < n
    ensures w < n && Wrap(n, k + 1 + w) == i
  {
    if i > k then i - k - 1 else i + n - k - 1
  }

  ghost predicate FitsAt(mem: Memory, fl: seq<int>, i: nat, n: int) {
    i < |fl| && fl[i] in mem && mem[fl[i]].size >= n
  }

  /** `prevp` and `p` are `t` steps around the list from place `k`. */
  ghost predicate Around(fl: seq<int>, k: nat, t: nat, prevp: int, p: int) {
    && k < |fl| && t < |fl|
    && prevp == fl[Wrap(|fl|, k + t)] && p == fl[Wrap(|fl|, k + t + 1)]
  }

  /** Within what is left of the turn, at `w`, there is a block with room. */
  ghost predicate Ahead(mem: Memory, fl: seq<int>, k: nat, t: nat, w: nat, n: int) {
    k < |fl| && t <= w < |fl| && FitsAt(mem, fl, Wrap(|fl|, k + 1 + w), n)
  }

  /** Some free block has room for `n` units. */
  ghost predicate HasRoom(h: Heap, n: int) {
    exists i: nat :: FitsAt(h.mem, h.fl, i, n)
  }

  ghost predicate TooSmall(mem: Memory, fl: seq<int>, k: nat, s: nat, n: int) {
    k < |fl| && s < |fl| && !FitsAt(mem, fl, Wrap(|fl|, k + 1 + s), n)
  }

  /** The first `t` blocks of the turn have no room. */
  ghost predicate Passed(mem: Memory, fl: seq<int>, k: nat, t: nat, n: int) {
    forall s: nat :: s < t ==> TooSmall(mem, fl, k, s, n)
  }

  lemma StartAround(h: Heap, k: nat)
    requires Sound(h) && k < |h.fl|
    ensures h.fl[k] in h.mem && Around(h.fl, k, 0, h.fl[k], h.mem[h.fl[k]].ptr)
  {
    assert Opened(h);
    assert NodeOk(h.mem, h.fl, k);
  }

  lemma StepAround(h: Heap, k: nat, t: nat, prevp: int, p: int)
    requires Sound(h) && Around(h.fl, k, t, prevp, p)
    ensures p in h.mem
    ensures t + 1 < |h.fl| ==> Around(h.fl, k, t + 1, p, h.mem[p].ptr)
  {
    assert Opened(h);
    assert NodeOk(h.mem, h.fl, Wrap(|h.fl|, k + t + 1));
  }

  /** The walk is back at its start exactly after one whole turn. */
  lemma TurnIsWhole(h: Heap, k: nat, t: nat, prevp: int, p: int)
    requires Sound(h) && Around(h.fl, k, t, prevp, p)
    ensures p == h.fl[k] <==> t + 1 == |h.fl|
  {
    assert Opened(h);
    assert Wrap(|h.fl|, k + t + 1) == k <==> t + 1 == |h.fl|;
  }

  /** One more block without room; after a whole turn no block has any. */
  lemma PassedOn(h: Heap, k: nat, t: nat, prevp: int, p: int, n: int)
    requires Around(h.fl, k, t, prevp, p) && p in h.mem && h.mem[p].size < n && Passed(h.mem, h.fl, k, t, n)
    ensures Passed(h.mem, h.fl, k, t + 1, n)
    ensures t + 1 == |h.fl| ==> !HasRoom(h, n)
  {
    assert TooSmall(h.mem, h.fl, k, t, n);
    if t + 1 == |h.fl| {
      forall i: nat | i < |h.fl| ensures !FitsAt(h.mem, h.fl, i, n) {
        assert TooSmall(h.mem, h.fl, k, StepsTo(|h.fl|, k, i), n);
      }
    }
  }

  /** A block with room for a request is not the static header, so its predecessor is just below it. */
  lemma PlaceBefore(h: Heap, k: nat, t: nat, prevp: int, p: int, n: int) returns (j: nat)
    requires Sound(h) && Around(h.fl, k, t, prevp, p) && p in h.mem && h.mem[p].size >= n >= 1
    ensures j + 1 < |h.fl| && prevp == h.fl[j] && p == h.fl[j + 1] && HasRoom(h, n)
  {
    assert Opened(h);
    assert Wrap(|h.fl|, k + t + 1) != 0;
    j := Wrap(|h.fl|, k + t);
    assert FitsAt(h.mem, h.fl, j + 1, n);
  }

  class Allocator {
    const base: int
    var mem: Memory
    var freep: Option<int>
    ghost var h: Heap

    ghost predicate Valid()
      reads this
    {
      && h.base == base && h.mem == mem
      && (freep.None? ==> h.fl == [] && h.blk == map[] && h.live == map[] && h.own == map[])
      && (freep.Some? ==> Sound(h) && freep.value in h.fl)
    }

    constructor (base: int)
      ensures Valid() && freep == None && this.base == base
    {
      this.base := base;
      mem := map[];
      freep := None;
      h := Heap(base, map[], [], map[], map[], map[]);
    }

    /** The loop of `free`: the free block after which `bp` belongs. */
    method FindSlot(bp: int) returns (p: int, ghost j: nat)
      requires Valid() && freep.Some? && bp in h.live
      ensures Slot(h.fl, j, bp) && p == h.fl[j]
    {
      assert Opened(h);
      LiveAreBlocks(h);
      ghost var fl := h.fl;
      ghost var slot := SlotExists(fl, bp, |fl|);
      p := freep.value;
      j :| 0 <= j < |fl| && fl[j] == p;
      assert NodeOk(mem, fl, j);
      while !(bp > p && bp < mem[p].ptr)
        invariant j < |fl| && fl[j] == p && NodeOk(mem, fl, j)
        decreases if j <= slot then slot - j else |fl| - j + slot
      {
        if p >= mem[p].ptr && (bp > p || bp < mem[p].ptr) {
          break;
        }
        assert j != slot;
        p := mem[p].ptr;
        j := NextIndex(|fl|, j);
        assert NodeOk(mem, fl, j);
      }
    }

    /** `free` of the block whose header is at `ap - 1`. */
    method Free(ap: int)
      requires Valid() && freep.Some? && ap - 1 in h.live
      modifies this`mem, this`freep, this`h
      ensures Valid() && freep.Some?
      ensures h.live == old(h.live) - {ap - 1} && h.own.Keys == old(h.own).Keys
      ensures InFreeBlock(h, ap - 1, old(h.live)[ap - 1])
    {
      var bp := ap - 1;
      var p;
      ghost var j: nat;
      p, j := FindSlot(bp);
      ghost var h' := FreeStep(h, j, bp);
      Link(p, bp);
      freep := Some(p);
      h := h';
    }

    /** The header writes at the end of `free`. */
    method Link(p: int, bp: int)
      requires p in mem && bp in mem && p != bp && mem[p].ptr in mem
      modifies this`mem
      ensures mem == Linked(old(mem), p, bp)
    {
      if bp + mem[bp].size == mem[p].ptr {
        var nx := mem[p].ptr;
        mem := mem[bp := Header(mem[nx].ptr, mem[bp].size + mem[nx].size)];
      } else {
        mem := mem[bp := mem[bp].(ptr := mem[p].ptr)];
      }
      if p + mem[p].size == bp {
        mem := mem[p := Header(mem[bp].ptr, mem[p].size + mem[bp].size)];
      } else {
        mem := mem[p := mem[p].(ptr := bp)];
      }
    }

    /**
     * `morecore`: `brk` is what sbrk returns, memory above everything obtained
     * before.  The free list then has a block, at place `i`, that is big enough.
     */
    method Morecore(nu: nat, brk: Option<int>) returns (r: Option<int>, ghost i: nat)
      requires Valid() && freep.Some?
      requires AsInt(MoreUnits(nu) * HEADER) == MoreUnits(nu) * HEADER
      requires brk.Some? ==> base < brk.value && forall x :: x in h.own ==> x < brk.value
      modifies this`mem, this`freep, this`h
      ensures Valid() && freep.Some? && h.live == old(h.live)
      ensures r.None? <==> brk.None?
      ensures r.None? ==> h == old(h) && freep == old(freep)
      ensures r.Some? ==> r == freep && FitsAt(mem, h.fl, i, nu)
      ensures r.Some? ==> Gained(old(h.own), h.own, brk.value, MoreUnits(nu))
    {
      var n := MoreUnits(nu);
      if brk == None {
        return None, 0;
      }
      var hp := brk.value;
      ghost var h' := GrowStep(h, hp, n);
      mem := SetSize(mem, hp, n);
      h := h';
      Free(hp + 1);
      i := BigEnough(h, hp, n);
      r := freep;
    }

    /** The part of `malloc` that takes `n` units from the free block after place `j`. */
    method Take(prevp: int, p: int, n: nat, ghost j: nat) returns (q: int)
      requires Valid() && freep.Some? && n >= 1
      requires j + 1 < |h.fl| && prevp == h.fl[j] && p == h.fl[j + 1] && FitsAt(mem, h.fl, j + 1, n)
      modifies this`mem, this`freep, this`h
      ensures Valid() && freep.Some?
      ensures q !in old(h.live) && h.live == old(h.live)[q := n] && h.own.Keys == old(h.own).Keys
    {
      NodeAt(h, j);
      if mem[p].size == n {
        ghost var h' := TakeWholeStep(h, j);
        mem := mem[prevp := mem[prevp].(ptr := mem[p].ptr)];
        q := p;
        h := h';
      } else {
        ghost var h' := TakeTailStep(h, j + 1, n);
        mem := mem[p := mem[p].(size := mem[p].size - n)];
        q := p + mem[p].size;
        mem := SetSize(mem, q, n);
        h := h';
      }
      freep := Some(prevp);
    }

    /** The first lines of `malloc`: set up the free list on the first call. */
    method Start(ghost nunits: nat)
      requires Valid()
      modifies this`mem, this`freep, this`h
      ensures Valid() && freep.Some? && h.live == old(h.live) && h.own == old(h.own)
      ensures nunits >= 1 ==> (HasRoom(h, nunits) <==> old(HasRoom(h, nunits)))
    {
      if freep == None {
        mem := mem[base := Header(base, 0)];
        freep := Some(base);
        h := StartStep(base, mem);
      }
    }

    /** What `malloc` does after a whole turn around the list: get more memory and start again from it. */
    method MoreRoom(nu: nat, brk: Option<int>) returns (p: Option<int>, ghost k: nat, ghost w: nat)
      requires Valid() && freep.Some?
      requires AsInt(MoreUnits(nu) * HEADER) == MoreUnits(nu) * HEADER
      requires brk.Some? ==> base < brk.value && forall x :: x in h.own ==> x < brk.value
      modifies this`mem, this`freep, this`h
      ensures Valid() && freep.Some? && h.live == old(h.live)
      ensures p.None? <==> brk.None?
      ensures if p.None? then h.own == old(h.own) else Gained(old(h.own), h.own, brk.value, MoreUnits(nu))
      ensures p.Some? ==>
                && p == freep && k < |h.fl| && h.fl[k] == p.value && p.value in mem
                && Around(h.fl, k, 0, p.value, mem[p.value].ptr) && Ahead(mem, h.fl, k, 0, w, nu)
    {
      ghost var i: nat;
      k, w := 0, 0;
      p, i := Morecore(nu, brk);
      if p.Some? {
        k :| k < |h.fl| && h.fl[k] == p.value;
        w := StepsTo(|h.fl|, k, i);
        StartAround(h, k);
      }
    }

    /**
     * `malloc`.  The request must be one that morecore can pass to sbrk; `brk`
     * is what sbrk returns if it is called, and `grew` says that it has returned memory.
     */
    method Malloc(nbytes: nat, brk: Option<int>) returns (ap: Option<int>, grew: bool)
      requires Valid() && nbytes < UINT
      requires AsInt(MoreUnits(Units(nbytes)) * HEADER) == MoreUnits(Units(nbytes)) * HEADER
      requires brk.Some? ==> base < brk.value && forall x :: x in h.own ==> x < brk.value
      modifies this`mem, this`freep, this`h
      ensures Valid() && freep.Some?
      // The units owned are as before, or, with no room in a free block, have grown by exactly what sbrk returned.
      ensures grew <==> brk.Some? && !old(HasRoom(h, Units(nbytes)))
      ensures !grew ==> h.own.Keys == old(h.own).Keys
      ensures grew ==> Gained(old(h.own), h.own, brk.value, MoreUnits(Units(nbytes)))
      ensures ap.None? <==> brk.None? && !old(HasRoom(h, Units(nbytes)))
      ensures ap.None? ==> h.live == old(h.live)
      ensures ap.Some? ==> ap.value - 1 !in old(h.live) && h.live == old(h.live)[ap.value - 1 := Units(nbytes)]
    {
      var nunits := Units(nbytes);
      ghost var h0, room := h, HasRoom(h, nunits);
      Start(nunits);
      var prevp := freep.value;
      ghost var k: nat :| k < |h.fl| && h.fl[k] == prevp;
      StartAround(h, k);
      var p := mem[prevp].ptr;
      ghost var t, w := 0, 0;
      grew := false;
      while true
        invariant Valid() && freep.Some? && h.live == h0.live
        invariant Around(h.fl, k, t, prevp, p) && h.fl[k] == freep.value
        invariant !grew ==> h.own == h0.own && (HasRoom(h, nunits) <==> room) && Passed(h.mem, h.fl, k, t, nunits)
        invariant grew ==> brk.Some? && !room && Gained(h0.own, h.own, brk.value, MoreUnits(nunits))
        invariant grew ==> Ahead(mem, h.fl, k, t, w, nunits)
        decreases !grew, |h.fl| - t
      {
        StepAround(h, k, t, prevp, p);
        TurnIsWhole(h, k, t, prevp, p);
        if mem[p].size >= nunits {
          ghost var j := PlaceBefore(h, k, t, prevp, p, nunits);
          var q := Take(prevp, p, nunits, j);
          return Some(q + 1), grew;
        }
        if !grew {
          PassedOn(h, k, t, prevp, p, nunits);
        }
        if p == freep.value {
          var r;
          r, k, w := MoreRoom(nunits, brk);
          if r == None {
            return None, false;
          }
          p := r.value;
          t, grew := 0, true;
        } else {
          t := t + 1;
        }
        prevp := p;
        p := mem[p].ptr;
      }
    }
  }

  // ---- Programs ----

  /** A unit belongs to one block, and that block is either free or in use. */
  ghost predicate OwnedOnce(h: Heap, x: int) {
    && x in h.own && Covers(h.blk, h.own[x], x)
    && (h.own[x] in h.live <==> h.own[x] !in h.fl)
    && forall b :: Covers(h.blk, b, x) ==> b == h.own[x]
  }

  /** The units of the heap are those of its blocks, each in one block that is either free or in use. */
  lemma Conserved(h: Heap, x: int)
    requires Sound(h)
    ensures x in h.own ==> OwnedOnce(h, x)
    ensures (exists b :: Covers(h.blk, b, x)) ==> x in h.own
  {
    Parts(h);
    if x in h.own {
      var b := h.own[x];
      assert Covers(h.blk, b, x) && b in h.blk.Keys;
      assert b in h.fl <==> b in Elements(h.fl);
      assert h.base in h.blk ==> h.base in h.live.Keys by { assert h.base !in Elements(h.fl) - {h.base}; }
    }
  }

  /** The memory that sbrk has returned, range by range. */
  datatype Range = Range(lo: int, n: nat)

  predicate InRange(r: Range, x: int) { r.lo <= x < r.lo + r.n }

  ghost predicate Obtained(rs: seq<Range>, x: int) {
    exists i :: 0 <= i < |rs| && InRange(rs[i], x)
  }

  /** The ranges rise, without overlap, from above `base` to below `top`. */
  ghost predicate Rising(rs: seq<Range>, base: int, top: int) {
    && (forall i :: 0 <= i < |rs| ==> base < rs[i].lo && rs[i].lo + rs[i].n <= top)
    && forall i, j :: 0 <= i < j < |rs| ==> rs[i].lo + rs[i].n <= rs[j].lo
  }

  ghost predicate OwnsExactly(own: map<int, int>, rs: seq<Range>) {
    forall x :: x in own <==> Obtained(rs, x)
  }

  lemma SameRanges(own: map<int, int>, own': map<int, int>, rs: seq<Range>)
    requires OwnsExactly(own, rs) && own.Keys == own'.Keys
    ensures OwnsExactly(own', rs)
  {
    forall x ensures x in own' <==> Obtained(rs, x) { assert x in own.Keys <==> x in own'.Keys; }
  }

  lemma NothingObtained(rs: seq<Range>)
    requires OwnsExactly(map[], rs)
    ensures forall x :: !Obtained(rs, x)
  {
  }

  lemma BelowTop(own: map<int, int>, rs: seq<Range>, base: int, top: int)
    requires OwnsExactly(own, rs) && Rising(rs, base, top)
    ensures forall x :: x in own ==> x < top
  {
    forall x | x in own ensures x < top { assert Obtained(rs, x); }
  }

  function Total(rs: seq<Range>): nat {
    if rs == [] then 0 else Total(rs[..|rs| - 1]) + rs[|rs| - 1].n
  }

  lemma OneMoreRange(own: map<int, int>, own': map<int, int>, rs: seq<Range>, r: Range, base: int, top: int)
    requires OwnsExactly(own, rs) && Rising(rs, base, top)
    requires base < r.lo && top <= r.lo && Gained(own, own', r.lo, r.n)
    ensures OwnsExactly(own', rs + [r]) && Rising(rs + [r], base, r.lo + r.n)
  {
    forall x ensures Obtained(rs + [r], x) <==> Obtained(rs, x) || InRange(r, x) {
      if Obtained(rs, x) {
        var i :| 0 <= i < |rs| && InRange(rs[i], x);
        assert InRange((rs + [r])[i], x);
      }
      if InRange(r, x) {
        assert InRange((rs + [r])[|rs|], x);
      }
    }
  }

  lemma LastRange(rs: seq<Range>, x: int)
    requires rs != []
    ensures Obtained(rs, x) <==> Obtained(rs[..|rs| - 1], x) || InRange(rs[|rs| - 1], x)
  {
    var k := |rs| - 1;
    if Obtained(rs, x) {
      var i :| 0 <= i < |rs| && InRange(rs[i], x);
      assert i < k ==> InRange(rs[..k][i], x);
    }
    if Obtained(rs[..k], x) {
      var i :| 0 <= i < k && InRange(rs[..k][i], x);
      assert InRange(rs[i], x);
    }
  }

  ghost function Interval(lo: int, n: nat): (r: set<int>)
    ensures |r| == n && forall x :: x in r <==> lo <= x < lo + n
  {
    if n == 0 then {} else Interval(lo, n - 1) + {lo + n - 1}
  }

  ghost function UnitsOf(rs: seq<Range>): set<int> {
    if rs == [] then {} else UnitsOf(rs[..|rs| - 1]) + Interval(rs[|rs| - 1].lo, rs[|rs| - 1].n)
  }

  lemma {:induction false} InUnits(rs: seq<Range>, x: int)
    ensures x in UnitsOf(rs) <==> Obtained(rs, x)
  {
    if rs != [] {
      InUnits(rs[..|rs| - 1], x);
      LastRange(rs, x);
    }
  }

  /** As many units as the ranges have together. */
  lemma {:induction false} TotalUnits(rs: seq<Range>, base: int, top: int)
    requires Rising(rs, base, top)
    ensures |UnitsOf(rs)| == Total(rs)
  {
    if rs != [] {
      var k := |rs| - 1;
      var rest, last := UnitsOf(rs[..k]), Interval(rs[k].lo, rs[k].n);
      TotalUnits(rs[..k], base, top);
      forall x | x in last ensures x !in rest { InUnits(rs[..k], x); }
      assert rest * last == {};
      assert |rest + last| == |rest| + |last|;
    }
  }

  lemma TotalOwned(own: map<int, int>, rs: seq<Range>, base: int, top: int)
    requires OwnsExactly(own, rs) && Rising(rs, base, top)
    ensures |own| == Total(rs)
  {
    TotalUnits(rs, base, top);
    forall x ensures x in own.Keys <==> x in UnitsOf(rs) { InUnits(rs, x); }
    assert own.Keys == UnitsOf(rs);
  }

  // ---- Room seen from outside ----

  ghost predicate InUse(used: map<int, int>, x: int) {
    exists p :: p in used && p <= x < p + used[p]
  }

  /** The `n` units from `q` on have been obtained from sbrk and are in no block in use. */
  ghost predicate RunAt(used: map<int, int>, rs: seq<Range>, q: int, n: nat) {
    forall x :: q <= x < q + n ==> Obtained(rs, x) && !InUse(used, x)
  }

  ghost predicate Room(used: map<int, int>, rs: seq<Range>, n: nat) {
    exists q :: RunAt(used, rs, q, n)
  }

  /** A unit is in no block in use exactly when it is in a free one. */
  lemma UnusedUnit(h: Heap, x: int)
    requires Sound(h) && x in h.own
    ensures !InUse(h.live, x) <==> h.own[x] !in h.live
    ensures !InUse(h.live, x) ==> h.own[x] in h.fl && h.own[x] != h.base
    ensures Covers(h.blk, h.own[x], x)
  {
    Parts(h);
    assert Covers(h.blk, h.own[x], x);
    if InUse(h.live, x) {
      var p :| p in h.live && p <= x < p + h.live[p];
      assert Covers(h.blk, p, x);
    } else {
      assert h.own[x] in Elements(h.fl) - {h.base};
    }
  }

  /** Two unused units side by side are in the same free block, since free blocks are joined. */
  lemma SameFreeBlock(h: Heap, x: int)
    requires Sound(h) && x in h.own && x + 1 in h.own && !InUse(h.live, x) && !InUse(h.live, x + 1)
    ensures h.own[x] == h.own[x + 1]
  {
    UnusedUnit(h, x);
    UnusedUnit(h, x + 1);
    PartitionOf(h);
    HeadersOf(h);
    var b, c := h.own[x], h.own[x + 1];
    if b != c {
      var i: nat :| i < |h.fl| && h.fl[i] == b;
      var j: nat :| j < |h.fl| && h.fl[j] == c;
      assert !Covers(h.blk, c, x) && c == x + 1;
      assert i < j;
      FreeBlocksApart(h, i, j);
    }
  }

  lemma {:induction false} RunInOneBlock(h: Heap, rs: seq<Range>, q: int, n: nat)
    requires Sound(h) && OwnsExactly(h.own, rs) && n >= 1 && RunAt(h.live, rs, q, n)
    ensures q in h.own && q + n - 1 in h.own && h.own[q + n - 1] == h.own[q]
    decreases n
  {
    assert Obtained(rs, q) && Obtained(rs, q + n - 1);
    if n > 1 {
      RunInOneBlock(h, rs, q, n - 1);
      SameFreeBlock(h, q + n - 2);
    }
  }

  /** A free block has room exactly when there are enough unused units in a row, wherever they came from. */
  lemma RoomIsRun(h: Heap, rs: seq<Range>, n: nat)
    requires Sound(h) && OwnsExactly(h.own, rs) && n >= 1
    ensures HasRoom(h, n) <==> Room(h.live, rs, n)
  {
    if HasRoom(h, n) {
      var i: nat :| FitsAt(h.mem, h.fl, i, n);
      RunOfBlock(h, rs, i, n);
    }
    if Room(h.live, rs, n) {
      var q :| RunAt(h.live, rs, q, n);
      RunInOneBlock(h, rs, q, n);
      UnusedUnit(h, q);
      UnusedUnit(h, q + n - 1);
      HeadersOf(h);
      var i: nat :| i < |h.fl| && h.fl[i] == h.own[q];
      assert FitsAt(h.mem, h.fl, i, n);
    }
  }

  lemma RunOfBlock(h: Heap, rs: seq<Range>, i: nat, n: nat)
    requires Sound(h) && OwnsExactly(h.own, rs) && n >= 1 && FitsAt(h.mem, h.fl, i, n)
    ensures RunAt(h.live, rs, h.fl[i], n)
  {
    Parts(h);
    var b := h.fl[i];
    assert b in Elements(h.fl) - {h.base};
    forall x | b <= x < b + n ensures Obtained(rs, x) && !InUse(h.live, x) {
      assert Covers(h.blk, b, x);
      UnusedUnit(h, x);
    }
  }

  // ---- Runs of a program ----

  /** A call of a program: `gap` is how far above the last break sbrk returns memory, None if it has none. */
  datatype Call = MallocCall(nbytes: nat, gap: Option<nat>) | FreeCall(ap: int)

  /** A request that morecore can pass on. */
  predicate CanAsk(c: Call) {
    c.MallocCall? ==> c.nbytes < UINT && Units(c.nbytes) < 0x800_0000
  }

  /** Between two calls: the blocks in use by the place of their header, the ranges obtained from sbrk, the break. */
  datatype Mark = Mark(used: map<int, int>, rs: seq<Range>, top: int)

  /** A block of `n` units, all obtained from sbrk and none of them in use before, is handed out. */
  ghost predicate HandedOut(used: map<int, int>, n: nat, m': Mark) {
    exists p :: p !in used && RunAt(used, m'.rs, p, n) && m'.used == used[p := n]
  }

  /** The break and the ranges once sbrk has returned memory for a request of `n` units. */
  function Extended(m: Mark, gap: nat, n: nat): Mark {
    var lo, more := m.top + gap, MoreUnits(n);
    m.(rs := m.rs + [Range(lo, more)], top := lo + more)
  }

  /**
   * What a call does.  malloc hands out units that are unused, asks sbrk if and
   * only if no run of unused units is long enough, and fails if and only if sbrk
   * then has no memory.
   */
  ghost predicate CallStep(m: Mark, c: Call, m': Mark) {
    match c
    case FreeCall(ap) => m' == m.(used := m.used - {ap - 1})
    case MallocCall(nbytes, gap) =>
      var n := Units(nbytes);
      if Room(m.used, m.rs, n) then m' == m.(used := m'.used) && HandedOut(m.used, n, m')
      else if gap.None? then m' == m
      else m' == Extended(m, gap.value, n).(used := m'.used) && HandedOut(m.used, n, m')
  }

  /** `hist` holds the marks before each call and after the last. */
  ghost predicate CallHistory(calls: seq<Call>, hist: seq<Mark>) {
    |hist| == |calls| + 1 && forall i :: 0 <= i < |calls| ==> CallStep(hist[i], calls[i], hist[i + 1])
  }

  lemma HistoryOn(calls: seq<Call>, hist: seq<Mark>, i: nat, m: Mark)
    requires i < |calls| && CallHistory(calls[..i], hist) && CallStep(hist[i], calls[i], m)
    ensures CallHistory(calls[..i + 1], hist + [m])
  {
    forall k | 0 <= k < i + 1 ensures CallStep((hist + [m])[k], calls[..i + 1][k], (hist + [m])[k + 1]) {
      assert k < i ==> CallStep(hist[k], calls[..i][k], hist[k + 1]);
    }
  }

  /** The ranges rise from above `base`, the blocks in use lie in them and do not overlap. */
  ghost predicate Accounts(base: int, m: Mark) {
    && Rising(m.rs, base, m.top)
    && (forall x :: InUse(m.used, x) ==> Obtained(m.rs, x))
    && forall p, q :: p in m.used && q in m.used && p < q ==> p + m.used[p] <= q
  }

  /** What holds of the allocator between the calls of a program. */
  ghost predicate Consistent(a: Allocator, m: Mark)
    reads a
  {
    a.Valid() && a.h.live == m.used && OwnsExactly(a.h.own, m.rs) && Rising(m.rs, a.base, m.top) && a.base < m.top
  }

  lemma ConsistentAccounts(a: Allocator, m: Mark)
    requires Consistent(a, m)
    ensures Accounts(a.base, m)
  {
    if a.freep.Some? {
      forall x | InUse(m.used, x) ensures Obtained(m.rs, x) {
        var p :| p in m.used && p <= x < p + m.used[p];
        InUseOf(a.h);
        PartitionOf(a.h);
        assert Covers(a.h.blk, p, x);
      }
      forall p, q | p in m.used && q in m.used && p < q ensures p + m.used[p] <= q {
        InUseOf(a.h);
        InUseDisjoint(a.h, p, q);
      }
    }
  }

  lemma AllConserved(h: Heap, rs: seq<Range>)
    requires Sound(h) && OwnsExactly(h.own, rs)
    ensures forall x :: Obtained(rs, x) ==> OwnedOnce(h, x)
  {
    forall x | Obtained(rs, x) ensures OwnedOnce(h, x) {
      Conserved(h, x);
    }
  }

  /** A block that has joined those in use was unused before. */
  lemma HandsOut(h: Heap, used: map<int, int>, m': Mark, p: int, n: nat)
    requires Sound(h) && OwnsExactly(h.own, m'.rs) && p !in used && h.live == used[p := n] == m'.used
    ensures HandedOut(used, n, m')
  {
    Parts(h);
    forall x | p <= x < p + n ensures Obtained(m'.rs, x) && !InUse(used, x) {
      assert Covers(h.blk, p, x);
      forall q | q in used ensures !(q <= x < q + used[q]) {
        assert q in h.live && !Covers(h.blk, q, x);
      }
    }
    assert RunAt(used, m'.rs, p, n);
  }

  /** The free list has room exactly when there is a run of unused units. */
  lemma RoomSeen(a: Allocator, m: Mark, n: nat)
    requires Consistent(a, m) && n >= 1
    ensures HasRoom(a.h, n) <==> Room(m.used, m.rs, n)
  {
    if a.freep.Some? {
      RoomIsRun(a.h, m.rs, n);
    } else {
      NothingObtained(m.rs);
      forall q ensures !RunAt(m.used, m.rs, q, n) {
        assert !Obtained(m.rs, q);
      }
    }
  }

  /** A call of malloc. */
  method CallMalloc(a: Allocator, nbytes: nat, gap: Option<nat>, m: Mark) returns (m': Mark)
    requires Consistent(a, m) && CanAsk(MallocCall(nbytes, gap))
    modifies a
    ensures Consistent(a, m') && CallStep(m, MallocCall(nbytes, gap), m')
  {
    var n := Units(nbytes);
    var brk := if gap.Some? then Some(m.top + gap.value) else None;
    RequestFits(n);
    BelowTop(a.h.own, m.rs, a.base, m.top);
    RoomSeen(a, m, n);
    ghost var own := a.h.own;
    var ap, grew := a.Malloc(nbytes, brk);
    if grew {
      m' := Extended(m, gap.value, n);
      OneMoreRange(own, a.h.own, m.rs, Range(brk.value, MoreUnits(n)), a.base, m.top);
    } else {
      m' := m;
      SameRanges(own, a.h.own, m.rs);
    }
    if ap.Some? {
      m' := m'.(used := m.used[ap.value - 1 := n]);
      HandsOut(a.h, m.used, m', ap.value - 1, n);
    }
  }

  /**
   * Any sequence of malloc and free.  `hist` says what each call has done; the
   * units owned at the end are exactly those that sbrk has returned, and each of
   * them is in one block, which is either free or in use.  Only a block that is in
   * use is freed.
   */
  method Program(base: int, calls: seq<Call>) returns (a: Allocator, ghost hist: seq<Mark>)
    requires forall i :: 0 <= i < |calls| ==> CanAsk(calls[i])
    ensures fresh(a) && a.Valid()
    ensures CallHistory(calls, hist) && hist[0] == Mark(map[], [], base + 1)
    ensures forall i :: 0 <= i < |hist| ==> Accounts(base, hist[i])
    ensures a.h.live == hist[|calls|].used
    ensures OwnsExactly(a.h.own, hist[|calls|].rs) && |a.h.own| == Total(hist[|calls|].rs)
    ensures forall x :: Obtained(hist[|calls|].rs, x) ==> OwnedOnce(a.h, x)
  {
    a := new Allocator(base);
    var m := Mark(map[], [], base + 1);
    hist := [m];
    ConsistentAccounts(a, m);
    for i := 0 to |calls|
      invariant Consistent(a, m) && a.base == base && fresh(a)
      invariant CallHistory(calls[..i], hist) && hist[0] == Mark(map[], [], base + 1) && hist[i] == m
      invariant forall k :: 0 <= k < |hist| ==> Accounts(base, hist[k])
    {
      ghost var was := m;
      match calls[i] {
        case MallocCall(nbytes, gap) =>
          m := CallMalloc(a, nbytes, gap, m);
        case FreeCall(ap) =>
          if ap - 1 in m.used {
            ghost var own := a.h.own;
            a.Free(ap);
            SameRanges(own, a.h.own, m.rs);
            m := m.(used := m.used - {ap - 1});
          }
          assert m.used == was.used - {ap - 1};
      }
      HistoryOn(calls, hist, i, m);
      ConsistentAccounts(a, m);
      hist := hist + [m];
    }
    assert calls[..|calls|] == calls;
    TotalOwned(a.h.own, m.rs, base, m.top);
    if a.freep.Some? {
      AllConserved(a.h, m.rs);
    } else {
      NothingObtained(m.rs);
    }
  }
}
