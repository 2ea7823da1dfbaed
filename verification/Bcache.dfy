/**
 * The buffer cache of kernel/bio.c: a fixed set of buffers on a doubly linked
 * list in order of use, the head of the list being the buffer number `n`.
 *
 * `View` is the plain block map that the cache stands for: the cached data of
 * a block if a valid buffer holds it, the disk's otherwise.  Ghost counters
 * split every reference count into users (callers between bget and brelse)
 * and pins (the log's references).  `Tidy` says that no unreferenced buffer
 * holds data the disk does not hold, which is what makes recycling harmless;
 * brelse and bunpin keep it exactly when they do not drop the last reference
 * to a modified buffer.  LogDevice discharges that condition.
 */
module Bcache {
  import opened Wrappers
  import RedoLog

  datatype Key = Key(dev: nat, blockno: nat)

  type Block = RedoLog.Block

  datatype Buf = Buf(key: Key, valid: bool, refcnt: int, data: Block)

  /** The buffers, the disk, and who references each buffer. */
  datatype State = State(bufs: seq<Buf>, disk: map<Key, Block>, users: seq<nat>, pins: seq<nat>)

  // ---- The list ----

  /** Consecutive elements of `r` are linked both ways. */
  ghost predicate Linked(r: seq<int>, next: seq<int>, prev: seq<int>) {
    && |next| == |prev|
    && (forall i :: 0 <= i < |r| ==> 0 <= r[i] < |next|)
    && (forall i :: 0 <= i < |r| - 1 ==> next[r[i]] == r[i + 1] && prev[r[i + 1]] == r[i])
  }

  /** The list through `head` visits `order`, each element once, and comes back to `head`. */
  ghost predicate Ring(head: int, order: seq<int>, next: seq<int>, prev: seq<int>) {
    && head !in order && Distinct(order)
    && Linked([head] + order + [head], next, prev)
  }

  /** Linking `b` in right after the head. */
  lemma InsertFront(head: int, order: seq<int>, b: int, next: seq<int>, prev: seq<int>)
    requires Ring(head, order, next, prev) && 0 <= b < |next| && b != head && b !in order
    ensures 0 <= head < |next|
    ensures var first := next[head];
            && 0 <= first < |next|
            && Ring(head, [b] + order, next[b := first][head := b], prev[b := head][first := b])
  {
    var r := [head] + order + [head];
    assert r[0] == head && r[1] == next[head];
    var first := next[head];
    var next', prev' := next[b := first][head := b], prev[b := head][first := b];
    var r' := [head] + ([b] + order) + [head];
    assert forall i :: 2 <= i < |r'| ==> r'[i] == r[i - 1];
    forall i | 0 <= i < |r'| - 1 ensures next'[r'[i]] == r'[i + 1] && prev'[r'[i + 1]] == r'[i] {
      if i >= 2 {
        assert r[i - 1] == order[i - 2];
        assert next[r[i - 1]] == r[i] && prev[r[i]] == r[i - 1];
        if i < |r| - 1 {
          assert r[i] == order[i - 1] != order[0] == first;
        } else {
          assert r[i] == head;
        }
      }
    }
  }

  /** Taking `order[k]` out of the list. */
  lemma Unlink(head: int, order: seq<int>, k: nat, next: seq<int>, prev: seq<int>)
    requires Ring(head, order, next, prev) && k < |order|
    ensures var b := order[k];
            && 0 <= b < |next| && 0 <= next[b] < |next| && 0 <= prev[b] < |next|
            && Ring(head, order[..k] + order[k + 1..], next[prev[b] := next[b]], prev[next[b] := prev[b]])
  {
    var r := [head] + order + [head];
    var b := order[k];
    assert r[k + 1] == b;
    assert next[b] == r[k + 2] && prev[b] == r[k];
    var rest := order[..k] + order[k + 1..];
    var next', prev' := next[prev[b] := next[b]], prev[next[b] := prev[b]];
    var r' := [head] + rest + [head];
    assert forall i :: 0 <= i < |r'| ==> r'[i] == r[if i <= k then i else i + 1];
    forall i | 0 <= i < |r'| - 1 ensures next'[r'[i]] == r'[i + 1] && prev'[r'[i + 1]] == r'[i] {
      if i < k {
        assert next[r[i]] == r[i + 1] && prev[r[i + 1]] == r[i];
      } else if i > k {
        assert next[r[i + 1]] == r[i + 2] && prev[r[i + 2]] == r[i + 1];
      }
    }
  }

  // ---- The block map ----

  predicate Holds(bufs: seq<Buf>, i: int, k: Key) {
    0 <= i < |bufs| && bufs[i].valid && bufs[i].key == k
  }

  /** The first buffer from `i` on that holds block `k`, or the number of buffers. */
  function Locate(bufs: seq<Buf>, k: Key, i: nat): (r: nat)
    requires i <= |bufs|
    ensures i <= r <= |bufs|
    ensures r < |bufs| ==> Holds(bufs, r, k)
    ensures forall j :: i <= j < r ==> !Holds(bufs, j, k)
    decreases |bufs| - i
  {
    if i == |bufs| || Holds(bufs, i, k) then i else Locate(bufs, k, i + 1)
  }

  /** The contents of block `k` as the rest of the kernel sees it. */
  function ViewAt(bufs: seq<Buf>, disk: map<Key, Block>, k: Key): Block
    requires k in disk
  {
    var i := Locate(bufs, k, 0);
    if i < |bufs| then bufs[i].data else disk[k]
  }

  ghost function View(bufs: seq<Buf>, disk: map<Key, Block>): map<Key, Block> {
    map k | k in disk :: ViewAt(bufs, disk, k)
  }

  /** No block of a real device has two buffers.  (All buffers start with key (0, 0).) */
  ghost predicate Unique(bufs: seq<Buf>) {
    forall i, j :: 0 <= i < j < |bufs| && bufs[i].key == bufs[j].key ==> bufs[i].key.dev == 0
  }

  ghost predicate RealKeys(bufs: seq<Buf>, disk: map<Key, Block>) {
    && (forall k :: k in disk ==> k.dev >= 1)
    && (forall i :: 0 <= i < |bufs| && bufs[i].valid ==> bufs[i].key in disk)
  }

  /** An unused buffer holds what the disk holds. */
  ghost predicate UnusedAreClean(bufs: seq<Buf>, disk: map<Key, Block>) {
    forall i :: 0 <= i < |bufs| && bufs[i].refcnt == 0 && bufs[i].valid && bufs[i].key in disk ==>
      bufs[i].data == disk[bufs[i].key]
  }

  lemma ViewOfBuffer(bufs: seq<Buf>, disk: map<Key, Block>, i: int, k: Key)
    requires Unique(bufs) && RealKeys(bufs, disk) && Holds(bufs, i, k)
    ensures k in disk && ViewAt(bufs, disk, k) == bufs[i].data
  {
    var j := Locate(bufs, k, 0);
    assert j <= i;
    assert bufs[i].key == bufs[j].key;
  }

  lemma DifferentKeys(bufs: seq<Buf>, disk: map<Key, Block>, i: nat, j: nat)
    requires Unique(bufs) && RealKeys(bufs, disk) && i < |bufs| && j < |bufs| && i != j
    requires bufs[i].valid && bufs[j].valid
    ensures bufs[i].key != bufs[j].key
  {
  }

  lemma ViewOfDisk(bufs: seq<Buf>, disk: map<Key, Block>, k: Key)
    requires k in disk && forall i :: 0 <= i < |bufs| ==> !Holds(bufs, i, k)
    ensures ViewAt(bufs, disk, k) == disk[k]
  {
  }

  /** The view does not change when every buffer keeps its block and data. */
  lemma SameView(bufs: seq<Buf>, bufs': seq<Buf>, disk: map<Key, Block>)
    requires |bufs| == |bufs'| && Unique(bufs) && Unique(bufs') && RealKeys(bufs, disk) && RealKeys(bufs', disk)
    requires forall i :: 0 <= i < |bufs| ==>
               bufs'[i].key == bufs[i].key && bufs'[i].valid == bufs[i].valid && bufs'[i].data == bufs[i].data
    ensures View(bufs', disk) == View(bufs, disk)
  {
    forall k | k in disk ensures ViewAt(bufs', disk, k) == ViewAt(bufs, disk, k) {
      var i := Locate(bufs, k, 0);
      if i < |bufs| {
        assert Holds(bufs', i, k);
        ViewOfBuffer(bufs', disk, i, k);
      } else {
        forall m | 0 <= m < |bufs'| ensures !Holds(bufs', m, k) {
          assert !Holds(bufs, m, k);
        }
        ViewOfDisk(bufs', disk, k);
      }
    }
  }

  /** Giving an unused buffer to another block does not change the view: its old contents are on disk. */
  lemma RecycleKeepsView(bufs: seq<Buf>, disk: map<Key, Block>, i: nat, k: Key)
    requires Unique(bufs) && RealKeys(bufs, disk) && UnusedAreClean(bufs, disk)
    requires i < |bufs| && bufs[i].refcnt == 0 && k in disk
    requires forall j :: 0 <= j < |bufs| ==> bufs[j].key != k
    ensures var bufs' := bufs[i := bufs[i].(key := k, valid := false, refcnt := 1)];
            && Unique(bufs') && RealKeys(bufs', disk) && UnusedAreClean(bufs', disk)
            && View(bufs', disk) == View(bufs, disk)
  {
    var bufs' := bufs[i := bufs[i].(key := k, valid := false, refcnt := 1)];
    assert Unique(bufs') && RealKeys(bufs', disk);
    forall q | q in disk ensures ViewAt(bufs', disk, q) == ViewAt(bufs, disk, q) {
      var j := Locate(bufs, q, 0);
      if j < |bufs| && j != i {
        assert Holds(bufs', j, q);
        ViewOfBuffer(bufs', disk, j, q);
      } else {
        forall m | 0 <= m < |bufs'| ensures !Holds(bufs', m, q) {
          assert Holds(bufs', m, q) ==> m != i && Holds(bufs, m, q);
          assert j == |bufs| ==> !Holds(bufs, m, q);
          assert m != i && bufs[m].key == bufs[i].key ==> bufs[i].key.dev == 0;
        }
        ViewOfDisk(bufs', disk, q);
      }
    }
  }

  /** Changing one buffer does not affect the blocks it does not hold. */
  lemma OtherBlock(bufs: seq<Buf>, bufs': seq<Buf>, disk: map<Key, Block>, i: nat, q: Key)
    requires Unique(bufs') && RealKeys(bufs', disk) && i < |bufs| && q in disk
    requires |bufs'| == |bufs| && bufs'[i].key == bufs[i].key != q
    requires forall j :: 0 <= j < |bufs| && j != i ==> bufs'[j] == bufs[j]
    ensures ViewAt(bufs', disk, q) == ViewAt(bufs, disk, q)
  {
    var j := Locate(bufs, q, 0);
    if j < |bufs| {
      assert Holds(bufs', j, q);
      ViewOfBuffer(bufs', disk, j, q);
    } else {
      forall m | 0 <= m < |bufs'| ensures !Holds(bufs', m, q) {
        assert !Holds(bufs, m, q);
      }
      ViewOfDisk(bufs', disk, q);
    }
  }

  /** Reading a block into its buffer does not change the view. */
  lemma FillKeepsView(bufs: seq<Buf>, disk: map<Key, Block>, i: nat)
    requires Unique(bufs) && RealKeys(bufs, disk) && i < |bufs| && !bufs[i].valid && bufs[i].key in disk
    ensures var bufs' := bufs[i := bufs[i].(valid := true, data := disk[bufs[i].key])];
            && Unique(bufs') && RealKeys(bufs', disk)
            && View(bufs', disk) == View(bufs, disk)
  {
    var k := bufs[i].key;
    var bufs' := bufs[i := bufs[i].(valid := true, data := disk[k])];
    assert Unique(bufs') && RealKeys(bufs', disk);
    forall q | q in disk ensures ViewAt(bufs', disk, q) == ViewAt(bufs, disk, q) {
      if q == k {
        assert Holds(bufs', i, k);
        ViewOfBuffer(bufs', disk, i, k);
        forall m | 0 <= m < |bufs| ensures !Holds(bufs, m, k) {
          assert m != i && bufs[m].key == bufs[i].key ==> k.dev == 0;
        }
        ViewOfDisk(bufs, disk, k);
      } else {
        OtherBlock(bufs, bufs', disk, i, q);
      }
    }
  }

  /** Changing the data of a buffer changes exactly that block of the view. */
  lemma ModifyChangesView(bufs: seq<Buf>, disk: map<Key, Block>, i: nat, x: Block)
    requires Unique(bufs) && RealKeys(bufs, disk) && i < |bufs| && bufs[i].valid
    ensures var bufs' := bufs[i := bufs[i].(data := x)];
            && Unique(bufs') && RealKeys(bufs', disk)
            && View(bufs', disk) == View(bufs, disk)[bufs[i].key := x]
  {
    var k := bufs[i].key;
    var bufs' := bufs[i := bufs[i].(data := x)];
    assert Unique(bufs') && RealKeys(bufs', disk);
    forall q | q in disk ensures ViewAt(bufs', disk, q) == if q == k then x else ViewAt(bufs, disk, q) {
      if q == k {
        assert Holds(bufs', i, k);
        ViewOfBuffer(bufs', disk, i, k);
      } else {
        OtherBlock(bufs, bufs', disk, i, q);
      }
    }
  }

  /** Writing a buffer to disk does not change the view. */
  lemma WriteKeepsView(bufs: seq<Buf>, disk: map<Key, Block>, i: nat)
    requires Unique(bufs) && RealKeys(bufs, disk) && i < |bufs| && bufs[i].valid
    ensures var disk' := disk[bufs[i].key := bufs[i].data];
            RealKeys(bufs, disk') && View(bufs, disk') == View(bufs, disk)
  {
    var k := bufs[i].key;
    var disk' := disk[k := bufs[i].data];
    forall q | q in disk' ensures q in disk && ViewAt(bufs, disk', q) == ViewAt(bufs, disk, q) {
      var j := Locate(bufs, q, 0);
      if j == |bufs| {
        assert !Holds(bufs, i, q);
      }
    }
  }

  // ---- The state of the cache ----

  ghost predicate Consistent(c: State) {
    && Unique(c.bufs) && RealKeys(c.bufs, c.disk)
    && |c.users| == |c.pins| == |c.bufs|
    && (forall i :: 0 <= i < |c.bufs| ==> c.bufs[i].refcnt == c.users[i] + c.pins[i])
  }

  ghost predicate Tidy(c: State) {
    UnusedAreClean(c.bufs, c.disk)
  }

  /** Buffer `i` may be given to another block without losing data. */
  ghost predicate Clean(c: State, i: nat)
    requires Consistent(c) && i < |c.bufs|
  {
    !c.bufs[i].valid || c.bufs[i].data == c.disk[c.bufs[i].key]
  }

  function Counted(b: Buf, d: int): Buf {
    b.(refcnt := b.refcnt + d)
  }

  /** `bget` finds a buffer for block `k`. */
  ghost predicate Available(c: State, k: Key) {
    exists q :: 0 <= q < |c.bufs| && (c.bufs[q].refcnt == 0 || c.bufs[q].key == k)
  }

  /** Buffer `i` is the least recently used of the unreferenced ones. */
  ghost predicate LeastRecent(order: seq<int>, bufs: seq<Buf>, i: int) {
    exists p :: 0 <= p < |order| && order[p] == i && NoneUnusedFrom(order, bufs, p + 1)
  }

  ghost predicate NoneUnusedFrom(order: seq<int>, bufs: seq<Buf>, p: int) {
    forall q :: p <= q < |order| && 0 <= q && 0 <= order[q] < |bufs| ==> bufs[order[q]].refcnt != 0
  }

  ghost predicate NotHeldBefore(order: seq<int>, bufs: seq<Buf>, k: Key, p: int) {
    forall q :: 0 <= q < p && q < |order| && 0 <= order[q] < |bufs| ==> bufs[order[q]].key != k
  }

  /** Buffer `i` has been given to a new user of block `k`, but not loaded. */
  ghost predicate Handed(c: State, d: State, i: int, k: Key)
    requires Consistent(c)
  {
    && 0 <= i < |c.bufs| == |d.bufs|
    && d.disk == c.disk && d.pins == c.pins && d.users == c.users[i := c.users[i] + 1]
    && d.bufs == c.bufs[i := if c.bufs[i].key == k then Counted(c.bufs[i], 1)
                             else c.bufs[i].(key := k, valid := false, refcnt := 1)]
    && (c.bufs[i].key == k || c.bufs[i].refcnt == 0)
  }

  /** Buffer `i` has been handed to a new user, holding block `k`. */
  ghost predicate Got(c: State, d: State, i: int, k: Key)
    requires Consistent(c) && k in c.disk
  {
    && 0 <= i < |c.bufs| == |d.bufs|
    && d.disk == c.disk && d.pins == c.pins && d.users == c.users[i := c.users[i] + 1]
    && (forall q :: 0 <= q < |c.bufs| && q != i ==> d.bufs[q] == c.bufs[q])
    && d.bufs[i] == Buf(k, true, c.bufs[i].refcnt + 1,
                        if Holds(c.bufs, i, k) then c.bufs[i].data else c.disk[k])
    // Only an unreferenced buffer is taken away from its block.
    && (c.bufs[i].key == k || c.bufs[i].refcnt == 0)
  }

  function Modified(c: State, i: nat, x: Block): State
    requires i < |c.bufs|
  {
    c.(bufs := c.bufs[i := c.bufs[i].(data := x)])
  }

  function Written(c: State, i: nat): State
    requires i < |c.bufs|
  {
    c.(disk := c.disk[c.bufs[i].key := c.bufs[i].data])
  }

  function Pinned(c: State, i: nat): State
    requires i < |c.bufs| && i < |c.pins|
  {
    c.(bufs := c.bufs[i := Counted(c.bufs[i], 1)], pins := c.pins[i := c.pins[i] + 1])
  }

  function Unpinned(c: State, i: nat): State
    requires i < |c.bufs| && i < |c.pins| && c.pins[i] > 0
  {
    c.(bufs := c.bufs[i := Counted(c.bufs[i], -1)], pins := c.pins[i := c.pins[i] - 1])
  }

  function Released(c: State, i: nat): State
    requires i < |c.bufs| && i < |c.users| && c.users[i] > 0
  {
    c.(bufs := c.bufs[i := Counted(c.bufs[i], -1)], users := c.users[i := c.users[i] - 1])
  }

  /** A reference that goes away leaves the cache tidy exactly when it was not the last, or the buffer is clean. */
  lemma DropReference(c: State, d: State, i: nat)
    requires Consistent(c) && Tidy(c) && i < |c.bufs|
    requires Consistent(d) && d.disk == c.disk && d.bufs == c.bufs[i := Counted(c.bufs[i], -1)]
    ensures Tidy(d) <==> d.bufs[i].refcnt > 0 || Clean(c, i)
    ensures View(d.bufs, d.disk) == View(c.bufs, c.disk)
  {
    SameView(c.bufs, d.bufs, c.disk);
    assert d.bufs[i].refcnt >= 0;
  }

  // ---- The cache ----

  function Remove(order: seq<int>, k: nat): seq<int>
    requires k < |order|
  {
    order[..k] + order[k + 1..]
  }

  lemma Reordered(order: seq<int>, k: nat, n: nat)
    requires k < |order|
    requires forall j :: 0 <= j < |order| ==> 0 <= order[j] < n
    requires forall b :: 0 <= b < n ==> b in order
    ensures var order' := [order[k]] + Remove(order, k);
            && |order'| == |order|
            && (forall j :: 0 <= j < |order'| ==> 0 <= order'[j] < n)
            && (forall b :: 0 <= b < n ==> b in order')
  {
    var order' := [order[k]] + Remove(order, k);
    forall b | 0 <= b < n ensures b in order' {
      assert b in order;
      var j :| 0 <= j < |order| && order[j] == b;
      assert j < k ==> order'[j + 1] == b;
      assert j > k ==> order'[j] == b;
      assert j == k ==> order'[0] == b;
    }
  }

  ghost predicate Shown(order: seq<int>) { true }

  /**
   * The list visits each of `n` buffers exactly once.  It is stated of the lists
   * that are Shown, so that only the proofs about the list see it.
   */
  ghost predicate Listed(order: seq<int>, next: seq<int>, prev: seq<int>, n: nat) {
    forall o {:trigger Shown(o)} :: o == order && Shown(o) ==>
      && |o| == n && Ring(n, o, next, prev)
      && (forall j :: 0 <= j < |o| ==> 0 <= o[j] < n)
      && (forall b :: 0 <= b < n ==> b in o)
  }

  /** The i-th buffer of the list, the head standing at both ends. */
  function Place(order: seq<int>, n: nat, i: int): int {
    if 0 <= i < |order| then order[i] else n
  }

  /** Following the links from the i-th place of the list. */
  lemma Walk(order: seq<int>, next: seq<int>, prev: seq<int>, n: nat, i: int)
    requires Listed(order, next, prev, n) && |next| == |prev| == n + 1 && -1 <= i <= n
    ensures |order| == n && 0 <= Place(order, n, i) <= n
    ensures 0 <= i < n ==> Place(order, n, i) < n
    ensures i < n ==> next[Place(order, n, i)] == Place(order, n, i + 1)
    ensures 0 <= i ==> prev[Place(order, n, i)] == Place(order, n, i - 1)
  {
    assert Shown(order);
    var r := [n] + order + [n];
    assert r[i + 1] == Place(order, n, i);
    assert i < n ==> r[i + 2] == Place(order, n, i + 1);
    assert 0 <= i ==> r[i] == Place(order, n, i - 1);
    if i < n {
      assert next[r[i + 1]] == r[i + 2];
    }
    if 0 <= i {
      assert prev[r[i + 1]] == r[i];
    }
  }

  lemma InList(order: seq<int>, next: seq<int>, prev: seq<int>, n: nat, q: int) returns (j: nat)
    requires Listed(order, next, prev, n) && 0 <= q < n
    ensures j < |order| && order[j] == q
  {
    assert Shown(order);
    assert q in order;
    j :| 0 <= j < |order| && order[j] == q;
  }

  class Cache {
    const buf: array<Buf>
    const next: array<int>   // links; the head of the list is number buf.Length
    const prev: array<int>
    var disk: map<Key, Block>
    ghost var order: seq<int>     // most recently used first
    ghost var users: seq<nat>
    ghost var pins: seq<nat>

    /** The list visits every buffer exactly once. */
    ghost predicate ListOk()
      reads this, next, prev
    {
      && next != prev
      && next.Length == prev.Length == buf.Length + 1
      && Listed(order, next[..], prev[..], buf.Length)
    }

    ghost function S(): State
      reads this, buf
    {
      State(buf[..], disk, users, pins)
    }

    ghost predicate Valid()
      reads this, buf, next, prev
    {
      ListOk() && Consistent(S())
    }

    /** The plain block map that the cache stands for. */
    ghost function Blocks(): map<Key, Block>
      reads this, buf
    {
      View(buf[..], disk)
    }

    /** Link buffer `b` in at the front of the list. */
    method LinkFront(b: int)
      requires next != prev && next.Length == prev.Length == buf.Length + 1
      requires Ring(buf.Length, order, next[..], prev[..]) && 0 <= b < buf.Length && b !in order
      modifies this`order, next, prev
      ensures order == [b] + old(order)
      ensures Ring(buf.Length, order, next[..], prev[..])
    {
      var head := buf.Length;
      InsertFront(head, order, b, next[..], prev[..]);
      next[b] := next[head];
      prev[b] := head;
      prev[next[head]] := b;
      next[head] := b;
      order := [b] + order;
    }

    /** The cache before `binit`: `n` zeroed buffers and an unlinked head. */
    constructor (n: nat, disk: map<Key, Block>)
      requires forall k :: k in disk ==> k.dev >= 1
      ensures fresh(buf) && fresh(next) && fresh(prev) && next != prev
      ensures buf.Length == n && next.Length == prev.Length == n + 1
      ensures Consistent(S()) && Tidy(S()) && this.disk == disk && Blocks() == disk && order == []
      ensures users == seq(n, _ => 0) && pins == seq(n, _ => 0) && forall i :: 0 <= i < n ==> !buf[i].valid
    {
      buf := new Buf[n](_ => Buf(Key(0, 0), false, 0, seq(RedoLog.WORDS, _ => 0)));
      next := new int[n + 1](_ => n);
      prev := new int[n + 1](_ => n);
      this.disk := disk;
      order := [];
      users := seq(n, _ => 0);
      pins := seq(n, _ => 0);
      new;
      forall k | k in disk ensures ViewAt(buf[..], disk, k) == disk[k] {
        ViewOfDisk(buf[..], disk, k);
      }
    }

    /** `binit`: put every buffer on the list. */
    method Binit()
      requires next != prev && next.Length == prev.Length == buf.Length + 1 && Consistent(S())
      modifies this`order, next, prev
      ensures Valid()
      ensures forall j :: 0 <= j < |order| ==> order[j] == |order| - 1 - j
    {
      var n := buf.Length;
      prev[n] := n;
      next[n] := n;
      order := [];
      var b := 0;
      while b < n
        invariant 0 <= b <= n
        invariant |order| == b && Ring(n, order, next[..], prev[..])
        invariant forall j :: 0 <= j < b ==> order[j] == b - 1 - j
      {
        LinkFront(b);
        b := b + 1;
      }
      forall q | 0 <= q < n ensures q in order {
        assert order[n - 1 - q] == q;
      }
    }

    /** The first loop of `bget`: the buffer that belongs to block `k`, if any. */
    method Search(k: Key) returns (found: Option<int>)
      requires Valid()
      ensures found.Some? ==> 0 <= found.value < buf.Length && buf[found.value].key == k
      ensures found.None? ==> forall i :: 0 <= i < buf.Length ==> buf[i].key != k
    {
      var head := buf.Length;
      Walk(order, next[..], prev[..], head, -1);
      var b := next[head];
      ghost var i := 0;
      while b != head
        invariant 0 <= i <= |order| == head && b == Place(order, head, i)
        invariant NotHeldBefore(order, buf[..], k, i)
        decreases |order| - i
      {
        Walk(order, next[..], prev[..], head, i);
        if buf[b].key == k {
          return Some(b);
        }
        b := next[b];
        i := i + 1;
      }
      Walk(order, next[..], prev[..], head, i);
      forall q | 0 <= q < buf.Length ensures buf[q].key != k {
        var j := InList(order, next[..], prev[..], head, q);
      }
      found := None;
    }

    /** The second loop of `bget`: the least recently used buffer that nobody references. */
    method FindUnused() returns (found: Option<int>)
      requires ListOk()
      ensures found.Some? ==>
                && 0 <= found.value < buf.Length && buf[found.value].refcnt == 0
                && LeastRecent(order, buf[..], found.value)
      ensures found.None? ==> forall q :: 0 <= q < buf.Length ==> buf[q].refcnt != 0
    {
      var head := buf.Length;
      Walk(order, next[..], prev[..], head, head);
      ghost var i := head;
      var b := prev[head];
      while b != head
        invariant 0 <= i <= |order| == head && b == Place(order, head, i - 1)
        invariant NoneUnusedFrom(order, buf[..], i)
        decreases i
      {
        Walk(order, next[..], prev[..], head, i - 1);
        if buf[b].refcnt == 0 {
          return Some(b);
        }
        b := prev[b];
        i := i - 1;
      }
      Walk(order, next[..], prev[..], head, i - 1);
      forall q | 0 <= q < buf.Length ensures buf[q].refcnt != 0 {
        var j := InList(order, next[..], prev[..], head, q);
      }
      found := None;
    }

    /** A new user of buffer `i`, which already belongs to the block. */
    method Reference(i: int)
      requires Valid() && 0 <= i < buf.Length
      modifies buf, this`users
      ensures Valid() && Blocks() == old(Blocks()) && (Tidy(old(S())) ==> Tidy(S()))
      ensures Handed(old(S()), S(), i, old(buf[i].key))
    {
      ghost var before := buf[..];
      buf[i] := Counted(buf[i], 1);
      users := users[i := users[i] + 1];
      SameView(before, buf[..], disk);
    }

    /** Give the unused buffer `i` to block `k`. */
    method Recycle(i: int, k: Key)
      requires Valid() && 0 <= i < buf.Length && buf[i].refcnt == 0 && k in disk
      requires forall j :: 0 <= j < buf.Length ==> buf[j].key != k
      modifies buf, this`users
      ensures Valid() && (Tidy(old(S())) ==> Tidy(S()) && Blocks() == old(Blocks()))
      ensures Handed(old(S()), S(), i, k)
    {
      if Tidy(S()) {
        RecycleKeepsView(buf[..], disk, i, k);
      }
      buf[i] := buf[i].(key := k, valid := false, refcnt := 1);
      users := users[i := 1];
    }

    /**
     * `bget`: the buffer of block `k`, cached or recycled; None when it panics
     * because every buffer is referenced.
     */
    method Bget(k: Key) returns (b: Option<int>)
      requires Valid() && k in disk
      modifies buf, this`users
      ensures Valid() && (Tidy(old(S())) ==> Tidy(S()) && Blocks() == old(Blocks()))
      ensures b.Some? <==> Available(old(S()), k)
      ensures b.None? ==> S() == old(S())
      ensures b.Some? ==> Handed(old(S()), S(), b.value, k)
      ensures b.Some? && old(buf[b.value]).key != k ==> LeastRecent(order, old(buf[..]), b.value)
    {
      b := Search(k);
      if b.Some? {
        assert Available(S(), k) by {
          assert S().bufs[b.value].key == k;
        }
        Reference(b.value);
        return;
      }
      b := FindUnused();
      if b.Some? {
        assert Available(S(), k) by {
          assert S().bufs[b.value].refcnt == 0;
        }
        Recycle(b.value, k);
      }
    }

    /** Read the block of buffer `i` from the disk unless that has been done. */
    method Load(i: int)
      requires Valid() && 0 <= i < buf.Length && buf[i].key in disk
      modifies buf
      ensures Valid() && Blocks() == old(Blocks()) && (Tidy(old(S())) ==> Tidy(S()))
      ensures old(buf[i].valid) ==> S() == old(S())
      ensures !old(buf[i].valid) ==>
                buf[..] == old(buf[..])[i := old(buf[i]).(valid := true, data := disk[old(buf[i].key)])]
    {
      if !buf[i].valid {
        FillKeepsView(buf[..], disk, i);
        buf[i] := buf[i].(valid := true, data := disk[buf[i].key]);
      }
    }

    /** `bread`: the buffer of block `k`, holding the block's current contents. */
    method Bread(k: Key) returns (b: Option<int>)
      requires Valid() && k in disk
      modifies buf, this`users
      ensures Valid() && (Tidy(old(S())) ==> Tidy(S()) && Blocks() == old(Blocks()))
      ensures b.Some? <==> Available(old(S()), k)
      ensures b.None? ==> S() == old(S())
      ensures b.Some? ==> Got(old(S()), S(), b.value, k) && buf[b.value].data == Blocks()[k]
    {
      b := Bget(k);
      if b.Some? {
        var i := b.value;
        Load(i);
        ViewOfBuffer(buf[..], disk, i, k);
      }
    }

    /** The holder of a buffer changes its data. */
    method Modify(i: int, x: Block)
      requires Valid() && 0 <= i < buf.Length && users[i] > 0 && buf[i].valid
      modifies buf
      ensures Valid() && Blocks() == old(Blocks())[buf[i].key := x] && (Tidy(old(S())) ==> Tidy(S()))
      ensures S() == Modified(old(S()), i, x)
    {
      ModifyChangesView(buf[..], disk, i, x);
      buf[i] := buf[i].(data := x);
    }

    /** `bwrite`. */
    method Bwrite(i: int)
      requires Valid() && 0 <= i < buf.Length && users[i] > 0 && buf[i].valid
      modifies this`disk
      ensures Valid() && Blocks() == old(Blocks()) && (Tidy(old(S())) ==> Tidy(S()))
      ensures S() == Written(old(S()), i)
    {
      WriteKeepsView(buf[..], disk, i);
      ghost var before := disk;
      disk := disk[buf[i].key := buf[i].data];
      forall j | 0 <= j < buf.Length && buf[..][j].refcnt == 0 && buf[..][j].valid && buf[..][j].key in disk
        ensures buf[..][j].key != buf[i].key
      {
        DifferentKeys(buf[..], before, i, j);
      }
    }

    /** `bpin`: the log keeps the block in the cache. */
    method Bpin(i: int)
      requires Valid() && 0 <= i < buf.Length
      modifies buf, this`pins
      ensures Valid() && Blocks() == old(Blocks()) && (Tidy(old(S())) ==> Tidy(S()))
      ensures S() == Pinned(old(S()), i)
    {
      ghost var before := buf[..];
      buf[i] := Counted(buf[i], 1);
      pins := pins[i := pins[i] + 1];
      SameView(before, buf[..], disk);
    }

    /** `bunpin`: the log no longer needs the block. */
    method Bunpin(i: int)
      requires Valid() && 0 <= i < buf.Length && pins[i] > 0
      modifies buf, this`pins
      ensures Valid() && Blocks() == old(Blocks())
      ensures S() == Unpinned(old(S()), i)
      ensures Tidy(old(S())) ==> (Tidy(S()) <==> buf[i].refcnt > 0 || Clean(old(S()), i))
    {
      ghost var before := S();
      buf[i] := Counted(buf[i], -1);
      pins := pins[i := pins[i] - 1];
      SameView(before.bufs, buf[..], disk);
      if Tidy(before) {
        DropReference(before, S(), i);
      }
    }

    /** Take the buffer at place `k` of the list out of it. */
    method UnlinkAt(i: int, ghost k: nat)
      requires ListOk() && k < |order| && order[k] == i
      modifies this`order, next, prev
      ensures order == Remove(old(order), k)
      ensures Ring(buf.Length, order, next[..], prev[..])
    {
      assert Shown(order);
      Unlink(buf.Length, order, k, next[..], prev[..]);
      prev[next[i]] := prev[i];
      next[prev[i]] := next[i];
      order := Remove(order, k);
    }

    /** Move buffer `i` to the front of the list. */
    method MoveToFront(i: int)
      requires ListOk() && 0 <= i < buf.Length
      modifies this`order, next, prev
      ensures ListOk()
      ensures exists k :: 0 <= k < |old(order)| && old(order)[k] == i && order == [i] + Remove(old(order), k)
    {
      assert Shown(order);
      assert i in order;
      ghost var k :| 0 <= k < |order| && order[k] == i;
      ghost var was := order;
      UnlinkAt(i, k);
      LinkFront(i);
      Reordered(was, k, buf.Length);
    }

    /** One user of buffer `i` fewer. */
    method DropUser(i: int)
      requires Valid() && 0 <= i < buf.Length && users[i] > 0
      modifies buf, this`users
      ensures Valid() && Blocks() == old(Blocks())
      ensures S() == Released(old(S()), i)
      ensures Tidy(old(S())) ==> (Tidy(S()) <==> buf[i].refcnt > 0 || Clean(old(S()), i))
    {
      ghost var before := S();
      buf[i] := Counted(buf[i], -1);
      users := users[i := users[i] - 1];
      SameView(before.bufs, buf[..], disk);
      if Tidy(before) {
        DropReference(before, S(), i);
      }
    }

    /** `brelse`. */
    method Brelse(i: int)
      requires Valid() && 0 <= i < buf.Length && users[i] > 0
      modifies buf, next, prev, this`order, this`users
      ensures Valid() && Blocks() == old(Blocks())
      ensures S() == Released(old(S()), i)
      ensures Tidy(old(S())) ==> (Tidy(S()) <==> buf[i].refcnt > 0 || Clean(old(S()), i))
      // An unreferenced buffer becomes the most recently used one; nothing else moves.
      ensures buf[i].refcnt == 0 ==>
                exists k :: 0 <= k < |old(order)| && old(order)[k] == i && order == [i] + Remove(old(order), k)
      ensures buf[i].refcnt != 0 ==> order == old(order)
    {
      DropUser(i);
      if buf[i].refcnt == 0 {
        MoveToFront(i);
      }
    }
  }
}
