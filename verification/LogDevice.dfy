/**
 * kernel/log.c as the imperative code it is, over the buffer cache of Bcache:
 * the in-memory header, the loops that copy blocks from buffer to buffer, the
 * pins, and the begin/end bookkeeping.  The ghost fields `disk` and `cache`
 * are the disk and what `bread` returns, block by block; `held` are the blocks
 * whose buffers are pinned.  A method that returns ok == false has panicked
 * because `bget` found no buffer.  Each method is tied to the trace functions
 * of RedoLog, about which crash atomicity is proved.
 */
module LogDevice {
  import opened RedoLog
  import opened Wrappers
  import opened LogCache
  import B = Bcache

  /** The cache differs from the disk only in the blocks `ts`. */
  ghost predicate Coherent(d: Disk, cache: seq<Block>, ts: seq<int>)
    requires |cache| == |d.blocks|
  {
    forall b :: 0 <= b < |cache| && b !in ts ==> cache[b] == d.blocks[b]
  }

  lemma CommitSummary(d: Disk, c: seq<Block>, ts: seq<int>)
    requires Ready(d, c, ts) && ts != []
    ensures var e := Committed(d, c, ts);
            && Valid(e) && Valid(Recovered(e)) && Count(Recovered(e)) == 0
            && SameHome(Recovered(e), Disk(d.start, c))
            && CommitTrace(d, c, ts) == (LogTrace(d, c, ts, |ts|) + [e]) + RecoveryTrace(e)
  {
    CommitCompletes(d, c, ts);
  }

  lemma Append3<T>(a: seq<T>, b: seq<T>, c: seq<T>)
    ensures (a + b) + c == a + (b + c)
  {
  }

  lemma {:induction false} LogTraceGrows(d: Disk, c: seq<Block>, ts: seq<int>, k: nat, m: nat)
    requires Layout(d) && |c| == |d.blocks| && k <= m <= |ts| <= LOGBLOCKS && AllHome(d, ts)
    ensures LogTrace(d, c, ts, k) <= LogTrace(d, c, ts, m)
  {
    if k < m {
      LogTraceGrows(d, c, ts, k, m - 1);
    }
  }

  lemma LogTracePrefix(d: Disk, c: seq<Block>, ts: seq<int>, k: nat, t: seq<Disk>)
    requires Layout(d) && |c| == |d.blocks| && k <= |ts| <= LOGBLOCKS && AllHome(d, ts)
    ensures t + LogTrace(d, c, ts, k) <= t + LogTrace(d, c, ts, |ts|)
  {
    LogTraceGrows(d, c, ts, k, |ts|);
  }

  lemma {:induction false} InstallTracePrefix(d: Disk, k: nat, t: seq<Disk>)
    requires Valid(d) && k <= Count(d)
    ensures t + InstallTrace(d, k) <= t + InstallTrace(d, Count(d))
  {
    InstallTraceGrows(d, k, Count(d));
  }

  lemma {:induction false} InstallTraceGrows(d: Disk, k: nat, m: nat)
    requires Valid(d) && k <= m <= Count(d)
    ensures InstallTrace(d, k) <= InstallTrace(d, m)
  {
    if k < m {
      InstallTraceGrows(d, k, m - 1);
    }
  }

  lemma Longer<T>(u: seq<T>, t: seq<T>, a: seq<T>, b: seq<T>)
    requires u <= t + a
    ensures u <= t + (a + b)
  {
    Append3(t, a, b);
  }

  /** `d` and `cache` are what the device and the buffer cache hold. */
  ghost predicate Backed(c: B.State, dev: nat, d: Disk, cache: seq<Block>) {
    forall e {:trigger Opened(e)} :: e == c && Opened(e) ==>
      Tied(e.disk, dev, d.blocks) && Tied(B.View(e.bufs, e.disk), dev, cache)
  }

  /** The cache and the disk agree outside the pinned blocks. */
  lemma PinsAgree(c: B.State, dev: nat, d: Disk, cache: seq<Block>, held: seq<int>, at: seq<int>)
    requires B.Consistent(c) && Backed(c, dev, d, cache) && Guarded(c, dev, held, at) && |cache| == |d.blocks|
    ensures Coherent(d, cache, held)
    ensures held == [] ==> B.View(c.bufs, c.disk) == c.disk && cache == d.blocks && NothingPinned(c)
  {
    assert Opened(c);
    forall b | 0 <= b < |cache| && b !in held ensures cache[b] == d.blocks[b] {
      SettledBlock(c, dev, held, at, b);
    }
    if held == [] {
      assert at == [];
      SettledView(c, dev);
    }
  }

  /** One block changes, on disk and in the cache. */
  lemma BackedWrite(c: B.State, e: B.State, dev: nat, d: Disk, cache: seq<Block>, b: int, x: Block)
    requires Backed(c, dev, d, cache) && 0 <= b < |cache| == |d.blocks|
    requires e.disk == c.disk[B.Key(dev, b) := x]
    requires B.View(e.bufs, e.disk) == B.View(c.bufs, c.disk)[B.Key(dev, b) := x]
    ensures Backed(e, dev, Write(d, b, x), cache[b := x])
  {
    assert Opened(c);
  }

  lemma BackedUpdate(c: B.State, e: B.State, dev: nat, d: Disk, cache: seq<Block>, b: int, x: Block)
    requires Backed(c, dev, d, cache) && 0 <= b < |cache| == |d.blocks| && e.disk == c.disk
    requires B.View(e.bufs, e.disk) == B.View(c.bufs, c.disk)[B.Key(dev, b) := x]
    ensures Backed(e, dev, d, cache[b := x])
  {
    assert Opened(c);
  }

  lemma BackedSame(c: B.State, e: B.State, dev: nat, d: Disk, cache: seq<Block>)
    requires Backed(c, dev, d, cache) && e.disk == c.disk
    requires B.View(e.bufs, e.disk) == B.View(c.bufs, c.disk)
    ensures Backed(e, dev, d, cache)
  {
    assert Opened(c);
  }

  lemma BackedAt(c: B.State, dev: nat, d: Disk, cache: seq<Block>, b: int)
    requires Backed(c, dev, d, cache) && 0 <= b < |cache| == |d.blocks|
    ensures B.Key(dev, b) in c.disk && c.disk[B.Key(dev, b)] == d.blocks[b]
    ensures B.View(c.bufs, c.disk)[B.Key(dev, b)] == cache[b]
  {
    assert Opened(c);
  }

  /** The log block `tail` and the home block `b` are on the device, and the log block is not pinned. */
  lemma SlotReady(c: B.State, dev: nat, d: Disk, cache: seq<Block>, held: seq<int>, tail: int, b: int)
    requires Backed(c, dev, d, cache) && |cache| == |d.blocks| && Layout(d) && 0 <= tail < LOGBLOCKS && IsHome(d, b)
             && AllHome(d, held)
    ensures B.Key(dev, b) in c.disk && B.Key(dev, d.start + tail + 1) in c.disk
            && B.Key(dev, b) != B.Key(dev, d.start + tail + 1)
    ensures c.disk[B.Key(dev, d.start + tail + 1)] == SlotData(d, tail) && d.start + tail + 1 !in held
  {
    BackedAt(c, dev, d, cache, d.start + tail + 1);
    BackedAt(c, dev, d, cache, b);
  }

  lemma InstallNext(d: Disk, e: Disk, k: nat, t: seq<Disk>)
    requires Valid(d) && k < Count(d) && e == Installed(d, k) && SameLog(d, e)
    ensures var f := Write(e, Target(d, k), SlotData(e, k));
            && f == Installed(d, k + 1) && SameLog(d, f)
            && t + InstallTrace(d, k + 1) == t + InstallTrace(d, k) + [f]
  {
    assert IsHome(d, Target(d, k));
  }

  /** memmove from buffer `src` to `dst`, bwrite and maybe bunpin of `dst`, brelse of `first` and `second`. */
  method CopyBuffer(bc: B.Cache, dst: int, src: int, first: int, second: int, unpin: bool)
    requires bc.Valid() && 0 <= dst < bc.buf.Length && 0 <= src < bc.buf.Length && dst != src
    requires {first, second} == {dst, src} && bc.users[dst] > 0 && bc.users[src] > 0
    requires bc.buf[dst].valid && bc.buf[src].valid && (unpin ==> second == dst && bc.pins[dst] > 0)
    modifies bc, bc.buf, bc.next, bc.prev
    ensures bc.Valid()
    ensures var r := Copied(old(bc.S()), dst, src, first, second);
            bc.S() == if unpin then B.Unpinned(r, dst) else r
    ensures bc.Blocks() == old(bc.Blocks())[old(bc.buf[dst].key) := old(bc.buf[src].data)]
  {
    bc.Modify(dst, bc.buf[src].data);
    bc.Bwrite(dst);
    if unpin {
      UnpinBefore(bc.S(), src, dst);
      bc.Bunpin(dst);
    }
    bc.Brelse(first);
    bc.Brelse(second);
  }

  /** The two calls of bread in `write_log`: the log block is `k`, the home block `h` is ts[tail]. */
  method GetLogPair(bc: B.Cache, k: B.Key, h: B.Key, ghost dev: nat, ghost ts: seq<int>, ghost at: seq<int>,
                    ghost tail: nat)
    returns (to: Option<int>, from: int)
    requires bc.Valid() && Guarded(bc.S(), dev, ts, at) && dev >= 1
    requires k in bc.disk && h in bc.disk && k.dev == dev && k.blockno !in ts
    requires tail < |ts| && ts[tail] >= 0 && h == B.Key(dev, ts[tail])
    modifies bc`users, bc.buf
    ensures bc.Valid()
    ensures to.Some? <==> B.Available(old(bc.S()), k)
    ensures to.None? ==> bc.S() == old(bc.S())
    ensures to.Some? ==> LogReady(old(bc.S()), bc.S(), dev, ts, at, to.value, from, k, h)
    ensures to.Some? ==> bc.Blocks() == old(bc.Blocks()) && bc.buf[from].data == old(bc.Blocks()[h])
  {
    ghost var c := bc.S();
    GuardedIsTidy(c, dev, ts, at);
    from := 0;
    to := bc.Bread(k);
    if to.None? {
      return;
    }
    ghost var c1 := bc.S();
    assert ts[tail] in ts;
    SecondAvailable(c, c1, dev, ts, at, to.value, k, h);
    var found := bc.Bread(h);
    from := found.value;
    LogStep(c, c1, bc.S(), dev, ts, at, tail, to.value, from, k);
  }

  /** The body of the loop in `write_log`. */
  method LogBlock(bc: B.Cache, k: B.Key, h: B.Key, ghost dev: nat, ghost ts: seq<int>, ghost at: seq<int>,
                  ghost tail: nat)
    returns (ok: bool)
    requires bc.Valid() && Guarded(bc.S(), dev, ts, at) && dev >= 1
    requires k in bc.disk && h in bc.disk && k.dev == dev && k.blockno !in ts
    requires tail < |ts| && ts[tail] >= 0 && h == B.Key(dev, ts[tail])
    modifies bc, bc.buf, bc.next, bc.prev
    ensures bc.Valid() && bc.users == old(bc.users) && bc.pins == old(bc.pins)
    ensures ok <==> B.Available(old(bc.S()), k)
    ensures !ok ==> bc.S() == old(bc.S())
    ensures ok ==> Guarded(bc.S(), dev, ts, at)
    ensures ok ==> bc.disk == old(bc.disk)[k := old(bc.Blocks()[h])]
    ensures ok ==> bc.Blocks() == old(bc.Blocks())[k := old(bc.Blocks()[h])]
  {
    var to, from := GetLogPair(bc, k, h, dev, ts, at, tail);
    ok := to.Some?;
    if ok {
      CopyBuffer(bc, to.value, from, from, to.value, false);
    }
  }

  /** The two calls of bread in `install_trans`: the log block is `k`, the home block is `h`. */
  method GetInstallPair(bc: B.Cache, k: B.Key, h: B.Key, ghost recovering: bool,
                        ghost dev: nat, ghost ts: seq<int>, ghost at: seq<int>)
    returns (l: Option<int>, d: Option<int>)
    requires bc.Valid() && Guarded(bc.S(), dev, ts, at) && dev >= 1
    requires k in bc.disk && h in bc.disk && k.dev == dev && h.dev == dev && k != h && k.blockno !in ts
    requires if recovering then ts == [] else ts != [] && h.blockno == ts[0]
    modifies bc`users, bc.buf
    ensures bc.Valid()
    ensures Enough(old(bc.S()), recovering) ==> l.Some? && d.Some?
    ensures l.Some? && d.Some? ==>
              && InstallReady(old(bc.S()), bc.S(), dev, ts, at, l.value, d.value, k, h, recovering)
              && bc.Blocks() == old(bc.Blocks())
  {
    ghost var c := bc.S();
    GuardedIsTidy(c, dev, ts, at);
    FreeAvailable(c, k);
    d := None;
    l := bc.Bread(k);
    if l.None? {
      return;
    }
    ghost var c1 := bc.S();
    SecondAvailable(c, c1, dev, ts, at, l.value, k, h);
    d := bc.Bread(h);
    if d.Some? {
      InstallStep(c, c1, bc.S(), dev, ts, at, l.value, d.value, k, h, recovering);
    }
  }

  /** The body of the loop in `install_trans`. */
  method InstallBlock(bc: B.Cache, k: B.Key, h: B.Key, recovering: bool, ghost dev: nat, ghost ts: seq<int>,
                      ghost at: seq<int>)
    returns (ok: bool)
    requires bc.Valid() && Guarded(bc.S(), dev, ts, at) && dev >= 1
    requires k in bc.disk && h in bc.disk && k.dev == dev && h.dev == dev && k != h && k.blockno !in ts
    requires if recovering then ts == [] else ts != [] && h.blockno == ts[0]
    modifies bc, bc.buf, bc.next, bc.prev
    ensures bc.Valid()
    ensures Enough(old(bc.S()), recovering) ==> ok && Enough(bc.S(), recovering)
    ensures !ok ==> bc.disk == old(bc.disk)
    ensures ok ==> bc.users == old(bc.users)
    ensures ok ==> Guarded(bc.S(), dev, Rest(ts, recovering), Rest(at, recovering))
    ensures ok ==> bc.disk == old(bc.disk)[h := old(bc.disk[k])]
    ensures ok ==> bc.Blocks() == old(bc.Blocks())[h := old(bc.disk[k])]
  {
    var l, d := GetInstallPair(bc, k, h, recovering, dev, ts, at);
    ok := l.Some? && d.Some?;
    if ok {
      CopyBuffer(bc, d.value, l.value, l.value, d.value, !recovering);
    }
  }

  /** Replace the data of buffer `i`, just got in state `c` for block `k`, write it and let it go. */
  method StoreBuffer(bc: B.Cache, i: int, x: Block, ghost c: B.State, ghost k: B.Key,
                     ghost dev: nat, ghost ts: seq<int>, ghost at: seq<int>)
    requires bc.Valid() && B.Consistent(c) && k in c.disk && k.dev >= 1 && B.Got(c, bc.S(), i, k)
    requires Guarded(c, dev, ts, at)
    modifies bc, bc.buf, bc.next, bc.prev
    ensures bc.Valid() && bc.S() == Rewritten(c, i, k, x)
    ensures Guarded(bc.S(), dev, ts, at)
    ensures bc.Blocks() == old(bc.Blocks())[k := x]
  {
    GetAndWrite(c, bc.S(), dev, ts, at, i, k, x);
    bc.Modify(i, x);
    bc.Bwrite(i);
    bc.Brelse(i);
  }

  class Log {
    const bcache: B.Cache
    const dev: nat
    const start: nat
    const block: array<int>   // log.lh.block
    var n: int                // log.lh.n
    var outstanding: int
    var committing: bool
    ghost var disk: Disk
    ghost var cache: seq<Block>
    ghost var held: seq<int>
    ghost var at: seq<int>    // the buffers of `held`
    ghost var dirty: set<int> // buffers that operations have changed and not logged yet
    ghost var trace: seq<Disk>

    /** The block numbers logged so far. */
    ghost function Lh(): seq<int>
      reads this, block
      requires 0 <= n <= block.Length
    {
      block[..n]
    }

    ghost predicate WellFormed()
      reads this
    {
      && Layout(disk) && disk.start == start && |cache| == |disk.blocks| && dev >= 1
      && block.Length == LOGBLOCKS && 0 <= n <= LOGBLOCKS && AllHome(disk, held)
      && block != bcache.next && block != bcache.prev
      && trace != [] && trace[|trace| - 1] == disk
    }

    /** The buffers of `held` are pinned: no operation is between changing a buffer and log_write. */
    ghost predicate Steady()
      reads this, bcache, bcache.buf, bcache.next, bcache.prev
    {
      && WellFormed() && bcache.Valid()
      && Backed(bcache.S(), dev, disk, cache) && Guarded(bcache.S(), dev, held, at)
    }

    /**
     * While operations run: the log is in memory, the one on disk is empty, and apart
     * from the buffers in `dirty` what is not pinned is what the disk holds.
     */
    ghost predicate InOperation()
      reads this, block, bcache, bcache.buf, bcache.next, bcache.prev
    {
      && WellFormed() && bcache.Valid()
      && Backed(bcache.S(), dev, disk, cache) && Kempt(bcache.S(), dev, held, at, dirty)
      && held == Lh() && Valid(disk) && Count(disk) == 0
    }

    /** When every changed buffer has been logged, commit can start. */
    lemma InOperationIsReady()
      requires InOperation() && dirty == {}
      ensures Steady() && Ready(disk, cache, Lh())
    {
      KemptIsGuarded(bcache.S(), dev, held, at);
      PinsAgree(bcache.S(), dev, disk, cache, held, at);
    }

    lemma Resume()
      requires Steady() && held == Lh() && Valid(disk) && Count(disk) == 0 && dirty == {}
      ensures InOperation()
      ensures held == [] ==> bcache.Blocks() == bcache.disk && cache == disk.blocks && NothingPinned(bcache.S())
    {
      KemptIsGuarded(bcache.S(), dev, held, at);
      PinsAgree(bcache.S(), dev, disk, cache, held, at);
    }

    /** The log before recovery, over a cache that nothing references. */
    constructor (bcache: B.Cache, dev: nat, start: nat, ghost blocks: seq<Block>)
      requires bcache.Valid() && dev >= 1 && start + LOGBLOCKS < |blocks|
      requires Tied(bcache.disk, dev, blocks)
      requires Guarded(bcache.S(), dev, [], [])
      ensures Steady() && disk == Disk(start, blocks) && cache == blocks
      ensures n == 0 && outstanding == 0 && !committing && held == [] && dirty == {} && trace == [disk]
      ensures this.bcache == bcache && this.dev == dev && this.start == start && fresh(block)
    {
      this.bcache := bcache;
      this.dev := dev;
      this.start := start;
      block := new int[LOGBLOCKS](_ => 0);
      n := 0;
      outstanding := 0;
      committing := false;
      disk := Disk(start, blocks);
      cache := blocks;
      held := [];
      at := [];
      dirty := {};
      trace := [Disk(start, blocks)];
      new;
      assert Opened(bcache.S());
      SettledView(bcache.S(), dev);
    }

    /** Block `b` has just been written with contents `x`, and now `pinned` are the pinned blocks. */
    ghost method Record(c: B.State, b: int, x: Block, pinned: seq<int>, buffers: seq<int>)
      requires WellFormed() && 0 <= b < |cache| && bcache.Valid()
      requires Backed(c, dev, disk, cache) && bcache.disk == c.disk[B.Key(dev, b) := x]
      requires bcache.Blocks() == B.View(c.bufs, c.disk)[B.Key(dev, b) := x]
      requires Guarded(bcache.S(), dev, pinned, buffers) && AllHome(disk, pinned)
      modifies this`disk, this`cache, this`trace, this`held, this`at
      ensures Steady() && held == pinned && at == buffers
      ensures disk == Write(old(disk), b, x) && cache == old(cache)[b := x] && trace == old(trace) + [disk]
    {
      BackedWrite(c, bcache.S(), dev, disk, cache, b, x);
      disk := Write(disk, b, x);
      cache := cache[b := x];
      trace := trace + [disk];
      held, at := pinned, buffers;
    }

    // ---- write_log ----

    /** write_log has copied the first `k` blocks since the state `d`, `c`, `t`. */
    ghost predicate LogProgress(d: Disk, c: seq<Block>, t: seq<Disk>, ts: seq<int>, k: int)
      reads this, block
    {
      && WellFormed() && Lh() == ts == held && 0 <= k <= n
      && Layout(d) && |c| == |d.blocks| && AllHome(d, ts)
      && disk == Logged(d, c, ts, k)
      && (forall i :: 0 <= i < n ==> cache[ts[i]] == c[ts[i]])
      && trace == t + LogTrace(d, c, ts, k)
    }

    /** The effect of one iteration of `write_log`: the logged block is copied from its pinned buffer. */
    method LogOne(tail: int) returns (ok: bool)
      requires Steady() && held == Lh() && 0 <= tail < n
      modifies this`disk, this`cache, this`trace, this`held, this`at, bcache, bcache.buf, bcache.next, bcache.prev
      ensures Steady() && held == old(held) && bcache.users == old(bcache.users) && bcache.pins == old(bcache.pins)
      ensures ok <==> B.Available(old(bcache.S()), B.Key(dev, start + tail + 1))
      ensures SomeFree(old(bcache.S())) ==> ok && SomeFree(bcache.S())
      ensures !ok ==> disk == old(disk) && cache == old(cache) && trace == old(trace)
      ensures ok ==> disk == Write(old(disk), start + tail + 1, old(cache)[held[tail]])
      ensures ok ==> cache == old(cache)[start + tail + 1 := old(cache)[held[tail]]] && trace == old(trace) + [disk]
    {
      ghost var c := bcache.S();
      assert held[tail] == block[tail] && IsHome(disk, held[tail]) && start + tail + 1 !in held;
      BackedAt(c, dev, disk, cache, held[tail]);
      BackedAt(c, dev, disk, cache, start + tail + 1);
      FreeAvailable(c, B.Key(dev, start + tail + 1));
      ok := LogBlock(bcache, B.Key(dev, start + tail + 1), B.Key(dev, block[tail]), dev, held, at, tail);
      if ok {
        Record(c, start + tail + 1, cache[held[tail]], held, at);
      }
      SameFree(c, bcache.S());
    }

    /** One iteration of `write_log`. */
    method CopyToLog(tail: int, ghost d: Disk, ghost c: seq<Block>, ghost t: seq<Disk>) returns (ok: bool)
      requires Steady() && LogProgress(d, c, t, Lh(), tail) && tail < n
      modifies this`disk, this`cache, this`trace, this`held, this`at, bcache, bcache.buf, bcache.next, bcache.prev
      ensures Steady() && held == old(held) && bcache.users == old(bcache.users) && bcache.pins == old(bcache.pins)
      ensures ok <==> B.Available(old(bcache.S()), B.Key(dev, start + tail + 1))
      ensures SomeFree(old(bcache.S())) ==> ok && SomeFree(bcache.S())
      ensures LogProgress(d, c, t, Lh(), if ok then tail + 1 else tail)
    {
      ok := LogOne(tail);
      if ok {
        assert IsHome(d, held[tail]);
        assert t + LogTrace(d, c, Lh(), tail + 1) == t + LogTrace(d, c, Lh(), tail) + [disk];
      }
    }

    /** `write_log`: copy the modified blocks from the cache to the log. */
    method WriteLog() returns (ok: bool)
      requires Steady() && held == Lh()
      modifies this`disk, this`cache, this`trace, this`held, this`at, bcache, bcache.buf, bcache.next, bcache.prev
      ensures Steady() && held == old(held) && bcache.users == old(bcache.users) && bcache.pins == old(bcache.pins)
      ensures SomeFree(old(bcache.S())) ==> ok && SomeFree(bcache.S())
      ensures n > 0 && !B.Available(old(bcache.S()), B.Key(dev, start + 1)) ==> !ok && trace == old(trace)
      ensures trace <= old(trace) + LogTrace(old(disk), old(cache), Lh(), n)
      ensures ok ==> disk == Logged(old(disk), old(cache), Lh(), n)
      ensures ok ==> trace == old(trace) + LogTrace(old(disk), old(cache), Lh(), n)
    {
      ghost var d, c, t, s := disk, cache, trace, bcache.S();
      var tail := 0;
      ok := true;
      while tail < n
        invariant ok && Steady() && LogProgress(d, c, t, Lh(), tail) && held == old(held)
        invariant bcache.users == s.users && bcache.pins == s.pins
        invariant SomeFree(s) ==> SomeFree(bcache.S())
        invariant tail == 0 ==> bcache.S() == s
        invariant tail > 0 ==> B.Available(s, B.Key(dev, start + 1))
      {
        ok := CopyToLog(tail, d, c, t);
        if !ok {
          LogTracePrefix(d, c, Lh(), tail, t);
          return;
        }
        tail := tail + 1;
      }
    }

    // ---- The header ----

    /** The loop of `write_head`. */
    method FormatHead(was: Block) returns (hb: Block)
      requires WellFormed()
      ensures hb == HeaderWith(was, Lh())
    {
      hb := was[0 := n];
      var i := 0;
      while i < n
        invariant 0 <= i <= n
        invariant hb == [n] + Lh()[..i] + was[1 + i..]
      {
        hb := hb[1 + i := block[i]];
        i := i + 1;
      }
      assert Lh()[..n] == Lh();
    }

    /** The header block's buffer, holding what the disk holds. */
    method GetHead() returns (b: Option<int>)
      requires Steady()
      modifies bcache`users, bcache.buf
      ensures bcache.Valid()
      ensures b.Some? <==> B.Available(old(bcache.S()), B.Key(dev, start))
      ensures b.None? ==> bcache.S() == old(bcache.S())
      ensures b.Some? ==>
                && B.Key(dev, start) in old(bcache.disk)
                && B.Got(old(bcache.S()), bcache.S(), b.value, B.Key(dev, start))
                && bcache.buf[b.value].data == disk.blocks[start] && bcache.Blocks() == old(bcache.Blocks())
    {
      ghost var c := bcache.S();
      BackedAt(c, dev, disk, cache, start);
      PinsAgree(c, dev, disk, cache, held, at);
      GuardedIsTidy(c, dev, held, at);
      assert start !in held;
      b := bcache.Bread(B.Key(dev, start));
    }

    /** `write_head`: store the in-memory header in the header block. */
    method WriteHead() returns (ok: bool)
      requires Steady()
      modifies this`disk, this`cache, this`trace, this`held, this`at, bcache, bcache.buf, bcache.next, bcache.prev
      ensures ok <==> B.Available(old(bcache.S()), B.Key(dev, start))
      ensures Steady() && held == old(held) && bcache.users == old(bcache.users) && bcache.pins == old(bcache.pins)
      ensures SomeFree(old(bcache.S())) ==> ok && SomeFree(bcache.S())
      ensures !ok ==> disk == old(disk) && trace == old(trace)
      ensures ok ==> disk == Headed(old(disk), Lh()) && trace == old(trace) + [disk]
    {
      ghost var c := bcache.S();
      FreeAvailable(c, B.Key(dev, start));
      var b := GetHead();
      ok := b.Some?;
      if ok {
        var hb := FormatHead(bcache.buf[b.value].data);
        StoreBuffer(bcache, b.value, hb, c, B.Key(dev, start), dev, held, at);
        Record(c, start, hb, held, at);
        SameFree(c, bcache.S());
      }
    }

    /** `read_head`: load the in-memory header from the header block. */
    method ReadHead() returns (ok: bool)
      requires Steady() && Valid(disk)
      modifies this`n, block, bcache, bcache.buf, bcache.next, bcache.prev
      ensures ok <==> B.Available(old(bcache.S()), B.Key(dev, start))
      ensures Steady() && held == old(held) && bcache.users == old(bcache.users) && bcache.pins == old(bcache.pins)
      ensures ok ==> Lh() == Targets(disk)
    {
      ghost var c := bcache.S();
      var b := GetHead();
      ok := b.Some?;
      if ok {
        LoadHead(bcache.buf[b.value].data);
        BackedAt(c, dev, disk, cache, start);
        GetAndRelease(c, bcache.S(), dev, held, at, b.value, B.Key(dev, start));
        bcache.Brelse(b.value);
        BackedSame(c, bcache.S(), dev, disk, cache);
      }
    }

    /** The loop of `read_head`. */
    method LoadHead(lh: Block)
      requires WellFormed() && Valid(disk) && lh == disk.blocks[start]
      modifies this`n, block
      ensures WellFormed() && Lh() == Targets(disk)
    {
      n := lh[0];
      var i := 0;
      while i < n
        invariant 0 <= i <= n <= LOGBLOCKS && n == Count(disk)
        invariant forall j :: 0 <= j < i ==> block[j] == Target(disk, j)
      {
        block[i] := lh[1 + i];
        i := i + 1;
      }
    }

    // ---- install_trans ----

    /** The effect of one iteration of `install_trans`. */
    method InstallSlot(tail: int, recovering: bool) returns (ok: bool)
      requires Steady() && 0 <= tail < n && IsHome(disk, block[tail])
      requires if recovering then held == [] else held != [] && held[0] == block[tail]
      modifies this`disk, this`cache, this`trace, this`held, this`at, bcache, bcache.buf, bcache.next, bcache.prev
      ensures WellFormed()
      ensures Enough(old(bcache.S()), recovering) ==> ok && Enough(bcache.S(), recovering)
      ensures !ok ==> disk == old(disk) && trace == old(trace)
      ensures ok ==> Steady() && held == Rest(old(held), recovering)
      ensures ok ==> disk == Write(old(disk), block[tail], SlotData(old(disk), tail)) && trace == old(trace) + [disk]
      ensures ok ==> bcache.users == old(bcache.users)
    {
      ghost var c, b, x := bcache.S(), block[tail], SlotData(disk, tail);
      SlotReady(c, dev, disk, cache, held, tail, b);
      ok := InstallBlock(bcache, B.Key(dev, start + tail + 1), B.Key(dev, block[tail]), recovering, dev, held, at);
      if ok {
        Record(c, b, x, Rest(held, recovering), Rest(at, recovering));
      }
    }

    /** install_trans has installed the first `k` blocks since the state `d`, `t`. */
    ghost predicate InstallProgress(d: Disk, t: seq<Disk>, k: int, recovering: bool)
      reads this, block
    {
      && WellFormed() && 0 <= k <= n
      && Valid(d) && Lh() == Targets(d) && SameLog(d, disk)
      && held == (if recovering then [] else block[k..n])
      && disk == Installed(d, k) && trace == t + InstallTrace(d, k)
    }

    /** One iteration of `install_trans`. */
    method InstallOne(tail: int, recovering: bool, ghost d: Disk, ghost t: seq<Disk>) returns (ok: bool)
      requires Steady() && InstallProgress(d, t, tail, recovering) && tail < n
      modifies this`disk, this`cache, this`trace, this`held, this`at, bcache, bcache.buf, bcache.next, bcache.prev
      ensures WellFormed()
      ensures Enough(old(bcache.S()), recovering) ==> ok && Enough(bcache.S(), recovering)
      ensures !ok ==> trace == old(trace)
      ensures ok ==> Steady() && InstallProgress(d, t, tail + 1, recovering)
      ensures ok ==> bcache.users == old(bcache.users)
    {
      assert block[tail] == Lh()[tail] == Target(d, tail);
      InstallNext(d, disk, tail, t);
      ok := InstallSlot(tail, recovering);
    }

    /** `install_trans`: copy the committed blocks from the log to their home locations, unpinning unless recovering. */
    method InstallTrans(recovering: bool) returns (ok: bool)
      requires Steady() && Valid(disk) && Lh() == Targets(disk)
      requires held == if recovering then [] else Lh()
      modifies this`disk, this`cache, this`trace, this`held, this`at, bcache, bcache.buf, bcache.next, bcache.prev
      ensures WellFormed()
      ensures Enough(old(bcache.S()), recovering) ==> ok && Enough(bcache.S(), recovering)
      ensures trace <= old(trace) + InstallTrace(old(disk), n)
      ensures ok ==> Steady() && held == [] && bcache.users == old(bcache.users)
      ensures ok ==> disk == Installed(old(disk), n) && trace == old(trace) + InstallTrace(old(disk), n)
    {
      ghost var d, t, s := disk, trace, bcache.S();
      assert Lh() == block[0..n] && n == Count(d);
      var tail := 0;
      ok := true;
      while tail < n
        invariant ok && Steady() && InstallProgress(d, t, tail, recovering)
        invariant bcache.users == s.users
        invariant Enough(s, recovering) ==> Enough(bcache.S(), recovering)
      {
        ok := InstallOne(tail, recovering, d, t);
        if !ok {
          break;
        }
        tail := tail + 1;
      }
      InstallTracePrefix(d, tail, t);
    }

    /** The last part of both commit and recovery: install the log, then erase it. */
    method InstallAndErase(recovering: bool) returns (ok: bool)
      requires Steady() && Valid(disk) && Lh() == Targets(disk)
      requires held == if recovering then [] else Lh()
      modifies this`disk, this`cache, this`trace, this`held, this`at, this`n, bcache, bcache.buf, bcache.next,
               bcache.prev
      ensures WellFormed()
      ensures Enough(old(bcache.S()), recovering) ==> ok
      ensures trace <= old(trace) + RecoveryTrace(old(disk))
      ensures ok ==> Steady() && n == 0 && held == [] && bcache.users == old(bcache.users)
      ensures ok ==> disk == Recovered(old(disk)) && trace == old(trace) + RecoveryTrace(old(disk))
    {
      ghost var d, t := disk, trace;
      ok := InstallTrans(recovering);
      assert t + RecoveryTrace(d) == (t + InstallTrace(d, Count(d))) + [Recovered(d)];
      if ok {
        n := 0;
        assert Lh() == [];
        EnoughAvailable(bcache.S(), recovering, B.Key(dev, start));
        ok := WriteHead();
      }
    }

    /** `recover_from_log`, at boot, when nothing is pinned. */
    method RecoverFromLog() returns (ok: bool)
      requires Steady() && Valid(disk) && held == [] && dirty == {}
      modifies this`disk, this`cache, this`trace, this`held, this`at, this`n, block, bcache, bcache.buf, bcache.next,
               bcache.prev
      ensures WellFormed()
      ensures TwoFree(old(bcache.S())) ==> ok
      ensures trace <= old(trace) + RecoveryTrace(old(disk))
      ensures ok ==> InOperation() && n == 0 && bcache.users == old(bcache.users)
      ensures ok ==> disk == Recovered(old(disk)) && trace == old(trace) + RecoveryTrace(old(disk))
      ensures ok ==> cache == disk.blocks && bcache.Blocks() == bcache.disk && NothingPinned(bcache.S())
    {
      EnoughAvailable(bcache.S(), true, B.Key(dev, start));
      ghost var s := bcache.S();
      ClearInstalled(disk);
      ok := ReadHead();
      SameFree(s, bcache.S());
      if ok {
        ok := InstallAndErase(true);
        if ok {
          Resume();
        }
      }
    }

    /** The first part of commit, up to and including the commit point. */
    method WriteTransaction() returns (ok: bool)
      requires Steady() && held == Lh() && Ready(disk, cache, Lh())
      modifies this`disk, this`cache, this`trace, this`held, this`at, bcache, bcache.buf, bcache.next, bcache.prev
      ensures Steady() && held == Lh() && bcache.users == old(bcache.users)
      ensures SomeFree(old(bcache.S())) ==> ok && SomeFree(bcache.S())
      ensures n > 0 && !B.Available(old(bcache.S()), B.Key(dev, start + 1)) ==> !ok && trace == old(trace)
      ensures AllHome(old(disk), Lh())
      ensures trace <= old(trace) +
                       (LogTrace(old(disk), old(cache), Lh(), n) + [Committed(old(disk), old(cache), Lh())])
      ensures ok ==> disk == Committed(old(disk), old(cache), Lh()) && Valid(disk) && Lh() == Targets(disk)
      ensures ok ==> trace == old(trace) + (LogTrace(old(disk), old(cache), Lh(), n) + [disk])
    {
      ghost var d, c, t, ts := disk, cache, trace, Lh();
      HeadedTargets(Logged(d, c, ts, n), ts);
      ok := WriteLog();
      Longer(trace, t, LogTrace(d, c, ts, n), [Committed(d, c, ts)]);
      if ok {
        ok := WriteHead();
        Append3(t, LogTrace(d, c, ts, n), [Committed(d, c, ts)]);
      }
    }

    /** `commit` when there is something in the log. */
    method CommitSome() returns (ok: bool)
      requires Steady() && held == Lh() && Ready(disk, cache, Lh()) && n > 0
      modifies this`disk, this`cache, this`trace, this`held, this`at, this`n, bcache, bcache.buf, bcache.next,
               bcache.prev
      ensures trace <= old(trace) + CommitTrace(old(disk), old(cache), old(Lh()))
      ensures SomeFree(old(bcache.S())) ==> ok
      ensures !B.Available(old(bcache.S()), B.Key(dev, start + 1)) ==> !ok
      ensures ok ==> Steady() && n == 0 && held == [] && bcache.users == old(bcache.users)
      ensures ok ==> trace == old(trace) + CommitTrace(old(disk), old(cache), old(Lh()))
      ensures ok ==> SameHome(disk, Disk(start, old(cache))) && Valid(disk) && Count(disk) == 0
    {
      ghost var d, c, t, ts := disk, cache, trace, Lh();
      CommitSummary(d, c, ts);
      ok := WriteTransaction();
      ghost var e := Committed(d, c, ts);
      Longer(trace, t, LogTrace(d, c, ts, |ts|) + [e], RecoveryTrace(e));
      if ok {
        Append3(t, LogTrace(d, c, ts, |ts|) + [e], RecoveryTrace(e));
        ok := InstallAndErase(false);
      }
    }

    /** `commit`: write the log, commit it, install it, erase it. */
    method Commit() returns (ok: bool)
      requires InOperation() && dirty == {}
      modifies this`disk, this`cache, this`trace, this`held, this`at, this`n, bcache, bcache.buf, bcache.next,
               bcache.prev
      ensures Ready(old(disk), old(cache), old(Lh()))
      // A panic leaves on disk what a crash after some of the writes leaves there.
      ensures trace <= old(trace) + CommitTrace(old(disk), old(cache), old(Lh()))
      ensures SomeFree(old(bcache.S())) ==> ok
      // With no users, commit panics exactly when every buffer is pinned.
      ensures NoUsers(old(bcache.S())) ==> (ok <==> old(n) == 0 || old(n) < bcache.buf.Length)
      ensures ok ==> Steady() && n == 0 && held == [] && bcache.users == old(bcache.users)
      ensures ok ==> trace == old(trace) + CommitTrace(old(disk), old(cache), old(Lh()))
      // The cached data is now on disk, the log on disk is empty, and nothing is pinned.
      ensures ok ==> SameHome(disk, Disk(start, old(cache))) && Valid(disk) && Count(disk) == 0
      ensures ok ==> InOperation() && bcache.Blocks() == bcache.disk && NothingPinned(bcache.S())
    {
      ok := true;
      InOperationIsReady();
      if n > 0 {
        if NoUsers(bcache.S()) {
          RoomToCommit(bcache.S(), dev, held, at, start + 1);
        }
        ok := CommitSome();
      }
      if ok {
        Resume();
      }
    }

    // ---- log_write and the operations ----

    /** The loop of `log_write`: where `b` is in the header, or the end. */
    method FindLogged(b: int) returns (i: int)
      requires WellFormed()
      ensures 0 <= i <= n && (i < n ==> block[i] == b) && (i == n ==> b !in Lh())
    {
      i := 0;
      while i < n
        invariant 0 <= i <= n
        invariant forall j :: 0 <= j < i ==> block[j] != b
      {
        if block[i] == b {
          return;
        }
        i := i + 1;
      }
    }

    /** The last lines of `log_write`: block `b`, of buffer `i`, goes into slot `j` of the header. */
    method AddToLog(b: nat, i: int, j: int)
      requires WellFormed() && n < LOGBLOCKS && bcache.Valid() && Kempt(bcache.S(), dev, held, at, dirty)
               && held == Lh()
      requires 0 <= i < bcache.buf.Length && B.Holds(bcache.S().bufs, i, B.Key(dev, b)) && IsHome(disk, b)
      requires 0 <= j <= n && (j < n ==> block[j] == b) && (j == n ==> b !in Lh())
      modifies this`n, this`held, this`at, this`dirty, block, bcache`pins, bcache.buf
      ensures WellFormed() && bcache.Valid() && bcache.Blocks() == old(bcache.Blocks())
      ensures Lh() == (if b in old(Lh()) then old(Lh()) else old(Lh()) + [b]) && dirty == old(dirty) - {i}
      ensures bcache.S() == (if b in old(Lh()) then old(bcache.S()) else B.Pinned(old(bcache.S()), i))
      ensures held == Lh() && Kempt(bcache.S(), dev, held, at, dirty) && bcache.pins[i] == 1
    {
      ghost var ts := Lh();
      block[j] := b;
      if j == n {
        LogNew(bcache.S(), dev, held, at, dirty, b, i);
        n := n + 1;
        held, at := held + [b], at + [i];
        assert Lh() == ts + [b];
        dirty := dirty - {i};
        bcache.Bpin(i);
      } else {
        assert ts[j] == b;
        LogAgain(bcache.S(), dev, held, at, dirty, b, i);
        assert Lh() == ts;
        dirty := dirty - {i};
      }
    }

    /** `log_write` of buffer `i`, which its user has changed; false when it panics. */
    method LogWrite(i: int) returns (ok: bool)
      requires InOperation() && 0 <= i < bcache.buf.Length && bcache.buf[i].valid && bcache.users[i] > 0
      requires bcache.buf[i].key.dev == dev && IsHome(disk, bcache.buf[i].key.blockno)
      modifies this`n, this`held, this`at, this`dirty, block, bcache`pins, bcache.buf
      ensures InOperation() && bcache.Blocks() == old(bcache.Blocks())
      ensures ok <==> old(n) < LOGBLOCKS && outstanding >= 1
      ensures !ok ==> Lh() == old(Lh()) && dirty == old(dirty) && bcache.S() == old(bcache.S())
      // Absorption: a block already logged is neither logged nor pinned again.
      ensures ok ==> var b := old(bcache.buf[i].key.blockno);
                     && Lh() == (if b in old(Lh()) then old(Lh()) else old(Lh()) + [b])
                     && bcache.S() == (if b in old(Lh()) then old(bcache.S()) else B.Pinned(old(bcache.S()), i))
      // Either way the buffer is pinned, once, so its user may let go of it.
      ensures ok ==> bcache.pins[i] == 1 && dirty == old(dirty) - {i}
    {
      if n >= LOGBLOCKS {
        return false;
      }
      if outstanding < 1 {
        return false;
      }
      ghost var c := bcache.S();
      var b := bcache.buf[i].key.blockno;
      var j := FindLogged(b);
      AddToLog(b, i, j);
      BackedSame(c, bcache.S(), dev, disk, cache);
      ok := true;
    }

    /** `bread` by an operation: the buffer holds the block as seen through the cache. */
    method Get(b: int) returns (i: Option<int>)
      requires InOperation() && 0 <= b < |cache|
      modifies bcache`users, bcache.buf
      ensures InOperation()
      ensures i.Some? <==> B.Available(old(bcache.S()), B.Key(dev, b))
      ensures i.None? ==> bcache.S() == old(bcache.S())
      ensures i.Some? ==>
                && 0 <= i.value < bcache.buf.Length && B.Holds(bcache.S().bufs, i.value, B.Key(dev, b))
                && bcache.buf[i.value].data == cache[b] && bcache.pins == old(bcache.pins)
                && bcache.users == old(bcache.users)[i.value := old(bcache.users)[i.value] + 1]
    {
      ghost var c := bcache.S();
      BackedAt(c, dev, disk, cache, b);
      KemptIsTidy(c, dev, held, at, dirty);
      i := bcache.Bread(B.Key(dev, b));
      if i.Some? {
        GotIsKempt(c, bcache.S(), dev, held, at, dirty, i.value, B.Key(dev, b));
        BackedSame(c, bcache.S(), dev, disk, cache);
      }
    }

    /** The user of buffer `i`, which holds block `b`, changes it. */
    method Change(i: int, b: nat, x: Block)
      requires InOperation() && b < |cache| && 0 <= i < bcache.buf.Length && bcache.users[i] > 0
      requires B.Holds(bcache.S().bufs, i, B.Key(dev, b))
      modifies this`cache, this`dirty, bcache.buf
      ensures InOperation() && bcache.S() == B.Modified(old(bcache.S()), i, x)
      ensures cache == old(cache)[b := x] && dirty == old(dirty) + {i}
    {
      ghost var c, was := bcache.S(), cache;
      ChangedIsKempt(c, dev, held, at, dirty, i, x);
      dirty, cache := dirty + {i}, cache[b := x];
      bcache.Modify(i, x);
      BackedUpdate(c, bcache.S(), dev, disk, was, b, x);
    }

    /** `brelse` of a buffer that is not changed, or has been logged. */
    method Drop(i: int)
      requires InOperation() && 0 <= i < bcache.buf.Length && bcache.users[i] > 0
               && (i !in dirty || bcache.users[i] > 1)
      modifies bcache, bcache.buf, bcache.next, bcache.prev
      ensures InOperation() && bcache.S() == B.Released(old(bcache.S()), i)
    {
      ghost var c := bcache.S();
      LetGo(c, dev, held, at, dirty, i);
      bcache.Brelse(i);
      BackedSame(c, bcache.S(), dev, disk, cache);
    }

    /** The first half of an update: bread of block `b` and a change of its data. */
    method Take(b: int, x: Block) returns (i: Option<int>)
      requires InOperation() && 0 <= b < |cache|
      modifies this`cache, this`dirty, bcache`users, bcache.buf
      ensures InOperation()
      ensures i.Some? <==> B.Available(old(bcache.S()), B.Key(dev, b))
      ensures i.Some? ==>
                && 0 <= i.value < bcache.buf.Length && B.Holds(bcache.S().bufs, i.value, B.Key(dev, b))
                && bcache.users == old(bcache.users)[i.value := old(bcache.users)[i.value] + 1]
                && cache == old(cache)[b := x] && dirty == old(dirty) + {i.value}
    {
      i := Get(b);
      if i.Some? {
        Change(i.value, b, x);
      }
    }

    /** The second half: log_write and brelse of the buffer. */
    method Put(i: int) returns (ok: bool)
      requires InOperation() && 0 <= i < bcache.buf.Length && bcache.buf[i].valid && bcache.users[i] > 0
      requires bcache.buf[i].key.dev == dev && IsHome(disk, bcache.buf[i].key.blockno)
      modifies this`n, this`held, this`at, this`dirty, block, bcache, bcache.buf, bcache.next, bcache.prev
      ensures InOperation() && bcache.disk == old(bcache.disk)
      ensures ok <==> old(n) < LOGBLOCKS && outstanding >= 1
      ensures ok ==> dirty == old(dirty) - {i} && bcache.users == old(bcache.users)[i := old(bcache.users)[i] - 1]
      ensures ok ==> var b := old(bcache.buf[i].key.blockno);
                     Lh() == if b in old(Lh()) then old(Lh()) else old(Lh()) + [b]
    {
      ok := LogWrite(i);
      if ok {
        Drop(i);
      }
    }

    /**
     * What an operation does to a block: bread, change the data, log_write, brelse.
     * Other operations may hold changed buffers at the time.
     */
    method Update(b: int, x: Block) returns (ok: bool)
      requires InOperation() && IsHome(disk, b)
      modifies this`n, this`held, this`at, this`dirty, this`cache, block, bcache, bcache.buf, bcache.next, bcache.prev
      ensures InOperation()
      ensures ok <==> B.Available(old(bcache.S()), B.Key(dev, b)) && old(n) < LOGBLOCKS && outstanding >= 1
      ensures ok ==> cache == old(cache)[b := x] && dirty <= old(dirty)
      ensures ok ==> bcache.users == old(bcache.users) && bcache.disk == old(bcache.disk)
      ensures ok ==> Lh() == if b in old(Lh()) then old(Lh()) else old(Lh()) + [b]
    {
      ghost var users := bcache.users;
      var i := Take(b, x);
      ok := i.Some?;
      if ok {
        ok := Put(i.value);
        assert ok ==> bcache.users == users;
      }
    }

    /** One try of the loop in `begin_op`; false when the caller goes back to sleep. */
    method TryBegin() returns (entered: bool)
      requires WellFormed()
      modifies this`outstanding
      ensures entered <==> !committing && n + (old(outstanding) + 1) * MAXOPBLOCKS <= LOGBLOCKS
      ensures outstanding == old(outstanding) + if entered then 1 else 0
    {
      if committing {
        return false;
      } else if n + (outstanding + 1) * MAXOPBLOCKS > LOGBLOCKS {
        return false;
      }
      outstanding := outstanding + 1;
      entered := true;
    }

    /** The first critical section of `end_op`: true when the caller has to commit. */
    method FinishOp() returns (ok: bool, doCommit: bool)
      requires WellFormed()
      modifies this`outstanding, this`committing
      ensures outstanding == old(outstanding) - 1
      ensures ok <==> !old(committing)
      ensures ok ==> doCommit == (outstanding == 0) && committing == doCommit
    {
      doCommit := false;
      outstanding := outstanding - 1;
      if committing {
        return false, false;
      }
      if outstanding == 0 {
        doCommit := true;
        committing := true;
      }
      ok := true;
    }

    /** `end_op` by one of the `outstanding` operations; the last one commits. */
    method EndOp() returns (ok: bool)
      requires InOperation() && !committing && outstanding >= 1 && (outstanding == 1 ==> dirty == {})
      modifies this`disk, this`cache, this`trace, this`held, this`at, this`n, this`outstanding, this`committing,
               bcache, bcache.buf, bcache.next, bcache.prev
      ensures outstanding == old(outstanding) - 1
      ensures outstanding > 0 ==>
                && ok && n == old(n) && disk == old(disk) && cache == old(cache) && trace == old(trace)
                && bcache.S() == old(bcache.S())
      ensures outstanding == 0 ==> Ready(old(disk), old(cache), old(Lh()))
      ensures outstanding == 0 ==> trace <= old(trace) + CommitTrace(old(disk), old(cache), old(Lh()))
      ensures SomeFree(old(bcache.S())) ==> ok
      ensures outstanding == 0 && NoUsers(old(bcache.S())) ==> (ok <==> old(n) == 0 || old(n) < bcache.buf.Length)
      ensures ok ==> InOperation() && !committing && bcache.users == old(bcache.users)
      ensures ok && outstanding == 0 ==>
                && n == 0 && trace == old(trace) + CommitTrace(old(disk), old(cache), old(Lh()))
                && SameHome(disk, Disk(start, old(cache)))
                && bcache.Blocks() == bcache.disk && NothingPinned(bcache.S())
    {
      var doCommit;
      ok, doCommit := FinishOp();
      if doCommit {
        ok := Commit();
        if ok {
          committing := false;
        }
      }
    }
  }

  /** `binit`: a cache with nothing in it. */
  method NewCache(nbuf: nat, m: map<B.Key, Block>, ghost dev: nat) returns (bc: B.Cache)
    requires nbuf >= 2 && forall k :: k in m ==> k.dev >= 1
    ensures fresh(bc) && fresh(bc.buf) && fresh(bc.next) && fresh(bc.prev)
    ensures bc.Valid() && bc.disk == m && bc.buf.Length == nbuf
    ensures NoUsers(bc.S()) && TwoFree(bc.S()) && Guarded(bc.S(), dev, [], [])
  {
    bc := new B.Cache(nbuf, m);
    bc.Binit();
    FreshCache(bc.S(), dev);
  }

  /** `binit`, then `initlog` on a device whose log header is sensible. */
  method Initlog(nbuf: nat, m: map<B.Key, Block>, dev: nat, start: nat, ghost blocks: seq<Block>) returns (log: Log)
    requires nbuf >= 2 && dev >= 1 && (forall k :: k in m ==> k.dev >= 1)
    requires Tied(m, dev, blocks) && Valid(Disk(start, blocks))
    ensures log.InOperation() && log.n == 0 && log.outstanding == 0 && !log.committing && log.dirty == {}
    ensures log.disk == Recovered(Disk(start, blocks)) && log.cache == log.disk.blocks
    ensures log.trace == [Disk(start, blocks)] + RecoveryTrace(Disk(start, blocks))
    ensures NoUsers(log.bcache.S()) && log.bcache.buf.Length == nbuf
  {
    var bc := NewCache(nbuf, m, dev);
    log := new Log(bc, dev, start, blocks);
    var ok := log.RecoverFromLog();
  }

  const NBUF := 30

  /** Three operations that together log LOGBLOCKS different blocks. */
  method FillLog(log: Log, x: Block)
    requires log.InOperation() && log.n == 0 && log.outstanding >= 1 && !log.committing && log.dirty == {}
    requires NoUsers(log.bcache.S()) && log.bcache.buf.Length == NBUF
    requires log.start + 2 * LOGBLOCKS < |log.cache|
    modifies log`n, log`held, log`at, log`dirty, log`cache, log.block
    modifies log.bcache, log.bcache.buf, log.bcache.next, log.bcache.prev
    ensures log.InOperation() && log.n == LOGBLOCKS && NoUsers(log.bcache.S()) && log.dirty == {}
  {
    var i := 0;
    while i < LOGBLOCKS
      invariant 0 <= i <= LOGBLOCKS && log.InOperation() && log.n == i && NoUsers(log.bcache.S()) && log.dirty == {}
      invariant forall b :: b in log.Lh() ==> b <= log.start + LOGBLOCKS + i
      invariant |log.cache| == |old(log.cache)|
    {
      var b := log.start + LOGBLOCKS + 1 + i;
      log.InOperationIsReady();
      RoomToCommit(log.bcache.S(), log.dev, log.held, log.at, b);
      FreeAvailable(log.bcache.S(), B.Key(log.dev, b));
      var ok := log.Update(b, x);
      i := i + 1;
    }
  }

  /**
   * There are as many buffers as log blocks, so a full log pins them all: the
   * commit of three operations that log ten different blocks each panics.
   */
  method FullLogPanics(log: Log, x: Block) returns (ok: bool)
    requires log.InOperation() && log.n == 0 && log.outstanding == 0 && !log.committing && log.dirty == {}
    requires NoUsers(log.bcache.S()) && log.bcache.buf.Length == NBUF
    requires log.start + 2 * LOGBLOCKS < |log.cache|
    modifies log, log.block, log.bcache, log.bcache.buf, log.bcache.next, log.bcache.prev
    ensures !ok
  {
    var entered := log.TryBegin();
    entered := log.TryBegin();
    entered := log.TryBegin();
    FillLog(log, x);
    ok := log.EndOp();
    ok := log.EndOp();
    ok := log.EndOp();
  }
}
