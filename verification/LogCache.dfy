/**
 * What the log keeps true of the buffer cache: the pinned buffers are exactly
 * those of the logged blocks, and every other buffer holds what the disk holds.
 */
module LogCache {
  import opened Wrappers
  import opened Bcache

  /** Buffer `q` holds block `b` of device `dev` for the log. */
  ghost predicate PinAt(c: State, dev: nat, b: int, q: int) {
    && 0 <= q < |c.bufs| == |c.pins|
    && c.pins[q] == 1 && b >= 0 && Holds(c.bufs, q, Key(dev, b))
  }

  /** The blocks of the pinned buffers are exactly `ts`; `at[i]` is the buffer of `ts[i]`. */
  ghost predicate PinsAre(c: State, dev: nat, ts: seq<int>, at: seq<int>) {
    && |at| == |ts|
    && Distinct(ts)
    && (forall i :: 0 <= i < |ts| ==> PinAt(c, dev, ts[i], at[i]))
    && (forall q :: 0 <= q < |c.pins| && c.pins[q] > 0 ==> q in at)
  }

  /** Every valid buffer that is not pinned holds what the disk holds. */
  ghost predicate Settled(c: State) {
    forall q :: 0 <= q < |c.bufs| && q < |c.pins| && c.bufs[q].valid && c.pins[q] == 0 && c.bufs[q].key in c.disk ==>
      c.bufs[q].data == c.disk[c.bufs[q].key]
  }

  ghost predicate Opened(c: State) { true }

  /**
   * The invariant of the log: the pinned buffers are those of `ts` and every
   * other buffer is settled.  It is stated of the states that are Opened, so
   * that only the proofs that need it see it.
   */
  ghost predicate Guarded(c: State, dev: nat, ts: seq<int>, at: seq<int>) {
    forall e {:trigger Opened(e)} :: e == c && Opened(e) ==> Settled(e) && PinsAre(e, dev, ts, at)
  }

  /** The buffers in `dirty` are in use, and every other valid buffer that is not pinned is settled. */
  ghost predicate SettledBut(c: State, dirty: set<int>) {
    && (forall q :: q in dirty ==> 0 <= q < |c.users| && c.users[q] > 0)
    && forall q ::
         (0 <= q < |c.bufs| && q < |c.pins| && c.bufs[q].valid && c.pins[q] == 0 && q !in dirty
          && c.bufs[q].key in c.disk) ==>
         c.bufs[q].data == c.disk[c.bufs[q].key]
  }

  /** The invariant while operations have changed the buffers in `dirty` and not logged them yet. */
  ghost predicate Kempt(c: State, dev: nat, ts: seq<int>, at: seq<int>, dirty: set<int>) {
    forall e {:trigger Opened(e)} :: e == c && Opened(e) ==> SettledBut(e, dirty) && PinsAre(e, dev, ts, at)
  }

  lemma KemptIsGuarded(c: State, dev: nat, ts: seq<int>, at: seq<int>)
    ensures Kempt(c, dev, ts, at, {}) <==> Guarded(c, dev, ts, at)
  {
    assert Opened(c);
    assert SettledBut(c, {}) <==> Settled(c);
  }

  lemma KemptIsTidy(c: State, dev: nat, ts: seq<int>, at: seq<int>, dirty: set<int>)
    requires Consistent(c) && Kempt(c, dev, ts, at, dirty)
    ensures Tidy(c)
  {
    assert Opened(c);
  }

  /** Nobody references buffer `q`. */
  ghost predicate Free(c: State, q: int) {
    0 <= q < |c.users| == |c.pins| && c.users[q] == 0 && c.pins[q] == 0
  }

  ghost predicate SomeFree(c: State) {
    exists q :: Free(c, q)
  }

  ghost predicate TwoFree(c: State) {
    exists p, q :: Free(c, p) && Free(c, q) && p != q
  }

  /** There are buffers for an iteration of install_trans: the home block is cached only when it is pinned. */
  ghost predicate Enough(c: State, recovering: bool) {
    if recovering then TwoFree(c) else SomeFree(c)
  }

  /** The first |s| blocks of device `dev` in `m` are `s`. */
  ghost predicate Tied(m: map<Key, Block>, dev: nat, s: seq<Block>) {
    forall b :: 0 <= b < |s| ==> Key(dev, b) in m && m[Key(dev, b)] == s[b]
  }

  lemma GuardedIsTidy(c: State, dev: nat, ts: seq<int>, at: seq<int>)
    requires Consistent(c) && Guarded(c, dev, ts, at)
    ensures Tidy(c) && |at| == |ts|
  {
    assert Opened(c);
  }

  /** When nothing is pinned the cache and the disk agree. */
  lemma SettledView(c: State, dev: nat)
    requires Consistent(c) && Settled(c) && PinsAre(c, dev, [], [])
    ensures View(c.bufs, c.disk) == c.disk
  {
    forall k | k in c.disk ensures ViewAt(c.bufs, c.disk, k) == c.disk[k] {
      var i := Locate(c.bufs, k, 0);
      assert i < |c.bufs| ==> c.pins[i] == 0;
    }
  }

  /** The cache and the disk agree on every block that is not logged. */
  lemma SettledBlock(c: State, dev: nat, ts: seq<int>, at: seq<int>, b: int)
    requires Consistent(c) && Settled(c) && PinsAre(c, dev, ts, at)
    requires 0 <= b && b !in ts && Key(dev, b) in c.disk
    ensures ViewAt(c.bufs, c.disk, Key(dev, b)) == c.disk[Key(dev, b)]
  {
    var q := Locate(c.bufs, Key(dev, b), 0);
    if q < |c.bufs| {
      NotPinned(c, dev, ts, at, b, q);
    }
  }

  /** A buffer of a block that is not logged is not pinned. */
  lemma NotPinned(c: State, dev: nat, ts: seq<int>, at: seq<int>, b: nat, q: int)
    requires Consistent(c) && PinsAre(c, dev, ts, at) && b !in ts
    requires 0 <= q < |c.bufs| && c.bufs[q].key == Key(dev, b)
    ensures c.pins[q] == 0
  {
    forall i | 0 <= i < |at| ensures at[i] != q {
      assert PinAt(c, dev, ts[i], at[i]) && ts[i] in ts;
    }
  }

  /** The buffer of a logged block is the pinned one. */
  lemma LoggedIsPinned(c: State, dev: nat, ts: seq<int>, at: seq<int>, i: int, q: int)
    requires Consistent(c) && PinsAre(c, dev, ts, at) && dev >= 1
    requires 0 <= i < |ts| && ts[i] >= 0 && 0 <= q < |c.bufs| && c.bufs[q].key == Key(dev, ts[i])
    ensures q == at[i] && c.pins[q] == 1 && c.bufs[q].valid
  {
    assert PinAt(c, dev, ts[i], at[i]);
  }

  // ---- Rewriting an unpinned block through the cache ----

  ghost predicate NoOther(bufs: seq<Buf>, i: int, k: Key) {
    forall q :: 0 <= q < |bufs| && q != i ==> bufs[q].key != k
  }

  /** Block `k` is in buffer `i`, both there and on disk with contents `x`. */
  function Rewritten(c: State, i: nat, k: Key, x: Block): State
    requires i < |c.bufs|
  {
    c.(bufs := c.bufs[i := Buf(k, true, c.bufs[i].refcnt, x)], disk := c.disk[k := x])
  }

  lemma RewriteKeeps(c: State, dev: nat, ts: seq<int>, at: seq<int>, i: nat, k: Key, x: Block)
    requires Consistent(c) && Settled(c) && PinsAre(c, dev, ts, at) && k in c.disk
    requires i < |c.bufs| && NoOther(c.bufs, i, k) && (c.bufs[i].key == k || c.bufs[i].refcnt == 0)
    ensures var d := Rewritten(c, i, k, x);
            Consistent(d) && Settled(d) && PinsAre(d, dev, ts, at)
  {
    var d := Rewritten(c, i, k, x);
    assert Consistent(d);
    forall j | 0 <= j < |ts| ensures PinAt(d, dev, ts[j], at[j]) {
      assert PinAt(c, dev, ts[j], at[j]);
    }
  }

  /** The buffer is no longer pinned once its block is on disk. */
  lemma UnpinKeeps(c: State, dev: nat, ts: seq<int>, at: seq<int>)
    requires Consistent(c) && Settled(c) && PinsAre(c, dev, ts, at) && dev >= 1 && ts != []
    requires at[0] >= 0 && at[0] < |c.bufs| && Clean(c, at[0])
    ensures c.pins[at[0]] == 1
    ensures var d := Unpinned(c, at[0]);
            Consistent(d) && Settled(d) && PinsAre(d, dev, ts[1..], at[1..])
  {
    assert PinAt(c, dev, ts[0], at[0]);
    var d := Unpinned(c, at[0]);
    assert Consistent(d);
    forall j | 0 <= j < |ts[1..]| ensures PinAt(d, dev, ts[1..][j], at[1..][j]) {
      assert PinAt(c, dev, ts[j + 1], at[j + 1]);
      assert ts[j + 1] != ts[0];
    }
    forall q | 0 <= q < |d.pins| && d.pins[q] > 0 ensures q in at[1..] {
      assert q in at && q != at[0];
      var j :| 0 <= j < |at| && at[j] == q;
      assert at[1..][j - 1] == q;
    }
  }

  /** Getting a buffer, replacing its data, writing it and letting it go rewrites the block. */
  lemma GetAndWrite(c: State, d: State, dev: nat, ts: seq<int>, at: seq<int>, i: nat, k: Key, x: Block)
    requires Consistent(c) && Guarded(c, dev, ts, at) && k in c.disk && k.dev >= 1 && Got(c, d, i, k) && Consistent(d)
    ensures var e := Released(Written(Modified(d, i, x), i), i);
            e == Rewritten(c, i, k, x) && Guarded(e, dev, ts, at)
  {
    var e := Released(Written(Modified(d, i, x), i), i);
    assert e.users == c.users;
    assert e.bufs == c.bufs[i := Buf(k, true, c.bufs[i].refcnt, x)];
    assert forall q :: 0 <= q < |c.bufs| && q != i ==> d.bufs[q] == c.bufs[q];
    assert Opened(c);
    RewriteKeeps(c, dev, ts, at, i, k, x);
  }

  /** Getting a buffer that holds what the disk holds and letting it go changes nothing that matters. */
  lemma GetAndRelease(c: State, d: State, dev: nat, ts: seq<int>, at: seq<int>, i: nat, k: Key)
    requires Consistent(c) && Guarded(c, dev, ts, at) && k in c.disk && k.dev >= 1 && Got(c, d, i, k) && Consistent(d)
    requires d.bufs[i].data == c.disk[k]
    ensures var e := Released(d, i);
            e.users == c.users && e.pins == c.pins && Guarded(e, dev, ts, at)
  {
    var e := Released(d, i);
    assert e.users == c.users;
    assert e.disk == c.disk[k := c.disk[k]];
    assert e.bufs == c.bufs[i := Buf(k, true, c.bufs[i].refcnt, c.disk[k])];
    assert forall q :: 0 <= q < |c.bufs| && q != i ==> d.bufs[q] == c.bufs[q];
    assert Opened(c);
    RewriteKeeps(c, dev, ts, at, i, k, c.disk[k]);
    assert e == Rewritten(c, i, k, c.disk[k]);
  }

  /** write_log finds the logged block in the cache, whatever buffer it took for the log block. */
  lemma LoggedIsCached(c: State, d: State, dev: nat, ts: seq<int>, at: seq<int>, tail: nat, i: nat, k: Key)
    requires Consistent(c) && PinsAre(c, dev, ts, at) && tail < |ts| && k in c.disk && Got(c, d, i, k)
    requires k.dev == dev ==> k.blockno !in ts
    ensures at[tail] != i && PinAt(d, dev, ts[tail], at[tail]) && d.bufs[at[tail]] == c.bufs[at[tail]]
    ensures Available(d, Key(dev, ts[tail]))
  {
    assert PinAt(c, dev, ts[tail], at[tail]);
    assert ts[tail] in ts;
    assert d.bufs[at[tail]].key == Key(dev, ts[tail]);
  }

  /** Copying buffer `src` into buffer `dst`, writing that, and letting both go. */
  function Copied(c: State, dst: nat, src: nat, first: nat, second: nat): State
    requires dst < |c.bufs| && src < |c.bufs| && first != second
    requires first < |c.bufs| && first < |c.users| && c.users[first] > 0
    requires second < |c.bufs| && second < |c.users| && c.users[second] > 0
  {
    Released(Released(Written(Modified(c, dst, c.bufs[src].data), dst), first), second)
  }

  /** An iteration of write_log rewrites the log block with the cached data of the home block. */
  lemma LogCopied(c: State, d: State, e: State, to: nat, from: nat, k: Key, h: Key)
    requires Consistent(c) && Consistent(d) && Consistent(e) && k in c.disk && h in c.disk && k.dev >= 1
    requires Got(c, d, to, k) && Got(d, e, from, h) && to != from && c.bufs[from].key == h && c.bufs[from].valid
    ensures Copied(e, to, from, from, to) == Rewritten(c, to, k, c.bufs[from].data)
    ensures NoOther(c.bufs, to, k) && (c.bufs[to].key == k || c.bufs[to].refcnt == 0)
  {
    var x := c.bufs[from].data;
    var r := Copied(e, to, from, from, to);
    assert r.users == c.users;
    assert r.bufs == c.bufs[to := Buf(k, true, c.bufs[to].refcnt, x)];
    assert forall q :: 0 <= q < |c.bufs| && q != to ==> d.bufs[q] == c.bufs[q];
  }

  /** Both buffers of an iteration of write_log are there; copying one to the other does what it should. */
  ghost predicate LogReady(c: State, e: State, dev: nat, ts: seq<int>, at: seq<int>, to: int, from: int, k: Key,
                           h: Key) {
    && 0 <= to < |e.bufs| == |e.users| && 0 <= from < |e.bufs| && to != from
    && e.users[to] > 0 && e.users[from] > 0 && Holds(e.bufs, to, k) && Holds(e.bufs, from, h)
    && var r := Copied(e, to, from, from, to);
    && Guarded(r, dev, ts, at) && r.users == c.users && r.pins == c.pins
    && r.disk == c.disk[k := e.bufs[from].data]
  }

  lemma LogStep(c: State, d: State, e: State, dev: nat, ts: seq<int>, at: seq<int>, tail: nat, to: nat, from: nat,
                k: Key)
    requires Consistent(c) && Consistent(d) && Consistent(e) && dev >= 1
    requires Guarded(c, dev, ts, at) && tail < |ts| && ts[tail] >= 0
    requires k in c.disk && Key(dev, ts[tail]) in c.disk && k.dev == dev && k.blockno !in ts
    requires Got(c, d, to, k) && Got(d, e, from, Key(dev, ts[tail]))
    ensures LogReady(c, e, dev, ts, at, to, from, k, Key(dev, ts[tail]))
  {
    assert Opened(c);
    LoggedIsCached(c, d, dev, ts, at, tail, to, k);
    assert from == at[tail];
    LogCopied(c, d, e, to, from, k, Key(dev, ts[tail]));
    RewriteKeeps(c, dev, ts, at, to, k, c.bufs[from].data);
  }

  /** The state after install_trans has copied log block `k` home to `h`. */
  function CopiedHome(c: State, l: nat, d: nat, k: Key, h: Key): State
    requires l < |c.bufs| && d < |c.bufs| && k in c.disk
  {
    Rewritten(Rewritten(c, l, k, c.disk[k]), d, h, c.disk[k])
  }

  lemma InstallGets(c: State, c1: State, c2: State, l: nat, d: nat, k: Key, h: Key)
    requires Consistent(c) && Consistent(c1) && Consistent(c2) && k in c.disk && h in c.disk
    requires k.dev >= 1 && h.dev >= 1 && k != h
    requires Got(c, c1, l, k) && Got(c1, c2, d, h)
    requires Settled(c) && (c.bufs[l].key == k ==> c.pins[l] == 0)
    ensures l != d && c2.bufs[l].data == c.disk[k]
    ensures NoOther(c.bufs, l, k) && (c.bufs[l].key == k || c.bufs[l].refcnt == 0)
    ensures var m := Rewritten(c, l, k, c.disk[k]);
            NoOther(m.bufs, d, h) && (m.bufs[d].key == h || m.bufs[d].refcnt == 0)
  {
    assert forall q :: 0 <= q < |c.bufs| && q != l ==> c1.bufs[q] == c.bufs[q];
    assert forall q :: 0 <= q < |c.bufs| && q != d ==> c2.bufs[q] == c1.bufs[q];
  }

  lemma InstallCopied(c: State, c1: State, c2: State, l: nat, d: nat, k: Key, h: Key)
    requires Consistent(c) && Consistent(c1) && Consistent(c2) && k in c.disk && h in c.disk
    requires l != d && Got(c, c1, l, k) && Got(c1, c2, d, h) && c2.bufs[l].data == c.disk[k]
    ensures Copied(c2, d, l, l, d) == CopiedHome(c, l, d, k, h)
  {
    var r := Copied(c2, d, l, l, d);
    assert r.users == c.users;
    assert r.bufs == CopiedHome(c, l, d, k, h).bufs;
    assert r.disk == CopiedHome(c, l, d, k, h).disk;
  }

  lemma UnpinBefore(c: State, l: nat, d: nat)
    requires Consistent(c) && l < |c.bufs| && d < |c.bufs| && l != d
    requires c.pins[d] > 0 && c.users[l] > 0 && c.users[d] > 0
    ensures Released(Released(Unpinned(c, d), l), d) == Unpinned(Released(Released(c, l), d), d)
  {
    var r := Released(Released(Unpinned(c, d), l), d);
    assert r.bufs == Unpinned(Released(Released(c, l), d), d).bufs;
  }

  /** Everything that holds before an iteration of install_trans holds after it. */
  lemma InstallKeeps(c: State, dev: nat, ts: seq<int>, at: seq<int>, l: nat, d: nat, k: Key, h: Key)
    requires Consistent(c) && Settled(c) && PinsAre(c, dev, ts, at) && k in c.disk && h in c.disk
    requires l < |c.bufs| && d < |c.bufs|
    requires NoOther(c.bufs, l, k) && (c.bufs[l].key == k || c.bufs[l].refcnt == 0)
    requires var m := Rewritten(c, l, k, c.disk[k]);
             NoOther(m.bufs, d, h) && (m.bufs[d].key == h || m.bufs[d].refcnt == 0)
    ensures var r := CopiedHome(c, l, d, k, h);
            Consistent(r) && Settled(r) && PinsAre(r, dev, ts, at)
  {
    RewriteKeeps(c, dev, ts, at, l, k, c.disk[k]);
    RewriteKeeps(Rewritten(c, l, k, c.disk[k]), dev, ts, at, d, h, c.disk[k]);
  }

  /** The first block of `ts` has just been installed from its pinned buffer, which is let go. */
  lemma UnpinInstalled(c: State, dev: nat, ts: seq<int>, at: seq<int>, d: int)
    requires Consistent(c) && Guarded(c, dev, ts, at) && dev >= 1 && ts != [] && ts[0] >= 0
    requires Holds(c.bufs, d, Key(dev, ts[0])) && Clean(c, d)
    ensures |at| == |ts| && d == at[0] && c.pins[d] == 1
    ensures Guarded(Unpinned(c, d), dev, ts[1..], at[1..])
  {
    assert Opened(c);
    LoggedIsPinned(c, dev, ts, at, 0, d);
    UnpinKeeps(c, dev, ts, at);
  }

  /** install_trans lets go of the first pinned block unless it is recovering. */
  function Rest(s: seq<int>, recovering: bool): seq<int> {
    if recovering || s == [] then s else s[1..]
  }

  /** The state after an iteration of install_trans that has got buffers `l` and `d`. */
  function AfterInstall(e: State, l: nat, d: nat, recovering: bool): State
    requires l < |e.bufs| == |e.users| == |e.pins| && d < |e.bufs| && l != d
    requires e.users[l] > 0 && e.users[d] > 0 && (recovering || e.pins[d] > 0)
  {
    var r := Copied(e, d, l, l, d);
    if recovering then r else Unpinned(r, d)
  }

  /** Both buffers of an iteration of install_trans are there; copying one to the other does what it should. */
  ghost predicate InstallReady(c: State, e: State, dev: nat, ts: seq<int>, at: seq<int>,
                               l: int, d: int, k: Key, h: Key, recovering: bool) {
    && 0 <= l < |e.bufs| == |e.users| == |e.pins| && 0 <= d < |e.bufs| && l != d && k in c.disk
    && e.users[l] > 0 && e.users[d] > 0 && Holds(e.bufs, l, k) && Holds(e.bufs, d, h)
    && e.bufs[l].data == c.disk[k] && (recovering || e.pins[d] > 0)
    && var r := AfterInstall(e, l, d, recovering);
    && Guarded(r, dev, Rest(ts, recovering), Rest(at, recovering)) && r.users == c.users
    && r.disk == c.disk[h := c.disk[k]]
    && (Enough(c, recovering) ==> Enough(r, recovering))
  }

  lemma InstallMoves(c: State, c1: State, c2: State, dev: nat, ts: seq<int>, at: seq<int>, l: nat, d: nat, k: Key,
                     h: Key)
    requires Consistent(c) && Consistent(c1) && Consistent(c2) && dev >= 1 && Guarded(c, dev, ts, at)
    requires k in c.disk && h in c.disk && k.dev == dev && h.dev == dev && k != h && k.blockno !in ts
    requires Got(c, c1, l, k) && Got(c1, c2, d, h)
    ensures l != d && c2.bufs[l].data == c.disk[k]
    ensures var r := Copied(c2, d, l, l, d);
            r == CopiedHome(c, l, d, k, h) && Consistent(r) && Guarded(r, dev, ts, at)
  {
    assert Opened(c);
    if c.bufs[l].key == k {
      NotPinned(c, dev, ts, at, k.blockno, l);
    }
    InstallGets(c, c1, c2, l, d, k, h);
    InstallCopied(c, c1, c2, l, d, k, h);
    InstallKeeps(c, dev, ts, at, l, d, k, h);
  }

  lemma InstallStep(c: State, c1: State, c2: State, dev: nat, ts: seq<int>, at: seq<int>,
                    l: nat, d: nat, k: Key, h: Key, recovering: bool)
    requires Consistent(c) && Consistent(c1) && Consistent(c2) && dev >= 1 && Guarded(c, dev, ts, at)
    requires k in c.disk && h in c.disk && k.dev == dev && h.dev == dev && k != h && k.blockno !in ts
    requires if recovering then ts == [] && at == [] else ts != [] && h.blockno == ts[0]
    requires Got(c, c1, l, k) && Got(c1, c2, d, h)
    ensures InstallReady(c, c2, dev, ts, at, l, d, k, h, recovering)
  {
    InstallMoves(c, c1, c2, dev, ts, at, l, d, k, h);
    var r := Copied(c2, d, l, l, d);
    assert r.users == c.users && r.pins == c.pins;
    assert r.disk == c.disk[h := c.disk[k]];
    if !recovering {
      UnpinInstalled(r, dev, ts, at, d);
    }
    SameFree(c, AfterInstall(c2, l, d, recovering));
  }

  // ---- log_write ----

  /** Getting a buffer leaves those that are changed and not logged as they are. */
  lemma GotIsKempt(c: State, d: State, dev: nat, ts: seq<int>, at: seq<int>, dirty: set<int>, i: nat, k: Key)
    requires Consistent(c) && Kempt(c, dev, ts, at, dirty) && k in c.disk && Got(c, d, i, k)
    ensures Kempt(d, dev, ts, at, dirty)
  {
    assert Opened(c);
    forall j | 0 <= j < |ts| ensures PinAt(d, dev, ts[j], at[j]) {
      assert PinAt(c, dev, ts[j], at[j]);
    }
    assert PinsAre(d, dev, ts, at);
    assert SettledBut(d, dirty);
  }

  /** A buffer in use that is changed counts as changed and not logged. */
  lemma ChangedIsKempt(c: State, dev: nat, ts: seq<int>, at: seq<int>, dirty: set<int>, i: nat, x: Block)
    requires Consistent(c) && Kempt(c, dev, ts, at, dirty) && i < |c.bufs| && c.users[i] > 0
    ensures Kempt(Modified(c, i, x), dev, ts, at, dirty + {i})
  {
    var e := Modified(c, i, x);
    assert Opened(c);
    forall j | 0 <= j < |ts| ensures PinAt(e, dev, ts[j], at[j]) {
      assert PinAt(c, dev, ts[j], at[j]);
    }
    assert PinsAre(e, dev, ts, at);
    assert SettledBut(e, dirty + {i});
  }

  lemma PinsMore(c: State, dev: nat, ts: seq<int>, at: seq<int>, b: nat, i: nat)
    requires Consistent(c) && PinsAre(c, dev, ts, at) && b !in ts
    requires i < |c.bufs| && Holds(c.bufs, i, Key(dev, b))
    ensures c.pins[i] == 0 && PinsAre(Pinned(c, i), dev, ts + [b], at + [i])
  {
    NotPinned(c, dev, ts, at, b, i);
    var d := Pinned(c, i);
    forall j | 0 <= j < |ts + [b]| ensures PinAt(d, dev, (ts + [b])[j], (at + [i])[j]) {
      assert j < |ts| ==> PinAt(c, dev, ts[j], at[j]);
    }
    forall q | 0 <= q < |d.pins| && d.pins[q] > 0 ensures q in at + [i] {
      assert q != i ==> q in at;
    }
  }

  /** Logging a new block pins its buffer, which was not pinned, and it no longer counts as not logged. */
  lemma LogNew(c: State, dev: nat, ts: seq<int>, at: seq<int>, dirty: set<int>, b: nat, i: nat)
    requires Consistent(c) && Kempt(c, dev, ts, at, dirty) && b !in ts
    requires i < |c.bufs| && Holds(c.bufs, i, Key(dev, b))
    ensures c.pins[i] == 0 && Kempt(Pinned(c, i), dev, ts + [b], at + [i], dirty - {i})
  {
    assert Opened(c);
    PinsMore(c, dev, ts, at, b, i);
    assert SettledBut(Pinned(c, i), dirty - {i});
  }

  /** A buffer of a block already logged is already pinned. */
  lemma LogAgain(c: State, dev: nat, ts: seq<int>, at: seq<int>, dirty: set<int>, b: nat, i: nat)
    requires Consistent(c) && Kempt(c, dev, ts, at, dirty) && dev >= 1 && b in ts
    requires i < |c.bufs| && Holds(c.bufs, i, Key(dev, b))
    ensures c.pins[i] == 1 && Kempt(c, dev, ts, at, dirty - {i})
  {
    assert Opened(c);
    var j :| 0 <= j < |ts| && ts[j] == b;
    LoggedIsPinned(c, dev, ts, at, j, i);
  }

  /** A buffer that is not changed, or has been logged, can be let go. */
  lemma LetGo(c: State, dev: nat, ts: seq<int>, at: seq<int>, dirty: set<int>, i: nat)
    requires Consistent(c) && Kempt(c, dev, ts, at, dirty) && i < |c.bufs| && c.users[i] > 0
    requires i !in dirty || c.users[i] > 1
    ensures Kempt(Released(c, i), dev, ts, at, dirty)
  {
    assert Opened(c);
    var d := Released(c, i);
    forall j | 0 <= j < |ts| ensures PinAt(d, dev, ts[j], at[j]) {
      assert PinAt(c, dev, ts[j], at[j]);
    }
    assert PinsAre(d, dev, ts, at);
    assert SettledBut(d, dirty);
  }

  // ---- When bread finds a buffer ----

  lemma SameFree(c: State, d: State)
    requires c.users == d.users && |c.pins| == |d.pins|
    requires forall q :: 0 <= q < |c.pins| && c.pins[q] == 0 ==> d.pins[q] == 0
    ensures SomeFree(c) ==> SomeFree(d)
    ensures TwoFree(c) ==> TwoFree(d) && SomeFree(d)
  {
    if SomeFree(c) {
      var q :| Free(c, q);
      assert Free(d, q);
    }
    if TwoFree(c) {
      var p, q :| Free(c, p) && Free(c, q) && p != q;
      assert Free(d, p) && Free(d, q);
    }
  }

  lemma FreeAvailable(c: State, k: Key)
    requires Consistent(c)
    ensures SomeFree(c) ==> Available(c, k)
    ensures TwoFree(c) ==> SomeFree(c)
  {
    if SomeFree(c) {
      var q :| Free(c, q);
      assert c.bufs[q].refcnt == 0;
    }
  }

  lemma EnoughAvailable(c: State, recovering: bool, k: Key)
    requires Consistent(c)
    ensures Enough(c, recovering) ==> Available(c, k) && SomeFree(c)
  {
    FreeAvailable(c, k);
  }

  /** After one bread there is a buffer for a pinned block, and for any block if two were free. */
  lemma SecondAvailable(c: State, d: State, dev: nat, ts: seq<int>, at: seq<int>, i: nat, k: Key, h: Key)
    requires Consistent(c) && Consistent(d) && Guarded(c, dev, ts, at) && k in c.disk && Got(c, d, i, k)
    requires k.dev == dev && h.dev == dev && k.blockno !in ts
    ensures TwoFree(c) || h.blockno in ts ==> Available(d, h)
  {
    assert Opened(c);
    if h.blockno in ts {
      var j :| 0 <= j < |ts| && ts[j] == h.blockno;
      LoggedIsCached(c, d, dev, ts, at, j, i, k);
    } else if TwoFree(c) {
      var p, q :| Free(c, p) && Free(c, q) && p != q;
      assert d.bufs[if p == i then q else p].refcnt == 0;
    }
  }

  function Range(n: nat): (r: set<int>)
    ensures |r| == n && forall q :: q in r <==> 0 <= q < n
  {
    if n == 0 then {} else Range(n - 1) + {n - 1}
  }

  /** Distinct elements of a set are no more than the set has. */
  lemma {:induction false} DistinctBound(s: seq<int>, a: set<int>)
    requires forall i :: 0 <= i < |s| ==> s[i] in a
    requires Distinct(s)
    ensures |s| <= |a|
  {
    if s != [] {
      var n := |s| - 1;
      DistinctBound(s[..n], a - {s[n]});
    }
  }

  /** A sequence that lists 0 to n - 1 has at least n elements. */
  lemma {:induction false} CoverBound(n: nat, s: seq<int>)
    requires forall q :: 0 <= q < n ==> q in s
    ensures n <= |s|
  {
    if n > 0 {
      assert n - 1 in s;
      var j :| 0 <= j < |s| && s[j] == n - 1;
      var rest := s[..j] + s[j + 1..];
      forall q | 0 <= q < n - 1 ensures q in rest {
        assert q in s;
        assert s == s[..j] + [s[j]] + s[j + 1..];
      }
      CoverBound(n - 1, rest);
    }
  }

  /** With no users a buffer is free as long as fewer blocks are logged than there are buffers. */
  lemma FreeLeft(c: State, dev: nat, ts: seq<int>, at: seq<int>)
    requires Consistent(c) && PinsAre(c, dev, ts, at) && |ts| < |c.bufs|
    requires NoUsers(c)
    ensures SomeFree(c)
  {
    if forall q :: 0 <= q < |c.bufs| ==> q in at {
      CoverBound(|c.bufs|, at);
      assert false;
    }
    var q :| 0 <= q < |c.bufs| && q !in at;
    assert Free(c, q);
  }

  lemma Pigeonhole(s: seq<int>, n: nat, q: int)
    requires |s| == n && 0 <= q < n
    requires forall i :: 0 <= i < |s| ==> 0 <= s[i] < n
    requires Distinct(s)
    ensures q in s
  {
    if q !in s {
      DistinctBound(s, Range(n) - {q});
    }
  }

  /** No more blocks are logged than there are buffers; when there are as many, every buffer is pinned. */
  lemma EveryPinned(c: State, dev: nat, ts: seq<int>, at: seq<int>, q: int)
    requires PinsAre(c, dev, ts, at) && |ts| >= |c.bufs| && 0 <= q < |c.bufs|
    ensures q in at
  {
    forall i | 0 <= i < |at| ensures 0 <= at[i] < |c.bufs| {
      assert PinAt(c, dev, ts[i], at[i]);
    }
    forall i, j | 0 <= i < j < |at| ensures at[i] != at[j] {
      assert PinAt(c, dev, ts[i], at[i]) && PinAt(c, dev, ts[j], at[j]) && ts[i] != ts[j];
    }
    DistinctBound(at, Range(|c.bufs|));
    Pigeonhole(at, |c.bufs|, q);
  }

  /** With every buffer pinned no block outside the log's can be read. */
  lemma NoneAvailable(c: State, dev: nat, ts: seq<int>, at: seq<int>, b: nat)
    requires Consistent(c) && PinsAre(c, dev, ts, at) && |ts| >= |c.bufs| && b !in ts
    ensures !Available(c, Key(dev, b))
  {
    forall q | 0 <= q < |c.bufs| ensures c.bufs[q].refcnt != 0 && c.bufs[q].key != Key(dev, b) {
      EveryPinned(c, dev, ts, at, q);
      var i :| 0 <= i < |at| && at[i] == q;
      assert PinAt(c, dev, ts[i], at[i]) && ts[i] in ts;
    }
  }

  ghost predicate NothingPinned(c: State) {
    forall q :: 0 <= q < |c.pins| ==> c.pins[q] == 0
  }

  ghost predicate NoUsers(c: State) {
    forall q :: 0 <= q < |c.users| ==> c.users[q] == 0
  }

  /** With no users there is a buffer for another block exactly when some buffer is not pinned. */
  lemma RoomToCommit(c: State, dev: nat, ts: seq<int>, at: seq<int>, b: nat)
    requires Consistent(c) && Guarded(c, dev, ts, at) && NoUsers(c) && b !in ts
    ensures |ts| < |c.bufs| ==> SomeFree(c)
    ensures |ts| >= |c.bufs| ==> !Available(c, Key(dev, b))
  {
    assert Opened(c);
    if |ts| < |c.bufs| {
      FreeLeft(c, dev, ts, at);
    } else {
      NoneAvailable(c, dev, ts, at, b);
    }
  }

  /** A cache just set up holds nothing and pins nothing, and has two free buffers if it has two. */
  lemma FreshCache(c: State, dev: nat)
    requires Consistent(c) && NoUsers(c) && NothingPinned(c)
    requires forall q :: 0 <= q < |c.bufs| ==> !c.bufs[q].valid
    ensures Guarded(c, dev, [], [])
    ensures |c.bufs| >= 2 ==> TwoFree(c)
  {
    if |c.bufs| >= 2 {
      assert Free(c, 0) && Free(c, 1);
    }
  }
}
