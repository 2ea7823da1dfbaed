/**
 * The on-disk redo log of kernel/log.c: commit, recovery and crashes.
 *
 * The disk is a sequence of blocks that changes by one atomic block write at a
 * time.  A trace is the sequence of disks after each write, so "a crash between
 * any two writes of commit" is any element of the trace of commit.
 */
module RedoLog {

  const MAXOPBLOCKS := 10
  const LOGBLOCKS := 30
  const WORDS := 256   // 32-bit words in a block

  /** A disk block as 32-bit words; the log header is words 0 (count) and 1.. (block numbers). */
  type Block = b: seq<int> | |b| == WORDS witness seq(WORDS, _ => 0)

  /** A disk whose log header is block `start`, followed by LOGBLOCKS log blocks. */
  datatype Disk = Disk(start: nat, blocks: seq<Block>)

  ghost predicate Layout(d: Disk) { d.start + LOGBLOCKS < |d.blocks| }

  predicate IsHome(d: Disk, b: int) {
    0 <= b < |d.blocks| && !(d.start <= b <= d.start + LOGBLOCKS)
  }

  function Count(d: Disk): int
    requires Layout(d)
  {
    d.blocks[d.start][0]
  }

  /** The header is sensible: a count in range and targets outside the log. */
  ghost predicate Valid(d: Disk) {
    && Layout(d)
    && 0 <= Count(d) <= LOGBLOCKS
    && forall i :: 0 <= i < Count(d) ==> IsHome(d, Target(d, i))
  }

  function Target(d: Disk, i: int): int
    requires Layout(d) && 0 <= i < LOGBLOCKS
  {
    d.blocks[d.start][1 + i]
  }

  /** The block numbers that the header lists. */
  function Targets(d: Disk): seq<int>
    requires Layout(d) && 0 <= Count(d) <= LOGBLOCKS
  {
    d.blocks[d.start][1..1 + Count(d)]
  }

  function SlotData(d: Disk, i: int): Block
    requires Layout(d) && 0 <= i < LOGBLOCKS
  {
    d.blocks[d.start + 1 + i]
  }

  function Write(d: Disk, b: int, x: Block): Disk
    requires 0 <= b < |d.blocks|
  {
    d.(blocks := d.blocks[b := x])
  }

  /** The two disks have the same shape and the same log, header included. */
  ghost predicate SameLog(d: Disk, e: Disk)
    requires Layout(d)
  {
    && d.start == e.start && |d.blocks| == |e.blocks|
    && forall b :: d.start <= b <= d.start + LOGBLOCKS ==> d.blocks[b] == e.blocks[b]
  }

  /** The two disks agree on every block outside the log. */
  ghost predicate SameHome(d: Disk, e: Disk) {
    && d.start == e.start && |d.blocks| == |e.blocks|
    && forall b :: IsHome(d, b) ==> d.blocks[b] == e.blocks[b]
  }

  lemma SameLogFacts(d: Disk, e: Disk)
    requires Valid(d) && SameLog(d, e)
    ensures Valid(e) && Count(e) == Count(d)
    ensures forall i :: 0 <= i < Count(d) ==> Target(e, i) == Target(d, i) && SlotData(e, i) == SlotData(d, i)
  {
    assert forall i :: 0 <= i < Count(d) ==> Target(e, i) == Target(d, i);
  }

  // ---- Installing the log ----

  /** The disk after installing the first `k` logged blocks. */
  function Installed(d: Disk, k: nat): (r: Disk)
    requires Valid(d) && k <= Count(d)
    ensures r.start == d.start && |r.blocks| == |d.blocks|
  {
    if k == 0 then d else Write(Installed(d, k - 1), Target(d, k - 1), SlotData(d, k - 1))
  }

  lemma {:induction false} InstallKeepsLog(d: Disk, k: nat)
    requires Valid(d) && k <= Count(d)
    ensures SameLog(d, Installed(d, k)) && Valid(Installed(d, k)) && Count(Installed(d, k)) == Count(d)
    decreases k
  {
    if k > 0 { InstallKeepsLog(d, k - 1); }
    SameLogFacts(d, Installed(d, k));
  }

  /** The state the disk stands for: its home blocks with the committed log applied. */
  function Logical(d: Disk): Disk
    requires Valid(d)
  {
    Installed(d, Count(d))
  }

  /** The contents of home block `b` after `k` installs, found by looking at the log only. */
  function ValueAt(d: Disk, k: nat, b: int): Block
    requires Valid(d) && k <= Count(d) && IsHome(d, b)
  {
    if k == 0 then d.blocks[b]
    else if Target(d, k - 1) == b then SlotData(d, k - 1)
    else ValueAt(d, k - 1, b)
  }

  predicate Named(d: Disk, k: nat, b: int)
    requires Layout(d) && k <= LOGBLOCKS
  {
    k > 0 && (Target(d, k - 1) == b || Named(d, k - 1, b))
  }

  lemma {:induction false} InstalledValue(d: Disk, k: nat, b: int)
    requires Valid(d) && k <= Count(d) && IsHome(d, b)
    ensures Installed(d, k).blocks[b] == ValueAt(d, k, b)
    decreases k
  {
    if k > 0 { InstalledValue(d, k - 1, b); }
  }

  lemma {:induction false} UnnamedValue(d: Disk, k: nat, b: int)
    requires Valid(d) && k <= Count(d) && IsHome(d, b) && !Named(d, k, b)
    ensures ValueAt(d, k, b) == d.blocks[b]
    decreases k
  {
    if k > 0 { UnnamedValue(d, k - 1, b); }
  }

  lemma {:induction false} NamedValue(d: Disk, e: Disk, k: nat, b: int)
    requires Valid(d) && SameLog(d, e) && k <= Count(d) && IsHome(d, b)
    ensures Valid(e) && Count(e) == Count(d)
    ensures Named(e, k, b) == Named(d, k, b)
    ensures Named(d, k, b) ==> ValueAt(e, k, b) == ValueAt(d, k, b)
    decreases k
  {
    SameLogFacts(d, e);
    if k > 0 { NamedValue(d, e, k - 1, b); }
  }

  lemma {:induction false} NamedGrows(d: Disk, j: nat, k: nat, b: int)
    requires Layout(d) && j <= k <= LOGBLOCKS && Named(d, j, b)
    ensures Named(d, k, b)
    decreases k
  {
    if j < k { NamedGrows(d, j, k - 1, b); }
  }

  /** Installing part of the log does not change the state the disk stands for. */
  lemma PartialInstall(d: Disk, k: nat)
    requires Valid(d) && k <= Count(d)
    ensures Valid(Installed(d, k)) && SameHome(Logical(Installed(d, k)), Logical(d))
  {
    var e, n := Installed(d, k), Count(d);
    InstallKeepsLog(d, k);
    forall b | IsHome(d, b) ensures Logical(e).blocks[b] == Logical(d).blocks[b] {
      InstalledValue(d, n, b);
      InstalledValue(e, n, b);
      NamedValue(d, e, n, b);
      if !Named(d, n, b) {
        UnnamedValue(d, n, b);
        UnnamedValue(e, n, b);
        InstalledValue(d, k, b);
        if Named(d, k, b) { NamedGrows(d, k, n, b); }
        UnnamedValue(d, k, b);
      }
    }
  }

  // ---- The header ----

  /** `write_head` overwrites the count and the first entries and keeps the stale rest. */
  function HeaderWith(was: Block, ts: seq<int>): Block
    requires |ts| <= LOGBLOCKS
  {
    [|ts|] + ts + was[1 + |ts|..]
  }

  function Headed(d: Disk, ts: seq<int>): Disk
    requires Layout(d) && |ts| <= LOGBLOCKS
  {
    Write(d, d.start, HeaderWith(d.blocks[d.start], ts))
  }

  ghost predicate AllHome(d: Disk, ts: seq<int>) {
    forall i :: 0 <= i < |ts| ==> IsHome(d, ts[i])
  }

  lemma HeadedFacts(d: Disk, ts: seq<int>)
    requires Layout(d) && |ts| <= LOGBLOCKS && AllHome(d, ts)
    ensures var e := Headed(d, ts);
            && Valid(e) && Count(e) == |ts|
            && (forall i :: 0 <= i < |ts| ==> Target(e, i) == ts[i] && SlotData(e, i) == SlotData(d, i))
            && (forall b :: IsHome(d, b) ==> e.blocks[b] == d.blocks[b])
  {
  }

  lemma HeadedTargets(d: Disk, ts: seq<int>)
    requires Layout(d) && |ts| <= LOGBLOCKS && AllHome(d, ts)
    ensures Valid(Headed(d, ts)) && Targets(Headed(d, ts)) == ts
  {
    HeadedFacts(d, ts);
  }

  /** Clearing the header of an installed log leaves exactly the logical state. */
  lemma ClearInstalled(d: Disk)
    requires Valid(d)
    ensures var e := Headed(Logical(d), []);
            && Valid(e) && Count(e) == 0
            && SameHome(e, Logical(d)) && Logical(e) == e
  {
    InstallKeepsLog(d, Count(d));
    HeadedFacts(Logical(d), []);
  }

  // ---- Recovery and crashes during recovery ----

  /** The disks seen while installing the first `k` blocks, one per write. */
  function InstallTrace(d: Disk, k: nat): seq<Disk>
    requires Valid(d) && k <= Count(d)
  {
    if k == 0 then [] else InstallTrace(d, k - 1) + [Installed(d, k)]
  }

  lemma LogicalLayout(d: Disk)
    requires Valid(d)
    ensures Layout(Logical(d)) && Valid(Logical(d))
  {
    InstallKeepsLog(d, Count(d));
  }

  function Recovered(d: Disk): Disk
    requires Valid(d)
  {
    LogicalLayout(d);
    Headed(Logical(d), [])
  }

  function RecoveryTrace(d: Disk): seq<Disk>
    requires Valid(d)
  {
    InstallTrace(d, Count(d)) + [Recovered(d)]
  }

  lemma {:induction false} InstallTraceAt(d: Disk, k: nat, i: nat)
    requires Valid(d) && k <= Count(d)
    ensures |InstallTrace(d, k)| == k
    ensures i < k ==> InstallTrace(d, k)[i] == Installed(d, i + 1)
    decreases k
  {
    if k > 0 { InstallTraceAt(d, k - 1, i); }
  }

  /** The disks a recovery of `d` can leave behind if the machine stops during it. */
  ghost predicate CrashDuringRecovery(d: Disk, e: Disk)
    requires Valid(d)
  {
    e == d || e in RecoveryTrace(d)
  }

  lemma CrashKeepsLogical(d: Disk, e: Disk)
    requires Valid(d) && CrashDuringRecovery(d, e)
    ensures Valid(e) && SameHome(Logical(e), Logical(d))
  {
    if e in RecoveryTrace(d) {
      var i :| 0 <= i < |RecoveryTrace(d)| && RecoveryTrace(d)[i] == e;
      InstallTraceAt(d, Count(d), i);
      if i < Count(d) {
        PartialInstall(d, i + 1);
      } else {
        ClearInstalled(d);
      }
    }
  }

  /** `ds` is a sequence of boots in which every recovery but the last was cut short. */
  ghost predicate CrashChain(ds: seq<Disk>)
    decreases |ds|
  {
    && ds != []
    && Valid(ds[0])
    && (|ds| > 1 ==> CrashDuringRecovery(ds[0], ds[1]) && CrashChain(ds[1..]))
  }

  /** Recovery reaches the same state however often it is interrupted and restarted. */
  lemma {:induction false} RecoveryIsIdempotent(ds: seq<Disk>)
    requires CrashChain(ds)
    ensures var last := ds[|ds| - 1];
            && Valid(last) && Count(Recovered(last)) == 0
            && SameHome(Recovered(last), Logical(ds[0]))
    decreases |ds|
  {
    if |ds| == 1 {
      ClearInstalled(ds[0]);
    } else {
      CrashKeepsLogical(ds[0], ds[1]);
      RecoveryIsIdempotent(ds[1..]);
    }
  }

  // ---- Commit ----

  /** What commit starts from: an empty log on disk, and a cache that differs from it only in `ts`. */
  ghost predicate Ready(d: Disk, cache: seq<Block>, ts: seq<int>) {
    && Valid(d) && Count(d) == 0
    && |cache| == |d.blocks|
    && |ts| <= LOGBLOCKS && AllHome(d, ts)
    && forall b :: 0 <= b < |cache| && b !in ts ==> cache[b] == d.blocks[b]
  }

  /** The disk after write_log has copied the first `k` cached blocks into the log. */
  function Logged(d: Disk, cache: seq<Block>, ts: seq<int>, k: nat): (r: Disk)
    requires Layout(d) && |cache| == |d.blocks| && k <= |ts| <= LOGBLOCKS && AllHome(d, ts)
    ensures r.start == d.start && |r.blocks| == |d.blocks|
  {
    if k == 0 then d else Write(Logged(d, cache, ts, k - 1), d.start + k, cache[ts[k - 1]])
  }

  lemma {:induction false} LoggedFacts(d: Disk, cache: seq<Block>, ts: seq<int>, k: nat)
    requires Layout(d) && |cache| == |d.blocks| && k <= |ts| <= LOGBLOCKS && AllHome(d, ts)
    ensures var r := Logged(d, cache, ts, k);
            && (forall b :: 0 <= b < |d.blocks| && !(d.start < b <= d.start + k) ==> r.blocks[b] == d.blocks[b])
            && (forall i :: 0 <= i < k ==> SlotData(r, i) == cache[ts[i]])
    decreases k
  {
    if k > 0 { LoggedFacts(d, cache, ts, k - 1); }
  }

  function LogTrace(d: Disk, cache: seq<Block>, ts: seq<int>, k: nat): seq<Disk>
    requires Layout(d) && |cache| == |d.blocks| && k <= |ts| <= LOGBLOCKS && AllHome(d, ts)
  {
    if k == 0 then [] else LogTrace(d, cache, ts, k - 1) + [Logged(d, cache, ts, k)]
  }

  /** The disk at the commit point: the log is written and the header names it. */
  function Committed(d: Disk, cache: seq<Block>, ts: seq<int>): Disk
    requires Layout(d) && |cache| == |d.blocks| && |ts| <= LOGBLOCKS && AllHome(d, ts)
  {
    Headed(Logged(d, cache, ts, |ts|), ts)
  }

  lemma {:induction false} LogTraceAt(d: Disk, cache: seq<Block>, ts: seq<int>, k: nat, i: nat)
    requires Layout(d) && |cache| == |d.blocks| && k <= |ts| <= LOGBLOCKS && AllHome(d, ts)
    ensures |LogTrace(d, cache, ts, k)| == k
    ensures i < k ==> LogTrace(d, cache, ts, k)[i] == Logged(d, cache, ts, i + 1)
    decreases k
  {
    if k > 0 { LogTraceAt(d, cache, ts, k - 1, i); }
  }

  lemma {:induction false} OverlayValue(e: Disk, cache: seq<Block>, k: nat, b: int)
    requires Valid(e) && |cache| == |e.blocks| && k <= Count(e) && IsHome(e, b) && Named(e, k, b)
    requires forall i :: 0 <= i < Count(e) ==> SlotData(e, i) == cache[Target(e, i)]
    ensures ValueAt(e, k, b) == cache[b]
    decreases k
  {
    if Target(e, k - 1) != b { OverlayValue(e, cache, k - 1, b); }
  }

  lemma {:induction false} NamedIsTarget(e: Disk, ts: seq<int>, k: nat, b: int)
    requires Layout(e) && k <= |ts| <= LOGBLOCKS
    requires forall i :: 0 <= i < |ts| ==> Target(e, i) == ts[i]
    ensures Named(e, k, b) <==> b in ts[..k]
    decreases k
  {
    if k > 0 {
      NamedIsTarget(e, ts, k - 1, b);
      assert ts[..k] == ts[..k - 1] + [ts[k - 1]];
    }
  }

  lemma CommitValue(e: Disk, cache: seq<Block>, ts: seq<int>, b: int)
    requires Valid(e) && |cache| == |e.blocks| && Count(e) == |ts| && IsHome(e, b)
    requires forall i :: 0 <= i < |ts| ==> Target(e, i) == ts[i] && SlotData(e, i) == cache[ts[i]]
    requires b !in ts ==> e.blocks[b] == cache[b]
    ensures Logical(e).blocks[b] == cache[b]
  {
    var n := |ts|;
    InstalledValue(e, n, b);
    NamedIsTarget(e, ts, n, b);
    assert ts[..n] == ts;
    if Named(e, n, b) {
      OverlayValue(e, cache, n, b);
    } else {
      UnnamedValue(e, n, b);
    }
  }

  /** At the commit point the disk stands for the whole cache. */
  lemma CommitPoint(d: Disk, cache: seq<Block>, ts: seq<int>)
    requires Ready(d, cache, ts)
    ensures var e := Committed(d, cache, ts);
            && Valid(e) && Count(e) == |ts| && SameHome(Logical(e), Disk(d.start, cache))
  {
    var e := Committed(d, cache, ts);
    LoggedFacts(d, cache, ts, |ts|);
    HeadedFacts(Logged(d, cache, ts, |ts|), ts);
    forall b | IsHome(d, b) ensures Logical(e).blocks[b] == cache[b] {
      CommitValue(e, cache, ts, b);
    }
  }

  /** Every disk that commit writes, in order. */
  function CommitTrace(d: Disk, cache: seq<Block>, ts: seq<int>): seq<Disk>
    requires Ready(d, cache, ts)
  {
    if ts == [] then []
    else
      CommitPoint(d, cache, ts);
      var e := Committed(d, cache, ts);
      LogTrace(d, cache, ts, |ts|) + [e] + RecoveryTrace(e)
  }

  /** While the log is being written the header is still empty, so nothing has happened. */
  lemma LoggedIsOld(d: Disk, cache: seq<Block>, ts: seq<int>, k: nat)
    requires Ready(d, cache, ts) && k <= |ts|
    ensures var e := Logged(d, cache, ts, k); Valid(e) && Count(e) == 0 && SameHome(Logical(e), d)
  {
    LoggedFacts(d, cache, ts, k);
  }

  /** From the commit point on, every disk stands for the new state. */
  lemma AfterCommitPoint(d: Disk, cache: seq<Block>, ts: seq<int>, e: Disk)
    requires Ready(d, cache, ts) && ts != [] && Valid(Committed(d, cache, ts))
    requires CrashDuringRecovery(Committed(d, cache, ts), e)
    ensures Valid(e) && SameHome(Logical(e), Disk(d.start, cache))
  {
    CommitPoint(d, cache, ts);
    CrashKeepsLogical(Committed(d, cache, ts), e);
  }

  /** A crash between any two writes of commit leaves the old state or the new one, never a mix. */
  lemma CommitIsAtomic(d: Disk, cache: seq<Block>, ts: seq<int>, i: nat)
    requires Ready(d, cache, ts) && i < |CommitTrace(d, cache, ts)|
    ensures var e := CommitTrace(d, cache, ts)[i];
            && Valid(e)
            && (i < |ts| ==> SameHome(Logical(e), d))
            && (i >= |ts| ==> SameHome(Logical(e), Disk(d.start, cache)))
  {
    LogTraceAt(d, cache, ts, |ts|, i);
    CommitPoint(d, cache, ts);
    var e := CommitTrace(d, cache, ts)[i];
    if i < |ts| {
      LoggedIsOld(d, cache, ts, i + 1);
    } else {
      assert CrashDuringRecovery(Committed(d, cache, ts), e);
      AfterCommitPoint(d, cache, ts, e);
    }
  }

  /**
   * Crash atomicity.  Stop commit before any write or after the last one, then
   * stop any number of recoveries at any point, then let one finish: the home
   * blocks are those of before the commit or those of the cache, and the log
   * on disk is empty.
   */
  lemma CrashAtomicity(d: Disk, cache: seq<Block>, ts: seq<int>, ds: seq<Disk>)
    requires Ready(d, cache, ts) && CrashChain(ds)
    requires ds[0] == d || ds[0] in CommitTrace(d, cache, ts)
    ensures var last := ds[|ds| - 1];
            && Valid(last) && Count(Recovered(last)) == 0
            && (SameHome(Recovered(last), d) || SameHome(Recovered(last), Disk(d.start, cache)))
  {
    RecoveryIsIdempotent(ds);
    if ds[0] in CommitTrace(d, cache, ts) {
      var i :| 0 <= i < |CommitTrace(d, cache, ts)| && CommitTrace(d, cache, ts)[i] == ds[0];
      CommitIsAtomic(d, cache, ts, i);
    }
  }

  /** When commit is not interrupted the cache reaches its home blocks and the log is empty. */
  lemma CommitCompletes(d: Disk, cache: seq<Block>, ts: seq<int>)
    requires Ready(d, cache, ts) && ts != []
    ensures Valid(Committed(d, cache, ts))
    ensures var e := Recovered(Committed(d, cache, ts));
            && Valid(e) && Count(e) == 0 && SameHome(e, Disk(d.start, cache))
  {
    CommitPoint(d, cache, ts);
    ClearInstalled(Committed(d, cache, ts));
  }
}
