/**
 * Group commit: every interleaving of begin_op, log_write and end_op by any
 * number of operations, with commit and recovery broken into single disk
 * writes and a crash allowed between any two of them (kernel/log.c).
 *
 * Next to what the code keeps, the state carries a history: every log_write
 * since the file system was made, tagged with its operation.  `durable` is how
 * much of it the disk stands for.  A crash drops the rest.
 */
module GroupCommit {
  import opened Wrappers
  import opened RedoLog
  import opened LogDevice

  datatype Phase =
    | Idle              // no commit in progress
    | Logging(i: nat)   // write_log has copied i blocks
    | Heading           // about to write the header: the commit point
    | Installing(i: nat)
    | Erasing           // about to write the empty header
    | Ending            // commit is done, `committing` still set
    | Booting(i: nat)   // recovery has installed i blocks
    | BootErasing       // recovery is about to write the empty header

  /** An operation between begin_op and end_op, and how many new blocks it has added to the log. */
  datatype Op = Op(id: nat, added: nat)

  datatype Entry = Entry(op: nat, block: int, data: Block)

  datatype State = State(
    disk: Disk, cache: seq<Block>, ts: seq<int>, outstanding: int, phase: Phase, ops: seq<Op>,
    origin: Disk, hist: seq<Entry>, durable: nat, firstId: nat, nextId: nat)

  datatype Action =
    | Begin                                      // begin_op gets past its loop
    | LogWrite(i: nat, block: int, data: Block)  // active operation i changes a block and logs it
    | End(i: nat)                                // active operation i calls end_op
    | Commit                                     // the next step of commit
    | Crash
    | Recover                                    // the next step of recovery

  predicate AtBoot(s: State) { s.phase.Booting? || s.phase.BootErasing? }

  predicate Committing(s: State) { !s.phase.Idle? && !AtBoot(s) }

  /** The indexes in the state are in range. */
  ghost predicate Shape(s: State) {
    && Valid(s.disk) && |s.cache| == |s.disk.blocks|
    && |s.ts| <= LOGBLOCKS && AllHome(s.disk, s.ts)
    && (s.phase.Logging? || s.phase.Installing? ==> s.phase.i < |s.ts|)
    && (s.phase.Booting? ==> s.phase.i < Count(s.disk))
    && s.durable <= |s.hist|
  }

  /** Operations add at most MAXOPBLOCKS new blocks each; log_write panics on a full log. */
  ghost predicate Enabled(s: State, a: Action)
    requires Shape(s)
  {
    match a
    case Begin => s.phase.Idle? && |s.ts| + (s.outstanding + 1) * MAXOPBLOCKS <= LOGBLOCKS
    case LogWrite(i, b, _) =>
      && i < |s.ops| && IsHome(s.disk, b) && |s.ts| < LOGBLOCKS
      && (b in s.ts || s.ops[i].added < MAXOPBLOCKS)
    case End(i) => i < |s.ops|
    case Commit => Committing(s)
    case Crash => true
    case Recover => AtBoot(s)
  }

  /** A disk write also leaves the written data in the cache. */
  function Put(s: State, b: int, x: Block): State
    requires 0 <= b < |s.disk.blocks| == |s.cache|
  {
    s.(disk := Write(s.disk, b, x), cache := s.cache[b := x])
  }

  function PutHead(s: State, ts: seq<int>): State
    requires Layout(s.disk) && |s.cache| == |s.disk.blocks| && |ts| <= LOGBLOCKS
  {
    Put(s, s.disk.start, HeaderWith(s.disk.blocks[s.disk.start], ts))
  }

  function CommitStep(s: State): State
    requires Shape(s)
  {
    match s.phase
    case Logging(i) =>
      Put(s, s.disk.start + 1 + i, s.cache[s.ts[i]])
        .(phase := if i + 1 == |s.ts| then Heading else Logging(i + 1))
    case Heading => PutHead(s, s.ts).(phase := Installing(0), durable := |s.hist|, firstId := s.nextId)
    case Installing(i) =>
      Put(s, s.ts[i], SlotData(s.disk, i)).(phase := if i + 1 == |s.ts| then Erasing else Installing(i + 1))
    case Erasing => PutHead(s, []).(phase := Ending, ts := [])
    case Ending => s.(phase := Idle)
    case _ => s
  }

  function RecoverStep(s: State): State
    requires Shape(s)
  {
    match s.phase
    case Booting(i) =>
      Put(s, Target(s.disk, i), SlotData(s.disk, i))
        .(phase := if i + 1 == Count(s.disk) then BootErasing else Booting(i + 1))
    case BootErasing => PutHead(s, []).(phase := Idle)
    case _ => s
  }

  function Apply(s: State, a: Action): State
    requires Shape(s) && Enabled(s, a)
  {
    match a
    case Begin =>
      s.(outstanding := s.outstanding + 1, ops := s.ops + [Op(s.nextId, 0)], nextId := s.nextId + 1)
    case LogWrite(i, b, x) =>
      var op := s.ops[i];
      var logged := s.(cache := s.cache[b := x], hist := s.hist + [Entry(op.id, b, x)]);
      if b in s.ts then logged
      else logged.(ts := s.ts + [b], ops := s.ops[i := op.(added := op.added + 1)])
    case End(i) =>
      var left := s.(outstanding := s.outstanding - 1, ops := s.ops[..i] + s.ops[i + 1..]);
      if left.outstanding != 0 then left
      else left.(phase := if s.ts == [] then Ending else Logging(0))
    case Commit => CommitStep(s)
    case Crash =>
      s.(cache := s.disk.blocks, ts := [], outstanding := 0, ops := [],
         phase := if Count(s.disk) == 0 then BootErasing else Booting(0),
         hist := s.hist[..s.durable])
    case Recover => RecoverStep(s)
  }

  /** A new file system: an empty log and nothing running. */
  ghost predicate Initial(s: State) {
    && Valid(s.disk) && Count(s.disk) == 0 && s.cache == s.disk.blocks
    && s.ts == [] && s.outstanding == 0 && s.phase == Idle && s.ops == []
    && s.origin == s.disk && s.hist == [] && s.durable == 0 && s.firstId == s.nextId
  }

  ghost predicate IsRun(s: State, run: seq<Action>)
    decreases |run|
  {
    run == [] || (Shape(s) && Enabled(s, run[0]) && IsRun(Apply(s, run[0]), run[1..]))
  }

  ghost function Run(s: State, run: seq<Action>): State
    requires IsRun(s, run)
    decreases |run|
  {
    if run == [] then s else Run(Apply(s, run[0]), run[1..])
  }

  // ---- Meaning of the history ----

  ghost predicate EntriesOk(d: Disk, es: seq<Entry>) {
    forall i :: 0 <= i < |es| ==> IsHome(d, es[i].block)
  }

  /** The disk with a sequence of block writes applied to it. */
  ghost function Replay(d: Disk, es: seq<Entry>): (r: Disk)
    requires EntriesOk(d, es)
    ensures r.start == d.start && |r.blocks| == |d.blocks|
  {
    if es == [] then d
    else
      var last := es[|es| - 1];
      Write(Replay(d, es[..|es| - 1]), last.block, last.data)
  }

  lemma ReplayAppend(d: Disk, es: seq<Entry>, e: Entry)
    requires EntriesOk(d, es) && IsHome(d, e.block)
    ensures EntriesOk(d, es + [e])
    ensures Replay(d, es + [e]) == Write(Replay(d, es), e.block, e.data)
  {
    assert (es + [e])[..|es|] == es;
  }

  // ---- The invariant ----

  /** The cache is the whole history. */
  ghost predicate Current(s: State)
    requires EntriesOk(s.origin, s.hist)
  {
    SameHome(Disk(s.disk.start, s.cache), Replay(s.origin, s.hist))
  }

  /** The disk stands for the durable part of the history. */
  ghost predicate DiskIsDurable(s: State) {
    && Valid(s.disk) && s.durable <= |s.hist| && EntriesOk(s.origin, s.hist[..s.durable])
    && SameHome(Logical(s.disk), Replay(s.origin, s.hist[..s.durable]))
  }

  /** No operation has entries both inside and outside the durable part. */
  ghost predicate WholeOperations(s: State) {
    forall i, j :: 0 <= i < s.durable <= j < |s.hist| ==> s.hist[i].op != s.hist[j].op
  }

  ghost predicate Ids(s: State) {
    && s.firstId <= s.nextId
    && (forall i :: 0 <= i < |s.ops| ==> s.firstId <= s.ops[i].id < s.nextId)
    && (forall i :: 0 <= i < s.durable && i < |s.hist| ==> s.hist[i].op < s.firstId)
    && (forall i :: s.durable <= i < |s.hist| ==> s.firstId <= s.hist[i].op < s.nextId)
  }

  /** The log blocks that active operations may still use. */
  function Unspent(ops: seq<Op>): int {
    if ops == [] then 0 else Unspent(ops[..|ops| - 1]) + MAXOPBLOCKS - ops[|ops| - 1].added
  }

  ghost predicate Space(s: State) {
    && s.outstanding == |s.ops|
    && (forall i :: 0 <= i < |s.ops| ==> s.ops[i].added <= MAXOPBLOCKS)
    && |s.ts| + Unspent(s.ops) <= LOGBLOCKS
  }

  /** The first `k` logged blocks have reached their home locations. */
  ghost predicate InstalledUpTo(d: Disk, k: int)
    requires Layout(d) && k <= LOGBLOCKS
  {
    forall j :: 0 <= j < k && 0 <= Target(d, j) < |d.blocks| ==> d.blocks[Target(d, j)] == SlotData(d, j)
  }

  /** The first `k` log blocks hold the cached data of the logged blocks. */
  ghost predicate SlotsUpTo(s: State, k: int)
    requires Shape(s) && k <= |s.ts|
  {
    forall j :: 0 <= j < k ==> SlotData(s.disk, j) == s.cache[s.ts[j]]
  }

  ghost predicate Quiet(s: State) { s.ops == [] && s.durable == |s.hist| }

  ghost predicate PhaseOk(s: State)
    requires Shape(s) && EntriesOk(s.origin, s.hist)
  {
    match s.phase
    case Idle =>
      && Count(s.disk) == 0 && Current(s)
      && (s.ts == [] ==> s.durable == |s.hist|) && (s.ops == [] ==> s.ts == [])
    case Logging(i) => s.ops == [] && Count(s.disk) == 0 && Current(s) && SlotsUpTo(s, i)
    case Heading => s.ops == [] && s.ts != [] && Count(s.disk) == 0 && Current(s) && SlotsUpTo(s, |s.ts|)
    case Installing(i) =>
      Quiet(s) && Targets(s.disk) == s.ts && Current(s) && SlotsUpTo(s, |s.ts|) && InstalledUpTo(s.disk, i)
    case Erasing =>
      Quiet(s) && Targets(s.disk) == s.ts && Current(s) && SlotsUpTo(s, |s.ts|) && InstalledUpTo(s.disk, |s.ts|)
    case Ending => Quiet(s) && s.ts == [] && Count(s.disk) == 0 && Current(s)
    case Booting(i) => Quiet(s) && s.ts == [] && InstalledUpTo(s.disk, i)
    case BootErasing => Quiet(s) && s.ts == [] && InstalledUpTo(s.disk, Count(s.disk))
  }

  /** Everything about the disk, the cache and the history. */
  ghost predicate Storage(s: State) {
    && Shape(s)
    && s.origin.start == s.disk.start && |s.origin.blocks| == |s.disk.blocks|
    && EntriesOk(s.origin, s.hist)
    && Coherent(s.disk, s.cache, s.ts)
    && Distinct(s.ts) && Distinct(Targets(s.disk))
    && DiskIsDurable(s)
    && PhaseOk(s)
  }

  ghost predicate Inv(s: State) { Storage(s) && Ids(s) && Space(s) }

  // ---- Disk writes and the state the disk stands for ----

  /** With an empty header, writing anywhere in the log area changes nothing that counts. */
  lemma SlotWrite(d: Disk, i: nat, x: Block)
    requires Valid(d) && Count(d) == 0 && i < LOGBLOCKS
    ensures var e := Write(d, d.start + 1 + i, x);
            && Valid(e) && Count(e) == 0 && SameHome(Logical(e), Logical(d)) && Targets(e) == Targets(d) == []
  {
  }

  /** Installing any one logged block changes nothing that counts. */
  lemma InstallWrite(d: Disk, i: nat)
    requires Valid(d) && i < Count(d)
    ensures var e := Write(d, Target(d, i), SlotData(d, i));
            && Valid(e) && Count(e) == Count(d) && Targets(e) == Targets(d) && SameLog(d, e)
            && SameHome(Logical(e), Logical(d))
  {
    var e, n := Write(d, Target(d, i), SlotData(d, i)), Count(d);
    SameLogFacts(d, e);
    forall b | IsHome(d, b) ensures Logical(e).blocks[b] == Logical(d).blocks[b] {
      InstalledValue(d, n, b);
      InstalledValue(e, n, b);
      NamedValue(d, e, n, b);
      if !Named(d, n, b) {
        UnnamedValue(d, n, b);
        UnnamedValue(e, n, b);
        NamedAt(d, n, i, b);
      }
    }
  }

  lemma {:induction false} NamedAt(d: Disk, k: nat, i: nat, b: int)
    requires Layout(d) && i < k <= LOGBLOCKS && !Named(d, k, b)
    ensures Target(d, i) != b
    decreases k
  {
    if i < k - 1 { NamedAt(d, k - 1, i, b); }
  }

  lemma {:induction false} InstalledIsLogical(d: Disk, k: nat, b: int)
    requires Valid(d) && k <= Count(d) && InstalledUpTo(d, k) && IsHome(d, b)
    ensures ValueAt(d, k, b) == d.blocks[b]
    decreases k
  {
    if k > 0 && Target(d, k - 1) != b { InstalledIsLogical(d, k - 1, b); }
  }

  /** Once every logged block is installed, erasing the header changes nothing that counts. */
  lemma EraseWrite(d: Disk)
    requires Valid(d) && InstalledUpTo(d, Count(d))
    ensures var e := Headed(d, []);
            && Valid(e) && Count(e) == 0 && Targets(e) == [] && SameHome(Logical(e), Logical(d)) && SameHome(e, d)
  {
    HeadedFacts(d, []);
    HeadedTargets(d, []);
    forall b | IsHome(d, b) ensures Logical(d).blocks[b] == d.blocks[b] {
      InstalledValue(d, Count(d), b);
      InstalledIsLogical(d, Count(d), b);
    }
  }

  /** Writing the header makes the disk stand for the cache. */
  lemma HeadWrite(s: State)
    requires Shape(s) && Coherent(s.disk, s.cache, s.ts) && SlotsUpTo(s, |s.ts|)
    ensures var e := Headed(s.disk, s.ts);
            && Valid(e) && Targets(e) == s.ts && SameHome(Logical(e), Disk(s.disk.start, s.cache))
            && (forall j :: 0 <= j < |s.ts| ==> SlotData(e, j) == SlotData(s.disk, j))
  {
    var e := Headed(s.disk, s.ts);
    HeadedFacts(s.disk, s.ts);
    HeadedTargets(s.disk, s.ts);
    forall b | IsHome(s.disk, b) ensures Logical(e).blocks[b] == s.cache[b] {
      CommitValue(e, s.cache, s.ts, b);
    }
  }

  // ---- Log space ----

  lemma {:induction false} UnspentBounds(ops: seq<Op>)
    requires forall i :: 0 <= i < |ops| ==> ops[i].added <= MAXOPBLOCKS
    ensures 0 <= Unspent(ops) <= |ops| * MAXOPBLOCKS
  {
    if ops != [] { UnspentBounds(ops[..|ops| - 1]); }
  }

  lemma {:induction false} UnspentAt(ops: seq<Op>, i: nat)
    requires i < |ops|
    ensures Unspent(ops) == Unspent(ops[..i] + ops[i + 1..]) + MAXOPBLOCKS - ops[i].added
    decreases |ops|
  {
    var n := |ops| - 1;
    var rest := ops[..i] + ops[i + 1..];
    if i == n {
      assert rest == ops[..n];
    } else {
      UnspentAt(ops[..n], i);
      assert ops[..n][..i] + ops[..n][i + 1..] == rest[..n - 1];
      assert rest[n - 1] == ops[n];
    }
  }

  lemma UnspentUpdate(ops: seq<Op>, i: nat, op: Op)
    requires i < |ops|
    ensures Unspent(ops[i := op]) == Unspent(ops) + ops[i].added - op.added
  {
    UnspentAt(ops, i);
    UnspentAt(ops[i := op], i);
    var ops' := ops[i := op];
    assert ops'[..i] + ops'[i + 1..] == ops[..i] + ops[i + 1..];
  }

  lemma RoomLeft(ops: seq<Op>, i: nat)
    requires i < |ops| && ops[i].added < MAXOPBLOCKS
    requires forall k :: 0 <= k < |ops| ==> ops[k].added <= MAXOPBLOCKS
    ensures Unspent(ops) > 0
  {
    UnspentAt(ops, i);
    var rest := ops[..i] + ops[i + 1..];
    assert forall k :: 0 <= k < |rest| ==> rest[k] == ops[if k < i then k else k + 1];
    UnspentBounds(rest);
  }

  // ---- Every action keeps the invariant ----

  lemma BeginKeepsInv(s: State)
    requires Inv(s) && Enabled(s, Begin)
    ensures Inv(Apply(s, Begin))
  {
    var s' := Apply(s, Begin);
    UnspentBounds(s.ops);
    assert s'.ops[..|s.ops|] == s.ops;
  }

  lemma LogWriteSpace(s: State, i: nat, b: int, x: Block)
    requires Inv(s) && Enabled(s, LogWrite(i, b, x))
    ensures Space(Apply(s, LogWrite(i, b, x))) && Ids(Apply(s, LogWrite(i, b, x)))
  {
    if b !in s.ts {
      UnspentUpdate(s.ops, i, s.ops[i].(added := s.ops[i].added + 1));
    }
  }

  lemma ActiveMeansIdle(s: State)
    requires Inv(s) && s.ops != []
    ensures s.phase.Idle?
  {
  }

  lemma LogWriteKeepsInv(s: State, i: nat, b: int, x: Block)
    requires Inv(s) && Enabled(s, LogWrite(i, b, x))
    ensures Inv(Apply(s, LogWrite(i, b, x)))
  {
    ActiveMeansIdle(s);
    LogWriteSpace(s, i, b, x);
    LogWriteKeepsStorage(s, i, b, x);
  }

  lemma LogWriteKeepsStorage(s: State, i: nat, b: int, x: Block)
    requires Inv(s) && Enabled(s, LogWrite(i, b, x)) && s.phase.Idle?
    ensures Storage(Apply(s, LogWrite(i, b, x)))
  {
    var s' := Apply(s, LogWrite(i, b, x));
    ReplayAppend(s.origin, s.hist, Entry(s.ops[i].id, b, x));
    assert s'.hist[..s.durable] == s.hist[..s.durable];
    assert b in s'.ts;
  }

  lemma EndKeepsIds(s: State, i: nat)
    requires Inv(s) && i < |s.ops|
    ensures Ids(Apply(s, End(i)))
  {
    var ops' := s.ops[..i] + s.ops[i + 1..];
    assert forall k :: 0 <= k < |ops'| ==> ops'[k] == s.ops[if k < i then k else k + 1];
  }

  lemma EndKeepsSpace(s: State, i: nat)
    requires Inv(s) && i < |s.ops|
    ensures Space(Apply(s, End(i)))
  {
    UnspentAt(s.ops, i);
    var ops' := s.ops[..i] + s.ops[i + 1..];
    assert forall k :: 0 <= k < |ops'| ==> ops'[k] == s.ops[if k < i then k else k + 1];
  }

  lemma EndKeepsInv(s: State, i: nat)
    requires Inv(s) && Enabled(s, End(i))
    ensures Inv(Apply(s, End(i)))
  {
    ActiveMeansIdle(s);
    EndKeepsIds(s, i);
    EndKeepsSpace(s, i);
  }

  lemma CrashKeepsInv(s: State)
    requires Inv(s)
    ensures Inv(Apply(s, Crash))
  {
    var s' := Apply(s, Crash);
    assert s'.hist[..s.durable] == s.hist[..s.durable];
    assert EntriesOk(s.origin, s'.hist);
  }

  /** Writing inside the log area leaves the cached home blocks, and so what the cache stands for, alone. */
  lemma LogAreaPut(d: Disk, cache: seq<Block>, ts: seq<int>, m: Disk, b: int, x: Block)
    requires Layout(d) && |cache| == |d.blocks| && d.start <= b <= d.start + LOGBLOCKS
    requires Coherent(d, cache, ts) && AllHome(d, ts) && SameHome(Disk(d.start, cache), m)
    ensures var cache' := cache[b := x];
            && Coherent(Write(d, b, x), cache', ts) && SameHome(Disk(d.start, cache'), m)
            && AllHome(Write(d, b, x), ts)
            && (forall j :: 0 <= j < |ts| ==> cache'[ts[j]] == cache[ts[j]])
  {
    assert forall j :: 0 <= j < |ts| ==> IsHome(d, ts[j]);
  }

  lemma LoggingKeepsPhase(s: State)
    requires Storage(s) && s.phase.Logging?
    ensures var s' := CommitStep(s);
            && Shape(s') && Count(s'.disk) == 0 && Coherent(s'.disk, s'.cache, s.ts) && Current(s')
  {
    var x := s.cache[s.ts[s.phase.i]];
    SlotWrite(s.disk, s.phase.i, x);
    LogAreaPut(s.disk, s.cache, s.ts, Replay(s.origin, s.hist), s.disk.start + 1 + s.phase.i, x);
  }

  lemma OneMoreSlot(s: State)
    requires Storage(s) && s.phase.Logging? && Shape(CommitStep(s))
    ensures SlotsUpTo(CommitStep(s), s.phase.i + 1)
  {
    assert forall j :: 0 <= j < |s.ts| ==> IsHome(s.disk, s.ts[j]);
  }

  lemma LoggingKeepsStorage(s: State)
    requires Storage(s) && s.phase.Logging?
    ensures Storage(CommitStep(s))
  {
    SlotWrite(s.disk, s.phase.i, s.cache[s.ts[s.phase.i]]);
    LoggingKeepsPhase(s);
    OneMoreSlot(s);
  }

  lemma HeadingKeepsPhase(s: State)
    requires Storage(s) && s.phase.Heading?
    ensures var s' := CommitStep(s);
            && Shape(s') && Coherent(s'.disk, s'.cache, s.ts) && Current(s')
            && SlotsUpTo(s', |s.ts|) && Targets(s'.disk) == s.ts
            && SameHome(Logical(s'.disk), Disk(s.disk.start, s.cache))
  {
    HeadWrite(s);
    LogAreaPut(s.disk, s.cache, s.ts, Replay(s.origin, s.hist), s.disk.start,
               HeaderWith(s.disk.blocks[s.disk.start], s.ts));
  }

  /** The commit point: everything logged so far becomes durable at once. */
  lemma CommitPointIsDurable(s: State)
    requires Storage(s) && s.phase.Heading?
    ensures DiskIsDurable(CommitStep(s))
  {
    HeadingKeepsPhase(s);
    assert s.hist[..|s.hist|] == s.hist;
  }

  lemma HeadingKeepsStorage(s: State)
    requires Storage(s) && s.phase.Heading?
    ensures Storage(CommitStep(s))
  {
    HeadingKeepsPhase(s);
    CommitPointIsDurable(s);
  }

  lemma OneMoreInstalled(d: Disk, i: nat)
    requires Valid(d) && Distinct(Targets(d)) && i < Count(d) && InstalledUpTo(d, i)
    ensures InstalledUpTo(Write(d, Target(d, i), SlotData(d, i)), i + 1)
  {
    var e := Write(d, Target(d, i), SlotData(d, i));
    InstallWrite(d, i);
    SameLogFacts(d, e);
    forall j | 0 <= j < i + 1 && 0 <= Target(e, j) < |e.blocks|
      ensures e.blocks[Target(e, j)] == SlotData(e, j)
    {
      assert Targets(d)[j] == Target(d, j) && Targets(d)[i] == Target(d, i);
    }
  }

  /** Installing writes back what the cache holds, so the cache does not change. */
  lemma InstallingKeepsCache(s: State)
    requires Storage(s) && s.phase.Installing?
    ensures s.ts[s.phase.i] == Target(s.disk, s.phase.i)
    ensures CommitStep(s).cache == s.cache
  {
    var i := s.phase.i;
    assert s.ts[i] == Targets(s.disk)[i] == Target(s.disk, i);
    assert SlotData(s.disk, i) == s.cache[s.ts[i]];
  }

  lemma InstallingKeepsLog(s: State)
    requires Storage(s) && s.phase.Installing?
    ensures var s' := CommitStep(s);
            Shape(s') && SlotsUpTo(s', |s.ts|) && Targets(s'.disk) == s.ts
  {
    InstallingKeepsCache(s);
    InstallWrite(s.disk, s.phase.i);
    SameLogFacts(s.disk, CommitStep(s).disk);
  }

  lemma InstallingProgress(s: State)
    requires Storage(s) && s.phase.Installing?
    ensures var s' := CommitStep(s);
            && Valid(s'.disk) && |s'.cache| == |s'.disk.blocks| && Coherent(s'.disk, s'.cache, s.ts)
            && InstalledUpTo(s'.disk, s.phase.i + 1) && SameHome(Logical(s'.disk), Logical(s.disk))
  {
    InstallingKeepsCache(s);
    InstallWrite(s.disk, s.phase.i);
    OneMoreInstalled(s.disk, s.phase.i);
  }

  lemma InstallingKeepsDurable(s: State)
    requires Storage(s) && s.phase.Installing?
    ensures DiskIsDurable(CommitStep(s))
  {
    InstallingProgress(s);
  }

  lemma InstallingKeepsPhase(s: State)
    requires Storage(s) && s.phase.Installing?
    ensures var s' := CommitStep(s);
            Shape(s') && EntriesOk(s'.origin, s'.hist) && PhaseOk(s') && Coherent(s'.disk, s'.cache, s'.ts)
  {
    InstallingKeepsCache(s);
    InstallingKeepsLog(s);
    InstallingProgress(s);
  }

  lemma InstallingKeepsStorage(s: State)
    requires Storage(s) && s.phase.Installing?
    ensures Storage(CommitStep(s))
  {
    InstallingKeepsLog(s);
    InstallingKeepsPhase(s);
    InstallingKeepsDurable(s);
  }

  /** Once everything is installed, the cache and the disk agree everywhere. */
  lemma ErasingKeepsCache(s: State, b: int)
    requires Storage(s) && s.phase.Erasing? && 0 <= b < |s.cache|
    ensures s.cache[b] == s.disk.blocks[b]
  {
    if b in s.ts {
      var j :| 0 <= j < |s.ts| && s.ts[j] == b;
      assert Targets(s.disk)[j] == Target(s.disk, j);
      assert s.disk.blocks[b] == SlotData(s.disk, j);
    }
  }

  lemma ErasingKeepsStorage(s: State)
    requires Storage(s) && s.phase.Erasing?
    ensures Storage(CommitStep(s))
  {
    EraseWrite(s.disk);
    var s' := CommitStep(s);
    forall b | 0 <= b < |s'.cache| ensures s'.cache[b] == s'.disk.blocks[b] {
      ErasingKeepsCache(s, b);
    }
  }

  lemma BootingKeepsStorage(s: State)
    requires Storage(s) && s.phase.Booting?
    ensures Storage(RecoverStep(s))
  {
    var i := s.phase.i;
    InstallWrite(s.disk, i);
    OneMoreInstalled(s.disk, i);
  }

  lemma BootErasingKeepsStorage(s: State)
    requires Storage(s) && s.phase.BootErasing?
    ensures Storage(RecoverStep(s))
  {
    EraseWrite(s.disk);
    assert s.hist[..s.durable] == s.hist;
  }

  lemma CommitKeepsBooks(s: State)
    requires Inv(s) && Committing(s)
    ensures Ids(CommitStep(s)) && Space(CommitStep(s))
  {
  }

  lemma ActionKeepsInv(s: State, a: Action)
    requires Inv(s) && Enabled(s, a)
    ensures Inv(Apply(s, a))
  {
    match a
    case Begin => BeginKeepsInv(s);
    case LogWrite(i, b, x) => LogWriteKeepsInv(s, i, b, x);
    case End(i) => EndKeepsInv(s, i);
    case Crash => CrashKeepsInv(s);
    case Commit =>
      CommitKeepsBooks(s);
      match s.phase {
        case Logging(_) => LoggingKeepsStorage(s);
        case Heading => HeadingKeepsStorage(s);
        case Installing(_) => InstallingKeepsStorage(s);
        case Erasing => ErasingKeepsStorage(s);
        case Ending =>
      }
    case Recover =>
      if s.phase.Booting? { BootingKeepsStorage(s); } else { BootErasingKeepsStorage(s); }
  }

  lemma {:induction false} RunKeepsInv(s: State, run: seq<Action>)
    requires Inv(s) && IsRun(s, run)
    ensures Inv(Run(s, run))
    decreases |run|
  {
    if run != [] {
      ActionKeepsInv(s, run[0]);
      RunKeepsInv(Apply(s, run[0]), run[1..]);
    }
  }

  lemma InitialInv(s: State)
    requires Initial(s)
    ensures Inv(s)
  {
    assert s.hist[..0] == [];
  }

  lemma CutSeparatesOperations(s: State)
    requires Inv(s)
    ensures WholeOperations(s)
  {
  }

  // ---- What holds in every run ----

  /**
   * Crash safety.  At every moment of every run, the disk stands for exactly
   * the durable prefix of the history, and that prefix contains each operation
   * entirely or not at all.
   */
  lemma CrashSafety(s: State, run: seq<Action>)
    requires Initial(s) && IsRun(s, run)
    ensures DiskIsDurable(Run(s, run)) && WholeOperations(Run(s, run))
  {
    InitialInv(s);
    RunKeepsInv(s, run);
    CutSeparatesOperations(Run(s, run));
  }

  /** When nothing is running, the log is empty and the home blocks are the whole history. */
  lemma QuietMeansDurable(s: State, run: seq<Action>)
    requires Initial(s) && IsRun(s, run)
    ensures var t := Run(s, run);
            t.phase.Idle? && t.ops == [] ==>
              && t.ts == [] && t.durable == |t.hist| && Valid(t.disk) && Count(t.disk) == 0
              && EntriesOk(t.origin, t.hist) && SameHome(t.disk, Replay(t.origin, t.hist))
  {
    InitialInv(s);
    RunKeepsInv(s, run);
    var t := Run(s, run);
    if t.phase.Idle? && t.ops == [] {
      assert t.hist[..t.durable] == t.hist;
    }
  }

  /** No log_write and no end_op can happen during a commit or a recovery. */
  lemma NoOperationDuringCommit(s: State, run: seq<Action>, a: Action)
    requires Initial(s) && IsRun(s, run) && Shape(Run(s, run)) && Enabled(Run(s, run), a)
    requires a.LogWrite? || a.End?
    ensures Run(s, run).phase.Idle?
  {
    InitialInv(s);
    RunKeepsInv(s, run);
    ActiveMeansIdle(Run(s, run));
  }

  /**
   * Log space.  The logged blocks are distinct, and together with all unspent
   * reservations they fit in the log; so an operation that has not used up its
   * MAXOPBLOCKS never finds the log full.
   */
  lemma LogSpace(s: State, run: seq<Action>, i: nat)
    requires Initial(s) && IsRun(s, run)
    ensures var t := Run(s, run);
            && Distinct(t.ts) && 0 <= Unspent(t.ops) && |t.ts| + Unspent(t.ops) <= LOGBLOCKS
            && (i < |t.ops| && t.ops[i].added < MAXOPBLOCKS ==> |t.ts| < LOGBLOCKS)
  {
    InitialInv(s);
    RunKeepsInv(s, run);
    var t := Run(s, run);
    UnspentBounds(t.ops);
    if i < |t.ops| && t.ops[i].added < MAXOPBLOCKS {
      RoomLeft(t.ops, i);
    }
  }
}
