/**
 * The pipe of kernel/pipe.c: a 512-byte ring whose two cursors are 32-bit
 * counters that wrap around.
 *
 * `pipewrite` and `piperead` run under the pipe's spinlock and give it up only
 * when they sleep or return.  Each method below is one such critical section,
 * so an interleaving of readers and writers is a sequence of sections, and
 * every section is a sequence of one-byte events.  The order theorem is about
 * every sequence of events from a new pipe.
 */
module Pipe {
  import opened Wrappers

  type byte = x: int | 0 <= x < 256

  const PIPESIZE := 512
  const WRAP := 0x1_0000_0000

  /** Conversion to a 32-bit unsigned integer. */
  function Uint(x: int): (r: int)
    ensures 0 <= r < WRAP
    ensures 0 <= x < WRAP ==> r == x
    ensures WRAP <= x < 2 * WRAP ==> r == x - WRAP
    ensures -WRAP <= x < 0 ==> r == x + WRAP
  {
    x % WRAP
  }

  function Slot(x: int): (r: int)
    ensures 0 <= r < PIPESIZE
  {
    x % PIPESIZE
  }

  type RingData = d: seq<byte> | |d| == PIPESIZE witness seq(PIPESIZE, _ => 0)

  datatype State = State(data: RingData, nread: int, nwrite: int, readopen: bool, writeopen: bool)

  /** The number of bytes between the cursors, in 32-bit arithmetic. */
  function Fill(s: State): int { Uint(s.nwrite - s.nread) }

  ghost predicate Valid(s: State) {
    && 0 <= s.nread < WRAP && 0 <= s.nwrite < WRAP
    && Fill(s) <= PIPESIZE
  }

  /** The bytes stored and not yet delivered, oldest first. */
  ghost function Buffered(s: State): (b: seq<byte>)
    requires Valid(s)
    ensures |b| == Fill(s)
  {
    seq(Fill(s), k requires 0 <= k => s.data[Slot(s.nread + k)])
  }

  // ---- One-byte events ----

  datatype Event = Store(ch: byte) | Deliver | CloseRead | CloseWrite

  /** The tests the code makes before it moves a byte. */
  predicate Full(s: State) { s.nwrite == Uint(s.nread + PIPESIZE) }

  predicate Empty(s: State) { s.nread == s.nwrite }

  predicate Enabled(s: State, e: Event) {
    match e
    case Store(_) => s.readopen && !Full(s)
    case Deliver => !Empty(s)
    case CloseRead => true
    case CloseWrite => true
  }

  function Apply(s: State, e: Event): State
  {
    match e
    case Store(ch) => s.(data := s.data[Slot(s.nwrite) := ch], nwrite := Uint(s.nwrite + 1))
    case Deliver => s.(nread := Uint(s.nread + 1))
    case CloseRead => s.(readopen := false)
    case CloseWrite => s.(writeopen := false)
  }

  /** The bytes an event takes from a writer and hands to a reader. */
  function Taken(e: Event): seq<byte> { if e.Store? then [e.ch] else [] }

  function Given(s: State, e: Event): seq<byte>
  {
    if e.Deliver? then [s.data[Slot(s.nread)]] else []
  }

  // ---- Sequences of events ----

  ghost predicate IsRun(s: State, es: seq<Event>)
    decreases |es|
  {
    es == [] || (Enabled(s, es[0]) && IsRun(Apply(s, es[0]), es[1..]))
  }

  function Run(s: State, es: seq<Event>): State
    decreases |es|
  {
    if es == [] then s else Run(Apply(s, es[0]), es[1..])
  }

  function AllTaken(es: seq<Event>): seq<byte> {
    if es == [] then [] else Taken(es[0]) + AllTaken(es[1..])
  }

  function AllGiven(s: State, es: seq<Event>): seq<byte>
    decreases |es|
  {
    if es == [] then [] else Given(s, es[0]) + AllGiven(Apply(s, es[0]), es[1..])
  }

  predicate IsNew(s: State) {
    s.nread == 0 && s.nwrite == 0 && s.readopen && s.writeopen
  }

  // ---- The counters' wrap-around is harmless ----

  lemma SlotOfUint(x: int)
    ensures Slot(Uint(x)) == Slot(x)
  {
    var q, r := x / WRAP, x % WRAP;
    assert x == WRAP * q + r;
    ModuloMultiple(8388608 * q, r);
  }

  lemma ModuloMultiple(q: int, r: int)
    ensures (PIPESIZE * q + r) % PIPESIZE == r % PIPESIZE
  {
  }

  lemma SlotShift(x: int, y: int, k: int)
    requires Slot(x) == Slot(y)
    ensures Slot(x + k) == Slot(y + k)
  {
  }

  lemma SlotsDiffer(x: int, y: int)
    requires 0 < y - x < PIPESIZE
    ensures Slot(x) != Slot(y)
  {
  }

  /** The code's tests for full and empty decide the true occupancy, and one step moves it by one. */
  lemma FillAfter(s: State)
    requires Valid(s)
    ensures Full(s) <==> Fill(s) == PIPESIZE
    ensures Empty(s) <==> Fill(s) == 0
    ensures !Full(s) ==> Uint(Uint(s.nwrite + 1) - s.nread) == Fill(s) + 1
    ensures !Empty(s) ==> Uint(s.nwrite - Uint(s.nread + 1)) == Fill(s) - 1
    ensures s.nwrite == Uint(s.nread + Fill(s))
  {
  }

  lemma StoreKeepsOrder(s: State, ch: byte)
    requires Valid(s) && !Full(s)
    ensures Valid(Apply(s, Store(ch)))
    ensures Buffered(Apply(s, Store(ch))) == Buffered(s) + [ch]
  {
    FillAfter(s);
    SlotOfUint(s.nread + Fill(s));
    var s' := Apply(s, Store(ch));
    assert Fill(s') == Fill(s) + 1;
    forall k | 0 <= k < Fill(s) ensures Buffered(s')[k] == Buffered(s)[k] {
      SlotsDiffer(s.nread + k, s.nread + Fill(s));
    }
  }

  lemma DeliverKeepsOrder(s: State)
    requires Valid(s) && !Empty(s)
    ensures Valid(Apply(s, Deliver))
    ensures Buffered(s) == Given(s, Deliver) + Buffered(Apply(s, Deliver))
  {
    FillAfter(s);
    SlotOfUint(s.nread + 1);
    var s' := Apply(s, Deliver);
    assert Fill(s') == Fill(s) - 1;
    forall k | 0 <= k < Fill(s') ensures Buffered(s')[k] == Buffered(s)[k + 1] {
      SlotShift(s'.nread, s.nread + 1, k);
      assert s'.nread + k == s'.nread + k && s.nread + 1 + k == s.nread + (k + 1);
    }
  }

  /** Each enabled event keeps the ring valid and moves bytes in order. */
  lemma EventKeepsOrder(s: State, e: Event)
    requires Valid(s) && Enabled(s, e)
    ensures Valid(Apply(s, e))
    ensures Buffered(s) + Taken(e) == Given(s, e) + Buffered(Apply(s, e))
  {
    match e
    case Store(ch) => StoreKeepsOrder(s, ch);
    case Deliver => DeliverKeepsOrder(s);
    case CloseRead => assert Buffered(Apply(s, e)) == Buffered(s);
    case CloseWrite => assert Buffered(Apply(s, e)) == Buffered(s);
  }

  lemma {:induction false} RunKeepsOrder(s: State, es: seq<Event>)
    requires Valid(s) && IsRun(s, es)
    ensures Valid(Run(s, es))
    ensures Buffered(s) + AllTaken(es) == AllGiven(s, es) + Buffered(Run(s, es))
    decreases |es|
  {
    if es == [] {
    } else {
      var e, rest := es[0], es[1..];
      var s' := Apply(s, e);
      EventKeepsOrder(s, e);
      RunKeepsOrder(s', rest);
      Rebracket(Buffered(s), Taken(e), AllTaken(rest), Given(s, e), Buffered(s'),
                AllGiven(s', rest), Buffered(Run(s', rest)));
    }
  }

  lemma Rebracket<T>(a: seq<T>, b: seq<T>, c: seq<T>, d: seq<T>, e: seq<T>, f: seq<T>, g: seq<T>)
    requires a + b == d + e && e + c == f + g
    ensures a + (b + c) == (d + f) + g
  {
    assert a + (b + c) == (a + b) + c == d + (e + c) == (d + f) + g;
  }

  /**
   * Stream order.  In every sequence of events from a new pipe, however often
   * the counters wrap, the bytes delivered followed by the bytes buffered are
   * the bytes stored, and the occupancy is between 0 and 512.
   */
  lemma StreamOrder(s: State, es: seq<Event>)
    requires IsNew(s) && IsRun(s, es)
    ensures Valid(Run(s, es)) && 0 <= |Buffered(Run(s, es))| <= PIPESIZE
    ensures AllGiven(s, es) + Buffered(Run(s, es)) == AllTaken(es)
  {
    assert Buffered(s) == [];
    RunKeepsOrder(s, es);
    assert [] + AllTaken(es) == AllTaken(es);
  }

  // ---- Critical sections as event sequences ----

  function Stores(bytes: seq<byte>): seq<Event> {
    seq(|bytes|, i requires 0 <= i < |bytes| => Store(bytes[i]))
  }

  function Delivers(n: nat): seq<Event> { seq(n, _ => Deliver) }

  /** Sections compose: running one event sequence after another is running their concatenation. */
  lemma {:induction false} RunConcat(s: State, es: seq<Event>, fs: seq<Event>)
    ensures Run(s, es + fs) == Run(Run(s, es), fs)
    ensures IsRun(s, es + fs) <==> IsRun(s, es) && IsRun(Run(s, es), fs)
    ensures AllGiven(s, es + fs) == AllGiven(s, es) + AllGiven(Run(s, es), fs)
    decreases |es|
  {
    if es == [] {
      assert es + fs == fs;
    } else {
      assert (es + fs)[1..] == es[1..] + fs;
      RunConcat(Apply(s, es[0]), es[1..], fs);
    }
  }

  lemma RunAppend(s: State, es: seq<Event>, e: Event)
    ensures Run(s, es + [e]) == Apply(Run(s, es), e)
    ensures IsRun(s, es + [e]) <==> IsRun(s, es) && Enabled(Run(s, es), e)
    ensures AllGiven(s, es + [e]) == AllGiven(s, es) + Given(Run(s, es), e)
  {
    RunConcat(s, es, [e]);
    var s' := Run(s, es);
    assert Run(s', [e]) == Run(Apply(s', e), []);
    assert AllGiven(s', [e]) == Given(s', e) + [];
  }

  lemma StoresAppend(bytes: seq<byte>, ch: byte)
    ensures Stores(bytes + [ch]) == Stores(bytes) + [Store(ch)]
  {
  }

  lemma {:induction false} TakenOfStores(bytes: seq<byte>)
    ensures AllTaken(Stores(bytes)) == bytes
  {
    if bytes != [] {
      assert Stores(bytes)[1..] == Stores(bytes[1..]);
      TakenOfStores(bytes[1..]);
    }
  }

  lemma {:induction false} TakenOfDelivers(n: nat)
    ensures AllTaken(Delivers(n)) == []
  {
    if n > 0 {
      assert Delivers(n)[1..] == Delivers(n - 1);
      TakenOfDelivers(n - 1);
    }
  }

  lemma DrainKeepsOrder(s: State, n: nat)
    requires Valid(s) && IsRun(s, Delivers(n))
    ensures Valid(Run(s, Delivers(n)))
    ensures AllGiven(s, Delivers(n)) + Buffered(Run(s, Delivers(n))) == Buffered(s)
  {
    RunKeepsOrder(s, Delivers(n));
    TakenOfDelivers(n);
    assert Buffered(s) + [] == Buffered(s);
  }

  /** How a critical section ends: asleep with `i` bytes done, or returning `r`. */
  datatype Outcome = Asleep(i: int) | Return(r: int)

  class Ring {
    var data: array<byte>
    var nread: int
    var nwrite: int
    var readopen: bool
    var writeopen: bool

    ghost function Current(): State
      requires data.Length == PIPESIZE
      reads this, data
    {
      State(data[..], nread, nwrite, readopen, writeopen)
    }

    /** The part of `pipealloc` that sets up the ring. */
    constructor ()
      ensures data.Length == PIPESIZE && IsNew(Current()) && fresh(data)
    {
      data := new byte[PIPESIZE](_ => 0);
      nread, nwrite := 0, 0;
      readopen, writeopen := true, true;
    }

    /** `pipeclose`: true when both ends are now closed and the pipe's page is freed. */
    method Close(writable: bool) returns (freed: bool)
      requires data.Length == PIPESIZE
      modifies this`readopen, this`writeopen
      ensures Current() == Apply(old(Current()), if writable then CloseWrite else CloseRead)
      ensures freed <==> !readopen && !writeopen
    {
      if writable {
        writeopen := false;
      } else {
        readopen := false;
      }
      freed := !readopen && !writeopen;
    }

    /** Store one byte at the write cursor, extending a section that began at `start`. */
    method Put(ch: byte, ghost start: State, ghost bytes: seq<byte>)
      requires data.Length == PIPESIZE && Valid(Current()) && readopen && !Full(Current())
      requires IsRun(start, Stores(bytes)) && Current() == Run(start, Stores(bytes))
      modifies this`nwrite, data
      ensures IsRun(start, Stores(bytes + [ch])) && Current() == Run(start, Stores(bytes + [ch]))
      ensures Valid(Current())
    {
      StoreKeepsOrder(Current(), ch);
      RunAppend(start, Stores(bytes), Store(ch));
      StoresAppend(bytes, ch);
      ghost var before := Current();
      data[Slot(nwrite)] := ch;
      nwrite := Uint(nwrite + 1);
      assert Current() == Apply(before, Store(ch));
    }

    /** Move the read cursor past one byte, extending a section that began at `start`. */
    method Advance(ghost start: State, ghost n: nat) returns (ch: byte)
      requires data.Length == PIPESIZE && Valid(Current()) && !Empty(Current())
      requires IsRun(start, Delivers(n)) && Current() == Run(start, Delivers(n))
      modifies this`nread
      ensures IsRun(start, Delivers(n + 1)) && Current() == Run(start, Delivers(n + 1))
      ensures AllGiven(start, Delivers(n + 1)) == AllGiven(start, Delivers(n)) + [ch]
      ensures Valid(Current())
    {
      DeliverKeepsOrder(Current());
      RunAppend(start, Delivers(n), Deliver);
      assert Delivers(n + 1) == Delivers(n) + [Deliver];
      ghost var before := Current();
      ch := data[Slot(nread)];
      nread := Uint(nread + 1);
      assert Current() == Apply(before, Deliver);
    }

    /**
     * `pipewrite` from the moment it holds the lock with `i` bytes already
     * stored.  `fetch[j]` is the result of copying in the j-th byte and
     * `killed[j]` the killed flag seen when it is tried.
     */
    method Write(fetch: seq<Option<byte>>, killed: seq<bool>, i: nat, n: int)
      returns (out: Outcome, ghost bytes: seq<byte>)
      requires n <= |fetch| && n <= |killed|
      requires data.Length == PIPESIZE && Valid(Current())
      modifies this`nwrite, data
      ensures Valid(Current())
      ensures Current() == Run(old(Current()), Stores(bytes)) && IsRun(old(Current()), Stores(bytes))
      ensures bytes != [] ==> i + |bytes| <= n
      ensures forall k :: i <= k < i + |bytes| ==> !killed[k]
      ensures forall k :: 0 <= k < |bytes| ==> fetch[i + k] == Some(bytes[k])
      // The section stops at the first byte that cannot be stored, for the first reason that applies.
      ensures var stop := i + |bytes|;
              out == if stop >= n then Return(stop)
                     else if !readopen || killed[stop] then Return(-1)
                     else if Fill(Current()) == PIPESIZE then Asleep(stop)
                     else Return(stop)
      ensures out == Return(i + |bytes|) && i + |bytes| < n ==> fetch[i + |bytes|] == None
    {
      ghost var start := Current();
      bytes := [];
      var j := i;
      assert Stores([]) == [];
      while j < n
        invariant data == old(data) && Valid(Current())
        invariant j == i + |bytes|
        invariant Current() == Run(start, Stores(bytes)) && IsRun(start, Stores(bytes))
        invariant readopen == old(readopen)
        invariant bytes != [] ==> i + |bytes| <= n
        invariant forall k :: i <= k < i + |bytes| ==> !killed[k]
        invariant forall k :: 0 <= k < |bytes| ==> fetch[i + k] == Some(bytes[k])
        decreases n - j
      {
        FillAfter(Current());
        if !readopen || killed[j] {
          return Return(-1), bytes;
        }
        if nwrite == Uint(nread + PIPESIZE) {
          return Asleep(j), bytes;
        }
        var ch := fetch[j];
        if ch == None {
          break;
        }
        Put(ch.value, start, bytes);
        bytes := bytes + [ch.value];
        j := j + 1;
      }
      FillAfter(Current());
      out := Return(j);
    }

    /**
     * The copying loop of `piperead`: hand over up to `n` bytes.  `accepts[j]`
     * is whether copying out the j-th byte succeeds.
     */
    method Drain(accepts: seq<bool>, n: int) returns (r: int, got: seq<byte>)
      requires n <= |accepts|
      requires data.Length == PIPESIZE && Valid(Current())
      modifies this`nread
      ensures Valid(Current())
      ensures Current() == Run(old(Current()), Delivers(|got|)) && IsRun(old(Current()), Delivers(|got|))
      ensures got + Buffered(Current()) == old(Buffered(Current()))
      ensures |got| <= |accepts| && (got != [] ==> |got| <= n)
      ensures forall k :: 0 <= k < |got| ==> accepts[k]
      ensures if |got| < n && Fill(Current()) > 0
              then !accepts[|got|] && r == if got == [] then -1 else |got|
              else r == |got|
    {
      ghost var start := Current();
      got := [];
      assert Delivers(0) == [];
      r := 0;
      while r < n
        invariant Valid(Current()) && r == |got| && (r > 0 ==> r <= n)
        invariant Current() == Run(start, Delivers(|got|)) && IsRun(start, Delivers(|got|))
        invariant got == AllGiven(start, Delivers(|got|))
        invariant forall k :: 0 <= k < |got| ==> accepts[k]
        decreases n - r
      {
        FillAfter(Current());
        if nread == nwrite {
          break;
        }
        if !accepts[r] {
          if r == 0 {
            r := -1;
          }
          break;
        }
        var ch := Advance(start, |got|);
        got := got + [ch];
        r := r + 1;
      }
      DrainKeepsOrder(start, |got|);
    }

    /**
     * `piperead` from the moment it holds the lock: sleep while the pipe is
     * empty with its write end open, otherwise hand over up to `n` bytes.
     */
    method Read(accepts: seq<bool>, killed: bool, n: int) returns (out: Outcome, got: seq<byte>)
      requires n <= |accepts|
      requires data.Length == PIPESIZE && Valid(Current())
      modifies this`nread
      ensures Valid(Current())
      ensures Current() == Run(old(Current()), Delivers(|got|)) && IsRun(old(Current()), Delivers(|got|))
      ensures got + Buffered(Current()) == old(Buffered(Current()))
      ensures |got| <= |accepts| && forall k :: 0 <= k < |got| ==> accepts[k]
      ensures old(Fill(Current())) == 0 && writeopen ==> out == if killed then Return(-1) else Asleep(0)
      ensures !(old(Fill(Current())) == 0 && writeopen) ==>
                if |got| < n && Fill(Current()) > 0
                then !accepts[|got|] && out == Return(if got == [] then -1 else |got|)
                else out == Return(|got|)
    {
      FillAfter(Current());
      if nread == nwrite && writeopen {
        assert Delivers(0) == [];
        return if killed then Return(-1) else Asleep(0), [];
      }
      var r;
      r, got := Drain(accepts, n);
      out := Return(r);
    }
  }
}
