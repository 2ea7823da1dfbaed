/**
 * File contents over disk blocks: balloc, bfree, bmap, itrunc, readi, writei of
 * kernel/fs.c and the chunk loop of filewrite in kernel/file.c.
 *
 * The inode is one record here: the copy in memory and, after iupdate, the one
 * on disk.  Whether a copy from or to user memory succeeds is decided by the
 * environment: `copies` is the number of block-sized copies that succeed before
 * one fails, and a copy that fails changes nothing.
 */
module Files {
  import opened FileBlocks

  const BPB := 8192             // bitmap bits per block
  const IPB := 16               // inodes per block
  const MAXOPBLOCKS := 10
  const LIMIT := MAXFILE * BSIZE

  // ---- Bytes ----

  function ByteAt(fs: Fs, inum: int, x: int): int
    requires inum in fs.inodes
  {
    Byte(Content(fs, inum, x / BSIZE), x % BSIZE)
  }

  /** What the file holds. */
  function Contents(fs: Fs, inum: int): seq<int>
    requires inum in fs.inodes && 0 <= fs.inodes[inum].size
  {
    seq(fs.inodes[inum].size, x requires 0 <= x => ByteAt(fs, inum, x))
  }

  /** `bytes` written over `s` from `off` on. */
  function Splice(s: seq<int>, off: nat, bytes: seq<int>): seq<int>
    requires off <= |s|
  {
    s[..off] + bytes + if off + |bytes| < |s| then s[off + |bytes|..] else []
  }

  /** No block below the size is missing. */
  ghost predicate Dense(fs: Fs, inum: int)
    requires inum in fs.inodes
  {
    && 0 <= fs.inodes[inum].size <= LIMIT
    && forall k :: 0 <= k && k * BSIZE < fs.inodes[inum].size ==> Addr(fs, inum, k) != 0
  }

  ghost predicate AllDense(fs: Fs) { forall inum :: inum in fs.inodes ==> Dense(fs, inum) }

  /** File `inum` keeps its blocks and may get free ones; other files are untouched. */
  ghost predicate Grows(s: Fs, t: Fs, inum: int) {
    && OneFile(s, t, inum) && t.inodes[inum].size == s.inodes[inum].size
    && (forall b :: b in s.role ==> ExtBlock(s, t, inum, b))
    && (forall k :: 0 <= k < MAXFILE && Addr(s, inum, k) != 0 ==> Addr(t, inum, k) == Addr(s, inum, k))
  }

  /** ... and its bytes from `off` on are now `bytes`. */
  ghost predicate Wrote(s: Fs, t: Fs, inum: int, off: int, bytes: seq<int>) {
    && Grows(s, t, inum)
    && forall x :: 0 <= x < LIMIT ==> ByteIs(s, t, inum, off, bytes, x)
  }

  ghost predicate ByteIs(s: Fs, t: Fs, inum: int, off: int, bytes: seq<int>, x: int)
    requires inum in s.inodes && inum in t.inodes
  {
    ByteAt(t, inum, x) == if off <= x < off + |bytes| then bytes[x - off] else ByteAt(s, inum, x)
  }

  lemma GrowsTwice(s: Fs, t: Fs, u: Fs, inum: int)
    requires Grows(s, t, inum) && Grows(t, u, inum)
    ensures Grows(s, u, inum)
  {
    forall b | b in s.role ensures ExtBlock(s, u, inum, b) {
      assert ExtBlock(s, t, inum, b) && ExtBlock(t, u, inum, b);
    }
    forall b | b in s.role && Other(s.role[b], inum) ensures BlockKept(s.data, s.role, u.data, u.role, b) {
      assert BlockKept(s.data, s.role, t.data, t.role, b) && BlockKept(t.data, t.role, u.data, u.role, b);
    }
  }

  lemma ExtGrows(s: Fs, t: Fs, inum: int)
    requires Ext(s, t, inum)
    ensures Wrote(s, t, inum, 0, [])
  {
    forall k | 0 <= k < MAXFILE ensures Addr(s, inum, k) != 0 ==> Addr(t, inum, k) == Addr(s, inum, k) {
      assert ExtAddr(s, t, inum, k);
    }
    forall x | 0 <= x < LIMIT ensures ByteIs(s, t, inum, 0, [], x) {
      assert ExtAddr(s, t, inum, x / BSIZE);
    }
  }

  /** Writing piece after piece. */
  lemma WroteTwice(s: Fs, t: Fs, u: Fs, inum: int, off: int, bytes: seq<int>, more: seq<int>)
    requires Wrote(s, t, inum, off, bytes) && Wrote(t, u, inum, off + |bytes|, more)
    ensures Wrote(s, u, inum, off, bytes + more)
  {
    GrowsTwice(s, t, u, inum);
    forall x | 0 <= x < LIMIT ensures ByteIs(s, u, inum, off, bytes + more, x) {
      assert ByteIs(s, t, inum, off, bytes, x) && ByteIs(t, u, inum, off + |bytes|, more, x);
    }
  }

  lemma WroteNothing(s: Fs, t: Fs, inum: int, off: int, off': int)
    requires Wrote(s, t, inum, off, [])
    ensures Wrote(s, t, inum, off', [])
  {
    forall x | 0 <= x < LIMIT ensures ByteIs(s, t, inum, off', [], x) {
      assert ByteIs(s, t, inum, off, [], x);
    }
  }

  /** Storing `bytes` within one block of the file. */
  lemma StoreBytes(s: Fs, inum: int, off: int, bytes: seq<int>)
    requires Ok(s) && inum in s.inodes && 0 <= off < LIMIT && |bytes| <= BSIZE - off % BSIZE
             && Addr(s, inum, off / BSIZE) != 0
    ensures var page := WriteBytes(Content(s, inum, off / BSIZE), off % BSIZE, bytes);
            var t := Stored(s, Addr(s, inum, off / BSIZE), page);
            Ok(t) && Wrote(s, t, inum, off, bytes) && Addr(t, inum, off / BSIZE) == Addr(s, inum, off / BSIZE)
  {
    var k := off / BSIZE;
    var page := WriteBytes(Content(s, inum, k), off % BSIZE, bytes);
    var t := Stored(s, Addr(s, inum, k), page);
    WriteStep(s, inum, k, page);
    forall x | 0 <= x < LIMIT ensures ByteIs(s, t, inum, off, bytes, x) {
      if x / BSIZE == k {
        assert Byte(page, x % BSIZE) ==
               if off % BSIZE <= x % BSIZE < off % BSIZE + |bytes| then bytes[x % BSIZE - off % BSIZE]
               else Byte(Content(s, inum, k), x % BSIZE);
      }
    }
  }

  /** The bitmap block that holds the bit of block `b`. */
  function BitmapBlock(bmapstart: int, b: int): int { b / BPB + bmapstart }

  /** Every block taken from the free ones between `s` and `t` is logged, and so is its bitmap block. */
  ghost predicate Recorded(bmapstart: int, s: Fs, t: Fs, log: set<int>, log': set<int>) {
    && log <= log'
    && forall b :: b in s.role && s.role[b].Free? && b in t.role && !t.role[b].Free? ==>
         b in log' && BitmapBlock(bmapstart, b) in log'
  }

  lemma RecordedTwice(bmapstart: int, s: Fs, t: Fs, u: Fs, inum: int, log: set<int>, log1: set<int>, log2: set<int>)
    requires Recorded(bmapstart, s, t, log, log1) && Recorded(bmapstart, t, u, log1, log2)
    requires forall b :: b in s.role ==> ExtBlock(s, t, inum, b)
    ensures Recorded(bmapstart, s, u, log, log2)
  {
    forall b | b in s.role && s.role[b].Free? && b in u.role && !u.role[b].Free?
      ensures b in log2 && BitmapBlock(bmapstart, b) in log2
    {
      assert ExtBlock(s, t, inum, b);
    }
  }

  predicate DiskFull(used: seq<bool>) { forall b :: 0 <= b < |used| ==> used[b] }

  /** The blocks of the file's own that mapping block `k` may log: the block itself and the indirect block. */
  function OwnBlocks(fs: Fs, inum: int, k: int): set<int>
    requires inum in fs.inodes
  {
    {Addr(fs, inum, k)} +
    if k >= NDIRECT && NDIRECT < |fs.inodes[inum].addrs| then {fs.inodes[inum].addrs[NDIRECT]} else {}
  }

  predicate HasIndirect(ip: Inode) { NDIRECT < |ip.addrs| && ip.addrs[NDIRECT] != 0 }

  /** How many blocks are allocated, at most, when mapping block `k` leads from `s` to `t`. */
  function Allocs(s: Fs, t: Fs, inum: int, k: int): int
    requires inum in s.inodes && inum in t.inodes
  {
    (if Addr(s, inum, k) != 0 then 0 else 1)
    + if k >= NDIRECT && !HasIndirect(s.inodes[inum]) && HasIndirect(t.inodes[inum]) then 1 else 0
  }

  /** Freeing block `k` of the file, below NDIRECT or listed in the indirect block. */
  lemma FreeDataBlock(s: Fs, t: Fs, inum: int, k: int, d: int, e: int)
    requires Ok(s) && inum in s.inodes && Freed(s, t, inum, d, e, false) && 0 <= d <= NDIRECT <= e <= MAXFILE
    requires (k == d < NDIRECT || k == e < MAXFILE) && Addr(s, inum, k) != 0
    ensures var b := Addr(s, inum, k);
            && 0 <= b < |t.used| && t.used[b] && b in t.role
            && var u := t.(used := t.used[b := false], role := t.role[b := Free]);
               if k == d then Freed(s, u, inum, d + 1, e, false) else Freed(s, u, inum, d, e + 1, false)
  {
    RoleOfBlock(s, inum, k);
    var b := Addr(s, inum, k);
    if k == d {
      FreeOne(s, t, inum, b, d, e, false, d + 1, e, false);
    } else {
      FreeOne(s, t, inum, b, d, e, false, d, e + 1, false);
    }
  }

  lemma NothingFreed(s: Fs, inum: int)
    requires Ok(s)
    ensures Freed(s, s, inum, 0, NDIRECT, false)
  {
    BitmapOf(s);
    forall b | b in s.role ensures !Gone(s.role[b], inum, 0, NDIRECT, false) { RoleAt(s, b); }
  }

  /** A file without an indirect block has nothing more to free. */
  lemma NoIndirect(s: Fs, t: Fs, inum: int)
    requires Ok(s) && inum in s.inodes && Freed(s, t, inum, NDIRECT, NDIRECT, false)
    requires |s.inodes[inum].addrs| == NDIRECT + 1 && s.inodes[inum].addrs[NDIRECT] == 0
    ensures Freed(s, t, inum, NDIRECT, MAXFILE, true)
  {
    RoleOfIndirect(s, inum);
    forall b | b in s.role
      ensures Gone(s.role[b], inum, NDIRECT, MAXFILE, true) <==> Gone(s.role[b], inum, NDIRECT, NDIRECT, false)
    {
      RoleAt(s, b);
      assert s.role[b].Data? && s.role[b].inum == inum ==> Addr(s, inum, s.role[b].k) == b != 0;
    }
  }

  lemma FreeIndirectBlock(s: Fs, t: Fs, inum: int)
    requires Ok(s) && inum in s.inodes && Freed(s, t, inum, NDIRECT, MAXFILE, false)
    requires |s.inodes[inum].addrs| == NDIRECT + 1 && s.inodes[inum].addrs[NDIRECT] != 0
    ensures var b := s.inodes[inum].addrs[NDIRECT];
            && 0 <= b < |t.used| && t.used[b] && b in t.role
            && Freed(s, t.(used := t.used[b := false], role := t.role[b := Free]), inum, NDIRECT, MAXFILE, true)
  {
    RoleOfIndirect(s, inum);
    FreeOne(s, t, inum, s.inodes[inum].addrs[NDIRECT], NDIRECT, MAXFILE, false, NDIRECT, MAXFILE, true);
  }

  /** Truncating one file leaves every file without holes. */
  lemma TruncatedDense(s: Fs, t: Fs, inum: int)
    requires Ok(s) && AllDense(s) && Truncated(s, t, inum) && OneFile(s, t, inum)
    ensures AllDense(t)
  {
    forall i | i in t.inodes ensures Dense(t, i) {
      if i != inum {
        assert Dense(s, i);
        forall k | 0 <= k && k * BSIZE < t.inodes[i].size ensures Addr(t, i, k) != 0 { OtherFile(s, t, inum, i, k); }
      }
    }
  }

  // ---- What a write logs ----

  /** The number of blocks that `n` bytes from `off` on lie in. */
  function Blocks(off: nat, n: nat): nat { (off % BSIZE + n + BSIZE - 1) / BSIZE }

  /** An unaligned write starts in a block the file has already. */
  function Skip(off: nat): nat { if off % BSIZE == 0 then 0 else 1 }

  /** The most blocks a write can log: data, bitmap, indirect block (and its bitmap block), inode. */
  function LogBound(off: nat, n: nat): nat { if n == 0 then 1 else 2 * Blocks(off, n) - Skip(off) + 3 }

  /** One chunk of filewrite fits the reservation of one operation, and no larger number of full blocks would. */
  lemma ChunkBound(off: nat, n: nat)
    requires n <= (MAXOPBLOCKS - 1 - 1 - 2) / 2 * BSIZE
    ensures LogBound(off, n) <= MAXOPBLOCKS
    ensures n == 3 * BSIZE && off % BSIZE != 0 ==> LogBound(off, n) == MAXOPBLOCKS
    ensures off % BSIZE != 0 ==> LogBound(off, 4 * BSIZE) > MAXOPBLOCKS
  {
  }

  /** What has been logged after `c` blocks: `own` are data blocks, `bits` bitmap blocks. */
  ghost predicate Tally(fs: Fs, inum: int, logged0: set<int>, logged: set<int>, own: set<int>, bits: set<int>,
                        ind: bool, c: nat, skip: nat)
    requires inum in fs.inodes
  {
    && |fs.inodes[inum].addrs| == NDIRECT + 1 && (ind ==> fs.inodes[inum].addrs[NDIRECT] != 0)
    && (c == 0 ==> !ind) && |own| <= c && |bits| <= c - (if c > 0 then skip else 0) + (if ind then 1 else 0)
    && logged <= logged0 + bits + own + (if ind then {fs.inodes[inum].addrs[NDIRECT]} else {})
  }

  /** The indirect block of a file stays where it is. */
  lemma IndirectStays(s: Fs, t: Fs, inum: int)
    requires Ok(s) && Ok(t) && Grows(s, t, inum)
    ensures |s.inodes[inum].addrs| == |t.inodes[inum].addrs| == NDIRECT + 1
    ensures s.inodes[inum].addrs[NDIRECT] != 0 ==> t.inodes[inum].addrs[NDIRECT] == s.inodes[inum].addrs[NDIRECT]
  {
    RoleOfIndirect(s, inum);
    RoleOfIndirect(t, inum);
    var a := s.inodes[inum].addrs[NDIRECT];
    assert a != 0 ==> ExtBlock(s, t, inum, a);
  }

  /** Whether an indirect block is in play once block `k` has been mapped. */
  predicate UsesIndirect(ind: bool, ip: Inode, k: int) { ind || (k >= NDIRECT && HasIndirect(ip)) }

  /** One more block in the tally. */
  lemma TallyNext(s: Fs, t: Fs, inum: int, k: int, logged0: set<int>, logged: set<int>, logged': set<int>,
                  own: set<int>, bits: set<int>, more: set<int>, ind: bool, c: nat, skip: nat)
    requires Ok(s) && Ok(t) && Grows(s, t, inum) && 0 <= k < MAXFILE && skip <= 1
    requires Tally(s, inum, logged0, logged, own, bits, ind, c, skip)
    requires |more| <= Allocs(s, t, inum, k) && logged' <= logged + more + OwnBlocks(t, inum, k)
    requires c == 0 && skip == 1 ==> Addr(s, inum, k) != 0
    ensures Tally(t, inum, logged0, logged', own + {Addr(t, inum, k)}, bits + more,
                  UsesIndirect(ind, t.inodes[inum], k), c + 1, skip)
  {
    IndirectStays(s, t, inum);
    RoleOfIndirect(t, inum);
    assert |own + {Addr(t, inum, k)}| <= |own| + 1;
    assert |bits + more| <= |bits| + |more|;
  }

  lemma TallyBound(fs: Fs, inum: int, logged0: set<int>, logged: set<int>, own: set<int>, bits: set<int>,
                   ind: bool, c: nat, off: nat, n: nat)
    requires inum in fs.inodes && Tally(fs, inum, logged0, logged, own, bits, ind, c, Skip(off))
    requires c <= Blocks(off, n) && (n == 0 ==> c == 0)
    ensures |logged - logged0| < LogBound(off, n)
  {
    var rest := if ind then {fs.inodes[inum].addrs[NDIRECT]} else {};
    assert logged - logged0 <= bits + own + rest;
    Subset(logged - logged0, bits + own + rest);
    assert |bits + own + rest| <= |bits + own| + |rest| <= |bits| + |own| + |rest|;
  }

  lemma {:induction false} Subset(a: set<int>, b: set<int>)
    requires a <= b
    ensures |a| <= |b|
  {
    assert b == a + (b - a);
  }

  /** After `c` blocks, either all is written or the next position is a block boundary. */
  ghost predicate Boundary(off: nat, n: nat, tot: nat, c: nat) {
    forall d: nat {:trigger Counted(d)} :: d == c && Counted(d) ==>
      if c == 0 then tot == 0
      else off + tot <= (off / BSIZE + c) * BSIZE && (tot == n || off + tot == (off / BSIZE + c) * BSIZE)
  }

  /** Conditions on a count are unfolded only for one that a proof mentions with this. */
  ghost predicate Counted(c: nat) { true }

  /** One more block starts before the end of what is to be written. */
  lemma OneMoreBlock(off: nat, n: nat, tot: nat, c: nat)
    requires tot < n && c <= Blocks(off, n) && Boundary(off, n, tot, c)
    ensures c < Blocks(off, n) && (c == 0 ==> tot == 0)
  {
    assert Counted(c);
  }

  lemma BlockEnds(off: nat, n: nat, tot: nat, c: nat, m: nat)
    requires tot < n && Boundary(off, n, tot, c)
    requires m == if n - tot < BSIZE - (off + tot) % BSIZE then n - tot else BSIZE - (off + tot) % BSIZE
    ensures m >= 1 && tot + m <= n && Boundary(off, n, tot + m, c + 1)
  {
    assert Counted(c);
  }

  lemma AllBlocks(off: nat, n: nat, c: nat)
    requires n > 0 && Boundary(off, n, n, c)
    ensures c >= Blocks(off, n)
  {
    assert Counted(c);
  }

  // ---- A whole write ----

  ghost predicate DenseTo(fs: Fs, inum: int, x: int)
    requires inum in fs.inodes
  {
    forall k :: 0 <= k && k * BSIZE < x ==> Addr(fs, inum, k) != 0
  }

  /** Writing on from `off`, up to which there are no holes, through the block that holds it. */
  lemma DenseNext(s: Fs, t: Fs, inum: int, off: nat, m: nat)
    requires Grows(s, t, inum) && DenseTo(s, inum, off) && 0 <= off < LIMIT && m <= BSIZE - off % BSIZE
    requires Addr(t, inum, off / BSIZE) != 0
    ensures DenseTo(t, inum, off + m)
  {
    forall k | 0 <= k && k * BSIZE < off + m ensures Addr(t, inum, k) != 0 {
      assert k != off / BSIZE ==> k * BSIZE < off;
    }
  }

  lemma DenseStays(s: Fs, t: Fs, inum: int, x: int)
    requires Grows(s, t, inum) && DenseTo(s, inum, x) && x <= LIMIT
    ensures DenseTo(t, inum, x)
  {
  }

  /** One more piece of `src` written, or none. */
  lemma WroteOn(s: Fs, t: Fs, u: Fs, inum: int, off: nat, src: seq<int>, tot: nat, m: nat)
    requires tot + m <= |src| && off + |src| <= LIMIT && off + tot < LIMIT && m <= BSIZE - (off + tot) % BSIZE
    requires Wrote(s, t, inum, off, src[..tot]) && DenseTo(t, inum, off + tot)
    requires Wrote(t, u, inum, off + tot, src[tot..tot + m]) && (m > 0 ==> Addr(u, inum, (off + tot) / BSIZE) != 0)
    ensures Wrote(s, u, inum, off, src[..tot + m]) && DenseTo(u, inum, off + tot + m)
  {
    WroteTwice(s, t, u, inum, off, src[..tot], src[tot..tot + m]);
    assert src[..tot] + src[tot..tot + m] == src[..tot + m];
    if m > 0 { DenseNext(t, u, inum, off + tot, m); } else { DenseStays(t, u, inum, off + tot); }
  }

  function Larger(x: int, y: int): int { if x > y then x else y }

  lemma SpliceBytes(s: Fs, t: Fs, inum: int, off: nat, bytes: seq<int>, size: nat)
    requires Wrote(s, t, inum, off, bytes) && off <= s.inodes[inum].size && off + |bytes| <= LIMIT
    requires 0 <= s.inodes[inum].size <= LIMIT && size == Larger(s.inodes[inum].size, off + |bytes|)
    ensures Contents(Resized(t, inum, size), inum) == Splice(Contents(s, inum), off, bytes)
  {
    var u := Resized(t, inum, size);
    var got, want := Contents(u, inum), Splice(Contents(s, inum), off, bytes);
    forall x | 0 <= x < size ensures got[x] == want[x] {
      assert ByteIs(s, t, inum, off, bytes, x);
      assert ByteAt(u, inum, x) == ByteAt(t, inum, x);
    }
  }

  /** After the loop of `writei`: the size is set and every file is still without holes. */
  lemma FinishWrite(s: Fs, t: Fs, inum: int, off: nat, bytes: seq<int>)
    requires Ok(s) && AllDense(s) && Ok(t) && Wrote(s, t, inum, off, bytes) && off <= s.inodes[inum].size
             && off + |bytes| <= LIMIT
    requires DenseTo(t, inum, off + |bytes|)
    ensures var u := Resized(t, inum, Larger(s.inodes[inum].size, off + |bytes|));
            && Ok(u) && AllDense(u) && OneFile(s, u, inum)
            && Contents(u, inum) == Splice(Contents(s, inum), off, bytes)
            && (NoneHeld(s) ==> NoneHeld(u))
            && forall b :: b in s.role ==> ExtBlock(s, u, inum, b)
  {
    var size := Larger(s.inodes[inum].size, off + |bytes|);
    var u := Resized(t, inum, size);
    assert Dense(s, inum);
    SpliceBytes(s, t, inum, off, bytes, size);
    ResizeStep(t, inum, size);
    DenseStays(s, t, inum, s.inodes[inum].size);
    forall i | i in u.inodes ensures Dense(u, i) {
      OneDense(s, t, u, inum, i, size);
    }
    forall b | b in s.role && Other(s.role[b], inum) ensures BlockKept(s.data, s.role, u.data, u.role, b) {
      assert BlockKept(s.data, s.role, t.data, t.role, b);
    }
    forall b | b in s.role ensures ExtBlock(s, u, inum, b) {
      assert ExtBlock(s, t, inum, b);
    }
  }

  lemma OneDense(s: Fs, t: Fs, u: Fs, inum: int, i: int, size: nat)
    requires Ok(s) && AllDense(s) && Grows(s, t, inum) && u == Resized(t, inum, size) && i in u.inodes && size <= LIMIT
    requires DenseTo(t, inum, size)
    ensures Dense(u, i)
  {
    if i != inum {
      assert Dense(s, i);
      forall k | 0 <= k && k * BSIZE < u.inodes[i].size ensures Addr(u, i, k) != 0 {
        OtherFile(s, t, inum, i, k);
      }
    } else {
      forall k | 0 <= k && k * BSIZE < size ensures Addr(u, i, k) != 0 {
        assert Addr(t, i, k) != 0;
      }
    }
  }

  /** The bytes of one block that are copied to the caller. */
  function CopyOut(data: map<int, Block>, addr: int, o: int, m: nat): seq<int> {
    seq(m, i => if addr in data then Byte(data[addr], o + i) else 0)
  }

  /** They continue what has been read before. */
  lemma ReadMore(s: Fs, inum: int, off: nat, tot: nat, m: nat)
    requires inum in s.inodes && off + tot + m <= s.inodes[inum].size && m <= BSIZE - (off + tot) % BSIZE
    ensures var cur := off + tot;
            Contents(s, inum)[off..cur] + CopyOut(s.data, Addr(s, inum, cur / BSIZE), cur % BSIZE, m)
            == Contents(s, inum)[off..cur + m]
  {
    var cur := off + tot;
    var all := Contents(s, inum);
    var piece := CopyOut(s.data, Addr(s, inum, cur / BSIZE), cur % BSIZE, m);
    assert piece == all[cur..cur + m] by {
      forall i | 0 <= i < m ensures piece[i] == all[cur + i] {
        assert (cur + i) / BSIZE == cur / BSIZE && (cur + i) % BSIZE == cur % BSIZE + i;
        assert all[cur + i] == ByteAt(s, inum, cur + i);
      }
    }
    assert all[off..cur] + all[cur..cur + m] == all[off..cur + m];
  }

  lemma SpliceTwice(c: seq<int>, off: nat, a: seq<int>, b: seq<int>)
    requires off <= |c|
    ensures off + |a| <= |Splice(c, off, a)| && Splice(Splice(c, off, a), off + |a|, b) == Splice(c, off, a + b)
  {
  }

  /** What has been written after one more chunk. */
  lemma SpliceChunk(c: seq<int>, off: nat, src: seq<int>, i: nat, n1: nat, got: nat)
    requires off <= |c| && i + n1 <= |src| && got <= n1
    ensures off + i <= |Splice(c, off, src[..i])|
    ensures Splice(Splice(c, off, src[..i]), off + i, src[i..i + n1][..got]) == Splice(c, off, src[..i + got])
  {
    SpliceTwice(c, off, src[..i], src[i..i + n1][..got]);
    assert src[..i] + src[i..i + n1][..got] == src[..i + got];
  }

  /** Reading, writing or truncating one file leaves what the others hold unchanged. */
  lemma OtherContents(s: Fs, t: Fs, inum: int, other: int)
    requires Ok(s) && AllDense(s) && OneFile(s, t, inum) && other in s.inodes && other != inum
    ensures other in t.inodes && 0 <= t.inodes[other].size == s.inodes[other].size
            && Contents(t, other) == Contents(s, other)
  {
    assert Dense(s, other);
    forall x | 0 <= x < s.inodes[other].size ensures ByteAt(t, other, x) == ByteAt(s, other, x) {
      OtherFile(s, t, inum, other, x / BSIZE);
    }
  }

  lemma OneFileSame(s: Fs, inum: int)
    requires Ok(s) && inum in s.inodes
    ensures OneFile(s, s, inum)
  {
    BitmapOf(s);
    assert s.inodes[inum := s.inodes[inum]] == s.inodes;
    forall b | b in s.role && Other(s.role[b], inum) ensures BlockKept(s.data, s.role, s.data, s.role, b) {
      InData(s, b);
    }
  }

  lemma OneFileTwice(s: Fs, t: Fs, u: Fs, inum: int)
    requires OneFile(s, t, inum) && OneFile(t, u, inum)
    ensures OneFile(s, u, inum)
  {
  }

  /** The file held `c`, and now has the first `w` bytes of `src` from `off` on. */
  ghost predicate Reached(fs: Fs, inum: int, c: seq<int>, off: nat, src: seq<int>, w: nat) {
    && inum in fs.inodes && 0 <= fs.inodes[inum].size && off <= |c| && w <= |src|
    && Contents(fs, inum) == Splice(c, off, src[..w])
  }

  /** The size of the chunks that filewrite writes, one operation each. */
  const CHUNK := (MAXOPBLOCKS - 1 - 1 - 2) / 2 * BSIZE

  function ChunkLen(n: nat, i: nat): nat
    requires i <= n
  {
    if n - i > CHUNK then CHUNK else n - i
  }

  /** How many copies of chunk `j` succeed; all of them if nothing is said about it. */
  function CopiesOf(copies: seq<nat>, j: nat): nat { if j < |copies| then copies[j] else CHUNK }

  /** Every copy of chunk `j` of a write of `n` bytes succeeds. */
  predicate ChunkCopied(copies: seq<nat>, off: nat, n: nat, j: nat) {
    j * CHUNK < n ==> CopiesOf(copies, j) >= Blocks(off + j * CHUNK, ChunkLen(n, j * CHUNK))
  }

  ghost predicate AllCopied(copies: seq<nat>, off: nat, n: nat) {
    forall j: nat :: ChunkCopied(copies, off, n, j)
  }

  /** The first `i` bytes are whole chunks, or all there is, and every copy of them has succeeded. */
  ghost predicate CopiedTo(copies: seq<nat>, off: nat, n: nat, i: nat, j: nat) {
    forall c: nat {:trigger Counted(c)} :: c == j && Counted(c) ==>
      if i < n then i == j * CHUNK && forall k: nat :: k < j ==> ChunkCopied(copies, off, n, k)
      else i == n && AllCopied(copies, off, n)
  }

  lemma CopiedAll(copies: seq<nat>, off: nat, n: nat, j: nat)
    requires CopiedTo(copies, off, n, n, j)
    ensures AllCopied(copies, off, n)
  {
    assert Counted(j);
  }

  lemma ThisChunk(copies: seq<nat>, off: nat, n: nat, i: nat, j: nat)
    requires i < n && CopiedTo(copies, off, n, i, j)
    ensures ChunkCopied(copies, off, n, j) <==> CopiesOf(copies, j) >= Blocks(off + i, ChunkLen(n, i))
  {
    assert Counted(j);
  }

  lemma CopiedNext(copies: seq<nat>, off: nat, n: nat, i: nat, j: nat)
    requires i < n && CopiedTo(copies, off, n, i, j) && ChunkCopied(copies, off, n, j)
    ensures CopiedTo(copies, off, n, i + ChunkLen(n, i), j + 1)
  {
    assert Counted(j);
    if n - i <= CHUNK {
      forall k: nat ensures ChunkCopied(copies, off, n, k) {
        if k > j { assert k * CHUNK >= n; }
      }
    }
  }

  function U32(x: int): int { x % 0x1_0000_0000 }

  /** The two halves of mapping a block that the indirect block lists. */
  lemma BothHalves(s: Fs, t: Fs, u: Fs, inum: int, k: int, q: int, bits: set<int>, more: set<int>,
                   log: set<int>, log1: set<int>, log2: set<int>)
    requires Ext(s, t, inum) && Ext(t, u, inum) && NDIRECT <= k < MAXFILE
    requires q != 0 && |u.inodes[inum].addrs| == NDIRECT + 1 && q == u.inodes[inum].addrs[NDIRECT]
    requires |bits| <= 1 && (HasIndirect(s.inodes[inum]) ==> bits == {}) && log1 <= log + bits + {q}
    requires |more| <= 1 && (Addr(t, inum, k) != 0 ==> more == {}) && log2 <= log1 + more + {Addr(u, inum, k), q}
    ensures |bits + more| <= Allocs(s, u, inum, k) && log2 <= log + (bits + more) + OwnBlocks(u, inum, k)
  {
    assert ExtAddr(s, t, inum, k);
    assert |bits + more| <= |bits| + |more|;
  }

  /** Every block of the file that [off, off + tot) reaches into is logged. */
  ghost predicate DataLogged(fs: Fs, inum: int, off: nat, tot: nat, log: set<int>)
    requires inum in fs.inodes
  {
    forall k :: off / BSIZE <= k && k * BSIZE < off + tot && tot > 0 ==> Addr(fs, inum, k) in log
  }

  lemma ResizedLogged(bmapstart: int, s: Fs, fs: Fs, inum: int, size: int, off: nat, tot: nat,
                      log0: set<int>, log: set<int>, log': set<int>)
    requires inum in fs.inodes && DataLogged(fs, inum, off, tot, log) && log <= log'
             && Recorded(bmapstart, s, fs, log0, log)
    ensures DataLogged(Resized(fs, inum, size), inum, off, tot, log')
    ensures Recorded(bmapstart, s, Resized(fs, inum, size), log0, log')
  {
    forall k ensures Addr(Resized(fs, inum, size), inum, k) == Addr(fs, inum, k) { }
  }

  /** The books after one more block, written (`m` bytes) or not. */
  lemma BooksNext(bmapstart: int, s: Fs, t: Fs, u: Fs, inum: int, off: nat, tot: nat, m: nat,
                  log: set<int>, log1: set<int>, log2: set<int>)
    requires Grows(s, t, inum) && Grows(t, u, inum) && off + tot < LIMIT && m <= BSIZE - (off + tot) % BSIZE
    requires Recorded(bmapstart, s, t, log, log1) && Recorded(bmapstart, t, u, log1, log2)
    requires DataLogged(t, inum, off, tot, log1) && DenseTo(t, inum, off + tot)
    requires m > 0 ==> Addr(u, inum, (off + tot) / BSIZE) in log2
    ensures Recorded(bmapstart, s, u, log, log2) && DataLogged(u, inum, off, tot + m, log2)
  {
    RecordedTwice(bmapstart, s, t, u, inum, log, log1, log2);
    forall k | off / BSIZE <= k && k * BSIZE < off + tot + m && tot + m > 0 ensures Addr(u, inum, k) in log2 {
      if k != (off + tot) / BSIZE || m == 0 {
        assert k * BSIZE < off + tot && tot > 0;
        assert Addr(t, inum, k) != 0 && Addr(t, inum, k) in log1;
      }
    }
  }

  ghost predicate Shown(fs: Fs) { true }

  /**
   * The first `tot` bytes of `src` have reached the file, and the books are right.
   * Unfolded only for a state that a proof mentions with `Shown`.
   */
  ghost predicate Progress(bmapstart: int, s: Fs, t: Fs, inum: int, off: nat, src: seq<int>, tot: nat,
                           log: set<int>, log': set<int>) {
    forall f {:trigger Shown(f)} :: f == t && Shown(f) ==>
      && inum in f.inodes && tot <= |src| && Wrote(s, f, inum, off, src[..tot]) && DenseTo(f, inum, off + tot)
      && Recorded(bmapstart, s, f, log, log') && DataLogged(f, inum, off, tot, log')
  }

  lemma ProgressNext(bmapstart: int, s: Fs, t: Fs, u: Fs, inum: int, off: nat, src: seq<int>, tot: nat, m: nat,
                     log: set<int>, log1: set<int>, log2: set<int>)
    requires tot + m <= |src| && off + |src| <= LIMIT && off + tot < LIMIT && m <= BSIZE - (off + tot) % BSIZE
    requires Progress(bmapstart, s, t, inum, off, src, tot, log, log1)
    requires Wrote(t, u, inum, off + tot, src[tot..tot + m]) && Recorded(bmapstart, t, u, log1, log2)
    requires m > 0 ==> Addr(u, inum, (off + tot) / BSIZE) != 0 && Addr(u, inum, (off + tot) / BSIZE) in log2
    ensures Progress(bmapstart, s, u, inum, off, src, tot + m, log, log2)
  {
    assert Shown(t);
    WroteOn(s, t, u, inum, off, src, tot, m);
    BooksNext(bmapstart, s, t, u, inum, off, tot, m, log, log1, log2);
  }

  // ---- The bound is reached ----

  predicate FreeIn(s: Fs, b: int) { b in s.role && s.role[b].Free? }

  /** No two free blocks have their bits in one bitmap block; bitmap and inode blocks are metadata. */
  ghost predicate SpreadOut(bmapstart: int, iblock: int, s: Fs) {
    && (forall b, b' :: FreeIn(s, b) && FreeIn(s, b') && b != b' ==>
          BitmapBlock(bmapstart, b) != BitmapBlock(bmapstart, b'))
    && (forall b :: FreeIn(s, b) ==> IsMeta(s, BitmapBlock(bmapstart, b)) && BitmapBlock(bmapstart, b) != iblock)
    && IsMeta(s, iblock)
  }

  predicate IsMeta(s: Fs, b: int) { b in s.role && s.role[b].Meta? }

  /** A block the file did not have was free before. */
  lemma NewBlockWasFree(s: Fs, t: Fs, inum: int, k: int)
    requires Ok(s) && Ok(t) && inum in s.inodes && inum in t.inodes && 0 <= k < MAXFILE
    requires forall b :: b in s.role ==> ExtBlock(s, t, inum, b)
    requires Addr(s, inum, k) == 0 && Addr(t, inum, k) != 0 && s.role.Keys == t.role.Keys
    ensures Addr(t, inum, k) in s.role && s.role[Addr(t, inum, k)].Free? && t.role[Addr(t, inum, k)] == Data(inum, k)
  {
    var a := Addr(t, inum, k);
    RoleOfBlock(t, inum, k);
    assert ExtBlock(s, t, inum, a);
    RoleAt(s, a);
  }

  lemma NewIndirectWasFree(s: Fs, t: Fs, inum: int)
    requires Ok(s) && Ok(t) && inum in s.inodes && inum in t.inodes && s.role.Keys == t.role.Keys
    requires forall b :: b in s.role ==> ExtBlock(s, t, inum, b)
    requires !HasIndirect(s.inodes[inum]) && HasIndirect(t.inodes[inum])
    ensures var q := t.inodes[inum].addrs[NDIRECT]; q in s.role && s.role[q].Free? && t.role[q] == Indirect(inum)
  {
    RoleOfIndirect(t, inum);
    var q := t.inodes[inum].addrs[NDIRECT];
    assert ExtBlock(s, t, inum, q);
    RoleAt(s, q);
  }

  /** The bitmap block of a new block is logged, is metadata, and belongs to no other new block. */
  lemma NewBit(bmapstart: int, iblock: int, s: Fs, t: Fs, inum: int, b: int, log: set<int>)
    requires SpreadOut(bmapstart, iblock, s) && Recorded(bmapstart, s, t, {}, log) && s.role.Keys == t.role.Keys
    requires forall c :: c in s.role ==> ExtBlock(s, t, inum, c)
    requires FreeIn(s, b) && !t.role[b].Free?
    ensures b in log && BitmapBlock(bmapstart, b) in log && IsMeta(t, BitmapBlock(bmapstart, b))
    ensures BitmapBlock(bmapstart, b) != iblock
  {
    assert ExtBlock(s, t, inum, BitmapBlock(bmapstart, b));
  }

  lemma TouchedBlock(t: Fs, inum: int, off: nat, log: set<int>, k: int)
    requires inum in t.inodes && off / BSIZE == NDIRECT - 1 && off % BSIZE != 0 && NDIRECT - 1 <= k <= NDIRECT + 2
    requires DenseTo(t, inum, off + CHUNK) && DataLogged(t, inum, off, CHUNK, log)
    ensures Addr(t, inum, k) != 0 && Addr(t, inum, k) in log
  {
    assert k * BSIZE < off + CHUNK;
  }

  lemma OwnFive(role: map<int, Role>, inum: int, a: int, b: int, c: int, d: int, q: int)
    requires {a, b, c, d, q} <= role.Keys && role[a] == Data(inum, 11) && role[b] == Data(inum, 12)
    requires role[c] == Data(inum, 13) && role[d] == Data(inum, 14) && role[q] == Indirect(inum)
    ensures |{a, b, c, d, q}| == 5 && b != c && b != d && b != q && c != d && c != q && d != q
  {
    Five(a, b, c, d, q);
  }

  /** The metadata blocks that go with four new blocks. */
  ghost function MetaBlocks(bmapstart: int, iblock: int, b: int, c: int, d: int, q: int): set<int> {
    {BitmapBlock(bmapstart, b), BitmapBlock(bmapstart, c), BitmapBlock(bmapstart, d), BitmapBlock(bmapstart, q), iblock}
  }

  lemma MetaFive(bmapstart: int, iblock: int, s: Fs, b: int, c: int, d: int, q: int)
    requires SpreadOut(bmapstart, iblock, s) && FreeIn(s, b) && FreeIn(s, c) && FreeIn(s, d) && FreeIn(s, q)
    requires b != c && b != d && b != q && c != d && c != q && d != q
    ensures |MetaBlocks(bmapstart, iblock, b, c, d, q)| == 5
  {
    Five(BitmapBlock(bmapstart, b), BitmapBlock(bmapstart, c), BitmapBlock(bmapstart, d), BitmapBlock(bmapstart, q),
      iblock);
  }

  /** Blocks of files are not metadata blocks. */
  lemma Apart(t: Fs, a: int, b: int, c: int, d: int, q: int, a': int, b': int, c': int, d': int, q': int)
    requires {a, b, c, d, q} <= t.role.Keys
    requires !t.role[a].Meta? && !t.role[b].Meta? && !t.role[c].Meta? && !t.role[d].Meta? && !t.role[q].Meta?
    requires IsMeta(t, a') && IsMeta(t, b') && IsMeta(t, c') && IsMeta(t, d') && IsMeta(t, q')
    ensures {a, b, c, d, q} !! {a', b', c', d', q'}
  {
  }

  /** Five blocks of a file, four of them new, with the metadata blocks that go with them. */
  lemma TenDistinct(bmapstart: int, iblock: int, s: Fs, t: Fs, inum: int, a: int, b: int, c: int, d: int, q: int,
                    log: set<int>)
    requires {a, b, c, d, q} <= t.role.Keys && t.role[a] == Data(inum, 11) && t.role[b] == Data(inum, 12)
    requires t.role[c] == Data(inum, 13) && t.role[d] == Data(inum, 14) && t.role[q] == Indirect(inum)
    requires s.role.Keys == t.role.Keys && FreeIn(s, b) && FreeIn(s, c) && FreeIn(s, d) && FreeIn(s, q)
    requires forall x :: x in s.role ==> ExtBlock(s, t, inum, x)
    requires SpreadOut(bmapstart, iblock, s) && Recorded(bmapstart, s, t, {}, log) && a in log && iblock in log
    ensures |log| >= MAXOPBLOCKS
  {
    OwnFive(t.role, inum, a, b, c, d, q);
    MetaFive(bmapstart, iblock, s, b, c, d, q);
    assert ExtBlock(s, t, inum, iblock);
    NewBit(bmapstart, iblock, s, t, inum, b, log);
    NewBit(bmapstart, iblock, s, t, inum, c, log);
    NewBit(bmapstart, iblock, s, t, inum, d, log);
    NewBit(bmapstart, iblock, s, t, inum, q, log);
    Apart(t, a, b, c, d, q, BitmapBlock(bmapstart, b), BitmapBlock(bmapstart, c), BitmapBlock(bmapstart, d),
          BitmapBlock(bmapstart, q), iblock);
    Subset({a, b, c, d, q} + MetaBlocks(bmapstart, iblock, b, c, d, q), log);
  }

  lemma LongFile(fs: Fs, inum: int, x: int)
    requires inum in fs.inodes && Dense(fs, inum) && |Contents(fs, inum)| >= x
    ensures DenseTo(fs, inum, x)
  {
  }

  /**
   * An unaligned chunk that runs from the last direct block into three blocks of
   * a file without an indirect block logs ten blocks, if the free blocks are
   * spread over the bitmap.
   */
  lemma TenBlocks(bmapstart: int, iblock: int, s: Fs, t: Fs, inum: int, off: nat, log: set<int>)
    requires Ok(s) && Ok(t) && inum in s.inodes && inum in t.inodes && s.role.Keys == t.role.Keys
    requires forall b :: b in s.role ==> ExtBlock(s, t, inum, b)
    requires off / BSIZE == NDIRECT - 1 && off % BSIZE != 0 && !HasIndirect(s.inodes[inum])
    requires DenseTo(t, inum, off + CHUNK) && DataLogged(t, inum, off, CHUNK, log)
    requires SpreadOut(bmapstart, iblock, s) && Recorded(bmapstart, s, t, {}, log) && iblock in log
    ensures |log| >= MAXOPBLOCKS
  {
    TouchedBlock(t, inum, off, log, 11);
    TouchedBlock(t, inum, off, log, 12);
    TouchedBlock(t, inum, off, log, 13);
    TouchedBlock(t, inum, off, log, 14);
    RoleOfIndirect(s, inum);
    RoleOfIndirect(t, inum);
    RoleOfBlock(t, inum, 11);
    NewBlockWasFree(s, t, inum, 12);
    NewBlockWasFree(s, t, inum, 13);
    NewBlockWasFree(s, t, inum, 14);
    NewIndirectWasFree(s, t, inum);
    TenDistinct(bmapstart, iblock, s, t, inum, Addr(t, inum, 11), Addr(t, inum, 12), Addr(t, inum, 13),
      Addr(t, inum, 14),
                t.inodes[inum].addrs[NDIRECT], log);
  }

  lemma Five(a: int, b: int, c: int, d: int, e: int)
    requires a != b && a != c && a != d && a != e && b != c && b != d && b != e && c != d && c != e && d != e
    ensures |{a, b, c, d, e}| == 5
  {
  }

  /** Five blocks taken from different bitmap blocks would be too much for one operation. */
  lemma FiveTaken(bmapstart: int, iblock: int, s: Fs, t: Fs, inum: int, a: int, b: int, c: int, d: int, e: int,
                  log: set<int>)
    requires SpreadOut(bmapstart, iblock, s) && Recorded(bmapstart, s, t, {}, log) && s.role.Keys == t.role.Keys
    requires forall x :: x in s.role ==> ExtBlock(s, t, inum, x)
    requires FreeIn(s, a) && FreeIn(s, b) && FreeIn(s, c) && FreeIn(s, d) && FreeIn(s, e)
    requires a != b && a != c && a != d && a != e && b != c && b != d && b != e && c != d && c != e && d != e
    requires !t.role[a].Free? && !t.role[b].Free? && !t.role[c].Free? && !t.role[d].Free? && !t.role[e].Free?
    requires iblock in log
    ensures |log| > MAXOPBLOCKS
  {
    Five(a, b, c, d, e);
    MetaFive(bmapstart, iblock, s, a, b, c, d);
    assert ExtBlock(s, t, inum, iblock);
    NewBit(bmapstart, iblock, s, t, inum, a, log);
    NewBit(bmapstart, iblock, s, t, inum, b, log);
    NewBit(bmapstart, iblock, s, t, inum, c, log);
    NewBit(bmapstart, iblock, s, t, inum, d, log);
    NewBit(bmapstart, iblock, s, t, inum, e, log);
    assert ExtBlock(s, t, inum, a) && ExtBlock(s, t, inum, b) && ExtBlock(s, t, inum, c);
    assert ExtBlock(s, t, inum, d) && ExtBlock(s, t, inum, e);
    Apart(t, a, b, c, d, e, BitmapBlock(bmapstart, a), BitmapBlock(bmapstart, b), BitmapBlock(bmapstart, c),
          BitmapBlock(bmapstart, d), iblock);
    var own, meta := {a, b, c, d, e}, MetaBlocks(bmapstart, iblock, a, b, c, d);
    var last := BitmapBlock(bmapstart, e);
    assert last !in own && last !in meta;
    Subset((own + meta) + {last}, log);
  }

  // ---- A state in which a chunk logs ten blocks ----

  const SPREAD := 5 * BPB

  /** A disk of five bitmap blocks with one free block for each; blocks 100 to 111 are those of file 1. */
  function SpreadRole(b: int): Role {
    if b % BPB == BPB - 1 then Free else if 100 <= b < 100 + NDIRECT then Data(1, b - 100) else Meta
  }

  function SpreadUsed(): seq<bool> { seq(SPREAD, b => b % BPB != BPB - 1) }

  function SpreadBlock(b: int): Block { Zero }

  function SpreadData(): map<int, Block> { map b | 100 <= b < 100 + NDIRECT :: SpreadBlock(b) }

  function SpreadInode(): Inode {
    Inode([100, 101, 102, 103, 104, 105, 106, 107, 108, 109, 110, 111, 0], 11 * BSIZE + 1)
  }

  ghost function SpreadFs(): Fs {
    Fs(SpreadUsed(), SpreadData(), map[1 := SpreadInode()], map b | 0 <= b < SPREAD :: SpreadRole(b))
  }

  lemma SpreadIsOk()
    ensures Ok(SpreadFs()) && AllDense(SpreadFs()) && NoneHeld(SpreadFs())
  {
    var fs := SpreadFs();
    assert forall k :: 0 <= k < NDIRECT ==> fs.inodes[1].addrs[k] == 100 + k;
    forall k | 0 <= k < MAXFILE ensures AddrOk(fs.data, fs.role, 1, fs.inodes[1], k) {
      assert k < NDIRECT ==> SpreadRole(100 + k) == Data(1, k);
    }
    forall b | b in fs.role ensures RoleOk(fs.data, fs.inodes, b, fs.role[b]) { }
    forall k | 0 <= k && k * BSIZE < fs.inodes[1].size ensures Addr(fs, 1, k) != 0 {
      assert k < NDIRECT;
    }
  }

  lemma SpreadIsSpread()
    ensures SpreadOut(2, 1, SpreadFs())
  {
    var fs := SpreadFs();
    forall b | FreeIn(fs, b) ensures b % BPB == BPB - 1 && 0 <= b / BPB < 5 { }
    forall b, b' | FreeIn(fs, b) && FreeIn(fs, b') && b != b' ensures BitmapBlock(2, b) != BitmapBlock(2, b') { }
    forall b | FreeIn(fs, b) ensures IsMeta(fs, BitmapBlock(2, b)) && BitmapBlock(2, b) != 1 {
      assert 2 <= BitmapBlock(2, b) < 7;
    }
  }

  class FileSystem {
    const bmapstart: int
    const inodestart: int
    var used: seq<bool>
    var data: map<int, Block>
    var inodes: map<int, Inode>
    ghost var role: map<int, Role>
    ghost var logged: set<int>

    constructor (bmapstart: int, inodestart: int, used: seq<bool>, data: map<int, Block>, inodes: map<int, Inode>,
                 ghost role: map<int, Role>)
      requires Ok(Fs(used, data, inodes, role)) && AllDense(Fs(used, data, inodes, role))
               && NoneHeld(Fs(used, data, inodes, role))
      ensures Valid() && S() == Fs(used, data, inodes, role) && logged == {}
      ensures this.bmapstart == bmapstart && this.inodestart == inodestart
    {
      this.bmapstart := bmapstart;
      this.inodestart := inodestart;
      this.used := used;
      this.data := data;
      this.inodes := inodes;
      this.role := role;
      logged := {};
    }

    ghost function S(): Fs
      reads this
    {
      Fs(used, data, inodes, role)
    }

    ghost predicate Valid()
      reads this
    {
      Ok(S()) && AllDense(S()) && NoneHeld(S())
    }

    function BBlock(b: int): int { BitmapBlock(bmapstart, b) }

    function IBlock(inum: int): int { inum / IPB + inodestart }

    /** `balloc`: the first free block, zeroed; 0 if there is none. */
    method Balloc() returns (b: int)
      requires Ok(S())
      modifies this`used, this`data, this`role, this`logged
      ensures Ok(S())
      ensures b == 0 ==> DiskFull(used) && S() == old(S()) && logged == old(logged)
      ensures b != 0 ==> b in old(role) && old(role)[b] == Free && 0 <= b < |old(used)| && S() == Alloc(old(S()), b)
      ensures b != 0 ==> (forall i :: 0 <= i < b ==> old(used)[i]) && logged == old(logged) + {BBlock(b), b}
    {
      ghost var s := S();
      BitmapOf(s);
      var base := 0;
      while base < |used|
        invariant 0 <= base && S() == s && logged == old(logged)
        invariant forall i :: 0 <= i < base && i < |used| ==> used[i]
      {
        var bi := 0;
        while bi < BPB && base + bi < |used|
          invariant 0 <= bi <= BPB && base + bi <= |used| && S() == s && logged == old(logged)
          invariant forall i :: 0 <= i < base + bi ==> used[i]
        {
          if !used[base + bi] {
            b := base + bi;
            used := used[b := true];
            logged := logged + {BBlock(b)};
            data := data[b := Zero];
            logged := logged + {b};
            role := role[b := Held];
            RoleAt(s, b);
            LooseBlock(s, S(), b);
            return;
          }
          bi := bi + 1;
        }
        base := base + BPB;
      }
      return 0;
    }

    /** `bfree`; the precondition excludes panic("freeing free block"). */
    method Bfree(b: int)
      requires BitmapOk(used, role) && 0 <= b < |used| && used[b]
      modifies this`used, this`role, this`logged
      ensures used == old(used)[b := false] && role == old(role)[b := Free] && logged == old(logged) + {BBlock(b)}
    {
      used := used[b := false];
      logged := logged + {BBlock(b)};
      role := role[b := Free];
    }

    /** `bmap`; `bits` are the bitmap blocks it logs. */
    method Bmap(inum: int, bn: int) returns (addr: int, ghost bits: set<int>)
      requires Ok(S()) && inum in inodes && 0 <= bn < MAXFILE
      modifies this
      ensures Ok(S()) && Ext(old(S()), S(), inum) && addr == Addr(S(), inum, bn)
      ensures old(Addr(S(), inum, bn)) != 0 ==> S() == old(S()) && logged == old(logged)
      ensures addr == 0 ==> DiskFull(used)
      ensures |bits| <= Allocs(old(S()), S(), inum, bn) && logged <= old(logged) + bits + OwnBlocks(S(), inum, bn)
      ensures Recorded(bmapstart, old(S()), S(), old(logged), logged)
    {
      ghost var s := S();
      InodeAt(s, inum);
      ExtRefl(s, inum);
      bits := {};
      var ip := inodes[inum];
      if bn < NDIRECT {
        addr := ip.addrs[bn];
        if addr == 0 {
          addr := Balloc();
          if addr == 0 {
            return;
          }
          bits := {BBlock(addr)};
          DirectStep(s, inum, bn, addr);
          inodes := inodes[inum := ip.(addrs := ip.addrs[bn := addr])];
          role := role[addr := Data(inum, bn)];
        }
        return;
      }
      addr, bits := BmapIndirect(inum, bn);
    }

    /** The indirect block of a file, allocated if there is none; 0 if the disk is full. */
    method LoadIndirect(inum: int) returns (q: int, ghost bits: set<int>)
      requires Ok(S()) && inum in inodes
      modifies this
      ensures Ok(S()) && Ext(old(S()), S(), inum) && |inodes[inum].addrs| == NDIRECT + 1
              && q == inodes[inum].addrs[NDIRECT]
      ensures q == 0 ==> DiskFull(used)
      ensures HasIndirect(old(inodes)[inum]) || q == 0 ==> S() == old(S()) && bits == {} && logged == old(logged)
      ensures |bits| <= 1 && logged <= old(logged) + bits + {q}
      ensures Recorded(bmapstart, old(S()), S(), old(logged), logged)
    {
      ghost var s := S();
      InodeAt(s, inum);
      ExtRefl(s, inum);
      bits := {};
      var ip := inodes[inum];
      q := ip.addrs[NDIRECT];
      if q == 0 {
        q := Balloc();
        if q == 0 {
          return;
        }
        bits := {BBlock(q)};
        IndirectStep(s, inum, q);
        inodes := inodes[inum := ip.(addrs := ip.addrs[NDIRECT := q])];
        role := role[q := Indirect(inum)];
      }
    }

    /** The block that entry `bn` of the indirect block lists, allocated if there is none. */
    method LoadEntry(inum: int, bn: int) returns (addr: int, ghost bits: set<int>)
      requires Ok(S()) && inum in inodes && NDIRECT <= bn < MAXFILE && HasIndirect(inodes[inum])
      modifies this
      ensures Ok(S()) && Ext(old(S()), S(), inum) && addr == Addr(S(), inum, bn)
      ensures old(Addr(S(), inum, bn)) != 0 || addr == 0 ==> S() == old(S()) && logged == old(logged) && bits == {}
      ensures addr == 0 ==> DiskFull(used)
      ensures inodes[inum].addrs == old(inodes)[inum].addrs
      ensures |bits| <= 1 && logged <= old(logged) + bits + {addr, inodes[inum].addrs[NDIRECT]}
      ensures Recorded(bmapstart, old(S()), S(), old(logged), logged)
    {
      ghost var s := S();
      RoleOfIndirect(s, inum);
      ExtRefl(s, inum);
      bits := {};
      var q := inodes[inum].addrs[NDIRECT];
      addr := Entry(data[q], bn - NDIRECT);
      if addr == 0 {
        addr := Balloc();
        if addr != 0 {
          bits := {BBlock(addr)};
          EntryStep(s, inum, bn, addr);
          data := data[q := SetEntry(data[q], bn - NDIRECT, addr)];
          logged := logged + {q};
          role := role[addr := Data(inum, bn)];
        }
      }
    }

    /** The part of `bmap` for blocks that the indirect block lists. */
    method BmapIndirect(inum: int, bn: int) returns (addr: int, ghost bits: set<int>)
      requires Ok(S()) && inum in inodes && NDIRECT <= bn < MAXFILE
      modifies this
      ensures Ok(S()) && Ext(old(S()), S(), inum) && addr == Addr(S(), inum, bn)
      ensures old(Addr(S(), inum, bn)) != 0 ==> S() == old(S()) && logged == old(logged)
      ensures addr == 0 ==> DiskFull(used)
      ensures |bits| <= Allocs(old(S()), S(), inum, bn) && logged <= old(logged) + bits + OwnBlocks(S(), inum, bn)
      ensures Recorded(bmapstart, old(S()), S(), old(logged), logged)
    {
      ghost var s := S();
      RoleOfIndirect(s, inum);
      var q;
      q, bits := LoadIndirect(inum);
      if q == 0 {
        return 0, bits;
      }
      ghost var t, log1 := S(), logged;
      assert ExtAddr(s, t, inum, bn);
      ghost var more;
      addr, more := LoadEntry(inum, bn);
      BothHalves(s, t, S(), inum, bn, q, bits, more, old(logged), log1, logged);
      ExtTwice(s, t, S(), inum);
      RecordedTwice(bmapstart, s, t, S(), inum, old(logged), log1, logged);
      bits := bits + more;
    }

    /** `itrunc`. */
    method Itrunc(inum: int)
      requires Valid() && inum in inodes
      modifies this
      ensures Valid() && Truncated(old(S()), S(), inum)
    {
      ghost var s := S();
      BitmapOf(s);
      InodeAt(s, inum);
      var ip := inodes[inum];
      NothingFreed(s, inum);
      for i := 0 to NDIRECT
        invariant inodes == s.inodes && Freed(s, S(), inum, i, NDIRECT, false)
        invariant |ip.addrs| == NDIRECT + 1 && ip.addrs[NDIRECT] == s.inodes[inum].addrs[NDIRECT]
        invariant forall j :: 0 <= j < NDIRECT ==> ip.addrs[j] == if j < i then 0 else s.inodes[inum].addrs[j]
      {
        FreedNext(s, S(), inum, i, NDIRECT);
        if ip.addrs[i] != 0 {
          FreeDataBlock(s, S(), inum, i, i, NDIRECT);
          Bfree(ip.addrs[i]);
          ip := ip.(addrs := ip.addrs[i := 0]);
        }
      }
      if ip.addrs[NDIRECT] != 0 {
        RoleOfIndirect(s, inum);
        var a := data[ip.addrs[NDIRECT]];
        for j := 0 to NINDIRECT
          invariant inodes == s.inodes && Freed(s, S(), inum, NDIRECT, NDIRECT + j, false)
        {
          FreedNext(s, S(), inum, NDIRECT, NDIRECT + j);
          if Entry(a, j) != 0 {
            FreeDataBlock(s, S(), inum, NDIRECT + j, NDIRECT, NDIRECT + j);
            Bfree(Entry(a, j));
            }
        }
        FreeIndirectBlock(s, S(), inum);
        Bfree(ip.addrs[NDIRECT]);
        ip := ip.(addrs := ip.addrs[NDIRECT := 0]);
      } else {
        NoIndirect(s, S(), inum);
      }
      assert ip.(size := 0) == Inode(NOADDRS, 0);
      inodes := inodes[inum := ip.(size := 0)];
      logged := logged + {IBlock(inum)};
      TruncatedOk(s, S(), inum);
      TruncatedDense(s, S(), inum);
    }

    /** The body of the loop of `writei`. */
    method WriteBlock(inum: int, off: nat, bytes: seq<int>, copyOk: bool) returns (done: bool, ghost bits: set<int>)
      requires Ok(S()) && inum in inodes && off < LIMIT && |bytes| <= BSIZE - off % BSIZE
      modifies this
      ensures Ok(S()) && Grows(old(S()), S(), inum)
      ensures done ==> Wrote(old(S()), S(), inum, off, bytes)
      ensures !done ==> Wrote(old(S()), S(), inum, off, [])
      ensures done ==> Addr(S(), inum, off / BSIZE) != 0
      ensures if done then copyOk else DiskFull(used) || !copyOk
      ensures |bits| <= Allocs(old(S()), S(), inum, off / BSIZE)
              && logged <= old(logged) + bits + OwnBlocks(S(), inum, off / BSIZE)
      ensures Recorded(bmapstart, old(S()), S(), old(logged), logged)
              && (done ==> Addr(S(), inum, off / BSIZE) in logged)
    {
      ghost var s := S();
      var addr;
      addr, bits := Bmap(inum, off / BSIZE);
      ghost var t := S();
      ExtGrows(s, t, inum);
      WroteNothing(s, t, inum, 0, off);
      if addr == 0 {
        return false, bits;
      }
      InodeAt(t, inum);
      assert AddrOk(t.data, t.role, inum, t.inodes[inum], off / BSIZE);
      if !copyOk {
        return false, bits;
      }
      StoreBytes(t, inum, off, bytes);
      data := data[addr := WriteBytes(data[addr], off % BSIZE, bytes)];
      logged := logged + {addr};
      WroteTwice(s, t, S(), inum, off, [], bytes);
      assert [] + bytes == bytes;
      done := true;
    }

    /** One iteration of `writei`, after `tot` bytes, for the next `m`. */
    method WriteSome(inum: int, src: seq<int>, off: nat, tot: nat, m: nat, copyOk: bool, ghost s: Fs,
                     ghost logged0: set<int>)
      returns (done: bool, ghost bits: set<int>)
      requires Ok(S()) && inum in inodes && 0 < m && tot + m <= |src| && off + |src| <= LIMIT
               && m <= BSIZE - (off + tot) % BSIZE
      requires Progress(bmapstart, s, S(), inum, off, src, tot, logged0, logged)
      modifies this
      ensures Ok(S()) && inum in inodes && Grows(old(S()), S(), inum)
      ensures Progress(bmapstart, s, S(), inum, off, src, if done then tot + m else tot, logged0, logged)
      ensures if done then copyOk else DiskFull(used) || !copyOk
      ensures |bits| <= Allocs(old(S()), S(), inum, (off + tot) / BSIZE)
      ensures logged <= old(logged) + bits + OwnBlocks(S(), inum, (off + tot) / BSIZE)
    {
      ghost var t, logged1 := S(), logged;
      done, bits := WriteBlock(inum, off + tot, src[tot..tot + m], copyOk);
      assert src[tot..tot + 0] == [];
      ProgressNext(bmapstart, s, t, S(), inum, off, src, tot, if done then m else 0, logged0, logged1, logged);
    }

    /** The same, with the tally of what has been logged. */
    method WriteNext(inum: int, src: seq<int>, off: nat, tot: nat, m: nat, copyOk: bool, ghost s: Fs,
                     ghost logged0: set<int>, ghost own: set<int>, ghost bits: set<int>, ghost ind: bool, ghost c: nat)
      returns (done: bool, ghost own': set<int>, ghost bits': set<int>, ghost ind': bool)
      requires Ok(S()) && inum in inodes && 0 < m && tot + m <= |src| && off + |src| <= LIMIT
               && m <= BSIZE - (off + tot) % BSIZE
      requires Progress(bmapstart, s, S(), inum, off, src, tot, logged0, logged) && (c == 0 ==> tot == 0)
      requires Tally(S(), inum, logged0, logged, own, bits, ind, c, Skip(off))
      modifies this
      ensures Ok(S()) && inum in inodes
      ensures Progress(bmapstart, s, S(), inum, off, src, if done then tot + m else tot, logged0, logged)
      ensures if done then copyOk else DiskFull(used) || !copyOk
      ensures Tally(S(), inum, logged0, logged, own', bits', ind', c + 1, Skip(off))
    {
      ghost var t, logged1, more := S(), logged, {};
      ghost var k := (off + tot) / BSIZE;
      assert Shown(t);
      assert c == 0 && Skip(off) == 1 ==> k * BSIZE < off;
      done, more := WriteSome(inum, src, off, tot, m, copyOk, s, logged0);
      ghost var u := S();
      TallyNext(t, u, inum, k, logged0, logged1, logged, own, bits, more, ind, c, Skip(off));
      own', bits', ind' := own + {Addr(u, inum, k)}, bits + more, UsesIndirect(ind, u.inodes[inum], k);
    }

    /** The loop of `writei`. */
    method WriteBlocks(inum: int, src: seq<int>, off: nat, copies: nat) returns (tot: nat)
      requires Ok(S()) && inum in inodes && DenseTo(S(), inum, off) && off + |src| <= LIMIT
      modifies this
      ensures Ok(S()) && tot <= |src| && Wrote(old(S()), S(), inum, off, src[..tot]) && DenseTo(S(), inum, off + tot)
      ensures tot < |src| ==> DiskFull(used) || copies < Blocks(off, |src|)
      ensures tot == |src| > 0 ==> copies >= Blocks(off, |src|)
      ensures |logged - old(logged)| < LogBound(off, |src|)
      ensures Recorded(bmapstart, old(S()), S(), old(logged), logged) && DataLogged(S(), inum, off, tot, logged)
    {
      ghost var s, logged0 := S(), logged;
      var n := |src|;
      ghost var own: set<int>, bits: set<int>, ind, c: nat := {}, {}, false, 0;
      InodeAt(s, inum);
      ExtRefl(s, inum);
      ExtGrows(s, s, inum);
      WroteNothing(s, s, inum, 0, off);
      assert src[..0] == [];
      tot := 0;
      var left := copies;
      var done := true;
      while tot < n && done
        invariant tot <= n && Ok(S()) && inum in inodes
                  && Progress(bmapstart, s, S(), inum, off, src, tot, logged0, logged)
        invariant Tally(S(), inum, logged0, logged, own, bits, ind, c, Skip(off)) && c <= Blocks(off, n)
        invariant done ==> left == copies - c && Boundary(off, n, tot, c)
        invariant !done ==> tot < n && (DiskFull(used) || copies < Blocks(off, n))
        invariant n == 0 ==> c == 0
        decreases n - tot, done
      {
        var cur := off + tot;
        var m := if n - tot < BSIZE - cur % BSIZE then n - tot else BSIZE - cur % BSIZE;
        OneMoreBlock(off, n, tot, c);
        BlockEnds(off, n, tot, c, m);
        done, own, bits, ind := WriteNext(inum, src, off, tot, m, left > 0, s, logged0, own, bits, ind, c);
        c := c + 1;
        if done {
          left := left - 1;
          tot := tot + m;
        }
      }
      assert Shown(S());
      TallyBound(S(), inum, logged0, logged, own, bits, ind, c, off, n);
      if tot == n > 0 {
        AllBlocks(off, n, c);
      }
    }

    /** `writei`. */
    method Writei(inum: int, src: seq<int>, off: nat, copies: nat) returns (tot: int)
      requires Valid() && inum in inodes && off < 0x1_0000_0000 && |src| < 0x1_0000_0000
      modifies this
      ensures Valid()
      ensures tot == -1 <==> off > old(inodes)[inum].size || off + |src| > LIMIT
      ensures tot == -1 ==> S() == old(S()) && logged == old(logged)
      ensures tot != -1 ==> 0 <= tot <= |src| && OneFile(old(S()), S(), inum)
      ensures tot != -1 ==> off <= old(inodes)[inum].size && 0 <= old(inodes)[inum].size && 0 <= inodes[inum].size
                            && Contents(S(), inum) == Splice(old(Contents(S(), inum)), off, src[..tot])
      ensures tot != -1 ==> forall b :: b in old(role) ==> ExtBlock(old(S()), S(), inum, b)
      ensures 0 <= tot < |src| ==> DiskFull(used) || copies < Blocks(off, |src|)
      ensures tot == |src| > 0 ==> copies >= Blocks(off, |src|)
      ensures |logged - old(logged)| <= LogBound(off, |src|)
      ensures tot != -1 ==> Recorded(bmapstart, old(S()), S(), old(logged), logged) && IBlock(inum) in logged
                            && DataLogged(S(), inum, off, tot, logged)
    {
      ghost var s, logged0 := S(), logged;
      var n := |src|;
      assert Dense(s, inum);
      if off > inodes[inum].size || U32(off + n) < off {
        return -1;
      }
      if U32(off + n) > LIMIT {
        return -1;
      }
      tot := WriteBlocks(inum, src, off, copies);
      ghost var t, logged1 := S(), logged;
      FinishWrite(s, t, inum, off, src[..tot]);
      if off + tot > inodes[inum].size {
        inodes := inodes[inum := inodes[inum].(size := off + tot)];
      }
      assert S() == Resized(t, inum, Larger(s.inodes[inum].size, off + tot));
      logged := logged + {IBlock(inum)};
      ResizedLogged(bmapstart, s, t, inum, Larger(s.inodes[inum].size, off + tot), off, tot, logged0, logged1, logged);
      Subset(logged - logged0, (logged1 - logged0) + {IBlock(inum)});
    }

    /** `bmap` of a block the file has. */
    method Find(inum: int, bn: int) returns (addr: int)
      requires Ok(S()) && inum in inodes && 0 <= bn < MAXFILE && Addr(S(), inum, bn) != 0
      modifies this
      ensures S() == old(S()) && logged == old(logged) && addr == Addr(S(), inum, bn)
    {
      ghost var bits;
      addr, bits := Bmap(inum, bn);
    }

    /** The loop of `readi`. */
    method ReadBlocks(inum: int, off: nat, n: nat, copies: nat) returns (ok: bool, out: seq<int>)
      requires Ok(S()) && inum in inodes && DenseTo(S(), inum, off + n) && off + n <= inodes[inum].size <= LIMIT
      modifies this
      ensures S() == old(S()) && logged == old(logged)
      ensures ok ==> out == Contents(S(), inum)[off..off + n]
      ensures !ok ==> copies < Blocks(off, n)
    {
      ghost var s := S();
      ghost var c: nat := 0;
      var tot := 0;
      var left := copies;
      out := [];
      while tot < n
        invariant 0 <= tot <= n && S() == s && logged == old(logged)
        invariant out == Contents(s, inum)[off..off + tot]
        invariant c <= Blocks(off, n) && left == copies - c && Boundary(off, n, tot, c)
      {
        var cur := off + tot;
        OneMoreBlock(off, n, tot, c);
        assert Addr(s, inum, cur / BSIZE) != 0;
        var addr := Find(inum, cur / BSIZE);
        var m := if n - tot < BSIZE - cur % BSIZE then n - tot else BSIZE - cur % BSIZE;
        BlockEnds(off, n, tot, c, m);
        if left == 0 {
          return false, out;
        }
        left := left - 1;
        ReadMore(s, inum, off, tot, m);
        out := out + CopyOut(data, addr, cur % BSIZE, m);
        tot := tot + m;
        c := c + 1;
      }
      ok := true;
    }

    /** `readi`: the return value, and the bytes that were copied out. */
    method Readi(inum: int, off: nat, count: nat, copies: nat) returns (r: int, out: seq<int>)
      requires Valid() && inum in inodes && off < 0x1_0000_0000 && count < 0x1_0000_0000
      modifies this
      ensures S() == old(S()) && logged == old(logged) && 0 <= inodes[inum].size
      ensures off > inodes[inum].size || off + count >= 0x1_0000_0000 ==> r == 0 && out == []
      ensures off <= inodes[inum].size && off + count < 0x1_0000_0000 && r != -1 ==>
                && r == (if off + count > inodes[inum].size then inodes[inum].size - off else count)
                && out == Contents(S(), inum)[off..off + r]
      ensures r == -1 ==> copies < Blocks(off, count)
    {
      assert Dense(S(), inum);
      var size := inodes[inum].size;
      if off > size || U32(off + count) < off {
        return 0, [];
      }
      var n := count;
      if U32(off + count) > size {
        n := size - off;
      }
      var ok;
      ok, out := ReadBlocks(inum, off, n, copies);
      r := if ok then n else -1;
    }

    /** One operation of `filewrite`: nothing has been logged at its start, and it stays within its reservation. */
    method WriteChunk(inum: int, src: seq<int>, off: nat, copies: nat) returns (r: int)
      requires Valid() && inum in inodes && off < 0x1_0000_0000 && |src| <= CHUNK
      modifies this
      ensures Valid() && inum in inodes && |logged| <= MAXOPBLOCKS && -1 <= r <= |src|
      ensures 0 <= old(inodes)[inum].size && 0 <= inodes[inum].size
      ensures r == -1 <==> off > old(inodes)[inum].size || off + |src| > LIMIT
      ensures r == -1 ==> S() == old(S())
      ensures 0 <= r < |src| ==> DiskFull(used) || copies < Blocks(off, |src|)
      ensures r == |src| > 0 ==> copies >= Blocks(off, |src|)
      ensures r != -1 ==> Contents(S(), inum) == Splice(old(Contents(S(), inum)), off, src[..r])
      ensures r != -1 ==> Recorded(bmapstart, old(S()), S(), {}, logged) && IBlock(inum) in logged
                          && DataLogged(S(), inum, off, r, logged) && OneFile(old(S()), S(), inum)
      ensures r != -1 ==> forall b :: b in old(role) ==> ExtBlock(old(S()), S(), inum, b)
    {
      logged := {};
      assert Dense(S(), inum);
      ChunkBound(off, |src|);
      r := Writei(inum, src, off, copies);
      assert logged - {} == logged;
      assert Dense(S(), inum);
    }

    /**
     * The reservation of MAXOPBLOCKS cannot be made smaller: a chunk can need all of
     * it.  (With five free blocks the write cannot fail for want of one.)
     */
    method FullChunk(inum: int, src: seq<int>, off: nat, copies: nat, ghost a: int, ghost b: int, ghost c: int,
                     ghost d: int, ghost e: int)
      returns (r: int)
      requires Valid() && inum in inodes && off / BSIZE == NDIRECT - 1 && off % BSIZE != 0 && |src| == CHUNK
      requires !HasIndirect(inodes[inum]) && SpreadOut(bmapstart, IBlock(inum), S())
      requires off <= inodes[inum].size && copies >= 4
      requires FreeIn(S(), a) && FreeIn(S(), b) && FreeIn(S(), c) && FreeIn(S(), d) && FreeIn(S(), e)
      requires a != b && a != c && a != d && a != e && b != c && b != d && b != e && c != d && c != e && d != e
      modifies this
      ensures Valid() && r == |src| && |logged| == MAXOPBLOCKS
    {
      ghost var s := S();
      assert Dense(s, inum);
      r := WriteChunk(inum, src, off, copies);
      if r < |src| {
        BitmapOf(S());
        FiveTaken(bmapstart, IBlock(inum), s, S(), inum, a, b, c, d, e, logged);
        assert false;
      }
      assert Dense(S(), inum);
      assert |Contents(S(), inum)| >= off + CHUNK;
      LongFile(S(), inum, off + CHUNK);
      TenBlocks(bmapstart, IBlock(inum), s, S(), inum, off, logged);
    }

    /** One iteration of `filewrite`, for chunk `j`, with `i` bytes of `src` in the file before it. */
    method WriteNextChunk(inum: int, src: seq<int>, off: nat, i: nat, j: nat, copies: seq<nat>, ghost c: seq<int>)
      returns (n1: nat, r: int)
      requires Valid() && inum in inodes && off + i < 0x1_0000_0000 && i < |src|
      requires Reached(S(), inum, c, off, src, i) && CopiedTo(copies, off, |src|, i, j)
      modifies this
      ensures Valid() && inum in inodes && |logged| <= MAXOPBLOCKS && -1 <= r <= n1 && 0 < n1 <= |src| - i
      ensures r >= 0 ==> off + i + n1 <= LIMIT
      ensures r == n1 ==> CopiedTo(copies, off, |src|, i + n1, j + 1)
      ensures r != n1 ==> off + |src| > LIMIT || DiskFull(used) || !AllCopied(copies, off, |src|)
      ensures Reached(S(), inum, c, off, src, if r < 0 then i else i + r) && OneFile(old(S()), S(), inum)
    {
      OneFileSame(S(), inum);
      n1 := ChunkLen(|src|, i);
      ThisChunk(copies, off, |src|, i, j);
      r := WriteChunk(inum, src[i..i + n1], off + i, CopiesOf(copies, j));
      if r == n1 {
        CopiedNext(copies, off, |src|, i, j);
      }
      if r >= 0 {
        SpliceChunk(c, off, src, i, n1, r);
      }
    }

    /** The loop of `filewrite`, from an offset within the file. */
    method WriteChunks(inum: int, src: seq<int>, off: nat, copies: seq<nat>, ghost c: seq<int>) returns (i: nat, w: nat)
      requires Valid() && inum in inodes && off < 0x1_0000_0000 && Reached(S(), inum, c, off, src, 0)
      modifies this
      ensures Valid() && i <= w <= |src| && Reached(S(), inum, c, off, src, w) && (i == |src| ==> w == i)
      ensures OneFile(old(S()), S(), inum)
      ensures i < |src| ==> off + |src| > LIMIT || DiskFull(used) || !AllCopied(copies, off, |src|)
      ensures 0 < i == |src| ==> off + |src| <= LIMIT && AllCopied(copies, off, |src|)
    {
      var n := |src|;
      ghost var s := S();
      OneFileSame(s, inum);
      var j: nat := 0;
      i, w := 0, 0;
      while i < n
        invariant i <= n && w == i && off + i < 0x1_0000_0000 && Valid() && inum in inodes
        invariant Reached(S(), inum, c, off, src, w) && OneFile(s, S(), inum)
        invariant CopiedTo(copies, off, n, i, j) && (i > 0 ==> off + i <= LIMIT)
        decreases n - i
      {
        ghost var t := S();
        var n1, r := WriteNextChunk(inum, src, off, i, j, copies, c);
        OneFileTwice(s, t, S(), inum);
        if r > 0 {
          w := w + r;
        }
        if r != n1 {
          return;
        }
        i := i + r;
        j := j + 1;
      }
      CopiedAll(copies, off, n, j);
    }

    /**
     * `filewrite` of `src` to an inode.  As many bytes as the file offset moves
     * reach the file, also when the call fails.  `copies[j]` decides about the
     * copies of chunk `j`.
     */
    method Filewrite(inum: int, src: seq<int>, off: nat, copies: seq<nat>) returns (ret: int, off': nat)
      requires Valid() && inum in inodes && off < 0x1_0000_0000
      modifies this
      ensures Valid() && inum in inodes && off <= off' <= off + |src| && 0 <= old(inodes)[inum].size
      ensures off > old(inodes)[inum].size ==> off' == off && S() == old(S())
      ensures off <= old(inodes)[inum].size ==> Reached(S(), inum, old(Contents(S(), inum)), off, src, off' - off)
      ensures OneFile(old(S()), S(), inum)
      ensures ret == |src| || ret == -1
      ensures ret == |src| ==> off' == off + |src|
      // A call fails only for one of these reasons; each of them but a full disk makes it fail.
      ensures ret == -1 ==> off > old(inodes)[inum].size || off + |src| > LIMIT || DiskFull(used)
                            || !AllCopied(copies, off, |src|)
      ensures ret == |src| > 0 ==> off <= old(inodes)[inum].size && off + |src| <= LIMIT
                                   && AllCopied(copies, off, |src|)
    {
      assert Dense(S(), inum);
      OneFileSame(S(), inum);
      var n := |src|;
      if off > inodes[inum].size {
        if n == 0 {
          return 0, off;
        }
        var r := WriteChunk(inum, src[..ChunkLen(n, 0)], off, CopiesOf(copies, 0));
        return r, off;
      }
      ghost var c := Contents(S(), inum);
      assert src[..0] == [] && Splice(c, off, []) == c;
      var i, w := WriteChunks(inum, src, off, copies, c);
      return if i == n then n else -1, off + w;
    }
  }

  /** A run in which one chunk logs ten blocks. */
  method SpreadRun(src: seq<int>) returns (fs: FileSystem, r: int)
    requires |src| == CHUNK
    ensures fresh(fs) && fs.Valid() && r == |src| && |fs.logged| == MAXOPBLOCKS
  {
    SpreadIsOk();
    SpreadIsSpread();
    ghost var s := SpreadFs();
    assert FreeIn(s, BPB - 1) && FreeIn(s, 2 * BPB - 1) && FreeIn(s, 3 * BPB - 1) && FreeIn(s, 4 * BPB - 1)
           && FreeIn(s, 5 * BPB - 1);
    fs := new FileSystem(2, 1, SpreadUsed(), SpreadData(), map[1 := SpreadInode()], s.role);
    r := fs.FullChunk(1, src, 11 * BSIZE + 1, 4, BPB - 1, 2 * BPB - 1, 3 * BPB - 1, 4 * BPB - 1, 5 * BPB - 1);
  }
}
