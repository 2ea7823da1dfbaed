/**
 * Disk blocks, the allocation bitmap and inodes: the state that the operations
 * of kernel/fs.c share, its invariant, and what each single step keeps.
 *
 * `used` is the bitmap, one entry per block.  `role` is ghost and says what every
 * block is used for.  It is a function, so that no block is referenced twice;
 * together with `used` it says that the bits set are exactly the metadata blocks
 * and the blocks that inodes refer to.
 */
module FileBlocks {

  const BSIZE := 1024
  const NDIRECT := 12
  const NINDIRECT := 256
  const MAXFILE := NDIRECT + NINDIRECT

  /** A block just zeroed can be read as bytes and as block numbers. */
  datatype Block = Zero | Bytes(content: seq<int>) | Index(entry: seq<int>)

  datatype Inode = Inode(addrs: seq<int>, size: int)

  datatype Role = Free | Meta | Held | Indirect(inum: int) | Data(inum: int, k: int)

  datatype Fs = Fs(used: seq<bool>, data: map<int, Block>, inodes: map<int, Inode>, role: map<int, Role>)

  predicate IsData(b: Block) { b.Zero? || (b.Bytes? && |b.content| == BSIZE) }
  predicate IsIndex(b: Block) { b.Zero? || (b.Index? && |b.entry| == NINDIRECT) }

  function Byte(b: Block, i: int): int {
    if b.Bytes? && 0 <= i < |b.content| then b.content[i] else 0
  }

  function Entry(b: Block, j: int): int {
    if b.Index? && 0 <= j < |b.entry| then b.entry[j] else 0
  }

  /** The block that holds block `k` of a file, 0 if there is none. */
  function AddrOf(data: map<int, Block>, ip: Inode, k: int): int {
    if |ip.addrs| != NDIRECT + 1 || k < 0 then 0
    else if k < NDIRECT then ip.addrs[k]
    else if ip.addrs[NDIRECT] in data then Entry(data[ip.addrs[NDIRECT]], k - NDIRECT)
    else 0
  }

  ghost predicate AddrOk(data: map<int, Block>, role: map<int, Role>, inum: int, ip: Inode, k: int) {
    var a := AddrOf(data, ip, k);
    a != 0 ==> a in role && role[a] == Data(inum, k) && a in data && IsData(data[a])
  }

  ghost predicate InodeOk(data: map<int, Block>, role: map<int, Role>, inum: int, ip: Inode) {
    && |ip.addrs| == NDIRECT + 1
    && (ip.addrs[NDIRECT] == 0 ==> 0 !in data)
    && (var a := ip.addrs[NDIRECT]; a != 0 ==> a in role && role[a] == Indirect(inum) && a in data && IsIndex(data[a]))
    && forall k :: 0 <= k < MAXFILE ==> AddrOk(data, role, inum, ip, k)
  }

  ghost predicate RoleOk(data: map<int, Block>, inodes: map<int, Inode>, b: int, role: Role) {
    match role
    case Free => b != 0
    case Meta => true
    case Held => b != 0
    case Indirect(inum) =>
      b != 0 && inum in inodes && |inodes[inum].addrs| == NDIRECT + 1 && inodes[inum].addrs[NDIRECT] == b
    case Data(inum, k) => b != 0 && inum in inodes && 0 <= k < MAXFILE && AddrOf(data, inodes[inum], k) == b
  }

  /** A bit is set exactly when its block is in use. */
  ghost predicate BitmapOk(used: seq<bool>, role: map<int, Role>) {
    && (forall b :: b in role <==> 0 <= b < |used|)
    && (forall b :: 0 <= b < |used| ==> (used[b] <==> role[b] != Free))
  }

  ghost predicate InodesOk(fs: Fs) {
    forall inum :: inum in fs.inodes ==> InodeOk(fs.data, fs.role, inum, fs.inodes[inum])
  }

  ghost predicate RolesOk(fs: Fs) {
    forall b :: b in fs.role ==> RoleOk(fs.data, fs.inodes, b, fs.role[b])
  }

  ghost predicate Opened(fs: Fs) { true }

  /** The invariant, unfolded only for a state that a proof mentions with `Opened`. */
  ghost predicate Ok(fs: Fs) {
    forall f: Fs {:trigger Opened(f)} :: f == fs && Opened(f) ==>
      BitmapOk(f.used, f.role) && InodesOk(f) && RolesOk(f) && 0 !in f.data
  }

  lemma BitmapOf(fs: Fs)
    requires Ok(fs)
    ensures BitmapOk(fs.used, fs.role) && 0 !in fs.data
  {
    assert Opened(fs);
  }

  lemma InodeAt(fs: Fs, inum: int)
    requires Ok(fs) && inum in fs.inodes
    ensures InodeOk(fs.data, fs.role, inum, fs.inodes[inum])
  {
    assert Opened(fs);
  }

  lemma RoleAt(fs: Fs, b: int)
    requires Ok(fs) && b in fs.role
    ensures RoleOk(fs.data, fs.inodes, b, fs.role[b])
  {
    assert Opened(fs);
  }

  lemma Fold(fs: Fs)
    requires BitmapOk(fs.used, fs.role) && InodesOk(fs) && RolesOk(fs) && 0 !in fs.data
    ensures Ok(fs)
  {
  }

  // ---- What a step leaves alone ----

  predicate Of(role: Role, inum: int) { (role.Indirect? || role.Data?) && role.inum == inum }

  ghost predicate BlockKept(data: map<int, Block>, role: map<int, Role>, data': map<int, Block>, role': map<int, Role>,
                            b: int)
    requires b in role
  {
    b in role' && role'[b] == role[b] && b in data && b in data' && data'[b] == data[b]
  }

  /** The blocks of file `inum` keep role and contents. */
  ghost predicate FileKept(data: map<int, Block>, role: map<int, Role>, data': map<int, Block>, role': map<int, Role>,
                           inum: int) {
    forall b :: b in role && Of(role[b], inum) ==> BlockKept(data, role, data', role', b)
  }

  lemma AddrFrame(data: map<int, Block>, role: map<int, Role>, data': map<int, Block>, role': map<int, Role>,
                  inum: int, ip: Inode, k: int)
    requires InodeOk(data, role, inum, ip) && FileKept(data, role, data', role', inum) && 0 !in data'
             && 0 <= k < MAXFILE
    ensures AddrOf(data', ip, k) == AddrOf(data, ip, k) && AddrOk(data', role', inum, ip, k)
    ensures AddrOf(data, ip, k) != 0 ==> AddrOf(data, ip, k) in data && AddrOf(data, ip, k) in data'
                                         && data'[AddrOf(data, ip, k)] == data[AddrOf(data, ip, k)]
  {
    var a := ip.addrs[NDIRECT];
    assert a != 0 ==> BlockKept(data, role, data', role', a);
    assert AddrOk(data, role, inum, ip, k);
    var b := AddrOf(data, ip, k);
    assert b != 0 ==> BlockKept(data, role, data', role', b);
  }

  lemma InodeFrame(data: map<int, Block>, role: map<int, Role>, data': map<int, Block>, role': map<int, Role>,
                   inum: int, ip: Inode)
    requires InodeOk(data, role, inum, ip) && FileKept(data, role, data', role', inum) && 0 !in data'
    ensures InodeOk(data', role', inum, ip)
  {
    var a := ip.addrs[NDIRECT];
    assert a != 0 ==> BlockKept(data, role, data', role', a);
    forall k | 0 <= k < MAXFILE ensures AddrOk(data', role', inum, ip, k) {
      AddrFrame(data, role, data', role', inum, ip, k);
    }
  }

  /** A file that a step does not touch is still all right, and its blocks are where they were. */
  lemma OtherInode(fs: Fs, fs': Fs, inum: int)
    requires Ok(fs) && inum in fs.inodes && inum in fs'.inodes && fs'.inodes[inum] == fs.inodes[inum] && 0 !in fs'.data
    requires FileKept(fs.data, fs.role, fs'.data, fs'.role, inum)
    ensures InodeOk(fs'.data, fs'.role, inum, fs'.inodes[inum])
    ensures forall k :: 0 <= k < MAXFILE ==>
            AddrOf(fs'.data, fs'.inodes[inum], k) == AddrOf(fs.data, fs.inodes[inum], k)
  {
    InodeAt(fs, inum);
    InodeFrame(fs.data, fs.role, fs'.data, fs'.role, inum, fs.inodes[inum]);
    forall k | 0 <= k < MAXFILE ensures AddrOf(fs'.data, fs'.inodes[inum], k) == AddrOf(fs.data, fs.inodes[inum], k) {
      AddrFrame(fs.data, fs.role, fs'.data, fs'.role, inum, fs.inodes[inum], k);
    }
  }

  // ---- Single steps ----

  predicate Loose(role: Role) { role.Free? || role.Held? }

  /** A block that no file refers to may be handed out, given back or written. */
  lemma LooseBlock(fs: Fs, fs': Fs, b: int)
    requires Ok(fs) && b in fs.role && Loose(fs.role[b]) && b in fs'.role && Loose(fs'.role[b])
    requires fs'.inodes == fs.inodes && fs'.role == fs.role[b := fs'.role[b]] && BitmapOk(fs'.used, fs'.role)
    requires b in fs'.data && fs'.data == fs.data[b := fs'.data[b]]
    ensures Ok(fs')
  {
    BitmapOf(fs);
    RoleAt(fs, b);
    forall inum | inum in fs'.inodes ensures InodeOk(fs'.data, fs'.role, inum, fs'.inodes[inum]) {
      LooseKeepsFile(fs, fs', b, inum);
      OtherInode(fs, fs', inum);
    }
    forall c | c in fs'.role ensures RoleOk(fs'.data, fs'.inodes, c, fs'.role[c]) {
      RoleAt(fs, c);
      if fs'.role[c].Data? {
        LooseKeepsFile(fs, fs', b, fs'.role[c].inum);
        OtherInode(fs, fs', fs'.role[c].inum);
      }
    }
    Fold(fs');
  }

  lemma LooseKeepsFile(fs: Fs, fs': Fs, b: int, inum: int)
    requires Ok(fs) && b in fs.role && Loose(fs.role[b]) && b in fs'.role && inum in fs.inodes
    requires fs'.role == fs.role[b := fs'.role[b]] && b in fs'.data && fs'.data == fs.data[b := fs'.data[b]]
    ensures FileKept(fs.data, fs.role, fs'.data, fs'.role, inum)
  {
    InodeAt(fs, inum);
    forall c | c in fs.role && Of(fs.role[c], inum) ensures BlockKept(fs.data, fs.role, fs'.data, fs'.role, c) {
      RoleAt(fs, c);
      InData(fs, c);
    }
  }

  /** Blocks of files have contents. */
  lemma InData(fs: Fs, b: int)
    requires Ok(fs) && b in fs.role && !Loose(fs.role[b]) && !fs.role[b].Meta?
    ensures b in fs.data && (if fs.role[b].Data? then IsData(fs.data[b]) else IsIndex(fs.data[b]))
  {
    RoleAt(fs, b);
    InodeAt(fs, fs.role[b].inum);
    if fs.role[b].Data? {
      assert AddrOk(fs.data, fs.role, fs.role[b].inum, fs.inodes[fs.role[b].inum], fs.role[b].k);
    }
  }

  lemma BitmapSame(used: seq<bool>, role: map<int, Role>, role': map<int, Role>)
    requires BitmapOk(used, role) && role'.Keys == role.Keys
    requires forall b :: b in role ==> (role'[b] == Free <==> role[b] == Free)
    ensures BitmapOk(used, role')
  {
  }

  /** Only file `inum` changes: its inode, and blocks that are its own or held by the caller. */
  ghost predicate OneFile(fs: Fs, fs': Fs, inum: int) {
    && inum in fs.inodes && inum in fs'.inodes && fs'.inodes == fs.inodes[inum := fs'.inodes[inum]]
    && 0 !in fs'.data && fs'.role.Keys == fs.role.Keys
    && forall b :: b in fs.role && Other(fs.role[b], inum) ==> BlockKept(fs.data, fs.role, fs'.data, fs'.role, b)
  }

  predicate Other(role: Role, inum: int) { (role.Indirect? || role.Data?) && role.inum != inum }

  /** ... then all that is left to show is that file's own part. */
  lemma OneFileOk(fs: Fs, fs': Fs, inum: int)
    requires Ok(fs) && OneFile(fs, fs', inum) && BitmapOk(fs'.used, fs'.role)
    requires InodeOk(fs'.data, fs'.role, inum, fs'.inodes[inum])
    requires forall b :: b in fs'.role && !Other(fs'.role[b], inum) ==> RoleOk(fs'.data, fs'.inodes, b, fs'.role[b])
    requires forall b :: b in fs'.role && Other(fs'.role[b], inum) ==> fs'.role[b] == fs.role[b]
    ensures Ok(fs')
  {
    forall i | i in fs'.inodes ensures InodeOk(fs'.data, fs'.role, i, fs'.inodes[i]) {
      if i != inum { OtherInode(fs, fs', i); }
    }
    forall b | b in fs'.role ensures RoleOk(fs'.data, fs'.inodes, b, fs'.role[b]) {
      if Other(fs'.role[b], inum) {
        RoleAt(fs, b);
        OtherInode(fs, fs', fs'.role[b].inum);
      }
    }
    Fold(fs');
  }

  // ---- Giving a file another block ----

  function Addr(fs: Fs, inum: int, k: int): int
    requires inum in fs.inodes
  {
    AddrOf(fs.data, fs.inodes[inum], k)
  }

  /** The contents of block `k` of a file; a block it does not have reads as zeros. */
  function Content(fs: Fs, inum: int, k: int): Block
    requires inum in fs.inodes
  {
    if Addr(fs, inum, k) in fs.data then fs.data[Addr(fs, inum, k)] else Zero
  }

  /** The block is in use, zeroed, and its owner not yet recorded. */
  function Alloc(fs: Fs, b: int): Fs
    requires 0 <= b < |fs.used|
  {
    fs.(used := fs.used[b := true], data := fs.data[b := Zero], role := fs.role[b := Held])
  }

  function SetEntry(block: Block, j: int, b: int): Block {
    Index(seq(NINDIRECT, i => if i == j then b else Entry(block, i)))
  }

  function PutDirect(fs: Fs, inum: int, k: int, b: int): Fs
    requires inum in fs.inodes && 0 <= k < NDIRECT < |fs.inodes[inum].addrs|
  {
    fs.(inodes := fs.inodes[inum := fs.inodes[inum].(addrs := fs.inodes[inum].addrs[k := b])],
      role := fs.role[b := Data(inum, k)])
  }

  function PutIndirect(fs: Fs, inum: int, b: int): Fs
    requires inum in fs.inodes && NDIRECT < |fs.inodes[inum].addrs|
  {
    fs.(inodes := fs.inodes[inum := fs.inodes[inum].(addrs := fs.inodes[inum].addrs[NDIRECT := b])],
        role := fs.role[b := Indirect(inum)])
  }

  function PutEntry(fs: Fs, inum: int, k: int, q: int, b: int): Fs
    requires q in fs.data
  {
    fs.(data := fs.data[q := SetEntry(fs.data[q], k - NDIRECT, b)], role := fs.role[b := Data(inum, k)])
  }

  ghost predicate ExtBlock(s: Fs, t: Fs, inum: int, b: int)
    requires b in s.role
  {
    && b in t.role
    && if s.role[b].Free? then t.role[b].Free? || Of(t.role[b], inum)
       else t.role[b] == s.role[b]
  }

  /** Block `k` of the file stays where it is, if it was anywhere, and keeps its contents. */
  ghost predicate ExtAddr(s: Fs, t: Fs, inum: int, k: int)
    requires inum in s.inodes && inum in t.inodes
  {
    && (Addr(s, inum, k) != 0 ==> Addr(t, inum, k) == Addr(s, inum, k))
    && Content(t, inum, k) == Content(s, inum, k)
  }

  /** File `inum` may have been given blocks that were free; nothing else has changed. */
  ghost predicate Ext(s: Fs, t: Fs, inum: int) {
    && OneFile(s, t, inum) && t.inodes[inum].size == s.inodes[inum].size
    && (forall b :: b in s.role ==> ExtBlock(s, t, inum, b))
    && (forall k :: 0 <= k < MAXFILE ==> ExtAddr(s, t, inum, k))
  }

  /** Before a block is given to a file. */
  ghost predicate CanGive(s: Fs, inum: int, b: int) {
    && Ok(s) && inum in s.inodes && b in s.role && s.role[b].Free?
  }

  lemma FreeBlock(s: Fs, inum: int, b: int)
    requires CanGive(s, inum, b)
    ensures 0 <= b < |s.used| && b != 0 && 0 !in s.data && InodeOk(s.data, s.role, inum, s.inodes[inum])
    ensures forall k :: 0 <= k < MAXFILE ==> Addr(s, inum, k) != b && s.inodes[inum].addrs[NDIRECT] != b
    ensures BitmapOk(s.used[b := true], s.role[b := Held])
  {
    BitmapOf(s);
    RoleAt(s, b);
    InodeAt(s, inum);
    forall k | 0 <= k < MAXFILE ensures Addr(s, inum, k) != b {
      assert AddrOk(s.data, s.role, inum, s.inodes[inum], k);
    }
  }

  lemma GivenToOne(s: Fs, t: Fs, inum: int, b: int)
    requires CanGive(s, inum, b) && b in t.role && t.role == s.role[b := t.role[b]] && Of(t.role[b], inum)
    requires inum in t.inodes && t.inodes == s.inodes[inum := t.inodes[inum]] && 0 !in t.data
    requires |s.inodes[inum].addrs| == NDIRECT + 1
    requires forall c :: c in s.data && c != b && c != s.inodes[inum].addrs[NDIRECT] ==>
               c in t.data && t.data[c] == s.data[c]
    ensures OneFile(s, t, inum)
  {
    InodeAt(s, inum);
    forall c | c in s.role && Other(s.role[c], inum) ensures BlockKept(s.data, s.role, t.data, t.role, c) {
      InData(s, c);
    }
  }

  lemma DirectStep(s: Fs, inum: int, k: int, b: int)
    requires CanGive(s, inum, b) && 0 <= k < NDIRECT && Addr(s, inum, k) == 0
    ensures 0 <= b < |s.used| && |s.inodes[inum].addrs| == NDIRECT + 1
    ensures var t := PutDirect(Alloc(s, b), inum, k, b); Ok(t) && Ext(s, t, inum) && Addr(t, inum, k) == b
  {
    FreeBlock(s, inum, b);
    var t := PutDirect(Alloc(s, b), inum, k, b);
    GivenToOne(s, t, inum, b);
    BitmapSame(t.used, s.role[b := Held], t.role);
    forall i | 0 <= i < MAXFILE
      ensures AddrOk(t.data, t.role, inum, t.inodes[inum], i) && ExtAddr(s, t, inum, i)
      ensures i != k ==> Addr(t, inum, i) == Addr(s, inum, i)
    {
      assert AddrOk(s.data, s.role, inum, s.inodes[inum], i);
    }
    forall c | c in t.role && !Other(t.role[c], inum) ensures RoleOk(t.data, t.inodes, c, t.role[c]) {
      RoleAt(s, c);
    }
    OneFileOk(s, t, inum);
  }

  lemma IndirectStep(s: Fs, inum: int, b: int)
    requires CanGive(s, inum, b) && |s.inodes[inum].addrs| == NDIRECT + 1 && s.inodes[inum].addrs[NDIRECT] == 0
    ensures 0 <= b < |s.used|
    ensures var t := PutIndirect(Alloc(s, b), inum, b); Ok(t) && Ext(s, t, inum)
  {
    FreeBlock(s, inum, b);
    var t := PutIndirect(Alloc(s, b), inum, b);
    GivenToOne(s, t, inum, b);
    BitmapSame(t.used, s.role[b := Held], t.role);
    forall i | 0 <= i < MAXFILE
      ensures AddrOk(t.data, t.role, inum, t.inodes[inum], i) && Addr(t, inum, i) == Addr(s, inum, i)
              && ExtAddr(s, t, inum, i)
    {
      assert AddrOk(s.data, s.role, inum, s.inodes[inum], i);
    }
    forall c | c in t.role && !Other(t.role[c], inum) ensures RoleOk(t.data, t.inodes, c, t.role[c]) {
      RoleAt(s, c);
    }
    OneFileOk(s, t, inum);
  }

  lemma EntryStep(s: Fs, inum: int, k: int, b: int)
    requires CanGive(s, inum, b) && NDIRECT <= k < MAXFILE && Addr(s, inum, k) == 0
    requires |s.inodes[inum].addrs| == NDIRECT + 1 && s.inodes[inum].addrs[NDIRECT] != 0
    ensures 0 <= b < |s.used| && s.inodes[inum].addrs[NDIRECT] in s.data
    ensures var t := PutEntry(Alloc(s, b), inum, k, s.inodes[inum].addrs[NDIRECT], b);
            Ok(t) && Ext(s, t, inum) && Addr(t, inum, k) == b
  {
    FreeBlock(s, inum, b);
    var q := s.inodes[inum].addrs[NDIRECT];
    var t := PutEntry(Alloc(s, b), inum, k, q, b);
    GivenToOne(s, t, inum, b);
    BitmapSame(t.used, s.role[b := Held], t.role);
    forall i | 0 <= i < MAXFILE
      ensures AddrOk(t.data, t.role, inum, t.inodes[inum], i) && (i != k ==> Addr(t, inum, i) == Addr(s, inum, i))
              && ExtAddr(s, t, inum, i)
    {
      assert AddrOk(s.data, s.role, inum, s.inodes[inum], i);
    }
    assert Addr(t, inum, k) == b;
    forall c | c in t.role && !Other(t.role[c], inum) ensures RoleOk(t.data, t.inodes, c, t.role[c]) {
      RoleAt(s, c);
    }
    OneFileOk(s, t, inum);
  }

  lemma ExtRefl(s: Fs, inum: int)
    requires Ok(s) && inum in s.inodes
    ensures Ext(s, s, inum)
  {
    BitmapOf(s);
    forall b | b in s.role && Other(s.role[b], inum) ensures BlockKept(s.data, s.role, s.data, s.role, b) {
      InData(s, b);
    }
  }

  lemma ExtTwice(s: Fs, t: Fs, u: Fs, inum: int)
    requires Ext(s, t, inum) && Ext(t, u, inum)
    ensures Ext(s, u, inum)
  {
    forall b | b in s.role ensures ExtBlock(s, u, inum, b) {
      assert ExtBlock(s, t, inum, b) && ExtBlock(t, u, inum, b);
    }
    forall k | 0 <= k < MAXFILE ensures ExtAddr(s, u, inum, k) {
      assert ExtAddr(s, t, inum, k) && ExtAddr(t, u, inum, k);
    }
    forall b | b in s.role && Other(s.role[b], inum) ensures BlockKept(s.data, s.role, u.data, u.role, b) {
      assert BlockKept(s.data, s.role, t.data, t.role, b) && BlockKept(t.data, t.role, u.data, u.role, b);
    }
  }

  // ---- Writing a block of a file ----

  /** The block with `bytes` written from position `o` on. */
  function WriteBytes(block: Block, o: int, bytes: seq<int>): Block {
    Bytes(seq(BSIZE, i => if o <= i < o + |bytes| then bytes[i - o] else Byte(block, i)))
  }

  function Stored(s: Fs, b: int, page: Block): Fs { s.(data := s.data[b := page]) }

  lemma WriteStep(s: Fs, inum: int, k: int, page: Block)
    requires Ok(s) && inum in s.inodes && 0 <= k < MAXFILE && Addr(s, inum, k) != 0 && IsData(page)
    ensures var t := Stored(s, Addr(s, inum, k), page);
            && Ok(t) && OneFile(s, t, inum)
            && (forall i :: 0 <= i < MAXFILE ==> Addr(t, inum, i) == Addr(s, inum, i))
            && (forall i :: 0 <= i < MAXFILE ==> Content(t, inum, i) == if i == k then page else Content(s, inum, i))
  {
    var b := Addr(s, inum, k);
    var t := Stored(s, b, page);
    BitmapOf(s);
    InodeAt(s, inum);
    assert AddrOk(s.data, s.role, inum, s.inodes[inum], k);
    forall c | c in s.role && Other(s.role[c], inum) ensures BlockKept(s.data, s.role, t.data, t.role, c) {
      InData(s, c);
    }
    forall i | 0 <= i < MAXFILE
      ensures Addr(t, inum, i) == Addr(s, inum, i) && AddrOk(t.data, t.role, inum, t.inodes[inum], i)
              && Content(t, inum, i) == if i == k then page else Content(s, inum, i)
    {
      assert AddrOk(s.data, s.role, inum, s.inodes[inum], i);
    }
    forall c | c in t.role && !Other(t.role[c], inum) ensures RoleOk(t.data, t.inodes, c, t.role[c]) {
      RoleAt(s, c);
    }
    OneFileOk(s, t, inum);
  }

  function Resized(s: Fs, inum: int, size: int): Fs
    requires inum in s.inodes
  {
    s.(inodes := s.inodes[inum := s.inodes[inum].(size := size)])
  }

  lemma ResizeStep(s: Fs, inum: int, size: int)
    requires Ok(s) && inum in s.inodes
    ensures var t := Resized(s, inum, size);
            Ok(t) && OneFile(s, t, inum)
            && forall i :: Addr(t, inum, i) == Addr(s, inum, i) && Content(t, inum, i) == Content(s, inum, i)
  {
    var t := Resized(s, inum, size);
    BitmapOf(s);
    InodeAt(s, inum);
    forall c | c in s.role && Other(s.role[c], inum) ensures BlockKept(s.data, s.role, t.data, t.role, c) {
      InData(s, c);
    }
    forall i | 0 <= i < MAXFILE ensures AddrOk(t.data, t.role, inum, t.inodes[inum], i) {
      assert AddrOk(s.data, s.role, inum, s.inodes[inum], i);
    }
    forall c | c in t.role && !Other(t.role[c], inum) ensures RoleOk(t.data, t.inodes, c, t.role[c]) {
      RoleAt(s, c);
    }
    OneFileOk(s, t, inum);
  }

  /** What one operation on a file means for the others: nothing. */
  lemma OtherFile(s: Fs, t: Fs, inum: int, other: int, k: int)
    requires Ok(s) && OneFile(s, t, inum) && other in s.inodes && other != inum && 0 <= k < MAXFILE
    ensures other in t.inodes && t.inodes[other] == s.inodes[other]
    ensures Addr(t, other, k) == Addr(s, other, k) && Content(t, other, k) == Content(s, other, k)
  {
    InodeAt(s, other);
    AddrFrame(s.data, s.role, t.data, t.role, other, s.inodes[other], k);
    BitmapOf(s);
  }

  // ---- Truncating a file ----

  /** The blocks that truncation has freed: blocks below `d`, blocks from NDIRECT up to `e`, the indirect block. */
  predicate Gone(role: Role, inum: int, d: int, e: int, ind: bool) {
    || (role.Data? && role.inum == inum && (role.k < d || NDIRECT <= role.k < e))
    || (role.Indirect? && role.inum == inum && ind)
  }

  /** From `s`, exactly those have been freed. */
  ghost predicate Freed(s: Fs, t: Fs, inum: int, d: int, e: int, ind: bool) {
    && t.data == s.data && t.role.Keys == s.role.Keys && BitmapOk(t.used, t.role)
    && forall b :: b in s.role ==> t.role[b] == if Gone(s.role[b], inum, d, e, ind) then Free else s.role[b]
  }

  lemma FreeOne(s: Fs, t: Fs, inum: int, b: int, d: int, e: int, ind: bool, d': int, e': int, ind': bool)
    requires Ok(s) && Freed(s, t, inum, d, e, ind) && b in s.role && !Gone(s.role[b], inum, d, e, ind)
             && s.role[b] != Free
    requires forall c :: c in s.role ==>
             (Gone(s.role[c], inum, d', e', ind') <==> c == b || Gone(s.role[c], inum, d, e, ind))
    ensures 0 <= b < |t.used| && t.used[b] && t.role[b] != Free
    ensures Freed(s, t.(used := t.used[b := false], role := t.role[b := Free]), inum, d', e', ind')
  {
  }

  /** The block with a given role. */
  lemma RoleOfBlock(s: Fs, inum: int, k: int)
    requires Ok(s) && inum in s.inodes && 0 <= k < MAXFILE
    ensures forall c :: c in s.role ==> (s.role[c] == Data(inum, k) <==> Addr(s, inum, k) != 0 && c == Addr(s, inum, k))
    ensures Addr(s, inum, k) != 0 ==> Addr(s, inum, k) in s.role && s.role[Addr(s, inum, k)] == Data(inum, k)
  {
    InodeAt(s, inum);
    assert AddrOk(s.data, s.role, inum, s.inodes[inum], k);
    forall c | c in s.role && s.role[c] == Data(inum, k) ensures c == Addr(s, inum, k) != 0 { RoleAt(s, c); }
  }

  lemma RoleOfIndirect(s: Fs, inum: int)
    requires Ok(s) && inum in s.inodes
    ensures |s.inodes[inum].addrs| == NDIRECT + 1
    ensures var a := s.inodes[inum].addrs[NDIRECT];
            && (a != 0 ==> a in s.role && a in s.data)
            && (forall c :: c in s.role ==> (s.role[c] == Indirect(inum) <==> a != 0 && c == a))
            && (a == 0 ==> forall k :: NDIRECT <= k < MAXFILE ==> Addr(s, inum, k) == 0)
  {
    InodeAt(s, inum);
    BitmapOf(s);
    forall c | c in s.role && s.role[c] == Indirect(inum)
      ensures c == s.inodes[inum].addrs[NDIRECT] != 0
    {
      RoleAt(s, c);
    }
  }

  lemma FreedNext(s: Fs, t: Fs, inum: int, d: int, e: int)
    requires Ok(s) && inum in s.inodes && Freed(s, t, inum, d, e, false) && 0 <= d <= NDIRECT <= e <= MAXFILE
    ensures d < NDIRECT && Addr(s, inum, d) == 0 ==> Freed(s, t, inum, d + 1, e, false)
    ensures e < MAXFILE && Addr(s, inum, e) == 0 ==> Freed(s, t, inum, d, e + 1, false)
  {
    if d < NDIRECT { RoleOfBlock(s, inum, d); }
    if e < MAXFILE { RoleOfBlock(s, inum, e); }
  }

  const NOADDRS: seq<int> := [0, 0, 0, 0, 0, 0, 0, 0, 0, 0, 0, 0, 0]

  /** The file is empty, its blocks are free, and nothing else has changed. */
  ghost predicate Truncated(s: Fs, t: Fs, inum: int) {
    && inum in s.inodes && t.inodes == s.inodes[inum := Inode(NOADDRS, 0)] && t.data == s.data
    && t.role.Keys == s.role.Keys
    && forall b :: b in s.role ==> t.role[b] == if Of(s.role[b], inum) then Free else s.role[b]
  }

  lemma TruncatedOk(s: Fs, t: Fs, inum: int)
    requires Ok(s) && inum in s.inodes && Freed(s, t, inum, NDIRECT, MAXFILE, true)
             && t.inodes == s.inodes[inum := Inode(NOADDRS, 0)]
    ensures Ok(t) && Truncated(s, t, inum) && OneFile(s, t, inum)
  {
    BitmapOf(s);
    forall b | b in s.role
      ensures Gone(s.role[b], inum, NDIRECT, MAXFILE, true) <==> Of(s.role[b], inum)
    {
      RoleAt(s, b);
    }
    forall c | c in s.role && Other(s.role[c], inum) ensures BlockKept(s.data, s.role, t.data, t.role, c) {
      InData(s, c);
    }
    forall c | c in t.role && !Other(t.role[c], inum) ensures RoleOk(t.data, t.inodes, c, t.role[c]) { RoleAt(s, c); }
    OneFileOk(s, t, inum);
  }

  // ---- Ownership ----

  /** The ways a file can refer to a block. */
  datatype Ref = FromInode(inum: int, i: int) | FromIndirect(inum: int, j: int)

  /** The block number stored there. */
  ghost function Target(fs: Fs, ref: Ref): int {
    match ref
    case FromInode(inum, i) =>
      if inum in fs.inodes && 0 <= i < |fs.inodes[inum].addrs| then fs.inodes[inum].addrs[i] else 0
    case FromIndirect(inum, j) =>
      if inum in fs.inodes && 0 <= j < NINDIRECT && |fs.inodes[inum].addrs| == NDIRECT + 1
         && fs.inodes[inum].addrs[NDIRECT] in fs.data
      then Entry(fs.data[fs.inodes[inum].addrs[NDIRECT]], j) else 0
  }

  ghost function RoleFor(ref: Ref): Role {
    match ref
    case FromInode(inum, i) => if i == NDIRECT then Indirect(inum) else Data(inum, i)
    case FromIndirect(inum, j) => Data(inum, NDIRECT + j)
  }

  lemma RefGivesRole(fs: Fs, ref: Ref)
    requires Ok(fs) && Target(fs, ref) != 0
    ensures Target(fs, ref) in fs.role && fs.role[Target(fs, ref)] == RoleFor(ref)
    ensures ref.FromInode? ==> 0 <= ref.i <= NDIRECT
    ensures ref.FromIndirect? ==> 0 <= ref.j < NINDIRECT
  {
    InodeAt(fs, ref.inum);
    match ref
    case FromInode(inum, i) => assert i < NDIRECT ==> AddrOk(fs.data, fs.role, inum, fs.inodes[inum], i);
    case FromIndirect(inum, j) => assert AddrOk(fs.data, fs.role, inum, fs.inodes[inum], NDIRECT + j);
  }

  /** No block is referred to twice, from one file or from two, and its bit is set. */
  lemma ReferredOnce(fs: Fs, ref: Ref, ref': Ref)
    requires Ok(fs) && Target(fs, ref) != 0 && Target(fs, ref') == Target(fs, ref)
    ensures ref == ref' && 0 <= Target(fs, ref) < |fs.used| && fs.used[Target(fs, ref)]
  {
    RefGivesRole(fs, ref);
    RefGivesRole(fs, ref');
    BitmapOf(fs);
  }

  /** A block whose bit is set, and that is neither metadata nor being handed out, is referred to. */
  lemma UsedIsReferred(fs: Fs, b: int) returns (ref: Ref)
    requires Ok(fs) && 0 <= b < |fs.used| && fs.used[b] && b in fs.role && !fs.role[b].Meta? && !fs.role[b].Held?
    ensures b != 0 && Target(fs, ref) == b
  {
    BitmapOf(fs);
    RoleAt(fs, b);
    var inum := fs.role[b].inum;
    InodeAt(fs, inum);
    if fs.role[b].Indirect? {
      ref := FromInode(inum, NDIRECT);
    } else if fs.role[b].k < NDIRECT {
      ref := FromInode(inum, fs.role[b].k);
    } else {
      ref := FromIndirect(inum, fs.role[b].k - NDIRECT);
    }
  }

  /** Between operations no block is being handed out. */
  ghost predicate NoneHeld(fs: Fs) {
    forall b :: b in fs.role ==> !fs.role[b].Held?
  }

  ghost predicate IsReferred(fs: Fs, b: int) {
    exists ref :: Target(fs, ref) == b
  }

  /** Between operations the bits that are set are those of the metadata and of the blocks that files refer to. */
  lemma BitsAreReferred(fs: Fs, b: int)
    requires Ok(fs) && NoneHeld(fs) && 0 <= b < |fs.used|
    ensures b in fs.role && (fs.used[b] <==> fs.role[b].Meta? || (b != 0 && IsReferred(fs, b)))
  {
    BitmapOf(fs);
    if fs.used[b] && !fs.role[b].Meta? {
      var ref := UsedIsReferred(fs, b);
    }
    if b != 0 && IsReferred(fs, b) {
      var ref :| Target(fs, ref) == b;
      ReferredOnce(fs, ref, ref);
    }
  }
}
