/** The file system proper (os/kernel/fs.c) on top of the buffer cache: block allocator,
    in-memory inodes, block map, and byte-range reads and writes. */
module FileSystem {
  import opened Bytes
  import opened BufferCache
  import opened FsLayout
  import opened Ownership

  const NINODE: nat := 50

  /** A kernel routine either returns or panics, which stops the machine. */
  datatype Outcome<T> = Done(value: T) | Panic

  /** In-memory copy of an inode. */
  datatype MInode = MInode(dev: nat, inum: nat, ref: nat, valid: bool, typ: nat, size: nat, addrs: seq<nat>)

  function AsDinode(m: MInode): Dinode { Dinode(m.typ, m.size, m.addrs) }

  /** The typed view in which inode m.inum is what memory says it is. */
  function Eff(v: Fs, m: MInode): Fs {
    if m.inum < |v.inodes| then v.(inodes := v.inodes[m.inum := AsDinode(m)]) else v
  }

  /** Entries of the in-memory inode table that are in use name distinct inodes of the root device. */
  ghost predicate Table(sb: Super, it: seq<MInode>) {
    && |it| == NINODE
    && (forall s :: 0 <= s < NINODE ==> |it[s].addrs| == NDIRECT + 1)
    && (forall s :: 0 <= s < NINODE && it[s].ref > 0 ==> it[s].dev == ROOTDEV && it[s].inum < sb.ninodes)
    && (forall s, t :: 0 <= s < NINODE && 0 <= t < NINODE && s != t && it[s].ref > 0 && it[t].ref > 0 ==>
          it[s].inum != it[t].inum)
  }

  predicate Live(m: MInode) { m.ref > 0 && m.valid }

  /** Every loaded in-memory inode, other than entry x, equals the inode on the device. */
  ghost predicate Shadows(it: seq<MInode>, v: Fs, x: nat) {
    forall s :: 0 <= s < |it| && s != x && Live(it[s]) && it[s].inum < |v.inodes| ==>
      AsDinode(it[s]) == v.inodes[it[s].inum] && it[s].typ != 0
  }

  /** Storing a new block in pointer k of the in-memory inode is AllocSlot. */
  lemma EffAlloc(v: Fs, m: MInode, k: nat, b: nat)
    requires m.inum < |v.inodes| && |m.addrs| == NDIRECT + 1 && k <= INDIRECT
    requires b < |v.bits| && b < |v.data|
    ensures Eff(v.(bits := v.bits[b := true], data := v.data[b := Zeros(BSIZE)]), m.(addrs := m.addrs[k := b]))
         == AllocSlot(Eff(v, m), m.inum, k, b)
  {
  }

  /** Storing a new block in entry j of the indirect block is AllocSlot. */
  lemma EffEntry(v: Fs, m: MInode, j: nat, b: nat)
    requires m.inum < |v.inodes| && |m.addrs| == NDIRECT + 1
    requires b < |v.bits| && b < |v.data| && m.addrs[INDIRECT] < |v.data| && m.addrs[INDIRECT] != b
    ensures
      var a := m.addrs[INDIRECT];
      var data := v.data[b := Zeros(BSIZE)];
      Eff(v.(bits := v.bits[b := true], data := data[a := PutEntry(v.data[a], j, b)]), m)
      == AllocSlot(Eff(v, m), m.inum, 13 + j, b)
  {
  }

  /** Clearing bit and pointer k is FreeSlot. */
  lemma EffFree(v: Fs, m: MInode, k: nat)
    requires m.inum < |v.inodes| && |m.addrs| == NDIRECT + 1 && k <= INDIRECT
    requires Slot(Eff(v, m), m.inum, k) < |v.bits|
    ensures m.addrs[k] == Slot(Eff(v, m), m.inum, k)
    ensures Eff(v.(bits := v.bits[m.addrs[k] := false]), m.(addrs := m.addrs[k := 0]))
         == FreeSlot(Eff(v, m), m.inum, k)
  {
  }

  /** The same for the indirect block, ownership being stated of a view p in which that block
      reads differently. */
  lemma EffFreePretend(v: Fs, m: MInode, p: Fs)
    requires m.inum < |v.inodes| && |m.addrs| == NDIRECT + 1 && |v.bits| == |v.data| == |p.data|
    requires m.addrs[INDIRECT] < |v.data|
    requires p == Eff(v, m).(data := v.data[m.addrs[INDIRECT] := p.data[m.addrs[INDIRECT]]])
    ensures
      var a := m.addrs[INDIRECT];
      var q := FreeSlot(p, m.inum, INDIRECT);
      Eff(v.(bits := v.bits[a := false]), m.(addrs := m.addrs[INDIRECT := 0])) == q.(data := q.data[a := v.data[a]])
  {
  }

  lemma EffSame(v: Fs, m: MInode)
    requires m.inum < |v.inodes| && AsDinode(m) == v.inodes[m.inum]
    ensures Eff(v, m) == v
  {
    assert v.inodes[m.inum := v.inodes[m.inum]] == v.inodes;
  }

  /** MIN(left, BSIZE - o % BSIZE): how much of the block at offset o the next round handles. */
  function Chunk(o: nat, left: nat): (m: nat)
    ensures m <= left && m <= BSIZE - o % BSIZE && (left > 0 ==> m > 0)
  {
    if left < BSIZE - o % BSIZE then left else BSIZE - o % BSIZE
  }

  /** The block after the last one of n bytes at offset off. */
  function EndBlock(off: nat, n: nat): nat {
    if n == 0 then off / BSIZE else (off + n - 1) / BSIZE + 1
  }

  type Refs = map<nat, (nat, nat)>

  /** The referenced buffers h after one release of buffer r. */
  function Drop(h: Refs, r: nat): Refs {
    if r in h then if h[r].1 <= 1 then h - {r} else h[r := (h[r].0, h[r].1 - 1)] else h
  }

  lemma DropTaken(h: Refs, r: nat, b: nat)
    requires r in h ==> h[r].0 == b && h[r].1 > 0
    ensures Drop(h[r := (b, 1 + if r in h then h[r].1 else 0)], r) == h
    ensures |h[r := (b, 1 + if r in h then h[r].1 else 0)]| <= |h| + 1
  {
    var h' := h[r := (b, 1 + if r in h then h[r].1 else 0)];
    assert h'.Keys == h.Keys + {r};
  }

  /** Entry x gets other pointers. */
  lemma PointersChange(sb: Super, it: seq<MInode>, v: Fs, v': Fs, x: nat, addrs: seq<nat>)
    requires Table(sb, it) && Shadows(it, v, x) && x < NINODE && |addrs| == NDIRECT + 1 && v'.inodes == v.inodes
    ensures |it| == NINODE && Table(sb, it[x := it[x].(addrs := addrs)]) && Shadows(it[x := it[x].(addrs := addrs)], v', x)
  {
  }

  lemma TableUses(sb: Super, it: seq<MInode>)
    requires Table(sb, it)
    ensures |it| == NINODE && forall s :: 0 <= s < NINODE && it[s].ref > 0 ==> it[s].dev == ROOTDEV && it[s].inum < sb.ninodes
    ensures forall s :: 0 <= s < NINODE ==> |it[s].addrs| == NDIRECT + 1
  {
  }

  /** An entry gets one reference more, or a new inode that no other entry names. */
  lemma TableTake(sb: Super, it: seq<MInode>, r: nat, m: MInode)
    requires Table(sb, it) && r < NINODE && |m.addrs| == |it[r].addrs| && m.dev == ROOTDEV && m.inum < sb.ninodes
    requires if it[r].ref > 0 then m == it[r].(ref := m.ref) && m.ref > 0
             else !m.valid && forall s :: 0 <= s < NINODE && it[s].ref > 0 ==> it[s].inum != m.inum
    ensures Table(sb, it[r := m])
    ensures forall v: Fs :: Shadows(it, v, NINODE) ==> Shadows(it[r := m], v, NINODE)
  {
  }

  class FileSys {
    const sb: Super
    const bc: Cache
    var itable: seq<MInode>
    /** The owner of each allocated data block. */
    ghost var own: Owners

    /** The cache is sound, and buffers that differ from the device hold only blocks of bad. */
    ghost predicate Ready(bad: set<nat>)
      reads this, bc
    {
      && Geometry(sb) && bc.Valid() && |bc.disk| == sb.size
      && bc.Stale() <= bad
    }

    ghost function V(): Fs
      reads this, bc
    {
      if Geometry(sb) && |bc.disk| == sb.size then View(sb, bc.disk) else Fs([], [], [])
    }

    /** Boot on a device holding a sound image; the in-memory inode table starts out zeroed. */
    constructor (sb: Super, bc: Cache, ghost own: Owners)
      requires bc.Valid() && bc.Stale() == {} && Geometry(sb) && |bc.disk| == sb.size
      requires Inv(sb, View(sb, bc.disk), own)
      ensures Valid() && this.sb == sb && this.bc == bc && this.own == own
      ensures forall s :: 0 <= s < NINODE ==> itable[s].ref == 0
      ensures forall s :: 0 <= s < 50 ==> itable[s] == MInode(0, 0, 0, false, 0, 0, seq(13, _ => 0))
    {
      hide Inv, View, Cache.Valid;
      this.sb := sb;
      this.bc := bc;
      this.own := own;
      itable := seq(NINODE, _ => MInode(0, 0, 0, false, 0, 0, seq(NDIRECT + 1, _ => 0)));
    }

    // ---------- buffers ----------

    /** bread, when a buffer is certain to be available. */
    method Acquire(bno: nat, ghost bad: set<nat>) returns (bp: nat)
      requires Ready(bad) && |bc.Held()| < NBUF && bno < sb.size
      modifies bc
      ensures Ready(bad) && bc.disk == old(bc.disk)
      ensures bp in bc.Held() && bc.Held()[bp].0 == bno && Drop(bc.Held(), bp) == old(bc.Held())
      ensures forall n :: n in old(bc.Stale()) && old(bc.Pinned(n)) ==> n in bc.Stale()
      ensures |bc.Held()| <= |old(bc.Held())| + 1
    {
      hide Cache.Valid, HeldIn, StaleIn, Fetched, Oldest, PinnedIn, Keyed, Matches, Drop, Geometry;
      bc.IsKeyed();
      bp := bc.Bread(ROOTDEV, bno);
      bc.KeepsPinned(old(bc.buf), old(bc.order), bno, bp);
      DropTaken(old(bc.Held()), bp, bno);
    }

    /** The bytes of a held buffer. */
    method Data(bp: nat, ghost bad: set<nat>) returns (d: Block)
      requires Ready(bad) && bp in bc.Held() && bc.Held()[bp].0 !in bad
      ensures bc.Held()[bp].0 < sb.size && d == bc.disk[bc.Held()[bp].0]
    {
      d := bc.buf[bp].data;
      assert bc.Held()[bp].0 !in bc.Stale();
    }

    /** Change the bytes of a held buffer, bwrite it and brelse it. */
    method Commit(bp: nat, d: Block, ghost bad: set<nat>)
      requires Ready(bad) && bp in bc.Held()
      modifies bc
      ensures Ready(bad) && bc.Held() == Drop(old(bc.Held()), bp)
      ensures old(bc.Held())[bp].0 < sb.size && bc.disk == old(bc.disk)[old(bc.Held())[bp].0 := d]
      ensures bc.Stale() == old(bc.Stale()) - {old(bc.Held())[bp].0}
    {
      hide Cache.Valid, HeldIn, StaleIn;
      bc.AtBuffer(bp);
      bc.Store(bp, d);
      bc.Bwrite(bp);
      bc.Brelse(bp);
    }

    method Release(bp: nat, ghost bad: set<nat>)
      requires Ready(bad) && bp in bc.Held()
      modifies bc
      ensures Ready(bad) && bc.disk == old(bc.disk) && bc.Held() == Drop(old(bc.Held()), bp)
    {
      bc.Brelse(bp);
    }

    // ---------- blocks ----------

    /** bzero */
    method Bzero(bno: nat)
      requires Ready({}) && |bc.Held()| < NBUF && Nmeta(sb) <= bno < sb.size
      modifies bc
      ensures Ready({}) && bc.Held() == old(bc.Held())
      ensures V() == old(V()).(data := old(V()).data[bno := Zeros(BSIZE)])
    {
      DataWrite(sb, bc.disk, bno, Zeros(BSIZE));
      var bp := Acquire(bno, {});
      Commit(bp, Zeros(BSIZE), {});
    }

    /** Inner loop of balloc: the first clear bit of one bitmap block. */
    method FirstClear(blk: Block, limit: nat) returns (bi: nat)
      ensures bi <= limit && bi <= BPB
      ensures forall c :: 0 <= c < bi ==> BitAt(blk, c)
      ensures bi < limit && bi < BPB ==> !BitAt(blk, bi)
    {
      bi := 0;
      while bi < BPB && bi < limit
        invariant 0 <= bi <= BPB && bi <= limit
        invariant forall c :: 0 <= c < bi ==> BitAt(blk, c)
      {
        if !BitAt(blk, bi) {
          return;
        }
        bi := bi + 1;
      }
    }

    lemma BitsOfBlock(d: seq<Block>, b: nat, c: nat)
      requires Geometry(sb) && |d| == sb.size && b % BPB == 0 && b <= c < b + BPB && c < sb.size
      ensures BBlock(sb, b) == BBlock(sb, c) < sb.size && c % BPB == c - b
      ensures View(sb, d).bits[c] == BitAt(d[BBlock(sb, b)], c - b)
    {
      assert c / BPB == b / BPB && c % BPB == c - b;
      assert View(sb, d).bits[c] == Bit(sb, d, c);
    }

    /** One round of the outer loop of balloc: takes the first free block of one bitmap block. */
    method BallocIn(b: nat) returns (r: Outcome<nat>)
      requires Ready({}) && |bc.Held()| < NBUF
      requires b % BPB == 0 && b < sb.size
      requires forall c :: 0 <= c < Nmeta(sb) ==> V().bits[c]
      modifies bc
      ensures Ready({}) && bc.Held() == old(bc.Held())
      ensures r.Panic? ==> bc.disk == old(bc.disk) && forall c :: b <= c < b + BPB && c < sb.size ==> V().bits[c]
      ensures r.Done? ==>
        && b <= r.value < sb.size && !old(V()).bits[r.value]
        && (forall c :: b <= c < r.value ==> old(V()).bits[c])
        && V() == old(V()).(bits := old(V()).bits[r.value := true], data := old(V()).data[r.value := Zeros(BSIZE)])
    {
      hide View, Bit, BitAt, PutBit, Cache.Valid, HeldIn, StaleIn, Drop;
      ghost var d, v := bc.disk, V();
      BitsOfBlock(d, b, b);
      var bp := Acquire(BBlock(sb, b), {});
      var data := Data(bp, {});
      var bi := FirstClear(data, sb.size - b);
      forall c | b <= c < b + bi
        ensures v.bits[c]
      {
        BitsOfBlock(d, b, c);
      }
      if bi < BPB && b + bi < sb.size {
        BitsOfBlock(d, b, b + bi);
        assert !v.bits[b + bi];
        Mark(bp, data, b + bi, bi);
        return Done(b + bi);
      }
      Release(bp, {});
      assert V() == v;
      return Panic;
    }

    /** The part of balloc that takes a block: bp->data[bi/8] |= m; bwrite(bp); brelse(bp); bzero(dev, b + bi). */
    method Mark(bp: nat, data: Block, c: nat, bi: nat)
      requires Ready({}) && bp in bc.Held() && |Drop(bc.Held(), bp)| < NBUF
      requires Nmeta(sb) <= c < sb.size && bi == c % BPB
      requires bc.Held()[bp].0 == BBlock(sb, c) < sb.size && data == bc.disk[BBlock(sb, c)]
      modifies bc
      ensures Ready({}) && bc.Held() == Drop(old(bc.Held()), bp)
      ensures V() == old(V()).(bits := old(V()).bits[c := true], data := old(V()).data[c := Zeros(BSIZE)])
    {
      hide View, Bit, BitAt, PutBit, Cache.Valid, HeldIn, StaleIn, Drop;
      BitWrite(sb, bc.disk, c, true);
      Commit(bp, PutBit(data, bi, true), {});
      Bzero(c);
    }

    /** balloc: the first free block, now marked in use and zeroed. */
    method Balloc() returns (r: Outcome<nat>)
      requires Ready({}) && |bc.Held()| < NBUF
      requires forall b :: 0 <= b < Nmeta(sb) ==> V().bits[b]
      modifies bc
      ensures Ready({}) && bc.Held() == old(bc.Held())
      ensures r.Panic? ==> V() == old(V()) && forall b :: 0 <= b < sb.size ==> old(V()).bits[b]
      ensures r.Done? ==>
        && r.value < sb.size && !old(V()).bits[r.value]
        && (forall b :: 0 <= b < r.value ==> old(V()).bits[b])
        && V() == old(V()).(bits := old(V()).bits[r.value := true], data := old(V()).data[r.value := Zeros(BSIZE)])
    {
      hide Cache.Valid, HeldIn, StaleIn, View;
      ghost var v := V();
      var b := 0;
      while b < sb.size
        invariant Ready({}) && bc.Held() == old(bc.Held()) && V() == v
        invariant b % BPB == 0
        invariant forall c :: 0 <= c < b && c < sb.size ==> v.bits[c]
      {
        r := BallocIn(b);
        if r.Done? {
          return;
        }
        assert V() == v;
        b := b + BPB;
      }
      return Panic;
    }

    /** bfree; panics exactly when the block is already free. */
    method Bfree(b: nat) returns (r: Outcome<()>)
      requires Ready({}) && |bc.Held()| < NBUF && b < sb.size
      modifies bc
      ensures r.Panic? <==> !old(V()).bits[b]
      ensures r.Done? ==> Ready({}) && bc.Held() == old(bc.Held())
      ensures r.Done? ==> V() == old(V()).(bits := old(V()).bits[b := false])
    {
      BitsOfBlock(bc.disk, b / BPB * BPB, b);
      BitWrite(sb, bc.disk, b, false);
      var bp := Acquire(BBlock(sb, b), {});
      var data := Data(bp, {});
      if !BitAt(data, b % BPB) {
        return Panic;
      }
      Commit(bp, PutBit(data, b % BPB, false), {});
      return Done(());
    }

    /** No free block is left: the reason for the panic "balloc: out of blocks". */
    ghost predicate Full()
      reads this, bc
    {
      Geometry(sb) && |bc.disk| == sb.size && forall b :: 0 <= b < sb.size ==> V().bits[b]
    }

    // ---------- in-memory inodes ----------

    /** Between operations. */
    ghost predicate Valid()
      reads this, bc
    {
      Ready({}) && Table(sb, itable) && Shadows(itable, V(), NINODE) && Inv(sb, V(), own)
    }

    /** The file system as the holder of in-memory inode x sees it. */
    ghost function E(x: nat): Fs
      reads this, bc
    {
      if x < |itable| then Eff(V(), itable[x]) else V()
    }

    /** In the middle of an operation on in-memory inode x, whose device copy may be behind. */
    ghost predicate BusyWith(x: nat, bad: set<nat>)
      reads this, bc
    {
      && Ready(bad) && Table(sb, itable) && x < NINODE && Live(itable[x]) && itable[x].typ != 0
      && Shadows(itable, V(), x)
      && Shape(sb, E(x)) && Owned(sb, E(x), own)
    }

    ghost predicate Busy(x: nat)
      reads this, bc
    {
      BusyWith(x, {})
    }

    ghost predicate Open(x: nat)
      reads this, bc
    {
      Valid() && x < NINODE && Live(itable[x])
    }

    lemma OpenIsBusy(x: nat)
      requires Open(x)
      ensures x < |itable| == NINODE && Busy(x) && E(x) == V() && itable[x].inum < sb.ninodes == |V().inodes|
      ensures Inv(sb, V(), own) && V().inodes[itable[x].inum].size == itable[x].size
    {
      EffSame(V(), itable[x]);
    }

    /** iupdate */
    method Iupdate(x: nat, ghost bad: set<nat>)
      requires Ready(bad) && Table(sb, itable) && x < NINODE && itable[x].ref > 0
      requires Fits(AsDinode(itable[x])) && |bc.Held()| < NBUF
      requires IBlock(sb, itable[x].inum) !in bad
      modifies bc
      ensures Ready(bad) && bc.Held() == old(bc.Held()) && V() == old(E(x))
      ensures forall n :: n in bad && n in old(bc.Stale()) && old(bc.Pinned(n)) ==> n in bc.Stale()
    {
      hide Cache.Valid, HeldIn, StaleIn, View, ReadDinode, WriteDinode;
      var m := itable[x];
      var i := m.inum;
      assert i / IPB <= sb.ninodes / IPB;
      ghost var d := bc.disk;
      var bp := Acquire(IBlock(sb, i), bad);
      var data := Data(bp, bad);
      ReadWriteSame(data, i % IPB, AsDinode(m));
      InodeWrite(sb, d, i, WriteDinode(data, i % IPB, AsDinode(m)), AsDinode(m));
      Commit(bp, WriteDinode(data, i % IPB, AsDinode(m)), bad);
    }

    // ---------- the block map ----------

    /** ip->addrs[k] = balloc(ip->dev) */
    method BallocInto(x: nat, k: nat) returns (r: Outcome<nat>)
      requires Busy(x) && |bc.Held()| < NBUF && k <= INDIRECT && itable[x].addrs[k] == 0
      modifies this`itable, this`own, bc
      ensures r.Panic? ==> Full() && ClearBits(old(E(x)).bits) == 0
      ensures r.Done? ==>
        && Busy(x) && bc.Held() == old(bc.Held()) && r.value != 0
        && itable == old(itable)[x := old(itable)[x].(addrs := old(itable)[x].addrs[k := r.value])]
        && CanAlloc(sb, old(E(x)), old(own), itable[x].inum, k, r.value)
        && E(x) == AllocSlot(old(E(x)), itable[x].inum, k, r.value)
        && own == old(own)[r.value := (itable[x].inum, k)]
        && V().inodes == old(V()).inodes
    {
      hide Cache.Valid, HeldIn, StaleIn, View, AllocSlot, SetSlot, Owned, Table, Shadows;
      TableUses(sb, itable);
      ghost var v, e := V(), E(x);
      OwnedBits(sb, e, own);
      r := Balloc();
      if r.Panic? {
        ClearNone(e.bits);
        return;
      }
      var b := r.value;
      EffAlloc(v, itable[x], k, b);
      AllocKeepsOwned(sb, e, own, itable[x].inum, k, b);
      PointersChange(sb, itable, v, V(), x, itable[x].addrs[k := b]);
      itable := itable[x := itable[x].(addrs := itable[x].addrs[k := b])];
      own := own[b := (itable[x].inum, k)];
    }

    /** a[bn] = addr = balloc(ip->dev); bwrite(bp); brelse(bp), the indirect block being held in bp. */
    method AddEntry(x: nat, j: nat, bp: nat) returns (r: Outcome<nat>)
      requires Busy(x) && |bc.Held()| < NBUF && j < NINDIRECT && itable[x].addrs[INDIRECT] != 0
      requires bp in bc.Held() && bc.Held()[bp].0 == itable[x].addrs[INDIRECT]
      requires Slot(E(x), itable[x].inum, 13 + j) == 0
      modifies this`own, bc
      ensures r.Panic? ==> Full() && ClearBits(old(E(x)).bits) == 0
      ensures r.Done? ==>
        && Busy(x) && bc.Held() == Drop(old(bc.Held()), bp)
        && V().inodes == old(V()).inodes
        && Grows(old(E(x)), E(x), itable[x].inum) && Provided(old(E(x)), E(x), itable[x].inum, 13 + j)
        && r.value == Slot(E(x), itable[x].inum, 13 + j) && r.value != 0
    {
      hide Cache.Valid, HeldIn, StaleIn, View, AllocSlot, Grows, Drop, Owned, Entry, PutEntry, Table, Shadows, Provided;
      TableUses(sb, itable);
      ghost var v, e := V(), E(x);
      var a, i := itable[x].addrs[INDIRECT], itable[x].inum;
      OwnedBits(sb, e, own);
      OwnedSlot(sb, e, own, i, INDIRECT);
      r := Balloc();
      if r.Panic? {
        ClearNone(e.bits);
        return;
      }
      var b := r.value;
      DataView(sb, bc.disk, a);
      var data := Data(bp, {});
      EffEntry(v, itable[x], j, b);
      DataWrite(sb, bc.disk, a, PutEntry(data, j, b));
      Commit(bp, PutEntry(data, j, b), {});
      AllocEntry(sb, e, own, i, j, b);
      AllocProvides(sb, e, own, i, 13 + j, b);
      PointersChange(sb, itable, v, V(), x, itable[x].addrs);
      assert itable[x := itable[x]] == itable;
      own := own[b := (i, 13 + j)];
    }

    /** The second half of bmap: entry j of the indirect block, allocated if absent. */
    method BmapEntry(x: nat, j: nat) returns (r: Outcome<nat>)
      requires Busy(x) && |bc.Held()| + 2 <= NBUF && j < NINDIRECT && itable[x].addrs[INDIRECT] != 0
      modifies this`own, bc
      ensures r.Panic? ==> Full() && ClearBits(old(E(x)).bits) == 0
      ensures r.Done? ==>
        && Busy(x) && bc.Held() == old(bc.Held()) && Provided(old(E(x)), E(x), itable[x].inum, 13 + j)
        && V().inodes == old(V()).inodes
        && Grows(old(E(x)), E(x), itable[x].inum)
        && r.value == Slot(E(x), itable[x].inum, 13 + j) && r.value != 0
        && (Slot(old(E(x)), itable[x].inum, 13 + j) != 0 ==> V() == old(V()) && own == old(own))
      ensures Slot(old(E(x)), itable[x].inum, 13 + j) != 0 ==> r.Done?
    {
      hide Cache.Valid, HeldIn, StaleIn, View, GetLE, PutLE, Grows, Drop, Owned, Entry, Provided;
      ghost var v, e := V(), E(x);
      var a, i := itable[x].addrs[INDIRECT], itable[x].inum;
      OwnedSlot(sb, e, own, i, INDIRECT);
      DataView(sb, bc.disk, a);
      var bp := Acquire(a, {});
      var data := Data(bp, {});
      var addr := Entry(data, j);
      assert V() == v && addr == Slot(e, i, 13 + j);
      if addr != 0 {
        Release(bp, {});
        GrowsRefl(e, i);
        ProvidedRefl(e, i, 13 + j);
        return Done(addr);
      }
      r := AddEntry(x, j, bp);
    }

    /** The pointers kept in memory are the first ones of the inode. */
    lemma AddrsOf(x: nat)
      requires Busy(x)
      ensures x < |itable| == NINODE && |itable[x].addrs| == NDIRECT + 1
      ensures forall k :: 0 <= k <= INDIRECT ==> Slot(E(x), itable[x].inum, k) == itable[x].addrs[k]
      ensures itable[x].addrs[INDIRECT] == 0 ==> forall k: nat :: INDIRECT < k ==> Slot(E(x), itable[x].inum, k) == 0
    {
      hide Inv, View, Shadows, Owned, Cache.Valid;
    }

    /** bmap: the device block of the bn-th block of the file, allocated if absent. */
    method Bmap(x: nat, bn: nat) returns (r: Outcome<nat>)
      requires Busy(x) && |bc.Held()| + 2 <= NBUF && bn < MAXFILE
      modifies this`itable, this`own, bc
      ensures r.Done? ==>
        && Busy(x) && bc.Held() == old(bc.Held())
        && V().inodes == old(V()).inodes
        && itable == old(itable)[x := old(itable)[x].(addrs := itable[x].addrs)]
        && Grows(old(E(x)), E(x), itable[x].inum)
        && r.value == Addr(E(x), itable[x].inum, bn) && r.value != 0
        && (Addr(old(E(x)), itable[x].inum, bn) != 0 ==> V() == old(V()) && itable == old(itable) && own == old(own))
      ensures Addr(old(E(x)), old(itable)[x].inum, bn) != 0 ==> r.Done?
      ensures r.Panic? ==> Full()
      ensures r.Panic? <==> ClearBits(old(E(x)).bits) < Missing(old(E(x)), old(itable)[x].inum, bn)
      ensures r.Done? ==> Supplied(old(E(x)), E(x), itable[x].inum, bn)
    {
      hide Cache.Valid, HeldIn, StaleIn, View, AllocSlot, SetSlot, Grows, Owned, V, E, BusyWith, Slot, Full, Shape,
           Provided, Supplied;
      AddrsOf(x);
      ghost var e, i := E(x), itable[x].inum;
      if bn < NDIRECT {
        if itable[x].addrs[bn] == 0 {
          ghost var own0 := own;
          r := BallocInto(x, bn);
          if r.Done? {
            AllocGrows(sb, e, own0, i, bn, r.value);
            AllocSlots(sb, e, own0, i, bn, r.value, i, bn);
            AllocProvides(sb, e, own0, i, bn, r.value);
            SuppliedDirect(e, E(x), i, bn);
            EnoughFor(e, E(x), i, bn);
          }
          return;
        }
        GrowsRefl(e, i);
        ProvidedRefl(e, i, bn);
        SuppliedDirect(e, e, i, bn);
        return Done(itable[x].addrs[bn]);
      }
      if itable[x].addrs[INDIRECT] == 0 {
        ghost var own0 := own;
        r := BallocInto(x, INDIRECT);
        if r.Panic? {
          return;
        }
        AllocGrows(sb, e, own0, i, INDIRECT, r.value);
        AllocProvides(sb, e, own0, i, INDIRECT, r.value);
      } else {
        GrowsRefl(e, i);
        ProvidedRefl(e, i, INDIRECT);
      }
      ghost var e1 := E(x);
      r := BmapEntry(x, bn - NDIRECT);
      if r.Done? {
        GrowsTrans(e, e1, E(x), i);
        SuppliedIndirect(e, e1, E(x), i, bn);
        EnoughFor(e, E(x), i, bn);
      } else {
        NotEnough(e, e1, i, bn);
      }
    }

    // ---------- reading and writing byte ranges ----------

    /** One round of the loop of readi: the m bytes at offset o, which lie in one block. */
    method ReadChunk(x: nat, o: nat, m: nat) returns (u: seq<byte>)
      requires Open(x) && |bc.Held()| + 2 <= NBUF
      requires 0 < m <= BSIZE - o % BSIZE && o + m <= itable[x].size
      modifies this`itable, this`own, bc
      ensures Open(x) && bc.Held() == old(bc.Held())
      ensures V() == old(V()) && itable == old(itable) && own == old(own)
      ensures u == Content(V(), itable[x].inum)[o..o + m]
    {
      hide Cache.Valid, HeldIn, StaleIn, View, Slot, Grows, Owned, Content, ByteAt, Drop;
      OpenIsBusy(x);
      ghost var v, i := V(), itable[x].inum;
      FileBlock(sb, v, own, i, o);
      var b := Bmap(x, o / BSIZE);
      DataView(sb, bc.disk, b.value);
      var bp := Acquire(b.value, {});
      var data := Data(bp, {});
      ChunkBytes(v, i, o, m);
      u := data[o % BSIZE..o % BSIZE + m];
      Release(bp, {});
    }

    /** readi. room is how many bytes the destination accepts before a copyout fails;
        out is what was copied: whole chunks, as many as fit. */
    method Readi(x: nat, off: nat, n: nat, room: nat) returns (r: int, out: seq<byte>)
      requires Open(x) && |bc.Held()| + 2 <= NBUF && off < UINT && n < UINT
      modifies this`itable, this`own, bc
      ensures Open(x) && bc.Held() == old(bc.Held())
      ensures V() == old(V()) && itable == old(itable) && own == old(own)
      ensures
        var c := Content(V(), itable[x].inum);
        if off > |c| || off + n >= 0x1_0000_0000 then r == 0 && out == []
        else
          var m := if off + n > |c| then |c| - off else n;
          && out == c[off..off + Copied(off, m, room, 0)]
          && r == if m <= room then m else -1
    {
      hide Cache.Valid, HeldIn, StaleIn, View, Slot, Content, ByteAt, Inv, Open, V, E, Busy, BusyWith, Shadows, Chunk, Copied,
           Table, Owned, Addr, Ready, Geometry, AsDinode;
      OpenIsBusy(x);
      ghost var v, i := V(), itable[x].inum;
      ghost var c := Content(v, i);
      out := [];
      if off > itable[x].size || off + n >= UINT {
        return 0, [];
      }
      var n' := if off + n > itable[x].size then itable[x].size - off else n;
      var tot := 0;
      while tot < n'
        invariant 0 <= tot <= n' && tot <= room
        invariant Open(x) && bc.Held() == old(bc.Held())
        invariant V() == v && itable == old(itable) && own == old(own)
        invariant out == c[off..off + tot] && Copied(off, n', room, tot) == Copied(off, n', room, 0)
      {
        var m := Chunk(off + tot, n' - tot);
        CopiedStep(off, n', room, tot);
        var u := ReadChunk(x, off + tot, m);
        if tot + m > room {
          return -1, out;
        }
        SliceMore(c, off, tot, m);
        out := out + u;
        tot := tot + m;
      }
      CopiedStep(off, n', room, tot);
      return tot, out;
    }

    /** One round of the loop of writei: m bytes at offset o, of which u could be copied in.
        When the copy fails (u is short) the half-overwritten buffer is released unwritten. */
    method WriteChunk(x: nat, o: nat, m: nat, u: seq<byte>) returns (r: Outcome<nat>, ghost mid: Fs)
      requires Busy(x) && |bc.Held()| + 2 <= NBUF
      requires 0 < m <= BSIZE - o % BSIZE && o + m <= MAXFILE * BSIZE && |u| <= m
      modifies this`itable, this`own, bc
      ensures r.Done? ==>
        && BusyWith(x, {r.value})
        && bc.Held() == old(bc.Held()) && V().inodes == old(V()).inodes
        && itable == old(itable)[x := old(itable)[x].(addrs := itable[x].addrs)]
        && |mid.inodes| == sb.ninodes && Grows(old(E(x)), mid, itable[x].inum)
        && r.value == Addr(mid, itable[x].inum, o / BSIZE) && Nmeta(sb) <= r.value < sb.size
        && r.value < |mid.data| && |mid.data[r.value]| == BSIZE
        && Shape(sb, mid) && Owned(sb, mid, own)
      ensures r.Panic? ==> Full() && ClearBits(old(E(x)).bits) < Missing(old(E(x)), old(itable)[x].inum, o / BSIZE)
      ensures r.Done? ==> Supplied(old(E(x)), mid, itable[x].inum, o / BSIZE)
      ensures Addr(old(E(x)), old(itable)[x].inum, o / BSIZE) != 0 ==> r.Done?
      ensures r.Done? && |u| == m ==> Busy(x) && E(x) == Patched(mid, itable[x].inum, o, u)
      ensures r.Done? && |u| < m ==>
        && E(x) == mid
        && bc.Stale() == (if Overwrite(mid.data[r.value], o % BSIZE, u) == mid.data[r.value] then {} else {r.value})
        && bc.Pinned(r.value)
    {
      hide Cache.Valid, HeldIn, StaleIn, View, Slot, Grows, Owned, ByteAt, Drop, Supplied, Missing;
      ghost var i := itable[x].inum;
      mid := E(x);
      r := Bmap(x, o / BSIZE);
      if r.Panic? {
        return;
      }
      mid := E(x);
      var b := r.value;
      ghost var d := bc.disk;
      OwnedSlot(sb, mid, own, i, SlotOf(o / BSIZE));
      DataView(sb, d, b);
      var bp := Acquire(b, {});
      var data := Data(bp, {});
      var data' := Overwrite(data, o % BSIZE, u);
      if |u| < m {
        Abandon(bp, data');
        return;
      }
      DataWrite(sb, d, b, data');
      Commit(bp, data', {});
      DataWriteKeepsOwned(sb, mid, own, i, SlotOf(o / BSIZE), data');
    }

    /** The bytes of a held buffer are changed and it is released without bwrite: the cache
        stays coherent exactly when the bytes were already there. */
    method Abandon(bp: nat, d: Block)
      requires Ready({}) && bp in bc.Held() && |Drop(bc.Held(), bp)| + 2 <= NBUF
      modifies bc
      ensures Ready({old(bc.Held())[bp].0}) && bc.Held() == Drop(old(bc.Held()), bp) && bc.disk == old(bc.disk)
      ensures bc.Pinned(old(bc.Held())[bp].0)
      ensures old(bc.Held())[bp].0 < sb.size
      ensures bc.Stale() == if d == bc.disk[old(bc.Held())[bp].0] then {} else {old(bc.Held())[bp].0}
    {
      hide Cache.Valid, Cache.Pinned, HeldIn, StaleIn;
      bc.AtBuffer(bp);
      bc.Store(bp, d);
      bc.Brelse(bp);
      bc.PinsReleased(bp);
    }

    /** How many bytes writei stores when the source has only avail readable bytes: whole
        chunks, until one cannot be copied in. */
    function Copied(off: nat, n: nat, avail: nat, tot: nat): (k: nat)
      requires tot <= n && tot <= avail
      ensures tot <= k <= n && k <= avail
      ensures avail >= n ==> k == n
      decreases n - tot
    {
      var m := Chunk(off + tot, n - tot);
      if tot == n || tot + m > avail then tot else Copied(off, n, avail, tot + m)
    }

    /** The blocks the cache and the device disagree on after writei on file i: none when the chunk
        that could not be copied in, as far as its bytes were readable, was what the file
        already held, and otherwise the block of that chunk. */
    ghost function LeftBehind(before: Fs, after: Fs, i: nat, src: seq<byte>, off: nat, n: nat): set<nat> {
      var k := Copied(off, n, |src|, 0);
      if Present(before, i, off + k, src[k..Min(|src|, n)]) then {} else {Addr(after, i, (off + k) / BSIZE)}
    }

    lemma LeftAfterResize(before: Fs, e: Fs, i: nat, src: seq<byte>, off: nat, n: nat, o: nat)
      requires i < |e.inodes|
      ensures LeftBehind(before, Resized(e, i, o), i, src, off, n) == LeftBehind(before, e, i, src, off, n)
    {
      hide Slot, Present, Copied;
      ResizedSlots(e, i, o);
    }

    lemma NothingLeft(before: Fs, after: Fs, i: nat, src: seq<byte>, off: nat, n: nat)
      requires n <= |src|
      ensures LeftBehind(before, after, i, src, off, n) == {}
    {
      hide ByteAt, Copied;
      assert Present(before, i, off + n, []);
    }

    /** writei. src holds the bytes that can be read at the source address: a copyin that
        needs more of them fails. */
    method Writei(x: nat, src: seq<byte>, off: nat, n: nat) returns (r: Outcome<int>)
      requires Open(x) && |bc.Held()| + 2 <= NBUF && off < UINT && n < UINT
      modifies this`itable, this`own, bc
      ensures r.Done? ==>
        && bc.Held() == old(bc.Held()) && Table(sb, itable) && itable[x].inum == old(itable)[x].inum
        && itable == old(itable)[x := itable[x]] && itable[x].ref == old(itable)[x].ref
      ensures off > old(itable)[x].size || off + n > 268 * 1024 ==>
        r == Done(-1) && Open(x) && V() == old(V()) && itable == old(itable) && own == old(own)
      ensures r.Done? && off <= old(itable)[x].size && off + n <= 268 * 1024 ==>
        var i, k := itable[x].inum, Copied(off, n, |src|, 0);
        && r.value == k
        && Ready(bc.Stale()) && bc.Stale() == LeftBehind(old(V()), V(), i, src, off, n)
        && Shadows(itable, V(), NINODE) && Inv(sb, V(), own) && Live(itable[x])
        && Content(V(), i) == Splice(old(Content(V(), itable[x].inum)), off, src[..k])
        && V().inodes[i].typ == old(V()).inodes[i].typ
        && forall j :: 0 <= j < sb.ninodes && j != i ==>
             V().inodes[j] == old(V()).inodes[j] && Content(V(), j) == Content(old(V()), j)
      ensures r.Done? && n <= |src| ==> Open(x)
      ensures r.Panic? ==> Full()
      ensures off + n <= old(itable)[x].size ==> r.Done?
      ensures
        var lacks := Lacks(old(V()), old(itable)[x].inum, off / BSIZE, UpTo(off, n, |src|));
        var inside := off <= old(itable)[x].size && off + n <= MAXFILE * BSIZE;
        && (r.Panic? <==> inside && ClearBits(old(V()).bits) < lacks)
        && (r.Done? && inside ==> ClearBits(V().bits) + lacks == ClearBits(old(V()).bits))
    {
      hide Cache.Valid, HeldIn, StaleIn, View, Slot, Grows, Owned, ByteAt, Content, Inv, LeftBehind, Lacks, UpTo, ClearBits;
      OpenIsBusy(x);
      if off > itable[x].size || off + n >= UINT {
        r := Done(-1);
        return;
      }
      if off + n > MAXFILE * BSIZE {
        r := Done(-1);
        return;
      }
      ghost var e0, own0, i := V(), own, itable[x].inum;
      InvParts(sb, e0, own0, i, off);
      var tot;
      r, tot := WriteLoop(x, src, off, n);
      if r.Panic? {
        return;
      }
      ghost var e := E(x);
      Finish(x, e0, own0, off, src[..tot], bc.Stale());
      LeftAfterResize(e0, e, i, src, off, n, off + tot);
      if n <= |src| {
        NothingLeft(e0, V(), i, src, off, n);
      }
      r := Done(tot);
    }

    /** A write that meets an unreadable source address: one byte of two can be read, and it is not
        the byte the file starts with. writei answers 0 and no file has changed, but from now
        on the cache shows a byte that the device does not have. */
    method WriteUnreadable(x: nat, c: byte) returns (r: Outcome<int>)
      requires Open(x) && |bc.Held()| + 2 <= NBUF && 2 <= itable[x].size
      requires c != ByteAt(V(), itable[x].inum, 0)
      modifies this`itable, this`own, bc
      ensures r == Done(0) && Ready(bc.Stale()) && Table(sb, itable) && itable[x].inum == old(itable)[x].inum
      ensures forall j :: 0 <= j < sb.ninodes ==> Content(V(), j) == Content(old(V()), j)
      ensures bc.Stale() == {Addr(V(), itable[x].inum, 0)}
    {
      hide Cache.Valid, HeldIn, StaleIn, View, Slot, Owned, ByteAt, Inv, Addr;
      ghost var v, i := V(), itable[x].inum;
      InvParts(sb, v, own, i, 0);
      OpenIsBusy(x);
      r := Writei(x, [c], 0, 2);
      assert Copied(0, 2, 1, 0) == 0;
      assert [c][..0] == [] && [c][0..Min(1, 2)] == [c];
      assert !Present(v, i, 0, [c]) by {
        assert [c][0] != ByteAt(v, i, 0 + 0);
      }
      assert Splice(Content(v, i), 0, []) == Content(v, i);
    }

    /** One round of the loop of writei, seen from the state e0 before the write: t is stored so far,
        and u, of the m bytes wanted, could be copied in. */
    method WriteStep(x: nat, off: nat, tot: nat, m: nat, u: seq<byte>, ghost e0: Fs,
                     ghost t: seq<byte>) returns (r: Outcome<nat>)
      requires Busy(x) && |bc.Held()| + 2 <= NBUF && |e0.inodes| == sb.ninodes && NoHoles(e0) && tot == |t|
      requires 0 < m <= BSIZE - (off + tot) % BSIZE && off + tot + m <= MAXFILE * BSIZE && |u| <= m
      requires OthersKept(e0, E(x), itable[x].inum) && Stored(e0, E(x), itable[x].inum, off, t)
      modifies this`itable, this`own, bc
      ensures r.Panic? ==>
        Full() && ClearBits(old(E(x)).bits) < Missing(old(E(x)), old(itable)[x].inum, (off + tot) / BSIZE)
      ensures r.Done? ==> Supplied(old(E(x)), E(x), old(itable)[x].inum, (off + tot) / BSIZE)
      ensures off + tot < e0.inodes[old(itable)[x].inum].size ==> r.Done?
      ensures r.Done? ==>
        && BusyWith(x, bc.Stale())
        && bc.Held() == old(bc.Held()) && V().inodes == old(V()).inodes
        && itable == old(itable)[x := old(itable)[x].(addrs := itable[x].addrs)]
        && OthersKept(e0, E(x), itable[x].inum)
        && Stored(e0, E(x), itable[x].inum, off, if |u| == m then t + u else t)
      ensures r.Done? ==>
        && Nmeta(sb) <= r.value
        && if |u| == m then bc.Stale() == {} && Busy(x)
           else r.value == Addr(E(x), itable[x].inum, (off + tot) / BSIZE) && bc.Pinned(r.value)
                && bc.Stale() == if Present(e0, itable[x].inum, off + tot, u) then {} else {r.value}
    {
      hide Cache.Valid, HeldIn, StaleIn, View, Slot, Grows, Owned, ByteAt, OthersKept, Stored, NoHoles, Shape, Addr,
           Supplied, Missing;
      ghost var e, i := E(x), itable[x].inum;
      StoredAddr(e0, e, i, off, t, off + tot);
      ghost var mid;
      r, mid := WriteChunk(x, off + tot, m, u);
      if r.Done? {
        ChunkStored(sb, e0, e, mid, own, i, off, t, u);
        ShortChunk(e0, mid, i, off, t, u);
        if |u| == m {
          SuppliedPatch(sb, e, mid, own, i, (off + tot) / BSIZE, off + tot, u);
        }
      }
    }

    /** The loop of writei. */
    method WriteLoop(x: nat, src: seq<byte>, off: nat, n: nat) returns (r: Outcome<int>, tot: nat)
      requires Open(x) && |bc.Held()| + 2 <= NBUF
      requires off <= itable[x].size && off + n <= MAXFILE * BSIZE
      modifies this`itable, this`own, bc
      ensures r.Panic? ==> Full()
      ensures off + n <= old(itable)[x].size ==> r.Done?
      ensures
        var lo, hi := off / BSIZE, UpTo(off, n, |src|);
        var lacks := Lacks(old(V()), old(itable)[x].inum, lo, hi);
        && (r.Panic? <==> ClearBits(old(V()).bits) < lacks)
        && (r.Done? ==> ClearBits(E(x).bits) + lacks == ClearBits(old(V()).bits))
      ensures tot <= |src|
      ensures r.Done? ==>
        && tot == Copied(off, n, |src|, 0)
        && BusyWith(x, bc.Stale()) && bc.Held() == old(bc.Held()) && V().inodes == old(V()).inodes
        && itable == old(itable)[x := old(itable)[x].(addrs := itable[x].addrs)]
        && OthersKept(old(V()), E(x), itable[x].inum) && Stored(old(V()), E(x), itable[x].inum, off, src[..tot])
        && bc.Stale() == LeftBehind(old(V()), E(x), itable[x].inum, src, off, n)
        && (forall b :: b in bc.Stale() ==> Nmeta(sb) <= b && bc.Pinned(b))
    {
      hide Cache.Valid, HeldIn, StaleIn, View, Slot, Grows, Owned, ByteAt, Content, Inv, Addr, OthersKept, Stored,
           NoHoles, Copied, Chunk, UpTo,
           Busy, BusyWith, Open, E, V, Shadows, LeftBehind, Present, Supplied, Missing, Paid, Lacks, ClearBits;
      OpenIsBusy(x);
      ghost var e0, i := V(), itable[x].inum;
      InvParts(sb, e0, own, i, off);
      tot := 0;
      r := Done(0);
      ghost var lo: nat, hi: nat := off / BSIZE, UpTo(off, n, |src|);
      ghost var cur: nat := lo;
      UpToFirst(off, n, |src|);
      PaidNone(e0, i, lo, hi);
      while tot < n
        invariant Paid(e0, E(x), i, lo, cur, hi)
        invariant cur == if tot == n then hi else (off + tot) / BSIZE
        invariant 0 <= tot <= n && tot <= |src|
        invariant Copied(off, n, |src|, tot) == Copied(off, n, |src|, 0) && |itable| == NINODE
        invariant Busy(x) && bc.Held() == old(bc.Held()) && V().inodes == e0.inodes
        invariant itable == old(itable)[x := old(itable)[x].(addrs := itable[x].addrs)]
        invariant OthersKept(e0, E(x), i) && Stored(e0, E(x), i, off, src[..tot])
      {
        var m := Chunk(off + tot, n - tot);
        var u := src[tot..if tot + m <= |src| then tot + m else |src|];
        CopiedStep(off, n, |src|, tot);
        ghost var e := E(x);
        var b := WriteStep(x, off, tot, m, u, e0, src[..tot]);
        UpToNext(off, n, |src|, tot);
        if b.Panic? {
          PaidShort(e0, e, i, lo, cur, hi);
          r := Panic;
          return;
        }
        PaidStep(e0, e, E(x), i, lo, cur, hi);
        if |u| < m {
          PaidAll(e0, E(x), i, lo, hi);
          LeftShort(e0, E(x), i, src, off, n, tot);
          return;
        }
        PrefixMore(src, tot, m);
        tot := tot + m;
        cur := cur + 1;
      }
      PaidAll(e0, E(x), i, lo, hi);
      CopiedStep(off, n, |src|, tot);
      BusyIsClean(x);
      NothingLeft(e0, E(x), i, src, off, n);
    }

    /** The blocks that writei visits end before this one: the last is that of the chunk that cannot be copied in,
        if there is one. */
    function UpTo(off: nat, n: nat, avail: nat): nat {
      var k := Copied(off, n, avail, 0);
      if k < n then (off + k) / BSIZE + 1 else EndBlock(off, n)
    }

    lemma UpToWhole(off: nat, n: nat, avail: nat)
      requires n <= avail
      ensures UpTo(off, n, avail) == EndBlock(off, n)
    {
    }

    lemma UpToFirst(off: nat, n: nat, avail: nat)
      ensures n == 0 ==> UpTo(off, n, avail) == off / BSIZE
    {
    }

    lemma UpToNext(off: nat, n: nat, avail: nat, tot: nat)
      requires tot < n && tot <= avail && Copied(off, n, avail, tot) == Copied(off, n, avail, 0)
      requires off + n <= MAXFILE * BSIZE
      ensures
        var m := Chunk(off + tot, n - tot);
        var q := (off + tot) / BSIZE;
        && q < UpTo(off, n, avail) <= MAXFILE
        && (tot + m > avail || tot + m == n ==> UpTo(off, n, avail) == q + 1)
        && (tot + m < n ==> (off + tot + m) / BSIZE == q + 1)
    {
      var k := Copied(off, n, avail, tot);
      var m := Chunk(off + tot, n - tot);
      Divided(off + tot, m);
      Ordered(off + tot, off + k);
      Ordered(off + tot, off + n - 1);
      if k < n { Ordered(off + k, off + n - 1); }
      Ordered(off + n - 1, MAXFILE * BSIZE - 1);
      hide Copied;
      CopiedStep(off, n, avail, tot);
    }

    lemma LeftShort(before: Fs, e: Fs, i: nat, src: seq<byte>, off: nat, n: nat, tot: nat)
      requires tot <= |src| < n && Copied(off, n, |src|, 0) == tot
      ensures LeftBehind(before, e, i, src, off, n)
           == if Present(before, i, off + tot, src[tot..|src|]) then {} else {Addr(e, i, (off + tot) / BSIZE)}
    {
      hide Copied, Present, Addr;
    }

    lemma BusyIsClean(x: nat)
      requires Busy(x)
      ensures bc.Stale() == {} && BusyWith(x, bc.Stale())
    {
      hide Inv, View, Shadows, Table, Shape, Owned;
    }

    lemma CopiedStep(off: nat, n: nat, avail: nat, tot: nat)
      requires tot <= n && tot <= avail
      ensures var m := Chunk(off + tot, n - tot);
              Copied(off, n, avail, tot) == if tot == n || tot + m > avail then tot else Copied(off, n, avail, tot + m)
    {
    }

    /** The tail of writei: extend the size and write the inode back. */
    method Finish(x: nat, ghost e0: Fs, ghost own0: Owners, off: nat, t: seq<byte>, ghost bad: set<nat>)
      requires BusyWith(x, bad) && |bc.Held()| < NBUF && V().inodes == e0.inodes
      requires forall b :: b in bad ==> Nmeta(sb) <= b
      requires Inv(sb, e0, own0) && off <= e0.inodes[itable[x].inum].size == itable[x].size
      requires off + |t| <= MAXFILE * BSIZE
      requires OthersKept(e0, E(x), itable[x].inum) && Stored(e0, E(x), itable[x].inum, off, t)
      requires bc.Stale() == bad && forall n :: n in bad ==> bc.Pinned(n)
      modifies this`itable, bc
      ensures Ready(bad) && bc.Stale() == bad
      ensures bc.Held() == old(bc.Held()) && Table(sb, itable) && Live(itable[x])
      ensures V() == Resized(old(E(x)), itable[x].inum, off + |t|)
      ensures Shadows(itable, V(), NINODE) && Inv(sb, V(), own) && itable[x].inum == old(itable)[x].inum
      ensures itable == old(itable)[x := itable[x]] && itable[x].ref == old(itable)[x].ref
      ensures
        var i := itable[x].inum;
        && Content(V(), i) == Splice(Content(e0, i), off, t) && V().inodes[i].typ == e0.inodes[i].typ
        && forall j :: 0 <= j < sb.ninodes && j != i ==> V().inodes[j] == e0.inodes[j] && Content(V(), j) == Content(e0, j)
    {
      hide Cache.Valid, HeldIn, StaleIn, View, Slot, Grows, Owned, ByteAt, Content, Inv, Stored;
      ghost var e, i := E(x), itable[x].inum;
      StoredDone(sb, e0, own0, e, own, i, off, t);
      if off + |t| > itable[x].size {
        itable := itable[x := itable[x].(size := off + |t|)];
      }
      ghost var m := itable[x];
      assert E(x) == Resized(e, i, off + |t|);
      InvParts(sb, E(x), own, i, 0);
      Iupdate(x, bad);
      assert V() == Resized(e, i, off + |t|);
    }

    // ---------- truncation ----------

    /** if(ip->addrs[k]) { bfree(ip->dev, ip->addrs[k]); ip->addrs[k] = 0; } */
    method FreeAddr(x: nat, k: nat)
      requires Busy(x) && |bc.Held()| < NBUF && k <= INDIRECT && itable[x].addrs[k] != 0
      requires CanFree(sb, E(x), own, itable[x].inum, k)
      modifies this`itable, this`own, bc
      ensures Busy(x) && bc.Held() == old(bc.Held())
      ensures itable == old(itable)[x := old(itable)[x].(addrs := old(itable)[x].addrs[k := 0])]
      ensures V().inodes == old(V()).inodes && V().data == old(V()).data
    {
      hide Cache.Valid, HeldIn, StaleIn, View, Slot, Owned, CanFree, Table, Shadows;
      TableUses(sb, itable);
      ghost var v, e, i := V(), E(x), itable[x].inum;
      var b := itable[x].addrs[k];
      FreeKeepsOwned(sb, e, own, i, k);
      EffFree(v, itable[x], k);
      var ok := Bfree(b);
      assert ok.Done?;
      PointersChange(sb, itable, v, V(), x, itable[x].addrs[k := 0]);
      itable := itable[x := itable[x].(addrs := itable[x].addrs[k := 0])];
      own := own - {b};
    }

    /** First loop of itrunc: the direct blocks. */
    method TruncDirect(x: nat)
      requires Busy(x) && |bc.Held()| < NBUF
      modifies this`itable, this`own, bc
      ensures Busy(x) && bc.Held() == old(bc.Held())
      ensures itable == old(itable)[x := old(itable)[x].(addrs := itable[x].addrs)]
      ensures forall k :: 0 <= k < NDIRECT ==> itable[x].addrs[k] == 0
      ensures itable[x].addrs[INDIRECT] == old(itable)[x].addrs[INDIRECT]
      ensures V().inodes == old(V()).inodes && V().data == old(V()).data
    {
      hide Cache.Valid, HeldIn, StaleIn, View, Owned;
      var k := 0;
      while k < NDIRECT
        invariant 0 <= k <= NDIRECT
        invariant Busy(x) && bc.Held() == old(bc.Held())
        invariant itable == old(itable)[x := old(itable)[x].(addrs := itable[x].addrs)]
        invariant forall j :: 0 <= j < k ==> itable[x].addrs[j] == 0
        invariant itable[x].addrs[INDIRECT] == old(itable)[x].addrs[INDIRECT]
        invariant V().inodes == old(V()).inodes && V().data == old(V()).data
      {
        if itable[x].addrs[k] != 0 {
          FreeAddr(x, k);
        }
        k := k + 1;
      }
    }

    /** Second loop of itrunc: the blocks listed in the indirect block. The entries stay in the
        block, so ownership is stated of the view in which the freed ones read 0. */
    method TruncEntries(x: nat, bp: nat) returns (ghost p: Fs)
      requires Busy(x) && |bc.Held()| < NBUF && itable[x].addrs[INDIRECT] != 0
      requires bp in bc.Held() && bc.Held()[bp].0 == itable[x].addrs[INDIRECT]
      modifies this`own, bc
      ensures Ready({}) && bc.Held() == old(bc.Held())
      ensures V().inodes == old(V()).inodes && V().data == old(V()).data
      ensures Shape(sb, p) && Owned(sb, p, own)
      ensures p == E(x).(data := E(x).data[itable[x].addrs[INDIRECT] := p.data[itable[x].addrs[INDIRECT]]])
      ensures CanFree(sb, p, own, itable[x].inum, INDIRECT)
    {
      hide Cache.Valid, HeldIn, StaleIn, View, Owned, GetLE, PutLE, Entry, PutEntry;
      ghost var i := itable[x].inum;
      var a := itable[x].addrs[INDIRECT];
      p := E(x);
      OwnedSlot(sb, p, own, i, INDIRECT);
      DataView(sb, bc.disk, a);
      var data := Data(bp, {});
      assert p.data[a := p.data[a]] == p.data;
      var j := 0;
      while j < NINDIRECT
        invariant 0 <= j <= NINDIRECT
        invariant Pretends(x, a, p) && bc.Held() == old(bc.Held())
        invariant V().inodes == old(V()).inodes && V().data == old(V()).data
        invariant forall l :: 0 <= l < NINDIRECT ==> Entry(p.data[a], l) == if l < j then 0 else Entry(data, l)
      {
        var b := Entry(data, j);
        if b != 0 {
          p := FreeEntry(x, a, j, b, p);
        }
        j := j + 1;
      }
    }

    /** In the middle of the second loop of itrunc: p is the file system with the entries freed so far set to 0. */
    ghost predicate Pretends(x: nat, a: nat, p: Fs)
      reads this, bc
    {
      && Ready({}) && Shape(sb, p) && Owned(sb, p, own) && x < |itable| && itable[x].inum < sb.ninodes
      && p.bits == V().bits && p.inodes == E(x).inodes && a < |p.data| && p.data == V().data[a := p.data[a]]
      && |itable[x].addrs| == NDIRECT + 1 && a == itable[x].addrs[INDIRECT] != 0
    }

    /** One round of that loop. */
    method FreeEntry(x: nat, a: nat, j: nat, b: nat, ghost p: Fs) returns (ghost p': Fs)
      requires Pretends(x, a, p) && |bc.Held()| < NBUF && j < NINDIRECT && Entry(p.data[a], j) == b != 0
      modifies this`own, bc
      ensures Pretends(x, a, p') && bc.Held() == old(bc.Held())
      ensures V().inodes == old(V()).inodes && V().data == old(V()).data
      ensures forall l :: 0 <= l < NINDIRECT ==> Entry(p'.data[a], l) == if l == j then 0 else Entry(p.data[a], l)
    {
      hide Cache.Valid, HeldIn, StaleIn, View, Owned, Entry, PutEntry;
      ghost var i := itable[x].inum;
      Pointer(sb, p, own, i, INDIRECT);
      assert Slot(p, i, 13 + j) == b;
      FreeKeepsOwned(sb, p, own, i, 13 + j);
      p' := FreeSlot(p, i, 13 + j);
      forall l | 0 <= l < NINDIRECT
        ensures Entry(p'.data[a], l) == if l == j then 0 else Entry(p.data[a], l)
      {
        EntryPut(p.data[a], j, 0, l);
      }
      var ok := Bfree(b);
      assert ok.Done?;
      own := own - {b};
    }

    /** The indirect half of itrunc. */
    method TruncIndirect(x: nat)
      requires Busy(x) && |bc.Held()| + 2 <= NBUF && itable[x].addrs[INDIRECT] != 0
      modifies this`itable, this`own, bc
      ensures Busy(x) && bc.Held() == old(bc.Held())
      ensures itable == old(itable)[x := old(itable)[x].(addrs := old(itable)[x].addrs[INDIRECT := 0])]
      ensures V().inodes == old(V()).inodes && V().data == old(V()).data
    {
      hide Cache.Valid, HeldIn, StaleIn, View, Owned, Drop, Table, Shadows;
      TableUses(sb, itable);
      ghost var i, v, v0 := itable[x].inum, V(), V();
      var a := itable[x].addrs[INDIRECT];
      OwnedSlot(sb, E(x), own, i, INDIRECT);
      var bp := Acquire(a, {});
      assert V() == v;
      ghost var p := TruncEntries(x, bp);
      Release(bp, {});
      v := V();
      FreeKeepsOwned(sb, p, own, i, INDIRECT);
      var ok := Bfree(a);
      assert ok.Done?;
      PointersChange(sb, itable, v0, V(), x, itable[x].addrs[INDIRECT := 0]);
      itable := itable[x := itable[x].(addrs := itable[x].addrs[INDIRECT := 0])];
      own := own - {a};
      UnownedData(sb, FreeSlot(p, i, INDIRECT), own, a, v.data[a]);
      EffFreePretend(v, old(itable)[x], p);
    }

    /** itrunc: every block of the inode becomes free, its file empty; nothing else changes. */
    method Itrunc(x: nat)
      requires Open(x) && |bc.Held()| + 2 <= NBUF
      modifies this`itable, this`own, bc
      ensures Open(x) && bc.Held() == old(bc.Held()) && itable[x].inum == old(itable)[x].inum
      ensures itable == old(itable)[x := itable[x]] && itable[x].ref == old(itable)[x].ref
      ensures
        var i := itable[x].inum;
        && V().inodes == old(V()).inodes[i := Dinode(old(itable)[x].typ, 0, seq(NDIRECT + 1, _ => 0))]
        && (forall k :: 0 <= k < NSLOT ==> Slot(V(), i, k) == 0) && Content(V(), i) == []
        && forall j :: 0 <= j < sb.ninodes && j != i ==> Content(V(), j) == Content(old(V()), j)
    {
      hide Cache.Valid, HeldIn, StaleIn, View, Owned, Slot, Inv, Content;
      OpenIsBusy(x);
      ghost var v, i := V(), itable[x].inum;
      TruncBlocks(x);
      ghost var u := E(x);
      InvParts(sb, v, old(own), i, 0);
      EmptiedInv(sb, v, old(own), u, own, i);
      itable := itable[x := itable[x].(size := 0)];
      assert E(x) == u.(inodes := u.inodes[i := u.inodes[i].(size := 0)]);
      Iupdate(x, {});
    }

    method TruncBlocks(x: nat)
      requires Busy(x) && |bc.Held()| + 2 <= NBUF
      modifies this`itable, this`own, bc
      ensures Busy(x) && bc.Held() == old(bc.Held())
      ensures itable == old(itable)[x := old(itable)[x].(addrs := seq(NDIRECT + 1, _ => 0))]
      ensures V().inodes == old(V()).inodes && V().data == old(V()).data
    {
      hide Cache.Valid, HeldIn, StaleIn, View, Owned, Slot;
      TruncDirect(x);
      if itable[x].addrs[INDIRECT] != 0 {
        TruncIndirect(x);
      }
      assert itable[x].addrs == seq(NDIRECT + 1, _ => 0);
    }

    // ---------- inode numbers ----------

    /** iget; -1 stands for the panic "iget: no inodes". */
    method Iget(dev: nat, inum: nat) returns (r: int)
      requires Table(sb, itable) && dev == ROOTDEV && inum < sb.ninodes
      modifies this`itable
      ensures Table(sb, itable) && |old(itable)| == 50 && -1 <= r < 50
      ensures r < 0 <==> forall s :: 0 <= s < 50 ==> old(itable)[s].ref > 0 && old(itable)[s].inum != inum
      ensures r < 0 ==> itable == old(itable)
      ensures r >= 0 ==>
        var m := old(itable)[r];
        itable == old(itable)[r := if m.ref > 0 then m.(ref := m.ref + 1)
                                   else m.(dev := dev, inum := inum, ref := 1, valid := false)]
      ensures r >= 0 ==> itable[r].inum == inum && itable[r].ref > 0
      ensures r >= 0 && old(itable)[r].ref > 0 ==> old(itable)[r].inum == inum
      ensures r >= 0 && old(itable)[r].ref == 0 ==>
        && (forall s :: 0 <= s < NINODE && old(itable)[s].ref > 0 ==> old(itable)[s].inum != inum)
        && (forall s :: 0 <= s < r ==> old(itable)[s].ref > 0)
      ensures forall v: Fs :: Shadows(old(itable), v, NINODE) ==> Shadows(itable, v, NINODE)
    {
      hide Table, Shadows;
      TableUses(sb, itable);
      var empty, s := -1, 0;
      while s < NINODE
        invariant 0 <= s <= NINODE && -1 <= empty < s
        invariant forall t :: 0 <= t < s && itable[t].ref > 0 ==> itable[t].inum != inum
        invariant forall t :: 0 <= t < (if empty < 0 then s else empty) ==> itable[t].ref > 0
        invariant empty >= 0 ==> itable[empty].ref == 0
      {
        if itable[s].ref > 0 && itable[s].dev == dev && itable[s].inum == inum {
          TableTake(sb, itable, s, itable[s].(ref := itable[s].ref + 1));
          itable := itable[s := itable[s].(ref := itable[s].ref + 1)];
          return s;
        }
        if empty == -1 && itable[s].ref == 0 {
          empty := s;
        }
        s := s + 1;
      }
      if empty == -1 {
        return -1;
      }
      TableTake(sb, itable, empty, itable[empty].(dev := dev, inum := inum, ref := 1, valid := false));
      itable := itable[empty := itable[empty].(dev := dev, inum := inum, ref := 1, valid := false)];
      return empty;
    }

    /** ivalid; panics exactly when the inode on the device is free. */
    method Ivalid(x: nat) returns (r: Outcome<()>)
      requires Valid() && x < NINODE && itable[x].ref > 0 && |bc.Held()| < NBUF
      modifies this`itable, bc
      ensures bc.Held() == old(bc.Held())
      ensures r.Panic? <==> !old(itable)[x].valid && old(V()).inodes[old(itable)[x].inum].typ == 0
      ensures r.Done? ==> Open(x) && V() == old(V())
      ensures r.Done? ==> itable == old(itable)[x := itable[x]]
                          && itable[x].inum == old(itable)[x].inum && itable[x].ref == old(itable)[x].ref
    {
      hide Cache.Valid, HeldIn, StaleIn, View, ReadDinode, Inv, Drop;
      if !itable[x].valid {
        var i := itable[x].inum;
        assert i / IPB <= sb.ninodes / IPB;
        InodeView(sb, bc.disk, i);
        ghost var v := V();
        var bp := Acquire(IBlock(sb, i), {});
        var data := Data(bp, {});
        var dip := ReadDinode(data, i % IPB);
        ReadDinodeFits(data, i % IPB);
        Release(bp, {});
        assert V() == v;
        itable := itable[x := itable[x].(typ := dip.typ, size := dip.size, addrs := dip.addrs, valid := true)];
        if dip.typ == 0 {
          return Panic;
        }
      }
      return Done(());
    }

    /** iput; freeing the inode on the last release is switched off in the source. */
    method Iput(x: nat)
      requires Valid() && x < NINODE && itable[x].ref > 0
      modifies this`itable
      ensures Valid() && itable == old(itable)[x := old(itable)[x].(ref := old(itable)[x].ref - 1)] && |itable| == NINODE
    {
      hide Inv, Cache.Valid, View;
      itable := itable[x := itable[x].(ref := itable[x].ref - 1)];
    }

    /** ialloc: the lowest free inode from 1 up becomes an empty file of the given type. */
    method Ialloc(typ: nat) returns (r: Outcome<nat>)
      requires Valid() && |bc.Held()| < NBUF && 0 < typ < 65536
      modifies this`itable, bc
      ensures r.Panic? ==>
        || (forall j :: 1 <= j < sb.ninodes ==> old(V()).inodes[j].typ != 0)
        || (forall s :: 0 <= s < NINODE ==> old(itable)[s].ref > 0)
      ensures r.Done? ==>
        && Valid() && bc.Held() == old(bc.Held()) && r.value < NINODE
        && itable == old(itable)[r.value := itable[r.value]] && itable[r.value].ref == old(itable)[r.value].ref + 1
        && (old(itable)[r.value].ref == 0 ==> forall s :: 0 <= s < r.value ==> old(itable)[s].ref > 0)
        && (old(itable)[r.value].ref > 0 ==> old(itable)[r.value].inum == itable[r.value].inum)
        && var i := itable[r.value].inum;
        && 1 <= i < sb.ninodes && old(V()).inodes[i].typ == 0
        && (forall j :: 1 <= j < i ==> old(V()).inodes[j].typ != 0)
        && V() == old(V()).(inodes := old(V()).inodes[i := Dinode(typ, 0, seq(NDIRECT + 1, _ => 0))])
        && Content(V(), i) == []
        && forall j :: 0 <= j < sb.ninodes && j != i ==> Content(V(), j) == Content(old(V()), j)
    {
      hide Cache.Valid, HeldIn, StaleIn, View, ReadDinode, Inv, Drop, FreshDinode, Content;
      ghost var v := V();
      var inum := 1;
      while inum < sb.ninodes
        invariant 1 <= inum
        invariant Valid() && bc.Held() == old(bc.Held()) && V() == v && itable == old(itable) && own == old(own)
        invariant forall j :: 1 <= j < inum && j < sb.ninodes ==> v.inodes[j].typ != 0
      {
        assert inum / IPB <= sb.ninodes / IPB;
        ghost var d := bc.disk;
        InodeView(sb, d, inum);
        var bp := Acquire(IBlock(sb, inum), {});
        var data := Data(bp, {});
        if ReadDinode(data, inum % IPB).typ == 0 {
          FreshDinodeReads(data, inum % IPB, typ);
          InodeWrite(sb, d, inum, FreshDinode(data, inum % IPB, typ), Dinode(typ, 0, seq(NDIRECT + 1, _ => 0)));
          Commit(bp, FreshDinode(data, inum % IPB, typ), {});
          FreshInv(sb, v, own, inum, typ);
          var x := Iget(ROOTDEV, inum);
          if x < 0 {
            return Panic;
          }
          return Done(x);
        }
        Release(bp, {});
        assert V() == v;
        inum := inum + 1;
      }
      return Panic;
    }
  }

  /** fsinit: the kernel starts on a device that holds a sound image, or panics when the magic number
      is wrong. */
  method Fsinit(bc: Cache, ghost own: Owners) returns (r: Outcome<FileSys>)
    requires bc.Valid() && bc.Stale() == {} && |bc.Held()| < NBUF && |bc.disk| > 1
    requires
      var s := ReadSuper(bc.disk[1]);
      s.Some? ==> Geometry(s.value) && |bc.disk| == s.value.size && Inv(s.value, View(s.value, bc.disk), own)
    modifies bc
    ensures bc.disk == old(bc.disk) && bc.Held() == old(bc.Held())
    ensures r.Panic? <==> ReadSuper(bc.disk[1]) == None
    ensures r.Done? ==>
      && fresh(r.value) && r.value.Valid() && ReadSuper(bc.disk[1]) == Some(r.value.sb) && r.value.bc == bc && r.value.own == own
      && forall s :: 0 <= s < NINODE ==> r.value.itable[s].ref == 0
  {
    hide Inv, View, Cache.Valid, ReadSuper, HeldIn, StaleIn, Fetched, Oldest;
    var bp := bc.Bread(ROOTDEV, 1);
    bc.IsKeyed();
    DropTaken(old(bc.Held()), bp, 1);
    var s := ReadSuper(bc.buf[bp].data);
    bc.Brelse(bp);
    if s.None? {
      return Panic;
    }
    var fs := new FileSys(s.value, bc, own);
    return Done(fs);
  }

  lemma SliceMore(c: seq<byte>, off: nat, tot: nat, m: nat)
    requires off + tot + m <= |c|
    ensures c[off..off + tot] + c[off + tot..off + tot + m] == c[off..off + tot + m]
  {
  }

  lemma PrefixMore(s: seq<byte>, tot: nat, m: nat)
    requires tot + m <= |s|
    ensures s[..tot] + s[tot..tot + m] == s[..tot + m]
  {
  }

  lemma InodeView(sb: Super, d: seq<Block>, i: nat)
    requires Geometry(sb) && |d| == sb.size && i < sb.ninodes
    ensures View(sb, d).inodes[i] == ReadDinode(d[IBlock(sb, i)], i % IPB)
  {
    hide ReadDinode;
  }

  /** memset(dip, 0, sizeof(*dip)); dip->type = type */
  function FreshDinode(blk: seq<byte>, s: nat, typ: nat): (r: seq<byte>)
    requires |blk| == BSIZE && s < IPB
    ensures |r| == BSIZE
    ensures forall p :: 0 <= p < BSIZE && !(DINODE * s <= p < DINODE * (s + 1)) ==> r[p] == blk[p]
  {
    PutLE(Overwrite(blk, DINODE * s, Zeros(DINODE)), DINODE * s, 2, typ)
  }

  lemma FreshDinodeReads(blk: seq<byte>, s: nat, typ: nat)
    requires |blk| == BSIZE && s < IPB && typ < 65536
    ensures ReadDinode(FreshDinode(blk, s, typ), s) == Dinode(typ, 0, seq(NDIRECT + 1, _ => 0))
  {
    hide GetLE, PutLE;
    var o := DINODE * s;
    var z := Overwrite(blk, o, Zeros(DINODE));
    var f := PutLE(z, o, 2, typ);
    assert Pow256(2) == 65536;
    GetPutSame(z, o, 2, typ);
    GetZero(f, o + 8, 4);
    forall k | 0 <= k <= NDIRECT
      ensures GetLE(f, o + 12 + 4 * k, 4) == 0
    {
      GetZero(f, o + 12 + 4 * k, 4);
    }
    assert GetWords(f, o + 12, NDIRECT + 1) == seq(NDIRECT + 1, _ => 0);
  }

  /** A free inode owns nothing, so making it an empty file keeps the invariant. */
  lemma FreshInv(sb: Super, v: Fs, own: Owners, i: nat, typ: nat)
    requires Inv(sb, v, own) && i < sb.ninodes && v.inodes[i].typ == 0 && typ < 65536
    ensures
      var v' := v.(inodes := v.inodes[i := Dinode(typ, 0, seq(NDIRECT + 1, _ => 0))]);
      && Inv(sb, v', own) && Content(v', i) == []
      && forall j :: 0 <= j < sb.ninodes && j != i ==> Content(v', j) == Content(v, j)
  {
    hide Slot, Owned, Content, ByteAt;
    var d := Dinode(typ, 0, seq(NDIRECT + 1, _ => 0));
    var v' := v.(inodes := v.inodes[i := d]);
    FreshSlots(sb, v, i, d);
    SameSlotsOwned(sb, v, v', own);
    forall j | 0 <= j < sb.ninodes && j != i
      ensures HoleFree(v', j) && Content(v', j) == Content(v, j)
    {
      FreshOther(v, i, d, j);
    }
  }

  lemma FreshSlots(sb: Super, v: Fs, i: nat, d: Dinode)
    requires |v.inodes| == sb.ninodes && Files(sb, v) && i < sb.ninodes && v.inodes[i].typ == 0
    requires |v.inodes[i].addrs| == NDIRECT + 1 && d.addrs == seq(NDIRECT + 1, _ => 0) && d.size == 0
    ensures forall j: nat, k: nat :: k < NSLOT ==> Slot(v.(inodes := v.inodes[i := d]), j, k) == Slot(v, j, k)
    ensures Content(v.(inodes := v.inodes[i := d]), i) == []
  {
    hide Entry, HoleFree;
    assert forall k :: 0 <= k < NSLOT ==> Slot(v, i, k) == 0;
  }

  lemma FreshOther(v: Fs, i: nat, d: Dinode, j: nat)
    requires i < |v.inodes| && j < |v.inodes| && j != i && HoleFree(v, j)
    ensures HoleFree(v.(inodes := v.inodes[i := d]), j)
    ensures Content(v.(inodes := v.inodes[i := d]), j) == Content(v, j)
  {
    hide Entry;
    var v' := v.(inodes := v.inodes[i := d]);
    forall k: nat
      ensures Slot(v', j, k) == Slot(v, j, k)
    {
    }
    hide Slot;
    forall p | 0 <= p < v'.inodes[j].size
      ensures Addr(v', j, p / BSIZE) != 0
    {
      assert Addr(v, j, p / BSIZE) != 0;
    }
  }

  /** An inode all of whose pointers are gone becomes an empty file. */
  lemma EmptiedInv(sb: Super, v: Fs, own0: Owners, u: Fs, own: Owners, i: nat)
    requires Inv(sb, v, own0) && Shape(sb, u) && Owned(sb, u, own) && i < sb.ninodes
    requires u.data == v.data && (forall j :: 0 <= j < sb.ninodes && j != i ==> u.inodes[j] == v.inodes[j])
    requires u.inodes[i].typ != 0 && forall k :: 0 <= k <= NDIRECT ==> u.inodes[i].addrs[k] == 0
    ensures
      var v' := u.(inodes := u.inodes[i := u.inodes[i].(size := 0)]);
      && Inv(sb, v', own) && Content(v', i) == []
      && (forall k :: 0 <= k < NSLOT ==> Slot(v', i, k) == 0)
      && forall j :: 0 <= j < sb.ninodes && j != i ==> Content(v', j) == Content(v, j)
  {
    hide Slot, Owned, Content, ByteAt, Fits;
    var v' := u.(inodes := u.inodes[i := u.inodes[i].(size := 0)]);
    EmptiedFits(u.inodes[i]);
    EmptiedSlots(u, i);
    SameSlotsOwned(sb, u, v', own);
    forall j | 0 <= j < sb.ninodes && j != i
      ensures v'.inodes[j] == v.inodes[j] && HoleFree(v', j)
      ensures Content(v', j) == Content(v, j) && forall k: nat :: Slot(v', j, k) == Slot(v, j, k)
    {
      assert u.inodes[j] == v.inodes[j];
      EmptiedOther(v, u, i, j);
    }
    EmptiedFiles(sb, v, v', i);
  }

  /** Only inode i, now empty, differs from v in what its pointers reach. */
  lemma EmptiedFiles(sb: Super, v: Fs, v': Fs, i: nat)
    requires |v.inodes| == |v'.inodes| == sb.ninodes && Files(sb, v) && i < sb.ninodes
    requires v'.inodes[i].size == 0 && v'.inodes[i].typ != 0
    requires forall j :: 0 <= j < sb.ninodes && j != i ==>
      v'.inodes[j] == v.inodes[j] && HoleFree(v', j) && forall k: nat :: Slot(v', j, k) == Slot(v, j, k)
    ensures Files(sb, v')
  {
    hide Slot;
  }

  lemma EmptiedFits(d: Dinode)
    requires Fits(d)
    ensures |d.addrs| == NDIRECT + 1 && Fits(d.(size := 0))
  {
  }

  lemma EmptiedSlots(u: Fs, i: nat)
    requires i < |u.inodes| && |u.inodes[i].addrs| == NDIRECT + 1
    requires forall k :: 0 <= k <= NDIRECT ==> u.inodes[i].addrs[k] == 0
    ensures
      var v' := u.(inodes := u.inodes[i := u.inodes[i].(size := 0)]);
      && (forall j: nat, k: nat :: Slot(v', j, k) == Slot(u, j, k)) && (forall k: nat :: Slot(v', i, k) == 0)
      && Content(v', i) == []
  {
    hide Entry;
  }

  /** Ownership depends on the bitmap and the pointers only. */
  lemma SameSlotsOwned(sb: Super, v: Fs, v': Fs, own: Owners)
    requires Owned(sb, v, own) && v'.bits == v.bits
    requires forall j: nat, k: nat :: k < NSLOT ==> Slot(v', j, k) == Slot(v, j, k)
    ensures Owned(sb, v', own)
  {
    hide Slot;
  }

  lemma EmptiedOther(v: Fs, u: Fs, i: nat, j: nat)
    requires i < |u.inodes| == |v.inodes| && j < |u.inodes| && j != i && u.data == v.data && u.inodes[j] == v.inodes[j]
    requires HoleFree(v, j)
    ensures
      var v' := u.(inodes := u.inodes[i := u.inodes[i].(size := 0)]);
      HoleFree(v', j) && Content(v', j) == Content(v, j) && forall k: nat :: Slot(v', j, k) == Slot(v, j, k)
  {
    hide Entry;
    var v' := u.(inodes := u.inodes[i := u.inodes[i].(size := 0)]);
    forall k: nat
      ensures Slot(v', j, k) == Slot(v, j, k)
    {
    }
    hide Slot;
    forall p | 0 <= p < v'.inodes[j].size
      ensures Addr(v', j, p / BSIZE) != 0
    {
      assert Addr(v, j, p / BSIZE) != 0;
    }
  }

  /** The content of a block nobody owns is irrelevant to ownership. */
  lemma UnownedData(sb: Super, v: Fs, own: Owners, a: nat, blk: seq<byte>)
    requires Shape(sb, v) && Owned(sb, v, own) && a < sb.size && a !in own && |blk| == BSIZE
    ensures Shape(sb, v.(data := v.data[a := blk])) && Owned(sb, v.(data := v.data[a := blk]), own)
  {
    hide Entry;
    var v' := v.(data := v.data[a := blk]);
    forall i, k | 0 <= i < sb.ninodes && 0 <= k < NSLOT
      ensures Slot(v', i, k) == Slot(v, i, k)
    {
      assert Slot(v, i, INDIRECT) != 0 ==> Slot(v, i, INDIRECT) in own;
    }
  }

  /** File i has the bytes u at offset o; absent blocks read as zeros. */
  ghost predicate Present(v: Fs, i: nat, o: nat, u: seq<byte>) {
    forall j :: 0 <= j < |u| ==> u[j] == ByteAt(v, i, o + j)
  }

  /** Overwriting a block with the bytes u changes nothing exactly when the file had them. */
  lemma ShortChunk(e0: Fs, mid: Fs, i: nat, off: nat, t: seq<byte>, u: seq<byte>)
    requires i < |e0.inodes| && Stored(e0, mid, i, off, t) && off + |t| + |u| <= MAXFILE * BSIZE
    requires (off + |t|) % BSIZE + |u| <= BSIZE
    requires 0 < Addr(mid, i, (off + |t|) / BSIZE) < |mid.data|
    requires |mid.data[Addr(mid, i, (off + |t|) / BSIZE)]| == BSIZE
    ensures
      var q := off + |t|;
      var blk := mid.data[Addr(mid, i, q / BSIZE)];
      Overwrite(blk, q % BSIZE, u) == blk <==> Present(e0, i, q, u)
  {
    hide Slot, Stored, Addr, ByteAt, Overwrite, Present;
    var q := off + |t|;
    var blk := mid.data[Addr(mid, i, q / BSIZE)];
    forall j | 0 <= j < |u|
      ensures u[j] == ByteAt(e0, i, q + j) <==> u[j] == blk[q % BSIZE + j]
    {
      InBlock(mid, i, q, j);
      StoredRest(e0, mid, i, off, t, q + j);
    }
    PresentIn(e0, i, q, u, blk);
  }

  lemma PresentIn(e0: Fs, i: nat, q: nat, u: seq<byte>, blk: Block)
    requires |blk| == BSIZE && q % BSIZE + |u| <= BSIZE
    requires forall j :: 0 <= j < |u| ==> (u[j] == ByteAt(e0, i, q + j) <==> u[j] == blk[q % BSIZE + j])
    ensures Overwrite(blk, q % BSIZE, u) == blk <==> Present(e0, i, q, u)
  {
    hide ByteAt, Overwrite;
    OverwriteSame(blk, q % BSIZE, u);
  }

  lemma InBlock(v: Fs, i: nat, q: nat, j: nat)
    requires q % BSIZE + j < BSIZE && 0 < Addr(v, i, q / BSIZE) < |v.data| && |v.data[Addr(v, i, q / BSIZE)]| == BSIZE
    ensures ByteAt(v, i, q + j) == v.data[Addr(v, i, q / BSIZE)][q % BSIZE + j]
  {
    hide Slot;
    assert (q + j) / BSIZE == q / BSIZE && (q + j) % BSIZE == q % BSIZE + j;
  }

  lemma OverwriteSame(blk: seq<byte>, o: nat, u: seq<byte>)
    requires o + |u| <= |blk|
    ensures Overwrite(blk, o, u) == blk <==> forall j :: 0 <= j < |u| ==> u[j] == blk[o + j]
  {
    var r := Overwrite(blk, o, u);
    if r == blk {
      forall j | 0 <= j < |u|
        ensures u[j] == blk[o + j]
      {
        assert r[o + j] == u[j];
      }
    }
  }

  lemma StoredRest(e0: Fs, e: Fs, i: nat, off: nat, t: seq<byte>, p: nat)
    requires i < |e0.inodes| && Stored(e0, e, i, off, t) && off + |t| <= p < MAXFILE * BSIZE
    ensures ByteAt(e, i, p) == ByteAt(e0, i, p)
  {
    hide Slot, ByteAt, Addr;
  }

  /** With u patched in after t, the bytes stored are t + u. */
  ghost predicate PatchStored(e0: Fs, mid: Fs, i: nat, off: nat, t: seq<byte>, u: seq<byte>)
    requires i < |e0.inodes|
  {
    var q := off + |t|;
    && 0 < Addr(mid, i, q / BSIZE) < |mid.data|
    && |mid.data[Addr(mid, i, q / BSIZE)]| == BSIZE && q % BSIZE + |u| <= BSIZE
    && OthersKept(e0, Patched(mid, i, q, u), i) && Stored(e0, Patched(mid, i, q, u), i, off, t + u)
  }

  lemma ChunkStored(sb: Super, e0: Fs, e: Fs, mid: Fs, own: Owners, i: nat, off: nat, t: seq<byte>, u: seq<byte>)
    requires i < sb.ninodes == |e0.inodes| && NoHoles(e0) && off + |t| <= MAXFILE * BSIZE
    requires OthersKept(e0, e, i) && Stored(e0, e, i, off, t) && Grows(e, mid, i)
    ensures OthersKept(e0, mid, i) && Stored(e0, mid, i, off, t)
    ensures CanPatch(sb, mid, own, i, off + |t|, u) ==> PatchStored(e0, mid, i, off, t, u)
  {
    hide Slot, Grows, Owned, ByteAt, Stored, OthersKept, HoleFree, Patched;
    assert OthersKept(e0, mid, i) by {
      OthersKeptGrows(e0, e, mid, i);
    }
    KeptSize(e0, e, i);
    StoredGrows(e0, e, mid, i, off, t);
    if CanPatch(sb, mid, own, i, off + |t|, u) {
      OthersKeptPatch(sb, e0, mid, own, i, off + |t|, u);
      StoredPatch(sb, e0, mid, own, i, off, t, u);
    }
  }

  lemma StoredAddr(e0: Fs, e: Fs, i: nat, off: nat, t: seq<byte>, p: nat)
    requires i < |e0.inodes| && Stored(e0, e, i, off, t)
    ensures p < e0.inodes[i].size ==> Addr(e, i, p / BSIZE) != 0
  {
    hide Slot, ByteAt;
  }

  lemma KeptSize(e0: Fs, e: Fs, i: nat)
    requires OthersKept(e0, e, i)
    ensures |e.inodes| == |e0.inodes|
  {
  }

  lemma InvParts(sb: Super, v: Fs, own: Owners, i: nat, off: nat)
    requires Inv(sb, v, own) && i < sb.ninodes
    ensures Shape(sb, v) && Owned(sb, v, own) && NoHoles(v) && v.inodes[i].size <= MAXFILE * BSIZE
    ensures OthersKept(v, v, i) && Stored(v, v, i, off, [])
  {
    hide Slot, Owned, ByteAt;
    assert HoleFree(v, i);
  }

  /** A byte inside a file lies in a block of the block map, which is a data block. */
  lemma FileBlock(sb: Super, v: Fs, own: Owners, i: nat, o: nat)
    requires Inv(sb, v, own) && i < sb.ninodes && o < v.inodes[i].size
    ensures o / BSIZE < MAXFILE
    ensures Nmeta(sb) <= Addr(v, i, o / BSIZE) < sb.size
  {
    assert HoleFree(v, i);
    assert Addr(v, i, o / BSIZE) != 0;
    OwnedSlot(sb, v, own, i, SlotOf(o / BSIZE));
  }

  /** Bytes o..o+m of a file, when they lie in one block, are a slice of that block. */
  lemma ChunkBytes(v: Fs, i: nat, o: nat, m: nat)
    requires i < |v.inodes| && o % BSIZE + m <= BSIZE && o + m <= v.inodes[i].size
    requires 0 < Addr(v, i, o / BSIZE) < |v.data| && |v.data[Addr(v, i, o / BSIZE)]| == BSIZE
    ensures v.data[Addr(v, i, o / BSIZE)][o % BSIZE..o % BSIZE + m] == Content(v, i)[o..o + m]
  {
    hide Slot, ByteAt, Addr;
    var blk := v.data[Addr(v, i, o / BSIZE)];
    var s, t := blk[o % BSIZE..o % BSIZE + m], Content(v, i)[o..o + m];
    forall k | 0 <= k < |s|
      ensures s[k] == t[k]
    {
      InBlock(v, i, o, k);
      assert t[k] == Content(v, i)[o + k];
    }
  }

  lemma AllocEntry(sb: Super, e: Fs, own: Owners, i: nat, j: nat, b: nat)
    requires j < NINDIRECT && CanAlloc(sb, e, own, i, 13 + j, b)
    ensures b != 0
    ensures Shape(sb, AllocSlot(e, i, 13 + j, b)) && Owned(sb, AllocSlot(e, i, 13 + j, b), own[b := (i, 13 + j)])
    ensures Grows(e, AllocSlot(e, i, 13 + j, b), i)
    ensures Slot(AllocSlot(e, i, 13 + j, b), i, 13 + j) == b
  {
    hide AllocSlot, Slot, Grows, Owned, Shape;
    AllocKeepsOwned(sb, e, own, i, 13 + j, b);
    AllocGrows(sb, e, own, i, 13 + j, b);
    AllocSlots(sb, e, own, i, 13 + j, b, i, 13 + j);
  }

  lemma OwnedSlot(sb: Super, v: Fs, own: Owners, i: nat, k: nat)
    requires Shape(sb, v) && Owned(sb, v, own) && i < sb.ninodes && k < NSLOT && Slot(v, i, k) != 0
    ensures Nmeta(sb) <= Slot(v, i, k) < sb.size && v.bits[Slot(v, i, k)]
    ensures Slot(v, i, k) in own && own[Slot(v, i, k)] == (i, k)
  {
  }

  lemma PaidNone(e0: Fs, i: nat, lo: nat, hi: nat)
    ensures Paid(e0, e0, i, lo, lo, hi)
  {
  }

  /** A chunk ends in the block it starts in, or at its end. */
  lemma Divided(o: nat, m: nat)
    requires 0 < m <= BSIZE - o % BSIZE
    ensures (o + m - 1) / BSIZE == o / BSIZE && (m == BSIZE - o % BSIZE ==> (o + m) / BSIZE == o / BSIZE + 1)
  {
  }

  lemma Ordered(a: nat, b: nat)
    requires a <= b
    ensures a / BSIZE <= b / BSIZE
  {
  }

  lemma ProvidedRefl(v: Fs, i: nat, k: nat)
    requires Slot(v, i, k) != 0
    ensures Provided(v, v, i, k)
  {
  }

  lemma EnoughFor(v: Fs, v': Fs, i: nat, bn: nat)
    requires Supplied(v, v', i, bn)
    ensures Missing(v, i, bn) <= ClearBits(v.bits)
  {
  }

  /** The indirect block took the last one, or was there. */
  lemma NotEnough(v: Fs, u: Fs, i: nat, bn: nat)
    requires NDIRECT <= bn < MAXFILE && Provided(v, u, i, INDIRECT) && ClearBits(u.bits) == 0 && Slot(u, i, bn + 1) == 0
    ensures ClearBits(v.bits) < Missing(v, i, bn)
  {
    hide Slot;
  }

  lemma GrowsRefl(v: Fs, i: nat)
    ensures Grows(v, v, i)
  {
  }

  lemma DataView(sb: Super, d: seq<Block>, a: nat)
    requires Geometry(sb) && |d| == sb.size && Nmeta(sb) <= a < sb.size
    ensures View(sb, d).data[a] == d[a]
  {
  }

  lemma OwnedBits(sb: Super, v: Fs, own: Owners)
    requires Shape(sb, v) && Owned(sb, v, own)
    ensures forall b :: 0 <= b < Nmeta(sb) ==> v.bits[b]
  {
  }
}
