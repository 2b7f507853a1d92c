/** Which inode owns which data block, and what the files hold: the specification of the
    block-map code of os/kernel/fs.c over the typed view of a device. */
module Ownership {
  import opened Bytes
  import opened BufferCache
  import opened FsLayout

  /** Block pointers of an inode: 0..11 direct, 12 the indirect block, 13.. its entries. */
  const NSLOT: nat := 269
  const INDIRECT: nat := 12

  /** The j-th block number listed in an indirect block. */
  function Entry(blk: seq<byte>, j: nat): nat {
    if 4 * j + 4 <= |blk| then GetLE(blk, 4 * j, 4) else 0
  }

  function PutEntry(blk: seq<byte>, j: nat, b: nat): (r: seq<byte>)
    ensures |r| == |blk|
  {
    if 4 * j + 4 <= |blk| then PutLE(blk, 4 * j, 4, b) else blk
  }

  lemma EntryPut(blk: seq<byte>, j: nat, b: nat, j': nat)
    requires 4 * j + 4 <= |blk| && b < UINT
    ensures Entry(PutEntry(blk, j, b), j') == if j' == j then b else Entry(blk, j')
  {
    assert Pow256(4) == UINT;
    if j' == j {
      GetPutSame(blk, 4 * j, 4, b);
    } else if 4 * j' + 4 <= |blk| {
      GetPutOther(blk, 4 * j, 4, b, 4 * j', 4);
    }
  }

  /** An indirect block, byte by byte. */
  lemma EntryBytes(blk: seq<byte>, j: nat)
    requires |blk| == 1024 && j < 256
    ensures Entry(blk, j) == Four(blk[4 * j], blk[4 * j + 1], blk[4 * j + 2], blk[4 * j + 3])
  {
    hide GetLE, Four;
    Word(blk, 4 * j);
  }

  lemma EntryZeros(j: nat)
    ensures Entry(Zeros(BSIZE), j) == 0
  {
    if 4 * j + 4 <= BSIZE {
      GetZero(Zeros(BSIZE), 4 * j, 4);
    }
  }

  ghost predicate Shape(sb: Super, v: Fs) {
    && Geometry(sb)
    && |v.bits| == sb.size && |v.inodes| == sb.ninodes && |v.data| == sb.size
    && (forall i :: 0 <= i < sb.ninodes ==> Fits(v.inodes[i]))
    && (forall b :: Nmeta(sb) <= b < sb.size ==> |v.data[b]| == BSIZE)
  }

  /** Block pointer k of inode i; 0 when absent. */
  function Slot(v: Fs, i: nat, k: nat): nat {
    if i < |v.inodes| && |v.inodes[i].addrs| == NDIRECT + 1 then
      if k <= INDIRECT then v.inodes[i].addrs[k]
      else
        var a := v.inodes[i].addrs[INDIRECT];
        if 0 < a < |v.data| then Entry(v.data[a], k - 13) else 0
    else 0
  }

  type Owners = map<nat, (nat, nat)>

  /** own names, for each allocated data block, the one inode and pointer that reach it. */
  ghost predicate Owned(sb: Super, v: Fs, own: Owners) {
    && (forall b :: 0 <= b < Nmeta(sb) && b < |v.bits| ==> v.bits[b])
    && (forall b :: Nmeta(sb) <= b < sb.size && b < |v.bits| ==> (v.bits[b] <==> b in own))
    && (forall b :: b in own ==> Nmeta(sb) <= b < sb.size && own[b].0 < sb.ninodes && own[b].1 < NSLOT
                                 && Slot(v, own[b].0, own[b].1) == b)
    && (forall i, k :: 0 <= i < sb.ninodes && 0 <= k < NSLOT && Slot(v, i, k) != 0 ==>
          Slot(v, i, k) in own && own[Slot(v, i, k)] == (i, k))
  }

  /** Global block ownership, in terms of the device alone: the set bits of the bitmap are
      exactly the metadata blocks and the blocks some inode points to, and no block is
      pointed to twice. */
  lemma OwnedMeansPartition(sb: Super, v: Fs, own: Owners)
    requires Shape(sb, v) && Owned(sb, v, own)
    ensures forall b :: 0 <= b < sb.size ==>
              (v.bits[b] <==> b < Nmeta(sb) || exists i, k :: 0 <= i < sb.ninodes && 0 <= k < NSLOT && Slot(v, i, k) == b)
    ensures forall i, k, i', k' ::
              0 <= i < sb.ninodes && 0 <= k < NSLOT && 0 <= i' < sb.ninodes && 0 <= k' < NSLOT
              && Slot(v, i, k) == Slot(v, i', k') && Slot(v, i, k) != 0
              ==> i == i' && k == k'
  {
    forall b | Nmeta(sb) <= b < sb.size
      ensures v.bits[b] <==> exists i, k :: 0 <= i < sb.ninodes && 0 <= k < NSLOT && Slot(v, i, k) == b
    {
      if v.bits[b] {
        assert Slot(v, own[b].0, own[b].1) == b;
      }
    }
  }

  // ---------- files ----------

  function SlotOf(bn: nat): nat { if bn < NDIRECT then bn else bn + 1 }

  /** The device block holding block bn of file i; 0 when absent. */
  function Addr(v: Fs, i: nat, bn: nat): nat { Slot(v, i, SlotOf(bn)) }

  function ByteAt(v: Fs, i: nat, p: nat): byte {
    var b := Addr(v, i, p / BSIZE);
    if 0 < b < |v.data| && |v.data[b]| == BSIZE then v.data[b][p % BSIZE] else 0
  }

  /** The bytes of file i. */
  function Content(v: Fs, i: nat): (s: seq<byte>)
    requires i < |v.inodes|
    ensures |s| == v.inodes[i].size && forall p :: 0 <= p < |s| ==> s[p] == ByteAt(v, i, p)
  {
    seq(v.inodes[i].size, p requires 0 <= p => ByteAt(v, i, p))
  }

  /** Every byte below the size of the file lies in an allocated block. */
  ghost predicate HoleFree(v: Fs, i: nat)
    requires i < |v.inodes|
  {
    forall p :: 0 <= p < v.inodes[i].size ==> Addr(v, i, p / BSIZE) != 0
  }

  ghost predicate Files(sb: Super, v: Fs)
    requires |v.inodes| == sb.ninodes
  {
    && NoHoles(v)
    && (forall i, k :: 0 <= i < sb.ninodes && v.inodes[i].typ == 0 && 0 <= k < NSLOT ==> Slot(v, i, k) == 0)
  }

  ghost predicate Inv(sb: Super, v: Fs, own: Owners) {
    Shape(sb, v) && Owned(sb, v, own) && Files(sb, v)
  }

  // ---------- allocating a block into a slot ----------

  function SetSlot(v: Fs, i: nat, k: nat, b: nat): Fs
    requires i < |v.inodes| && |v.inodes[i].addrs| == NDIRECT + 1
  {
    if k <= INDIRECT then
      v.(inodes := v.inodes[i := v.inodes[i].(addrs := v.inodes[i].addrs[k := b])])
    else
      var a := v.inodes[i].addrs[INDIRECT];
      if a < |v.data| then v.(data := v.data[a := PutEntry(v.data[a], k - 13, b)]) else v
  }

  /** balloc found block b free and the caller stored it in pointer k of inode i. */
  function AllocSlot(v: Fs, i: nat, k: nat, b: nat): Fs
    requires i < |v.inodes| && |v.inodes[i].addrs| == NDIRECT + 1
    requires b < |v.bits| && b < |v.data|
  {
    SetSlot(v.(bits := v.bits[b := true], data := v.data[b := Zeros(BSIZE)]), i, k, b)
  }

  ghost predicate CanAlloc(sb: Super, v: Fs, own: Owners, i: nat, k: nat, b: nat) {
    && Shape(sb, v) && Owned(sb, v, own)
    && i < sb.ninodes && k < NSLOT && b < sb.size && !v.bits[b] && Slot(v, i, k) == 0
    && (k > INDIRECT ==> Slot(v, i, INDIRECT) != 0)
  }

  /** A block that a pointer names is a data block in use, and the pointer is its owner. */
  lemma Pointer(sb: Super, v: Fs, own: Owners, i: nat, k: nat)
    requires Shape(sb, v) && Owned(sb, v, own) && i < sb.ninodes && k < NSLOT && Slot(v, i, k) != 0
    ensures Nmeta(sb) <= Slot(v, i, k) < sb.size && v.bits[Slot(v, i, k)] && |v.data[Slot(v, i, k)]| == BSIZE
    ensures Slot(v, i, k) in own && own[Slot(v, i, k)] == (i, k)
  {
    hide Slot;
  }

  lemma AllocSlots(sb: Super, v: Fs, own: Owners, i: nat, k: nat, b: nat, i': nat, k': nat)
    requires CanAlloc(sb, v, own, i, k, b) && i' < sb.ninodes && k' < NSLOT
    ensures Slot(AllocSlot(v, i, k, b), i', k') == if i' == i && k' == k then b else Slot(v, i', k')
  {
    hide Entry, PutEntry, Owned;
    if k' > INDIRECT {
      if Slot(v, i', INDIRECT) != 0 { Pointer(sb, v, own, i', INDIRECT); }
      if k > INDIRECT {
        var a := Slot(v, i, INDIRECT);
        Pointer(sb, v, own, i, INDIRECT);
        EntryPut(v.data[a], k - 13, b, k' - 13);
      } else if k == INDIRECT {
        EntryZeros(k' - 13);
      }
    }
  }

  lemma AllocKeepsOwned(sb: Super, v: Fs, own: Owners, i: nat, k: nat, b: nat)
    requires CanAlloc(sb, v, own, i, k, b)
    ensures Nmeta(sb) <= b
    ensures Shape(sb, AllocSlot(v, i, k, b))
    ensures Owned(sb, AllocSlot(v, i, k, b), own[b := (i, k)])
  {
    hide Slot, Entry, PutEntry, AllocSlot, SetSlot, Owned, Shape;
    AllocShape(sb, v, i, k, b);
    forall i', k' | 0 <= i' < sb.ninodes && 0 <= k' < NSLOT
      ensures Slot(AllocSlot(v, i, k, b), i', k') == if i' == i && k' == k then b else Slot(v, i', k')
    {
      AllocSlots(sb, v, own, i, k, b, i', k');
    }
    OwnedMore(sb, v, AllocSlot(v, i, k, b), own, i, k, b);
  }

  lemma AllocShape(sb: Super, v: Fs, i: nat, k: nat, b: nat)
    requires Shape(sb, v) && i < sb.ninodes && k < NSLOT && b < sb.size
    ensures i < |v.inodes| && |v.inodes[i].addrs| == NDIRECT + 1 && |v.bits| == |v.data| == sb.size
    ensures Shape(sb, AllocSlot(v, i, k, b)) && AllocSlot(v, i, k, b).bits == v.bits[b := true]
  {
    hide Entry, PutEntry, Slot;
  }

  /** Ownership with one block more, whose bit was clear. */
  lemma OwnedMore(sb: Super, v: Fs, v': Fs, own: Owners, i: nat, k: nat, b: nat)
    requires Owned(sb, v, own) && |v.bits| == sb.size && b < sb.size && !v.bits[b] && i < sb.ninodes && k < NSLOT
    requires v'.bits == v.bits[b := true] && Slot(v, i, k) == 0
    requires forall i', k' :: 0 <= i' < sb.ninodes && 0 <= k' < NSLOT ==>
               Slot(v', i', k') == if i' == i && k' == k then b else Slot(v, i', k')
    ensures Nmeta(sb) <= b && Owned(sb, v', own[b := (i, k)])
  {
    hide Slot;
  }

  /** Every byte of every file is as it was; missing blocks read as zeros. */
  ghost predicate SameBytes(v: Fs, v': Fs) {
    && |v'.inodes| == |v.inodes|
    && forall j, p :: 0 <= j < |v.inodes| && 0 <= p < MAXFILE * BSIZE ==> ByteAt(v', j, p) == ByteAt(v, j, p)
  }

  /** v' has every block of v where it was, with the same file bytes in it; only inode i
      may have gained blocks. */
  ghost predicate Grows(v: Fs, v': Fs, i: nat) {
    Extends(v, v', i) && SameBytes(v, v')
  }

  ghost predicate Extends(v: Fs, v': Fs, i: nat) {
    && |v'.inodes| == |v.inodes| && |v'.data| == |v.data|
    && (forall j :: 0 <= j < |v.inodes| ==> v'.inodes[j].size == v.inodes[j].size && v'.inodes[j].typ == v.inodes[j].typ)
    && (forall j, k :: 0 <= j < |v.inodes| && 0 <= k < NSLOT && (j != i || Slot(v, j, k) != 0) ==>
          Slot(v', j, k) == Slot(v, j, k))
    && (forall j, k :: 0 <= j < |v.inodes| && 0 <= k < NSLOT && k != INDIRECT && 0 < Slot(v, j, k) < |v.data| ==>
          v'.data[Slot(v, j, k)] == v.data[Slot(v, j, k)])
  }

  lemma AllocExtends(sb: Super, v: Fs, own: Owners, i: nat, k: nat, b: nat)
    requires CanAlloc(sb, v, own, i, k, b)
    ensures Extends(v, AllocSlot(v, i, k, b), i)
  {
    hide Entry, PutEntry, Owned, Slot;
    var v' := AllocSlot(v, i, k, b);
    forall j, k' | 0 <= j < |v.inodes| && 0 <= k' < NSLOT
      ensures j != i || Slot(v, j, k') != 0 ==> Slot(v', j, k') == Slot(v, j, k')
    {
      AllocSlots(sb, v, own, i, k, b, j, k');
    }
    forall j, k' | 0 <= j < |v.inodes| && 0 <= k' < NSLOT && k' != INDIRECT && 0 < Slot(v, j, k') < |v.data|
      ensures v'.data[Slot(v, j, k')] == v.data[Slot(v, j, k')]
    {
      AllocKeepsBlock(sb, v, own, i, k, b, j, k');
    }
  }

  lemma AllocKeepsBlock(sb: Super, v: Fs, own: Owners, i: nat, k: nat, b: nat, j: nat, k': nat)
    requires CanAlloc(sb, v, own, i, k, b) && j < sb.ninodes && k' < NSLOT && k' != INDIRECT && Slot(v, j, k') != 0
    ensures Slot(v, j, k') < |v.data| && AllocSlot(v, i, k, b).data[Slot(v, j, k')] == v.data[Slot(v, j, k')]
  {
    hide Entry, PutEntry, Owned;
    Pointer(sb, v, own, j, k');
    if k > INDIRECT {
      Pointer(sb, v, own, i, INDIRECT);
    }
  }

  /** Handing out a zeroed block changes no byte of any file. */
  lemma AllocBytes(sb: Super, v: Fs, own: Owners, i: nat, k: nat, b: nat, j: nat, p: nat)
    requires CanAlloc(sb, v, own, i, k, b) && j < sb.ninodes && p < MAXFILE * BSIZE
    ensures ByteAt(AllocSlot(v, i, k, b), j, p) == ByteAt(v, j, p)
  {
    hide Entry, PutEntry, Slot, GetLE, PutLE;
    var k' := SlotOf(p / BSIZE);
    AllocKeepsOwned(sb, v, own, i, k, b);
    AllocSlots(sb, v, own, i, k, b, j, k');
    if Slot(v, j, k') != 0 {
      AllocExtends(sb, v, own, i, k, b);
      assert Slot(v, j, k') in own;
    } else if j == i && k' == k {
      assert AllocSlot(v, i, k, b).data[b] == Zeros(BSIZE) by { AllocFresh(sb, v, own, i, k, b); }
    }
  }

  lemma AllocFresh(sb: Super, v: Fs, own: Owners, i: nat, k: nat, b: nat)
    requires CanAlloc(sb, v, own, i, k, b)
    ensures AllocSlot(v, i, k, b).data[b] == Zeros(BSIZE)
  {
    hide PutEntry, Owned;
    if k > INDIRECT {
      Pointer(sb, v, own, i, INDIRECT);
    }
  }

  lemma AllocGrows(sb: Super, v: Fs, own: Owners, i: nat, k: nat, b: nat)
    requires CanAlloc(sb, v, own, i, k, b)
    ensures Grows(v, AllocSlot(v, i, k, b), i)
  {
    hide ByteAt, Slot, Owned;
    var v' := AllocSlot(v, i, k, b);
    AllocExtends(sb, v, own, i, k, b);
    forall j, p | 0 <= j < |v.inodes| && 0 <= p < MAXFILE * BSIZE
      ensures ByteAt(v', j, p) == ByteAt(v, j, p)
    {
      AllocBytes(sb, v, own, i, k, b, j, p);
    }
  }

  lemma GrowsTrans(u: Fs, v: Fs, w: Fs, i: nat)
    requires Grows(u, v, i) && Grows(v, w, i)
    ensures Grows(u, w, i)
  {
  }

  /** Growing keeps every byte of every allocated block of every file. */
  lemma GrowsKeepsByte(v: Fs, v': Fs, i: nat, j: nat, p: nat)
    requires Grows(v, v', i) && j < |v.inodes| && p < MAXFILE * BSIZE
    requires Addr(v, j, p / BSIZE) != 0
    ensures Addr(v', j, p / BSIZE) == Addr(v, j, p / BSIZE) && ByteAt(v', j, p) == ByteAt(v, j, p)
  {
    assert SlotOf(p / BSIZE) < NSLOT;
  }

  // ---------- how many blocks it takes ----------

  /** The number of clear bits. */
  function ClearBits(bits: seq<bool>): nat {
    if bits == [] then 0 else ClearBits(bits[..|bits| - 1]) + if bits[|bits| - 1] then 0 else 1
  }

  lemma {:induction false} ClearSet(bits: seq<bool>, b: nat)
    requires b < |bits| && !bits[b]
    ensures ClearBits(bits) == ClearBits(bits[b := true]) + 1
  {
    var n := |bits| - 1;
    if b < n {
      assert bits[b := true][..n] == bits[..n][b := true];
      ClearSet(bits[..n], b);
    } else {
      assert bits[b := true][..n] == bits[..n];
    }
  }

  lemma {:induction false} ClearNone(bits: seq<bool>)
    requires forall b :: 0 <= b < |bits| ==> bits[b]
    ensures ClearBits(bits) == 0
  {
    if bits != [] {
      ClearNone(bits[..|bits| - 1]);
    }
  }

  /** How many blocks block bn of file i still lacks: its own, and the indirect block. */
  function Missing(v: Fs, i: nat, bn: nat): nat {
    if bn < NDIRECT then if Slot(v, i, bn) == 0 then 1 else 0
    else (if Slot(v, i, INDIRECT) == 0 then 1 else 0) + (if Slot(v, i, bn + 1) == 0 then 1 else 0)
  }

  /** How many of blocks [lo, hi) of file i are absent. */
  function Holes(v: Fs, i: nat, lo: nat, hi: nat): nat
    decreases hi - lo
  {
    if lo >= hi then 0 else (if Addr(v, i, lo) == 0 then 1 else 0) + Holes(v, i, lo + 1, hi)
  }

  /** How many blocks it takes to have all of them: those absent, and the indirect block once. */
  function Lacks(v: Fs, i: nat, lo: nat, hi: nat): nat {
    Holes(v, i, lo, hi) + if lo < hi && NDIRECT < hi && Slot(v, i, INDIRECT) == 0 then 1 else 0
  }

  /** Pointer k of inode i is there, for one block if it was not, and the other pointers are as before. */
  ghost predicate Provided(v: Fs, v': Fs, i: nat, k: nat) {
    && ClearBits(v'.bits) + (if Slot(v, i, k) == 0 then 1 else 0) == ClearBits(v.bits) && Slot(v', i, k) != 0
    && forall k' :: 0 <= k' < NSLOT && k' != k ==> Slot(v', i, k') == Slot(v, i, k')
  }

  /** And block bn of file i, for what it lacked. */
  ghost predicate Supplied(v: Fs, v': Fs, i: nat, bn: nat) {
    && ClearBits(v'.bits) + Missing(v, i, bn) == ClearBits(v.bits)
    && (forall c :: 0 <= c < MAXFILE && c != bn ==> Addr(v', i, c) == Addr(v, i, c))
    && (if bn < NDIRECT then Slot(v', i, INDIRECT) == Slot(v, i, INDIRECT) else Slot(v', i, INDIRECT) != 0)
  }

  lemma AllocProvides(sb: Super, v: Fs, own: Owners, i: nat, k: nat, b: nat)
    requires CanAlloc(sb, v, own, i, k, b)
    ensures b != 0 && Provided(v, AllocSlot(v, i, k, b), i, k)
  {
    hide Slot, Owned, AllocSlot;
    AllocKeepsOwned(sb, v, own, i, k, b);
    AllocShape(sb, v, i, k, b);
    ClearSet(v.bits, b);
    forall k' | 0 <= k' < NSLOT
      ensures Slot(AllocSlot(v, i, k, b), i, k') == if k' == k then b else Slot(v, i, k')
    {
      AllocSlots(sb, v, own, i, k, b, i, k');
    }
  }

  lemma SuppliedDirect(v: Fs, v': Fs, i: nat, bn: nat)
    requires bn < NDIRECT && Provided(v, v', i, bn)
    ensures Supplied(v, v', i, bn)
  {
    hide Slot;
    forall c | 0 <= c < MAXFILE && c != bn
      ensures Addr(v', i, c) == Addr(v, i, c)
    {
      assert SlotOf(c) < NSLOT && SlotOf(c) != bn;
    }
  }

  lemma SuppliedIndirect(v: Fs, u: Fs, v': Fs, i: nat, bn: nat)
    requires NDIRECT <= bn < MAXFILE && Provided(v, u, i, INDIRECT) && Provided(u, v', i, bn + 1)
    ensures Supplied(v, v', i, bn)
  {
    hide Slot;
    forall c | 0 <= c < MAXFILE && c != bn
      ensures Addr(v', i, c) == Addr(v, i, c)
    {
      assert SlotOf(c) < NSLOT && SlotOf(c) != bn + 1 && SlotOf(c) != INDIRECT;
    }
  }

  lemma SuppliedPatch(sb: Super, v: Fs, e: Fs, own: Owners, i: nat, bn: nat, q: nat, u: seq<byte>)
    requires Supplied(v, e, i, bn) && CanPatch(sb, e, own, i, q, u)
    ensures Supplied(v, Patched(e, i, q, u), i, bn)
  {
    hide Slot, Owned, Shape, Supplied, Overwrite;
    PatchKeepsOwned(sb, e, own, i, q, u);
    SuppliedSame(v, e, Patched(e, i, q, u), i, bn);
  }

  lemma SuppliedSame(v: Fs, e: Fs, e': Fs, i: nat, bn: nat)
    requires Supplied(v, e, i, bn) && e'.bits == e.bits
    requires forall k :: 0 <= k < NSLOT ==> Slot(e', i, k) == Slot(e, i, k)
    ensures Supplied(v, e', i, bn)
  {
    hide Slot;
    forall c | 0 <= c < MAXFILE && c != bn
      ensures Addr(e', i, c) == Addr(v, i, c)
    {
      assert SlotOf(c) < NSLOT;
    }
  }

  lemma {:induction false} HolesSame(v: Fs, v': Fs, i: nat, lo: nat, hi: nat)
    requires forall c :: lo <= c < hi ==> Addr(v', i, c) == Addr(v, i, c)
    ensures Holes(v', i, lo, hi) == Holes(v, i, lo, hi)
    decreases hi - lo
  {
    hide Addr;
    if lo < hi {
      HolesSame(v, v', i, lo + 1, hi);
    }
  }

  /** Supplying the blocks one after the other takes exactly what all of them lack. */
  lemma LacksStep(v: Fs, v': Fs, i: nat, lo: nat, hi: nat)
    requires lo < hi <= MAXFILE && Supplied(v, v', i, lo)
    ensures Lacks(v, i, lo, hi) == Missing(v, i, lo) + Lacks(v', i, lo + 1, hi)
  {
    hide Slot;
    HolesSame(v, v', i, lo + 1, hi);
  }

  /** From e0, blocks [lo, cur) of file i were supplied; [cur, hi) are to come. */
  ghost predicate Paid(e0: Fs, e: Fs, i: nat, lo: nat, cur: nat, hi: nat) {
    ClearBits(e.bits) + Lacks(e0, i, lo, hi) == ClearBits(e0.bits) + Lacks(e, i, cur, hi)
  }

  lemma PaidStep(e0: Fs, e: Fs, e': Fs, i: nat, lo: nat, cur: nat, hi: nat)
    requires Paid(e0, e, i, lo, cur, hi) && cur < hi <= MAXFILE && Supplied(e, e', i, cur)
    ensures Paid(e0, e', i, lo, cur + 1, hi)
  {
    LacksStep(e, e', i, cur, hi);
    hide Lacks, Missing, Slot, Addr;
  }

  lemma PaidShort(e0: Fs, e: Fs, i: nat, lo: nat, cur: nat, hi: nat)
    requires Paid(e0, e, i, lo, cur, hi) && cur < hi && ClearBits(e.bits) < Missing(e, i, cur)
    ensures ClearBits(e0.bits) < Lacks(e0, i, lo, hi)
  {
    hide Slot;
    assert Missing(e, i, cur) <= Lacks(e, i, cur, hi);
  }

  lemma PaidAll(e0: Fs, e: Fs, i: nat, lo: nat, hi: nat)
    requires Paid(e0, e, i, lo, hi, hi)
    ensures ClearBits(e.bits) + Lacks(e0, i, lo, hi) == ClearBits(e0.bits)
  {
  }

  // ---------- overwriting a data block ----------

  lemma DataWriteKeepsOwned(sb: Super, v: Fs, own: Owners, i: nat, k: nat, blk: Block)
    requires Shape(sb, v) && Owned(sb, v, own)
    requires i < sb.ninodes && k < NSLOT && k != INDIRECT && Slot(v, i, k) != 0
    ensures Slot(v, i, k) < sb.size
    ensures
      var v' := v.(data := v.data[Slot(v, i, k) := blk]);
      && Shape(sb, v') && Owned(sb, v', own)
      && forall i', k' :: 0 <= i' < sb.ninodes && 0 <= k' < NSLOT ==> Slot(v', i', k') == Slot(v, i', k')
  {
    hide Slot;
    var b := Slot(v, i, k);
    Pointer(sb, v, own, i, k);
    var v' := v.(data := v.data[b := blk]);
    forall i', k' | 0 <= i' < sb.ninodes && 0 <= k' < NSLOT
      ensures Slot(v', i', k') == Slot(v, i', k')
    {
      DataWriteSlot(sb, v, own, i, k, blk, i', k');
    }
  }

  lemma DataWriteSlot(sb: Super, v: Fs, own: Owners, i: nat, k: nat, blk: Block, i': nat, k': nat)
    requires Shape(sb, v) && Owned(sb, v, own)
    requires i < sb.ninodes && k < NSLOT && k != INDIRECT && Slot(v, i, k) != 0 && i' < sb.ninodes && k' < NSLOT
    ensures Slot(v, i, k) < sb.size && Slot(v.(data := v.data[Slot(v, i, k) := blk]), i', k') == Slot(v, i', k')
  {
    hide Owned, Entry;
    Pointer(sb, v, own, i, k);
    if Slot(v, i', INDIRECT) != 0 {
      Pointer(sb, v, own, i', INDIRECT);
    }
  }

  // ---------- freeing a block out of a slot ----------

  function FreeSlot(v: Fs, i: nat, k: nat): Fs
    requires i < |v.inodes| && |v.inodes[i].addrs| == NDIRECT + 1
    requires Slot(v, i, k) < |v.bits|
  {
    SetSlot(v.(bits := v.bits[Slot(v, i, k) := false]), i, k, 0)
  }

  ghost predicate CanFree(sb: Super, v: Fs, own: Owners, i: nat, k: nat) {
    && Shape(sb, v) && Owned(sb, v, own)
    && i < sb.ninodes && k < NSLOT && Slot(v, i, k) != 0
    && (k == INDIRECT ==> forall k' :: INDIRECT < k' < NSLOT ==> Slot(v, i, k') == 0)
  }

  lemma FreeSlots(sb: Super, v: Fs, own: Owners, i: nat, k: nat, i': nat, k': nat)
    requires CanFree(sb, v, own, i, k) && i' < sb.ninodes && k' < NSLOT
    ensures Slot(v, i, k) < sb.size && v.bits[Slot(v, i, k)]
    ensures Slot(FreeSlot(v, i, k), i', k') == if i' == i && k' == k then 0 else Slot(v, i', k')
  {
    hide Entry, PutEntry, Owned;
    var a := Slot(v, i, INDIRECT);
    var a' := Slot(v, i', INDIRECT);
    Pointer(sb, v, own, i, k);
    if k > INDIRECT {
      Pointer(sb, v, own, i, INDIRECT);
      if k' > INDIRECT && a' != 0 {
        Pointer(sb, v, own, i', INDIRECT);
        EntryPut(v.data[a], k - 13, 0, k' - 13);
      }
    }
  }

  /** The freed block had its bit set, so bfree does not panic, and ownership is kept. */
  lemma FreeKeepsOwned(sb: Super, v: Fs, own: Owners, i: nat, k: nat)
    requires CanFree(sb, v, own, i, k)
    ensures Nmeta(sb) <= Slot(v, i, k) < sb.size && v.bits[Slot(v, i, k)]
    ensures Shape(sb, FreeSlot(v, i, k))
    ensures Owned(sb, FreeSlot(v, i, k), own - {Slot(v, i, k)})
  {
    hide Slot, Entry, PutEntry, GetLE, PutLE;
    var b := Slot(v, i, k);
    var v' := FreeSlot(v, i, k);
    forall i', k' | 0 <= i' < sb.ninodes && 0 <= k' < NSLOT
      ensures Slot(v', i', k') == if i' == i && k' == k then 0 else Slot(v, i', k')
    {
      FreeSlots(sb, v, own, i, k, i', k');
    }
    assert v'.bits == v.bits[b := false];
  }

  // ---------- writing a byte range ----------

  function Splice(s: seq<byte>, off: nat, t: seq<byte>): seq<byte>
    requires off <= |s|
  {
    s[..off] + t + (if off + |t| < |s| then s[off + |t|..] else [])
  }

  /** Sizes and types are those of e0, and inodes other than i have the blocks and bytes of e0. */
  ghost predicate OthersKept(e0: Fs, e: Fs, i: nat) {
    && |e.inodes| == |e0.inodes|
    && (forall j :: 0 <= j < |e.inodes| ==> e.inodes[j].size == e0.inodes[j].size && e.inodes[j].typ == e0.inodes[j].typ)
    && (forall j, k :: 0 <= j < |e.inodes| && j != i && 0 <= k < NSLOT ==> Slot(e, j, k) == Slot(e0, j, k))
    && (forall j, p :: 0 <= j < |e.inodes| && j != i && 0 <= p < e0.inodes[j].size ==> ByteAt(e, j, p) == ByteAt(e0, j, p))
  }

  /** From e0, the bytes t were stored in file i at offset off; the size is still that of e0. */
  ghost predicate Stored(e0: Fs, e: Fs, i: nat, off: nat, t: seq<byte>)
    requires i < |e0.inodes|
  {
    && (forall p :: off <= p < off + |t| ==> Addr(e, i, p / BSIZE) != 0 && ByteAt(e, i, p) == t[p - off])
    && (forall p :: 0 <= p < e0.inodes[i].size && !(off <= p < off + |t|) ==>
          Addr(e, i, p / BSIZE) != 0 && ByteAt(e, i, p) == ByteAt(e0, i, p))
    && (forall p :: 0 <= p < MAXFILE * BSIZE && !(off <= p < off + |t|) ==> ByteAt(e, i, p) == ByteAt(e0, i, p))
  }

  ghost predicate NoHoles(e: Fs) {
    forall j :: 0 <= j < |e.inodes| ==> e.inodes[j].size <= MAXFILE * BSIZE && HoleFree(e, j)
  }

  lemma StoredGrows(e0: Fs, e: Fs, e': Fs, i: nat, off: nat, t: seq<byte>)
    requires i < |e0.inodes| && Stored(e0, e, i, off, t) && Grows(e, e', i) && |e.inodes| == |e0.inodes|
    requires e0.inodes[i].size <= MAXFILE * BSIZE && off + |t| <= MAXFILE * BSIZE
    ensures Stored(e0, e', i, off, t)
  {
    forall p | off <= p < off + |t|
      ensures Addr(e', i, p / BSIZE) != 0 && ByteAt(e', i, p) == t[p - off]
    {
      GrowsKeepsByte(e, e', i, i, p);
    }
    forall p | 0 <= p < e0.inodes[i].size && !(off <= p < off + |t|)
      ensures Addr(e', i, p / BSIZE) != 0 && ByteAt(e', i, p) == ByteAt(e0, i, p)
    {
      GrowsKeepsByte(e, e', i, i, p);
    }
  }

  lemma OthersKeptGrows(e0: Fs, e: Fs, e': Fs, i: nat)
    requires OthersKept(e0, e, i) && Grows(e, e', i) && NoHoles(e0)
    ensures OthersKept(e0, e', i)
  {
    forall j, p | 0 <= j < |e.inodes| && j != i && 0 <= p < e0.inodes[j].size
      ensures ByteAt(e', j, p) == ByteAt(e0, j, p)
    {
      assert SlotOf(p / BSIZE) < NSLOT && Addr(e0, j, p / BSIZE) != 0;
      GrowsKeepsByte(e, e', i, j, p);
    }
  }

  /** The state after overwriting part of the block that holds byte q of file i. */
  function Patched(e: Fs, i: nat, q: nat, u: seq<byte>): Fs {
    var b := Addr(e, i, q / BSIZE);
    if 0 < b < |e.data| && |e.data[b]| == BSIZE && q % BSIZE + |u| <= BSIZE then
      e.(data := e.data[b := Overwrite(e.data[b], q % BSIZE, u)])
    else e
  }

  lemma PatchedByte(sb: Super, e: Fs, own: Owners, i: nat, q: nat, u: seq<byte>, j: nat, p: nat)
    requires Shape(sb, e) && Owned(sb, e, own) && i < sb.ninodes && j < sb.ninodes
    requires q < MAXFILE * BSIZE && p < MAXFILE * BSIZE
    requires Addr(e, i, q / BSIZE) != 0 && Addr(e, j, p / BSIZE) != 0 && q % BSIZE + |u| <= BSIZE
    ensures 0 < Addr(e, i, q / BSIZE) < |e.data| && |e.data[Addr(e, i, q / BSIZE)]| == BSIZE
    ensures ByteAt(Patched(e, i, q, u), j, p) == if j == i && q <= p < q + |u| then u[p - q] else ByteAt(e, j, p)
  {
    hide Slot, Entry, PutEntry, GetLE, PutLE, Overwrite;
    var k, k' := SlotOf(q / BSIZE), SlotOf(p / BSIZE);
    var b, b' := Slot(e, i, k), Slot(e, j, k');
    assert own[b] == (i, k) && own[b'] == (j, k');
    DataWriteKeepsOwned(sb, e, own, i, k, Overwrite(e.data[b], q % BSIZE, u));
    if b == b' {
      assert p / BSIZE == q / BSIZE;
    }
  }

  ghost predicate CanPatch(sb: Super, e: Fs, own: Owners, i: nat, q: nat, u: seq<byte>) {
    && Shape(sb, e) && Owned(sb, e, own) && i < sb.ninodes
    && 0 < |u| <= BSIZE - q % BSIZE && q + |u| <= MAXFILE * BSIZE
    && Nmeta(sb) <= Addr(e, i, q / BSIZE) < sb.size
  }

  lemma PatchKeepsOwned(sb: Super, e: Fs, own: Owners, i: nat, q: nat, u: seq<byte>)
    requires CanPatch(sb, e, own, i, q, u)
    ensures Shape(sb, Patched(e, i, q, u)) && Owned(sb, Patched(e, i, q, u), own)
    ensures forall j, k :: 0 <= j < sb.ninodes && 0 <= k < NSLOT ==> Slot(Patched(e, i, q, u), j, k) == Slot(e, j, k)
  {
    var k := SlotOf(q / BSIZE);
    DataWriteKeepsOwned(sb, e, own, i, k, Overwrite(e.data[Slot(e, i, k)], q % BSIZE, u));
  }

  /** A byte outside the patch, in an allocated block or not. */
  lemma PatchedOutside(sb: Super, e: Fs, own: Owners, i: nat, q: nat, u: seq<byte>, j: nat, p: nat)
    requires CanPatch(sb, e, own, i, q, u) && j < sb.ninodes && p < MAXFILE * BSIZE && !(j == i && q <= p < q + |u|)
    ensures ByteAt(Patched(e, i, q, u), j, p) == ByteAt(e, j, p)
  {
    PatchKeepsOwned(sb, e, own, i, q, u);
    assert SlotOf(p / BSIZE) < NSLOT;
    if Addr(e, j, p / BSIZE) != 0 {
      PatchedByte(sb, e, own, i, q, u, j, p);
    }
  }

  lemma StoredPatch(sb: Super, e0: Fs, e: Fs, own: Owners, i: nat, off: nat, t: seq<byte>, u: seq<byte>)
    requires CanPatch(sb, e, own, i, off + |t|, u) && |e0.inodes| == sb.ninodes
    requires Stored(e0, e, i, off, t)
    requires e0.inodes[i].size <= MAXFILE * BSIZE
    ensures Stored(e0, Patched(e, i, off + |t|, u), i, off, t + u)
  {
    hide Slot, Entry, ByteAt, Patched;
    var e' := Patched(e, i, off + |t|, u);
    PatchKeepsOwned(sb, e, own, i, off + |t|, u);
    forall p | 0 <= p < MAXFILE * BSIZE && !(off <= p < off + |t + u|)
      ensures ByteAt(e', i, p) == ByteAt(e0, i, p)
    {
      PatchedOutside(sb, e, own, i, off + |t|, u, i, p);
    }
    forall p | off <= p < off + |t + u|
      ensures Addr(e', i, p / BSIZE) != 0 && ByteAt(e', i, p) == (t + u)[p - off]
    {
      PatchedInside(sb, e, own, i, off, t, u, p);
    }
    forall p | 0 <= p < e0.inodes[i].size && !(off <= p < off + |t + u|)
      ensures Addr(e', i, p / BSIZE) != 0 && ByteAt(e', i, p) == ByteAt(e0, i, p)
    {
      assert SlotOf(p / BSIZE) < NSLOT;
      PatchedByte(sb, e, own, i, off + |t|, u, i, p);
    }
  }

  /** The bytes of the patch, and those stored before it. */
  lemma PatchedInside(sb: Super, e: Fs, own: Owners, i: nat, off: nat, t: seq<byte>, u: seq<byte>, p: nat)
    requires CanPatch(sb, e, own, i, off + |t|, u) && off <= p < off + |t + u|
    requires p < off + |t| ==> Addr(e, i, p / BSIZE) != 0 && ByteAt(e, i, p) == t[p - off]
    ensures
      var e' := Patched(e, i, off + |t|, u);
      Addr(e', i, p / BSIZE) != 0 && ByteAt(e', i, p) == (t + u)[p - off]
  {
    hide Owned, Slot, ByteAt, Patched, Shape;
    var q := off + |t|;
    PatchKeepsOwned(sb, e, own, i, q, u);
    InFile(p);
    if p >= q {
      SameBlock(q, |u|, p);
    }
    assert Addr(e, i, p / BSIZE) != 0;
    PatchedByte(sb, e, own, i, q, u, i, p);
  }

  lemma InFile(p: nat)
    requires p < MAXFILE * BSIZE
    ensures SlotOf(p / BSIZE) < NSLOT
  {
  }

  lemma SameBlock(q: nat, m: nat, p: nat)
    requires m <= BSIZE - q % BSIZE && q <= p < q + m
    ensures p / BSIZE == q / BSIZE
  {
  }

  lemma OthersKeptPatch(sb: Super, e0: Fs, e: Fs, own: Owners, i: nat, q: nat, u: seq<byte>)
    requires CanPatch(sb, e, own, i, q, u)
    requires OthersKept(e0, e, i) && NoHoles(e0)
    ensures OthersKept(e0, Patched(e, i, q, u), i)
  {
    hide Slot, Entry, ByteAt, Overwrite;
    var e' := Patched(e, i, q, u);
    PatchKeepsOwned(sb, e, own, i, q, u);
    forall j, p | 0 <= j < |e.inodes| && j != i && 0 <= p < e0.inodes[j].size
      ensures ByteAt(e', j, p) == ByteAt(e0, j, p)
    {
      assert SlotOf(p / BSIZE) < NSLOT && Addr(e0, j, p / BSIZE) != 0;
      PatchedByte(sb, e, own, i, q, u, j, p);
    }
  }

  /** ip->size = max(ip->size, off) */
  function Resized(e: Fs, i: nat, off: nat): Fs
    requires i < |e.inodes|
  {
    if off > e.inodes[i].size then e.(inodes := e.inodes[i := e.inodes[i].(size := off)]) else e
  }

  lemma ResizedSlots(e: Fs, i: nat, off: nat)
    requires i < |e.inodes|
    ensures forall j, k :: Slot(Resized(e, i, off), j, k) == Slot(e, j, k)
    ensures forall j, p :: ByteAt(Resized(e, i, off), j, p) == ByteAt(e, j, p)
  {
  }

  lemma StoredHoleFree(e0: Fs, e: Fs, i: nat, off: nat, t: seq<byte>)
    requires i < |e0.inodes| && OthersKept(e0, e, i) && Stored(e0, e, i, off, t) && NoHoles(e0)
    requires off <= e0.inodes[i].size && off + |t| <= MAXFILE * BSIZE
    ensures NoHoles(Resized(e, i, off + |t|))
  {
    var e' := Resized(e, i, off + |t|);
    ResizedSlots(e, i, off + |t|);
    forall j, p | 0 <= j < |e.inodes| && 0 <= p < e'.inodes[j].size
      ensures Addr(e', j, p / BSIZE) != 0
    {
      assert j != i ==> SlotOf(p / BSIZE) < NSLOT && Addr(e0, j, p / BSIZE) != 0;
      assert Addr(e, j, p / BSIZE) != 0;
    }
  }

  lemma StoredContent(e0: Fs, e: Fs, i: nat, off: nat, t: seq<byte>)
    requires i < |e0.inodes| && OthersKept(e0, e, i) && Stored(e0, e, i, off, t)
    requires off <= e0.inodes[i].size
    ensures Content(Resized(e, i, off + |t|), i) == Splice(Content(e0, i), off, t)
    ensures forall j :: 0 <= j < |e.inodes| && j != i ==> Content(Resized(e, i, off + |t|), j) == Content(e0, j)
  {
    hide Slot, ByteAt, Addr;
    ResizedSlots(e, i, off + |t|);
    StoredByte(e0, e, i, off, t);
    var c, d := Content(Resized(e, i, off + |t|), i), Splice(Content(e0, i), off, t);
    assert |c| == |d|;
    forall p | 0 <= p < |c|
      ensures c[p] == d[p]
    {
      assert c[p] == ByteAt(e, i, p);
    }
  }

  lemma StoredByte(e0: Fs, e: Fs, i: nat, off: nat, t: seq<byte>)
    requires i < |e0.inodes| && Stored(e0, e, i, off, t) && off <= e0.inodes[i].size
    ensures forall p :: 0 <= p < |Splice(Content(e0, i), off, t)| ==> Splice(Content(e0, i), off, t)[p] == ByteAt(e, i, p)
  {
    hide Slot, ByteAt, Addr;
    var c := Content(e0, i);
    forall p | 0 <= p < |Splice(c, off, t)|
      ensures Splice(c, off, t)[p] == ByteAt(e, i, p)
    {
      if off <= p < off + |t| { assert Splice(c, off, t)[p] == t[p - off]; } else { assert Splice(c, off, t)[p] == c[p]; }
    }
  }

  /** Once all bytes are stored, extending the size completes the write: file i is spliced,
      every other file keeps its bytes, and the invariant holds. */
  lemma StoredDone(sb: Super, e0: Fs, own0: Owners, e: Fs, own: Owners, i: nat, off: nat, t: seq<byte>)
    requires Inv(sb, e0, own0) && Shape(sb, e) && Owned(sb, e, own) && i < sb.ninodes
    requires OthersKept(e0, e, i) && Stored(e0, e, i, off, t)
    requires off <= e0.inodes[i].size && off + |t| <= MAXFILE * BSIZE && e0.inodes[i].typ != 0
    ensures Inv(sb, Resized(e, i, off + |t|), own)
    ensures Content(Resized(e, i, off + |t|), i) == Splice(Content(e0, i), off, t)
    ensures forall j :: 0 <= j < sb.ninodes && j != i ==> Content(Resized(e, i, off + |t|), j) == Content(e0, j)
  {
    hide Slot, ByteAt, Stored, Owned, HoleFree, Splice, Content;
    StoredHoleFree(e0, e, i, off, t);
    StoredContent(e0, e, i, off, t);
    ResizedOwned(sb, e, own, i, off + |t|);
    ResizedSlots(e, i, off + |t|);
    KeptUnused(sb, e0, e, i);
  }

  lemma ResizedOwned(sb: Super, e: Fs, own: Owners, i: nat, off: nat)
    requires Shape(sb, e) && Owned(sb, e, own) && i < sb.ninodes && off < UINT
    ensures Shape(sb, Resized(e, i, off)) && Owned(sb, Resized(e, i, off), own)
  {
    ResizedSlots(e, i, off);
    hide Slot;
  }

  lemma KeptUnused(sb: Super, e0: Fs, e: Fs, i: nat)
    requires OthersKept(e0, e, i) && |e0.inodes| == sb.ninodes && Files(sb, e0) && i < sb.ninodes && e0.inodes[i].typ != 0
    ensures forall j, k :: 0 <= j < sb.ninodes && e.inodes[j].typ == 0 && 0 <= k < NSLOT ==> Slot(e, j, k) == 0
  {
    hide Slot, ByteAt, HoleFree;
  }
}
