/** On-disk format of the file system (os/kernel/fs.h): how the free bitmap and the inode
    table are laid out in device blocks, and the typed view of a device. */
module FsLayout {
  import opened Bytes
  import opened BufferCache

  const NDIRECT: nat := 12
  const NINDIRECT: nat := 256
  const MAXFILE: nat := 268
  const IPB: nat := 16
  const BPB: nat := 8192
  const DINODE: nat := 64
  const UINT: nat := 0x1_0000_0000
  const T_DIR: nat := 1
  const T_FILE: nat := 2

  /** The superblock fields the kernel uses. */
  datatype Super = Super(size: nat, ninodes: nat, inodestart: nat, bmapstart: nat)

  function IBlock(sb: Super, i: nat): nat { i / IPB + sb.inodestart }
  function BBlock(sb: Super, b: nat): nat { b / BPB + sb.bmapstart }
  /** First data block. */
  function Nmeta(sb: Super): nat { sb.bmapstart + sb.size / BPB + 1 }

  /** [ boot block | super block | inode blocks | free bit map | data blocks ] */
  predicate Geometry(sb: Super) {
    && 2 <= sb.inodestart
    && sb.inodestart + sb.ninodes / IPB + 1 <= sb.bmapstart
    && Nmeta(sb) <= sb.size < UINT
  }

  datatype Dinode = Dinode(typ: nat, size: nat, addrs: seq<nat>)

  predicate Fits(d: Dinode) {
    && d.typ < 65536 && d.size < UINT && |d.addrs| == NDIRECT + 1
    && forall k :: 0 <= k <= NDIRECT ==> d.addrs[k] < UINT
  }

  const FSMAGIC: nat := 0x1020_3040

  /** struct superblock, byte by byte: the magic number, then the size, the number of inodes, where they start and
      where the bitmap starts. */
  lemma SuperBytes(blk: Block)
    ensures ReadSuper(blk) ==
            if blk[0] == 0x40 && blk[1] == 0x30 && blk[2] == 0x20 && blk[3] == 0x10 then
              Some(Super(Four(blk[4], blk[5], blk[6], blk[7]), Four(blk[12], blk[13], blk[14], blk[15]),
                         Four(blk[16], blk[17], blk[18], blk[19]), Four(blk[20], blk[21], blk[22], blk[23])))
            else None
  {
    hide GetLE;
    Word(blk, 0);
    Word(blk, 4);
    Word(blk, 12);
    Word(blk, 16);
    Word(blk, 20);
    FourDigits(blk[0], blk[1], blk[2], blk[3], 0x40, 0x30, 0x20, 0x10);
  }

  lemma FourDigits(a: byte, b: byte, c: byte, d: byte, a': byte, b': byte, c': byte, d': byte)
    ensures Four(a, b, c, d) == Four(a', b', c', d') <==> a == a' && b == b' && c == c' && d == d'
  {
    LastDigit(a, b as int + 0x100 * (c as int + 0x100 * d), a', b' as int + 0x100 * (c' as int + 0x100 * d'));
    LastDigit(b, c as int + 0x100 * d, b', c' as int + 0x100 * d');
    LastDigit(c, d, c', d');
  }

  lemma LastDigit(a: byte, x: nat, a': byte, x': nat)
    ensures a as int + 0x100 * x == a' as int + 0x100 * x' <==> a == a' && x == x'
  {
  }

  /** The superblock in block blk, when its magic number is right. */
  function ReadSuper(blk: Block): Option<Super> {
    var ws := GetWords(blk, 0, 6);
    if ws[0] == FSMAGIC then Some(Super(ws[1], ws[3], ws[4], ws[5])) else None
  }

  // ---------- struct dinode in a block ----------

  function GetWords(s: seq<byte>, off: nat, n: nat): (r: seq<nat>)
    requires off + 4 * n <= |s|
    ensures |r| == n && forall k :: 0 <= k < n ==> r[k] == GetLE(s, off + 4 * k, 4)
  {
    seq(n, k requires 0 <= k < n => GetLE(s, off + 4 * k, 4))
  }

  function PutWords(s: seq<byte>, off: nat, ws: seq<nat>): (r: seq<byte>)
    requires off + 4 * |ws| <= |s|
    ensures |r| == |s|
    ensures forall p :: 0 <= p < |s| && !(off <= p < off + 4 * |ws|) ==> r[p] == s[p]
    decreases |ws|
  {
    if ws == [] then s else PutWords(PutLE(s, off, 4, ws[0]), off + 4, ws[1..])
  }

  lemma {:induction false} GetPutWords(s: seq<byte>, off: nat, ws: seq<nat>, k: nat)
    requires off + 4 * |ws| <= |s| && k < |ws|
    requires forall j :: 0 <= j < |ws| ==> ws[j] < UINT
    ensures GetLE(PutWords(s, off, ws), off + 4 * k, 4) == ws[k]
    decreases |ws|
  {
    var t := PutLE(s, off, 4, ws[0]);
    if k == 0 {
      assert Pow256(4) == UINT;
      GetPutSame(s, off, 4, ws[0]);
      GetFrame(PutWords(t, off + 4, ws[1..]), t, off, 4);
    } else {
      GetPutWords(t, off + 4, ws[1..], k - 1);
    }
  }

  function ReadDinode(blk: seq<byte>, s: nat): Dinode
    requires |blk| == BSIZE && s < IPB
  {
    var o := DINODE * s;
    Dinode(GetLE(blk, o, 2), GetLE(blk, o + 8, 4), GetWords(blk, o + 12, NDIRECT + 1))
  }

  /** The three stores of iupdate; the padding keeps its bytes. */
  function WriteDinode(blk: seq<byte>, s: nat, d: Dinode): (r: seq<byte>)
    requires |blk| == BSIZE && s < IPB && Fits(d)
    ensures |r| == BSIZE
    ensures forall p :: 0 <= p < BSIZE && !(DINODE * s <= p < DINODE * (s + 1)) ==> r[p] == blk[p]
  {
    var o := DINODE * s;
    PutWords(PutLE(PutLE(blk, o, 2, d.typ), o + 8, 4, d.size), o + 12, d.addrs)
  }

  /** struct dinode, byte by byte, in slot s of a block: the type, six bytes of padding, the size, the pointers. */
  lemma DinodeBytes(blk: seq<byte>, s: nat)
    requires |blk| == 1024 && s < 16
    ensures
      var d, o := ReadDinode(blk, s), 64 * s;
      && d.typ == Two(blk[o], blk[o + 1]) && d.size == Four(blk[o + 8], blk[o + 9], blk[o + 10], blk[o + 11])
      && |d.addrs| == 13
      && forall k :: 0 <= k < 13 ==>
           d.addrs[k] == Four(blk[o + 12 + 4 * k], blk[o + 13 + 4 * k], blk[o + 14 + 4 * k], blk[o + 15 + 4 * k])
  {
    hide GetLE, Four;
    var o := 64 * s;
    Short(blk, o);
    Word(blk, o + 8);
    forall k | 0 <= k < 13
      ensures GetLE(blk, o + 12 + 4 * k, 4)
           == Four(blk[o + 12 + 4 * k], blk[o + 13 + 4 * k], blk[o + 14 + 4 * k], blk[o + 15 + 4 * k])
    {
      Word(blk, o + 12 + 4 * k);
    }
  }

  /** The stores of iupdate, byte by byte: the size is at byte 8, and the padding is as it was. */
  lemma StoredBytes(blk: seq<byte>, s: nat, d: Dinode)
    requires |blk| == 1024 && s < 16 && Fits(d)
    ensures
      var r, o := WriteDinode(blk, s, d), 64 * s;
      && d.typ == Two(r[o], r[o + 1]) && d.size == Four(r[o + 8], r[o + 9], r[o + 10], r[o + 11])
      && (forall k :: 0 <= k < 13 ==>
            d.addrs[k] == Four(r[o + 12 + 4 * k], r[o + 13 + 4 * k], r[o + 14 + 4 * k], r[o + 15 + 4 * k]))
      && forall p :: 0 <= p < 1024 && !(o <= p < o + 2) && !(o + 8 <= p < o + 64) ==> r[p] == blk[p]
  {
    hide Four;
    ReadWriteSame(blk, s, d);
    DinodeBytes(WriteDinode(blk, s, d), s);
  }

  lemma ReadDinodeFits(blk: seq<byte>, s: nat)
    requires |blk| == BSIZE && s < IPB
    ensures Fits(ReadDinode(blk, s))
  {
    assert Pow256(4) == UINT && Pow256(2) == 65536;
  }

  lemma ReadWriteSame(blk: seq<byte>, s: nat, d: Dinode)
    requires |blk| == BSIZE && s < IPB && Fits(d)
    ensures ReadDinode(WriteDinode(blk, s, d), s) == d
  {
    hide GetLE, PutLE, PutWords;
    var o := DINODE * s;
    var b1 := PutLE(blk, o, 2, d.typ);
    var b2 := PutLE(b1, o + 8, 4, d.size);
    var b3 := PutWords(b2, o + 12, d.addrs);
    assert Pow256(4) == UINT && Pow256(2) == 65536;
    GetPutSame(blk, o, 2, d.typ);
    GetFrame(b3, b1, o, 2);
    GetPutSame(b1, o + 8, 4, d.size);
    GetFrame(b3, b2, o + 8, 4);
    forall k | 0 <= k <= NDIRECT
      ensures GetLE(b3, o + 12 + 4 * k, 4) == d.addrs[k]
    {
      GetPutWords(b2, o + 12, d.addrs, k);
    }
    assert GetWords(b3, o + 12, NDIRECT + 1) == d.addrs;
  }

  lemma ReadFrame(blk: seq<byte>, blk': seq<byte>, s: nat)
    requires |blk| == BSIZE == |blk'| && s < IPB
    requires forall p :: DINODE * s <= p < DINODE * (s + 1) ==> blk[p] == blk'[p]
    ensures ReadDinode(blk, s) == ReadDinode(blk', s)
  {
    var o := DINODE * s;
    GetFrame(blk, blk', o, 2);
    GetFrame(blk, blk', o + 8, 4);
    forall k | 0 <= k <= NDIRECT
      ensures GetLE(blk, o + 12 + 4 * k, 4) == GetLE(blk', o + 12 + 4 * k, 4)
    {
      GetFrame(blk, blk', o + 12 + 4 * k, 4);
    }
    assert GetWords(blk, o + 12, NDIRECT + 1) == GetWords(blk', o + 12, NDIRECT + 1);
  }

  // ---------- typed view of a device ----------

  /** bits: the free bitmap; inodes: the inode table; data: the data blocks (metadata
      block numbers hold nothing). */
  datatype Fs = Fs(bits: seq<bool>, inodes: seq<Dinode>, data: seq<seq<byte>>)

  predicate Bit(sb: Super, d: seq<Block>, b: nat)
    requires Geometry(sb) && |d| == sb.size && b < sb.size
  {
    BitAt(d[BBlock(sb, b)], b % BPB)
  }

  function Inode(sb: Super, d: seq<Block>, i: nat): Dinode
    requires Geometry(sb) && |d| == sb.size && i < sb.ninodes
  {
    ReadDinode(d[IBlock(sb, i)], i % IPB)
  }

  function View(sb: Super, d: seq<Block>): (v: Fs)
    requires Geometry(sb) && |d| == sb.size
    ensures |v.bits| == |v.data| == sb.size && |v.inodes| == sb.ninodes
  {
    Fs(seq(sb.size, b requires 0 <= b < sb.size => Bit(sb, d, b)),
       seq(sb.ninodes, i requires 0 <= i < sb.ninodes => Inode(sb, d, i)),
       seq(sb.size, b requires 0 <= b < sb.size => if b < Nmeta(sb) then [] else d[b]))
  }

  /** Where things are on a device: bit b of the bitmap is bit b % 8 of byte b % 8192 / 8 of block bmapstart + b / 8192,
      inode i is in slot i % 16 of block inodestart + i / 16, and the data blocks come after the bitmap. */
  lemma ViewBytes(sb: Super, d: seq<Block>)
    requires Geometry(sb) && |d| == sb.size
    ensures forall b :: 0 <= b < sb.size ==>
              && sb.bmapstart + b / 8192 < sb.size
              && (View(sb, d).bits[b] <==>
                    d[sb.bmapstart + b / 8192][b % 8192 / 8] as int / [1, 2, 4, 8, 16, 32, 64, 128][b % 8] % 2 == 1)
    ensures forall i :: 0 <= i < sb.ninodes ==>
              sb.inodestart + i / 16 < sb.size && View(sb, d).inodes[i] == ReadDinode(d[sb.inodestart + i / 16], i % 16)
    ensures forall b :: sb.bmapstart + sb.size / 8192 < b < sb.size ==> View(sb, d).data[b] == d[b]
  {
    hide ReadDinode, Bit;
    forall b | 0 <= b < sb.size
      ensures sb.bmapstart + b / 8192 < sb.size
      ensures View(sb, d).bits[b] <==>
              d[sb.bmapstart + b / 8192][b % 8192 / 8] as int / [1, 2, 4, 8, 16, 32, 64, 128][b % 8] % 2 == 1
    {
      BitIs(sb, d, b);
    }
  }

  lemma BitIs(sb: Super, d: seq<Block>, b: nat)
    requires Geometry(sb) && |d| == sb.size && b < sb.size
    ensures sb.bmapstart + b / 8192 < sb.size
    ensures Bit(sb, d, b) <==>
            d[sb.bmapstart + b / 8192][b % 8192 / 8] as int / [1, 2, 4, 8, 16, 32, 64, 128][b % 8] % 2 == 1
  {
    hide BitAt;
    assert b % 8192 % 8 == b % 8;
    BitOfByte(d[sb.bmapstart + b / 8192], b % 8192);
  }

  /** Writing one bit of a bitmap block changes one bit of the bitmap and nothing else. */
  lemma BitWrite(sb: Super, d: seq<Block>, b: nat, val: bool)
    requires Geometry(sb) && |d| == sb.size && b < sb.size
    ensures View(sb, d[BBlock(sb, b) := PutBit(d[BBlock(sb, b)], b % BPB, val)])
         == View(sb, d).(bits := View(sb, d).bits[b := val])
  {
    hide BitAt, PutBit, ReadDinode;
    var q := BBlock(sb, b);
    var d' := d[q := PutBit(d[q], b % BPB, val)];
    forall c | 0 <= c < sb.size
      ensures Bit(sb, d', c) == if c == b then val else Bit(sb, d, c)
    {
      if BBlock(sb, c) == q {
        BitAtPut(d[q], b % BPB, val, c % BPB);
      }
    }
    assert View(sb, d').bits == View(sb, d).bits[b := val];
    assert View(sb, d').inodes == View(sb, d).inodes;
    assert View(sb, d').data == View(sb, d).data;
  }

  /** Writing one dinode of an inode block changes one inode and nothing else. */
  lemma InodeWrite(sb: Super, d: seq<Block>, i: nat, blk: Block, di: Dinode)
    requires Geometry(sb) && |d| == sb.size && i < sb.ninodes
    requires ReadDinode(blk, i % IPB) == di
    requires forall p :: 0 <= p < BSIZE && !(DINODE * (i % IPB) <= p < DINODE * (i % IPB + 1)) ==>
               blk[p] == d[IBlock(sb, i)][p]
    ensures View(sb, d[IBlock(sb, i) := blk]) == View(sb, d).(inodes := View(sb, d).inodes[i := di])
  {
    var q := IBlock(sb, i);
    var d' := d[q := blk];
    forall j | 0 <= j < sb.ninodes
      ensures Inode(sb, d', j) == if j == i then di else Inode(sb, d, j)
    {
      if IBlock(sb, j) == q && j != i {
        ReadFrame(d[q], blk, j % IPB);
      }
    }
    assert View(sb, d').bits == View(sb, d).bits;
    assert View(sb, d').inodes == View(sb, d).inodes[i := di];
    assert View(sb, d').data == View(sb, d).data;
  }

  lemma DataWrite(sb: Super, d: seq<Block>, b: nat, blk: Block)
    requires Geometry(sb) && |d| == sb.size && Nmeta(sb) <= b < sb.size
    ensures View(sb, d[b := blk]) == View(sb, d).(data := View(sb, d).data[b := blk])
  {
    var d' := d[b := blk];
    assert View(sb, d').bits == View(sb, d).bits;
    assert View(sb, d').inodes == View(sb, d).inodes;
    assert View(sb, d').data == View(sb, d).data[b := blk];
  }
}
