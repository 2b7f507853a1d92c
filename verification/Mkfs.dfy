/** The image builder (os/nfs/fs.c), proved against the kernel's view of the device. */
module Mkfs {
  import opened Bytes
  import opened BufferCache
  import opened FsLayout
  import opened Ownership
  import FileSystem
  import Directory

  const FSSIZE: nat := 1000
  const NINODES: nat := 200
  /** [ boot | super | 13 inode blocks | 1 bitmap block | data ] */
  const SB: Super := Super(1000, 200, 2, 15)

  /** Exited stands for a failed assert or for exit(1) after a short read or write. */
  datatype Result<T> = Ok(value: T) | Exited

  /** The bitmap that main writes at the end: the blocks handed out so far are in use. */
  function Used(freeblock: nat): (r: seq<bool>)
    ensures |r| == 1000 && forall b :: 0 <= b < 1000 ==> r[b] == (b < freeblock)
  {
    seq(1000, b => b < freeblock)
  }

  /** Bytes of files at and after their size are zero; file i is taken to end at off. */
  ghost predicate Slack(v: Fs, i: nat, off: nat) {
    forall j, p :: 0 <= j < |v.inodes| && 0 <= p < MAXFILE * BSIZE && (if j == i then off else v.inodes[j].size) <= p ==>
      ByteAt(v, j, p) == 0
  }

  /** No file has a block that begins at or after its size, nor an indirect block it does not need;
      file i is taken to end at off. */
  ghost predicate Tight(v: Fs, i: nat, off: nat) {
    && (forall j, bn :: 0 <= j < |v.inodes| && 0 <= bn < MAXFILE && (if j == i then off else v.inodes[j].size) <= bn * BSIZE ==>
          Addr(v, j, bn) == 0)
    && (forall j :: 0 <= j < |v.inodes| && (if j == i then off else v.inodes[j].size) <= NDIRECT * BSIZE ==>
          Slot(v, j, INDIRECT) == 0)
  }

  /** How many blocks a file of s bytes takes on an image, its indirect block included. */
  function BlocksFor(s: nat): nat {
    (s + BSIZE - 1) / BSIZE + if s > NDIRECT * BSIZE then 1 else 0
  }

  lemma MoreBlocks(s: nat, t: nat)
    requires s <= t
    ensures BlocksFor(s) <= BlocksFor(t)
  {
  }

  /** Writing up to the end of a block takes as many blocks as writing its first byte. */
  lemma WithinBlock(off: nat, m: nat)
    requires 0 < m <= BSIZE - off % BSIZE
    ensures BlocksFor(off + m) == BlocksFor(off + 1)
  {
    var q := off / BSIZE;
    assert (off + m + BSIZE - 1) / BSIZE == q + 1 && (off + 1 + BSIZE - 1) / BSIZE == q + 1;
    assert off + m > NDIRECT * BSIZE <==> q >= NDIRECT;
    assert off + 1 > NDIRECT * BSIZE <==> q >= NDIRECT;
  }

  /** There is no room for n more bytes in a file of s bytes. */
  predicate TooMuch(freeblock: nat, s: nat, n: nat) {
    s + n > MAXFILE * BSIZE || freeblock + BlocksFor(s + n) - BlocksFor(s) > 1000
  }

  lemma EndAllocated(e0: Fs, e: Fs, i: nat, s: nat, t: seq<byte>)
    requires i < |e0.inodes| && e0.inodes[i].size == s && Stored(e0, e, i, s, t)
    ensures s + |t| > 0 ==> Addr(e, i, (s + |t| - 1) / BSIZE) != 0
  {
    hide Slot, ByteAt;
  }

  /** What the block at the end of a file still lacks. */
  lemma MissingAtEnd(v: Fs, i: nat, off: nat)
    requires i < |v.inodes| && Tight(v, i, off) && off < MAXFILE * BSIZE
    requires off > 0 ==> Addr(v, i, (off - 1) / BSIZE) != 0
    ensures BlocksFor(off) + Missing(v, i, off / BSIZE) == BlocksFor(off + 1)
  {
    var q := off / BSIZE;
    if off % BSIZE != 0 {
      assert (off - 1) / BSIZE == q;
      assert q >= NDIRECT ==> Slot(v, i, INDIRECT) != 0;
      hide Slot;
      WithinBlock(off - 1, 2);
    } else {
      assert q > NDIRECT ==> SlotOf(q - 1) == q && Addr(v, i, q - 1) != 0 && Slot(v, i, INDIRECT) != 0;
      hide Slot;
      assert Addr(v, i, q) == 0;
      assert q <= NDIRECT ==> Slot(v, i, INDIRECT) == 0;
    }
  }

  /** Giving file i the block that holds offset off. */
  lemma TightStep(v: Fs, v': Fs, i: nat, off: nat)
    requires Tight(v, i, off) && Grows(v, v', i)
    requires forall bn :: 0 <= bn < MAXFILE && bn != off / BSIZE ==> Addr(v', i, bn) == Addr(v, i, bn)
    requires off < NDIRECT * BSIZE ==> Slot(v', i, INDIRECT) == Slot(v, i, INDIRECT)
    ensures Tight(v', i, off + 1)
  {
    hide Slot;
    forall j, bn | 0 <= j < |v'.inodes| && 0 <= bn < MAXFILE && (if j == i then off + 1 else v'.inodes[j].size) <= bn * BSIZE
      ensures Addr(v', j, bn) == 0
    {
      assert SlotOf(bn) < NSLOT && Addr(v, j, bn) == 0;
    }
  }

  lemma AllocSlack(sb: Super, v: Fs, own: Owners, i: nat, k: nat, b: nat, off: nat)
    requires CanAlloc(sb, v, own, i, k, b) && Slack(v, i, off)
    ensures Slack(AllocSlot(v, i, k, b), i, off)
  {
    hide ByteAt, Slot, Owned;
    var v' := AllocSlot(v, i, k, b);
    AllocGrows(sb, v, own, i, k, b);
    forall j, p | 0 <= j < |v'.inodes| && 0 <= p < MAXFILE * BSIZE && (if j == i then off else v'.inodes[j].size) <= p
      ensures ByteAt(v', j, p) == 0
    {
      AllocBytes(sb, v, own, i, k, b, j, p);
    }
  }

  lemma TightPatch(e: Fs, own: Owners, i: nat, off: nat, u: seq<byte>)
    requires CanPatch(SB, e, own, i, off, u) && Tight(e, i, off + 1)
    ensures Tight(Patched(e, i, off, u), i, off + |u|)
  {
    PatchKeepsOwned(SB, e, own, i, off, u);
    hide Slot, Owned;
    var e' := Patched(e, i, off, u);
    forall j, bn | 0 <= j < |e'.inodes| && 0 <= bn < MAXFILE && (if j == i then off + |u| else e'.inodes[j].size) <= bn * BSIZE
      ensures Addr(e', j, bn) == 0
    {
      assert SlotOf(bn) < NSLOT && Addr(e, j, bn) == 0;
    }
  }

  lemma PatchSlack(sb: Super, e: Fs, own: Owners, i: nat, q: nat, u: seq<byte>)
    requires CanPatch(sb, e, own, i, q, u) && Slack(e, i, q)
    ensures Slack(Patched(e, i, q, u), i, q + |u|)
  {
    var e' := Patched(e, i, q, u);
    PatchKeepsOwned(sb, e, own, i, q, u);
    forall j, p | 0 <= j < |e'.inodes| && 0 <= p < MAXFILE * BSIZE && (if j == i then q + |u| else e'.inodes[j].size) <= p
      ensures ByteAt(e', j, p) == 0
    {
      assert ByteAt(e, j, p) == 0;
      assert SlotOf(p / BSIZE) < NSLOT;
      if Addr(e, j, p / BSIZE) != 0 {
        hide Slot, ByteAt, Patched;
        PatchedByte(sb, e, own, i, q, u, j, p);
      }
    }
  }

  /** Dinode d in place of inode i. */
  function With(v: Fs, i: nat, d: Dinode): Fs {
    if i < |v.inodes| then v.(inodes := v.inodes[i := d]) else v
  }

  /** The typed view of the image once the bitmap of the first freeblock blocks is written. */
  function Built(disk: seq<Block>, freeblock: nat): (v: Fs)
    requires |disk| == 1000
    ensures |v.bits| == |v.data| == 1000 && |v.inodes| == 200
  {
    View(SB, disk).(bits := Used(freeblock))
  }

  /** din.addrs[k] = freeblock++ is AllocSlot. */
  lemma TakeAddr(disk: seq<Block>, freeblock: nat, i: nat, din: Dinode, k: nat)
    requires |disk| == 1000 && 16 <= freeblock < 1000 && disk[freeblock] == Zeros(BSIZE)
    requires i < 200 && |din.addrs| == NDIRECT + 1 && k <= INDIRECT
    ensures With(Built(disk, freeblock + 1), i, din.(addrs := din.addrs[k := freeblock]))
         == AllocSlot(With(Built(disk, freeblock), i, din), i, k, freeblock)
  {
    hide Bit, Inode;
    var v := Built(disk, freeblock);
    assert Used(freeblock + 1) == Used(freeblock)[freeblock := true];
    assert Nmeta(SB) == 16 && v.data[freeblock] == disk[freeblock];
    assert v.data[freeblock := Zeros(BSIZE)] == v.data;
  }

  /** indirect[j] = freeblock++ is AllocSlot. */
  lemma TakeEntry(disk: seq<Block>, freeblock: nat, i: nat, din: Dinode, j: nat)
    requires |disk| == 1000 && 16 <= freeblock < 1000 && disk[freeblock] == Zeros(BSIZE)
    requires i < 200 && |din.addrs| == NDIRECT + 1 && 16 <= din.addrs[INDIRECT] < freeblock
    ensures
      var a := din.addrs[INDIRECT];
      With(Built(disk[a := PutEntry(disk[a], j, freeblock)], freeblock + 1), i, din)
      == AllocSlot(With(Built(disk, freeblock), i, din), i, 13 + j, freeblock)
  {
    hide Bit, Inode, PutEntry;
    var a := din.addrs[INDIRECT];
    var v := Built(disk, freeblock);
    DataWrite(SB, disk, a, PutEntry(disk[a], j, freeblock));
    assert Used(freeblock + 1) == Used(freeblock)[freeblock := true];
    assert Nmeta(SB) == 16 && v.data[freeblock] == disk[freeblock];
    assert v.data[freeblock := Zeros(BSIZE)] == v.data;
  }

  // ---------- the files to store ----------

  /** A file on the command line, and what read delivers of it, in pieces. */
  datatype Input = Input(path: seq<byte>, chunks: seq<seq<byte>>)

  function Concat(chunks: seq<seq<byte>>): seq<byte> {
    if chunks == [] then [] else Concat(chunks[..|chunks| - 1]) + chunks[|chunks| - 1]
  }

  function Ascii(s: string): (r: seq<byte>)
    ensures |r| == |s|
  {
    seq(|s|, i requires 0 <= i < |s| => s[i] as int % 256)
  }

  const SLASH: byte := 47

  /** The name in the root of the file at this path, which is a plain name or lies in the directory target. */
  function NameOf(path: seq<byte>): seq<byte> {
    if SLASH in path && |path| > 7 then path[7..] else if SLASH in path then [] else path
  }

  /** No slash, or none but that of a leading "target/". */
  predicate Nameable(path: seq<byte>) {
    SLASH !in path || (Ascii("target/") <= path && SLASH !in path[7..])
  }

  /** What main strips is exactly a leading "target/". */
  lemma Stripped(path: seq<byte>)
    ensures
      var short := if [116, 97, 114, 103, 101, 116, 47] <= path then path[7..] else path;
      (SLASH !in short <==> Nameable(path)) && (SLASH !in short ==> short == NameOf(path))
  {
    assert Ascii("target/") == [116, 97, 114, 103, 101, 116, 47];
    if [116, 97, 114, 103, 101, 116, 47] <= path {
      assert path[6] == SLASH;
    }
  }

  /** The first statement of main's loop. */
  method Shorten(path: seq<byte>) returns (shortname: seq<byte>)
    ensures SLASH !in shortname <==> Nameable(path)
    ensures SLASH !in shortname ==> shortname == NameOf(path)
  {
    Stripped(path);
    shortname := if [116, 97, 114, 103, 101, 116, 47] <= path then path[7..] else path;
  }

  /** A name and the same name under "target/" are both fine, and the entry holds the name cut to 14 bytes. */
  lemma NamedAs(path: seq<byte>, name: seq<byte>)
    requires SLASH !in name && 0 !in name && (path == name || path == Ascii("target/") + name)
    ensures Nameable(path) && NameOf(path) == name
    ensures Directory.Field(NameOf(path)) == if |name| < 14 then name + Zeros(14 - |name|) else name[..14]
  {
    if path != name {
      assert path[7..] == name && path[6] == Ascii("target/")[6] == SLASH;
    }
    var f, g := Directory.Field(name), if |name| < 14 then name + Zeros(14 - |name|) else name[..14];
    assert forall k :: 0 <= k < 14 ==> f[k] == g[k];
  }

  /** The entries of the root directory: file k has inode 2 + k. */
  function Listed(files: seq<Input>): (es: seq<Directory.Dirent>)
    ensures |es| == |files|
  {
    seq(|files|, k requires 0 <= k < |files| => Directory.Dirent(2 + k, Directory.Field(NameOf(files[k].path))))
  }

  /** The name is a single path component and the file is not too long. */
  predicate Storable(f: Input) {
    Nameable(f.path) && |Concat(f.chunks)| <= MAXFILE * BSIZE
  }

  /** The blocks in use once the first n files are stored: metadata, root directory, files. */
  function Total(files: seq<Input>, n: nat): (r: nat)
    requires n <= |files|
  {
    16 + BlocksFor(16 * n) + FileBlocks(files[..n])
  }

  function FileBlocks(files: seq<Input>): nat {
    if files == [] then 0 else FileBlocks(files[..|files| - 1]) + BlocksFor(|Concat(files[|files| - 1].chunks)|)
  }

  /** mkfs can store these files. */
  predicate Buildable(files: seq<Input>) {
    (forall k :: 0 <= k < |files| ==> Storable(files[k])) && Total(files, |files|) <= 1000
  }

  lemma NextTotal(files: seq<Input>, n: nat)
    requires n < |files|
    ensures Total(files, n + 1)
         == Total(files, n) + BlocksFor(16 * (n + 1)) - BlocksFor(16 * n) + BlocksFor(|Concat(files[n].chunks)|)
    ensures Total(files, n) <= Total(files, n + 1)
  {
    hide BlocksFor, Concat;
    assert files[..n + 1][..n] == files[..n];
    MoreBlocks(16 * n, 16 * (n + 1));
  }

  lemma NoTotal(files: seq<Input>)
    ensures Total(files, 0) == 16
  {
    assert files[..0] == [];
  }

  lemma {:induction false} TotalGrows(files: seq<Input>, n: nat, m: nat)
    requires n <= m <= |files|
    ensures Total(files, n) <= Total(files, m)
    decreases m - n
  {
    hide Total;
    if n < m {
      NextTotal(files, n);
      TotalGrows(files, n + 1, m);
    }
  }

  lemma {:induction false} ConcatGrows(chunks: seq<seq<byte>>, k: nat)
    requires k <= |chunks|
    ensures |Concat(chunks[..k])| <= |Concat(chunks)|
  {
    if k < |chunks| {
      var init := chunks[..|chunks| - 1];
      ConcatGrows(init, k);
      assert init[..k] == chunks[..k];
    } else {
      assert chunks[..k] == chunks;
    }
  }

  lemma NoneYet(chunks: seq<seq<byte>>)
    ensures Concat(chunks[..0]) == [] && BlocksFor(0) == 0
  {
  }

  lemma ConcatNext(chunks: seq<seq<byte>>, k: nat)
    requires k < |chunks|
    ensures Concat(chunks[..k + 1]) == Concat(chunks[..k]) + chunks[k]
    ensures |Concat(chunks[..k])| + |chunks[k]| <= |Concat(chunks)|
  {
    assert chunks[..k + 1][..k] == chunks[..k];
    ConcatGrows(chunks, k + 1);
  }

  /** The root lists the first n files, whose inodes hold them; no other inode is in use. */
  ghost predicate Holds(v: Fs, files: seq<Input>, n: nat)
    requires n <= |files| <= 198 && |v.inodes| == 200
  {
    && v.inodes[1].typ == T_DIR && |Content(v, 1)| == 16 * n
    && Directory.Entries(Content(v, 1)) == Listed(files[..n])
    && (forall j :: 2 <= j < 2 + n ==> v.inodes[j].typ == T_FILE && Content(v, j) == Concat(files[j - 2].chunks))
    && (forall j :: 2 + n <= j < 200 ==> v.inodes[j].typ == 0)
  }

  lemma RootGrows(c: seq<byte>, files: seq<Input>, n: nat)
    requires n < |files| <= 198 && |c| == 16 * n && Directory.Entries(c) == Listed(files[..n])
    ensures var b := Directory.EncodeDirent(Directory.Dirent(2 + n, Directory.Field(NameOf(files[n].path))));
            && |c + b| == 16 * (n + 1) && Directory.Entries(c + b) == Listed(files[..n + 1])
  {
    hide Directory.EncodeDirent, Directory.DecodeDirent, Directory.Raw;
    var e := Directory.Dirent(2 + n, Directory.Field(NameOf(files[n].path)));
    Directory.SpliceEntry(c, n, e);
    SpliceEnd(c, Directory.EncodeDirent(e));
    assert Listed(files[..n + 1]) == Listed(files[..n]) + [e];
  }

  class Image {
    var disk: seq<Block>
    var freeinode: nat
    var freeblock: nat
    /** The owner of each block handed out. */
    ghost var own: Owners

    ghost predicate Clean()
      reads this
    {
      && |disk| == 1000 && 16 <= freeblock <= 1000
      && forall b :: freeblock <= b < 1000 ==> disk[b] == Zeros(BSIZE)
    }

    ghost function P(): Fs
      requires |disk| == 1000
      reads this
    {
      Built(disk, freeblock)
    }

    /** Between calls of iappend. */
    ghost predicate Valid()
      reads this
    {
      Clean() && Inv(SB, P(), own) && Slack(P(), NINODES, 0) && Tight(P(), NINODES, 0) && SuperOk(disk)
    }

    /** Inside iappend, which holds inode i in din. */
    ghost predicate Busy(i: nat, din: Dinode, off: nat)
      reads this
    {
      && Clean() && i < 200 && SuperOk(disk)
      && Shape(SB, With(P(), i, din)) && Owned(SB, With(P(), i, din), own) && Slack(With(P(), i, din), i, off)
    }

    method TakeInto(i: nat, din: Dinode, k: nat, ghost off: nat) returns (r: Result<Dinode>)
      requires Busy(i, din, off) && k <= INDIRECT && Slot(With(P(), i, din), i, k) == 0
      modifies `freeblock, `own
      ensures r.Exited? <==> old(freeblock) == 1000
      ensures r.Exited? ==> freeblock == old(freeblock)
      ensures r.Ok? ==>
        && freeblock == old(freeblock) + 1 && Busy(i, r.value, off)
        && r.value == din.(addrs := r.value.addrs) && Slot(With(P(), i, r.value), i, k) == old(freeblock)
        && Grows(old(With(P(), i, din)), With(P(), i, r.value), i)
        && forall k' :: 0 <= k' < NSLOT && k' != k ==> Slot(With(P(), i, r.value), i, k') == Slot(old(With(P(), i, din)), i, k')
    {
      hide Built, Slot, AllocSlot, Owned, Shape, Grows, Slack, With, SuperOk;
      if freeblock >= 1000 {
        return Exited;
      }
      ghost var e := With(P(), i, din);
      var b := freeblock;
      OkAlloc(e, own, i, k, freeblock, disk, din);
      TakeAddr(disk, b, i, din, k);
      AllocAll(e, own, i, k, b, off);
      freeblock := freeblock + 1;
      own := own[b := (i, k)];
      return Ok(din.(addrs := din.addrs[k := b]));
    }

    /** The second half of iappend's block map: entry j of the indirect block. */
    method MapEntry(i: nat, din: Dinode, j: nat, ghost off: nat) returns (r: Result<nat>)
      requires Busy(i, din, off) && j < NINDIRECT && Slot(With(P(), i, din), i, INDIRECT) != 0
      modifies `disk, `freeblock, `own
      ensures r.Exited? <==> Slot(old(With(P(), i, din)), i, 13 + j) == 0 && old(freeblock) == 1000
      ensures r.Exited? ==> freeblock == 1000
      ensures r.Ok? ==>
        && Busy(i, din, off) && freeblock == old(freeblock) + (if Slot(old(With(P(), i, din)), i, 13 + j) == 0 then 1 else 0)
        && r.value == Slot(With(P(), i, din), i, 13 + j) && r.value != 0
        && Grows(old(With(P(), i, din)), With(P(), i, din), i) && P().inodes == old(P()).inodes
        && forall k' :: 0 <= k' < NSLOT && k' != 13 + j ==> Slot(With(P(), i, din), i, k') == Slot(old(With(P(), i, din)), i, k')
    {
      hide Built, AllocSlot, Owned, Grows, Slack, Entry, PutEntry, SuperOk;
      ghost var e := With(P(), i, din);
      IndirectAt(disk, freeblock, i, din, own, j);
      var a := din.addrs[INDIRECT];
      var indirect := disk[a];
      if Entry(indirect, j) != 0 {
        FileSystem.GrowsRefl(e, i);
        return Ok(Entry(indirect, j));
      }
      if freeblock >= 1000 {
        return Exited;
      }
      var b := freeblock;
      OkAlloc(e, own, i, 13 + j, b, disk, din);
      TakeEntry(disk, b, i, din, j);
      AllocAll(e, own, i, 13 + j, b, off);
      BuiltInodes(disk, freeblock, a, PutEntry(indirect, j, b));
      SuperKept(disk, a, PutEntry(indirect, j, b));
      disk := disk[a := PutEntry(indirect, j, b)];
      freeblock := freeblock + 1;
      own := own[b := (i, 13 + j)];
      return Ok(b);
    }

    /** iappend's block map: the block that holds block fbn of the file. */
    method MapBlock(i: nat, din: Dinode, fbn: nat, ghost off: nat) returns (r: Result<nat>, din': Dinode)
      requires Busy(i, din, off) && fbn < MAXFILE
      modifies `disk, `freeblock, `own
      ensures r.Exited? <==> old(freeblock) + Missing(old(With(P(), i, din)), i, fbn) > 1000
      ensures r.Exited? ==> freeblock >= 999
      ensures r.Ok? ==>
        && Busy(i, din', off) && din' == din.(addrs := din'.addrs) && P().inodes == old(P()).inodes
        && freeblock == old(freeblock) + Missing(old(With(P(), i, din)), i, fbn)
        && r.value == Addr(With(P(), i, din'), i, fbn) && r.value != 0
        && Grows(old(With(P(), i, din)), With(P(), i, din'), i)
        && (forall bn :: 0 <= bn < MAXFILE && bn != fbn ==> Addr(With(P(), i, din'), i, bn) == Addr(old(With(P(), i, din)), i, bn))
        && (fbn < NDIRECT ==> Slot(With(P(), i, din'), i, INDIRECT) == Slot(old(With(P(), i, din)), i, INDIRECT))
    {
      hide Built, Slot, AllocSlot, Owned, Shape, Grows, Slack, SuperOk;
      din' := din;
      ghost var e := With(P(), i, din);
      SlotAddr(disk, freeblock, i, din, own);
      if fbn < NDIRECT {
        if din.addrs[fbn] == 0 {
          var t := TakeInto(i, din, fbn, off);
          if t.Exited? {
            return Exited, din;
          }
          din' := t.value;
          BuiltAgain(disk, freeblock - 1, freeblock);
        } else {
          FileSystem.GrowsRefl(e, i);
        }
        SlotAddr(disk, freeblock, i, din', own);
        return Ok(din'.addrs[fbn]), din';
      }
      if din.addrs[INDIRECT] == 0 {
        var t := TakeInto(i, din, INDIRECT, off);
        if t.Exited? {
          return Exited, din;
        }
        din' := t.value;
        BuiltAgain(disk, freeblock - 1, freeblock);
      } else {
        FileSystem.GrowsRefl(e, i);
      }
      ghost var e1 := With(P(), i, din');
      r := MapEntry(i, din', fbn - NDIRECT, off);
      if r.Ok? {
        GrowsTrans(e, e1, With(P(), i, din'), i);
      }
    }

    /** bcopy into the block that holds offset off, and wsect. */
    method PutChunk(i: nat, din: Dinode, off: nat, u: seq<byte>, x: nat)
      requires Busy(i, din, off) && 0 < |u| <= BSIZE - off % BSIZE && off + |u| <= MAXFILE * BSIZE
      requires x == Addr(With(P(), i, din), i, off / BSIZE) && x != 0
      modifies `disk
      ensures Busy(i, din, off + |u|) && P().inodes == old(P()).inodes
      ensures CanPatch(SB, old(With(P(), i, din)), own, i, off, u)
      ensures With(P(), i, din) == Patched(old(With(P(), i, din)), i, off, u)
    {
      hide Built, Slot, Owned, Slack, SuperOk, Overwrite, Patched;
      ghost var e := With(P(), i, din);
      SlotBlock(disk, freeblock, i, din, own, SlotOf(off / BSIZE));
      PatchBuilt(disk, freeblock, i, din, own, off, u);
      PatchKeepsOwned(SB, e, own, i, off, u);
      PatchSlack(SB, e, own, i, off, u);
      var buf := disk[x];
      BuiltInodesHere(disk, freeblock, x, Overwrite(buf, off % BSIZE, u));
      SuperKept(disk, x, Overwrite(buf, off % BSIZE, u));
      disk := disk[x := Overwrite(buf, off % BSIZE, u)];
    }

    method Rinode(i: nat) returns (din: Dinode)
      requires |disk| == 1000 && i < 200
      ensures din == P().inodes[i] && Fits(din)
    {
      hide ReadDinode;
      FileSystem.InodeView(SB, disk, i);
      ReadDinodeFits(disk[IBlock(SB, i)], i % IPB);
      din := ReadDinode(disk[IBlock(SB, i)], i % IPB);
    }

    method Winode(i: nat, din: Dinode)
      requires |disk| == 1000 && i < 200 && Fits(din) && SuperOk(disk)
      requires 16 <= freeblock
      modifies `disk
      ensures |disk| == 1000 && SuperOk(disk) && P() == With(old(P()), i, din)
      ensures forall b :: 16 <= b < 1000 ==> disk[b] == old(disk)[b]
    {
      hide ReadDinode, WriteDinode, View, SuperOk;
      var bn := IBlock(SB, i);
      var buf := disk[bn];
      ReadWriteSame(buf, i % IPB, din);
      InodeWrite(SB, disk, i, WriteDinode(buf, i % IPB, din), din);
      SuperKept(disk, bn, WriteDinode(buf, i % IPB, din));
      disk := disk[bn := WriteDinode(buf, i % IPB, din)];
    }

    /** iappend: the bytes go to the end of file i, and nothing else changes. */
    method Iappend(i: nat, bytes: seq<byte>) returns (r: Result<()>)
      requires Valid() && i < 200 && P().inodes[i].typ != 0
      modifies `disk, `freeblock, `own
      ensures r.Exited? <==> TooMuch(old(freeblock), old(P()).inodes[i].size, |bytes|)
      ensures r.Ok? ==>
        && Valid() && freeblock + BlocksFor(old(P()).inodes[i].size) == old(freeblock) + BlocksFor(|Content(P(), i)|)
        && Content(P(), i) == Content(old(P()), i) + bytes && P().inodes[i].typ == old(P()).inodes[i].typ
        && (forall j :: 0 <= j < 200 && j != i ==> P().inodes[j] == old(P()).inodes[j] && Content(P(), j) == Content(old(P()), j))
    {
      hide Built, Slot, Owned, Slack, Tight, SuperOk, Content, Inv, ByteAt, BlocksFor;
      ghost var e0, own0 := P(), own;
      var din := Rinode(i);
      var off := din.size;
      ghost var off0 := off;
      FileSystem.InvParts(SB, e0, own, i, off);
      WithSame(e0, i);
      SlackSame(e0, i);
      r, din, off := AppendLoop(i, din, bytes);
      if r.Exited? {
        return;
      }
      ghost var e := With(P(), i, din);
      StoredDone(SB, e0, own0, e, own, i, off0, bytes);
      SpliceEnd(Content(e0, i), bytes);
      SlackDone(e, i, off0 + |bytes|);
      FileSystem.InvParts(SB, Resized(e, i, off0 + |bytes|), own, i, 0);
      WithResized(P(), i, din, off0 + |bytes|);
      Winode(i, din.(size := off));
      assert P() == Resized(e, i, off0 + |bytes|);
    }

    /** One round of that loop: the n1 bytes of more that fit into the block at offset off; t went before them. */
    method AppendChunk(i: nat, din0: Dinode, off: nat, more: seq<byte>, ghost e0: Fs, ghost s: nat, ghost t: seq<byte>)
      returns (r: Result<()>, din: Dinode, n1: nat)
      requires more != [] && off == s + |t| <= MAXFILE * BSIZE && |e0.inodes| == 200 && NoHoles(e0)
      requires Busy(i, din0, off) && Tight(With(P(), i, din0), i, off) && e0.inodes[i].size == s
      requires OthersKept(e0, With(P(), i, din0), i) && Stored(e0, With(P(), i, din0), i, s, t)
      modifies `disk, `freeblock, `own
      ensures r.Exited? <==> TooMuch(old(freeblock), off, 1)
      ensures r.Ok? ==>
        && 0 < n1 <= |more| && off + n1 <= MAXFILE * BSIZE
        && Busy(i, din, off + n1) && Tight(With(P(), i, din), i, off + n1)
        && din == din0.(addrs := din.addrs) && P().inodes == old(P()).inodes
        && freeblock + BlocksFor(off) == old(freeblock) + BlocksFor(off + n1) && BlocksFor(off + n1) == BlocksFor(off + 1)
        && OthersKept(e0, With(P(), i, din), i) && Stored(e0, With(P(), i, din), i, s, t + more[..n1])
    {
      hide Built, Slot, Owned, Slack, Tight, SuperOk, Shape, OthersKept, Stored, NoHoles, Grows, Patched, CanPatch,
           Missing, BlocksFor;
      din, n1 := din0, 0;
      var fbn := off / BSIZE;
      if fbn >= MAXFILE {
        return Exited, din, 0;
      }
      ghost var e := With(P(), i, din);
      EndAllocated(e0, e, i, s, t);
      MissingAtEnd(e, i, off);
      MoreBlocks(off, off + 1);
      var x;
      x, din := MapBlock(i, din, fbn, off);
      if x.Exited? {
        return Exited, din, 0;
      }
      n1 := if |more| < (fbn + 1) * BSIZE - off then |more| else (fbn + 1) * BSIZE - off;
      ghost var mid := With(P(), i, din);
      TightStep(e, mid, i, off);
      PutChunk(i, din, off, more[..n1], x.value);
      TightPatch(mid, own, i, off, more[..n1]);
      WithinBlock(off, n1);
      FileSystem.ChunkStored(SB, e0, e, mid, own, i, s, t, more[..n1]);
      r := Ok(());
    }

    /** The loop of iappend, which keeps the inode in din. */
    method AppendLoop(i: nat, d: Dinode, bytes: seq<byte>) returns (r: Result<()>, din: Dinode, off: nat)
      requires Busy(i, d, d.size) && Tight(P(), i, d.size) && NoHoles(P())
      requires d == P().inodes[i] && With(P(), i, d) == P()
      requires OthersKept(P(), P(), i) && Stored(P(), P(), i, d.size, []) && d.size <= MAXFILE * BSIZE
      modifies `disk, `freeblock, `own
      ensures r.Exited? <==> TooMuch(old(freeblock), d.size, |bytes|)
      ensures r.Ok? ==>
        && off == d.size + |bytes| <= MAXFILE * BSIZE
        && freeblock + BlocksFor(d.size) == old(freeblock) + BlocksFor(off)
        && Busy(i, din, off) && Tight(With(P(), i, din), i, off)
        && din == d.(addrs := din.addrs) && P().inodes == old(P()).inodes
        && OthersKept(old(P()), With(P(), i, din), i) && Stored(old(P()), With(P(), i, din), i, d.size, bytes)
    {
      hide Built, Slot, Owned, Slack, Tight, SuperOk, Shape, OthersKept, Stored, NoHoles, Grows, Patched, CanPatch,
           Missing, BlocksFor;
      ghost var e0 := P();
      din, off := d, d.size;
      var p := 0;
      assert bytes[..0] == [];
      while p < |bytes|
        invariant 0 <= p <= |bytes| && off == d.size + p <= MAXFILE * BSIZE && |disk| == 1000
        invariant Busy(i, din, off) && Tight(With(P(), i, din), i, off)
        invariant din == d.(addrs := din.addrs) && P().inodes == e0.inodes
        invariant OthersKept(e0, With(P(), i, din), i) && Stored(e0, With(P(), i, din), i, d.size, bytes[..p])
        invariant freeblock + BlocksFor(d.size) == old(freeblock) + BlocksFor(off)
      {
        MoreBlocks(off + 1, d.size + |bytes|);
        var n1;
        r, din, n1 := AppendChunk(i, din, off, bytes[p..], e0, d.size, bytes[..p]);
        if r.Exited? {
          return;
        }
        assert bytes[..p] + bytes[p..][..n1] == bytes[..p + n1];
        off, p := off + n1, p + n1;
      }
      assert bytes[..p] == bytes;
      r := Ok(());
    }

    method Ialloc(typ: nat) returns (inum: nat)
      requires Valid() && freeinode < 200 && 0 < typ < 65536 && P().inodes[freeinode].typ == 0
      modifies `disk, `freeinode
      ensures Valid() && inum == old(freeinode) && freeinode == inum + 1
      ensures P() == old(P()).(inodes := old(P()).inodes[inum := Dinode(typ, 0, seq(NDIRECT + 1, _ => 0))])
      ensures Content(P(), inum) == []
      ensures forall j :: 0 <= j < 200 && j != inum ==> Content(P(), j) == Content(old(P()), j)
    {
      hide Built, Slot, Owned, SuperOk, Content, Inv, ByteAt, Slack, Tight;
      inum := freeinode;
      freeinode := freeinode + 1;
      ghost var v := P();
      FileSystem.FreshInv(SB, v, own, inum, typ);
      FreshSlack(v, own, inum, typ);
      FitsFresh(typ);
      Winode(inum, Dinode(typ, 0, seq(NDIRECT + 1, _ => 0)));
    }

    /** The start of main: zeroed sectors and the superblock. */
    constructor ()
      ensures Valid() && freeinode == 1 && freeblock == 16 && own == map[]
      ensures forall i :: 0 <= i < 200 ==> P().inodes[i].typ == 0 && Content(P(), i) == []
    {
      freeinode, freeblock, own := 1, 16, map[];
      disk := EmptyDisk();
      new;
      EmptyInv();
    }

    /** balloc(freeblock): the bitmap block. */
    method Balloc(used: nat)
      requires |disk| == 1000 && used < BPB && SuperOk(disk)
      modifies `disk
      ensures |disk| == 1000 && SuperOk(disk) && View(SB, disk) == Built(old(disk), used)
    {
      hide View;
      var buf := Zeros(BSIZE);
      ZeroBits();
      var i := 0;
      while i < used
        invariant 0 <= i <= used && |buf| == BSIZE
        invariant forall b :: 0 <= b < BPB ==> BitAt(buf, b) == (b < i)
      {
        hide BitAt, PutBit, Built;
        forall b | 0 <= b < BPB
          ensures BitAt(PutBit(buf, i, true), b) == (b < i + 1)
        {
          BitAtPut(buf, i, true, b);
        }
        buf := PutBit(buf, i, true);
        i := i + 1;
      }
      BitmapView(disk, used, buf);
      SuperKept(disk, 15, buf);
      disk := disk[15 := buf];
    }

    /** One round of main's loop over the files on the command line. */
    method AddFile(f: Input, ghost files: seq<Input>, ghost n: nat) returns (r: Result<()>)
      requires Valid() && n < |files| <= 198 && Holds(P(), files, n) && f == files[n] && freeinode == 2 + n
      requires freeblock == Total(files, n)
      modifies this
      ensures r.Ok? <==> Storable(f) && Total(files, n + 1) <= 1000
      ensures r.Ok? ==> Valid() && Holds(P(), files, n + 1) && freeinode == 3 + n && freeblock == Total(files, n + 1)
    {
      hide Built, Slot, Owned, Slack, Tight, SuperOk, Content, Inv, ByteAt, Directory.Entries, Directory.EncodeDirent,
           BlocksFor, Concat, Total, Nameable, NameOf;
      NextTotal(files, n);
      NoneYet(f.chunks);
      var shortname := Shorten(f.path);
      if SLASH in shortname {
        return Exited;
      }
      var inum := Ialloc(T_FILE);
      ghost var c := Content(P(), 1);
      r := Iappend(1, Directory.EncodeDirent(Directory.Dirent(inum, Directory.Field(shortname))));
      if r.Exited? {
        return;
      }
      RootGrows(c, files, n);
      ghost var root := P().inodes[1];
      ghost var bytes := Content(P(), 1);
      var k := 0;
      while k < |f.chunks|
        invariant 0 <= k <= |f.chunks| && r.Ok? && Valid() && freeinode == 3 + n
        invariant P().inodes[inum].typ == T_FILE && Content(P(), inum) == Concat(f.chunks[..k])
        invariant P().inodes[1] == root && Content(P(), 1) == bytes
        invariant forall j :: 2 <= j < 2 + n ==> P().inodes[j].typ == T_FILE && Content(P(), j) == Concat(files[j - 2].chunks)
        invariant forall j :: 3 + n <= j < 200 ==> P().inodes[j].typ == 0
        invariant freeblock + BlocksFor(|Concat(f.chunks)|) == Total(files, n + 1) + BlocksFor(|Concat(f.chunks[..k])|)
      {
        ConcatNext(f.chunks, k);
        MoreBlocks(|Concat(f.chunks[..k])| + |f.chunks[k]|, |Concat(f.chunks)|);
        r := Iappend(inum, f.chunks[k]);
        if r.Exited? {
          return;
        }
        k := k + 1;
      }
      assert f.chunks[..k] == f.chunks;
      FileSystem.InvParts(SB, P(), own, inum, 0);
    }

    /** main, from the root inode on.  The image holds the files; it is the kernel's invariant, with no
        hole in any file, exactly when the root's entries do not fill whole blocks. */
    method Populate(files: seq<Input>) returns (r: Result<()>)
      requires Valid() && freeinode == 1 && freeblock == 16 && |files| <= 198
      requires forall i :: 0 <= i < 200 ==> P().inodes[i].typ == 0
      modifies this
      ensures r.Ok? <==> Buildable(files)
      ensures r.Ok? ==>
        && |disk| == 1000 && SuperOk(disk) && 16 <= freeblock <= 1000 && freeblock == Total(files, |files|)
        && Finished(View(SB, disk), own, files, freeblock)
        && (HoleFree(View(SB, disk), 1) <==> |files| % 64 != 0)
        && (Inv(SB, View(SB, disk), own) <==> |files| % 64 != 0)
    {
      hide HoleFree, Total, Storable, Built, Slot, Owned, Slack, Tight, SuperOk, Content, Inv, ByteAt, Finished, View,
           Directory.Entries;
      var root := Ialloc(T_DIR);
      RootEmpty(P(), files);
      NoTotal(files);
      var n := 0;
      while n < |files|
        invariant 0 <= n <= |files| && Valid() && freeinode == 2 + n && Holds(P(), files, n)
        invariant freeblock == Total(files, n) && forall k :: 0 <= k < n ==> Storable(files[k])
      {
        TotalGrows(files, n + 1, |files|);
        r := AddFile(files[n], files, n);
        if r.Exited? {
          return;
        }
        n := n + 1;
      }
      var din := Rinode(1);
      ghost var v := P();
      assert din.size == 16 * n;
      var off := (din.size / BSIZE + 1) * BSIZE;
      assert v.bits == Used(freeblock) by { BuiltBits(disk, freeblock); }
      RoundRoot(v, own, files, freeblock, off);
      FileSystem.InvParts(SB, v, own, 1, 0);
      Winode(1, din.(size := off));
      WithResized(v, 1, din, off);
      WithSame(v, 1);
      Balloc(freeblock);
      r := Ok(());
    }
  }

  /** The superblock the kernel reads back. */
  predicate SuperOk(disk: seq<Block>) {
    |disk| > 1 && GetWords(disk[1], 0, 6) == [FSMAGIC, FSSIZE, 1000 - 16, NINODES, 2, 15]
  }

  /** The superblock, word by word: 1000 blocks, 984 of them for data, and 200 inodes from block 2, the bitmap in block 15. */
  lemma SuperOnDisk(disk: seq<Block>)
    requires SuperOk(disk)
    ensures
      var b := disk[1];
      && Four(b[0], b[1], b[2], b[3]) == 0x1020_3040 && Four(b[4], b[5], b[6], b[7]) == 1000
      && Four(b[8], b[9], b[10], b[11]) == 984 && Four(b[12], b[13], b[14], b[15]) == 200
      && Four(b[16], b[17], b[18], b[19]) == 2 && Four(b[20], b[21], b[22], b[23]) == 15
  {
    hide GetLE, Four;
    var b, ws := disk[1], GetWords(disk[1], 0, 6);
    Word(b, 0);
    Word(b, 4);
    Word(b, 8);
    Word(b, 12);
    Word(b, 16);
    Word(b, 20);
    assert ws[0] == FSMAGIC && ws[1] == FSSIZE && ws[2] == 984 && ws[3] == NINODES && ws[4] == 2 && ws[5] == 15;
  }

  /** The entry of file k on an image: inode 2 + k, and the name cut to 14 bytes. */
  lemma RootEntry(v: Fs, own: Owners, files: seq<Input>, freeblock: nat, k: nat, name: seq<byte>)
    requires k < |files| <= 198 && |v.inodes| == 200 && Finished(v, own, files, freeblock)
    requires SLASH !in name && 0 !in name && (files[k].path == name || files[k].path == Ascii("target/") + name)
    ensures k < |Directory.Entries(Content(v, 1))|
    ensures Directory.Entries(Content(v, 1))[k]
         == Directory.Dirent(2 + k, if |name| < 14 then name + Zeros(14 - |name|) else name[..14])
  {
    hide Directory.Entries, Content, HoleFree, Owned, Shape, Directory.Field, NameOf, Concat;
    NamedAs(files[k].path, name);
  }

  lemma OkAlloc(e: Fs, own: Owners, i: nat, k: nat, freeblock: nat, disk: seq<Block>, din: Dinode)
    requires |disk| == 1000 && 16 <= freeblock < 1000 && i < 200
    requires k < NSLOT && e == With(Built(disk, freeblock), i, din)
    requires Shape(SB, e) && Owned(SB, e, own) && Slot(e, i, k) == 0 && (k > INDIRECT ==> Slot(e, i, INDIRECT) != 0)
    ensures CanAlloc(SB, e, own, i, k, freeblock) && |din.addrs| == NDIRECT + 1
  {
    hide View, Slot, Owned;
    assert e.inodes[i] == din;
  }

  lemma AllocAll(e: Fs, own: Owners, i: nat, k: nat, b: nat, off: nat)
    requires CanAlloc(SB, e, own, i, k, b) && Slack(e, i, off)
    ensures var e' := AllocSlot(e, i, k, b);
            && Shape(SB, e') && Owned(SB, e', own[b := (i, k)]) && Grows(e, e', i) && Slack(e', i, off)
            && Slot(e', i, k) == b
            && forall k' :: 0 <= k' < NSLOT && k' != k ==> Slot(e', i, k') == Slot(e, i, k')
  {
    hide AllocSlot, Slot, Owned, Grows, Slack;
    AllocKeepsOwned(SB, e, own, i, k, b);
    AllocGrows(SB, e, own, i, k, b);
    AllocSlack(SB, e, own, i, k, b, off);
    forall k' | 0 <= k' < NSLOT
      ensures Slot(AllocSlot(e, i, k, b), i, k') == if k' == k then b else Slot(e, i, k')
    {
      AllocSlots(SB, e, own, i, k, b, i, k');
    }
  }

  /** The indirect block of the inode in hand lies among the blocks handed out. */
  lemma IndirectAt(disk: seq<Block>, freeblock: nat, i: nat, din: Dinode, own: Owners, j: nat)
    requires |disk| == 1000 && freeblock <= 1000 && i < 200 && j < NINDIRECT
    requires Shape(SB, With(Built(disk, freeblock), i, din)) && Owned(SB, With(Built(disk, freeblock), i, din), own)
    requires Slot(With(Built(disk, freeblock), i, din), i, INDIRECT) != 0
    ensures |din.addrs| == NDIRECT + 1 && 16 <= din.addrs[INDIRECT] < freeblock
    ensures Slot(With(Built(disk, freeblock), i, din), i, 13 + j) == Entry(disk[din.addrs[INDIRECT]], j)
  {
    hide Bit, Inode, Entry;
    var e := With(Built(disk, freeblock), i, din);
    assert e.inodes[i] == din;
    FileSystem.OwnedSlot(SB, e, own, i, INDIRECT);
  }

  lemma SlotAddr(disk: seq<Block>, freeblock: nat, i: nat, din: Dinode, own: Owners)
    requires |disk| == 1000 && i < 200 && Shape(SB, With(Built(disk, freeblock), i, din))
    ensures |din.addrs| == NDIRECT + 1
    ensures forall k :: 0 <= k <= INDIRECT ==> Slot(With(Built(disk, freeblock), i, din), i, k) == din.addrs[k]
  {
    hide View;
    assert With(Built(disk, freeblock), i, din).inodes[i] == din;
  }

  lemma BuiltInodes(disk: seq<Block>, freeblock: nat, a: nat, blk: Block)
    requires |disk| == 1000 && 16 <= a < 1000
    ensures Built(disk[a := blk], freeblock + 1).inodes == Built(disk, freeblock).inodes
  {
    hide Bit, Inode;
    DataWrite(SB, disk, a, blk);
  }

  lemma BuiltAgain(disk: seq<Block>, f: nat, g: nat)
    requires |disk| == 1000
    ensures Built(disk, f).inodes == Built(disk, g).inodes
  {
  }

  lemma SuperKept(disk: seq<Block>, a: nat, blk: Block)
    requires SuperOk(disk) && 2 <= a < |disk|
    ensures SuperOk(disk[a := blk])
  {
  }

  lemma SlotBlock(disk: seq<Block>, freeblock: nat, i: nat, din: Dinode, own: Owners, k: nat)
    requires |disk| == 1000 && freeblock <= 1000 && i < 200 && k < NSLOT
    requires Shape(SB, With(Built(disk, freeblock), i, din)) && Owned(SB, With(Built(disk, freeblock), i, din), own)
    requires Slot(With(Built(disk, freeblock), i, din), i, k) != 0
    ensures 16 <= Slot(With(Built(disk, freeblock), i, din), i, k) < freeblock
  {
    hide View, Slot;
    FileSystem.OwnedSlot(SB, With(Built(disk, freeblock), i, din), own, i, k);
  }

  lemma PatchBuilt(disk: seq<Block>, freeblock: nat, i: nat, din: Dinode, own: Owners, off: nat, u: seq<byte>)
    requires |disk| == 1000 && i < 200
    requires CanPatch(SB, With(Built(disk, freeblock), i, din), own, i, off, u)
    ensures var e := With(Built(disk, freeblock), i, din);
            var x := Addr(e, i, off / BSIZE);
            With(Built(disk[x := Overwrite(disk[x], off % BSIZE, u)], freeblock), i, din) == Patched(e, i, off, u)
  {
    hide Bit, Inode, Slot, Owned, Overwrite;
    var x := Addr(With(Built(disk, freeblock), i, din), i, off / BSIZE);
    DataWrite(SB, disk, x, Overwrite(disk[x], off % BSIZE, u));
    FileSystem.DataView(SB, disk, x);
  }

  lemma BuiltInodesHere(disk: seq<Block>, freeblock: nat, a: nat, blk: Block)
    requires |disk| == 1000 && 16 <= a < 1000
    ensures Built(disk[a := blk], freeblock).inodes == Built(disk, freeblock).inodes
  {
    hide Bit, Inode;
    DataWrite(SB, disk, a, blk);
  }

  lemma WithSame(v: Fs, i: nat)
    requires i < |v.inodes|
    ensures With(v, i, v.inodes[i]) == v
  {
    assert v.inodes[i := v.inodes[i]] == v.inodes;
  }

  lemma SlackSame(v: Fs, i: nat)
    requires |v.inodes| == NINODES && i < NINODES
    ensures Slack(v, NINODES, 0) <==> Slack(v, i, v.inodes[i].size)
    ensures Tight(v, NINODES, 0) <==> Tight(v, i, v.inodes[i].size)
  {
    hide ByteAt, Slot;
  }

  lemma SlackDone(e: Fs, i: nat, off: nat)
    requires |e.inodes| == NINODES && i < NINODES && Slack(e, i, off) && Tight(e, i, off) && e.inodes[i].size <= off
    ensures Slack(Resized(e, i, off), NINODES, 0) && Tight(Resized(e, i, off), NINODES, 0)
  {
    hide ByteAt, Slot;
    ResizedSlots(e, i, off);
    var r := Resized(e, i, off);
    forall j, bn | 0 <= j < |r.inodes| && 0 <= bn < MAXFILE && r.inodes[j].size <= bn * BSIZE
      ensures Addr(r, j, bn) == 0
    {
      assert Slot(r, j, SlotOf(bn)) == Slot(e, j, SlotOf(bn));
      assert Addr(e, j, bn) == 0;
    }
  }

  lemma SpliceEnd(s: seq<byte>, t: seq<byte>)
    ensures Splice(s, |s|, t) == s + t
  {
  }

  lemma WithResized(v: Fs, i: nat, d: Dinode, off: nat)
    requires i < |v.inodes| && d.size <= off
    ensures With(v, i, d.(size := off)) == Resized(With(v, i, d), i, off)
  {
  }

  lemma FitsFresh(typ: nat)
    requires typ < 65536
    ensures Fits(Dinode(typ, 0, seq(NDIRECT + 1, _ => 0)))
  {
  }

  lemma FreshSlack(v: Fs, own: Owners, i: nat, typ: nat)
    requires Inv(SB, v, own) && i < 200 && v.inodes[i].typ == 0
    requires Slack(v, NINODES, 0) && Tight(v, NINODES, 0) && typ < 65536
    ensures var v' := v.(inodes := v.inodes[i := Dinode(typ, 0, seq(NDIRECT + 1, _ => 0))]);
            Slack(v', NINODES, 0) && Tight(v', NINODES, 0)
  {
    hide Entry;
    var v' := v.(inodes := v.inodes[i := Dinode(typ, 0, seq(NDIRECT + 1, _ => 0))]);
    forall j: nat, k: nat | j < 200 && k < NSLOT
      ensures Slot(v', j, k) == Slot(v, j, k) && (j == i ==> Slot(v', j, k) == 0)
    {
    }
    hide Slot;
    forall j, p | 0 <= j < 200 && 0 <= p < MAXFILE * BSIZE && v'.inodes[j].size <= p
      ensures ByteAt(v', j, p) == 0
    {
      assert SlotOf(p / BSIZE) < NSLOT;
      assert j != i ==> ByteAt(v, j, p) == 0;
    }
    forall j, bn | 0 <= j < 200 && 0 <= bn < MAXFILE && v'.inodes[j].size <= bn * BSIZE
      ensures Addr(v', j, bn) == 0
    {
      assert SlotOf(bn) < NSLOT;
      assert j != i ==> Addr(v, j, bn) == 0;
    }
  }

  // ---------- the empty image and the bitmap ----------

  function EmptyDisk(): (d: seq<Block>)
    ensures |d| == 1000
  {
    seq(1000, _ => Zeros(BSIZE))[1 := PutWords(Zeros(BSIZE), 0, [FSMAGIC, FSSIZE, 1000 - 16, NINODES, 2, 15])]
  }

  lemma ZeroDinode(s: nat)
    requires s < IPB
    ensures ReadDinode(Zeros(BSIZE), s) == Dinode(0, 0, seq(NDIRECT + 1, _ => 0))
  {
    hide GetLE;
    var z, o := Zeros(BSIZE), DINODE * s;
    GetZero(z, o, 2);
    GetZero(z, o + 8, 4);
    forall k | 0 <= k <= NDIRECT
      ensures GetLE(z, o + 12 + 4 * k, 4) == 0
    {
      GetZero(z, o + 12 + 4 * k, 4);
    }
    assert GetWords(z, o + 12, NDIRECT + 1) == seq(NDIRECT + 1, _ => 0);
  }

  lemma SuperWritten()
    ensures SuperOk(EmptyDisk())
  {
    hide GetLE, PutWords;
    var ws := [FSMAGIC, FSSIZE, 1000 - 16, NINODES, 2, 15];
    forall k | 0 <= k < 6
      ensures GetLE(PutWords(Zeros(BSIZE), 0, ws), 4 * k, 4) == ws[k]
    {
      GetPutWords(Zeros(BSIZE), 0, ws, k);
    }
    assert GetWords(EmptyDisk()[1], 0, 6) == ws;
  }

  lemma EmptyInodes(i: nat)
    requires i < 200
    ensures Built(EmptyDisk(), 16).inodes[i] == Dinode(0, 0, seq(NDIRECT + 1, _ => 0))
  {
    hide ReadDinode, PutWords;
    FileSystem.InodeView(SB, EmptyDisk(), i);
    ZeroDinode(i % IPB);
  }

  lemma EmptyInv()
    ensures var v := Built(EmptyDisk(), 16);
            && Inv(SB, v, map[]) && Slack(v, NINODES, 0) && Tight(v, NINODES, 0) && SuperOk(EmptyDisk())
            && (forall i :: 0 <= i < 200 ==> v.inodes[i].typ == 0 && Content(v, i) == [])
    ensures forall b :: 16 <= b < 1000 ==> EmptyDisk()[b] == Zeros(BSIZE)
  {
    hide Bit, Inode, PutWords, Entry;
    var v := Built(EmptyDisk(), 16);
    SuperWritten();
    forall i | 0 <= i < 200
      ensures v.inodes[i] == Dinode(0, 0, seq(NDIRECT + 1, _ => 0))
    {
      EmptyInodes(i);
    }
    assert Nmeta(SB) == 16;
    forall i: nat, k: nat
      ensures Slot(v, i, k) == 0
    {
    }
    hide Slot;
    forall i, p | 0 <= i < 200 && 0 <= p
      ensures Addr(v, i, p / BSIZE) == 0 && ByteAt(v, i, p) == 0
    {
    }
  }

  lemma ZeroBits()
    ensures forall b :: 0 <= b < BPB ==> !BitAt(Zeros(BSIZE), b)
  {
    forall b | 0 <= b < BPB
      ensures !BitAt(Zeros(BSIZE), b)
    {
      ZeroTest(b % 8);
    }
  }

  lemma {:induction false} ZeroTest(k: nat)
    ensures !TestBit(0, k)
  {
    if k > 0 { ZeroTest(k - 1); }
  }

  lemma BitmapView(disk: seq<Block>, used: nat, buf: Block)
    requires |disk| == 1000 && forall b :: 0 <= b < BPB ==> BitAt(buf, b) == (b < used)
    ensures View(SB, disk[15 := buf]) == Built(disk, used)
  {
    hide BitAt, ReadDinode;
    var d := disk[15 := buf];
    assert Nmeta(SB) == 16;
    assert View(SB, d).bits == Used(used);
    assert View(SB, d).inodes == View(SB, disk).inodes;
    assert View(SB, d).data == View(SB, disk).data;
  }

  // ---------- the finished image ----------

  /** What main leaves: the blocks from 16 up to freeblock each have one owner, file k is inode 2 + k
      and holds its pieces one after the other, and the root lists the files and then unused entries. */
  ghost predicate Finished(v: Fs, own: Owners, files: seq<Input>, freeblock: nat)
    requires |files| <= 198 && |v.inodes| == 200
  {
    && Shape(SB, v) && Owned(SB, v, own)
    && (forall b :: 16 <= b < 1000 ==> (b in own <==> b < freeblock))
    && (forall j :: 2 <= j < 2 + |files| ==>
          v.inodes[j].typ == 2 && HoleFree(v, j) && Content(v, j) == Concat(files[j - 2].chunks))
    && v.inodes[1].typ == 1 && v.inodes[1].size == (16 * |files| / 1024 + 1) * 1024
    && |Directory.Entries(Content(v, 1))| >= |files|
    && (forall k :: 0 <= k < |files| ==> Directory.Entries(Content(v, 1))[k] == Listed(files)[k])
    && (forall k :: |files| <= k < |Directory.Entries(Content(v, 1))| ==> Directory.Entries(Content(v, 1))[k].inum == 0)
  }

  lemma RootEmpty(v: Fs, files: seq<Input>)
    requires |files| <= 198 && |v.inodes| == 200 && v.inodes[1].typ == T_DIR && Content(v, 1) == []
    requires forall j :: 2 <= j < 200 ==> v.inodes[j].typ == 0
    ensures Holds(v, files, 0)
  {
    assert files[..0] == [];
  }

  /** Zero bytes at the end of a directory are unused entries. */
  lemma EntriesPad(c: seq<byte>, m: nat)
    requires |c| % 16 == 0
    ensures |Directory.Entries(c + Zeros(16 * m))| == |c| / 16 + m
    ensures forall k :: 0 <= k < |c| / 16 ==> Directory.Entries(c + Zeros(16 * m))[k] == Directory.Entries(c)[k]
    ensures forall k :: |c| / 16 <= k < |c| / 16 + m ==> Directory.Entries(c + Zeros(16 * m))[k].inum == 0
  {
    hide Directory.DecodeDirent;
    var d := c + Zeros(16 * m);
    forall k | 0 <= k < |c| / 16
      ensures Directory.Raw(d, k) == Directory.Raw(c, k)
    {
    }
    forall k | |c| / 16 <= k < |c| / 16 + m
      ensures Directory.DecodeDirent(Directory.Raw(d, k)).inum == 0
    {
      assert Directory.Raw(d, k) == Zeros(16);
      ZeroEntry();
    }
  }

  lemma ZeroEntry()
    ensures Directory.DecodeDirent(Zeros(16)).inum == 0
  {
    GetZero(Zeros(16), 0, 2);
  }

  lemma RoundContent(v: Fs, off: nat)
    requires |v.inodes| == 200 && Slack(v, NINODES, 0) && v.inodes[1].size <= off <= MAXFILE * BSIZE
    ensures Content(Resized(v, 1, off), 1) == Content(v, 1) + Zeros(off - v.inodes[1].size)
    ensures forall j :: 0 <= j < 200 && j != 1 ==> Content(Resized(v, 1, off), j) == Content(v, j)
  {
    ResizedSlots(v, 1, off);
  }

  /** The root gets a hole exactly when its bytes filled whole blocks, no bytes included. */
  lemma RoundHoles(v: Fs, s: nat, off: nat)
    requires |v.inodes| == 200 && v.inodes[1].size == s && HoleFree(v, 1) && Tight(v, NINODES, 0)
    requires off == (s / BSIZE + 1) * BSIZE <= MAXFILE * BSIZE
    ensures HoleFree(Resized(v, 1, off), 1) <==> s % BSIZE != 0
  {
    ResizedSlots(v, 1, off);
    hide Slot;
    var u := Resized(v, 1, off);
    if s % BSIZE == 0 {
      assert Addr(v, 1, s / BSIZE) == 0;
      assert Addr(u, 1, s / BSIZE) == 0;
    } else {
      forall p | 0 <= p < off
        ensures Addr(u, 1, p / BSIZE) != 0
      {
        var q := if p < s then p else s - 1;
        assert q / BSIZE == p / BSIZE;
        assert Addr(v, 1, q / BSIZE) != 0;
      }
    }
  }

  lemma RoundInv(v: Fs, own: Owners, off: nat)
    requires Inv(SB, v, own) && v.inodes[1].size <= off <= MAXFILE * BSIZE
    ensures forall j :: 0 <= j < 200 && j != 1 ==> HoleFree(Resized(v, 1, off), j)
    ensures Shape(SB, Resized(v, 1, off)) && Owned(SB, Resized(v, 1, off), own)
    ensures Inv(SB, Resized(v, 1, off), own) <==> HoleFree(Resized(v, 1, off), 1)
  {
    hide Slot, HoleFree, Owned, Shape;
    ShapeInodes(v);
    ResizedSlots(v, 1, off);
    ResizedOwned(SB, v, own, 1, off);
    forall j | 0 <= j < 200 && j != 1
      ensures HoleFree(Resized(v, 1, off), j)
    {
      OtherHoles(v, off, j);
    }
  }

  lemma ShapeInodes(v: Fs)
    requires Shape(SB, v)
    ensures |v.inodes| == 200
  {
  }

  lemma OtherHoles(v: Fs, off: nat, j: nat)
    requires |v.inodes| == 200 && j < 200 && j != 1 && HoleFree(v, j)
    ensures HoleFree(Resized(v, 1, off), j)
  {
    hide Slot;
    ResizedSlots(v, 1, off);
    var u := Resized(v, 1, off);
    forall p | 0 <= p < u.inodes[j].size
      ensures Addr(u, j, p / BSIZE) != 0
    {
      assert Addr(v, j, p / BSIZE) != 0;
    }
  }

  /** Rounding the root's size up to the next block. */
  lemma RoundRoot(v: Fs, own: Owners, files: seq<Input>, freeblock: nat, off: nat)
    requires |v.inodes| == 200 && |files| <= 198 && Holds(v, files, |files|)
    requires v.bits == Used(freeblock) && 16 <= freeblock <= 1000
    requires Inv(SB, v, own) && Slack(v, NINODES, 0) && Tight(v, NINODES, 0)
    requires off == (16 * |files| / BSIZE + 1) * BSIZE
    ensures Finished(Resized(v, 1, off), own, files, freeblock)
    ensures HoleFree(Resized(v, 1, off), 1) <==> |files| % 64 != 0
    ensures Inv(SB, Resized(v, 1, off), own) <==> |files| % 64 != 0
  {
    hide Slot, ByteAt, Directory.Entries, Slack, Tight, HoleFree, Owned, Finished, Content, Shape;
    var s := 16 * |files|;
    RootSize(v, files, off);
    RoundHoles(v, s, off);
    RoundInv(v, own, off);
    RoundFinished(v, own, files, freeblock, off);
  }

  lemma RootSize(v: Fs, files: seq<Input>, off: nat)
    requires |v.inodes| == 200 && |files| <= 198 && Holds(v, files, |files|) && NoHoles(v)
    requires off == (16 * |files| / BSIZE + 1) * BSIZE
    ensures v.inodes[1].size == 16 * |files| <= off <= MAXFILE * BSIZE && off % 16 == 0 && HoleFree(v, 1)
    ensures 16 * |files| % BSIZE != 0 <==> |files| % 64 != 0
  {
    hide HoleFree, Directory.Entries, ByteAt;
  }

  lemma RoundFinished(v: Fs, own: Owners, files: seq<Input>, freeblock: nat, off: nat)
    requires |v.inodes| == 200 && |files| <= 198 && Holds(v, files, |files|)
    requires v.bits == Used(freeblock) && 16 <= freeblock <= 1000
    requires Inv(SB, v, own) && Slack(v, NINODES, 0)
    requires off == (16 * |files| / BSIZE + 1) * BSIZE
    ensures Finished(Resized(v, 1, off), own, files, freeblock)
  {
    hide Slot, ByteAt, Directory.Entries, Slack, HoleFree, Owned, Content, Shape, Zeros, Listed, Used;
    RootSize(v, files, off);
    assert files[..|files|] == files;
    RoundContent(v, off);
    RootEntries(Content(v, 1), files, off - 16 * |files|);
    RoundInv(v, own, off);
    forall b | 16 <= b < 1000
      ensures b in own <==> b < freeblock
    {
      OwnedKeys(v, own, freeblock, b);
    }
  }

  /** The root's entries, with zeros after them. */
  lemma RootEntries(c: seq<byte>, files: seq<Input>, m: nat)
    requires |files| <= 198 && |c| == 16 * |files| && Directory.Entries(c) == Listed(files) && m % 16 == 0
    ensures
      var es := Directory.Entries(c + Zeros(m));
      && |es| >= |files| && (forall k :: 0 <= k < |files| ==> es[k] == Listed(files)[k])
      && forall k :: |files| <= k < |es| ==> es[k].inum == 0
  {
    hide Directory.Entries;
    EntriesPad(c, m / 16);
    assert Zeros(16 * (m / 16)) == Zeros(m);
  }

  lemma BuiltBits(disk: seq<Block>, freeblock: nat)
    requires |disk| == 1000
    ensures Built(disk, freeblock).bits == Used(freeblock)
  {
  }

  lemma OwnedKeys(v: Fs, own: Owners, freeblock: nat, b: nat)
    requires Owned(SB, v, own) && v.bits == Used(freeblock) && 16 <= b < 1000
    ensures b in own <==> b < freeblock
  {
    assert Nmeta(SB) == 16;
  }
}
