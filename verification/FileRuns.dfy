/** Whole runs of the file system: a machine that starts from an image built by mkfs, and any list of
    operations on its files, agree with plain byte sequences kept by inode number and a table of
    open files. */
module FileRuns {
  import opened Bytes
  import opened BufferCache
  import opened FsLayout
  import opened Ownership
  import opened FileSystem
  import Mkfs

  /** A file as its users see it; type 0 is no file. */
  datatype AFile = AFile(typ: nat, bytes: seq<byte>)

  /** An entry of the in-memory inode table: which inode it names, and for how many users. */
  datatype Handle = Handle(inum: nat, ref: nat)

  const Unused := Handle(0, 0)

  datatype World = World(files: seq<AFile>, handles: seq<Handle>)

  /** Create and Open answer with the index of an entry, which the other operations take. */
  datatype Op =
    | Create(typ: nat)
    | Open(inum: nat)
    | Write(x: nat, off: nat, src: seq<byte>)
    | Read(x: nat, off: nat, n: nat)
    | Truncate(x: nat)
    | Close(x: nat)

  datatype Out = Number(n: int) | Bytes(bytes: seq<byte>)

  /** What the kernel's own callers respect: entries are used only while they are open. */
  predicate Allowed(w: World, op: Op) {
    match op
    case Create(typ) => 0 < typ < 65536
    case Open(inum) => inum < |w.files|
    case Write(x, off, src) => IsOpen(w, x) && off < UINT && |src| < UINT
    case Read(x, off, n) => IsOpen(w, x) && off < UINT && n < UINT
    case Truncate(x) => IsOpen(w, x)
    case Close(x) => IsOpen(w, x)
  }

  predicate IsOpen(w: World, x: nat) {
    x < |w.handles| && w.handles[x].ref > 0 && w.handles[x].inum < |w.files|
  }

  // ---------- the specification ----------

  /** The lowest unused inode number from i up. */
  function FirstFree(files: seq<AFile>, i: nat): (k: nat)
    ensures k >= i && (forall j :: i <= j < k && j < |files| ==> files[j].typ != 0)
    ensures k < |files| ==> files[k].typ == 0
    decreases |files| - i
  {
    if i < |files| && files[i].typ != 0 then FirstFree(files, i + 1) else i
  }

  /** The entry open on inode inum, from entry i up; |hs| when there is none. */
  function Holder(hs: seq<Handle>, inum: nat, i: nat): (k: nat)
    requires i <= |hs|
    ensures i <= k <= |hs|
    ensures k < |hs| ==> hs[k].ref > 0 && hs[k].inum == inum
    ensures forall j :: i <= j < k ==> !(hs[j].ref > 0 && hs[j].inum == inum)
    decreases |hs| - i
  {
    if i == |hs| || (hs[i].ref > 0 && hs[i].inum == inum) then i else Holder(hs, inum, i + 1)
  }

  function FirstUnused(hs: seq<Handle>, i: nat): (k: nat)
    requires i <= |hs|
    ensures i <= k <= |hs|
    ensures k < |hs| ==> hs[k].ref == 0
    ensures forall j :: i <= j < k ==> hs[j].ref > 0
    decreases |hs| - i
  {
    if i == |hs| || hs[i].ref == 0 then i else FirstUnused(hs, i + 1)
  }

  /** The entry iget answers with; |hs| when it panics. */
  function Pick(hs: seq<Handle>, inum: nat): (k: nat)
    ensures k <= |hs|
  {
    if Holder(hs, inum, 0) < |hs| then Holder(hs, inum, 0) else FirstUnused(hs, 0)
  }

  function Opened(w: World, inum: nat): (World, Out) {
    var x := Pick(w.handles, inum);
    if x < |w.handles| then
      (w.(handles := w.handles[x := Handle(inum, w.handles[x].ref + 1)]), Number(x))
    else (w, Number(-1))
  }

  function Step(w: World, op: Op): (World, Out) {
    match op
    case Create(typ) =>
      var i := FirstFree(w.files, 1);
      if i < |w.files| then Opened(w.(files := w.files[i := AFile(typ, [])]), i) else (w, Number(-1))
    case Open(inum) => Opened(w, inum)
    case Write(x, off, src) =>
      if !IsOpen(w, x) then (w, Number(-1))
      else
        var i := w.handles[x].inum;
        if off > |w.files[i].bytes| || off + |src| > MAXFILE * BSIZE then (w, Number(-1))
        else (w.(files := w.files[i := w.files[i].(bytes := Splice(w.files[i].bytes, off, src))]), Number(|src|))
    case Read(x, off, n) =>
      if !IsOpen(w, x) then (w, Number(-1)) else (w, Bytes(Slice(w.files[w.handles[x].inum].bytes, off, n)))
    case Truncate(x) =>
      if !IsOpen(w, x) then (w, Number(-1))
      else
        var i := w.handles[x].inum;
        (w.(files := w.files[i := w.files[i].(bytes := [])]), Number(0))
    case Close(x) =>
      if !IsOpen(w, x) then (w, Number(-1))
      else
        var h := w.handles[x];
        (w.(handles := w.handles[x := if h.ref == 1 then Unused else h.(ref := h.ref - 1)]), Number(0))
  }

  /** Up to n bytes from offset off on. */
  function Slice(bytes: seq<byte>, off: nat, n: nat): seq<byte> {
    if off > |bytes| || off + n >= UINT then []
    else if off + n > |bytes| then bytes[off..]
    else bytes[off..off + n]
  }

  function Steps(w: World, ops: seq<Op>): (World, seq<Out>) {
    if ops == [] then (w, [])
    else
      var before := Steps(w, ops[..|ops| - 1]);
      var last := Step(before.0, ops[|ops| - 1]);
      (last.0, before.1 + [last.1])
  }

  /** Each operation of the run is allowed when it is its turn. */
  ghost predicate Disciplined(w: World, ops: seq<Op>) {
    forall k :: 0 <= k < |ops| ==> Allowed(Steps(w, ops[..k]).0, ops[k])
  }

  /** The operation needs an inode or an entry that is not there, at which the kernel panics. */
  predicate Stuck(w: World, op: Op) {
    match op
    case Create(_) =>
      FirstFree(w.files, 1) >= |w.files| || Pick(w.handles, FirstFree(w.files, 1)) >= |w.handles|
    case Open(inum) => Pick(w.handles, inum) >= |w.handles| || (inum < |w.files| && w.files[inum].typ == 0)
    case _ => false
  }

  /** There are fewer free blocks than the range to be written lacks, at which the kernel panics, too. */
  ghost predicate Starved(v: Fs, w: World, op: Op) {
    op.Write? && Fitting(w, op.x, op.off, op.src)
    && ClearBits(v.bits) < Lacks(v, w.handles[op.x].inum, op.off / BSIZE, EndBlock(op.off, |op.src|))
  }

  // ---------- the machine ----------

  /** What the device holds. */
  ghost function Files(v: Fs): (r: seq<AFile>)
    ensures |r| == |v.inodes|
  {
    seq(|v.inodes|, i requires 0 <= i < |v.inodes| => AFile(v.inodes[i].typ, Content(v, i)))
  }

  function HandleOf(m: MInode): Handle { if m.ref > 0 then Handle(m.inum, m.ref) else Unused }

  function Handles(it: seq<MInode>): (r: seq<Handle>)
    ensures |r| == |it| && forall s :: 0 <= s < |it| ==> r[s] == HandleOf(it[s])
  {
    seq(|it|, s requires 0 <= s < |it| => HandleOf(it[s]))
  }

  ghost function W(fs: FileSys): World
    reads fs, fs.bc
  {
    if Geometry(fs.sb) && |fs.bc.disk| == fs.sb.size then World(Files(fs.V()), Handles(fs.itable)) else World([], [])
  }

  /** No buffer is held, and every inode in use is loaded. */
  ghost predicate Running(fs: FileSys)
    reads fs, fs.bc
  {
    fs.Valid() && fs.bc.Held() == map[] && Loaded(fs.itable)
  }

  predicate Loaded(it: seq<MInode>) {
    forall s :: 0 <= s < |it| && it[s].ref > 0 ==> it[s].valid
  }

  // ---------- single operations ----------

  lemma {:induction false} FirstFreeIs(files: seq<AFile>, i: nat, k: nat)
    requires i <= k && (forall j :: i <= j < k && j < |files| ==> files[j].typ != 0)
    requires k < |files| ==> files[k].typ == 0
    requires k >= |files| ==> k == |files| || k == i
    ensures FirstFree(files, i) == k
    decreases k - i
  {
    if i < k { FirstFreeIs(files, i + 1, k); }
  }

  /** iget picks the entry the specification says. */
  lemma PickIs(sb: Super, it: seq<MInode>, inum: nat, r: int)
    requires Table(sb, it) && -1 <= r < NINODE
    requires r < 0 ==> forall s :: 0 <= s < NINODE ==> it[s].ref > 0 && it[s].inum != inum
    requires r >= 0 && it[r].ref > 0 ==> it[r].inum == inum
    requires r >= 0 && it[r].ref == 0 ==>
      && (forall s :: 0 <= s < r ==> it[s].ref > 0)
      && (forall s :: 0 <= s < NINODE && it[s].ref > 0 ==> it[s].inum != inum)
    ensures Pick(Handles(it), inum) == if r < 0 then NINODE else r
  {
    var hs := Handles(it);
    var h, u := Holder(hs, inum, 0), FirstUnused(hs, 0);
    if h < NINODE {
      assert it[h].ref > 0 && it[h].inum == inum;
    } else if r >= 0 {
      assert hs[r].ref == 0;
    }
  }

  /** An inode in use is a file on the device. */
  lemma OpenSame(fs: FileSys, x: nat)
    requires fs.Open(x)
    ensures fs.itable[x].inum < fs.sb.ninodes == |fs.V().inodes|
    ensures AsDinode(fs.itable[x]) == fs.V().inodes[fs.itable[x].inum] && fs.itable[x].typ != 0
  {
    hide Cache.Valid, Inv;
  }

  lemma OpenFile(fs: FileSys, x: nat)
    requires Running(fs) && IsOpen(W(fs), x)
    ensures fs.Open(x) && |fs.itable| == NINODE && W(fs).handles[x] == Handle(fs.itable[x].inum, fs.itable[x].ref)
  {
    hide Cache.Valid, Inv, View, Shadows, Files;
  }

  /** iget. */
  method Claim(fs: FileSys, inum: nat) returns (x: nat, panicked: bool)
    requires Running(fs) && inum < fs.sb.ninodes
    modifies fs`itable
    ensures panicked <==> Pick(Handles(old(fs.itable)), inum) == |old(fs.itable)|
    ensures !panicked ==>
      && fs.Valid() && x < NINODE && x == Pick(Handles(old(fs.itable)), inum)
      && fs.itable == old(fs.itable)[x := fs.itable[x]]
      && fs.itable[x].inum == inum && fs.itable[x].ref == old(fs.itable)[x].ref + 1
      && (fs.itable[x].valid <==> old(fs.itable)[x].ref > 0)
      && (old(fs.itable)[x].ref > 0 ==> old(fs.itable)[x].inum == inum)
  {
    hide Cache.Valid, View, Inv, HeldIn, StaleIn, Shadows;
    ghost var it := fs.itable;
    var r := fs.Iget(ROOTDEV, inum);
    PickIs(fs.sb, it, inum, r);
    if r < 0 {
      return 0, true;
    }
    return r, false;
  }

  lemma HandlesAfter(it: seq<MInode>, x: nat, m: MInode)
    requires x < |it|
    ensures Handles(it[x := m]) == Handles(it)[x := HandleOf(m)]
  {
  }

  method DoOpen(fs: FileSys, inum: nat) returns (out: Out, panicked: bool)
    requires Running(fs) && inum < fs.sb.ninodes
    modifies fs`itable, fs.bc
    ensures panicked <==> Stuck(old(W(fs)), Open(inum))
    ensures !panicked ==> Running(fs) && Step(old(W(fs)), Open(inum)) == (W(fs), out)
  {
    hide Cache.Valid, View, Inv, HeldIn, StaleIn, Shadows, Pick, Content;
    ghost var w, it := W(fs), fs.itable;
    var x;
    x, panicked := Claim(fs, inum);
    if panicked {
      return Number(-1), true;
    }
    ghost var it1 := fs.itable;
    if it[x].ref > 0 {
      OpenSame(fs, x);
    }
    var ok := fs.Ivalid(x);
    if ok.Panic? {
      return Number(-1), true;
    }
    OpenSame(fs, x);
    HandlesAfter(it, x, fs.itable[x]);
    assert fs.itable == it[x := fs.itable[x]];
    out := Number(x);
  }

  /** No entry in use names an unused inode. */
  lemma NoneOnFree(fs: FileSys)
    requires Running(fs)
    ensures forall s :: 0 <= s < |fs.itable| && fs.itable[s].ref > 0 && fs.itable[s].inum < |W(fs).files| ==>
              W(fs).files[fs.itable[s].inum].typ != 0
  {
    hide Cache.Valid, Inv, View;
  }

  method DoCreate(fs: FileSys, typ: nat) returns (out: Out, panicked: bool)
    requires Running(fs) && 0 < typ < 65536
    modifies fs`itable, fs`own, fs.bc
    ensures panicked <==> Stuck(old(W(fs)), Create(typ))
    ensures !panicked ==> Running(fs) && Step(old(W(fs)), Create(typ)) == (W(fs), out)
  {
    hide Cache.Valid, View, Inv, HeldIn, StaleIn, Shadows, Content, FirstFree, Pick;
    ghost var w, it := W(fs), fs.itable;
    FilesCount(fs);
    NoneOnFree(fs);
    var r := fs.Ialloc(typ);
    if r.Panic? {
      if FirstFree(w.files, 1) < |w.files| {
        PickIs(fs.sb, it, FirstFree(w.files, 1), -1);
      }
      return Number(-1), true;
    }
    var x := r.value;
    ghost var i := fs.itable[x].inum;
    FirstFreeIs(w.files, 1, i);
    PickIs(fs.sb, it, i, x);
    var ok := fs.Ivalid(x);
    HandlesAfter(it, x, fs.itable[x]);
    assert fs.itable == it[x := fs.itable[x]];
    assert Files(fs.V()) == w.files[i := AFile(typ, [])];
    return Number(x), false;
  }

  method DoWrite(fs: FileSys, x: nat, off: nat, src: seq<byte>) returns (out: Out, panicked: bool)
    requires Running(fs) && Allowed(W(fs), Write(x, off, src))
    modifies fs`itable, fs`own, fs.bc
    ensures panicked ==> fs.Full()
    ensures panicked <==> Starved(old(fs.V()), old(W(fs)), Write(x, off, src))
    ensures !panicked ==> Running(fs) && Step(old(W(fs)), Write(x, off, src)) == (W(fs), out)
  {
    hide Cache.Valid, View, Inv, HeldIn, StaleIn, Shadows, Content, Lacks, ClearBits, EndBlock, FileSys.UpTo;
    ghost var w, it := W(fs), fs.itable;
    OpenFile(fs, x);
    OpenSame(fs, x);
    fs.UpToWhole(off, |src|, |src|);
    ghost var i := fs.itable[x].inum;
    var r := fs.Writei(x, src, off, |src|);
    if r.Panic? {
      return Number(-1), true;
    }
    if off <= |w.files[i].bytes| && off + |src| <= MAXFILE * BSIZE {
      assert src[..|src|] == src;
      assert Files(fs.V()) == w.files[i := w.files[i].(bytes := Splice(w.files[i].bytes, off, src))];
    } else {
      assert Files(fs.V()) == w.files;
    }
    HandlesAfter(it, x, fs.itable[x]);
    assert W(fs).handles == w.handles;
    return Number(r.value), false;
  }

  method DoRead(fs: FileSys, x: nat, off: nat, n: nat) returns (out: Out)
    requires Running(fs) && Allowed(W(fs), Read(x, off, n))
    modifies fs`itable, fs`own, fs.bc
    ensures Running(fs) && Step(old(W(fs)), Read(x, off, n)) == (W(fs), out)
  {
    hide Cache.Valid, View, Inv, HeldIn, StaleIn, Shadows, Content;
    ghost var w := W(fs);
    OpenFile(fs, x);
    ghost var c := Content(fs.V(), fs.itable[x].inum);
    assert off <= |c| ==> c[off..] == c[off..|c|];
    var r, bytes := fs.Readi(x, off, n, n);
    out := Bytes(bytes);
  }

  method DoTruncate(fs: FileSys, x: nat) returns (out: Out)
    requires Running(fs) && Allowed(W(fs), Truncate(x))
    modifies fs`itable, fs`own, fs.bc
    ensures Running(fs) && Step(old(W(fs)), Truncate(x)) == (W(fs), out)
  {
    hide Cache.Valid, View, Inv, HeldIn, StaleIn, Shadows, Content;
    ghost var w, it := W(fs), fs.itable;
    OpenFile(fs, x);
    OpenSame(fs, x);
    ghost var i := fs.itable[x].inum;
    fs.Itrunc(x);
    assert Files(fs.V()) == w.files[i := w.files[i].(bytes := [])];
    HandlesAfter(it, x, fs.itable[x]);
    assert W(fs).handles == w.handles;
    out := Number(0);
  }

  method DoClose(fs: FileSys, x: nat) returns (out: Out)
    requires Running(fs) && Allowed(W(fs), Close(x))
    modifies fs`itable
    ensures Running(fs) && Step(old(W(fs)), Close(x)) == (W(fs), out)
  {
    hide Cache.Valid, View, Inv, HeldIn, StaleIn, Shadows, Content;
    ghost var it := fs.itable;
    OpenFile(fs, x);
    fs.Iput(x);
    HandlesAfter(it, x, fs.itable[x]);
    out := Number(0);
  }

  method Do(fs: FileSys, op: Op) returns (out: Out, panicked: bool)
    requires Running(fs) && Allowed(W(fs), op)
    modifies fs`itable, fs`own, fs.bc
    ensures panicked <==> Stuck(old(W(fs)), op) || Starved(old(fs.V()), old(W(fs)), op)
    ensures panicked ==> Stuck(old(W(fs)), op) || fs.Full()
    ensures !panicked ==> Running(fs) && Step(old(W(fs)), op) == (W(fs), out)
  {
    hide Running, Step, W, Pick, FirstFree, Starved;
    OnlyWrites(fs.V(), W(fs), op);
    panicked := false;
    match op {
      case Create(typ) => out, panicked := DoCreate(fs, typ);
      case Open(inum) =>
        FilesCount(fs);
        out, panicked := DoOpen(fs, inum);
      case Write(x, off, src) => out, panicked := DoWrite(fs, x, off, src);
      case Read(x, off, n) => out := DoRead(fs, x, off, n);
      case Truncate(x) => out := DoTruncate(fs, x);
      case Close(x) => out := DoClose(fs, x);
    }
  }

  lemma OnlyWrites(v: Fs, w: World, op: Op)
    ensures Starved(v, w, op) ==> op.Write?
  {
  }

  lemma FilesCount(fs: FileSys)
    requires Running(fs)
    ensures |W(fs).files| == fs.sb.ninodes
  {
    hide Cache.Valid, Inv, Shadows;
  }

  // ---------- runs ----------

  /** Any run, up to the first panic, does to the files and the table of open files what the
      specification says, and returns what it says; and a panic has one of its two reasons, at being
      the device and owners the state of ownership just before. */
  method Run(fs: FileSys, ops: seq<Op>) returns (outs: seq<Out>, panicked: bool, ghost at: Fs, ghost owners: Owners)
    requires Running(fs) && Disciplined(W(fs), ops)
    modifies fs`itable, fs`own, fs.bc
    ensures !panicked ==> Running(fs) && Steps(old(W(fs)), ops) == (W(fs), outs)
    ensures panicked ==> |outs| < |ops| && Steps(old(W(fs)), ops[..|outs|]).1 == outs
    ensures panicked ==> Stuck(Steps(old(W(fs)), ops[..|outs|]).0, ops[|outs|]) || fs.Full()
    ensures panicked ==> Inv(fs.sb, at, owners) && Files(at) == Steps(old(W(fs)), ops[..|outs|]).0.files
    ensures panicked ==>
      var w := Steps(old(W(fs)), ops[..|outs|]).0;
      Stuck(w, ops[|outs|]) || Starved(at, w, ops[|outs|])
    ensures forall k :: 0 <= k < |ops| && Stuck(Steps(old(W(fs)), ops[..k]).0, ops[k]) ==> panicked && |outs| <= k
  {
    hide Running, W, Step, Stuck, Starved, Allowed, Steps;
    StepsNone(W(fs));
    ghost var w := W(fs);
    at, owners := fs.V(), fs.own;
    outs, panicked := [], false;
    assert ops[..0] == [];
    while |outs| < |ops|
      invariant |outs| <= |ops| && Running(fs)
      invariant Steps(w, ops[..|outs|]) == (W(fs), outs)
      invariant forall k :: 0 <= k < |outs| ==> !Stuck(Steps(w, ops[..k]).0, ops[k])
    {
      var out;
      at, owners := fs.V(), fs.own;
      Sound(fs);
      out, panicked := Do(fs, ops[|outs|]);
      if panicked {
        return;
      }
      StepsNext(w, ops, |outs|);
      outs := outs + [out];
    }
    assert ops[..|outs|] == ops;
  }

  lemma Sound(fs: FileSys)
    requires Running(fs)
    ensures Inv(fs.sb, fs.V(), fs.own) && W(fs).files == Files(fs.V())
  {
    hide Inv, View, Shadows, Cache.Valid;
  }

  lemma StepsNone(w: World)
    ensures Steps(w, []) == (w, [])
  {
  }

  lemma StepsNext(w: World, ops: seq<Op>, k: nat)
    requires k < |ops|
    ensures var before := Steps(w, ops[..k]); var last := Step(before.0, ops[k]);
            Steps(w, ops[..k + 1]) == (last.0, before.1 + [last.1])
  {
    hide Step;
    assert ops[..k + 1][..k] == ops[..k];
  }

  lemma StepsMore(w: World, ops: seq<Op>, op: Op)
    ensures var before := Steps(w, ops); var last := Step(before.0, op);
            Steps(w, ops + [op]) == (last.0, before.1 + [last.1])
  {
    assert (ops + [op])[..|ops|] == ops;
  }

  lemma StepsTwo(w: World, a: Op, b: Op)
    ensures var v := Step(w, a); var u := Step(v.0, b); Steps(w, [a, b]) == (u.0, [v.1, u.1])
  {
    hide Step;
    StepsMore(w, [], a);
    StepsMore(w, [a], b);
    var v := Step(w, a);
    assert [] + [a] == [a] && [a] + [b] == [a, b];
    assert [] + [v.1] == [v.1] && [v.1] + [Step(v.0, b).1] == [v.1, Step(v.0, b).1];
  }

  /** What can be written there fits. */
  predicate Fitting(w: World, x: nat, off: nat, src: seq<byte>) {
    IsOpen(w, x) && off <= |w.files[w.handles[x].inum].bytes| && off + |src| <= MAXFILE * BSIZE
  }

  lemma SliceSplice(bytes: seq<byte>, off: nat, src: seq<byte>)
    requires off <= |bytes| && off + |src| < UINT
    ensures Slice(Splice(bytes, off, src), off, |src|) == src
  {
    var t := Splice(bytes, off, src);
    assert t[off..off + |src|] == src;
    if off + |src| == |t| { assert t[off..] == src; }
  }

  /** Reading what was just written, through the same open file or another one. */
  lemma ReadAfterWrite(w: World, x: nat, y: nat, off: nat, src: seq<byte>)
    requires Fitting(w, x, off, src) && IsOpen(w, y) && w.handles[y].inum == w.handles[x].inum
    ensures Steps(w, [Write(x, off, src), Read(y, off, |src|)]).1 == [Number(|src|), Bytes(src)]
  {
    hide Splice, Slice;
    SliceSplice(w.files[w.handles[x].inum].bytes, off, src);
    StepsTwo(w, Write(x, off, src), Read(y, off, |src|));
  }

  /** The bytes written survive the closing of the file: whoever opens it again reads them. */
  lemma ReadAfterReopen(w: World, x: nat, off: nat, src: seq<byte>, y: nat)
    requires Fitting(w, x, off, src)
    requires y == Pick(Step(w, Close(x)).0.handles, w.handles[x].inum)
    ensures y < |w.handles|
    ensures Steps(w, [Write(x, off, src), Close(x), Open(w.handles[x].inum), Read(y, off, |src|)]).1
         == [Number(|src|), Number(0), Number(y), Bytes(src)]
  {
    hide Splice, Slice, Steps;
    var i := w.handles[x].inum;
    SliceSplice(w.files[i].bytes, off, src);
    var a, b, c, d := Write(x, off, src), Close(x), Open(i), Read(y, off, |src|);
    StepsTwo(w, a, b);
    StepsMore(w, [a, b], c);
    StepsMore(w, [a, b, c], d);
    assert [a, b] + [c] == [a, b, c] && [a, b, c] + [d] == [a, b, c, d];
    var hs := Step(w, b).0.handles;
    assert hs == Step(Step(w, a).0, b).0.handles;
    assert hs[x] == Unused || (hs[x].ref > 0 && hs[x].inum == i);
  }

  /** And the other bytes of the file, the other files and the table are as before. */
  lemma WriteElsewhere(w: World, x: nat, off: nat, src: seq<byte>, j: nat, p: nat)
    requires Fitting(w, x, off, src)
    requires j < |w.files| && p < |w.files[j].bytes| && (j != w.handles[x].inum || p < off || off + |src| <= p)
    ensures var after := Step(w, Write(x, off, src)).0;
            && after.handles == w.handles
            && p < |after.files[j].bytes| && after.files[j].bytes[p] == w.files[j].bytes[p]
  {
  }

  /** From the command line of mkfs to a read in the booted kernel: inode 2 + k holds file k. */
  method BuildBootRead(files: seq<Mkfs.Input>, k: nat, off: nat, n: nat) returns (built: bool, out: Out)
    requires k < |files| <= 198 && |files| % 64 != 0 && off < UINT && n < UINT
    ensures built <==> Mkfs.Buildable(files)
    ensures built ==> out == Bytes(Slice(Mkfs.Concat(files[k].chunks), off, n))
  {
    hide View, Inv, Cache.Valid, Mkfs.Finished, Mkfs.Buildable, Content;
    var img := new Mkfs.Image();
    var r := img.Populate(files);
    if r.Exited? {
      return false, Number(0);
    }
    Stored(View(Mkfs.SB, img.disk), img.own, files, img.freeblock, k);
    var bc := new Cache(img.disk);
    SuperIs(img.disk);
    var fs := Fsinit(bc, img.own);
    out := OpenAndRead(fs.value, 2 + k, off, n);
    built := true;
  }

  /** open, read and the kernel's panic, on a machine that has just booted. */
  method OpenAndRead(fs: FileSys, inum: nat, off: nat, n: nat) returns (out: Out)
    requires Running(fs) && off < UINT && n < UINT && inum < fs.sb.ninodes
    requires forall s :: 0 <= s < |fs.itable| ==> fs.itable[s].ref == 0
    requires W(fs).files[inum].typ != 0
    modifies fs`itable, fs`own, fs.bc
    ensures out == Bytes(Slice(old(W(fs)).files[inum].bytes, off, n))
  {
    hide View, Inv, Cache.Valid, Content, Slice, Shadows;
    ghost var w := W(fs);
    assert w.handles[0] == Unused;
    var x, panicked := DoOpen(fs, inum);
    out := DoRead(fs, x.n, off, n);
  }

  /** The kernel reads back the superblock that mkfs wrote. */
  lemma SuperIs(disk: seq<Block>)
    requires Mkfs.SuperOk(disk)
    ensures ReadSuper(disk[1]) == Some(Mkfs.SB)
  {
    hide GetLE, GetWords;
  }

  lemma Stored(v: Fs, own: Owners, files: seq<Mkfs.Input>, freeblock: nat, k: nat)
    requires k < |files| <= 198 && |v.inodes| == 200 && Mkfs.Finished(v, own, files, freeblock)
    ensures v.inodes[2 + k].typ != 0 && Content(v, 2 + k) == Mkfs.Concat(files[k].chunks)
    ensures Files(v)[2 + k] == AFile(v.inodes[2 + k].typ, Mkfs.Concat(files[k].chunks))
  {
    hide Content, HoleFree, Mkfs.Concat, Mkfs.Directory.Entries, Mkfs.Listed, Owned, Shape;
    assert v.inodes[2 + k].typ == T_FILE && Content(v, 2 + k) == Mkfs.Concat(files[k].chunks);
  }

  /** With no files mkfs succeeds, but the root directory it leaves has a hole, so the image is not
      what the kernel takes for granted, whoever owns the blocks. */
  method BuildEmpty() returns (r: Mkfs.Result<seq<Block>>)
    ensures r.Ok? && |r.value| == 1000
    ensures !HoleFree(View(Mkfs.SB, r.value), 1)
    ensures forall own :: !Inv(Mkfs.SB, View(Mkfs.SB, r.value), own)
  {
    hide View, HoleFree, Mkfs.Finished;
    var img := new Mkfs.Image();
    Mkfs.NoTotal([]);
    var ok := img.Populate([]);
    r := Mkfs.Ok(img.disk);
  }
}
