/** Directories (os/kernel/fs.c, dirlookup, dirlink, dirunlink): a file of 16-byte entries that
    is a map from names to inode numbers. */
module Directory {
  import opened Bytes
  import opened BufferCache
  import opened FsLayout
  import opened Ownership
  import opened FileSystem

  const DIRSIZ: nat := 14
  const DIRENT: nat := 16

  /** name is the 14-byte field; inum 0 marks an unused slot. */
  datatype Dirent = Dirent(inum: nat, name: seq<byte>)

  // ---------- C strings ----------

  /** The byte of a NUL-terminated string; the terminator follows the last byte. */
  function At(s: seq<byte>, k: nat): byte {
    if k < |s| then s[k] else 0
  }

  /** The string held in the first n bytes of s: everything before the first NUL. */
  function Cut(s: seq<byte>, n: nat): (r: seq<byte>)
    ensures |r| <= n && r <= s
    ensures 0 !in r
    ensures |r| < n ==> At(s, |r|) == 0
    decreases |s|
  {
    if n == 0 || At(s, 0) == 0 then [] else [s[0]] + Cut(s[1..], n - 1)
  }

  lemma {:induction false} CutLength(s: seq<byte>, n: nat, k: nat)
    requires k <= n && k <= |s| && 0 !in s[..k]
    requires k < n ==> At(s, k) == 0
    ensures Cut(s, n) == s[..k]
    decreases k
  {
    if k > 0 {
      assert s[..k] == [s[0]] + s[1..][..k - 1];
      assert At(s[1..], k - 1) == At(s, k);
      CutLength(s[1..], n - 1, k - 1);
    }
  }

  /** strncmp: zero exactly when the strings agree up to n bytes. */
  method Strncmp(p: seq<byte>, q: seq<byte>, n: nat) returns (r: int)
    ensures r == 0 <==> Cut(p, n) == Cut(q, n)
  {
    var k := 0;
    while k < n && At(p, k) != 0 && At(p, k) == At(q, k)
      invariant 0 <= k <= n && k <= |p| && k <= |q|
      invariant p[..k] == q[..k] && 0 !in p[..k]
    {
      assert p[..k + 1] == p[..k] + [p[k]];
      assert q[..k + 1] == q[..k] + [q[k]];
      k := k + 1;
    }
    if k == n {
      CutLength(p, n, n);
      CutLength(q, n, n);
      return 0;
    }
    r := At(p, k) - At(q, k);
    if r == 0 {
      CutLength(p, n, k);
      CutLength(q, n, k);
    } else {
      CutDiffers(p, q, n, k);
    }
  }

  lemma {:induction false} CutDiffers(p: seq<byte>, q: seq<byte>, n: nat, k: nat)
    requires k < n && k <= |p| && k <= |q| && 0 !in p[..k] && p[..k] == q[..k]
    requires At(p, k) != At(q, k)
    ensures Cut(p, n) != Cut(q, n)
    decreases k
  {
    if k > 0 {
      assert p[..k] == [p[0]] + p[1..][..k - 1] && q[..k] == [q[0]] + q[1..][..k - 1];
      assert At(p[1..], k - 1) == At(p, k) && At(q[1..], k - 1) == At(q, k);
      CutDiffers(p[1..], q[1..], n - 1, k - 1);
      assert Cut(p, n)[1..] == Cut(p[1..], n - 1) && Cut(q, n)[1..] == Cut(q[1..], n - 1);
    }
  }

  /** A name as it is stored: its first 14 bytes, then NULs. */
  function Field(name: seq<byte>): (r: seq<byte>)
    ensures |r| == DIRSIZ
  {
    seq(DIRSIZ, k requires 0 <= k => At(name, k))
  }

  /** strncpy into the name field. */
  method Strncpy(t: seq<byte>) returns (s: seq<byte>)
    requires 0 !in t
    ensures s == Field(t) && Cut(s, DIRSIZ) == Cut(t, DIRSIZ)
  {
    s := [];
    while |s| < DIRSIZ && At(t, |s|) != 0
      invariant |s| <= DIRSIZ && |s| <= |t| && s == t[..|s|]
      decreases DIRSIZ - |s|
    {
      s := s + [At(t, |s|)];
    }
    ghost var k := |s|;
    CutLength(t, DIRSIZ, k);
    assert k == DIRSIZ || k == |t|;
    while |s| < DIRSIZ
      invariant k <= |s| <= DIRSIZ && s[..k] == t[..k]
      invariant forall j :: k <= j < |s| ==> s[j] == 0 && At(t, j) == 0
      decreases DIRSIZ - |s|
    {
      s := s + [0];
    }
    CutLength(s, DIRSIZ, k);
  }

  lemma FieldCut(name: seq<byte>)
    requires 0 !in name
    ensures Cut(Field(name), DIRSIZ) == Cut(name, DIRSIZ)
  {
    var k := if |name| < DIRSIZ then |name| else DIRSIZ;
    assert Field(name)[..k] == name[..k];
    CutLength(name, DIRSIZ, k);
    CutLength(Field(name), DIRSIZ, k);
  }

  // ---------- the directory as a map ----------

  predicate Names(e: Dirent, key: seq<byte>) {
    e.inum != 0 && Cut(e.name, DIRSIZ) == key
  }

  /** The slot dirlookup finds, or |es|. */
  function SlotFor(es: seq<Dirent>, key: seq<byte>): (k: nat)
    ensures k <= |es|
    ensures k < |es| ==> Names(es[k], key)
    ensures forall j :: 0 <= j < k ==> !Names(es[j], key)
  {
    SlotFrom(es, key, 0)
  }

  function SlotFrom(es: seq<Dirent>, key: seq<byte>, i: nat): (k: nat)
    requires i <= |es|
    ensures i <= k <= |es| && (k < |es| ==> Names(es[k], key)) && forall j :: i <= j < k ==> !Names(es[j], key)
    decreases |es| - i
  {
    hide Cut, Names;
    if i == |es| || Names(es[i], key) then i else SlotFrom(es, key, i + 1)
  }

  /** What the directory maps a name to. */
  function Find(es: seq<Dirent>, key: seq<byte>): Option<nat> {
    var k := SlotFor(es, key);
    if k < |es| then Some(es[k].inum) else None
  }

  /** Live names, truncated to 14 bytes, are pairwise distinct. */
  ghost predicate DistinctNames(es: seq<Dirent>) {
    forall j, k :: 0 <= j < k < |es| && es[j].inum != 0 && es[k].inum != 0 ==>
      Cut(es[j].name, DIRSIZ) != Cut(es[k].name, DIRSIZ)
  }

  lemma SlotIs(es: seq<Dirent>, key: seq<byte>, k: nat)
    requires k <= |es| && (forall j :: 0 <= j < k ==> !Names(es[j], key))
    requires k < |es| ==> Names(es[k], key)
    ensures SlotFor(es, key) == k
  {
  }

  /** The first unused slot, or |es|. */
  function Unused(es: seq<Dirent>): (k: nat)
    ensures k <= |es| && (k < |es| ==> es[k].inum == 0) && forall j :: 0 <= j < k ==> es[j].inum != 0
  {
    UnusedFrom(es, 0)
  }

  function UnusedFrom(es: seq<Dirent>, i: nat): (k: nat)
    requires i <= |es|
    ensures i <= k <= |es| && (k < |es| ==> es[k].inum == 0) && forall j :: i <= j < k ==> es[j].inum != 0
    decreases |es| - i
  {
    if i == |es| || es[i].inum == 0 then i else UnusedFrom(es, i + 1)
  }

  function Put(es: seq<Dirent>, k: nat, e: Dirent): (r: seq<Dirent>)
    requires k <= |es|
    ensures |r| == (if k == |es| then |es| + 1 else |es|) && r[k] == e
    ensures forall j :: 0 <= j < |r| && j != k ==> r[j] == es[j]
  {
    if k < |es| then es[k := e] else es + [e]
  }

  function Link(es: seq<Dirent>, e: Dirent): seq<Dirent> {
    Put(es, Unused(es), e)
  }

  /** dirlink of an absent name is map update: the name is found, every other lookup is
      unchanged, and names stay distinct. */
  lemma LinkIsUpdate(es: seq<Dirent>, e: Dirent)
    requires DistinctNames(es) && e.inum != 0 && Find(es, Cut(e.name, DIRSIZ)) == None
    ensures DistinctNames(Link(es, e))
    ensures forall key :: Find(Link(es, e), key) == if key == Cut(e.name, DIRSIZ) then Some(e.inum) else Find(es, key)
  {
    hide Cut, SlotFor, Unused;
    var k := Unused(es);
    var r := Link(es, e);
    forall key
      ensures Find(r, key) == if key == Cut(e.name, DIRSIZ) then Some(e.inum) else Find(es, key)
    {
      LinkFind(es, e, key);
    }
    forall j | 0 <= j < |es| && es[j].inum != 0
      ensures Cut(es[j].name, DIRSIZ) != Cut(e.name, DIRSIZ)
    {
      assert !Names(es[j], Cut(e.name, DIRSIZ));
    }
  }

  lemma LinkFind(es: seq<Dirent>, e: Dirent, key: seq<byte>)
    requires e.inum != 0 && Find(es, Cut(e.name, DIRSIZ)) == None
    ensures Find(Link(es, e), key) == if key == Cut(e.name, DIRSIZ) then Some(e.inum) else Find(es, key)
  {
    hide Cut, SlotFor, Unused;
    var k := Unused(es);
    var r := Link(es, e);
    if key == Cut(e.name, DIRSIZ) {
      forall j | 0 <= j < k
        ensures !Names(r[j], key)
      {
        assert !Names(es[j], key);
      }
      SlotIs(r, key, k);
    } else {
      var s := SlotFor(es, key);
      forall j | 0 <= j < s
        ensures !Names(r[j], key)
      {
        assert j != k ==> !Names(es[j], key);
      }
      if s < |es| {
        assert s != k;
        SlotIs(r, key, s);
      } else {
        SlotIs(r, key, |r|);
      }
    }
  }

  /** What dirunlink compares: the stored name begins with the given one. */
  predicate BeginsWith(e: Dirent, name: seq<byte>) {
    name <= Cut(e.name, DIRSIZ)
  }

  /** The slot dirunlink clears: the first one, used or not, whose name begins with name. */
  function Victim(es: seq<Dirent>, name: seq<byte>): (k: nat)
    ensures k <= |es| && (k < |es| ==> BeginsWith(es[k], name))
    ensures forall j :: 0 <= j < k ==> !BeginsWith(es[j], name)
  {
    VictimFrom(es, name, 0)
  }

  function VictimFrom(es: seq<Dirent>, name: seq<byte>, i: nat): (k: nat)
    requires i <= |es|
    ensures i <= k <= |es| && (k < |es| ==> BeginsWith(es[k], name)) && forall j :: i <= j < k ==> !BeginsWith(es[j], name)
    decreases |es| - i
  {
    hide Cut, BeginsWith;
    if i == |es| || BeginsWith(es[i], name) then i else VictimFrom(es, name, i + 1)
  }

  function Unlink(es: seq<Dirent>, name: seq<byte>): seq<Dirent> {
    var k := Victim(es, name);
    if k < |es| then es[k := es[k].(inum := 0)] else es
  }

  /** dirunlink of a present name is map removal if and only if no earlier slot, used or not,
      holds a name that begins with the given one. */
  lemma UnlinkIsRemoval(es: seq<Dirent>, name: seq<byte>)
    requires DistinctNames(es) && Find(es, name) != None
    ensures (forall key :: Find(Unlink(es, name), key) == if key == name then None else Find(es, key))
       <==> (forall j :: 0 <= j < SlotFor(es, name) ==> !BeginsWith(es[j], name))
    ensures DistinctNames(Unlink(es, name))
  {
    hide Cut, SlotFor, Victim;
    var s, v := SlotFor(es, name), Victim(es, name);
    assert BeginsWith(es[s], name);
    if v == s {
      forall key
        ensures Find(Unlink(es, name), key) == if key == name then None else Find(es, key)
      {
        ClearFind(es, name, key);
      }
    } else {
      assert v < s && BeginsWith(es[v], name);
      var r := Unlink(es, name);
      forall j | 0 <= j < s
        ensures !Names(r[j], name)
      {
        assert !Names(es[j], name);
      }
      SlotIs(r, name, s);
      assert Find(r, name) != None;
    }
  }

  lemma ClearFind(es: seq<Dirent>, name: seq<byte>, key: seq<byte>)
    requires DistinctNames(es) && Find(es, name) != None
    requires Victim(es, name) == SlotFor(es, name)
    ensures Find(Unlink(es, name), key) == if key == name then None else Find(es, key)
  {
    hide Cut, SlotFor, Victim;
    var s := SlotFor(es, name);
    var r := Unlink(es, name);
    if key == name {
      forall j | 0 <= j < |r|
        ensures !Names(r[j], key)
      {
        assert j < s ==> !Names(es[j], key);
        assert j > s && es[j].inum != 0 ==> Cut(es[s].name, DIRSIZ) != Cut(es[j].name, DIRSIZ);
      }
      SlotIs(r, key, |r|);
    } else {
      var k := SlotFor(es, key);
      forall j | 0 <= j < k
        ensures !Names(r[j], key)
      {
        assert !Names(es[j], key);
      }
      assert k != s;
      SlotIs(r, key, k);
    }
  }

  lemma FindIs(es: seq<Dirent>, key: seq<byte>, k: nat)
    requires k <= |es| && (forall j :: 0 <= j < k ==> !Names(es[j], key))
    requires k < |es| ==> Names(es[k], key)
    ensures Find(es, key) == if k < |es| then Some(es[k].inum) else None
  {
    hide SlotFor;
    SlotIs(es, key, k);
  }

  /** A concrete failure: "ab" precedes "a", and dirunlink("a") removes "ab" instead. */
  lemma UnlinkWrongEntry()
    ensures
      var ab := Dirent(2, [97, 98, 0, 0, 0, 0, 0, 0, 0, 0, 0, 0, 0, 0]);
      var a := Dirent(3, [97, 0, 0, 0, 0, 0, 0, 0, 0, 0, 0, 0, 0, 0]);
      var es := [ab, a];
      && DistinctNames(es) && Find(es, [97]) == Some(3)
      && Find(Unlink(es, [97]), [97]) == Some(3) && Find(es, [97, 98]) == Some(2)
      && Find(Unlink(es, [97]), [97, 98]) == None
  {
    hide Cut, SlotFor, Find, Victim;
    var n1, n2 := [97, 98, 0, 0, 0, 0, 0, 0, 0, 0, 0, 0, 0, 0], [97, 0, 0, 0, 0, 0, 0, 0, 0, 0, 0, 0, 0, 0];
    CutLength(n1, DIRSIZ, 2);
    CutLength(n2, DIRSIZ, 1);
    assert n1[..2] == [97, 98] && n2[..1] == [97];
    var es := [Dirent(2, n1), Dirent(3, n2)];
    assert BeginsWith(es[0], [97]);
    assert Victim(es, [97]) == 0;
    var r := [Dirent(0, n1), Dirent(3, n2)];
    assert Unlink(es, [97]) == r;
    FindIs(es, [97], 1);
    FindIs(r, [97], 1);
    FindIs(es, [97, 98], 0);
    FindIs(r, [97, 98], 2);
  }

  // ---------- runs of dirlink and dirunlink ----------

  datatype DirOp = LinkOp(name: seq<byte>, inum: nat) | UnlinkOp(name: seq<byte>)

  /** What dirlink and dirunlink do to the entries; an entry holds 16 bits of the inode number. */
  function DirStep(es: seq<Dirent>, op: DirOp): seq<Dirent> {
    match op
    case LinkOp(name, inum) =>
      if Find(es, Cut(name, DIRSIZ)) == None then Link(es, Dirent(inum % 65536, Field(name))) else es
    case UnlinkOp(name) => if Find(es, Cut(name, DIRSIZ)) == None then es else Unlink(es, name)
  }

  type NameMap = map<seq<byte>, nat>

  function MapStep(m: NameMap, op: DirOp): NameMap {
    match op
    case LinkOp(name, inum) => if Cut(name, DIRSIZ) in m then m else m[Cut(name, DIRSIZ) := inum % 65536]
    case UnlinkOp(name) => m - {Cut(name, DIRSIZ)}
  }

  /** Names are added when they are not there and removed when they are. */
  function Answer(m: NameMap, op: DirOp): int {
    match op
    case LinkOp(name, _) => if Cut(name, DIRSIZ) in m then -1 else 0
    case UnlinkOp(name) => if Cut(name, DIRSIZ) in m then 0 else -1
  }

  /** The entries look up as the map does. */
  ghost predicate Refines(es: seq<Dirent>, m: NameMap) {
    DistinctNames(es) && forall key :: Find(es, key) == if key in m then Some(m[key]) else None
  }

  /** No removal meets an earlier slot whose name begins with the one to remove, and no inode number
      reads as unused in 16 bits. */
  ghost predicate ClearStep(es: seq<Dirent>, op: DirOp) {
    match op
    case LinkOp(name, inum) => inum % 65536 != 0
    case UnlinkOp(name) =>
      Find(es, Cut(name, DIRSIZ)) != None ==>
        forall j :: 0 <= j < SlotFor(es, Cut(name, DIRSIZ)) ==> !BeginsWith(es[j], name)
  }

  ghost predicate Clear(es: seq<Dirent>, ops: seq<DirOp>)
    decreases |ops|
  {
    ops != [] ==> ClearStep(es, ops[0]) && Clear(DirStep(es, ops[0]), ops[1..])
  }

  function DirRun(es: seq<Dirent>, ops: seq<DirOp>): seq<Dirent>
    decreases |ops|
  {
    if ops == [] then es else DirRun(DirStep(es, ops[0]), ops[1..])
  }

  function MapRun(m: NameMap, ops: seq<DirOp>): (NameMap, seq<int>)
    decreases |ops|
  {
    if ops == [] then (m, [])
    else
      var rest := MapRun(MapStep(m, ops[0]), ops[1..]);
      (rest.0, [Answer(m, ops[0])] + rest.1)
  }

  /** Names are strings, and one to remove fits the field. */
  predicate NameOk(op: DirOp) {
    0 !in op.name && (op.UnlinkOp? ==> |op.name| <= DIRSIZ)
  }

  /** Over any such run the directory is a map from names, cut to 14 bytes, to inode numbers. */
  lemma {:induction false} RunRefines(es: seq<Dirent>, m: NameMap, ops: seq<DirOp>)
    requires Refines(es, m) && Clear(es, ops)
    requires forall k :: 0 <= k < |ops| ==> NameOk(ops[k])
    ensures Refines(DirRun(es, ops), MapRun(m, ops).0)
    decreases |ops|
  {
    if ops != [] {
      StepRefines(es, m, ops[0]);
      RunRefines(DirStep(es, ops[0]), MapStep(m, ops[0]), ops[1..]);
    }
  }

  lemma StepRefines(es: seq<Dirent>, m: NameMap, op: DirOp)
    requires Refines(es, m) && ClearStep(es, op) && NameOk(op)
    ensures Refines(DirStep(es, op), MapStep(m, op))
  {
    hide Cut, SlotFor, Unused, Victim, BeginsWith, Names, Link, Unlink, Field;
    match op
    case LinkOp(name, inum) =>
      FieldCut(name);
      if Find(es, Cut(name, DIRSIZ)) == None { LinkIsUpdate(es, Dirent(inum % 65536, Field(name))); }
    case UnlinkOp(name) =>
      CutLength(name, DIRSIZ, |name|);
      assert name[..|name|] == name;
      if Find(es, name) != None { UnlinkIsRemoval(es, name); }
  }

  // ---------- entries as bytes ----------

  function DecodeDirent(b: seq<byte>): Dirent
    requires |b| == DIRENT
  {
    Dirent(GetLE(b, 0, 2), b[2..])
  }

  function EncodeDirent(e: Dirent): (b: seq<byte>)
    requires |e.name| == DIRSIZ
    ensures |b| == DIRENT
  {
    PutLE(Zeros(2) + e.name, 0, 2, e.inum)
  }

  /** struct dirent, byte by byte, in the bytes of a directory: the inode number and then the name. */
  lemma DirentBytes(c: seq<byte>, k: nat)
    requires 16 * k + 16 <= |c|
    ensures k < |Entries(c)| && Entries(c)[k] == Dirent(Two(c[16 * k], c[16 * k + 1]), c[16 * k + 2..16 * k + 16])
  {
    hide GetLE, Two;
    Short(Raw(c, k), 0);
    assert Raw(c, k)[2..] == c[16 * k + 2..16 * k + 16];
  }

  lemma DecodeEncode(e: Dirent)
    requires |e.name| == DIRSIZ && e.inum < 65536
    ensures DecodeDirent(EncodeDirent(e)) == e
  {
    assert Pow256(2) == 65536;
    GetPutSame(Zeros(2) + e.name, 0, 2, e.inum);
    var b := EncodeDirent(e);
    assert b[2..] == e.name;
  }

  function Raw(c: seq<byte>, k: nat): (b: seq<byte>)
    requires DIRENT * (k + 1) <= |c|
    ensures |b| == DIRENT
  {
    c[DIRENT * k..DIRENT * k + DIRENT]
  }

  /** The entries of a directory whose bytes are c. */
  function Entries(c: seq<byte>): (es: seq<Dirent>)
    ensures |es| == |c| / DIRENT
    ensures forall k :: 0 <= k < |es| ==> es[k] == DecodeDirent(Raw(c, k)) && |es[k].name| == DIRSIZ
  {
    seq(|c| / DIRENT, k requires 0 <= k < |c| / DIRENT => DecodeDirent(Raw(c, k)))
  }

  /** Writing one entry's bytes changes, or appends, that entry. */
  lemma SpliceEntry(c: seq<byte>, k: nat, e: Dirent)
    requires |c| % DIRENT == 0 && k <= |c| / DIRENT && |e.name| == DIRSIZ && e.inum < 65536
    ensures Entries(Splice(c, DIRENT * k, EncodeDirent(e))) == Put(Entries(c), k, e)
  {
    hide DecodeDirent, EncodeDirent;
    var b := EncodeDirent(e);
    var c' := Splice(c, DIRENT * k, b);
    assert |c'| == if k == |c| / DIRENT then |c| + DIRENT else |c|;
    DecodeEncode(e);
    forall j | 0 <= j < |c'| / DIRENT
      ensures Raw(c', j) == if j == k then b else Raw(c, j)
    {
      SpliceRaw(c, k, b, j);
    }
    assert Entries(c') == Put(Entries(c), k, e);
  }

  /** The bytes of entry j after entry k is written. */
  lemma SpliceRaw(c: seq<byte>, k: nat, b: seq<byte>, j: nat)
    requires |c| % DIRENT == 0 && k <= |c| / DIRENT && |b| == DIRENT && (j <= k || j < |c| / DIRENT)
    ensures DIRENT * (j + 1) <= |Splice(c, DIRENT * k, b)|
    ensures Raw(Splice(c, DIRENT * k, b), j) == if j == k then b else Raw(c, j)
  {
    var c' := Splice(c, DIRENT * k, b);
    var n := DIRENT * k;
    if j < k {
      assert c'[..n] == c[..n];
      assert Raw(c', j) == c'[..n][DIRENT * j..DIRENT * j + DIRENT];
      assert Raw(c, j) == c[..n][DIRENT * j..DIRENT * j + DIRENT];
    } else if j > k {
      var m := n + DIRENT;
      assert c'[m..] == c[m..];
      assert Raw(c', j) == c'[m..][DIRENT * j - m..DIRENT * j - m + DIRENT];
      assert Raw(c, j) == c[m..][DIRENT * j - m..DIRENT * j - m + DIRENT];
    }
  }

  // ---------- operations ----------

  /** The inodes and files other than i are as they were. */
  ghost predicate OtherFiles(v0: Fs, v: Fs, i: nat) {
    && |v.inodes| == |v0.inodes|
    && forall j :: 0 <= j < |v.inodes| && j != i ==> v.inodes[j] == v0.inodes[j] && Content(v, j) == Content(v0, j)
  }

  lemma OtherFilesSame(v: Fs, i: nat)
    ensures OtherFiles(v, v, i)
  {
  }

  lemma OtherFilesTrans(u: Fs, v: Fs, w: Fs, i: nat)
    requires OtherFiles(u, v, i) && OtherFiles(v, w, i)
    ensures OtherFiles(u, w, i)
  {
  }

  /** x is an open directory whose size is a whole number of entries and whose used entries
      name inodes of the device. */
  ghost predicate IsDir(fs: FileSys, x: nat)
    reads fs, fs.bc
  {
    && fs.Open(x) && x < |fs.itable| && fs.itable[x].inum < |fs.V().inodes| && fs.V().inodes[fs.itable[x].inum].typ == T_DIR
    && |FileBytes(fs, x)| % DIRENT == 0
    && forall k :: 0 <= k < |Dir(fs, x)| ==> Dir(fs, x)[k].inum < fs.sb.ninodes
  }

  ghost function FileBytes(fs: FileSys, x: nat): seq<byte>
    requires x < |fs.itable| && fs.itable[x].inum < |fs.V().inodes|
    reads fs, fs.bc
  {
    Content(fs.V(), fs.itable[x].inum)
  }

  ghost function Dir(fs: FileSys, x: nat): seq<Dirent>
    requires x < |fs.itable| && fs.itable[x].inum < |fs.V().inodes|
    reads fs, fs.bc
  {
    Entries(FileBytes(fs, x))
  }

  /** readi of the k-th entry; it always delivers 16 bytes, so "dirlookup read" is never reached. */
  method ReadEntry(fs: FileSys, x: nat, k: nat) returns (e: Dirent)
    requires IsDir(fs, x) && |fs.bc.Held()| + 2 <= NBUF && k < |Dir(fs, x)|
    modifies fs`itable, fs`own, fs.bc
    ensures IsDir(fs, x) && fs.bc.Held() == old(fs.bc.Held())
    ensures fs.V() == old(fs.V()) && fs.itable == old(fs.itable) && fs.own == old(fs.own)
    ensures e == Dir(fs, x)[k]
  {
    hide Cache.Valid, View, Inv, Content, HeldIn, StaleIn, Entries, DecodeDirent;
    ghost var c := FileBytes(fs, x);
    SizeBound(fs, x);
    var r, b := fs.Readi(x, DIRENT * k, DIRENT, DIRENT);
    assert b == Raw(c, k);
    e := DecodeDirent(b);
  }

  lemma SizeBound(fs: FileSys, x: nat)
    requires fs.Open(x)
    ensures fs.itable[x].inum < fs.sb.ninodes
    ensures |FileBytes(fs, x)| == fs.itable[x].size <= MAXFILE * BSIZE
    ensures fs.itable[x].typ == fs.V().inodes[fs.itable[x].inum].typ
  {
    hide Cache.Valid, View, Owned;
  }

  /** dirlookup up to its iget: the slot of the first used entry with this name, or -1. */
  method Scan(fs: FileSys, x: nat, name: seq<byte>) returns (k: int, inum: nat)
    requires IsDir(fs, x) && |fs.bc.Held()| + 2 <= NBUF && 0 !in name
    modifies fs`itable, fs`own, fs.bc
    ensures IsDir(fs, x) && fs.bc.Held() == old(fs.bc.Held())
    ensures fs.V() == old(fs.V()) && fs.itable == old(fs.itable) && fs.own == old(fs.own)
    ensures
      var s := SlotFor(Dir(fs, x), Cut(name, DIRSIZ));
      if s < |Dir(fs, x)| then k == s && inum == Dir(fs, x)[s].inum else k == -1
  {
    hide Cache.Valid, View, Inv, Content, HeldIn, StaleIn, Entries, Cut, SlotFor, Shadows, DecodeDirent;
    ghost var es := Dir(fs, x);
    var off := 0;
    DirLength(fs, x);
    while off < fs.itable[x].size
      invariant 0 <= off <= DIRENT * |es| && off % DIRENT == 0
      invariant IsDir(fs, x) && fs.bc.Held() == old(fs.bc.Held())
      invariant fs.V() == old(fs.V()) && fs.itable == old(fs.itable) && fs.own == old(fs.own)
      invariant forall j :: 0 <= j < off / DIRENT ==> !Names(es[j], Cut(name, DIRSIZ))
    {
      var e := ReadEntry(fs, x, off / DIRENT);
      if e.inum != 0 {
        var c := Strncmp(name, e.name, DIRSIZ);
        if c == 0 {
          SlotIs(es, Cut(name, DIRSIZ), off / DIRENT);
          return off / DIRENT, e.inum;
        }
      }
      off := off + DIRENT;
    }
    SlotIs(es, Cut(name, DIRSIZ), |es|);
    return -1, 0;
  }

  lemma DirLength(fs: FileSys, x: nat)
    requires IsDir(fs, x)
    ensures fs.itable[x].size == DIRENT * |Dir(fs, x)|
  {
    hide Cache.Valid, View, Inv, Content, Entries, FileSys.Open;
    SizeBound(fs, x);
  }

  /** Entry r has one more reference, and the other entries have as many as before. */
  ghost predicate OneMore(it0: seq<MInode>, it: seq<MInode>, r: nat) {
    && r < |it| == |it0| && it[r].ref == it0[r].ref + 1
    && forall s :: 0 <= s < |it| && s != r ==> it[s].ref == it0[s].ref
  }

  /** One entry, on this inode, has one more reference. */
  ghost predicate LeftReferenced(it0: seq<MInode>, it: seq<MInode>, inum: Option<nat>) {
    exists s: nat :: OneMore(it0, it, s) && Some(it[s].inum) == inum
  }

  /** The reason for the panic of iget. */
  predicate AllInUse(it: seq<MInode>) {
    forall s :: 0 <= s < |it| ==> it[s].ref > 0
  }

  /** Every entry is in use, and none of them names this inode: the reason for the panic of dirlookup. */
  ghost predicate NoEntryFor(it: seq<MInode>, inum: Option<nat>) {
    inum.Some? && forall s :: 0 <= s < |it| ==> it[s].ref > 0 && it[s].inum != inum.value
  }

  /** Slot k of directory i does not fit into a file, or there are fewer free blocks than it takes. */
  ghost predicate NoRoom(v: Fs, i: nat, k: nat) {
    DIRENT * (k + 1) > MAXFILE * BSIZE || Starved(v, i, k)
  }

  ghost predicate Starved(v: Fs, i: nat, k: nat) {
    ClearBits(v.bits) < Lacks(v, i, DIRENT * k / BSIZE, EndBlock(DIRENT * k, DIRENT))
  }

  /** Where dirlink and dirunlink panic, on directory i with these entries. */
  ghost predicate DirStuck(v: Fs, it: seq<MInode>, i: nat, es: seq<Dirent>, op: DirOp) {
    var found := Find(es, Cut(op.name, DIRSIZ));
    NoEntryFor(it, found) || (op.LinkOp? && found == None && NoRoom(v, i, Unused(es)))
  }

  /** dirlookup: -1 stands for the null result, otherwise an in-memory inode, now referenced. */
  method Dirlookup(fs: FileSys, x: nat, name: seq<byte>) returns (r: Outcome<int>)
    requires IsDir(fs, x) && |fs.bc.Held()| + 2 <= NBUF && 0 !in name
    modifies fs`itable, fs`own, fs.bc
    ensures IsDir(fs, x) && fs.bc.Held() == old(fs.bc.Held()) && fs.V() == old(fs.V()) && fs.own == old(fs.own)
    ensures fs.itable[x].inum == old(fs.itable)[x].inum
    ensures r.Panic? ==> AllInUse(fs.itable)
    ensures r.Panic? <==> NoEntryFor(old(fs.itable), Find(old(Dir(fs, x)), Cut(name, DIRSIZ)))
    ensures r.Done? ==>
      && (r.value == -1 <==> Find(Dir(fs, x), Cut(name, DIRSIZ)) == None)
      && (r.value == -1 ==> fs.itable == old(fs.itable))
      && (r.value != -1 ==> 0 <= r.value < NINODE && OneMore(old(fs.itable), fs.itable, r.value)
                            && Find(Dir(fs, x), Cut(name, DIRSIZ)) == Some(fs.itable[r.value].inum))
      && (r.value == x ==> fs.itable[x].ref == old(fs.itable)[x].ref + 1)
  {
    hide Cache.Valid, View, Inv, Content, HeldIn, StaleIn, Entries, Cut, SlotFor, DecodeDirent, Table, Shadows;
    TableUses(fs.sb, fs.itable);
    ghost var es := Dir(fs, x);
    var k, inum := Scan(fs, x, name);
    if k < 0 {
      return Done(-1);
    }
    var ip := fs.Iget(ROOTDEV, inum);
    if ip < 0 {
      return Panic;
    }
    return Done(ip);
  }

  ghost predicate SameRefs(it0: seq<MInode>, it: seq<MInode>) {
    |it| == |it0| && forall s :: 0 <= s < |it| ==> it[s].ref == it0[s].ref && it[s].inum == it0[s].inum
  }

  /** writei of the k-th entry, which may be one past the last. */
  method WriteEntry(fs: FileSys, x: nat, k: nat, e: Dirent) returns (r: Outcome<int>)
    requires IsDir(fs, x) && |fs.bc.Held()| + 2 <= NBUF && k <= |Dir(fs, x)|
    requires |e.name| == DIRSIZ && e.inum < 65536 && e.inum < fs.sb.ninodes
    modifies fs`itable, fs`own, fs.bc
    ensures r.Done? ==> fs.bc.Held() == old(fs.bc.Held()) && IsDir(fs, x) && fs.itable[x].inum == old(fs.itable)[x].inum
    ensures r.Done? ==> SameRefs(old(fs.itable), fs.itable)
    ensures r.Done? && DIRENT * (k + 1) <= MAXFILE * BSIZE ==>
      && r.value == DIRENT
      && Dir(fs, x) == Put(old(Dir(fs, x)), k, e)
      && OtherFiles(old(fs.V()), fs.V(), fs.itable[x].inum)
    ensures r.Done? && DIRENT * (k + 1) > MAXFILE * BSIZE ==> r.value == -1
    ensures r.Panic? ==> fs.Full()
    ensures r.Panic? <==>
      DIRENT * (k + 1) <= MAXFILE * BSIZE && Starved(old(fs.V()), old(fs.itable)[x].inum, k)
    ensures k < |old(Dir(fs, x))| ==> r.Done? && DIRENT * (k + 1) <= MAXFILE * BSIZE
  {
    hide Cache.Valid, View, Inv, Content, HeldIn, StaleIn, Entries, DecodeDirent, EncodeDirent, Splice, Shadows,
         Table, FileSys.LeftBehind, Lacks, ClearBits, EndBlock, FileSys.UpTo;
    TableUses(fs.sb, fs.itable);
    ghost var c := FileBytes(fs, x);
    SizeBound(fs, x);
    DirLength(fs, x);
    SpliceEntry(c, k, e);
    SpliceLength(c, DIRENT * k, EncodeDirent(e));
    assert EncodeDirent(e)[..DIRENT] == EncodeDirent(e);
    fs.UpToWhole(DIRENT * k, DIRENT, DIRENT);
    r := fs.Writei(x, EncodeDirent(e), DIRENT * k, DIRENT);
  }

  lemma SpliceLength(c: seq<byte>, off: nat, t: seq<byte>)
    requires off <= |c|
    ensures |Splice(c, off, t)| == if off + |t| < |c| then |c| else off + |t|
  {
  }

  /** dirlink: 0 when the entry was added, -1 when the name was already there. */
  method Dirlink(fs: FileSys, x: nat, name: seq<byte>, inum: nat) returns (r: Outcome<int>)
    requires IsDir(fs, x) && |fs.bc.Held()| + 2 <= NBUF && 0 !in name && 0 < inum < fs.sb.ninodes
    modifies fs`itable, fs`own, fs.bc
    ensures r.Done? ==> fs.bc.Held() == old(fs.bc.Held()) && IsDir(fs, x) && fs.itable[x].inum == old(fs.itable)[x].inum
    ensures r.Done? ==> r.value == if Find(old(Dir(fs, x)), Cut(name, DIRSIZ)) == None then 0 else -1
    ensures r == Done(-1) ==> fs.V() == old(fs.V())
    ensures r.Done? ==> forall s :: 0 <= s < NINODE ==> fs.itable[s].ref == old(fs.itable)[s].ref
    ensures r.Panic? ==>
      || AllInUse(fs.itable) || fs.Full()
      || DIRENT * (|old(Dir(fs, x))| + 1) > MAXFILE * BSIZE
    ensures r.Panic? <==> DirStuck(old(fs.V()), old(fs.itable), old(fs.itable)[x].inum, old(Dir(fs, x)), LinkOp(name, inum))
    ensures r == Done(0) ==>
      && Dir(fs, x) == Link(old(Dir(fs, x)), Dirent(inum % 65536, Field(name)))
      && OtherFiles(old(fs.V()), fs.V(), fs.itable[x].inum)
  {
    hide Cache.Valid, View, Inv, Content, HeldIn, StaleIn, Entries, Cut, SlotFor, DecodeDirent, Table, Shadows,
         NoEntryFor, Starved;
    TableUses(fs.sb, fs.itable);
    ghost var es := Dir(fs, x);
    NoEntryForNone(fs.itable);
    var ip := Dirlookup(fs, x, name);
    if ip.Panic? {
      return Panic;
    }
    if ip.value != -1 {
      fs.Iput(ip.value);
      return Done(-1);
    }
    var off := FindUnused(fs, x);
    var field := Strncpy(name);
    var e := Dirent(inum % 65536, field);
    r := WriteEntry(fs, x, off, e);
    if r.Done? && r.value == DIRENT {
      return Done(0);
    }
    return Panic;
  }

  lemma NoEntryForNone(it: seq<MInode>)
    ensures !NoEntryFor(it, None)
  {
  }

  /** The scan of dirlink for an unused entry. */
  method FindUnused(fs: FileSys, x: nat) returns (k: nat)
    requires IsDir(fs, x) && |fs.bc.Held()| + 2 <= NBUF
    modifies fs`itable, fs`own, fs.bc
    ensures IsDir(fs, x) && fs.bc.Held() == old(fs.bc.Held())
    ensures fs.V() == old(fs.V()) && fs.itable == old(fs.itable) && fs.own == old(fs.own)
    ensures k == Unused(Dir(fs, x))
  {
    hide Cache.Valid, View, Inv, Content, HeldIn, StaleIn, Entries, Unused, DecodeDirent, Shadows;
    ghost var es := Dir(fs, x);
    k := 0;
    DirLength(fs, x);
    while DIRENT * k < fs.itable[x].size
      invariant k <= |es|
      invariant IsDir(fs, x) && fs.bc.Held() == old(fs.bc.Held())
      invariant fs.V() == old(fs.V()) && fs.itable == old(fs.itable) && fs.own == old(fs.own)
      invariant forall j :: 0 <= j < k ==> es[j].inum != 0
    {
      var e := ReadEntry(fs, x, k);
      if e.inum == 0 {
        return;
      }
      k := k + 1;
    }
  }

  /** The comparison of dirunlink. */
  lemma BeginsWithCut(e: Dirent, name: seq<byte>)
    requires 0 !in name && |name| <= DIRSIZ
    ensures BeginsWith(e, name) <==> Cut(e.name, |name|) == Cut(name, |name|)
  {
    hide Cut;
    CutLength(name, |name|, |name|);
    var c, d := Cut(e.name, DIRSIZ), Cut(e.name, |name|);
    if name <= c {
      assert e.name[..|name|] == name;
      CutLength(e.name, |name|, |name|);
    }
    if d == name[..|name|] {
      CutLonger(e.name, |name|, DIRSIZ);
    }
  }

  lemma {:induction false} CutLonger(s: seq<byte>, m: nat, n: nat)
    requires m <= n
    ensures Cut(s, m) <= Cut(s, n)
    decreases m
  {
    if m > 0 && At(s, 0) != 0 {
      CutLonger(s[1..], m - 1, n - 1);
    }
  }

  /** dirunlink clears the entry Victim names, and keeps the reference that dirlookup took. A name longer
      than the field would make the comparison run past it, so the caller must pass at most 14 bytes. */
  method Dirunlink(fs: FileSys, x: nat, name: seq<byte>) returns (r: Outcome<int>)
    requires IsDir(fs, x) && |fs.bc.Held()| + 2 <= NBUF && 0 !in name && |name| <= DIRSIZ
    modifies fs`itable, fs`own, fs.bc
    ensures r.Panic? ==> AllInUse(fs.itable)
    ensures r.Panic? <==> DirStuck(old(fs.V()), old(fs.itable), old(fs.itable)[x].inum, old(Dir(fs, x)), UnlinkOp(name))
    ensures r.Done? ==> fs.bc.Held() == old(fs.bc.Held()) && IsDir(fs, x) && fs.itable[x].inum == old(fs.itable)[x].inum
    ensures r.Done? ==> r.value == if Find(old(Dir(fs, x)), Cut(name, DIRSIZ)) == None then -1 else 0
    ensures r == Done(-1) ==> fs.V() == old(fs.V()) && SameRefs(old(fs.itable), fs.itable)
    ensures r == Done(0) ==> LeftReferenced(old(fs.itable), fs.itable, Find(old(Dir(fs, x)), Cut(name, DIRSIZ)))
    ensures r == Done(0) ==>
      && Dir(fs, x) == Unlink(old(Dir(fs, x)), name)
      && OtherFiles(old(fs.V()), fs.V(), fs.itable[x].inum)
  {
    hide Cache.Valid, View, Inv, Content, HeldIn, StaleIn, Entries, Cut, SlotFor, Victim, DecodeDirent;
    ghost var es := Dir(fs, x);
    var ip := Dirlookup(fs, x, name);
    if ip.Panic? {
      return Panic;
    }
    if ip.value == -1 {
      return Done(-1);
    }
    var k, e := FindVictim(fs, x, name);
    DirLength(fs, x);
    FoundBeginsWith(es, name);
    if DIRENT * k == fs.itable[x].size {
      return Done(-1);
    }
    e := e.(inum := 0);
    r := WriteEntry(fs, x, k, e);
    assert OneMore(old(fs.itable), fs.itable, ip.value);
    return Done(0);
  }

  lemma FoundBeginsWith(es: seq<Dirent>, name: seq<byte>)
    requires 0 !in name && |name| <= DIRSIZ && Find(es, Cut(name, DIRSIZ)) != None
    ensures Victim(es, name) < |es|
  {
    hide Victim, SlotFor;
    var s := SlotFor(es, Cut(name, DIRSIZ));
    CutLength(name, DIRSIZ, |name|);
    assert name[..|name|] == name;
    assert BeginsWith(es[s], name);
  }

  /** The scan of dirunlink. */
  method FindVictim(fs: FileSys, x: nat, name: seq<byte>) returns (k: nat, e: Dirent)
    requires IsDir(fs, x) && |fs.bc.Held()| + 2 <= NBUF && 0 !in name && |name| <= DIRSIZ
    modifies fs`itable, fs`own, fs.bc
    ensures IsDir(fs, x) && fs.bc.Held() == old(fs.bc.Held())
    ensures fs.V() == old(fs.V()) && fs.itable == old(fs.itable) && fs.own == old(fs.own)
    ensures k == Victim(Dir(fs, x), name) && (k < |Dir(fs, x)| ==> e == Dir(fs, x)[k])
  {
    hide Cache.Valid, View, Inv, Content, HeldIn, StaleIn, Entries, Cut, BeginsWith, DecodeDirent, Shadows;
    ghost var es := Dir(fs, x);
    k := 0;
    e := Dirent(0, []);
    DirLength(fs, x);
    while DIRENT * k < fs.itable[x].size
      invariant k <= |es|
      invariant IsDir(fs, x) && fs.bc.Held() == old(fs.bc.Held())
      invariant fs.V() == old(fs.V()) && fs.itable == old(fs.itable) && fs.own == old(fs.own)
      invariant forall j :: 0 <= j < k ==> !BeginsWith(es[j], name)
    {
      e := ReadEntry(fs, x, k);
      BeginsWithCut(e, name);
      var c := Strncmp(e.name, name, |name|);
      if c == 0 {
        return;
      }
      k := k + 1;
    }
  }

  // ---------- runs on a file system ----------

  /** No entry more fits into a file. */
  predicate LargestDir(es: seq<Dirent>) {
    DIRENT * (|es| + 1) > MAXFILE * BSIZE
  }

  /** One call of dirlink or dirunlink. */
  method DoDirOp(fs: FileSys, x: nat, op: DirOp) returns (r: Outcome<int>)
    requires IsDir(fs, x) && |fs.bc.Held()| + 2 <= NBUF && NameOk(op) && (op.LinkOp? ==> 0 < op.inum < fs.sb.ninodes)
    modifies fs`itable, fs`own, fs.bc
    ensures r.Done? ==>
      && IsDir(fs, x) && fs.bc.Held() == old(fs.bc.Held()) && fs.itable[x].inum == old(fs.itable)[x].inum
      && Dir(fs, x) == DirStep(old(Dir(fs, x)), op)
      && (r.value == 0 || r.value == -1)
      && (r.value == 0 <==> (op.LinkOp? <==> Find(old(Dir(fs, x)), Cut(op.name, DIRSIZ)) == None))
      && OtherFiles(old(fs.V()), fs.V(), fs.itable[x].inum)
    ensures r.Panic? ==> AllInUse(fs.itable) || fs.Full() || LargestDir(old(Dir(fs, x)))
    ensures r.Panic? <==> DirStuck(old(fs.V()), old(fs.itable), old(fs.itable)[x].inum, old(Dir(fs, x)), op)
  {
    hide Cache.Valid, View, Inv, Content, HeldIn, StaleIn, Entries, Cut, Find, Link, Unlink, DirStuck;
    match op {
      case LinkOp(name, inum) => r := Dirlink(fs, x, name, inum);
      case UnlinkOp(name) => r := Dirunlink(fs, x, name);
    }
  }

  /** Any list of dirlink and dirunlink calls on a directory that looks up as m does, up to the first
      panic: it looks up as the map with the same changes, every call answers as the map
      does, and no other inode changes.  at and it are the device and the table of inodes just before the panic. */
  method RunDir(fs: FileSys, x: nat, ops: seq<DirOp>, ghost m: NameMap)
    returns (outs: seq<int>, panicked: bool, ghost at: Fs, ghost it: seq<MInode>)
    requires IsDir(fs, x) && |fs.bc.Held()| + 2 <= NBUF
    requires forall k :: 0 <= k < |ops| ==> NameOk(ops[k]) && (ops[k].LinkOp? ==> 0 < ops[k].inum < fs.sb.ninodes)
    requires Refines(Dir(fs, x), m) && Clear(Dir(fs, x), ops)
    modifies fs`itable, fs`own, fs.bc
    ensures panicked ==>
      |outs| < |ops| && (AllInUse(fs.itable) || fs.Full() || LargestDir(DirRun(old(Dir(fs, x)), ops[..|outs|])))
    ensures panicked ==>
      && outs <= MapRun(m, ops).1 && |at.inodes| == fs.sb.ninodes && OtherFiles(old(fs.V()), at, old(fs.itable)[x].inum)
      && var es := DirRun(old(Dir(fs, x)), ops[..|outs|]);
         Entries(Content(at, old(fs.itable)[x].inum)) == es && DirStuck(at, it, old(fs.itable)[x].inum, es, ops[|outs|])
    ensures !panicked ==>
      && IsDir(fs, x) && fs.itable[x].inum == old(fs.itable)[x].inum
      && Refines(Dir(fs, x), MapRun(m, ops).0) && outs == MapRun(m, ops).1
      && OtherFiles(old(fs.V()), fs.V(), fs.itable[x].inum)
  {
    hide Cache.Valid, View, Inv, Content, HeldIn, StaleIn, Entries, Cut, Find, DirStep, MapStep, ClearStep, Refines,
         NameOk, Shadows, LargestDir, AllInUse, DirStuck,
         OtherFiles, MapRun, DirRun, Answer, Clear, FileBytes, Dir, FileSys.Open, FileSys.Full;
    OtherFilesSame(fs.V(), fs.itable[x].inum);
    RunNothing(Dir(fs, x), m);
    ghost var m', es := m, Dir(fs, x);
    at, it := fs.V(), fs.itable;
    assert ops[..0] == [];
    outs, panicked := [], false;
    assert ops[0..] == ops && [] + MapRun(m, ops).1 == MapRun(m, ops).1;
    while |outs| < |ops|
      invariant |outs| <= |ops| && IsDir(fs, x) && fs.bc.Held() == old(fs.bc.Held()) && fs.itable[x].inum == old(fs.itable)[x].inum
      invariant Dir(fs, x) == DirRun(es, ops[..|outs|])
      invariant Refines(Dir(fs, x), m') && Clear(Dir(fs, x), ops[|outs|..])
      invariant MapRun(m, ops) == (MapRun(m', ops[|outs|..]).0, outs + MapRun(m', ops[|outs|..]).1)
      invariant OtherFiles(old(fs.V()), fs.V(), fs.itable[x].inum)
    {
      ghost var op, rest := ops[|outs|], ops[|outs| + 1..];
      assert ops[|outs|..] == [op] + rest;
      RunNext(Dir(fs, x), m', op, rest);
      StepRefines(Dir(fs, x), m', op);
      AnswerIs(Dir(fs, x), m', op);
      at, it := fs.V(), fs.itable;
      DirAt(fs, x);
      var r := DoDirOp(fs, x, ops[|outs|]);
      if r.Panic? {
        panicked := true;
        return;
      }
      OtherFilesTrans(old(fs.V()), at, fs.V(), fs.itable[x].inum);
      assert Answer(m', op) == r.value;
      assert outs + ([Answer(m', op)] + MapRun(MapStep(m', op), rest).1)
          == (outs + [Answer(m', op)]) + MapRun(MapStep(m', op), rest).1;
      DirRunMore(es, ops, |outs|);
      m' := MapStep(m', op);
      outs := outs + [r.value];
    }
    assert ops[|outs|..] == [];
    RunNothing(Dir(fs, x), m');
  }

  lemma DirAt(fs: FileSys, x: nat)
    requires IsDir(fs, x)
    ensures fs.itable[x].inum < |fs.V().inodes| == fs.sb.ninodes
    ensures Dir(fs, x) == Entries(Content(fs.V(), fs.itable[x].inum))
  {
    hide Cache.Valid, View, Inv, Content, Entries;
    fs.OpenIsBusy(x);
  }

  lemma RunNothing(es: seq<Dirent>, m: NameMap)
    ensures DirRun(es, []) == es && MapRun(m, []) == (m, [])
  {
  }

  lemma RunNext(es: seq<Dirent>, m: NameMap, op: DirOp, rest: seq<DirOp>)
    ensures MapRun(m, [op] + rest) == (MapRun(MapStep(m, op), rest).0, [Answer(m, op)] + MapRun(MapStep(m, op), rest).1)
    ensures Clear(es, [op] + rest) ==> ClearStep(es, op) && Clear(DirStep(es, op), rest)
  {
    hide DirStep, MapStep, Answer, ClearStep;
    assert ([op] + rest)[1..] == rest;
  }

  lemma {:induction false} DirRunMore(es: seq<Dirent>, ops: seq<DirOp>, k: nat)
    requires k < |ops|
    ensures DirRun(es, ops[..k + 1]) == DirStep(DirRun(es, ops[..k]), ops[k])
    decreases k
  {
    hide DirStep;
    if k == 0 {
      assert ops[..1][1..] == [];
    } else {
      assert ops[..k + 1][1..] == ops[1..][..k] && ops[..k][1..] == ops[1..][..k - 1];
      DirRunMore(DirStep(es, ops[0]), ops[1..], k - 1);
    }
  }

  /** The answer of the map is the one the entries give. */
  lemma AnswerIs(es: seq<Dirent>, m: NameMap, op: DirOp)
    requires Refines(es, m)
    ensures Answer(m, op) == if op.LinkOp? <==> Find(es, Cut(op.name, DIRSIZ)) == None then 0 else -1
  {
    hide Cut, Find;
  }
}
