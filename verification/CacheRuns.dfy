/** Runs of bread, in-place change, bwrite and brelse over the buffer cache (os/kernel/bio.c), with any
    number of buffers held: what the device alone, and the bytes not yet written, would give. */
module CacheRuns {
  import opened Bytes
  import opened BufferCache

  /** One call, by block number: a block has at most one buffer. */
  datatype Access =
    | Read(blockno: nat)
    | Modify(blockno: nat, data: Block)
    | Write(blockno: nat)
    | Release(blockno: nat)

  /** The device, the bytes of blocks changed since they were last written, and how often each block
      is held. */
  datatype Flat = Flat(disk: seq<Block>, unwritten: map<nat, Block>, held: map<nat, nat>)

  /** What a use of the block sees. */
  function Now(s: Flat, b: nat): Block
    requires b < |s.disk|
  {
    if b in s.unwritten then s.unwritten[b] else s.disk[b]
  }

  function HeldStep(held: map<nat, nat>, op: Access): map<nat, nat> {
    match op
    case Read(b) => held[b := 1 + if b in held then held[b] else 0]
    case Release(b) => if b in held && held[b] > 1 then held[b := held[b] - 1] else held - {b}
    case _ => held
  }

  /** The caller holds what it changes, writes or releases. */
  predicate Legal(held: map<nat, nat>, ops: seq<Access>, blocks: nat)
    decreases |ops|
  {
    ops != [] ==>
      && ops[0].blockno < blocks && (ops[0].Read? || ops[0].blockno in held)
      && Legal(HeldStep(held, ops[0]), ops[1..], blocks)
  }

  /** How many more breads than brelses of block b there are. */
  function Excess(ops: seq<Access>, b: nat): int {
    if ops == [] then 0
    else (if ops[0] == Read(b) then 1 else if ops[0] == Release(b) then -1 else 0) + Excess(ops[1..], b)
  }

  function Count(held: map<nat, nat>, b: nat): nat { if b in held then held[b] else 0 }

  ghost predicate LegalAt(held: map<nat, nat>, ops: seq<Access>, k: nat, blocks: nat)
    requires k < |ops|
  {
    var b := ops[k].blockno;
    b < blocks && (ops[k].Read? || Count(held, b) + Excess(ops[..k], b) > 0)
  }

  /** All that is asked of the callers: a block that is changed, written or released has been read more often than
      released before. */
  lemma {:induction false} LegalIs(held: map<nat, nat>, ops: seq<Access>, blocks: nat)
    requires forall b :: b in held ==> held[b] > 0
    ensures Legal(held, ops, blocks) <==> forall k: nat :: k < |ops| ==> LegalAt(held, ops, k, blocks)
    decreases |ops|
  {
    if ops != [] {
      var held', rest := HeldStep(held, ops[0]), ops[1..];
      assert Excess(ops[..0], ops[0].blockno) == 0;
      assert LegalAt(held, ops, 0, blocks) <==> ops[0].blockno < blocks && (ops[0].Read? || ops[0].blockno in held);
      if LegalAt(held, ops, 0, blocks) {
        LegalIs(held', rest, blocks);
        forall k: nat | k < |rest|
          ensures LegalAt(held, ops, k + 1, blocks) <==> LegalAt(held', rest, k, blocks)
        {
          assert ops[..k + 1][1..] == rest[..k];
        }
        assert forall k: nat :: 0 < k < |ops| ==> LegalAt(held, ops, k, blocks) == LegalAt(held', rest, k - 1, blocks);
      }
    }
  }

  /** The step on the device and the unwritten bytes, when nothing is lost. */
  function DirectStep(s: Flat, op: Access): (r: Flat)
    ensures |r.disk| == |s.disk|
  {
    var b := op.blockno;
    var t := s.(held := HeldStep(s.held, op));
    if b >= |s.disk| then s
    else
      match op
      case Modify(_, d) => t.(unwritten := if d == s.disk[b] then s.unwritten - {b} else s.unwritten[b := d])
      case Write(_) => t.(disk := s.disk[b := Now(s, b)], unwritten := s.unwritten - {b})
      case _ => t
  }

  /** bread may recycle one buffer, and with it the unwritten bytes of a block nobody holds. */
  ghost predicate Step(s: Flat, op: Access, out: Block, s': Flat) {
    var t := DirectStep(s, op);
    && s'.disk == t.disk && s'.held == t.held && op.blockno < |s'.disk| && out == Now(s', op.blockno)
    && (!op.Read? ==> s'.unwritten == t.unwritten)
    && (op.Read? ==> s'.unwritten == s.unwritten
                     || exists lost :: lost in s.unwritten && lost !in s.held && lost != op.blockno
                                       && s'.unwritten == s.unwritten - {lost})
  }

  /** The states a run goes through, and what each call showed. */
  ghost predicate Follows(states: seq<Flat>, ops: seq<Access>, outs: seq<Block>) {
    && |states| == |outs| + 1 && |outs| <= |ops|
    && forall k :: 0 <= k < |outs| ==> Step(states[k], ops[k], outs[k], states[k + 1])
  }

  /** bget finds no buffer for the call: all 30 are held, by other blocks. */
  predicate NoRoom(s: Flat, op: Access) {
    op.Read? && op.blockno !in s.held && |s.held| >= 30
  }

  // ---------- disciplined runs ----------

  function DirectRun(s: Flat, ops: seq<Access>): (r: Flat) {
    if ops == [] then s else DirectStep(DirectRun(s, ops[..|ops| - 1]), ops[|ops| - 1])
  }

  /** No block is released for the last time with bytes not written. */
  ghost predicate Disciplined(s: Flat, ops: seq<Access>) {
    forall k :: 0 <= k <= |ops| ==> DirectRun(s, ops[..k]).unwritten.Keys <= DirectRun(s, ops[..k]).held.Keys
  }

  /** A disciplined run is the run on the device: nothing is ever lost. */
  lemma {:induction false} DisciplinedRun(states: seq<Flat>, ops: seq<Access>, outs: seq<Block>, k: nat)
    requires Follows(states, ops, outs) && Disciplined(states[0], ops) && k <= |outs|
    ensures states[k] == DirectRun(states[0], ops[..k])
    ensures k > 0 ==> ops[k - 1].blockno < |states[k].disk| && outs[k - 1] == Now(states[k], ops[k - 1].blockno)
    decreases k
  {
    if k > 0 {
      DisciplinedRun(states, ops, outs, k - 1);
      assert ops[..k][..k - 1] == ops[..k - 1];
      assert Step(states[k - 1], ops[k - 1], outs[k - 1], states[k]);
      assert states[k - 1].unwritten.Keys <= states[k - 1].held.Keys;
    } else {
      assert ops[..0] == [];
    }
  }

  // ---------- the cache in these terms ----------

  /** u holds the bytes of exactly the blocks whose buffer differs from the device. */
  ghost predicate Agrees(buf: seq<Buf>, disk: seq<Block>, u: map<nat, Block>) {
    && u.Keys == StaleIn(buf, disk)
    && forall i :: 0 <= i < |buf| && IsStale(buf[i], disk) ==> buf[i].blockno in u && u[buf[i].blockno] == buf[i].data
  }

  /** at says where the held blocks are; no other buffer is referenced. */
  ghost predicate HoldsAt(buf: seq<Buf>, held: map<nat, nat>, at: map<nat, nat>) {
    && at.Keys == held.Keys
    && (forall b :: b in at ==> at[b] < |buf| && buf[at[b]].blockno == b && buf[at[b]].refcnt == held[b] > 0)
    && forall i :: 0 <= i < |buf| && buf[i].refcnt > 0 ==> buf[i].blockno in at && at[buf[i].blockno] == i
  }

  ghost predicate Models(c: Cache, s: Flat, at: map<nat, nat>)
    reads c
  {
    c.Valid() && c.disk == s.disk && Agrees(c.buf, c.disk, s.unwritten) && HoldsAt(c.buf, s.held, at)
  }

  /** The cache is sound as far as single buffers go. */
  ghost predicate Sound(buf: seq<Buf>, blocks: nat) {
    Keyed(buf, blocks) && forall i :: 0 <= i < |buf| && buf[i].refcnt > 0 ==> buf[i].valid
  }

  /** The block a valid buffer shows. */
  lemma Shows(buf: seq<Buf>, disk: seq<Block>, s: Flat, r: nat)
    requires Sound(buf, |disk|) && Agrees(buf, disk, s.unwritten) && s.disk == disk
    requires r < |buf| && buf[r].valid && buf[r].blockno < |disk|
    ensures Now(s, buf[r].blockno) == buf[r].data
  {
    if buf[r].blockno in s.unwritten && !IsStale(buf[r], disk) {
      var i :| 0 <= i < |buf| && IsStale(buf[i], disk) && buf[i].blockno == buf[r].blockno;
      assert SameKey(buf[i], buf[r]);
    }
  }

  /** A buffer, and the device at its block, change. */
  lemma AgreesAfter(buf: seq<Buf>, disk: seq<Block>, u: map<nat, Block>, r: nat, b: Buf, disk': seq<Block>)
    requires Sound(buf, |disk|) && Agrees(buf, disk, u) && |disk'| == |disk| && r < NBUF
    requires buf[r].valid && b.valid && b.dev == ROOTDEV && b.blockno == buf[r].blockno < |disk|
    requires forall n :: 0 <= n < |disk| && n != b.blockno ==> disk'[n] == disk[n]
    ensures Agrees(buf[r := b], disk', if b.data == disk'[b.blockno] then u - {b.blockno} else u[b.blockno := b.data])
  {
    var buf' := buf[r := b];
    StaleAfter(buf, disk, r, b, disk');
    forall i | 0 <= i < |buf'| && i != r && IsStale(buf'[i], disk')
      ensures buf'[i].blockno != b.blockno && IsStale(buf[i], disk)
    {
      assert !SameKey(buf[i], buf[r]);
    }
  }

  lemma Different(buf: seq<Buf>, blocks: nat, i: nat, j: nat)
    requires Sound(buf, blocks) && i < |buf| && j < |buf| && i != j
    ensures |buf| == NBUF && !SameKey(buf[i], buf[j])
    ensures buf[i].valid ==> buf[i].dev == ROOTDEV && buf[i].blockno < blocks
    ensures buf[j].valid ==> buf[j].dev == ROOTDEV && buf[j].blockno < blocks
  {
  }

  /** bread loses at most the unwritten bytes of the buffer it recycles. */
  lemma AgreesFetched(buf: seq<Buf>, disk: seq<Block>, u: map<nat, Block>, blockno: nat, r: nat, buf': seq<Buf>)
    requires Sound(buf, |disk|) && Agrees(buf, disk, u) && r < NBUF && Fetched(buf, disk, blockno, r, buf')
    ensures var lost := buf[r].blockno;
            if !Matches(buf[r], ROOTDEV, blockno) && IsStale(buf[r], disk) then Agrees(buf', disk, u - {lost})
            else Agrees(buf', disk, u)
  {
    hide Sound, Keyed;
    var lost := buf[r].blockno;
    var u' := if !Matches(buf[r], ROOTDEV, blockno) && IsStale(buf[r], disk) then u - {lost} else u;
    forall n
      ensures n in StaleIn(buf', disk) <==> n in u'
    {
      if n in u' {
        var i :| 0 <= i < |buf| && IsStale(buf[i], disk) && buf[i].blockno == n;
        assert IsStale(buf'[i], disk) && buf'[i].blockno == n;
      }
      if n in StaleIn(buf', disk) {
        var i :| 0 <= i < |buf| && IsStale(buf'[i], disk) && buf'[i].blockno == n;
        assert IsStale(buf[i], disk);
        if i != r { Different(buf, |disk|, i, r); }
      }
    }
    assert u'.Keys == StaleIn(buf', disk);
  }

  // ---------- runs ----------

  /** The buffers in which the blocks got are held. */
  function Places(at: map<nat, nat>, got: set<nat>): set<nat>
    requires got <= at.Keys
  {
    set b | b in got :: at[b]
  }

  lemma {:induction false} PlacesSize(at: map<nat, nat>, got: set<nat>)
    requires got <= at.Keys && forall b, c :: b in got && c in got && at[b] == at[c] ==> b == c
    ensures |Places(at, got)| == |got|
    decreases |got|
  {
    if got != {} {
      var b :| b in got;
      PlacesSize(at, got - {b});
      assert Places(at, got) == Places(at, got - {b}) + {at[b]};
    }
  }

  function Range(n: nat): (r: set<nat>)
    ensures |r| == n && forall i: nat :: i in r <==> i < n
  {
    if n == 0 then {} else Range(n - 1) + {n - 1}
  }

  lemma {:induction false} SubsetSize(a: set<nat>, b: set<nat>)
    requires a <= b
    ensures |a| <= |b| && (|a| == |b| ==> a == b)
    decreases |a|
  {
    if a != {} {
      var x :| x in a;
      SubsetSize(a - {x}, b - {x});
      assert a == (a - {x}) + {x} && b == (b - {x}) + {x};
    }
  }

  lemma CacheSound(c: Cache)
    requires c.Valid()
    ensures Sound(c.buf, |c.disk|)
  {
    hide Cache.Lru;
  }

  lemma PlaceIs(buf: seq<Buf>, held: map<nat, nat>, at: map<nat, nat>, i: nat)
    requires HoldsAt(buf, held, at) && i < |buf|
    ensures i in Places(at, at.Keys) <==> buf[i].refcnt > 0
  {
    if buf[i].refcnt > 0 {
      assert at[buf[i].blockno] in Places(at, at.Keys);
    }
  }

  lemma PlacesBound(buf: seq<Buf>, held: map<nat, nat>, at: map<nat, nat>)
    requires HoldsAt(buf, held, at)
    ensures |Places(at, at.Keys)| == |held| && forall i :: i in Places(at, at.Keys) ==> i < |buf|
  {
    PlacesSize(at, at.Keys);
    assert |held| == |held.Keys| == |at.Keys|;
  }

  lemma HeldPlaces(buf: seq<Buf>, held: map<nat, nat>, at: map<nat, nat>)
    requires HoldsAt(buf, held, at) && |buf| == NBUF
    ensures |held| <= NBUF
    ensures |held| == NBUF <==> forall i :: 0 <= i < NBUF ==> buf[i].refcnt > 0
  {
    hide HoldsAt, Places;
    var p := Places(at, at.Keys);
    PlacesBound(buf, held, at);
    SubsetSize(p, Range(NBUF));
    forall i | 0 <= i < NBUF
      ensures i in p <==> buf[i].refcnt > 0
    {
      PlaceIs(buf, held, at, i);
    }
    if forall i :: 0 <= i < NBUF ==> buf[i].refcnt > 0 {
      assert p == Range(NBUF);
    }
  }

  /** bget has no buffer left exactly when NBUF other blocks are held. */
  lemma RoomFor(buf: seq<Buf>, blocks: nat, s: Flat, at: map<nat, nat>, b: nat)
    requires Sound(buf, blocks) && HoldsAt(buf, s.held, at) && b < blocks
    ensures NoRoom(s, Read(b)) <==> forall i :: 0 <= i < NBUF ==> !Matches(buf[i], ROOTDEV, b) && buf[i].refcnt > 0
  {
    HeldPlaces(buf, s.held, at);
    if b in s.held {
      assert Matches(buf[at[b]], ROOTDEV, b);
    }
  }

  /** The buffer of a held block is the only one that matches it. */
  lemma HeldMatches(buf: seq<Buf>, blocks: nat, held: map<nat, nat>, at: map<nat, nat>, b: nat)
    requires Sound(buf, blocks) && HoldsAt(buf, held, at) && b in at
    ensures at[b] < |buf| && Matches(buf[at[b]], ROOTDEV, b)
    ensures forall i :: 0 <= i < |buf| && Matches(buf[i], ROOTDEV, b) ==> i == at[b]
  {
    forall i | 0 <= i < |buf| && Matches(buf[i], ROOTDEV, b)
      ensures i == at[b]
    {
      assert i != at[b] ==> !SameKey(buf[at[b]], buf[i]);
    }
  }

  lemma HoldsFetched(buf: seq<Buf>, disk: seq<Block>, held: map<nat, nat>, b: nat, r: nat, buf': seq<Buf>, at: map<nat, nat>)
    requires Sound(buf, |disk|) && HoldsAt(buf, held, at) && Fetched(buf, disk, b, r, buf')
    ensures HoldsAt(buf', HeldStep(held, Read(b)), at[b := r])
  {
    hide Sound, HoldsAt;
    if b in at {
      HeldMatches(buf, |disk|, held, at, b);
    }
    HoldsTake(buf, held, b, r, buf'[r], at);
  }

  /** Buffer r becomes, or already is, the one that holds block b, and gets a reference. */
  lemma HoldsTake(buf: seq<Buf>, held: map<nat, nat>, b: nat, r: nat, nb: Buf, at: map<nat, nat>)
    requires HoldsAt(buf, held, at) && r < |buf|
    requires nb.valid && nb.dev == ROOTDEV && nb.blockno == b && nb.refcnt == buf[r].refcnt + 1
    requires if Matches(buf[r], ROOTDEV, b) then b in at ==> at[b] == r else b !in at && buf[r].refcnt == 0
    ensures HoldsAt(buf[r := nb], HeldStep(held, Read(b)), at[b := r])
  {
    assert buf[r].refcnt > 0 ==> buf[r].blockno in at && at[buf[r].blockno] == r;
    forall c | c in at && c != b
      ensures at[c] != r
    {
      assert buf[at[c]].refcnt > 0;
    }
  }

  /** The state after bread. */
  lemma ReadState(buf: seq<Buf>, disk: seq<Block>, s: Flat, b: nat, r: nat, buf': seq<Buf>, at: map<nat, nat>) returns (s': Flat)
    requires Sound(buf, |disk|) && Sound(buf', |disk|) && Agrees(buf, disk, s.unwritten) && HoldsAt(buf, s.held, at)
    requires s.disk == disk && Fetched(buf, disk, b, r, buf')
    ensures s'.disk == disk && Agrees(buf', disk, s'.unwritten) && HoldsAt(buf', s'.held, at[b := r])
    ensures r < |buf'| && Step(s, Read(b), buf'[r].data, s')
  {
    var lost := buf[r].blockno;
    AgreesFetched(buf, disk, s.unwritten, b, r, buf');
    HoldsFetched(buf, disk, s.held, b, r, buf', at);
    var drop := !Matches(buf[r], ROOTDEV, b) && IsStale(buf[r], disk);
    s' := Flat(disk, if drop then s.unwritten - {lost} else s.unwritten, HeldStep(s.held, Read(b)));
    Shows(buf', disk, s', r);
    if drop {
      NotHeld(buf, disk, s, r, at);
      assert lost != b;
    }
    hide Agrees, HoldsAt, Sound;
  }

  lemma NotHeld(buf: seq<Buf>, disk: seq<Block>, s: Flat, r: nat, at: map<nat, nat>)
    requires Sound(buf, |disk|) && Agrees(buf, disk, s.unwritten) && HoldsAt(buf, s.held, at)
    requires r < |buf| && buf[r].refcnt == 0 && IsStale(buf[r], disk)
    ensures buf[r].blockno in s.unwritten && buf[r].blockno !in s.held
  {
    var n := buf[r].blockno;
    if n in at {
      assert SameKey(buf[at[n]], buf[r]);
    }
  }

  lemma ReleaseAgrees(buf: seq<Buf>, disk: seq<Block>, u: map<nat, Block>, r: nat, b: Buf)
    requires Agrees(buf, disk, u) && r < |buf| && b == buf[r].(refcnt := b.refcnt)
    ensures Agrees(buf[r := b], disk, u)
  {
    var buf' := buf[r := b];
    forall n
      ensures n in StaleIn(buf', disk) <==> n in StaleIn(buf, disk)
    {
      if n in StaleIn(buf, disk) {
        var i :| 0 <= i < |buf| && IsStale(buf[i], disk) && buf[i].blockno == n;
        assert IsStale(buf'[i], disk);
      }
    }
  }

  lemma Fresh(buf: seq<Buf>, disk: seq<Block>)
    requires HeldIn(buf) == map[] && StaleIn(buf, disk) == {}
    ensures Agrees(buf, disk, map[]) && HoldsAt(buf, map[], map[])
  {
    forall i | 0 <= i < |buf|
      ensures buf[i].refcnt == 0 && !IsStale(buf[i], disk)
    {
      assert i !in HeldIn(buf);
      assert buf[i].blockno !in StaleIn(buf, disk);
    }
  }

  lemma LegalNext(s: Flat, ops: seq<Access>, blocks: nat)
    requires Legal(s.held, ops, blocks) && ops != []
    ensures ops[0].blockno < blocks && (ops[0].Read? || ops[0].blockno in s.held)
    ensures Legal(HeldStep(s.held, ops[0]), ops[1..], blocks)
  {
  }

  lemma StepShape(s: Flat, op: Access, out: Block, s': Flat)
    requires Step(s, op, out, s') && op.blockno < |s.disk|
    ensures |s'.disk| == |s.disk| && s'.held == HeldStep(s.held, op)
  {
  }

  // ---------- calls on the cache ----------

  method Do(c: Cache, op: Access, at: map<nat, nat>, ghost s: Flat)
    returns (out: Block, panicked: bool, at': map<nat, nat>, ghost s': Flat)
    requires Models(c, s, at) && op.blockno < |c.disk| && (op.Read? || op.blockno in s.held)
    modifies c
    ensures panicked <==> NoRoom(s, op)
    ensures !panicked ==> Models(c, s', at') && Step(s, op, out, s')
  {
    hide Cache.Valid, Agrees, HoldsAt, Step;
    panicked, at' := false, at;
    match op {
      case Read(b) => out, panicked, at', s' := DoRead(c, b, at, s);
      case Modify(b, d) => out := d; s' := DoModify(c, b, d, at, s);
      case Write(b) => out, s' := DoWrite(c, b, at, s);
      case Release(b) => out, at', s' := DoRelease(c, b, at, s);
    }
  }

  method DoRead(c: Cache, b: nat, at: map<nat, nat>, ghost s: Flat)
    returns (out: Block, panicked: bool, at': map<nat, nat>, ghost s': Flat)
    requires Models(c, s, at) && b < |c.disk|
    modifies c
    ensures panicked <==> NoRoom(s, Read(b))
    ensures !panicked ==> Models(c, s', at') && Step(s, Read(b), out, s')
  {
    hide Cache.Valid, Agrees, HoldsAt, Sound, Step, NoRoom, Fetched;
    out, at', s' := Zeros(BSIZE), at, s;
    CacheSound(c);
    RoomFor(c.buf, |c.disk|, s, at, b);
    var r := c.Bread(ROOTDEV, b);
    panicked := r < 0;
    if !panicked {
      CacheSound(c);
      s' := ReadState(old(c.buf), c.disk, s, b, r, c.buf, at);
      out := c.buf[r].data;
      at' := at[b := r];
    }
  }

  /** What a caller that holds block b knows of its buffer. */
  lemma HeldBuffer(c: Cache, s: Flat, at: map<nat, nat>, b: nat)
    requires Models(c, s, at) && b in s.held && b < |c.disk|
    ensures Sound(c.buf, |c.disk|) && b in at && at[b] in c.Held() && c.Held()[at[b]].0 == b && |c.buf| == NBUF && at[b] < NBUF
    ensures c.buf[at[b]].valid && c.buf[at[b]].dev == ROOTDEV && c.buf[at[b]].blockno == b && c.buf[at[b]].refcnt == s.held[b]
    ensures Now(s, b) == c.buf[at[b]].data
  {
    hide Cache.Valid, Agrees;
    CacheSound(c);
    Shows(c.buf, c.disk, s, at[b]);
  }

  lemma HoldsSame(buf: seq<Buf>, held: map<nat, nat>, at: map<nat, nat>, r: nat, b: Buf)
    requires HoldsAt(buf, held, at) && r < |buf| && b.blockno == buf[r].blockno && b.refcnt == buf[r].refcnt
    ensures HoldsAt(buf[r := b], held, at)
  {
  }

  method DoModify(c: Cache, b: nat, d: Block, at: map<nat, nat>, ghost s: Flat) returns (ghost s': Flat)
    requires Models(c, s, at) && b in s.held && b < |c.disk|
    modifies c
    ensures Models(c, s', at) && Step(s, Modify(b, d), d, s')
  {
    hide Cache.Valid, Agrees, Sound, HoldsAt;
    HeldBuffer(c, s, at, b);
    c.Store(at[b], d);
    s' := DirectStep(s, Modify(b, d));
    AgreesAfter(old(c.buf), c.disk, s.unwritten, at[b], c.buf[at[b]], c.disk);
    HoldsSame(old(c.buf), s.held, at, at[b], c.buf[at[b]]);
  }

  method DoWrite(c: Cache, b: nat, at: map<nat, nat>, ghost s: Flat) returns (out: Block, ghost s': Flat)
    requires Models(c, s, at) && b in s.held && b < |c.disk|
    modifies c
    ensures Models(c, s', at) && Step(s, Write(b), out, s')
  {
    hide Cache.Valid, Agrees, Sound, HoldsAt;
    HeldBuffer(c, s, at, b);
    out := c.buf[at[b]].data;
    c.Bwrite(at[b]);
    s' := DirectStep(s, Write(b));
    AgreesAfter(c.buf, old(c.disk), s.unwritten, at[b], c.buf[at[b]], c.disk);
    assert c.buf[at[b] := c.buf[at[b]]] == c.buf;
  }

  lemma HoldsReleased(buf: seq<Buf>, held: map<nat, nat>, at: map<nat, nat>, b: nat)
    requires HoldsAt(buf, held, at) && b in at
    ensures HoldsAt(buf[at[b] := buf[at[b]].(refcnt := buf[at[b]].refcnt - 1)], HeldStep(held, Release(b)),
                    if held[b] > 1 then at else at - {b})
  {
  }

  method DoRelease(c: Cache, b: nat, at: map<nat, nat>, ghost s: Flat)
    returns (out: Block, at': map<nat, nat>, ghost s': Flat)
    requires Models(c, s, at) && b in s.held && b < |c.disk|
    modifies c
    ensures Models(c, s', at') && Step(s, Release(b), out, s')
  {
    hide Cache.Valid, Agrees, Sound, HoldsAt;
    HeldBuffer(c, s, at, b);
    HoldsReleased(c.buf, s.held, at, b);
    out := c.buf[at[b]].data;
    c.Brelse(at[b]);
    s' := DirectStep(s, Release(b));
    ReleaseAgrees(old(c.buf), c.disk, s.unwritten, at[b], c.buf[at[b]]);
    at' := if c.buf[at[b]].refcnt > 0 then at else at - {b};
  }

  /** Any run of the four calls, from a cache nobody uses to the first call for which no buffer is left.
      It goes through states of the device and the unwritten bytes, and shows what they hold. */
  method Replay(c: Cache, ops: seq<Access>) returns (outs: seq<Block>, panicked: bool, ghost states: seq<Flat>)
    requires c.Valid() && c.Held() == map[] && c.Stale() == {} && Legal(map[], ops, |c.disk|)
    modifies c
    ensures Follows(states, ops, outs) && states[0] == Flat(old(c.disk), map[], map[])
    ensures forall k :: 0 <= k < |outs| ==> !NoRoom(states[k], ops[k])
    ensures if panicked then |outs| < |ops| && NoRoom(states[|outs|], ops[|outs|])
            else |outs| == |ops| && c.Valid() && c.disk == states[|outs|].disk
                 && c.Stale() == states[|outs|].unwritten.Keys
  {
    hide Cache.Valid, Legal, Step, NoRoom, HeldIn, StaleIn;
    outs, panicked := [], false;
    states := [Flat(c.disk, map[], map[])];
    var at := map[];
    Fresh(c.buf, c.disk);
    assert ops[0..] == ops;
    while |outs| < |ops|
      invariant |outs| <= |ops| && Follows(states, ops, outs) && states[0] == Flat(old(c.disk), map[], map[])
      invariant forall k :: 0 <= k < |outs| ==> !NoRoom(states[k], ops[k])
      invariant Models(c, states[|outs|], at) && |c.disk| == |old(c.disk)|
      invariant Legal(states[|outs|].held, ops[|outs|..], |c.disk|)
    {
      hide Agrees, HoldsAt;
      ghost var s := states[|outs|];
      var op := ops[|outs|];
      LegalNext(s, ops[|outs|..], |c.disk|);
      var out, no, at1;
      ghost var s';
      out, no, at1, s' := Do(c, op, at, s);
      if no {
        panicked := true;
        return;
      }
      StepShape(s, op, out, s');
      at := at1;
      assert ops[|outs|..][1..] == ops[|outs| + 1..];
      states, outs := states + [s'], outs + [out];
    }
  }
}
