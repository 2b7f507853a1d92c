/** The buffer cache (os/kernel/bio.c): NBUF buffers threaded on a doubly linked ring in
    most-recently-released order, in front of a block device. */
module BufferCache {
  import opened Bytes

  const NBUF: nat := 30
  const ROOTDEV: nat := 1
  /** Index of the list head, which is not a buffer. */
  const HEAD: nat := NBUF

  datatype Buf = Buf(valid: bool, dev: nat, blockno: nat, refcnt: nat, data: Block)

  // ---------- the linked ring ----------

  function Succ(n: nat, k: nat): nat {
    if k + 1 == n then 0 else k + 1
  }

  function Pred(n: nat, k: nat): nat
    requires n > 0
  {
    if k == 0 then n - 1 else k - 1
  }

  ghost predicate Distinct(s: seq<nat>) {
    forall j, k :: 0 <= j < k < |s| ==> s[j] != s[k]
  }

  /** The nodes of cyc, in this order, are linked both ways into a circle. */
  ghost predicate Ring(next: seq<nat>, prev: seq<nat>, cyc: seq<nat>) {
    && |next| == NBUF + 1 && |prev| == NBUF + 1 && |cyc| > 0
    && Distinct(cyc)
    && (forall k :: 0 <= k < |cyc| ==> cyc[k] <= NBUF)
    && (forall k :: 0 <= k < |cyc| ==> next[cyc[k]] == cyc[Succ(|cyc|, k)])
    && (forall k :: 0 <= k < |cyc| ==> prev[cyc[k]] == cyc[Pred(|cyc|, k)])
  }

  function RemoveAt(s: seq<nat>, p: nat): (r: seq<nat>)
    requires p < |s|
    ensures |r| == |s| - 1
    ensures forall k :: 0 <= k < |r| ==> r[k] == s[if k < p then k else k + 1]
  {
    s[..p] + s[p + 1..]
  }

  /** b->prev->next = b->next */
  function UnlinkedNext(next: seq<nat>, prev: seq<nat>, b: nat): (r: seq<nat>)
    requires b < |prev| && b < |next| && prev[b] < |next|
    ensures |r| == |next|
  {
    next[prev[b] := next[b]]
  }

  /** b->next->prev = b->prev */
  function UnlinkedPrev(next: seq<nat>, prev: seq<nat>, b: nat): (r: seq<nat>)
    requires b < |prev| && b < |next| && next[b] < |prev|
    ensures |r| == |prev|
  {
    prev[next[b] := prev[b]]
  }

  lemma UnlinkNext(next: seq<nat>, prev: seq<nat>, cyc: seq<nat>, p: nat, k: nat)
    requires Ring(next, prev, cyc)
    requires 1 <= p < |cyc| && k < |cyc| - 1
    ensures UnlinkedNext(next, prev, cyc[p])[RemoveAt(cyc, p)[k]] == RemoveAt(cyc, p)[Succ(|cyc| - 1, k)]
  {
    var q := if k < p then k else k + 1;
    assert cyc[q] == cyc[p - 1] <==> q == p - 1;
  }

  lemma UnlinkPrev(next: seq<nat>, prev: seq<nat>, cyc: seq<nat>, p: nat, k: nat)
    requires Ring(next, prev, cyc)
    requires 1 <= p < |cyc| && k < |cyc| - 1
    ensures UnlinkedPrev(next, prev, cyc[p])[RemoveAt(cyc, p)[k]] == RemoveAt(cyc, p)[Pred(|cyc| - 1, k)]
  {
    hide RemoveAt;
    var q := if k < p then k else k + 1;
    var s := Succ(|cyc|, p);
    assert RemoveAt(cyc, p)[k] == cyc[q];
    assert cyc[q] == cyc[s] <==> q == s;
  }

  lemma RemoveKeepsDistinct(cyc: seq<nat>, p: nat)
    requires Distinct(cyc) && p < |cyc|
    ensures Distinct(RemoveAt(cyc, p))
  {
    hide RemoveAt;
  }

  lemma UnlinkKeepsRing(next: seq<nat>, prev: seq<nat>, cyc: seq<nat>, p: nat)
    requires Ring(next, prev, cyc)
    requires 1 <= p < |cyc|
    ensures next[cyc[p]] <= NBUF && prev[cyc[p]] <= NBUF
    ensures Ring(UnlinkedNext(next, prev, cyc[p]), UnlinkedPrev(next, prev, cyc[p]), RemoveAt(cyc, p))
  {
    hide UnlinkedNext, UnlinkedPrev, RemoveAt, Distinct;
    RemoveKeepsDistinct(cyc, p);
    var c := RemoveAt(cyc, p);
    forall k | 0 <= k < |c|
      ensures UnlinkedNext(next, prev, cyc[p])[c[k]] == c[Succ(|c|, k)]
    {
      UnlinkNext(next, prev, cyc, p, k);
    }
    forall k | 0 <= k < |c|
      ensures UnlinkedPrev(next, prev, cyc[p])[c[k]] == c[Pred(|c|, k)]
    {
      UnlinkPrev(next, prev, cyc, p, k);
    }
  }

  lemma RingSize(next: seq<nat>, prev: seq<nat>, cyc: seq<nat>)
    requires Ring(next, prev, cyc)
    ensures |next| == NBUF + 1 && |prev| == NBUF + 1 && forall k :: 0 <= k < |cyc| ==> cyc[k] <= NBUF
  {
  }

  /** b->next = head.next; b->prev = &head; head.next->prev = b; head.next = b */
  lemma InsertKeepsRing(next: seq<nat>, prev: seq<nat>, cyc: seq<nat>, b: nat)
    requires Ring(next, prev, cyc)
    requires b <= NBUF && b !in cyc
    ensures next[cyc[0]] <= NBUF
    ensures Ring(next[b := next[cyc[0]]][cyc[0] := b], prev[b := cyc[0]][next[cyc[0]] := b], [cyc[0], b] + cyc[1..])
  {
    var h := cyc[0];
    var next' := next[b := next[h]][h := b];
    var prev' := prev[b := h][next[h] := b];
    var c := [h, b] + cyc[1..];
    var n := |c|;
    forall k | 0 <= k < n
      ensures next'[c[k]] == c[Succ(n, k)]
    {
      if k >= 2 {
        assert c[k] == cyc[k - 1];
      }
    }
    forall k | 0 <= k < n
      ensures prev'[c[k]] == c[Pred(n, k)]
    {
      if k >= 2 {
        assert c[k] == cyc[k - 1];
      }
    }
  }

  // ---------- contents ----------

  /** order is a permutation of the buffers, sorted by time of last release, latest first. */
  ghost predicate Recency(order: seq<nat>, stamp: seq<nat>, clock: nat) {
    && |order| == NBUF && |stamp| == NBUF && Distinct(order)
    && (forall b :: 0 <= b < NBUF ==> b in order)
    && (forall k :: 0 <= k < NBUF ==> order[k] < NBUF && stamp[order[k]] < clock)
    && (forall j, k :: 0 <= j < k < NBUF ==> stamp[order[j]] > stamp[order[k]])
  }

  /** order with its p-th element moved to the front. */
  function Promote(order: seq<nat>, p: nat): (r: seq<nat>)
    requires p < |order|
    ensures |r| == |order| && r[0] == order[p]
    ensures forall k :: 1 <= k < |r| ==> r[k] == order[if k <= p then k - 1 else k]
  {
    [order[p]] + RemoveAt(order, p)
  }

  lemma PromoteKeepsAll(order: seq<nat>, p: nat, b: nat)
    requires p < |order| && b in order
    ensures b in Promote(order, p)
  {
    hide Promote;
    var k :| 0 <= k < |order| && order[k] == b;
    assert b == Promote(order, p)[if k == p then 0 else if k < p then k + 1 else k];
  }

  /** Releasing a buffer now makes it the most recent one. */
  lemma ReleaseKeepsRecency(order: seq<nat>, stamp: seq<nat>, clock: nat, p: nat)
    requires Recency(order, stamp, clock) && p < NBUF
    ensures Recency(Promote(order, p), stamp[order[p] := clock], clock + 1)
  {
    hide Promote;
    forall b | 0 <= b < NBUF
      ensures b in Promote(order, p)
    {
      assert b in order;
      PromoteKeepsAll(order, p, b);
    }
  }

  /** At most one buffer holds each block of a real device. */
  ghost predicate Keyed(buf: seq<Buf>, blocks: nat) {
    && |buf| == NBUF
    && (forall i :: 0 <= i < NBUF && buf[i].valid ==> buf[i].dev == ROOTDEV)
    && (forall i :: 0 <= i < NBUF && buf[i].dev == ROOTDEV ==> buf[i].blockno < blocks)
    && (forall i, j :: 0 <= i < NBUF && 0 <= j < NBUF && i != j ==> !SameKey(buf[i], buf[j]))
  }

  predicate SameKey(a: Buf, b: Buf) {
    a.dev != 0 && a.dev == b.dev && a.blockno == b.blockno
  }

  predicate Matches(b: Buf, dev: nat, blockno: nat) {
    b.dev == dev && b.blockno == blockno
  }

  lemma RecycleKeepsKeys(buf: seq<Buf>, blocks: nat, r: nat, b: Buf)
    requires Keyed(buf, blocks) && r < NBUF
    requires forall i :: 0 <= i < NBUF ==> !Matches(buf[i], b.dev, b.blockno)
    requires b.dev == ROOTDEV && b.blockno < blocks
    ensures Keyed(buf[r := b], blocks)
  {
    var buf' := buf[r := b];
    forall i, j | 0 <= i < NBUF && 0 <= j < NBUF && i != j
      ensures !SameKey(buf'[i], buf'[j])
    {
      assert !SameKey(buf[i], buf[j]);
      assert !Matches(buf[i], b.dev, b.blockno) && !Matches(buf[j], b.dev, b.blockno);
    }
  }

  /** The referenced buffers: which block each holds, and how many times. */
  function HeldIn(buf: seq<Buf>): map<nat, (nat, nat)> {
    map i | 0 <= i < |buf| && buf[i].refcnt > 0 :: (buf[i].blockno, buf[i].refcnt)
  }

  predicate IsStale(b: Buf, disk: seq<Block>) {
    b.valid && b.blockno < |disk| && b.data != disk[b.blockno]
  }

  /** The cached blocks whose buffer is not what the device holds. */
  function StaleIn(buf: seq<Buf>, disk: seq<Block>): set<nat> {
    set i | 0 <= i < |buf| && IsStale(buf[i], disk) :: buf[i].blockno
  }

  lemma HeldAfter(buf: seq<Buf>, r: nat, b: Buf)
    requires r < |buf|
    ensures HeldIn(buf[r := b]) == if b.refcnt > 0 then HeldIn(buf)[r := (b.blockno, b.refcnt)] else HeldIn(buf) - {r}
  {
  }

  /** Changing buffer r and the device at its block affects the staleness of that block only. */
  lemma StaleAfter(buf: seq<Buf>, disk: seq<Block>, r: nat, b: Buf, disk': seq<Block>)
    requires Keyed(buf, |disk|) && |disk'| == |disk| && r < NBUF
    requires buf[r].valid && b.dev == ROOTDEV && b.blockno == buf[r].blockno
    requires forall n :: 0 <= n < |disk| && n != b.blockno ==> disk'[n] == disk[n]
    ensures StaleIn(buf[r := b], disk') ==
            StaleIn(buf, disk) - {b.blockno} + (if IsStale(b, disk') then {b.blockno} else {})
  {
    var buf' := buf[r := b];
    forall n
      ensures n in StaleIn(buf', disk') <==>
              n in StaleIn(buf, disk) - {b.blockno} + (if IsStale(b, disk') then {b.blockno} else {})
    {
      if n in StaleIn(buf', disk') {
        var i :| 0 <= i < NBUF && IsStale(buf'[i], disk') && buf'[i].blockno == n;
        assert i != r ==> !SameKey(buf[r], buf[i]);
      }
      if n in StaleIn(buf, disk) && n != b.blockno {
        var i :| 0 <= i < NBUF && IsStale(buf[i], disk) && buf[i].blockno == n;
        assert IsStale(buf'[i], disk');
      }
      if n == b.blockno && IsStale(b, disk') {
        assert IsStale(buf'[r], disk');
      }
    }
  }

  /** What the callers of bread see, when bread leaves buffer b at index r. */
  lemma ReadEffect(buf: seq<Buf>, disk: seq<Block>, r: nat, b: Buf)
    requires |buf| == NBUF && r < NBUF
    requires b.valid && b.dev == ROOTDEV && b.blockno < |disk|
    requires b.refcnt == buf[r].refcnt + 1
    requires buf[r].refcnt > 0 ==> buf[r].blockno == b.blockno && buf[r].data == b.data
    requires b.data == disk[b.blockno] || (buf[r].valid && buf[r].blockno == b.blockno && buf[r].data == b.data)
    ensures HeldIn(buf[r := b]) ==
            HeldIn(buf)[r := (b.blockno, 1 + if r in HeldIn(buf) then HeldIn(buf)[r].1 else 0)]
    ensures r in HeldIn(buf) ==> HeldIn(buf)[r].0 == b.blockno && HeldIn(buf)[r].1 > 0
    ensures forall j :: j in HeldIn(buf) ==> buf[r := b][j].data == buf[j].data
    ensures StaleIn(buf[r := b], disk) <= StaleIn(buf, disk)
    ensures b.blockno !in StaleIn(buf[r := b], disk) ==> b.data == disk[b.blockno]
  {
    HeldAfter(buf, r, b);
    assert IsStale(buf[r := b][r], disk) == IsStale(b, disk);
    forall n | n in StaleIn(buf[r := b], disk)
      ensures n in StaleIn(buf, disk)
    {
      var i :| 0 <= i < NBUF && IsStale(buf[r := b][i], disk) && buf[r := b][i].blockno == n;
      assert IsStale(buf[i], disk);
    }
  }

  lemma SameKeyKeepsKeys(buf: seq<Buf>, blocks: nat, r: nat, b: Buf)
    requires Keyed(buf, blocks) && r < NBUF
    requires b.dev == buf[r].dev && b.blockno == buf[r].blockno && (b.valid ==> b.dev == ROOTDEV)
    ensures Keyed(buf[r := b], blocks)
  {
    var buf' := buf[r := b];
    forall i, j | 0 <= i < NBUF && 0 <= j < NBUF && i != j
      ensures !SameKey(buf'[i], buf'[j])
    {
      assert !SameKey(buf[i], buf[j]);
    }
  }

  /** A buffer that is recycled was released before every other unreferenced one. */
  ghost predicate Oldest(buf: seq<Buf>, stamp: seq<nat>, dev: nat, blockno: nat, r: nat) {
    && r < |buf| && |stamp| == |buf|
    && (Matches(buf[r], dev, blockno) || forall i :: 0 <= i < |buf| && buf[i].refcnt == 0 ==> stamp[r] <= stamp[i])
  }

  /** The buffer of block n is referenced, or it is the one released last and not the only one free. */
  ghost predicate PinnedIn(buf: seq<Buf>, order: seq<nat>, n: nat) {
    forall i :: 0 <= i < |buf| && buf[i].valid && buf[i].blockno == n && buf[i].refcnt == 0 ==>
      order != [] && i == order[0] && exists j :: 0 <= j < |buf| && j != i && buf[j].refcnt == 0
  }

  lemma FirstIsLatest(order: seq<nat>, stamp: seq<nat>, clock: nat, j: nat)
    requires Recency(order, stamp, clock) && j < NBUF && j != order[0]
    ensures stamp[order[0]] > stamp[j]
  {
    assert j in order;
    var k :| 0 <= k < |order| && order[k] == j;
  }

  /** bread does not recycle such a buffer. */
  lemma PinnedStays(buf: seq<Buf>, disk: seq<Block>, order: seq<nat>, stamp: seq<nat>, clock: nat, blockno: nat, r: nat,
                    buf': seq<Buf>, n: nat)
    requires Keyed(buf, |disk|) && Recency(order, stamp, clock) && Oldest(buf, stamp, ROOTDEV, blockno, r)
    requires Fetched(buf, disk, blockno, r, buf') && n in StaleIn(buf, disk) && PinnedIn(buf, order, n)
    ensures n in StaleIn(buf', disk)
  {
    var i :| 0 <= i < |buf| && IsStale(buf[i], disk) && buf[i].blockno == n;
    if i == r && !Matches(buf[r], ROOTDEV, blockno) {
      var j :| 0 <= j < |buf| && j != i && buf[j].refcnt == 0;
      FirstIsLatest(order, stamp, clock, j);
      assert false;
    }
    assert IsStale(buf'[i], disk) && buf'[i].blockno == n;
  }

  lemma ReleasedIsPinned(buf: seq<Buf>, blocks: nat, order: seq<nat>, i: nat)
    requires Keyed(buf, blocks) && i < NBUF && buf[i].valid && |HeldIn(buf)| + 2 <= NBUF
    requires buf[i].refcnt == 0 ==> order != [] && order[0] == i
    ensures PinnedIn(buf, order, buf[i].blockno)
  {
    forall j | 0 <= j < |buf| && buf[j].valid && buf[j].blockno == buf[i].blockno
      ensures j == i
    {
      assert j != i ==> !SameKey(buf[j], buf[i]);
    }
    AnotherFree(buf, i);
  }

  /** While two buffers are free, each has another that is. */
  lemma AnotherFree(buf: seq<Buf>, i: nat)
    requires |buf| == NBUF && |HeldIn(buf)| + 2 <= NBUF
    ensures exists j :: 0 <= j < NBUF && j != i && buf[j].refcnt == 0
  {
    if forall j :: 0 <= j < NBUF && j != i ==> buf[j].refcnt > 0 {
      IndexSetSize(NBUF, HeldIn(buf).Keys + {i});
    }
  }

  // ---------- the cache ----------

  /** bread gives the buffer that has the block one more reference, or recycles an unreferenced one. */
  predicate Fetched(buf: seq<Buf>, disk: seq<Block>, blockno: nat, r: nat, buf': seq<Buf>) {
    && r < |buf| && blockno < |disk|
    && var b := buf[r];
       if Matches(b, ROOTDEV, blockno) then
         buf' == buf[r := b.(refcnt := b.refcnt + 1, valid := true, data := if b.valid then b.data else disk[blockno])]
       else
         && b.refcnt == 0 && (forall i :: 0 <= i < |buf| ==> !Matches(buf[i], ROOTDEV, blockno))
         && buf' == buf[r := Buf(true, ROOTDEV, blockno, 1, disk[blockno])]
  }

  lemma FetchedIs(buf: seq<Buf>, disk: seq<Block>, stamp: seq<nat>, blockno: nat, r: nat, b: Buf)
    requires r < |buf| == |stamp| && blockno < |disk|
    requires
      var a := buf[r];
      if Matches(a, ROOTDEV, blockno) then
        b == a.(refcnt := a.refcnt + 1, valid := true, data := if a.valid then a.data else disk[blockno])
      else
        && a.refcnt == 0 && b == Buf(true, ROOTDEV, blockno, 1, disk[blockno])
        && (forall i :: 0 <= i < |buf| ==> !Matches(buf[i], ROOTDEV, blockno))
        && (forall i :: 0 <= i < |buf| && buf[i].refcnt == 0 ==> stamp[r] <= stamp[i])
    ensures Fetched(buf, disk, blockno, r, buf[r := b]) && Oldest(buf, stamp, ROOTDEV, blockno, r)
  {
  }

  class Cache {
    var buf: seq<Buf>
    var next: seq<nat>
    var prev: seq<nat>
    /** The device behind the cache. */
    var disk: seq<Block>
    /** The buffers in list order, most recently released first. */
    ghost var order: seq<nat>
    /** When each buffer was last finally released, and the time of the next release. */
    ghost var stamp: seq<nat>
    ghost var clock: nat

    ghost predicate Lru()
      reads this`next, this`prev, this`order, this`stamp, this`clock
    {
      Ring(next, prev, [HEAD] + order) && Recency(order, stamp, clock)
    }

    ghost predicate Valid()
      reads this
    {
      && Lru() && Keyed(buf, |disk|)
      && (forall i :: 0 <= i < NBUF && buf[i].refcnt > 0 ==> buf[i].valid)
    }

    ghost function Held(): map<nat, (nat, nat)>
      reads this`buf
    {
      HeldIn(buf)
    }

    ghost function Stale(): set<nat>
      reads this`buf, this`disk
    {
      StaleIn(buf, disk)
    }

    ghost predicate Pinned(n: nat)
      reads this`buf, this`order
    {
      PinnedIn(buf, order, n)
    }

    lemma IsKeyed()
      requires Valid()
      ensures Keyed(buf, |disk|) && |buf| == NBUF == |stamp|
    {
      hide Ring;
    }

    lemma AtBuffer(i: nat)
      requires Valid() && i in Held()
      ensures i < NBUF == |buf| && Held()[i] == (buf[i].blockno, buf[i].refcnt) && buf[i].blockno < |disk| && buf[i].refcnt > 0
    {
      hide Lru;
    }

    /** A block whose buffer was just released is pinned. */
    lemma PinsReleased(i: nat)
      requires Valid() && i < NBUF && buf[i].valid && |Held()| + 2 <= NBUF
      requires buf[i].refcnt == 0 ==> order != [] && order[0] == i
      ensures Pinned(buf[i].blockno)
    {
      hide Lru, Keyed, PinnedIn, HeldIn;
      ReleasedIsPinned(buf, |disk|, order, i);
    }

    /** What bread keeps of the blocks out of step. */
    lemma KeepsPinned(c0: seq<Buf>, order0: seq<nat>, blockno: nat, r: nat)
      requires Valid() && order == order0 && Keyed(c0, |disk|) && Oldest(c0, stamp, ROOTDEV, blockno, r)
      requires Fetched(c0, disk, blockno, r, buf)
      ensures forall n :: n in StaleIn(c0, disk) && PinnedIn(c0, order0, n) ==> n in Stale()
    {
      hide Ring, Keyed, Fetched, Oldest, PinnedIn, StaleIn, Recency;
      forall n | n in StaleIn(c0, disk) && PinnedIn(c0, order0, n)
        ensures n in Stale()
      {
        PinnedStays(c0, disk, order0, stamp, clock, blockno, r, buf, n);
      }
    }

    /** Statically zeroed buffers are tagged (device 0, block 0) and not valid. */
    constructor (d: seq<Block>)
      ensures Valid() && disk == d && Held() == map[] && Stale() == {}
    {
      disk := d;
      buf := seq(NBUF, _ => Buf(false, 0, 0, 0, Zeros(BSIZE)));
      next := seq(NBUF + 1, _ => HEAD);
      prev := seq(NBUF + 1, _ => HEAD);
      order := [];
      stamp := seq(NBUF, i => i);
      clock := NBUF;
      new;
      Binit();
    }

    /** binit: every buffer is linked in right after the head. */
    method Binit()
      requires next == seq(NBUF + 1, _ => HEAD) && prev == seq(NBUF + 1, _ => HEAD)
      requires stamp == seq(NBUF, i => i) && clock == NBUF
      modifies this`next, this`prev, this`order
      ensures Lru()
    {
      hide Ring;
      order := [];
      EmptyRing();
      var b := 0;
      while b < NBUF
        invariant 0 <= b <= NBUF && |order| == b && Ring(next, prev, [HEAD] + order)
        invariant forall k :: 0 <= k < b ==> order[k] == b - 1 - k
      {
        RelinkFront(b, order);
        assert [HEAD, b] + order == [HEAD] + ([b] + order);
        order := [b] + order;
        b := b + 1;
      }
      forall c | 0 <= c < NBUF
        ensures c in order
      {
        assert order[NBUF - 1 - c] == c;
      }
    }

    /** First loop of bget: forward scan for the block. */
    method Find(dev: nat, blockno: nat) returns (r: int)
      requires Lru() && |buf| == NBUF
      ensures -1 <= r < NBUF
      ensures r >= 0 ==> Matches(buf[r], dev, blockno)
      ensures r < 0 ==> forall i :: 0 <= i < NBUF ==> !Matches(buf[i], dev, blockno)
    {
      ghost var cyc := [HEAD] + order;
      var b := next[HEAD];
      ghost var k := 0;
      assert HEAD == cyc[0];
      while b != HEAD
        invariant 0 <= k <= NBUF
        invariant b == if k == NBUF then HEAD else order[k]
        invariant forall m :: 0 <= m < k ==> !Matches(buf[order[m]], dev, blockno)
        decreases NBUF - k
      {
        if buf[b].dev == dev && buf[b].blockno == blockno {
          return b;
        }
        assert cyc[k + 1] == b;
        b := next[b];
        k := k + 1;
      }
      forall i | 0 <= i < NBUF
        ensures !Matches(buf[i], dev, blockno)
      {
        assert i in order;
      }
      return -1;
    }

    /** Second loop of bget: backward scan for the least recently released unreferenced buffer. */
    method FindVictim() returns (r: int)
      requires Lru() && |buf| == NBUF
      ensures -1 <= r < NBUF
      ensures r >= 0 ==> buf[r].refcnt == 0
      ensures r >= 0 ==> forall i :: 0 <= i < NBUF && buf[i].refcnt == 0 ==> stamp[r] <= stamp[i]
      ensures r < 0 ==> forall i :: 0 <= i < NBUF ==> buf[i].refcnt > 0
    {
      ghost var cyc := [HEAD] + order;
      assert HEAD == cyc[0];
      var b := prev[HEAD];
      ghost var k := NBUF;
      while b != HEAD
        invariant 0 <= k <= NBUF
        invariant b == if k == 0 then HEAD else order[k - 1]
        invariant forall m :: k <= m < NBUF ==> buf[order[m]].refcnt > 0
        decreases k
      {
        if buf[b].refcnt == 0 {
          forall i | 0 <= i < NBUF && buf[i].refcnt == 0
            ensures stamp[b] <= stamp[i]
          {
            assert i in order;
          }
          return b;
        }
        assert cyc[k] == b;
        b := prev[b];
        k := k - 1;
      }
      forall i | 0 <= i < NBUF
        ensures buf[i].refcnt > 0
      {
        assert i in order;
      }
      return -1;
    }

    /** bget: the buffer holding the block, or the least recently released unreferenced one;
        -1 stands for the panic "bget: no buffers". */
    method Get(dev: nat, blockno: nat) returns (r: int)
      requires Valid() && dev == ROOTDEV && blockno < |disk|
      modifies this`buf
      ensures Keyed(buf, |disk|)
      ensures -1 <= r < NBUF
      ensures r < 0 <==> forall i :: 0 <= i < NBUF ==> !Matches(old(buf)[i], dev, blockno) && old(buf)[i].refcnt > 0
      ensures r < 0 ==> buf == old(buf)
      ensures r >= 0 ==>
        var b := old(buf)[r];
        buf == old(buf)[r := if Matches(b, dev, blockno) then b.(refcnt := b.refcnt + 1)
                             else b.(dev := dev, blockno := blockno, valid := false, refcnt := 1)]
      ensures r >= 0 && !Matches(old(buf)[r], dev, blockno) ==>
        && old(buf)[r].refcnt == 0
        && (forall i :: 0 <= i < NBUF ==> !Matches(old(buf)[i], dev, blockno))
        && (forall i :: 0 <= i < NBUF && old(buf)[i].refcnt == 0 ==> stamp[r] <= stamp[i])
    {
      r := Find(dev, blockno);
      if r >= 0 {
        var b := buf[r].(refcnt := buf[r].refcnt + 1);
        SameKeyKeepsKeys(buf, |disk|, r, b);
        buf := buf[r := b];
        return;
      }
      r := FindVictim();
      if r >= 0 {
        var b := buf[r].(dev := dev, blockno := blockno, valid := false, refcnt := 1);
        RecycleKeepsKeys(buf, |disk|, r, b);
        buf := buf[r := b];
      }
    }

    /** bread */
    method Bread(dev: nat, blockno: nat) returns (r: int)
      requires Valid() && dev == ROOTDEV && blockno < |disk|
      modifies this`buf
      ensures Valid()
      ensures -1 <= r < NBUF
      ensures |old(Held())| < NBUF ==> r >= 0
      ensures r < 0 <==> forall i :: 0 <= i < NBUF ==> !Matches(old(buf)[i], dev, blockno) && old(buf)[i].refcnt > 0
      ensures r < 0 ==> buf == old(buf)
      ensures r >= 0 ==> Fetched(old(buf), disk, blockno, r, buf) && Oldest(old(buf), stamp, dev, blockno, r)
      ensures r >= 0 ==>
        && Held() == old(Held())[r := (blockno, 1 + if r in old(Held()) then old(Held())[r].1 else 0)]
        && (r in old(Held()) ==> old(Held())[r].0 == blockno && old(Held())[r].1 > 0)
        && (forall j :: j in old(Held()) ==> buf[j].data == old(buf)[j].data)
        && Stale() <= old(Stale())
        && (blockno !in Stale() ==> buf[r].data == disk[blockno])
    {
      hide Lru, Keyed, HeldIn, StaleIn, Fetched, Oldest, SameKey;
      IsKeyed();
      ghost var buf0 := buf;
      r := Get(dev, blockno);
      if r < 0 {
        AllHeld(buf);
        return;
      }
      var b := buf[r];
      if !b.valid {
        b := b.(data := disk[b.blockno], valid := true);
        SameKeyKeepsKeys(buf, |disk|, r, b);
        buf := buf[r := b];
      }
      assert buf == buf0[r := b];
      ReadEffect(buf0, disk, r, b);
      FetchedIs(buf0, disk, stamp, blockno, r, b);
    }

    /** In-place change of a buffer's bytes by a caller that holds it. */
    method Store(i: nat, d: Block)
      requires Valid() && i in Held()
      modifies this`buf
      ensures Valid() && Held() == old(Held())
      ensures buf == old(buf)[i := old(buf)[i].(data := d)]
      ensures Stale() == old(Stale()) - {Held()[i].0} + (if d == disk[Held()[i].0] then {} else {Held()[i].0})
    {
      var b := buf[i].(data := d);
      SameKeyKeepsKeys(buf, |disk|, i, b);
      HeldAfter(buf, i, b);
      StaleAfter(buf, disk, i, b, disk);
      buf := buf[i := b];
    }

    /** bwrite: the device takes the buffer's bytes. */
    method Bwrite(i: nat)
      requires Valid() && i in Held()
      modifies this`disk
      ensures Valid()
      ensures disk == old(disk)[Held()[i].0 := buf[i].data]
      ensures Stale() == old(Stale()) - {Held()[i].0}
    {
      StaleAfter(buf, disk, i, buf[i], disk[buf[i].blockno := buf[i].data]);
      assert buf[i := buf[i]] == buf;
      disk := disk[buf[i].blockno := buf[i].data];
    }

    /** Unlinks buffer i and links it again right after the head. */
    method MoveFront(i: nat)
      requires Lru() && i < NBUF
      modifies this`next, this`prev, this`order, this`stamp, this`clock
      ensures Lru()
      ensures order[0] == i
      ensures clock == old(clock) + 1 && stamp == old(stamp)[i := old(clock)]
    {
      hide Ring, RemoveAt, Promote, Recency;
      ghost var p := PlaceOf(order, stamp, clock, i);
      Unlink(i, p);
      RemovedIsGone(order, p);
      RelinkFront(i, RemoveAt(order, p));
      ReleaseKeepsRecency(order, stamp, clock, p);
      assert [HEAD, i] + RemoveAt(order, p) == [HEAD] + Promote(order, p);
      order := Promote(order, p);
      stamp := stamp[i := clock];
      clock := clock + 1;
    }

    method Unlink(i: nat, ghost p: nat)
      requires Ring(next, prev, [HEAD] + order) && p < |order| && order[p] == i
      modifies this`next, this`prev
      ensures Ring(next, prev, [HEAD] + RemoveAt(order, p))
    {
      hide Ring, Distinct, RemoveAt;
      ghost var cyc := [HEAD] + order;
      RingSize(next, prev, cyc);
      RemoveAfterHead(order, p);
      assert cyc[p + 1] == i;
      UnlinkKeepsRing(next, prev, cyc, p + 1);
      var nx, pv := next[i], prev[i];
      prev := prev[nx := pv];
      next := next[pv := nx];
    }

    method RelinkFront(i: nat, ghost rest: seq<nat>)
      requires Ring(next, prev, [HEAD] + rest) && i < NBUF && i !in [HEAD] + rest
      modifies this`next, this`prev
      ensures Ring(next, prev, [HEAD, i] + rest)
    {
      InsertKeepsRing(next, prev, [HEAD] + rest, i);
      assert ([HEAD] + rest)[1..] == rest;
      next := next[i := next[HEAD]];
      prev := prev[i := HEAD];
      prev := prev[next[HEAD] := i];
      next := next[HEAD := i];
    }

    /** brelse: the last release moves the buffer to the front of the list. */
    method Brelse(i: nat)
      requires Valid() && i in Held()
      modifies this`buf, this`next, this`prev, this`order, this`stamp, this`clock
      ensures Valid()
      ensures buf == old(buf)[i := old(buf)[i].(refcnt := old(buf)[i].refcnt - 1)]
      ensures Held() == if old(Held())[i].1 == 1 then old(Held()) - {i}
                        else old(Held())[i := (old(Held())[i].0, old(Held())[i].1 - 1)]
      ensures Stale() == old(Stale()) && buf[i].valid && (buf[i].refcnt == 0 ==> order != [] && order[0] == i)
      ensures if old(Held())[i].1 == 1
              then order[0] == i && clock == old(clock) + 1 && stamp == old(stamp)[i := old(clock)]
              else order == old(order) && stamp == old(stamp)
    {
      var b := buf[i].(refcnt := buf[i].refcnt - 1);
      SameKeyKeepsKeys(buf, |disk|, i, b);
      HeldAfter(buf, i, b);
      StaleAfter(buf, disk, i, b, disk);
      buf := buf[i := b];
      if buf[i].refcnt == 0 {
        MoveFront(i);
      }
    }
  }

  lemma RemoveAfterHead(order: seq<nat>, p: nat)
    requires p < |order|
    ensures RemoveAt([HEAD] + order, p + 1) == [HEAD] + RemoveAt(order, p)
  {
  }

  lemma PlaceOf(order: seq<nat>, stamp: seq<nat>, clock: nat, i: nat) returns (p: nat)
    requires Recency(order, stamp, clock) && i < NBUF
    ensures p < NBUF == |order| == |stamp| && order[p] == i && Distinct(order)
  {
    assert i in order;
    p :| p < NBUF && order[p] == i;
  }

  lemma EmptyRing()
    ensures Ring(seq(NBUF + 1, _ => HEAD), seq(NBUF + 1, _ => HEAD), [HEAD] + [])
  {
  }

  lemma RemovedIsGone(order: seq<nat>, p: nat)
    requires Distinct(order) && p < |order| && order[p] < NBUF
    ensures order[p] !in [HEAD] + RemoveAt(order, p)
  {
  }

  lemma AllHeld(buf: seq<Buf>)
    requires |buf| == NBUF && forall i :: 0 <= i < NBUF ==> buf[i].refcnt > 0
    ensures |HeldIn(buf)| >= NBUF
  {
    IndexSetSize(NBUF, HeldIn(buf).Keys);
  }

  lemma {:induction false} IndexSetSize(n: nat, s: set<nat>)
    requires forall i :: 0 <= i < n ==> i in s
    ensures |s| >= n
  {
    if n > 0 {
      IndexSetSize(n - 1, s - {n - 1});
    }
  }
}
