/** The virtio block driver (os/kernel/virtio_disk.c) as a protocol: the driver submits
    three-descriptor chains, the device takes and completes them in any order, the interrupt
    handler consumes completions, and the waiting caller frees its chain. Each method is one
    atomic step; every interleaving of steps is allowed. */
module Virtio {
  import opened Bytes

  const NUM: nat := 8
  const WRAP: nat := 65536
  const F_NEXT: nat := 1
  const F_WRITE: nat := 2
  /** What a descriptor's address field points to. */
  datatype Ptr = Null | OpsPtr(op: nat) | DataPtr(buf: nat) | StatusPtr(info: nat)

  datatype Desc = Desc(addr: Ptr, len: nat, flags: nat, next: nat)

  /** struct virtio_blk_req: VIRTIO_BLK_T_OUT is write. */
  datatype Req = Req(write: bool, sector: nat)

  /** The driver's view of struct buf. */
  datatype Buf = Buf(disk: bool, blockno: nat, data: Block)

  datatype Phase = Queued | Taken | Completed(at: nat) | Acked(at: nat)

  /** A request in flight: its other two descriptors, its buffer, and how far it got. */
  datatype Chain = Chain(mid: nat, last: nat, buf: nat, write: bool, phase: Phase)

  /** One transfer performed by the device. */
  datatype Transfer = Transfer(buf: nat, blockno: nat, write: bool, data: Block)

  /** A step of the driver, the device or the interrupt handler. */
  datatype Move =
    | Start(buf: nat, write: bool)
    | Touch(buf: nat, blockno: nat, data: Block)
    | Take
    | Complete(head: nat)
    | Interrupt
    | End(head: nat)

  predicate HasNext(flags: nat) { flags % 2 == 1 }

  /** The device may write to the memory that the descriptor covers; otherwise it may read it. */
  predicate DeviceWrites(flags: nat) { flags / 2 % 2 == 1 }

  /** The medium after the writes of a log of transfers. */
  function Applied(m: seq<Block>, log: seq<Transfer>): (r: seq<Block>)
    ensures |r| == |m|
  {
    if log == [] then m
    else
      var t := log[|log| - 1];
      var p := Applied(m, log[..|log| - 1]);
      if t.write && t.blockno < |p| then p[t.blockno := t.data] else p
  }

  /** Every read delivered what the medium held when the device performed it. */
  ghost predicate TrueReads(m: seq<Block>, log: seq<Transfer>) {
    forall k :: 0 <= k < |log| && !log[k].write ==>
      log[k].blockno < |m| && log[k].data == Applied(m, log[..k])[log[k].blockno]
  }

  lemma ReadsMore(m: seq<Block>, log: seq<Transfer>, t: Transfer)
    requires TrueReads(m, log) && (!t.write ==> t.blockno < |m| && t.data == Applied(m, log)[t.blockno])
    ensures TrueReads(m, log + [t])
  {
    hide Applied;
    forall k | 0 <= k < |log + [t]| && !(log + [t])[k].write
      ensures (log + [t])[k].blockno < |m| && (log + [t])[k].data == Applied(m, (log + [t])[..k])[(log + [t])[k].blockno]
    {
      assert (log + [t])[..k] == if k < |log| then log[..k] else log;
    }
  }

  // ---------- counting ----------

  function CountFree(free: seq<bool>): nat {
    if free == [] then 0 else CountFree(free[..|free| - 1]) + if free[|free| - 1] then 1 else 0
  }

  lemma {:induction false} CountFreeSet(free: seq<bool>, i: nat, v: bool)
    requires i < |free| && free[i] != v
    ensures CountFree(free[i := v]) == CountFree(free) + if v then 1 else -1
    decreases |free|
  {
    var n := |free| - 1;
    if i < n {
      assert free[i := v][..n] == free[..n][i := v];
      CountFreeSet(free[..n], i, v);
    } else {
      assert free[i := v][..n] == free[..n];
    }
  }

  lemma {:induction false} CountFreeNone(free: seq<bool>)
    requires CountFree(free) == 0
    ensures forall i :: 0 <= i < |free| ==> !free[i]
    decreases |free|
  {
    if free != [] {
      CountFreeNone(free[..|free| - 1]);
    }
  }

  predicate NoDup(s: seq<nat>) {
    forall i, j :: 0 <= i < j < |s| ==> s[i] != s[j]
  }

  lemma {:induction false} NoDupSize(s: seq<nat>, a: set<nat>)
    requires NoDup(s) && forall x :: x in s ==> x in a
    ensures |s| <= |a|
    decreases |s|
  {
    if s != [] {
      var x := s[|s| - 1];
      assert x in s;
      NoDupSize(s[..|s| - 1], a - {x});
    }
  }

  // ---------- the invariant, over values ----------

  predicate Uses(h: nat, c: Chain, d: nat) {
    d == h || d == c.mid || d == c.last
  }

  /** Every descriptor is free or in exactly one chain. */
  ghost predicate Owned(free: seq<bool>, chains: map<nat, Chain>) {
    && |free| == NUM
    && (forall h :: h in chains ==> Shape(h, chains[h]) && Held(free, h, chains[h]))
    && (forall h, g :: h in chains && g in chains && h != g ==> Apart(h, chains[h], g, chains[g]))
    && CountFree(free) + 3 * |chains| == NUM
  }

  /** What the device is told: a header of 16 bytes that it reads, the 1024 bytes of the buffer, which it reads or
      writes, and one byte of status that it writes; sectors have 512 bytes. */
  predicate Requests(desc: seq<Desc>, ops: seq<Req>, h: nat, mid: nat, last: nat, b: nat, write: bool, blockno: nat)
    requires |desc| == 8 && |ops| == 8
  {
    && h < 8 && mid < 8 && last < 8 && h != mid && h != last && mid != last
    && desc[h] == Desc(OpsPtr(h), 16, 1, mid)
    && desc[mid] == Desc(DataPtr(b), 1024, if write then 1 else 3, last)
    && desc[last] == Desc(StatusPtr(h), 1, 2, 0)
    && ops[h].write == write && 512 * ops[h].sector == 1024 * blockno
  }

  /** Three different descriptors. */
  predicate Shape(h: nat, c: Chain) {
    h < NUM && c.mid < NUM && c.last < NUM && h != c.mid && h != c.last && c.mid != c.last
  }

  predicate Held(free: seq<bool>, h: nat, c: Chain) {
    |free| == NUM && Shape(h, c) && !free[h] && !free[c.mid] && !free[c.last]
  }

  ghost predicate Apart(h: nat, c: Chain, g: nat, d: Chain) {
    forall i: nat :: Uses(h, c, i) ==> !Uses(g, d, i)
  }

  /** Chain c with head h is laid out in descriptor memory for its request. */
  ghost predicate Formatted(desc: seq<Desc>, ops: seq<Req>, info: seq<Option<nat>>, buf: seq<Buf>, h: nat, c: Chain)
  {
    && |desc| == NUM && |ops| == NUM && |info| == NUM && h < NUM && c.mid < NUM && c.last < NUM && c.buf < |buf|
    && desc[h] == Desc(OpsPtr(h), 16, F_NEXT, c.mid)
    && desc[c.mid] == Desc(DataPtr(c.buf), BSIZE, if c.write then F_NEXT else F_NEXT + F_WRITE, c.last)
    && desc[c.last] == Desc(StatusPtr(h), 1, F_WRITE, 0)
    && ops[h] == Req(c.write, 2 * buf[c.buf].blockno)
    && info[h] == Some(c.buf)
  }

  ghost predicate AllFormatted(desc: seq<Desc>, ops: seq<Req>, info: seq<Option<nat>>, buf: seq<Buf>, chains: map<nat, Chain>) {
    forall h :: h in chains ==> Formatted(desc, ops, info, buf, h, chains[h])
  }

  /** ring holds the entries of q from 16-bit index lo up to index hi. */
  ghost predicate RingHolds(ring: seq<nat>, lo: nat, hi: nat, q: seq<nat>) {
    && |ring| == NUM && lo < WRAP && hi < WRAP && hi == (lo + |q|) % WRAP
    && forall k :: 0 <= k < |q| ==> ring[(lo + k) % NUM] == q[k]
  }

  /** q lists exactly the chains in a phase. */
  ghost predicate Lists(q: seq<nat>, chains: map<nat, Chain>, queued: bool) {
    && NoDup(q)
    && (forall h :: h in q ==> h in chains && if queued then chains[h].phase.Queued? else chains[h].phase.Completed?)
    && (forall h :: h in chains && (if queued then chains[h].phase.Queued? else chains[h].phase.Completed?) ==> h in q)
  }

  /** b->disk is set exactly while a request for b has not been acknowledged, and no buffer has
      two requests. */
  ghost predicate Flags(buf: seq<Buf>, blocks: nat, chains: map<nat, Chain>) {
    && (forall h, g :: h in chains && g in chains && h != g ==> chains[h].buf != chains[g].buf)
    && (forall h :: h in chains ==> chains[h].buf < |buf| && buf[chains[h].buf].blockno < blocks)
    && (forall h :: h in chains ==> buf[chains[h].buf].disk == !chains[h].phase.Acked?)
    && (forall b :: 0 <= b < |buf| && buf[b].disk ==> exists h :: h in chains && chains[h].buf == b)
  }

  /** Entry i of the log is the transfer that chain c asked for, with the data its buffer has. */
  predicate IsEntry(log: seq<Transfer>, i: nat, c: Chain, buf: seq<Buf>) {
    i < |log| && c.buf < |buf| && log[i] == Transfer(c.buf, buf[c.buf].blockno, c.write, buf[c.buf].data)
  }

  /** Finished requests have different entries in a log of n transfers. */
  ghost predicate Tickets(chains: map<nat, Chain>, n: nat) {
    && (forall h :: h in chains && Finished(chains[h]) ==> chains[h].phase.at < n)
    && (forall h, g :: h in chains && g in chains && h != g && Finished(chains[h]) && Finished(chains[g]) ==>
          chains[h].phase.at != chains[g].phase.at)
  }

  /** The log entries of the requests that are finished but not over. */
  function Done(chains: map<nat, Chain>): set<nat> {
    set h | h in chains && Finished(chains[h]) :: chains[h].phase.at
  }

  lemma TicketsSet(chains: map<nat, Chain>, n: nat, h: nat, c: Chain)
    requires Tickets(chains, n)
    requires Finished(c) ==> h in chains && Finished(chains[h]) && c.phase.at == chains[h].phase.at
    ensures Tickets(chains[h := c], n)
    ensures Done(chains[h := c]) <= Done(chains)
  {
  }

  lemma TicketsDone(chains: map<nat, Chain>, n: nat, h: nat, c: Chain)
    requires Tickets(chains, n) && c.phase == Completed(n)
    ensures Tickets(chains[h := c], n + 1)
    ensures Done(chains[h := c]) <= Done(chains) + {n}
  {
  }

  lemma TicketsRemove(chains: map<nat, Chain>, n: nat, h: nat)
    requires Tickets(chains, n) && h in chains && Finished(chains[h])
    ensures Tickets(chains - {h}, n)
    ensures Done(chains - {h}) <= Done(chains) && chains[h].phase.at in Done(chains)
    ensures chains[h].phase.at !in Done(chains - {h})
  {
  }

  predicate Finished(c: Chain) { c.phase.Completed? || c.phase.Acked? }

  /** A finished request is in the log with the data its buffer has, and was reported successful. */
  ghost predicate History(log: seq<Transfer>, status: seq<nat>, buf: seq<Buf>, chains: map<nat, Chain>) {
    forall h :: h in chains && Finished(chains[h]) ==>
      var c := chains[h];
      && c.phase.at < |log| && c.buf < |buf| && h < |status| && status[h] == 0
      && log[c.phase.at] == Transfer(c.buf, buf[c.buf].blockno, c.write, buf[c.buf].data)
  }

  lemma FlagsAdd(buf: seq<Buf>, blocks: nat, chains: map<nat, Chain>, h: nat, c: Chain)
    requires Flags(buf, blocks, chains) && h !in chains && c.phase.Queued?
    requires c.buf < |buf| && buf[c.buf].blockno < blocks
    requires forall g :: g in chains ==> chains[g].buf != c.buf
    ensures Flags(buf[c.buf := buf[c.buf].(disk := true)], blocks, chains[h := c])
  {
    var buf', chains' := buf[c.buf := buf[c.buf].(disk := true)], chains[h := c];
    forall b | 0 <= b < |buf| && buf'[b].disk
      ensures exists g :: g in chains' && chains'[g].buf == b
    {
      if b == c.buf {
        assert chains'[h].buf == b;
      } else {
        var g :| g in chains && chains[g].buf == b;
        assert g in chains' && chains'[g].buf == b;
      }
    }
  }

  lemma HistoryAdd(log: seq<Transfer>, status: seq<nat>, buf: seq<Buf>, chains: map<nat, Chain>, h: nat, c: Chain)
    requires History(log, status, buf, chains) && h !in chains && h < |status| && c.phase.Queued? && c.buf < |buf|
    ensures History(log, status[h := 0xfb], buf[c.buf := buf[c.buf].(disk := true)], chains[h := c])
  {
  }

  lemma RingPush(ring: seq<nat>, lo: nat, hi: nat, q: seq<nat>, h: nat)
    requires RingHolds(ring, lo, hi, q) && |q| < NUM
    ensures |ring| == NUM && RingHolds(ring[hi % NUM := h], lo, (hi + 1) % WRAP, q + [h])
  {
    assert hi % NUM == (lo + |q|) % NUM;
    var ring' := ring[hi % NUM := h];
    forall k | 0 <= k < |q + [h]|
      ensures ring'[(lo + k) % NUM] == (q + [h])[k]
    {
      if k < |q| {
        RingSlots(lo, k, |q|);
        assert ring[(lo + k) % NUM] == q[k];
      }
    }
  }

  /** Entries less than NUM apart have different slots. */
  lemma RingSlots(lo: nat, k: nat, m: nat)
    requires k < m < k + NUM
    ensures (lo + k) % NUM != (lo + m) % NUM
  {
  }

  lemma RingPop(ring: seq<nat>, lo: nat, hi: nat, q: seq<nat>)
    requires RingHolds(ring, lo, hi, q) && q != []
    ensures ring[lo % NUM] == q[0]
    ensures RingHolds(ring, (lo + 1) % WRAP, hi, q[1..])
  {
    assert q[0] == ring[(lo + 0) % NUM];
    NextIndex(lo, |q|);
    forall k | 0 <= k < |q[1..]|
      ensures ring[((lo + 1) % WRAP + k) % NUM] == q[1..][k]
    {
      SameSlot(lo, k);
      assert q[1..][k] == q[k + 1];
    }
  }

  /** 16-bit indices wrap around at a multiple of the ring's size. */
  lemma SameSlot(lo: nat, k: nat)
    requires lo < WRAP
    ensures ((lo + 1) % WRAP + k) % NUM == (lo + (k + 1)) % NUM
  {
    if lo + 1 == WRAP {
      assert lo + (k + 1) == NUM * 8192 + k;
    }
  }

  lemma NextIndex(lo: nat, n: nat)
    requires lo < WRAP && n > 0
    ensures ((lo + 1) % WRAP + (n - 1)) % WRAP == (lo + n) % WRAP
  {
    if lo + 1 == WRAP {
      assert lo + n == WRAP + (n - 1);
    }
  }

  lemma RingEmpty(ring: seq<nat>, lo: nat, hi: nat, q: seq<nat>)
    requires RingHolds(ring, lo, hi, q) && |q| < WRAP
    ensures lo == hi <==> q == []
  {
  }

  /** One block went the way the request says, and nothing else changed. */
  predicate Transferred(c: Chain, medium: seq<Block>, buf: seq<Buf>, medium': seq<Block>, buf': seq<Buf>) {
    && c.buf < |buf| && |buf'| == |buf| && buf[c.buf].blockno < |medium|
    && var b := buf[c.buf];
       if c.write then medium' == medium[b.blockno := b.data] && buf' == buf
       else medium' == medium && buf' == buf[c.buf := b.(data := medium[b.blockno])]
  }

  // ---------- the disk as a transition system ----------

  /** The requests in flight, the buffers, the medium, the transfers performed, and the heads queued for the device. */
  datatype Snap = Snap(chains: map<nat, Chain>, buf: seq<Buf>, medium: seq<Block>, log: seq<Transfer>, avail: seq<nat>)

  /** What each party must know before it acts: the kernel that a buffer has no request, the device
      which requests it has taken, a waiter that its buffer's flag is clear. */
  predicate Can(a: Snap, mv: Move) {
    match mv
    case Start(b, _) =>
      b < |a.buf| && !a.buf[b].disk && a.buf[b].blockno < |a.medium| && forall h :: h in a.chains ==> a.chains[h].buf != b
    case Touch(b, blockno, _) => b < |a.buf| && blockno < |a.medium| && forall h :: h in a.chains ==> a.chains[h].buf != b
    case Take => a.avail != []
    case Complete(h) => h in a.chains && a.chains[h].phase == Taken
    case Interrupt => true
    case End(h) => h in a.chains && a.chains[h].buf < |a.buf| && !a.buf[a.chains[h].buf].disk
  }

  /** Buffer b has a request with head h and the device can take it. */
  ghost predicate Started(a: Snap, b: nat, write: bool, h: nat, a': Snap)
    requires b < |a.buf|
  {
    && h !in a.chains && h in a'.chains && a'.chains[h].buf == b && a'.chains[h].write == write
    && a'.chains[h].phase == Queued
    && a' == a.(chains := a.chains[h := a'.chains[h]], buf := a.buf[b := a.buf[b].(disk := true)], avail := a.avail + [h])
  }

  /** The device performs the request at head h, whose entry is the next one of the log. */
  ghost predicate Performed(a: Snap, h: nat, a': Snap)
    requires h in a.chains
  {
    var c := a.chains[h];
    && Transferred(c, a.medium, a.buf, a'.medium, a'.buf)
    && a' == a.(chains := a.chains[h := c.(phase := Completed(|a.log|))], medium := a'.medium, buf := a'.buf,
                log := a.log + [Transfer(c.buf, a.buf[c.buf].blockno, c.write, a'.buf[c.buf].data)])
  }

  ghost predicate CompletedFor(chains: map<nat, Chain>, b: nat) {
    exists h :: h in chains && chains[h].phase.Completed? && chains[h].buf == b
  }

  /** Exactly the flags of the buffers with a completed request are cleared. */
  ghost predicate Cleared(chains: map<nat, Chain>, buf: seq<Buf>, buf': seq<Buf>) {
    && |buf'| == |buf|
    && forall b :: 0 <= b < |buf| ==> buf'[b] == if CompletedFor(chains, b) then buf[b].(disk := false) else buf[b]
  }

  /** With two requests in flight a third has to wait. */
  ghost predicate Effect(a: Snap, mv: Move, a': Snap)
    requires Can(a, mv)
  {
    match mv
    case Start(b, write) => if |a.chains| == 2 then a' == a else exists h :: Started(a, b, write, h, a')
    case Touch(b, blockno, d) => a' == a.(buf := a.buf[b := a.buf[b].(blockno := blockno, data := d)])
    case Take =>
      var h := a.avail[0];
      h in a.chains && a' == a.(chains := a.chains[h := a.chains[h].(phase := Taken)], avail := a.avail[1..])
    case Complete(h) => Performed(a, h, a')
    case Interrupt =>
      && a' == a.(chains := a'.chains, buf := a'.buf) && a'.chains.Keys == a.chains.Keys
      && (forall h :: h in a.chains ==> a'.chains[h] == Acknowledged(a.chains[h])) && Cleared(a.chains, a.buf, a'.buf)
    case End(h) => a' == a.(chains := a.chains - {h})
  }

  ghost predicate Next(a: Snap, mv: Move, a': Snap) {
    if Can(a, mv) then Effect(a, mv, a') else a' == a
  }

  /** When a move has its effect: a request for, or another use of, a buffer without one; the device with a head
      queued or a request taken; a waiter whose buffer's flag is clear. */
  lemma NextDoes(a: Snap, mv: Move, a': Snap)
    requires Next(a, mv, a')
    requires
      match mv
      case Start(b, _) =>
        b < |a.buf| && !a.buf[b].disk && a.buf[b].blockno < |a.medium| && forall h :: h in a.chains ==> a.chains[h].buf != b
      case Touch(b, blockno, _) => b < |a.buf| && blockno < |a.medium| && forall h :: h in a.chains ==> a.chains[h].buf != b
      case Take => |a.avail| > 0
      case Complete(h) => h in a.chains && a.chains[h].phase.Taken?
      case Interrupt => true
      case End(h) => h in a.chains && a.chains[h].buf < |a.buf| && !a.buf[a.chains[h].buf].disk
    ensures Can(a, mv) && Effect(a, mv, a')
  {
    hide Effect;
  }

  ghost predicate IsRun(trace: seq<Snap>, moves: seq<Move>) {
    |trace| == |moves| + 1 && forall k :: 0 <= k < |moves| ==> Next(trace[k], moves[k], trace[k + 1])
  }

  /** The log entry of the request that ends with a move. */
  function EndOf(a: Snap, mv: Move): seq<nat> {
    if mv.End? && Can(a, mv) && Finished(a.chains[mv.head]) then [a.chains[mv.head].phase.at] else []
  }

  /** Those of a run, in the order of its ends. */
  function Endings(trace: seq<Snap>, moves: seq<Move>): seq<nat>
    requires |moves| < |trace|
  {
    if moves == [] then [] else Endings(trace, moves[..|moves| - 1]) + EndOf(trace[|moves| - 1], moves[|moves| - 1])
  }

  lemma {:induction false} EndingsPrefix(trace: seq<Snap>, more: seq<Snap>, moves: seq<Move>)
    requires |moves| < |trace| && trace <= more
    ensures Endings(more, moves) == Endings(trace, moves)
  {
    if moves != [] {
      EndingsPrefix(trace, more, moves[..|moves| - 1]);
    }
  }

  lemma RunMore(trace: seq<Snap>, moves: seq<Move>, k: nat, b: Snap)
    requires k < |moves| && IsRun(trace, moves[..k]) && Next(trace[k], moves[k], b)
    ensures IsRun(trace + [b], moves[..k + 1])
    ensures Endings(trace + [b], moves[..k + 1]) == Endings(trace, moves[..k]) + EndOf(trace[k], moves[k])
  {
    hide Next, EndOf;
    assert moves[..k + 1][..k] == moves[..k];
    EndingsPrefix(trace, trace + [b], moves[..k]);
    forall j | 0 <= j < k + 1
      ensures Next((trace + [b])[j], moves[..k + 1][j], (trace + [b])[j + 1])
    {
      if j < k {
        assert Next(trace[j], moves[..k][j], trace[j + 1]);
      }
    }
  }

  /** When the interrupt handler is done: the flags that are clear are those of acknowledged requests. */
  lemma AllCleared(chains: map<nat, Chain>, buf: seq<Buf>, chains': map<nat, Chain>, buf': seq<Buf>, blocks: nat)
    requires Flags(buf', blocks, chains') && chains'.Keys == chains.Keys && |buf'| == |buf|
    requires forall h :: h in chains ==> chains'[h] == Acknowledged(chains[h])
    requires forall b :: 0 <= b < |buf| ==>
               buf'[b] == buf[b] || (buf'[b] == buf[b].(disk := false) && CompletedFor(chains, b))
    ensures Cleared(chains, buf, buf')
  {
    forall b | 0 <= b < |buf| && CompletedFor(chains, b)
      ensures !buf'[b].disk
    {
      var h :| h in chains && chains[h].phase.Completed? && chains[h].buf == b;
      assert chains'[h].phase.Acked?;
    }
  }

  class Disk {
    // shared with the device
    var desc: seq<Desc>
    var availIdx: nat
    var availRing: seq<nat>
    var usedIdx: nat
    var usedRing: seq<nat>
    var ops: seq<Req>
    var status: seq<nat>
    // the driver's own book-keeping
    var free: seq<bool>
    var seenIdx: nat
    var info: seq<Option<nat>>
    // the buffers of the cache
    var buf: seq<Buf>
    // the device: how far it has read the avail ring, and the medium
    var devIdx: nat
    var medium: seq<Block>
    // the requests in flight, known to the callers that wait and to the device, and every transfer
    // the device has performed
    var chains: map<nat, Chain>
    var log: seq<Transfer>
    // what the two rings hold, and the medium at the start
    ghost var avail: seq<nat>
    ghost var used: seq<nat>
    ghost var initial: seq<Block>

    ghost predicate Memory()
      reads this
    {
      && |desc| == NUM && |ops| == NUM && |info| == NUM && |status| == NUM
      && Owned(free, chains)
      && (forall h :: h in chains ==> Formatted(desc, ops, info, buf, h, chains[h]))
    }

    ghost predicate Rings()
      reads this
    {
      && RingHolds(availRing, devIdx, availIdx, avail) && Lists(avail, chains, true)
      && RingHolds(usedRing, seenIdx, usedIdx, used) && Lists(used, chains, false)
    }

    ghost predicate Valid()
      reads this
    {
      && Memory() && Rings() && Flags(buf, |medium|, chains)
      && medium == Applied(initial, log) && History(log, status, buf, chains)
      && TrueReads(initial, log) && Tickets(chains, |log|)
    }

    ghost function Now(): Snap
      reads this
    {
      Snap(chains, buf, medium, log, avail)
    }

    lemma Truth()
      requires Valid()
      ensures medium == Applied(initial, log)
      ensures forall k :: 0 <= k < |log| && !log[k].write ==>
                log[k].blockno < |initial| && log[k].data == Applied(initial, log[..k])[log[k].blockno]
    {
      hide Owned, Formatted, Flags, History, RingHolds, Lists, Applied, Tickets;
    }

    /** At most two requests are in flight, so neither ring ever holds more than two entries of
        its eight. */
    lemma AtMostTwo()
      requires Valid()
      ensures |chains| <= 2 && |avail| + |used| <= 2
    {
      hide Owned, Formatted, Flags, History, RingHolds, Applied, CountFree, TrueReads, Tickets;
      OwnedLength(free, chains);
      assert forall h :: h in avail + used ==> h in chains.Keys;
      forall i, j | 0 <= i < j < |avail + used|
        ensures (avail + used)[i] != (avail + used)[j]
      {
        assert (avail + used)[i] in (if i < |avail| then avail else used);
        assert (avail + used)[j] in (if j < |avail| then avail else used);
      }
      NoDupSize(avail + used, chains.Keys);
    }

    /** An initialised queue with nothing in flight. */
    constructor (b: seq<Buf>, m: seq<Block>)
      requires forall i :: 0 <= i < |b| ==> !b[i].disk
      ensures Valid() && chains == map[] && buf == b && medium == m
    {
      desc := seq(NUM, _ => Desc(Null, 0, 0, 0));
      availIdx, availRing, usedIdx, usedRing := 0, seq(NUM, _ => 0), 0, seq(NUM, _ => 0);
      ops, status := seq(NUM, _ => Req(false, 0)), seq(NUM, _ => 0);
      free, seenIdx, info := seq(NUM, _ => true), 0, seq(NUM, _ => None);
      buf, devIdx, medium := b, 0, m;
      chains, avail, used, initial, log := map[], [], [], m, [];
      AllFree();
    }

    // ---------- descriptors ----------

    /** alloc_desc */
    method AllocDesc() returns (i: int)
      requires |free| == NUM
      modifies this`free
      ensures -1 <= i < NUM
      ensures i < 0 ==> free == old(free) && forall j :: 0 <= j < NUM ==> !free[j]
      ensures i >= 0 ==> old(free)[i] && free == old(free)[i := false]
      ensures i >= 0 ==> forall j :: 0 <= j < i ==> !old(free)[j]
    {
      i := 0;
      while i < NUM
        invariant 0 <= i <= NUM && free == old(free)
        invariant forall j :: 0 <= j < i ==> !free[j]
      {
        if free[i] {
          free := free[i := false];
          return;
        }
        i := i + 1;
      }
      return -1;
    }

    /** free_desc; its two panics need an index out of range or a free descriptor. */
    method FreeDesc(i: nat)
      requires |free| == NUM && |desc| == NUM && i < NUM && !free[i]
      modifies this`free, this`desc
      ensures free == old(free)[i := true] && desc == old(desc)[i := Desc(Null, 0, 0, 0)]
    {
      desc := desc[i := Desc(Null, 0, 0, 0)];
      free := free[i := true];
    }

    /** alloc3_desc: three different free descriptors, or nothing changed in what is free. */
    method Alloc3() returns (ok: bool, i0: nat, i1: nat, i2: nat)
      requires |free| == NUM && |desc| == NUM
      modifies this`free, this`desc
      ensures ok ==> i0 < NUM && i1 < NUM && i2 < NUM && i0 != i1 && i0 != i2 && i1 != i2
      ensures ok ==> old(free)[i0] && old(free)[i1] && old(free)[i2] && desc == old(desc)
      ensures ok ==> free == old(free)[i0 := false][i1 := false][i2 := false]
      ensures !ok ==> free == old(free) && CountFree(free) < 3
      ensures !ok ==> |desc| == NUM && forall d :: 0 <= d < NUM && !free[d] ==> desc[d] == old(desc)[d]
    {
      i0, i1, i2 := 0, 0, 0;
      ghost var f0 := free;
      var a := AllocDesc();
      if a < 0 {
        NoneFree(free);
        return false, 0, 0, 0;
      }
      CountFreeSet(f0, a, false);
      ghost var f1 := free;
      var b := AllocDesc();
      if b < 0 {
        NoneFree(free);
        FreeDesc(a);
        assert free == f0;
        return false, 0, 0, 0;
      }
      CountFreeSet(f1, b, false);
      var c := AllocDesc();
      if c < 0 {
        NoneFree(free);
        FreeDesc(a);
        FreeDesc(b);
        assert free == f0;
        return false, 0, 0, 0;
      }
      return true, a, b, c;
    }

    // ---------- the driver ----------

    /** The stores by which virtio_disk_rw describes a request to the device. */
    method Format(b: nat, write: bool, i0: nat, i1: nat, i2: nat)
      requires |desc| == NUM && |ops| == NUM && |info| == NUM && |status| == NUM && b < |buf|
      requires i0 < NUM && i1 < NUM && i2 < NUM && i0 != i1 && i0 != i2 && i1 != i2
      modifies this`desc, this`ops, this`status, this`buf, this`info
      ensures |desc| == NUM && |ops| == NUM && |info| == NUM
      ensures Formatted(desc, ops, info, buf, i0, Chain(i1, i2, b, write, Queued))
      ensures forall d :: 0 <= d < NUM && d != i0 && d != i1 && d != i2 ==> desc[d] == old(desc)[d]
      ensures forall g :: 0 <= g < NUM && g != i0 ==> ops[g] == old(ops)[g] && info[g] == old(info)[g]
      ensures status == old(status)[i0 := 0xfb] && buf == old(buf)[b := old(buf)[b].(disk := true)]
    {
      ops := ops[i0 := Req(write, 2 * buf[b].blockno)];
      desc := desc[i0 := Desc(OpsPtr(i0), 16, F_NEXT, i1)];
      desc := desc[i1 := desc[i1].(addr := DataPtr(b), len := BSIZE)];
      desc := desc[i1 := desc[i1].(flags := if write then 0 else F_WRITE)];
      desc := desc[i1 := desc[i1].(flags := desc[i1].flags + F_NEXT, next := i2)];
      status := status[i0 := 0xfb];
      desc := desc[i2 := Desc(StatusPtr(i0), 1, F_WRITE, 0)];
      buf := buf[b := buf[b].(disk := true)];
      info := info[i0 := Some(b)];
    }

    /** disk.avail->ring[disk.avail->idx % NUM] = head; disk.avail->idx += 1 */
    method Publish(h: nat)
      requires RingHolds(availRing, devIdx, availIdx, avail) && |avail| < NUM
      modifies this`availRing, this`availIdx, this`avail
      ensures RingHolds(availRing, devIdx, availIdx, avail) && avail == old(avail) + [h]
      ensures |old(availRing)| == 8
      ensures availRing == old(availRing)[old(availIdx) % 8 := h] && availIdx == (old(availIdx) + 1) % 65536
    {
      RingPush(availRing, devIdx, availIdx, avail, h);
      availRing := availRing[availIdx % NUM := h];
      availIdx := (availIdx + 1) % WRAP;
      avail := avail + [h];
    }

    /** virtio_disk_rw up to its wait: false when fewer than three descriptors are free, in which
        case the caller yields and tries again. */
    method Submit(b: nat, write: bool) returns (ok: bool, h: nat)
      requires Valid() && b < |buf| && !buf[b].disk && buf[b].blockno < |medium|
      requires forall g :: g in chains ==> chains[g].buf != b
      modifies this
      ensures Valid() && medium == old(medium) && log == old(log) && initial == old(initial) && Done(chains) <= Done(old(chains))
      ensures !ok ==> |chains| == 2 && chains == old(chains) && buf == old(buf) && avail == old(avail)
      ensures ok ==>
        && h !in old(chains) && h in chains && chains == old(chains)[h := chains[h]]
        && chains[h].buf == b && chains[h].write == write && chains[h].phase == Queued
        && buf == old(buf)[b := old(buf)[b].(disk := true)] && avail == old(avail) + [h]
      ensures ok ==>
        old(availIdx) % 8 < |availRing| && availRing[old(availIdx) % 8] == h && availIdx == (old(availIdx) + 1) % 65536
      ensures ok ==> |desc| == 8 && |ops| == 8 && Requests(desc, ops, h, chains[h].mid, chains[h].last, b, write, buf[b].blockno)
    {
      hide Owned, RingHolds, Lists, Formatted, Flags, History, CountFree, Applied, TrueReads, Tickets, Done, Requests;
      AtMostTwo();
      ghost var free0, desc0 := free, desc;
      OwnedLength(free, chains);
      var i0, i1, i2;
      ok, i0, i1, i2 := Alloc3();
      if !ok {
        TwoInFlight(free, chains);
        FormattedFrame(free, desc0, desc, ops, info, buf, chains);
        return false, 0;
      }
      h := i0;
      OwnedShapes(free0, chains);
      assert forall g :: g in chains ==> Formatted(desc, ops, info, buf, g, chains[g]);
      Launch(b, write, i0, i1, i2, free0);
      Described(h);
    }

    /** Every request in flight is still described as it was submitted. */
    lemma Described(h: nat)
      requires Valid() && h in chains
      ensures |desc| == 8 && |ops| == 8 && chains[h].buf < |buf|
      ensures Requests(desc, ops, h, chains[h].mid, chains[h].last, chains[h].buf, chains[h].write, buf[chains[h].buf].blockno)
    {
      hide Owned, RingHolds, Lists, Formatted, Flags, History, CountFree, Applied, TrueReads, Tickets, Done, Requests;
      OwnedShape(free, chains, h);
      FormattedRequests(desc, ops, info, buf, h, chains[h]);
    }

    /** The rest of virtio_disk_rw up to its wait, with three descriptors that were free. */
    method Launch(b: nat, write: bool, i0: nat, i1: nat, i2: nat, ghost was: seq<bool>)
      requires Owned(was, chains) && |was| == NUM && i0 < NUM
      requires i1 < NUM && i2 < NUM && i0 != i1 && i0 != i2 && i1 != i2
      requires was[i0] && was[i1] && was[i2] && free == was[i0 := false][i1 := false][i2 := false]
      requires |desc| == NUM && |ops| == NUM && |info| == NUM && |status| == NUM
      requires forall h :: h in chains ==> Formatted(desc, ops, info, buf, h, chains[h])
      requires Rings() && |avail| <= 2 && Flags(buf, |medium|, chains) && History(log, status, buf, chains)
      requires medium == Applied(initial, log) && TrueReads(initial, log) && Tickets(chains, |log|)
      requires b < |buf| && buf[b].blockno < |medium| && forall g :: g in chains ==> chains[g].buf != b
      modifies this`desc, this`ops, this`status, this`buf, this`info, this`availRing, this`availIdx, this`avail, this`chains
      ensures Valid() && i0 !in old(chains) && chains == old(chains)[i0 := Chain(i1, i2, b, write, Queued)]
      ensures buf == old(buf)[b := old(buf)[b].(disk := true)] && Done(chains) <= Done(old(chains))
      ensures avail == old(avail) + [i0]
      ensures |old(availRing)| == 8 && availRing == old(availRing)[old(availIdx) % 8 := i0]
      ensures availIdx == (old(availIdx) + 1) % 65536
    {
      hide Owned, Formatted, AllFormatted, Flags, History, CountFree, Applied, TrueReads, Tickets, Done, RingHolds,
           Lists, Valid;
      Describe(b, write, i0, i1, i2, was);
      Enqueue(i0, Chain(i1, i2, b, write, Queued));
    }

    /** The end of that: chain c, already described in memory, is made available. */
    method Enqueue(h: nat, c: Chain)
      requires h !in chains && c.phase == Queued && Rings() && |avail| <= 2
      requires |desc| == NUM && |ops| == NUM && |info| == NUM && |status| == NUM && Owned(free, chains[h := c])
      requires AllFormatted(desc, ops, info, buf, chains[h := c])
      requires Flags(buf, |medium|, chains[h := c]) && History(log, status, buf, chains[h := c])
      requires medium == Applied(initial, log) && TrueReads(initial, log) && Tickets(chains, |log|)
      modifies this`availRing, this`availIdx, this`avail, this`chains
      ensures Valid() && chains == old(chains)[h := c] && Done(chains) <= Done(old(chains))
      ensures avail == old(avail) + [h]
      ensures |old(availRing)| == 8 && availRing == old(availRing)[old(availIdx) % 8 := h]
      ensures availIdx == (old(availIdx) + 1) % 65536
    {
      hide Owned, RingHolds, Lists, Formatted, Flags, History, CountFree, Applied, TrueReads, Tickets, Done;
      ListsAdd(avail, used, chains, h, c);
      TicketsSet(chains, |log|, h, c);
      Publish(h);
      chains := chains[h := c];
    }

    /** The request is described in memory, as the chain it will be. */
    method Describe(b: nat, write: bool, i0: nat, i1: nat, i2: nat, ghost was: seq<bool>)
      requires Owned(was, chains) && |was| == NUM && i0 < NUM
      requires i1 < NUM && i2 < NUM && i0 != i1 && i0 != i2 && i1 != i2
      requires was[i0] && was[i1] && was[i2] && free == was[i0 := false][i1 := false][i2 := false]
      requires |desc| == NUM && |ops| == NUM && |info| == NUM && |status| == NUM
      requires forall h :: h in chains ==> Formatted(desc, ops, info, buf, h, chains[h])
      requires Flags(buf, |medium|, chains) && History(log, status, buf, chains)
      requires b < |buf| && buf[b].blockno < |medium| && forall g :: g in chains ==> chains[g].buf != b
      modifies this`desc, this`ops, this`status, this`buf, this`info
      ensures |desc| == NUM && |ops| == NUM && |info| == NUM && |status| == NUM && i0 !in chains
      ensures
        var chains' := chains[i0 := Chain(i1, i2, b, write, Queued)];
        && Owned(free, chains') && Flags(buf, |medium|, chains') && History(log, status, buf, chains')
        && AllFormatted(desc, ops, info, buf, chains')
      ensures buf == old(buf)[b := old(buf)[b].(disk := true)]
    {
      hide Owned, Formatted, Flags, History, CountFree;
      var c := Chain(i1, i2, b, write, Queued);
      OwnedAdd(was, chains, i0, c);
      Format(b, write, i0, i1, i2);
      FormattedAdd(was, old(desc), old(ops), old(info), old(buf), desc, ops, info, buf, chains, i0, c);
      FlagsAdd(old(buf), |medium|, chains, i0, c);
      HistoryAdd(log, old(status), old(buf), chains, i0, c);
    }

    /** The kernel uses a buffer that has no request: it may change its bytes, and bget may give
        it another block. */
    method Modify(b: nat, blockno: nat, d: Block)
      requires Valid() && b < |buf| && blockno < |medium| && forall h :: h in chains ==> chains[h].buf != b
      modifies this`buf
      ensures Valid() && buf == old(buf)[b := old(buf)[b].(blockno := blockno, data := d)]
    {
      hide Owned, RingHolds, Lists, Applied, HasNext, TrueReads, Tickets, Formatted, Flags, History;
      ModifyKeeps(free, desc, ops, info, buf, |medium|, log, status, chains, b, blockno, d);
      buf := buf[b := buf[b].(blockno := blockno, data := d)];
    }

    // ---------- the device ----------

    /** The device reads the next available head. */
    method DevTake() returns (h: nat)
      requires Valid() && devIdx != availIdx
      modifies this`devIdx, this`avail, this`chains
      ensures Valid() && h in old(chains) && old(chains)[h].phase == Queued && Done(chains) <= Done(old(chains))
      ensures chains == old(chains)[h := old(chains)[h].(phase := Taken)]
      ensures old(avail) != [] && h == old(avail)[0] && avail == old(avail)[1..]
    {
      hide Owned, Formatted, Flags, History, RingHolds, Lists, Applied, TrueReads, Tickets, Done;
      AtMostTwo();
      RingEmpty(availRing, devIdx, availIdx, avail);
      RingPop(availRing, devIdx, availIdx, avail);
      h := availRing[devIdx % NUM];
      ListsTake(avail, used, chains);
      Phases(free, desc, ops, info, buf, |medium|, log, status, chains, h);
      TicketsSet(chains, |log|, h, chains[h].(phase := Taken));
      devIdx := (devIdx + 1) % WRAP;
      avail := avail[1..];
      chains := chains[h := chains[h].(phase := Taken)];
    }

    /** The device adds an entry to the used ring. */
    method Report(h: nat)
      requires RingHolds(usedRing, seenIdx, usedIdx, used) && |used| < NUM
      modifies this`usedRing, this`usedIdx, this`used
      ensures RingHolds(usedRing, seenIdx, usedIdx, used) && used == old(used) + [h]
    {
      RingPush(usedRing, seenIdx, usedIdx, used, h);
      usedRing := usedRing[usedIdx % NUM := h];
      usedIdx := (usedIdx + 1) % WRAP;
      used := used + [h];
    }

    /** The device follows the descriptors from a head.  It moves as many bytes as the data descriptor covers, out
        of memory that it may read or into memory that it may write, and stores the status if it may. */
    method Perform(h: nat, ghost c: Chain) returns (t: Transfer)
      requires |desc| == NUM && |ops| == NUM && |info| == NUM && Shape(h, c) && Formatted(desc, ops, info, buf, h, c)
      requires buf[c.buf].blockno < |medium| && medium == Applied(initial, log) && TrueReads(initial, log)
      requires h < |status|
      modifies this`medium, this`buf, this`status
      ensures status == old(status)[h := 0] && Transferred(c, old(medium), old(buf), medium, buf)
      ensures t == Transfer(c.buf, old(buf)[c.buf].blockno, c.write, buf[c.buf].data)
      ensures medium == Applied(initial, log + [t]) && TrueReads(initial, log + [t])
    {
      hide Applied, TrueReads, Formatted, Moved;
      Followed(desc, ops, info, buf, h, c);
      var req := ops[desc[h].addr.op];
      var d := desc[desc[h].next];
      var last := desc[d.next];
      var b, blockno := d.addr.buf, req.sector / 2;
      MovedAll(d, medium[blockno], buf[b].data);
      MovedAll(d, buf[b].data, medium[blockno]);
      if req.write {
        var block := Moved(d, medium[blockno], buf[b].data, !DeviceWrites(d.flags));
        t := Transfer(b, blockno, true, block);
        AppliedStep(initial, log, t);
        ReadsMore(initial, log, t);
        medium := medium[blockno := block];
      } else {
        var block := Moved(d, buf[b].data, medium[blockno], DeviceWrites(d.flags));
        t := Transfer(b, blockno, false, block);
        AppliedStep(initial, log, t);
        ReadsMore(initial, log, t);
        buf := buf[b := buf[b].(data := block)];
      }
      if DeviceWrites(last.flags) && last.len > 0 {
        status := status[last.addr.info := 0];
      }
    }

    /** The device performs a request it has taken and stores the status. */
    method Transact(h: nat)
      requires Valid() && h in chains && chains[h].phase == Taken
      modifies this`medium, this`buf, this`status, this`log, this`chains
      ensures Memory() && Flags(buf, |medium|, chains)
      ensures medium == Applied(initial, log) && History(log, status, buf, chains)
      ensures TrueReads(initial, log) && Tickets(chains, |log|) && |log| == |old(log)| + 1
      ensures Done(chains) <= Done(old(chains)) + {|old(log)|}
      ensures Lists(avail, chains, true) && Lists(used + [h], chains, false)
      ensures chains == old(chains)[h := old(chains)[h].(phase := Completed(|old(log)|))] && old(log) <= log
      ensures Transferred(old(chains)[h], old(medium), old(buf), medium, buf)
      ensures
        var c := old(chains)[h];
        log == old(log) + [Transfer(c.buf, old(buf)[c.buf].blockno, c.write, buf[c.buf].data)]
    {
      hide Owned, RingHolds, Lists, Applied, Formatted, Flags, History, HasNext, Uses, Finished, TrueReads, Tickets,
           Done;
      var c := chains[h];
      OwnedShapes(free, chains);
      Completes(free, desc, ops, info, buf, medium, log, status, chains, h);
      ListsDone(avail, used, chains, h, |log|);
      TicketsDone(chains, |log|, h, c.(phase := Completed(|log|)));
      var t := Perform(h, c);
      chains := chains[h := c.(phase := Completed(|log|))];
      log := log + [t];
    }

    /** A request is performed, in any order of those taken, and reported in the used ring. */
    method DevComplete(h: nat)
      requires Valid() && h in chains && chains[h].phase == Taken
      modifies this`medium, this`buf, this`status, this`usedRing, this`usedIdx, this`used, this`log, this`chains
      ensures Valid() && |log| == |old(log)| + 1 && Done(chains) <= Done(old(chains)) + {|old(log)|}
      ensures chains == old(chains)[h := old(chains)[h].(phase := Completed(|old(log)|))] && old(log) <= log
      ensures Transferred(old(chains)[h], old(medium), old(buf), medium, buf)
      ensures
        var c := old(chains)[h];
        log == old(log) + [Transfer(c.buf, old(buf)[c.buf].blockno, c.write, buf[c.buf].data)]
    {
      hide Owned, RingHolds, Lists, Applied, Formatted, Flags, History, Transferred, TrueReads, Tickets, Done;
      AtMostTwo();
      Transact(h);
      Report(h);
    }

    // ---------- the interrupt handler ----------

    /** One round of virtio_disk_intr: the completed request's status is good, its buffer is
        recorded, and the flag of that buffer, and no other, is cleared. */
    method IntrOne()
      requires Valid() && seenIdx != usedIdx
      modifies this`seenIdx, this`used, this`buf, this`chains
      ensures Valid() && |used| == |old(used)| - 1 && Done(chains) <= Done(old(chains))
      ensures old(used) != [] && used == old(used)[1..] && old(used)[0] in old(chains)
      ensures
        var h, c := old(used)[0], old(chains)[old(used)[0]];
        && c.phase.Completed? && chains == old(chains)[h := c.(phase := Acked(c.phase.at))]
        && old(status)[h] == 0 && old(info)[h] == Some(c.buf)
        && c.buf < |old(buf)| && old(buf)[c.buf].disk && buf == old(buf)[c.buf := old(buf)[c.buf].(disk := false)]
    {
      hide Owned, RingHolds, Lists, Applied, Formatted, Flags, History, TrueReads, Tickets, Done;
      AtMostTwo();
      RingEmpty(usedRing, seenIdx, usedIdx, used);
      RingPop(usedRing, seenIdx, usedIdx, used);
      var id := usedRing[seenIdx % NUM];
      UsedHead(used, chains);
      OwnedShape(free, chains, id);
      var c := chains[id];
      assert Formatted(desc, ops, info, buf, id, c);
      FlagsOf(buf, |medium|, chains, id);
      HistoryOf(log, status, buf, chains, id);
      Followed(desc, ops, info, buf, id, c);
      var b := info[id].value;
      Acknowledges(free, desc, ops, info, buf, |medium|, log, status, chains, id);
      ListsAck(avail, used, chains);
      TicketsSet(chains, |log|, id, c.(phase := Acked(c.phase.at)));
      buf := buf[b := buf[b].(disk := false)];
      seenIdx := (seenIdx + 1) % WRAP;
      used := used[1..];
      chains := chains[id := c.(phase := Acked(c.phase.at))];
    }

    /** virtio_disk_intr: every completed request is acknowledged, and no other request changes. */
    method Intr()
      requires Valid()
      modifies this`seenIdx, this`used, this`buf, this`chains
      ensures Valid() && used == [] && seenIdx == usedIdx && Done(chains) <= Done(old(chains))
      ensures chains.Keys == old(chains).Keys
      ensures forall h :: h in chains ==> chains[h] == Acknowledged(old(chains)[h])
      ensures Cleared(old(chains), old(buf), buf)
    {
      hide Valid, Lists, RingHolds, Done, Flags, Cleared;
      while seenIdx != usedIdx
        invariant Valid() && chains.Keys == old(chains).Keys && medium == old(medium) && Done(chains) <= Done(old(chains))
        invariant forall h :: h in chains ==> chains[h] == old(chains)[h] || chains[h] == Acknowledged(old(chains)[h])
        invariant |buf| == |old(buf)| && forall b :: 0 <= b < |buf| ==>
                    buf[b] == old(buf)[b] || (buf[b] == old(buf)[b].(disk := false) && CompletedFor(old(chains), b))
        decreases |used|
      {
        IntrOne();
      }
      UsedRing();
      RingEmpty(usedRing, seenIdx, usedIdx, used);
      NoneCompleted(chains);
      AllCleared(old(chains), old(buf), chains, buf, |medium|);
    }

    lemma UsedRing()
      requires Valid()
      ensures Flags(buf, |medium|, chains)
      ensures RingHolds(usedRing, seenIdx, usedIdx, used) && Lists(used, chains, false) && |used| < WRAP
    {
      hide Owned, Lists, Formatted, Flags, History, Applied, RingHolds, TrueReads, Tickets;
      AtMostTwo();
    }

    // ---------- the end of a request ----------

    /** free_chain of a chain in flight: it frees exactly the three descriptors of the chain and
        reaches neither panic of free_desc. */
    method FreeChain(h: nat, ghost c: Chain)
      requires |desc| == NUM && Held(free, h, c)
      requires HasNext(desc[h].flags) && desc[h].next == c.mid
      requires HasNext(desc[c.mid].flags) && desc[c.mid].next == c.last && !HasNext(desc[c.last].flags)
      modifies this`free, this`desc
      ensures free == old(free)[h := true][c.mid := true][c.last := true]
      ensures |desc| == NUM && forall d :: 0 <= d < NUM && !Uses(h, c, d) ==> desc[d] == old(desc)[d]
    {
      var i := h;
      ghost var k := 0;
      while true
        invariant 0 <= k <= 2 && i == (if k == 0 then h else if k == 1 then c.mid else c.last)
        invariant |desc| == NUM && |free| == NUM
        invariant free == if k == 0 then old(free) else if k == 1 then old(free)[h := true] else old(free)[h := true][c.mid := true]
        invariant forall d :: 0 <= d < NUM && (!Uses(h, c, d) || (k <= 1 && d == c.mid) || (k == 0 && d == h) || d == c.last) ==>
                    desc[d] == old(desc)[d]
        decreases 3 - k
      {
        var flag := desc[i].flags;
        var nxt := desc[i].next;
        FreeDesc(i);
        if HasNext(flag) {
          i := nxt;
          k := k + 1;
        } else {
          break;
        }
      }
    }

    /** virtio_disk_rw after its wait for b->disk to become 0: the device has performed exactly
        this request, with the data the buffer now has, and the chain is free again. at is the
        request's entry in the log. */
    method Finish(h: nat) returns (at: nat)
      requires Valid() && h in chains && !buf[chains[h].buf].disk
      modifies this`free, this`desc, this`info, this`chains
      ensures Valid() && chains == old(chains) - {h}
      ensures Done(chains) <= Done(old(chains)) && at in Done(old(chains)) && at !in Done(chains)
      ensures IsEntry(log, at, old(chains)[h], buf) && Finished(old(chains)[h]) && at == old(chains)[h].phase.at
    {
      hide RingHolds, Lists, Applied, Owned, CountFree, Formatted, Flags, History, TrueReads, Tickets, Done;
      var c := chains[h];
      OwnedShape(free, chains, h);
      assert Formatted(desc, ops, info, buf, h, c);
      FlagsOf(buf, |medium|, chains, h);
      HistoryOf(log, status, buf, chains, h);
      Followed(desc, ops, info, buf, h, c);
      at := c.phase.at;
      TicketsRemove(chains, |log|, h);
      ghost var free0, desc0, info0 := free, desc, info;
      info := info[h := None];
      FreeChain(h, c);
      OwnedRemove(free0, chains, h);
      Remaining(free0, desc0, desc, ops, info0, info, buf, |medium|, log, status, chains, h);
      ListsRemove(avail, used, chains, h);
      chains := chains - {h};
    }

    // ---------- interleavings ----------

    /** Can, as the parties see it: the device compares indices. */
    predicate Enabled(mv: Move)
      reads this
    {
      if mv.Take? then devIdx != availIdx else Can(Snap(chains, buf, medium, log, []), mv)
    }

    lemma EnabledCan(mv: Move)
      requires Valid()
      ensures Enabled(mv) <==> Can(Now(), mv)
    {
      hide Owned, Formatted, Flags, History, Lists, Applied, RingHolds, TrueReads, Tickets;
      AtMostTwo();
      RingEmpty(availRing, devIdx, availIdx, avail);
    }

    method Step(mv: Move) returns (ended: seq<nat>)
      requires Valid() && Enabled(mv)
      modifies this
      ensures Valid() && old(log) <= log && initial == old(initial)
      ensures forall i :: i in Done(chains) ==> i in Done(old(chains)) || |old(log)| <= i < |log|
      ensures |old(log)| <= |log| && forall i :: i in ended ==> i in Done(old(chains)) && i !in Done(chains) && i < |log|
      ensures !mv.End? ==> ended == []
      ensures mv.End? ==> |ended| == 1 && mv.head in old(chains) && IsEntry(log, ended[0], old(chains)[mv.head], buf)
      ensures Next(old(Now()), mv, Now()) && ended == EndOf(old(Now()), mv)
    {
      hide Owned, RingHolds, Lists, Applied, Formatted, Flags, History, Transferred, TrueReads, Tickets, Done, Valid,
           Cleared;
      EnabledCan(mv);
      ghost var was := Now();
      ended := [];
      match mv {
        case Start(b, write) =>
          var ok, h := Submit(b, write);
          AtMostTwo();
          if ok { assert Started(was, b, write, h, Now()); }
        case Touch(b, blockno, d) => Modify(b, blockno, d);
        case Take => var h := DevTake();
        case Complete(h) => DevComplete(h);
        case Interrupt => Intr();
        case End(h) => var at := Finish(h); ended := [at];
      }
    }

    /** Any interleaving of driver, device and interrupt handler.  At most two requests are ever in
        flight; the medium is what the device's writes made of it, and every read delivered what the
        medium held at its turn; and every request that ended was a transfer of its own.  trace holds
        the states in between. */
    method Run(moves: seq<Move>) returns (ended: seq<nat>, ghost trace: seq<Snap>)
      requires Valid()
      modifies this
      ensures Valid() && |chains| <= 2
      ensures initial == old(initial) && old(log) <= log && medium == Applied(initial, log)
      ensures forall k :: 0 <= k < |log| && !log[k].write ==>
                log[k].blockno < |initial| && log[k].data == Applied(initial, log[..k])[log[k].blockno]
      ensures NoDup(ended) && forall i :: i in ended ==> i < |log|
      ensures IsRun(trace, moves) && trace[0] == old(Now()) && trace[|moves|] == Now() && ended == Endings(trace, moves)
    {
      hide Valid, Enabled, Done, Applied, Next, Can, EndOf;
      ended, trace := [], [Now()];
      var k := 0;
      while k < |moves|
        invariant 0 <= k <= |moves| && Valid() && old(log) <= log && initial == old(initial)
        invariant Over(ended, Done(chains), |log|)
        invariant IsRun(trace, moves[..k]) && trace[0] == old(Now()) && trace[k] == Now()
        invariant ended == Endings(trace, moves[..k])
      {
        EnabledCan(moves[k]);
        ghost var was := Now();
        if Enabled(moves[k]) {
          ghost var done0, n0 := Done(chains), |log|;
          var more := Step(moves[k]);
          EndedMore(ended, more, done0, n0, Done(chains), |log|);
          ended := ended + more;
        } else {
          Idle(was, moves[k]);
        }
        RunMore(trace, moves, k, Now());
        trace := trace + [Now()];
        k := k + 1;
      }
      assert moves[..k] == moves;
      AtMostTwo();
      Truth();
    }
  }

  lemma Idle(a: Snap, mv: Move)
    requires !Can(a, mv)
    ensures Next(a, mv, a) && EndOf(a, mv) == []
  {
  }

  /** Requests that are over have different entries in a log of n transfers, none that of a request in done. */
  ghost predicate Over(ended: seq<nat>, done: set<nat>, n: nat) {
    NoDup(ended) && forall i :: i in ended ==> i < n && i !in done
  }

  lemma EndedMore(ended: seq<nat>, more: seq<nat>, done0: set<nat>, n0: nat, done: set<nat>, n: nat)
    requires Over(ended, done0, n0) && n0 <= n && |more| <= 1
    requires forall i :: i in done ==> i in done0 || n0 <= i < n
    requires forall i :: i in more ==> i in done0 && i !in done && i < n
    ensures Over(ended + more, done, n)
  {
    if more != [] {
      assert more[0] in more;
      assert forall k :: 0 <= k < |ended| ==> ended[k] in ended;
    }
  }

  /** A request after the interrupt handler is done with it. */
  function Acknowledged(c: Chain): Chain {
    if c.phase.Completed? then c.(phase := Acked(c.phase.at)) else c
  }

  /** The used ring lists all completed requests. */
  lemma NoneCompleted(chains: map<nat, Chain>)
    requires Lists([], chains, false)
    ensures forall h :: h in chains ==> !chains[h].phase.Completed?
  {
  }

  lemma AllFree()
    ensures CountFree(seq(NUM, _ => true)) == NUM
  {
    AllFreeN(NUM);
  }

  lemma {:induction false} AllFreeN(n: nat)
    ensures CountFree(seq(n, _ => true)) == n
    decreases n
  {
    if n > 0 {
      assert seq(n, _ => true)[..n - 1] == seq(n - 1, _ => true);
      AllFreeN(n - 1);
    }
  }

  lemma {:induction false} NoneFree(free: seq<bool>)
    requires forall i :: 0 <= i < |free| ==> !free[i]
    ensures CountFree(free) == 0
    decreases |free|
  {
    if free != [] {
      NoneFree(free[..|free| - 1]);
    }
  }

  lemma OwnedLength(free: seq<bool>, chains: map<nat, Chain>)
    requires Owned(free, chains)
    ensures |free| == NUM && |chains| <= 2
  {
  }

  lemma TwoInFlight(free: seq<bool>, chains: map<nat, Chain>)
    requires Owned(free, chains) && CountFree(free) < 3
    ensures |chains| == 2
  {
  }

  /** free with the three descriptors of a chain taken. */
  function Take3(free: seq<bool>, h: nat, c: Chain): (r: seq<bool>)
    requires |free| == NUM && Shape(h, c)
    ensures |r| == NUM
  {
    free[h := false][c.mid := false][c.last := false]
  }

  /** Taking three free descriptors for a new chain. */
  lemma OwnedAdd(free: seq<bool>, chains: map<nat, Chain>, h: nat, c: Chain)
    requires Owned(free, chains) && Shape(h, c) && free[h] && free[c.mid] && free[c.last]
    ensures h !in chains
    ensures Owned(Take3(free, h, c), chains[h := c])
  {
    hide CountFree, Apart, Uses, Take3;
    assert h in chains ==> Held(free, h, chains[h]);
    hide Held;
    Take3Count(free, h, c);
    assert |chains[h := c]| == |chains| + 1;
    NewIsHeld(free, h, c);
    forall g | g in chains
      ensures Held(Take3(free, h, c), g, chains[g]) && Apart(h, c, g, chains[g]) && Apart(g, chains[g], h, c)
    {
      FreeIsApart(free, h, c, g, chains[g]);
    }
  }

  lemma Take3Count(free: seq<bool>, h: nat, c: Chain)
    requires |free| == NUM && Shape(h, c) && free[h] && free[c.mid] && free[c.last]
    ensures CountFree(Take3(free, h, c)) == CountFree(free) - 3
  {
    hide CountFree;
    CountFreeSet(free, h, false);
    CountFreeSet(free[h := false], c.mid, false);
    CountFreeSet(free[h := false][c.mid := false], c.last, false);
  }

  lemma NewIsHeld(free: seq<bool>, h: nat, c: Chain)
    requires |free| == NUM && Shape(h, c)
    ensures Held(Take3(free, h, c), h, c)
  {
  }

  lemma FreeIsApart(free: seq<bool>, h: nat, c: Chain, g: nat, d: Chain)
    requires Shape(h, c) && Held(free, g, d) && free[h] && free[c.mid] && free[c.last]
    ensures Apart(h, c, g, d) && Apart(g, d, h, c)
    ensures Held(Take3(free, h, c), g, d)
  {
  }

  /** Chains in flight do not see changes to free descriptors. */
  lemma FormattedFrame(free: seq<bool>, desc: seq<Desc>, desc': seq<Desc>, ops: seq<Req>, info: seq<Option<nat>>,
                       buf: seq<Buf>, chains: map<nat, Chain>)
    requires Owned(free, chains) && |desc| == NUM && |desc'| == NUM && |ops| == NUM && |info| == NUM
    requires forall h :: h in chains ==> Formatted(desc, ops, info, buf, h, chains[h])
    requires forall d :: 0 <= d < NUM && !free[d] ==> desc'[d] == desc[d]
    ensures forall h :: h in chains ==> Formatted(desc', ops, info, buf, h, chains[h])
  {
    hide Owned, CountFree, Apart, HasNext, Held;
    forall h | h in chains
      ensures Formatted(desc', ops, info, buf, h, chains[h])
    {
      OwnedShape(free, chains, h);
      FrameOne(free, desc, desc', ops, info, buf, h, chains[h]);
    }
  }

  lemma FrameOne(free: seq<bool>, desc: seq<Desc>, desc': seq<Desc>, ops: seq<Req>, info: seq<Option<nat>>, buf: seq<Buf>,
                 h: nat, c: Chain)
    requires Held(free, h, c) && |desc| == NUM && |desc'| == NUM && Formatted(desc, ops, info, buf, h, c)
    requires forall d :: 0 <= d < NUM && !free[d] ==> desc'[d] == desc[d]
    ensures Formatted(desc', ops, info, buf, h, c)
  {
    hide HasNext;
  }

  lemma FormattedAdd(free: seq<bool>, desc: seq<Desc>, ops: seq<Req>, info: seq<Option<nat>>, buf: seq<Buf>,
                     desc': seq<Desc>, ops': seq<Req>, info': seq<Option<nat>>, buf': seq<Buf>,
                     chains: map<nat, Chain>, h: nat, c: Chain)
    requires Owned(free, chains) && |desc| == NUM && |desc'| == NUM && |ops| == NUM && |info| == NUM
    requires Shape(h, c) && free[h] && free[c.mid] && free[c.last] && h !in chains
    requires forall g :: g in chains ==> Formatted(desc, ops, info, buf, g, chains[g])
    requires forall d :: 0 <= d < NUM && !free[d] ==> desc'[d] == desc[d]
    requires |ops'| == NUM && |info'| == NUM && |buf'| == |buf|
    requires forall g :: 0 <= g < NUM && g != h ==> ops'[g] == ops[g] && info'[g] == info[g]
    requires forall b :: 0 <= b < |buf| ==> buf'[b].blockno == buf[b].blockno
    requires Formatted(desc', ops', info', buf', h, c)
    ensures var chains' := chains[h := c]; forall g :: g in chains' ==> Formatted(desc', ops', info', buf', g, chains'[g])
  {
    forall g | g in chains
      ensures Formatted(desc', ops', info', buf', g, chains[g])
    {
      assert Held(free, g, chains[g]);
    }
  }

  lemma ListsAdd(avail: seq<nat>, used: seq<nat>, chains: map<nat, Chain>, h: nat, c: Chain)
    requires Lists(avail, chains, true) && Lists(used, chains, false) && h !in chains && c.phase.Queued?
    ensures Lists(avail + [h], chains[h := c], true) && Lists(used, chains[h := c], false)
  {
    assert h !in avail && h !in used;
  }

  lemma OwnedShape(free: seq<bool>, chains: map<nat, Chain>, h: nat)
    requires Owned(free, chains) && h in chains
    ensures Held(free, h, chains[h])
  {
    hide CountFree;
  }

  lemma FlagsOf(buf: seq<Buf>, blocks: nat, chains: map<nat, Chain>, h: nat)
    requires Flags(buf, blocks, chains) && h in chains
    ensures chains[h].buf < |buf| && buf[chains[h].buf].blockno < blocks
    ensures buf[chains[h].buf].disk == !chains[h].phase.Acked?
  {
  }

  lemma HistoryOf(log: seq<Transfer>, status: seq<nat>, buf: seq<Buf>, chains: map<nat, Chain>, h: nat)
    requires History(log, status, buf, chains) && h in chains && Finished(chains[h])
    ensures
      var c := chains[h];
      && c.phase.at < |log| && c.buf < |buf| && h < |status| && status[h] == 0
      && log[c.phase.at] == Transfer(c.buf, buf[c.buf].blockno, c.write, buf[c.buf].data)
  {
  }

  /** What device and driver find by following the chain from its head. */
  lemma Followed(desc: seq<Desc>, ops: seq<Req>, info: seq<Option<nat>>, buf: seq<Buf>, h: nat, c: Chain)
    requires |desc| == NUM && |ops| == NUM && |info| == NUM && Shape(h, c) && Formatted(desc, ops, info, buf, h, c)
    ensures c.buf < |buf| && desc[h].addr == OpsPtr(h) && ops[h] == Req(c.write, 2 * buf[c.buf].blockno)
    ensures HasNext(desc[h].flags) && desc[h].next == c.mid && desc[c.mid].addr == DataPtr(c.buf)
    ensures HasNext(desc[c.mid].flags) && desc[c.mid].next == c.last && desc[c.last].addr == StatusPtr(h)
    ensures !HasNext(desc[c.last].flags) && info[h] == Some(c.buf)
    ensures desc[h].len == 16 && desc[c.mid].len == 1024 && desc[c.last].len == 1
    ensures desc[h].flags == 1 && desc[c.mid].flags == (if c.write then 1 else 3) && desc[c.last].flags == 2
  {
  }

  lemma FormattedRequests(desc: seq<Desc>, ops: seq<Req>, info: seq<Option<nat>>, buf: seq<Buf>, h: nat, c: Chain)
    requires |desc| == NUM && |ops| == NUM && |info| == NUM && Shape(h, c) && Formatted(desc, ops, info, buf, h, c)
    ensures c.buf < |buf| && Requests(desc, ops, h, c.mid, c.last, c.buf, c.write, buf[c.buf].blockno)
  {
  }

  /** The memory to bytes of which the device may write gets what it holds there, from its beginning on. */
  function Moved(d: Desc, to: Block, from: Block, allowed: bool): Block {
    if allowed then Overwrite(to, 0, from[..Min(d.len, BSIZE)]) else to
  }

  lemma MovedAll(d: Desc, to: Block, from: Block)
    requires d.len == 1024
    ensures Moved(d, to, from, true) == from
  {
    assert from[..BSIZE] == from;
  }

  /** The layout of requests depends neither on their phase nor on the buffers' data. */
  lemma FormattedSame(desc: seq<Desc>, ops: seq<Req>, info: seq<Option<nat>>, buf: seq<Buf>, buf': seq<Buf>,
                      chains: map<nat, Chain>, h: nat, phase: Phase)
    requires |desc| == NUM && |ops| == NUM && |info| == NUM && h in chains
    requires forall g :: g in chains ==> Shape(g, chains[g]) && Formatted(desc, ops, info, buf, g, chains[g])
    requires |buf'| == |buf| && forall b :: 0 <= b < |buf| ==> buf'[b].blockno == buf[b].blockno
    ensures var chains' := chains[h := chains[h].(phase := phase)];
            forall g :: g in chains' ==> Shape(g, chains'[g]) && Formatted(desc, ops, info, buf', g, chains'[g])
  {
    hide HasNext;
  }

  lemma OwnedShapes(free: seq<bool>, chains: map<nat, Chain>)
    requires Owned(free, chains)
    ensures forall g :: g in chains ==> Shape(g, chains[g])
  {
    hide CountFree;
  }

  /** A phase change that does not touch the flag or finish the request. */
  lemma Phases(free: seq<bool>, desc: seq<Desc>, ops: seq<Req>, info: seq<Option<nat>>, buf: seq<Buf>, blocks: nat,
               log: seq<Transfer>, status: seq<nat>, chains: map<nat, Chain>, h: nat)
    requires |desc| == NUM && |ops| == NUM && |info| == NUM && Owned(free, chains)
    requires h in chains && chains[h].phase == Queued
    requires forall g :: g in chains ==> Formatted(desc, ops, info, buf, g, chains[g])
    requires Flags(buf, blocks, chains) && History(log, status, buf, chains)
    ensures var chains' := chains[h := chains[h].(phase := Taken)];
            && Owned(free, chains') && Flags(buf, blocks, chains') && History(log, status, buf, chains')
            && forall g :: g in chains' ==> Formatted(desc, ops, info, buf, g, chains'[g])
  {
    hide Formatted, Owned, Flags, Shape;
    OwnedShapes(free, chains);
    OwnedPhase(free, chains, h, Taken);
    FlagsPhase(buf, blocks, chains, h, Taken);
    FormattedSame(desc, ops, info, buf, buf, chains, h, Taken);
  }

  /** A buffer without request may change. */
  lemma ModifyKeeps(free: seq<bool>, desc: seq<Desc>, ops: seq<Req>, info: seq<Option<nat>>, buf: seq<Buf>, blocks: nat,
                    log: seq<Transfer>, status: seq<nat>, chains: map<nat, Chain>, b: nat, blockno: nat, d: Block)
    requires b < |buf| && blockno < blocks && forall h :: h in chains ==> chains[h].buf != b
    requires forall g :: g in chains ==> Formatted(desc, ops, info, buf, g, chains[g])
    requires Flags(buf, blocks, chains) && History(log, status, buf, chains)
    ensures
      var buf' := buf[b := buf[b].(blockno := blockno, data := d)];
      && Flags(buf', blocks, chains) && History(log, status, buf', chains)
      && forall g :: g in chains ==> Formatted(desc, ops, info, buf', g, chains[g])
  {
    hide HasNext;
  }

  lemma OwnedPhase(free: seq<bool>, chains: map<nat, Chain>, h: nat, phase: Phase)
    requires Owned(free, chains) && h in chains
    ensures Owned(free, chains[h := chains[h].(phase := phase)])
  {
    hide CountFree;
    assert |chains[h := chains[h].(phase := phase)]| == |chains|;
    forall g | g in chains && g != h
      ensures Apart(h, chains[h].(phase := phase), g, chains[g]) && Apart(g, chains[g], h, chains[h].(phase := phase))
    {
      assert Apart(h, chains[h], g, chains[g]) && Apart(g, chains[g], h, chains[h]);
    }
  }

  lemma FlagsPhase(buf: seq<Buf>, blocks: nat, chains: map<nat, Chain>, h: nat, phase: Phase)
    requires Flags(buf, blocks, chains) && h in chains && phase.Acked? == chains[h].phase.Acked?
    ensures Flags(buf, blocks, chains[h := chains[h].(phase := phase)])
  {
    var chains' := chains[h := chains[h].(phase := phase)];
    forall b | 0 <= b < |buf| && buf[b].disk
      ensures exists g :: g in chains' && chains'[g].buf == b
    {
      var g :| g in chains && chains[g].buf == b;
      assert g in chains' && chains'[g].buf == b;
    }
  }

  lemma ListsTake(avail: seq<nat>, used: seq<nat>, chains: map<nat, Chain>)
    requires Lists(avail, chains, true) && Lists(used, chains, false) && avail != []
    ensures avail[0] in chains && chains[avail[0]].phase == Queued
    ensures
      var chains' := chains[avail[0] := chains[avail[0]].(phase := Taken)];
      Lists(avail[1..], chains', true) && Lists(used, chains', false)
  {
    assert avail[0] in avail;
    var chains' := chains[avail[0] := chains[avail[0]].(phase := Taken)];
    forall h | h in chains' && chains'[h].phase.Queued?
      ensures h in avail[1..]
    {
      assert h in avail;
      var i :| 0 <= i < |avail| && avail[i] == h;
      assert avail[1..][i - 1] == h;
    }
  }

  lemma AppliedStep(m: seq<Block>, log: seq<Transfer>, t: Transfer)
    ensures Applied(m, log + [t]) ==
            var p := Applied(m, log); if t.write && t.blockno < |p| then p[t.blockno := t.data] else p
  {
    assert (log + [t])[..|log|] == log;
  }

  lemma ListsDone(avail: seq<nat>, used: seq<nat>, chains: map<nat, Chain>, h: nat, at: nat)
    requires Lists(avail, chains, true) && Lists(used, chains, false) && h in chains && chains[h].phase == Taken
    ensures
      var chains' := chains[h := chains[h].(phase := Completed(at))];
      Lists(avail, chains', true) && Lists(used + [h], chains', false)
  {
    assert h !in avail && h !in used;
  }

  /** The transfer of a taken request keeps everything that is claimed of the other requests. */
  lemma Completes(free: seq<bool>, desc: seq<Desc>, ops: seq<Req>, info: seq<Option<nat>>, buf: seq<Buf>,
                  medium: seq<Block>,
                  log: seq<Transfer>, status: seq<nat>, chains: map<nat, Chain>, h: nat)
    requires |desc| == NUM && |ops| == NUM && |info| == NUM && |status| == NUM && Owned(free, chains)
    requires h in chains && chains[h].phase == Taken
    requires forall g :: g in chains ==> g < NUM && chains[g].mid < NUM && chains[g].last < NUM
                                         && Formatted(desc, ops, info, buf, g, chains[g])
    requires Flags(buf, |medium|, chains) && History(log, status, buf, chains)
    ensures Shape(h, chains[h]) && Formatted(desc, ops, info, buf, h, chains[h])
    ensures chains[h].buf < |buf| && buf[chains[h].buf].blockno < |medium|
    ensures
      var c := chains[h];
      var b := buf[c.buf];
      var buf' := if c.write then buf else buf[c.buf := b.(data := medium[b.blockno])];
      var t := Transfer(c.buf, b.blockno, c.write, buf'[c.buf].data);
      var chains' := chains[h := c.(phase := Completed(|log|))];
      && Owned(free, chains') && Flags(buf', |medium|, chains') && History(log + [t], status[h := 0], buf', chains')
      && forall g :: g in chains' ==> Formatted(desc, ops, info, buf', g, chains'[g])
  {
    hide Formatted, Owned, Flags, History;
    OwnedShapes(free, chains);
    FlagsOf(buf, |medium|, chains, h);
    OwnedPhase(free, chains, h, Completed(|log|));
    var c := chains[h];
    var b := buf[c.buf];
    var buf' := if c.write then buf else buf[c.buf := b.(data := medium[b.blockno])];
    FlagsPhase(buf, |medium|, chains, h, Completed(|log|));
    FlagsData(buf, |medium|, chains[h := c.(phase := Completed(|log|))], buf');
    FormattedSame(desc, ops, info, buf, buf', chains, h, Completed(|log|));
    HistoryDone(log, status, buf, |medium|, chains, h, buf');
  }

  lemma HistoryDone(log: seq<Transfer>, status: seq<nat>, buf: seq<Buf>, blocks: nat, chains: map<nat, Chain>,
                    h: nat, buf': seq<Buf>)
    requires History(log, status, buf, chains) && Flags(buf, blocks, chains)
    requires h in chains && chains[h].phase == Taken && h < |status| && chains[h].buf < |buf| == |buf'|
    requires buf'[chains[h].buf].blockno == buf[chains[h].buf].blockno
    requires forall b :: 0 <= b < |buf| && b != chains[h].buf ==> buf'[b] == buf[b]
    ensures
      var c := chains[h];
      var t := Transfer(c.buf, buf[c.buf].blockno, c.write, buf'[c.buf].data);
      History(log + [t], status[h := 0], buf', chains[h := c.(phase := Completed(|log|))])
  {
  }

  lemma FlagsData(buf: seq<Buf>, blocks: nat, chains: map<nat, Chain>, buf': seq<Buf>)
    requires Flags(buf, blocks, chains) && |buf'| == |buf|
    requires forall b :: 0 <= b < |buf| ==> buf'[b].disk == buf[b].disk && buf'[b].blockno == buf[b].blockno
    ensures Flags(buf', blocks, chains)
  {
  }

  lemma UsedHead(used: seq<nat>, chains: map<nat, Chain>)
    requires Lists(used, chains, false) && used != []
    ensures used[0] in chains && chains[used[0]].phase.Completed?
  {
    assert used[0] in used;
  }

  lemma ListsAck(avail: seq<nat>, used: seq<nat>, chains: map<nat, Chain>)
    requires Lists(avail, chains, true) && Lists(used, chains, false) && used != []
    requires used[0] in chains && chains[used[0]].phase.Completed?
    ensures
      var c := chains[used[0]];
      var chains' := chains[used[0] := c.(phase := Acked(c.phase.at))];
      Lists(avail, chains', true) && Lists(used[1..], chains', false)
  {
    var c := chains[used[0]];
    var chains' := chains[used[0] := c.(phase := Acked(c.phase.at))];
    forall h | h in chains' && chains'[h].phase.Completed?
      ensures h in used[1..]
    {
      assert h in used;
      var i :| 0 <= i < |used| && used[i] == h;
      assert used[1..][i - 1] == h;
    }
  }

  lemma Acknowledges(free: seq<bool>, desc: seq<Desc>, ops: seq<Req>, info: seq<Option<nat>>, buf: seq<Buf>,
                     blocks: nat,
                     log: seq<Transfer>, status: seq<nat>, chains: map<nat, Chain>, h: nat)
    requires |desc| == NUM && |ops| == NUM && |info| == NUM && Owned(free, chains)
    requires h in chains && chains[h].phase.Completed? && chains[h].buf < |buf|
    requires forall g :: g in chains ==> Formatted(desc, ops, info, buf, g, chains[g])
    requires Flags(buf, blocks, chains) && History(log, status, buf, chains)
    ensures
      var c := chains[h];
      var buf' := buf[c.buf := buf[c.buf].(disk := false)];
      var chains' := chains[h := c.(phase := Acked(c.phase.at))];
      && Owned(free, chains') && Flags(buf', blocks, chains') && History(log, status, buf', chains')
      && forall g :: g in chains' ==> Formatted(desc, ops, info, buf', g, chains'[g])
  {
    hide Formatted, Owned, History, Flags, Shape;
    var c := chains[h];
    OwnedPhase(free, chains, h, Acked(c.phase.at));
    var buf' := buf[c.buf := buf[c.buf].(disk := false)];
    OwnedShapes(free, chains);
    FormattedSame(desc, ops, info, buf, buf', chains, h, Acked(c.phase.at));
    FlagsAck(buf, blocks, chains, h);
    HistoryAck(log, status, buf, chains, h);
  }

  lemma FlagsAck(buf: seq<Buf>, blocks: nat, chains: map<nat, Chain>, h: nat)
    requires Flags(buf, blocks, chains) && h in chains && chains[h].phase.Completed? && chains[h].buf < |buf|
    ensures
      var c := chains[h];
      Flags(buf[c.buf := buf[c.buf].(disk := false)], blocks, chains[h := c.(phase := Acked(c.phase.at))])
  {
    var c := chains[h];
    var buf' := buf[c.buf := buf[c.buf].(disk := false)];
    var chains' := chains[h := c.(phase := Acked(c.phase.at))];
    forall b | 0 <= b < |buf'| && buf'[b].disk
      ensures exists g :: g in chains' && chains'[g].buf == b
    {
      var g :| g in chains && chains[g].buf == b;
      assert g in chains' && chains'[g].buf == b;
    }
  }

  lemma HistoryAck(log: seq<Transfer>, status: seq<nat>, buf: seq<Buf>, chains: map<nat, Chain>, h: nat)
    requires History(log, status, buf, chains) && h in chains && chains[h].phase.Completed? && chains[h].buf < |buf|
    ensures
      var c := chains[h];
      History(log, status, buf[c.buf := buf[c.buf].(disk := false)], chains[h := c.(phase := Acked(c.phase.at))])
  {
  }

  lemma OwnedRemove(free: seq<bool>, chains: map<nat, Chain>, h: nat)
    requires Owned(free, chains) && h in chains
    ensures Owned(free[h := true][chains[h].mid := true][chains[h].last := true], chains - {h})
  {
    hide CountFree;
    var c := chains[h];
    assert Held(free, h, c);
    CountFreeSet(free, h, true);
    CountFreeSet(free[h := true], c.mid, true);
    CountFreeSet(free[h := true][c.mid := true], c.last, true);
    var free' := free[h := true][c.mid := true][c.last := true];
    var rest := chains - {h};
    assert rest.Keys == chains.Keys - {h};
    assert |rest| == |chains| - 1;
    forall g | g in rest
      ensures Held(free', g, rest[g])
    {
      ApartStaysHeld(free, h, c, g, chains[g]);
    }
  }

  lemma ApartStaysHeld(free: seq<bool>, h: nat, c: Chain, g: nat, d: Chain)
    requires Held(free, h, c) && Held(free, g, d) && Apart(h, c, g, d)
    ensures Held(free[h := true][c.mid := true][c.last := true], g, d)
  {
    assert !Uses(h, c, g) && !Uses(h, c, d.mid) && !Uses(h, c, d.last) by {
      assert Uses(g, d, g) && Uses(g, d, d.mid) && Uses(g, d, d.last);
    }
  }

  /** Freeing one acknowledged chain keeps everything that is claimed of the others. */
  lemma Remaining(free: seq<bool>, desc: seq<Desc>, desc': seq<Desc>, ops: seq<Req>, info: seq<Option<nat>>,
                  info': seq<Option<nat>>,
                  buf: seq<Buf>, blocks: nat, log: seq<Transfer>, status: seq<nat>, chains: map<nat, Chain>, h: nat)
    requires |desc| == NUM && |desc'| == NUM && |ops| == NUM && |info| == NUM && Owned(free, chains)
    requires h in chains && chains[h].phase.Acked? && h < NUM && info' == info[h := None]
    requires forall g :: g in chains ==> Formatted(desc, ops, info, buf, g, chains[g])
    requires Flags(buf, blocks, chains) && History(log, status, buf, chains)
    requires forall d :: 0 <= d < NUM && !Uses(h, chains[h], d) ==> desc'[d] == desc[d]
    ensures Flags(buf, blocks, chains - {h}) && History(log, status, buf, chains - {h})
    ensures forall g :: g in chains - {h} ==> Formatted(desc', ops, info', buf, g, chains[g])
  {
    hide CountFree, Flags, Formatted, Owned;
    OwnedShapes(free, chains);
    forall g | g in chains && g != h
      ensures Formatted(desc', ops, info', buf, g, chains[g])
    {
      OwnedPair(free, chains, h, g);
      FormattedApart(desc, desc', ops, info, info', buf, h, chains[h], g, chains[g]);
    }
    FlagsRest(buf, blocks, chains, h);
  }

  lemma OwnedPair(free: seq<bool>, chains: map<nat, Chain>, h: nat, g: nat)
    requires Owned(free, chains) && h in chains && g in chains && h != g
    ensures Shape(h, chains[h]) && Shape(g, chains[g]) && Apart(h, chains[h], g, chains[g])
  {
    hide CountFree;
  }

  lemma FormattedApart(desc: seq<Desc>, desc': seq<Desc>, ops: seq<Req>, info: seq<Option<nat>>,
                       info': seq<Option<nat>>,
                       buf: seq<Buf>, h: nat, c: Chain, g: nat, d: Chain)
    requires |desc| == NUM && |desc'| == NUM && |ops| == NUM && |info| == NUM && h < NUM && g != h && Shape(g, d)
    requires info' == info[h := None] && Apart(h, c, g, d) && Formatted(desc, ops, info, buf, g, d)
    requires forall i :: 0 <= i < NUM && !Uses(h, c, i) ==> desc'[i] == desc[i]
    ensures Formatted(desc', ops, info', buf, g, d)
  {
    hide HasNext;
    assert Uses(g, d, g) && Uses(g, d, d.mid) && Uses(g, d, d.last);
    hide Uses;
    assert !Uses(h, c, g) && !Uses(h, c, d.mid) && !Uses(h, c, d.last);
  }

  lemma FlagsRest(buf: seq<Buf>, blocks: nat, chains: map<nat, Chain>, h: nat)
    requires Flags(buf, blocks, chains) && h in chains && chains[h].phase.Acked?
    ensures Flags(buf, blocks, chains - {h})
  {
    var rest := chains - {h};
    forall b | 0 <= b < |buf| && buf[b].disk
      ensures exists g :: g in rest && rest[g].buf == b
    {
      var g :| g in chains && chains[g].buf == b;
      assert g in rest && rest[g].buf == b;
    }
  }

  lemma ListsRemove(avail: seq<nat>, used: seq<nat>, chains: map<nat, Chain>, h: nat)
    requires Lists(avail, chains, true) && Lists(used, chains, false) && h in chains && chains[h].phase.Acked?
    ensures Lists(avail, chains - {h}, true) && Lists(used, chains - {h}, false)
  {
  }
}
