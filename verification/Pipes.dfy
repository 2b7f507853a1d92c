/** Pipes (os/kernel/pipe.c): a ring of PIPESIZE bytes with 32-bit counters, written and read by
    processes that interleave wherever one of them yields. */
module Pipes {
  import opened Bytes

  const PIPESIZE: nat := 512
  const WRAP: nat := 0x1_0000_0000

  /** A step of another process while this one is off the CPU: one round of the loop of its pipewrite
      or piperead, or a close. */
  datatype Action = Put(writer: nat, src: seq<byte>) | Take(n: nat) | CloseEnd(writable: bool)

  /** Bytes accepted so far, with the process that wrote each. */
  type Log = seq<(nat, byte)>

  /** The bytes in a log, and those of one writer. */
  function Plain(log: Log): (r: seq<byte>)
    ensures |r| == |log| && forall k :: 0 <= k < |log| ==> r[k] == log[k].1
  {
    seq(|log|, k requires 0 <= k < |log| => log[k].1)
  }

  function Tagged(writer: nat, t: seq<byte>): (r: Log)
    ensures |r| == |t| && forall k :: 0 <= k < |t| ==> r[k] == (writer, t[k])
  {
    seq(|t|, k requires 0 <= k < |t| => (writer, t[k]))
  }

  function ByWriter(log: Log, writer: nat): seq<byte> {
    if log == [] then []
    else ByWriter(log[..|log| - 1], writer) +
         (if log[|log| - 1].0 == writer then [log[|log| - 1].1] else [])
  }

  /** What writer me has in log, and not yet in log0, is src[i..j]. */
  ghost predicate Own(log0: Log, log: Log, me: nat, src: seq<byte>, i: nat, j: nat) {
    i <= j <= |src| && ByWriter(log, me) == ByWriter(log0, me) + src[i..j]
  }

  lemma OwnNothing(log: Log, me: nat, src: seq<byte>)
    ensures Own(log, log, me, src, 0, 0)
  {
    assert ByWriter(log, me) + src[0..0] == ByWriter(log, me);
  }

  lemma OwnStays(log0: Log, log: Log, log': Log, me: nat, src: seq<byte>, j: nat)
    requires Own(log0, log, me, src, 0, j) && ByWriter(log', me) == ByWriter(log, me)
    ensures Own(log0, log', me, src, 0, j)
  {
  }

  lemma OwnMore(log0: Log, log1: Log, log: Log, me: nat, src: seq<byte>, i: nat, j: nat, k: nat)
    requires Own(log0, log1, me, src, i, j) && Own(log1, log, me, src, j, k)
    ensures Own(log0, log, me, src, i, k)
  {
    hide ByWriter;
    assert src[i..j] + src[j..k] == src[i..k];
  }

  lemma {:induction false} ByWriterAppend(log: Log, w: nat, t: seq<byte>, writer: nat)
    ensures ByWriter(log + Tagged(w, t), writer) == ByWriter(log, writer) + (if w == writer then t else [])
    decreases |t|
  {
    if t == [] {
      assert log + Tagged(w, t) == log;
    } else {
      var n := |t| - 1;
      var all := log + Tagged(w, t);
      assert all[..|all| - 1] == log + Tagged(w, t[..n]);
      ByWriterAppend(log, w, t[..n], writer);
      assert t == t[..n] + [t[n]];
    }
  }

  /** No step is a write of process me: it is off the CPU. */
  predicate Foreign(steps: seq<Action>, me: nat) {
    forall j :: 0 <= j < |steps| && steps[j].Put? ==> steps[j].writer != me
  }

  predicate ForeignAll(env: seq<seq<Action>>, me: nat) {
    forall k :: 0 <= k < |env| ==> Foreign(env[k], me)
  }

  // ---------- what a process sees happen ----------

  /** The pipe without its ring: all bytes accepted, how many of them were delivered, and which ends are open. */
  datatype Snap = Snap(sent: Log, taken: nat, readopen: bool, writeopen: bool)

  /** How many of left bytes one round of pipewrite accepts: as many as there is room for before the ring wraps. */
  function Accepted(p: Snap, left: nat): nat {
    if |p.sent| >= p.taken + PIPESIZE then 0
    else Min(Min(left, p.taken + PIPESIZE - |p.sent|), PIPESIZE - |p.sent| % PIPESIZE)
  }

  /** And one round of piperead delivers. */
  function Delivered(p: Snap, left: nat): nat {
    if |p.sent| <= p.taken then 0 else Min(Min(left, |p.sent| - p.taken), PIPESIZE - p.taken % PIPESIZE)
  }

  /** A round moves all that is left, unless the ring is then full, or empty, or at its end. */
  lemma RoundMoves(p: Snap, left: nat)
    requires p.taken <= |p.sent| <= p.taken + 512
    ensures
      var n, total := Accepted(p, left), |p.sent| + Accepted(p, left);
      && n <= left && total <= p.taken + 512 && (n == left || total == p.taken + 512 || total % 512 == 0)
      && (left > 0 && |p.sent| < p.taken + 512 ==> n > 0) && n <= 512 - |p.sent| % 512
    ensures
      var n, total := Delivered(p, left), p.taken + Delivered(p, left);
      && n <= left && total <= |p.sent| && (n == left || total == |p.sent| || total % 512 == 0)
      && (left > 0 && p.taken < |p.sent| ==> n > 0) && n <= 512 - p.taken % 512
  {
    ToEnd(|p.sent|);
    ToEnd(p.taken);
  }

  lemma ToEnd(t: nat)
    ensures (t + (512 - t % 512)) % 512 == 0
  {
    assert t == 512 * (t / 512) + t % 512;
  }

  function Act(p: Snap, a: Action): Snap {
    match a
    case Put(w, src) => if p.readopen then p.(sent := p.sent + Tagged(w, src[..Accepted(p, |src|)])) else p
    case Take(n) => p.(taken := p.taken + Delivered(p, n))
    case CloseEnd(writable) => if writable then p.(writeopen := false) else p.(readopen := false)
  }

  /** One yield: any number of steps. */
  function Acts(p: Snap, steps: seq<Action>): Snap {
    if steps == [] then p else Act(Acts(p, steps[..|steps| - 1]), steps[|steps| - 1])
  }

  /** Yields with nothing in between. */
  function Through(p: Snap, env: seq<seq<Action>>): Snap {
    if env == [] then p else Acts(Through(p, env[..|env| - 1]), env[|env| - 1])
  }

  lemma ActsMore(p: Snap, steps: seq<Action>, k: nat)
    requires k < |steps|
    ensures Acts(p, steps[..k + 1]) == Act(Acts(p, steps[..k]), steps[k])
  {
    assert steps[..k + 1][..k] == steps[..k];
  }

  lemma ThroughMore(p: Snap, env: seq<seq<Action>>, k: nat)
    requires k < |env|
    ensures Through(p, env[..k + 1]) == Acts(Through(p, env[..k]), env[k])
  {
    assert env[..k + 1][..k] == env[..k];
  }

  /** A reader that finds the pipe like this yields. */
  predicate Waits(p: Snap) {
    p.taken == |p.sent| && p.writeopen
  }

  /** A point in a call of pipewrite: the pipe, and how many of the bytes are accepted. */
  datatype Look = Look(pipe: Snap, done: nat)

  /** From a to b the call had the processor: bytes of its own came in, in order, and nothing else changed. */
  ghost predicate Wrote(a: Look, b: Look, me: nat, src: seq<byte>) {
    && a.done <= b.done <= |src|
    && b.pipe == a.pipe.(sent := a.pipe.sent + Tagged(me, src[a.done..b.done]))
  }

  /** Where the call goes on after its first k yields. */
  function Resumed(start: Snap, env: seq<seq<Action>>, looks: seq<Look>, k: nat): Look
    requires k <= |looks| <= |env|
  {
    if k == 0 then Look(start, 0) else Look(Acts(looks[k - 1].pipe, env[k - 1]), looks[k - 1].done)
  }

  /** looks are the points at which the call yields, each with a full ring and an open read end. */
  ghost predicate IsWrite(start: Snap, me: nat, src: seq<byte>, env: seq<seq<Action>>, looks: seq<Look>) {
    && |looks| <= |env|
    && forall k: nat :: k < |looks| ==>
         Wrote(Resumed(start, env, looks, k), looks[k], me, src)
         && |looks[k].pipe.sent| == looks[k].pipe.taken + PIPESIZE && looks[k].pipe.readopen
  }

  /** A call of pipewrite that is now at l. */
  ghost predicate Writing(start: Snap, me: nat, src: seq<byte>, env: seq<seq<Action>>, looks: seq<Look>, l: Look) {
    IsWrite(start, me, src, env, looks) && Wrote(Resumed(start, env, looks, |looks|), l, me, src)
  }

  lemma LookMore(start: Snap, me: nat, src: seq<byte>, env: seq<seq<Action>>, looks: seq<Look>, l: Look, l': Look)
    requires Writing(start, me, src, env, looks, l) && |looks| < |env|
    requires |l.pipe.sent| == l.pipe.taken + PIPESIZE && l.pipe.readopen
    requires l' == Look(Acts(l.pipe, env[|looks|]), l.done) && l.done <= |src|
    ensures Writing(start, me, src, env, looks + [l], l')
  {
    hide Wrote, Acts;
    WroteNothing(l', me, src);
    forall k: nat | k <= |looks|
      ensures Resumed(start, env, looks + [l], k) == Resumed(start, env, looks, k)
    {
    }
  }

  lemma WroteNothing(a: Look, me: nat, src: seq<byte>)
    requires a.done <= |src|
    ensures Wrote(a, a, me, src)
  {
    assert a.pipe.sent + Tagged(me, src[a.done..a.done]) == a.pipe.sent;
  }

  lemma WriteBegins(start: Snap, me: nat, src: seq<byte>, env: seq<seq<Action>>)
    ensures Writing(start, me, src, env, [], Look(start, 0))
  {
    WroteNothing(Look(start, 0), me, src);
  }

  lemma WroteMore(a: Look, b: Look, c: Look, me: nat, src: seq<byte>)
    requires Wrote(a, b, me, src) && Wrote(b, c, me, src)
    ensures Wrote(a, c, me, src)
  {
    TaggedMore(a.pipe.sent, me, src, a.done, b.done, c.done);
  }

  lemma WritingMore(start: Snap, me: nat, src: seq<byte>, env: seq<seq<Action>>, looks: seq<Look>, l: Look, l': Look)
    requires Writing(start, me, src, env, looks, l) && Wrote(l, l', me, src)
    ensures Writing(start, me, src, env, looks, l')
  {
    hide Wrote, Resumed;
    WroteMore(Resumed(start, env, looks, |looks|), l, l', me, src);
  }

  lemma TaggedMore(log: Log, me: nat, src: seq<byte>, i: nat, j: nat, k: nat)
    requires i <= j <= k <= |src|
    ensures log + Tagged(me, src[i..j]) + Tagged(me, src[j..k]) == log + Tagged(me, src[i..k])
  {
    assert Tagged(me, src[i..j]) + Tagged(me, src[j..k]) == Tagged(me, src[i..k]);
  }

  // ---------- the ring ----------

  /** The undelivered bytes are in the ring. */
  ghost predicate InRing(d: seq<byte>, sent: Log, taken: nat) {
    |d| == PIPESIZE && forall k :: taken <= k < |sent| ==> d[k % PIPESIZE] == sent[k].1
  }

  lemma RingStore(d: seq<byte>, sent: Log, taken: nat, writer: nat, t: seq<byte>)
    requires InRing(d, sent, taken) && |sent| + |t| <= taken + PIPESIZE && |t| <= PIPESIZE - |sent| % PIPESIZE
    ensures InRing(Overwrite(d, |sent| % PIPESIZE, t), sent + Tagged(writer, t), taken)
  {
    var n := |sent|;
    var s' := sent + Tagged(writer, t);
    forall k | taken <= k < |s'|
      ensures Overwrite(d, n % PIPESIZE, t)[k % PIPESIZE] == s'[k].1
    {
      if k >= n {
        SlotOf(n, k);
      } else {
        OtherSlot(k, n, |t|, taken);
      }
    }
  }

  lemma RingSlice(d: seq<byte>, sent: Log, taken: nat, size: nat)
    requires InRing(d, sent, taken) && taken + size <= |sent| && size <= PIPESIZE - taken % PIPESIZE
    ensures d[taken % PIPESIZE..taken % PIPESIZE + size] == Plain(sent)[taken..taken + size]
  {
    var at := taken % PIPESIZE;
    var s, t := d[at..at + size], Plain(sent)[taken..taken + size];
    forall i | 0 <= i < |s|
      ensures s[i] == t[i]
    {
      SlotOf(taken, taken + i);
      assert d[(taken + i) % PIPESIZE] == sent[taken + i].1;
    }
  }

  /** Counters modulo 2^32 follow totals. */
  lemma TotalStep(total: nat, size: nat)
    requires size <= PIPESIZE
    ensures (total % WRAP + size) % WRAP == (total + size) % WRAP
  {
    ModAdd(total, size);
  }

  class Pipe {
    const data: array<byte>
    var nread: nat
    var nwrite: nat
    var readopen: bool
    var writeopen: bool
    /** Everything pipewrite accepted, everything piperead delivered, and how much that is. */
    ghost var sent: Log
    ghost var delivered: seq<byte>
    ghost var taken: nat

    /** What was delivered is a prefix of what was accepted; the rest, at most PIPESIZE bytes, is in
        the ring in order; the counters are the totals modulo 2^32. */
    ghost predicate Valid()
      reads this, data
    {
      && data.Length == PIPESIZE
      && taken <= |sent| <= taken + PIPESIZE
      && nread == taken % WRAP && nwrite == |sent| % WRAP
      && InRing(data[..], sent, taken)
      && delivered == Plain(sent)[..taken]
    }

    /** pipealloc */
    constructor ()
      ensures Valid() && fresh(data) && sent == [] && taken == 0 && readopen && writeopen
    {
      data := new byte[PIPESIZE](_ => 0);
      nread, nwrite, readopen, writeopen := 0, 0, true, true;
      sent, taken, delivered := [], 0, [];
    }

    /** nwrite == nread + PIPESIZE and nread == nwrite, in 32-bit arithmetic */
    predicate IsFull()
      reads this
    {
      nwrite == (nread + PIPESIZE) % WRAP
    }

    lemma Counters()
      requires Valid()
      ensures nread == taken % 0x1_0000_0000 && nwrite == |sent| % 0x1_0000_0000
      ensures IsFull() <==> |sent| == taken + 512
      ensures (nread == nwrite <==> taken == |sent|) && taken <= |sent|
      ensures (nwrite + WRAP - nread) % WRAP == |sent| - taken
      ensures (nread + PIPESIZE + WRAP - nwrite) % WRAP == taken + PIPESIZE - |sent|
      ensures nwrite % PIPESIZE == |sent| % PIPESIZE && nread % PIPESIZE == taken % PIPESIZE
    {
      ModDistance(taken, |sent|);
    }

    /** How many bytes the next round of pipewrite moves: those left, as far as they fit before the ring is
        full or wraps. */
    function PutSize(left: nat): nat
      reads this`nread, this`nwrite
    {
      var room := nread + PIPESIZE + WRAP - nwrite;
      Min(Min(left, if room < 0 then 0 else room % WRAP), PIPESIZE - nwrite % PIPESIZE)
    }

    /** And the next round of piperead. */
    function TakeSize(left: nat): nat
      reads this`nread, this`nwrite
    {
      var avail := nwrite + WRAP - nread;
      Min(Min(left, if avail < 0 then 0 else avail % WRAP), PIPESIZE - nread % PIPESIZE)
    }

    /** One round of the loop of pipewrite with room in the ring. */
    method PutChunk(writer: nat, src: seq<byte>) returns (size: nat)
      requires Valid() && src != [] && !IsFull()
      modifies this`nwrite, this`sent, data
      ensures Valid() && 0 < size <= |src| && size == old(PutSize(|src|))
      ensures sent == old(sent) + Tagged(writer, src[..size]) && taken == old(taken)
    {
      Counters();
      size := PutSize(|src|);
      var at := nwrite % PIPESIZE;
      ghost var d0, s0 := data[..], sent;
      forall k | 0 <= k < size {
        data[at + k] := src[k];
      }
      assert data[..] == Overwrite(d0, at, src[..size]);
      RingStore(d0, s0, taken, writer, src[..size]);
      TotalStep(|s0|, size);
      sent := sent + Tagged(writer, src[..size]);
      nwrite := (nwrite + size) % WRAP;
      assert Plain(sent)[..taken] == Plain(s0)[..taken];
    }

    /** One round of the copy loop of piperead with bytes in the ring. */
    method TakeChunk(n: nat) returns (out: seq<byte>)
      requires Valid() && n > 0 && nread != nwrite
      modifies this`nread, this`taken, this`delivered
      ensures Valid() && 0 < |out| <= n && |out| == old(TakeSize(n))
      ensures taken == old(taken) + |out| <= |sent| && out == Plain(sent)[old(taken)..taken]
      ensures delivered == old(delivered) + out
    {
      Counters();
      var size := TakeSize(n);
      var at := nread % PIPESIZE;
      out := data[at..at + size];
      RingSlice(data[..], sent, taken, size);
      TotalStep(taken, size);
      nread := (nread + size) % WRAP;
      delivered := delivered + out;
      taken := taken + size;
    }

    /** pipeclose; true when the page of the pipe is freed. */
    method Close(writable: bool) returns (freed: bool)
      requires Valid()
      modifies this`readopen, this`writeopen
      ensures Valid() && sent == old(sent) && taken == old(taken)
      ensures readopen == (old(readopen) && writable) && writeopen == (old(writeopen) && !writable)
      ensures freed == (!readopen && !writeopen)
    {
      if writable {
        writeopen := false;
      } else {
        readopen := false;
      }
      return !readopen && !writeopen;
    }

    ghost function Now(): Snap
      reads this
    {
      Snap(sent, taken, readopen, writeopen)
    }

    /** The sizes, in 32-bit arithmetic, are those of the totals. */
    lemma Sizes(left: nat)
      requires Valid()
      ensures PutSize(left) == Accepted(Now(), left) && TakeSize(left) == Delivered(Now(), left)
    {
      Counters();
    }

    /** The relation between two states of the pipe with other processes in between. */
    twostate predicate Evolved(me: nat)
      reads this
    {
      && old(sent) <= sent && old(taken) <= taken
      && ByWriter(sent, me) == ByWriter(old(sent), me)
      && (!old(readopen) ==> !readopen) && (!old(writeopen) ==> !writeopen)
    }

    /** One step of another process. */
    method Other(a: Action, ghost me: nat)
      requires Valid() && (a.Put? ==> a.writer != me)
      modifies this, data
      ensures Valid() && Evolved(me) && Now() == Act(old(Now()), a)
    {
      hide ByWriter;
      Counters();
      match a {
        case Put(w, src) =>
          Sizes(|src|);
          assert sent + Tagged(w, []) == sent;
          if src != [] && readopen && !IsFull() {
            var size := PutChunk(w, src);
            ByWriterAppend(old(sent), w, src[..size], me);
          }
        case Take(n) =>
          Sizes(n);
          if n > 0 && nread != nwrite {
            var out := TakeChunk(n);
          }
        case CloseEnd(writable) =>
          var freed := Close(writable);
      }
    }

    /** One yield of process me: any number of steps of any number of other processes, and me is back. */
    method Yield(steps: seq<Action>, ghost me: nat)
      requires Valid() && Foreign(steps, me)
      modifies this, data
      ensures Valid() && Evolved(me) && Now() == Acts(old(Now()), steps)
    {
      hide Valid, ByWriter, Act;
      var k := 0;
      while k < |steps|
        invariant 0 <= k <= |steps| && Valid() && Evolved(me) && Now() == Acts(old(Now()), steps[..k])
      {
        Other(steps[k], me);
        ActsMore(old(Now()), steps, k);
        k := k + 1;
      }
      assert steps[..k] == steps;
    }

    /** pipewrite of n bytes by process me. src holds the bytes that can be read at the source address: a copyin
        of more of them fails, and the kernel panics, as it does when n is not positive. env[k] is all that other
        processes do during the k-th yield of this call, and looks the points at which it yields. w is n, or -1
        when the read end was closed, or -2 when after all of env the ring is full and the call still waits. done
        bytes were accepted. */
    method Pipewrite(me: nat, src: seq<byte>, n: int, env: seq<seq<Action>>)
        returns (w: int, ghost done: nat, ghost looks: seq<Look>, panicked: bool)
      requires Valid() && ForeignAll(env, me)
      modifies this, data
      ensures Valid() && old(sent) <= sent && old(taken) <= taken
      ensures done <= |src| && Own(old(sent), sent, me, src, 0, done)
      ensures Writing(old(Now()), me, src, env, looks, Look(Now(), done)) && |looks| <= |env|
      ensures n <= 0 ==> panicked && done == 0 && looks == []
      ensures panicked && n > 0 ==> |src| < n && readopen && !IsFull() && |src| < done + PutSize(n - done)
      ensures !panicked ==> (w == n <==> done == n) && (w == n || w == -1 || w == -2)
      ensures !panicked && w == -1 ==> !readopen && done < n
      ensures !panicked && w == -2 ==> readopen && IsFull() && done < n && |looks| == |env|
    {
      hide Valid, PutSize, IsFull, Own, Writing, Acts, Foreign;
      done, looks, panicked := 0, [], false;
      WriteBegins(old(Now()), me, src, env);
      OwnNothing(sent, me, src);
      if n <= 0 {
        return -1, 0, [], true;
      }
      w := 0;
      var e := 0;
      while w < n
        invariant 0 <= w <= n && w <= |src| && done == w && e == |looks| <= |env| && Valid()
        invariant Writing(old(Now()), me, src, env, looks, Look(Now(), done))
        invariant old(sent) <= sent && old(taken) <= taken && Own(old(sent), sent, me, src, 0, w)
        decreases |env| - e, n - w
      {
        if !readopen {
          return -1, w, looks, false;
        }
        if IsFull() {
          if e == |env| {
            return -2, w, looks, false;
          }
          Counters();
          ghost var here := Look(Now(), w);
          Yield(env[e], me);
          OwnStays(old(sent), here.pipe.sent, sent, me, src, w);
          LookMore(old(Now()), me, src, env, looks, here, Look(Now(), w));
          looks := looks + [here];
          e := e + 1;
        } else {
          ghost var here := Look(Now(), w);
          var size, failed := WriteRound(me, src, w, n - w);
          if failed {
            return w, w, looks, true;
          }
          WritingMore(old(Now()), me, src, env, looks, here, Look(Now(), w + size));
          OwnMore(old(sent), here.pipe.sent, sent, me, src, 0, w, w + size);
          w := w + size;
          done := w;
        }
      }
    }

    /** The part of the loop of pipewrite that moves bytes. */
    method WriteRound(me: nat, src: seq<byte>, w: nat, left: nat) returns (size: nat, failed: bool)
      requires Valid() && left > 0 && !IsFull() && w <= |src|
      modifies this`nwrite, this`sent, data
      ensures Valid() && failed == (|src| < w + old(PutSize(left)))
      ensures failed ==> sent == old(sent) && nwrite == old(nwrite) && |src| < w + left
      ensures !failed ==> 0 < size <= left && w + size <= |src| && old(sent) <= sent
      ensures !failed ==> Wrote(Look(old(Now()), w), Look(Now(), w + size), me, src)
      ensures !failed ==> Own(old(sent), sent, me, src, w, w + size)
    {
      hide ByWriter;
      ghost var s0 := sent;
      SizeFits(left);
      size := PutSize(left);
      if |src| < w + size {
        return size, true;
      }
      var all := PutChunk(me, src[w..w + size]);
      assert src[w..w + size][..all] == src[w..w + size];
      ByWriterAppend(s0, me, src[w..w + size], me);
      failed := false;
    }

    /** Asking for exactly the bytes of the next round moves them all. */
    lemma SizeFits(left: nat)
      requires Valid() && left > 0 && !IsFull()
      ensures 0 < PutSize(left) <= left && PutSize(PutSize(left)) == PutSize(left)
    {
      Counters();
    }

    /** piperead: out is the next bytes of the pipe, all that were there up to n, taken in one go once there are
        any; -1 when the pipe is empty and the write end closed; -2 when after all of env it is empty, the
        write end is open and the call still waits. env is as for pipewrite, and used is the
        number of yields. room is how many bytes the destination accepts before a copyout fails and the kernel panics. */
    method Piperead(me: nat, n: int, room: nat, env: seq<seq<Action>>)
        returns (r: int, out: seq<byte>, ghost used: nat, panicked: bool)
      requires Valid() && ForeignAll(env, me)
      modifies this, data
      ensures Valid() && old(sent) <= sent && old(taken) + |out| <= taken <= |sent|
      ensures out == Plain(sent)[taken - |out|..taken]
      ensures |out| <= room && (n <= 0 ==> panicked && out == [])
      ensures panicked && n > 0 ==> room < n && nread != nwrite && room < |out| + TakeSize(n - |out|)
      ensures !panicked && r >= 0 ==> r == |out| && 0 < r <= n && (r < n ==> taken == |sent|)
      ensures !panicked && r < 0 ==> (r == -1 || r == -2) && out == [] && taken == |sent|
      ensures !panicked && r == -1 ==> !writeopen
      ensures used <= |env| && (!panicked && r == -2 ==> writeopen && used == |env|)
      ensures Now().(taken := taken - |out|) == Through(old(Now()), env[..used])
      ensures forall k: nat :: k < used ==> Waits(Through(old(Now()), env[..k]))
    {
      hide Valid, TakeSize, Acts;
      Counters();
      out, panicked := [], false;
      if n <= 0 {
        assert env[..0] == [];
        return -1, out, 0, true;
      }
      r, used := AwaitBytes(me, env);
      if r < 0 {
        return;
      }
      out, panicked := CopyOut(n, room);
      r := |out|;
    }

    /** The first loop of piperead: 0 once there are bytes. */
    method AwaitBytes(me: nat, env: seq<seq<Action>>) returns (r: int, ghost used: nat)
      requires Valid() && ForeignAll(env, me)
      modifies this, data
      ensures Valid() && old(sent) <= sent && old(taken) <= taken <= |sent|
      ensures r == 0 ==> nread != nwrite && taken < |sent|
      ensures r != 0 ==> (r == -1 || r == -2) && taken == |sent| && (r == -1 ==> !writeopen)
      ensures used <= |env| && (r == -2 ==> writeopen && used == |env|)
      ensures Now() == Through(old(Now()), env[..used])
      ensures forall k: nat :: k < used ==> Waits(Through(old(Now()), env[..k]))
    {
      hide Valid, Acts;
      var e := 0;
      Counters();
      while nread == nwrite
        invariant e <= |env| && Valid() && old(sent) <= sent && old(taken) <= taken <= |sent|
        invariant nread == nwrite <==> taken == |sent|
        invariant Now() == Through(old(Now()), env[..e])
        invariant forall k: nat :: k < e ==> Waits(Through(old(Now()), env[..k]))
        decreases |env| - e
      {
        if !writeopen {
          return -1, e;
        }
        if e == |env| {
          return -2, e;
        }
        Yield(env[e], me);
        Counters();
        ThroughMore(old(Now()), env, e);
        e := e + 1;
      }
      return 0, e;
    }

    /** The second: rounds until the bytes, or those asked for, run out; panicked when a round does not fit. */
    method CopyOut(n: nat, room: nat) returns (out: seq<byte>, panicked: bool)
      requires Valid() && n > 0 && nread != nwrite
      modifies this, data
      ensures Valid() && sent == old(sent) && taken == old(taken) + |out| <= |sent|
      ensures readopen == old(readopen) && writeopen == old(writeopen)
      ensures |out| <= room && |out| <= n && out == Plain(sent)[old(taken)..taken]
      ensures panicked ==> room < n && nread != nwrite && room < |out| + TakeSize(n - |out|)
      ensures !panicked ==> 0 < |out| && (|out| < n ==> taken == |sent|)
    {
      hide Valid, Plain;
      ghost var t0 := taken;
      Counters();
      out := [];
      var size := -1;
      while |out| < n && size != 0
        invariant |out| <= n && |out| <= room && Valid() && sent == old(sent) && taken == t0 + |out| <= |sent|
        invariant readopen == old(readopen) && writeopen == old(writeopen)
        invariant out == Plain(sent)[t0..taken]
        invariant size != 0 && (out == [] ==> nread != nwrite) && (nread == nwrite <==> taken == |sent|)
        decreases n - |out|
      {
        if nread == nwrite {
          break;
        }
        if room < |out| + TakeSize(n - |out|) {
          return out, true;
        }
        ghost var t1 := taken;
        var chunk := TakeChunk(n - |out|);
        assert Plain(sent)[t0..t1] + Plain(sent)[t1..taken] == Plain(sent)[t0..taken];
        out := out + chunk;
        size := |chunk|;
        Counters();
      }
      panicked := false;
    }
  }

  // ---------- 32-bit counters ----------

  lemma ModAdd(a: nat, d: nat)
    requires d <= PIPESIZE
    ensures (a + d) % WRAP == if a % WRAP + d < WRAP then a % WRAP + d else a % WRAP + d - WRAP
  {
  }

  lemma ModSlot(a: nat)
    ensures a % WRAP % PIPESIZE == a % PIPESIZE
  {
    var q := a / WRAP;
    assert a == PIPESIZE * (0x80_0000 * q) + a % WRAP;
    MultipleMod(0x80_0000 * q, a % WRAP);
  }

  lemma MultipleMod(q: nat, r: nat)
    ensures (PIPESIZE * q + r) % PIPESIZE == r % PIPESIZE
  {
  }

  lemma ModDistance(a: nat, b: nat)
    requires a <= b <= a + PIPESIZE
    ensures (b % WRAP + WRAP - a % WRAP) % WRAP == b - a
    ensures (a % WRAP + PIPESIZE + WRAP - b % WRAP) % WRAP == a + PIPESIZE - b
    ensures b % WRAP == (a % WRAP + PIPESIZE) % WRAP <==> b == a + PIPESIZE
    ensures a % WRAP == b % WRAP <==> a == b
    ensures b % WRAP % PIPESIZE == b % PIPESIZE && a % WRAP % PIPESIZE == a % PIPESIZE
  {
    ModAdd(a, b - a);
    ModSlot(a);
    ModSlot(b);
  }

  /** Positions up to the end of the ring have consecutive slots. */
  lemma SlotOf(n: nat, k: nat)
    requires n <= k < n + (PIPESIZE - n % PIPESIZE)
    ensures k % PIPESIZE == n % PIPESIZE + (k - n)
  {
  }

  /** An undelivered byte is not in the slots about to be written. */
  lemma OtherSlot(k: nat, n: nat, size: nat, taken: nat)
    requires taken <= k < n && n + size <= taken + PIPESIZE && size <= PIPESIZE - n % PIPESIZE
    ensures !(n % PIPESIZE <= k % PIPESIZE < n % PIPESIZE + size)
  {
  }
}
