/** Process mailboxes (mail_read and mail_write in os/kernel/proc.c): a ring of 17 slots that
    holds at most 16 mails. */
module Mailboxes {
  import opened Bytes

  const SLOTS: nat := 17
  const MAILSIZE: nat := 256

  /** The slot of the k-th waiting mail, and the slot after one. */
  function SlotAt(head: nat, k: nat): (s: nat)
    ensures s < SLOTS
  {
    (head + k) % SLOTS
  }

  function After(s: nat): (t: nat)
    ensures t < SLOTS
  {
    (1 + s) % SLOTS
  }

  /** Slot s holds mail q. */
  predicate HoldsMail(lens: seq<nat>, mails: seq<seq<byte>>, s: nat, q: seq<byte>) {
    && s < |lens| && s < |mails| && |q| <= MAILSIZE && lens[s] == |q| <= |mails[s]|
    && mails[s][..|q|] == q
  }

  /** The waiting mails do not see a store into the free slot after them. */
  lemma WaitingKept(lens: seq<nat>, mails: seq<seq<byte>>, head: nat, queue: seq<seq<byte>>, n: nat, mail: seq<byte>)
    requires |lens| == SLOTS && |mails| == SLOTS && |queue| < SLOTS
    requires forall k :: 0 <= k < |queue| ==> HoldsMail(lens, mails, SlotAt(head, k), queue[k])
    ensures
      var tail := SlotAt(head, |queue|);
      forall k :: 0 <= k < |queue| ==> HoldsMail(lens[tail := n], mails[tail := mail], SlotAt(head, k), queue[k])
  {
    var tail := SlotAt(head, |queue|);
    forall k | 0 <= k < |queue|
      ensures HoldsMail(lens[tail := n], mails[tail := mail], SlotAt(head, k), queue[k])
    {
      Distinct(head, k, |queue|);
      assert HoldsMail(lens, mails, SlotAt(head, k), queue[k]);
    }
  }

  class Mailbox {
    var head: nat
    var tail: nat
    var lens: seq<nat>
    var mails: seq<seq<byte>>
    /** The mails waiting, oldest first. */
    ghost var queue: seq<seq<byte>>

    ghost predicate Valid()
      reads this
    {
      && head < SLOTS && |lens| == SLOTS && |mails| == SLOTS && |queue| < SLOTS
      && tail == SlotAt(head, |queue|)
      && (forall s :: 0 <= s < SLOTS ==> |mails[s]| == MAILSIZE)
      && forall k :: 0 <= k < |queue| ==> HoldsMail(lens, mails, SlotAt(head, k), queue[k])
    }

    constructor ()
      ensures Valid() && queue == []
    {
      head, tail := 0, 0;
      lens, mails := seq(SLOTS, _ => 0), seq(SLOTS, _ => Zeros(MAILSIZE));
      queue := [];
    }

    /** mail_write of up to len bytes. text holds the bytes readable at the source: copyin fails
        when it needs more, and what it copied before failing stays in the free slot. */
    method MailWrite(text: seq<byte>, len: nat) returns (r: int)
      requires Valid()
      modifies this
      ensures Valid()
      ensures r == if |old(queue)| == 16 then -1
                   else if len == 0 then 0
                   else if |text| < Min(len, 256) then -1
                   else Min(len, 256)
      ensures queue == if r > 0 then old(queue) + [text[..r]] else old(queue)
    {
      hide SlotAt, After;
      assert After(tail) == head <==> |queue| == SLOTS - 1 by { Slots(head, |queue|); }
      if After(tail) == head {
        return -1;
      }
      if len == 0 {
        return 0;
      }
      var n := if len > MAILSIZE then MAILSIZE else len;
      var mail := Overwrite(mails[tail], 0, if |text| < n then text else text[..n]);
      WaitingKept(lens, mails, head, queue, n, mail);
      lens := lens[tail := n];
      mails := mails[tail := mail];
      if |text| < n {
        return -1;
      }
      assert mails[tail][..n] == text[..n];
      queue := queue + [text[..n]];
      Slots(head, |queue| - 1);
      tail := After(tail);
      return n;
    }

    /** mail_read of up to len bytes: the oldest mail is consumed even when only part of it fits.
        room is how many bytes the destination accepts before copyout fails. */
    method MailRead(len: nat, room: nat) returns (r: int, out: seq<byte>)
      requires Valid()
      modifies this
      ensures Valid()
      ensures old(queue) == [] ==> r == -1 && queue == old(queue)
      ensures old(queue) != [] ==>
        var n := Min(len, |old(queue)[0]|);
        if len == 0 then r == 0 && queue == old(queue)
        else if room < n then r == -1 && queue == old(queue)
        else r == n && out == old(queue)[0][..n] && queue == old(queue)[1..]
    {
      hide SlotAt, After;
      out := [];
      assert tail == head <==> queue == [] by { Slots(head, |queue|); }
      if tail == head {
        return -1, out;
      }
      if len == 0 {
        return 0, out;
      }
      Slots(head, 0);
      assert HoldsMail(lens, mails, SlotAt(head, 0), queue[0]);
      var n := if len > lens[head] then lens[head] else len;
      if room < n {
        return -1, out;
      }
      out := mails[head][..n];
      ghost var q0, h0 := queue, head;
      head := After(head);
      queue := queue[1..];
      forall k | 0 <= k < |queue|
        ensures HoldsMail(lens, mails, SlotAt(head, k), queue[k])
      {
        Next(h0, k);
        assert queue[k] == q0[k + 1];
        assert HoldsMail(lens, mails, SlotAt(h0, k + 1), q0[k + 1]);
      }
      Next(h0, |queue|);
      return n, out;
    }
  }

  lemma Slots(head: nat, n: nat)
    requires head < SLOTS && n < SLOTS
    ensures After(SlotAt(head, n)) == head <==> n == SLOTS - 1
    ensures SlotAt(head, n) == head <==> n == 0
    ensures After(SlotAt(head, n)) == SlotAt(head, n + 1)
  {
    SlotSum(head, n);
    SlotSum(head, n + 1);
  }

  lemma SlotSum(head: nat, n: nat)
    requires head < SLOTS && n <= SLOTS
    ensures SlotAt(head, n) == if head + n < SLOTS then head + n else head + n - SLOTS
  {
  }

  lemma Distinct(head: nat, k: nat, n: nat)
    requires k < n < SLOTS
    ensures SlotAt(head, k) != SlotAt(head, n)
  {
  }

  lemma Next(head: nat, k: nat)
    ensures SlotAt(After(head), k) == SlotAt(head, k + 1)
  {
  }
}
