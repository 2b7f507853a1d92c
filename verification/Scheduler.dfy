/** The process pool and its round-robin scheduler (os/kernel/proc.c).  swtch is one atomic step: the
    scheduler hands the processor to a slot, and gets it back when that slot calls sched. */
module Scheduler {

  const NPROC: nat := 256
  /** No slot: a null parent, or the idle context. */
  const NONE: int := -1

  datatype State = Unused | Used | Runnable | Running | Zombie

  /** What a running process asks for; Fork(false) is a fork for which there is not enough memory. */
  datatype Call = Fork(copied: bool) | Spawn(found: bool) | Wait(pid: int) | Yield | Exit(code: int)

  datatype WaitResult = Reaped(pid: int, code: int) | NoChild | Blocked

  // ---------- bounded waiting ----------

  /** How many slots the scan passes before it reaches b. */
  function Distance(cursor: nat, b: nat): nat
    requires cursor <= NPROC && b < NPROC
  {
    if cursor <= b then b - cursor else b + NPROC - cursor
  }

  /** Slots dispatched one after the other while b waits: each is nearer to b than the one before. */
  ghost predicate Approaching(log: seq<int>, b: nat)
    requires b < NPROC
  {
    && (forall i :: 0 <= i < |log| ==> 0 <= log[i] < NPROC)
    && forall i, j :: 0 <= i < j < |log| ==> Distance(log[j], b) < Distance(log[i], b)
  }

  /** No slot runs twice while b waits, and no more than NPROC - 1 dispatches come first. */
  lemma {:induction false} ApproachingBound(log: seq<int>, b: nat)
    requires b < NPROC && Approaching(log, b) && b !in log
    ensures forall i, j :: 0 <= i < j < |log| ==> log[i] != log[j]
    ensures |log| > 0 ==> |log| + Distance(log[|log| - 1], b) <= NPROC
    ensures |log| < NPROC
  {
    if |log| > 0 {
      var last := log[|log| - 1];
      assert last in log;
      var front := log[..|log| - 1];
      assert forall i :: 0 <= i < |front| ==> front[i] in log;
      ApproachingBound(front, b);
    }
  }

  // ---------- the pool as a transition system ----------

  datatype Snap = Snap(state: seq<State>, pid: seq<int>, parent: seq<int>, exitCode: seq<int>, nextPid: int,
                       current: int, cursor: nat)

  ghost predicate Sized(a: Snap) {
    |a.state| == NPROC && |a.pid| == NPROC && |a.parent| == NPROC && |a.exitCode| == NPROC
  }

  ghost predicate Runs(a: Snap) {
    Sized(a) && 0 <= a.current < NPROC
  }

  predicate Full(state: seq<State>)
    requires |state| == NPROC
  {
    forall q :: 0 <= q < NPROC ==> state[q] != Unused
  }

  predicate NoneRunnable(state: seq<State>)
    requires |state| == NPROC
  {
    forall q :: 0 <= q < NPROC ==> state[q] != Runnable
  }

  /** The scheduler hands the processor to the runnable slot that its scan reaches first. */
  ghost predicate Dispatched(a: Snap, b: Snap) {
    && Sized(a) && a.cursor <= NPROC && 0 <= b.current < NPROC && a.state[b.current] == Runnable
    && b == a.(state := a.state[b.current := Running], current := b.current, cursor := b.current)
    && forall q :: 0 <= q < NPROC && a.state[q] == Runnable ==> Distance(b.current, q) <= Distance(a.cursor, q)
  }

  /** The current slot, now in state x, gives up the processor. */
  ghost function Stopped(a: Snap, x: State): Snap
    requires Runs(a)
  {
    a.(state := a.state[a.current := x], current := NONE, cursor := a.cursor + 1)
  }

  /** Slot np, the first unused one, becomes a process with an id of its own. */
  ghost predicate Born(a: Snap, np: int, x: State, parent: int, b: Snap)
    requires Sized(a)
  {
    && 0 <= np < NPROC && a.state[np] == Unused && (forall q :: 0 <= q < np ==> a.state[q] != Unused)
    && b == a.(state := a.state[np := x], pid := a.pid[np := a.nextPid], parent := a.parent[np := parent],
               exitCode := a.exitCode[np := -1], nextPid := a.nextPid + 1)
  }

  /** The first zombie among the children that wait(want) counts is given up. */
  ghost predicate Reaps(a: Snap, want: int, z: int, b: Snap)
    requires Runs(a)
  {
    && 0 <= z < NPROC && DeadChild(a, want, z) && (forall q :: 0 <= q < z ==> !DeadChild(a, want, q))
    && b == a.(state := a.state[z := Unused])
  }

  ghost predicate DeadChild(a: Snap, want: int, q: nat)
    requires Runs(a) && q < NPROC
  {
    IsChild(a.state, a.pid, a.parent, a.current, want, q) && a.state[q] == Zombie
  }

  ghost predicate Childless(a: Snap, want: int)
    requires Runs(a)
  {
    forall q :: 0 <= q < NPROC ==> !IsChild(a.state, a.pid, a.parent, a.current, want, q)
  }

  /** What a call of the current slot does to the pool. */
  ghost predicate Effect(a: Snap, call: Call, b: Snap)
    requires Runs(a)
  {
    match call
    case Fork(copied) =>
      if Full(a.state) then b == a
      else if copied then exists np :: Born(a, np, Runnable, a.current, b) else exists np :: Born(a, np, Used, NONE, b)
    case Spawn(_) => !Full(a.state) && exists np :: Born(a, np, Runnable, a.current, b)
    case Wait(want) =>
      if Childless(a, want) then b == a
      else if exists q :: 0 <= q < NPROC && DeadChild(a, want, q) then exists z :: Reaps(a, want, z, b)
      else b == Stopped(a, Runnable)
    case Yield => b == Stopped(a, Runnable)
    case Exit(code) =>
      b == Stopped(a.(exitCode := a.exitCode[a.current := code]), if a.parent[a.current] != NONE then Zombie else Unused)
  }

  /** A round: the state after the dispatch, and after each call that the dispatched slot got to make. */
  ghost predicate Turns(a: Snap, calls: seq<Call>, turns: seq<Snap>) {
    && 0 < |turns| <= |calls| + 1 && Dispatched(a, turns[0])
    && forall k :: 0 <= k < |turns| - 1 ==> Runs(turns[k]) && Effect(turns[k], calls[k], turns[k + 1])
  }

  /** The slot gave up the processor itself, or the timer makes it yield after the last of its calls. */
  ghost predicate Finished(calls: seq<Call>, turns: seq<Snap>)
    requires turns != []
  {
    var last := turns[|turns| - 1];
    Sized(last) && (last.current == NONE || (Runs(last) && |turns| == |calls| + 1))
  }

  ghost function After(turns: seq<Snap>): Snap
    requires turns != []
  {
    var last := turns[|turns| - 1];
    if Runs(last) then Stopped(last, Runnable) else last
  }

  /** The next call is a spawn, and there is no slot for it: the kernel panics. */
  ghost predicate Stops(calls: seq<Call>, turns: seq<Snap>) {
    && 0 < |turns| <= |calls| && calls[|turns| - 1].Spawn?
    && Runs(turns[|turns| - 1]) && Full(turns[|turns| - 1].state)
  }

  /** The pool before round k. */
  ghost function Before(start: Snap, trace: seq<seq<Snap>>, k: nat): Snap
    requires k <= |trace|
  {
    if k == 0 || trace[k - 1] == [] then start else After(trace[k - 1])
  }

  /** All rounds but the last of a run are finished. */
  ghost predicate IsRun(start: Snap, rounds: seq<seq<Call>>, trace: seq<seq<Snap>>) {
    && |trace| <= |rounds|
    && (forall k: nat :: k < |trace| ==> Turns(Before(start, trace, k), rounds[k], trace[k]))
    && (forall k: nat :: k + 1 < |trace| ==> trace[k] != [] && Finished(rounds[k], trace[k]))
  }

  /** Where the last round got to. */
  ghost function Last(trace: seq<seq<Snap>>): Snap
    requires trace != []
  {
    var turns := trace[|trace| - 1];
    if turns == [] then Snap([], [], [], [], 0, NONE, 0) else turns[|turns| - 1]
  }

  /** Slot b is runnable before round k. */
  ghost predicate RunnableAt(start: Snap, trace: seq<seq<Snap>>, k: nat, b: nat)
    requires k <= |trace|
  {
    b < NPROC && Sized(Before(start, trace, k)) && Before(start, trace, k).state[b] == Runnable
  }

  /** Slot b is among the first 256 dispatches, as many as there are slots, and before it no other slot runs twice. */
  ghost predicate Fair(log: seq<int>, b: nat) {
    && (|log| >= 256 ==> b in log[..256])
    && forall i, j :: 0 <= i < j < |log| && b !in log[..j + 1] ==> log[i] != log[j]
  }

  /** The slots dispatched. */
  function Log(trace: seq<seq<Snap>>): (r: seq<int>)
    ensures |r| == |trace|
  {
    seq(|trace|, k requires 0 <= k < |trace| => if trace[k] == [] then NONE else trace[k][0].current)
  }

  // ---------- the pool ----------

  class Pool {
    var state: seq<State>
    var pid: seq<int>
    var parent: seq<int>
    var exitCode: seq<int>
    var nextPid: int
    var current: int
    /** p in scheduler's inner loop, and all_done. */
    var cursor: nat
    var allDone: bool

    ghost predicate Valid()
      reads this
    {
      && |state| == NPROC && |pid| == NPROC && |parent| == NPROC && |exitCode| == NPROC
      && OneRunning(state, current) && PidsOk(state, pid, nextPid)
      && cursor <= NPROC
      && (current != NONE ==> cursor == current && !allDone)
      && (current == NONE && allDone ==> forall q :: 0 <= q < cursor ==> state[q] != Runnable)
    }

    constructor ()
      ensures Valid() && current == NONE && cursor == 0 && allDone && nextPid == 1
      ensures forall q :: 0 <= q < NPROC ==> state[q] == Unused
    {
      state := seq(NPROC, i => Unused);
      pid, parent, exitCode := seq(NPROC, i => 0), seq(NPROC, i => NONE), seq(NPROC, i => 0);
      nextPid, current, cursor, allDone := 1, NONE, 0, true;
    }

    ghost function Now(): Snap
      reads this
    {
      Snap(state, pid, parent, exitCode, nextPid, current, cursor)
    }

    lemma CurrentRuns()
      requires Valid() && current != NONE
      ensures Runs(Now()) && cursor == current
      ensures 0 <= current < NPROC == |state| && |pid| == NPROC == |parent| && state[current] == Running
    {
    }

    lemma Idle()
      requires Valid() && current == NONE
      ensures Sized(Now()) && !Runs(Now())
    {
    }

    /** allocproc: the first unused slot, with a process id of its own. */
    method Allocproc() returns (np: int)
      requires Valid()
      modifies `state, `pid, `parent, `exitCode, `nextPid
      ensures Valid()
      ensures np == NONE ==>
          state == old(state) && parent == old(parent) && pid == old(pid) && exitCode == old(exitCode)
                      && nextPid == old(nextPid)
      ensures np == NONE <==> forall q :: 0 <= q < NPROC ==> old(state)[q] != Unused
      ensures np != NONE ==> 0 <= np < NPROC && old(state)[np] == Unused && forall q :: 0 <= q < np ==> old(state)[q] != Unused
      ensures np != NONE ==> state == old(state)[np := Used] && parent == old(parent)[np := NONE]
      ensures np != NONE ==> pid == old(pid)[np := old(nextPid)] && nextPid == old(nextPid) + 1
      ensures np != NONE ==> exitCode == old(exitCode)[np := -1]
    {
      hide PidsOk, OneRunning;
      var q := 0;
      while q < NPROC
        invariant 0 <= q <= NPROC && forall k :: 0 <= k < q ==> state[k] != Unused
        invariant state == old(state) && pid == old(pid) && parent == old(parent)
        invariant exitCode == old(exitCode) && nextPid == old(nextPid)
      {
        if state[q] == Unused {
          FreshPid(state, pid, nextPid, current, q);
          pid, nextPid := pid[q := nextPid], nextPid + 1;
          state, exitCode, parent := state[q := Used], exitCode[q := -1], parent[q := NONE];
          return q;
        }
        q := q + 1;
      }
      return NONE;
    }

    /** The loader's part, before the scheduler runs. */
    method Load() returns (np: int)
      requires Valid() && current == NONE && cursor == 0
      modifies `state, `pid, `parent, `exitCode, `nextPid
      ensures Valid()
      ensures np != NONE ==> 0 <= np < NPROC && old(state)[np] == Unused && state == old(state)[np := Runnable]
      ensures np == NONE ==> state == old(state)
      ensures np == NONE <==> forall q :: 0 <= q < NPROC ==> old(state)[q] != Unused
      ensures np != NONE ==> forall q :: 0 <= q < np ==> old(state)[q] != Unused
    {
      np := Allocproc();
      if np != NONE {
        state := state[np := Runnable];
      }
    }

    /** The scheduler's loop from one return of swtch to the next call of it, or to the panic. */
    method Dispatch() returns (panicked: bool)
      requires Valid() && current == NONE
      modifies `state, `current, `cursor, `allDone
      ensures panicked <==> forall q :: 0 <= q < NPROC ==> old(state)[q] != Runnable
      ensures panicked ==> state == old(state) && |state| == NPROC
      ensures !panicked ==> Valid() && 0 <= current < NPROC
      ensures !panicked ==> old(state)[current] == Runnable && state == old(state)[current := Running]
      ensures !panicked ==> forall b :: 0 <= b < NPROC && old(state)[b] == Runnable ==>
                              Distance(current, b) <= Distance(old(cursor), b)
      ensures !panicked ==> Dispatched(old(Now()), Now())
    {
      hide PidsOk, OneRunning;
      ghost var scans := 0;
      while true
        invariant 0 <= cursor <= NPROC && current == NONE && state == old(state) && 0 <= scans <= 2
        invariant allDone ==> forall q :: 0 <= q < cursor ==> state[q] != Runnable
        invariant scans == 0 ==> allDone == old(allDone) && old(cursor) <= cursor
        invariant scans == 0 ==> forall q :: old(cursor) <= q < cursor ==> state[q] != Runnable
        invariant scans >= 1 ==> allDone
        invariant scans >= 1 ==> forall q :: old(cursor) <= q < NPROC ==> state[q] != Runnable
        invariant scans == 2 ==> forall q :: 0 <= q < NPROC ==> state[q] != Runnable
        decreases 2 - scans, NPROC - cursor
      {
        if cursor < NPROC {
          if state[cursor] == Runnable {
            RunnableRuns(state, pid, nextPid, cursor);
            allDone := false;
            state := state[cursor := Running];
            current := cursor;
            return false;
          }
          cursor := cursor + 1;
        } else {
          if allDone {
            return true;
          }
          allDone, cursor, scans := true, 0, scans + 1;
        }
      }
    }

    // ---------- what the running process asks for ----------

    /** yield. */
    method YieldCall()
      requires Valid() && current != NONE
      modifies `state, `current, `cursor
      ensures Valid() && current == NONE && cursor == old(cursor) + 1
      ensures state == old(state)[old(cursor) := Runnable] && Now() == Stopped(old(Now()), Runnable)
    {
      state := state[current := Runnable];
      Sched();
    }

    /** sched, whose caller has given up RUNNING; back in the scheduler the loop moves on. */
    method Sched()
      requires |state| == NPROC && 0 <= current < NPROC && cursor == current && state[current] != Running
      modifies `current, `cursor
      ensures current == NONE && cursor == old(cursor) + 1
    {
      current := NONE;
      cursor := cursor + 1;
    }

    method ExitCall(code: int)
      requires Valid() && current != NONE
      modifies `state, `exitCode, `current, `cursor
      ensures Valid() && current == NONE && cursor == old(cursor) + 1
      ensures state == old(state)[old(cursor) := if parent[old(cursor)] != NONE then Zombie else Unused]
      ensures exitCode == old(exitCode)[old(cursor) := code] && Effect(old(Now()), Exit(code), Now())
    {
      exitCode := exitCode[current := code];
      state := state[current := Unused];
      if parent[current] != NONE {
        state := state[current := Zombie];
      }
      Sched();
    }

    /** One pass of wait over the pool. */
    method WaitCall(want: int) returns (r: WaitResult)
      requires Valid() && current != NONE
      modifies `state, `current, `cursor
      ensures Valid()
      ensures r == NoChild <==> forall q :: 0 <= q < NPROC ==> !IsChild(old(state), pid, parent, old(cursor), want, q)
      ensures r == NoChild ==> state == old(state) && current == old(current) && cursor == old(cursor)
      ensures r.Reaped? ==> current == old(current) && cursor == old(cursor)
      ensures r.Reaped? ==>
          exists z :: 0 <= z < NPROC && IsChild(old(state), pid, parent, old(cursor), want, z) && old(state)[z] == Zombie
                                        && r == Reaped(pid[z], exitCode[z]) && state == old(state)[z := Unused]
      ensures r == Blocked ==>
          state == old(state)[old(cursor) := Runnable] && current == NONE && cursor == old(cursor) + 1
      ensures Effect(old(Now()), Wait(want), Now())
      ensures r.Reaped? && want > 0 ==> r.pid == want
      ensures r.Reaped? ==> exists z :: 0 <= z < NPROC && old(state)[z] == Zombie && parent[z] == old(cursor)
                                        && r == Reaped(pid[z], exitCode[z]) && state == old(state)[z := Unused]
      ensures r == NoChild ==>
        forall q :: 0 <= q < NPROC && old(state)[q] != Unused && parent[q] == old(cursor) ==> want > 0 && pid[q] != want
      ensures r.Reaped? <==>
          exists z :: 0 <= z < NPROC && IsChild(old(state), pid, parent, old(cursor), want, z) && old(state)[z] == Zombie
    {
      hide PidsOk, OneRunning, IsChild;
      CurrentRuns();
      ghost var was := Now();
      var havekids := false;
      var np := 0;
      while np < NPROC
        invariant 0 <= np <= NPROC && state == old(state) && current == old(current) && cursor == old(cursor)
        invariant havekids <==> exists q :: 0 <= q < np && IsChild(state, pid, parent, cursor, want, q)
        invariant forall q :: 0 <= q < np && IsChild(state, pid, parent, cursor, want, q) ==> state[q] != Zombie
      {
        if IsChild(state, pid, parent, current, want, np) {
          havekids := true;
          if state[np] == Zombie {
            StateChange(state, pid, nextPid, current, np, Unused);
            state := state[np := Unused];
            ChildMeans(was, want, np);
            assert DeadChild(was, want, np) && Reaps(was, want, np, Now());
            return Reaped(pid[np], exitCode[np]);
          }
        }
        np := np + 1;
      }
      if !havekids {
        ChildlessMeans(was, want);
        return NoChild;
      }
      StateChange(state, pid, nextPid, current, current, Runnable);
      state := state[current := Runnable];
      Sched();
      return Blocked;
    }

    /** fork's part in the pool.  With the pool full it goes on with the caller, whose memory cannot be copied onto
        itself; otherwise copied tells whether the child got a copy. */
    method ForkCall(copied: bool) returns (np: int, r: int)
      requires Valid() && current != NONE
      modifies `state, `pid, `parent, `exitCode, `nextPid
      ensures Valid() && Kept(old(state), old(pid), old(parent), old(exitCode), state, pid, parent, exitCode)
      ensures np == NONE <==> forall q :: 0 <= q < NPROC ==> old(state)[q] != Unused
      ensures np == NONE ==> r == pid[current] && state == old(state) && parent == old(parent) && pid == old(pid)
      ensures np != NONE ==>
        && 0 <= np < NPROC && old(state)[np] == Unused && (forall q :: 0 <= q < np ==> old(state)[q] != Unused)
        && state == old(state)[np := if copied then Runnable else Used]
        && parent == old(parent)[np := if copied then current else NONE]
        && pid == old(pid)[np := r] && r == old(nextPid)
      ensures Effect(old(Now()), Fork(copied), Now())
    {
      CurrentRuns();
      ghost var was := Now();
      np := Allocproc();
      if np == NONE {
        return np, pid[current];
      }
      r := pid[np];
      if copied {
        Adopt(np);
      }
      assert Born(was, np, if copied then Runnable else Used, if copied then current else NONE, Now());
    }

    /** The end of fork: np becomes a runnable child of the caller. */
    method Adopt(np: nat)
      requires Valid() && current != NONE && np < NPROC && state[np] == Used
      modifies `state, `parent
      ensures Valid() && state == old(state)[np := Runnable] && parent == old(parent)[np := current]
    {
      hide PidsOk, OneRunning;
      CurrentRuns();
      StateChange(state, pid, nextPid, current, np, Runnable);
      parent := parent[np := current];
      state := state[np := Runnable];
    }

    /** spawn; a program that is not found leaves the child runnable all the same. */
    method SpawnCall(found: bool) returns (r: int, panicked: bool)
      requires Valid() && current != NONE
      modifies `state, `pid, `parent, `exitCode, `nextPid
      ensures Valid() && Kept(old(state), old(pid), old(parent), old(exitCode), state, pid, parent, exitCode)
      ensures panicked <==> forall q :: 0 <= q < NPROC ==> old(state)[q] != Unused
      ensures !panicked ==>
          exists np :: 0 <= np < NPROC && old(state)[np] == Unused && state == old(state)[np := Runnable]
                              && parent == old(parent)[np := current] && r == if found then pid[np] else -1
      ensures if panicked then Now() == old(Now()) else Effect(old(Now()), Spawn(found), Now())
    {
      hide PidsOk, OneRunning;
      CurrentRuns();
      ghost var was := Now();
      var np := Allocproc();
      if np == NONE {
        return -1, true;
      }
      Adopt(np);
      assert Born(was, np, Runnable, current, Now());
      return if found then pid[np] else -1, false;
    }

    // ---------- runs ----------

    /** The scheduler dispatches a slot, which makes calls until one gives up the processor; when none
        does, the timer makes it yield.  No slot is dispatched after the panic. */
    method Round(calls: seq<Call>) returns (slot: int, ghost turns: seq<Snap>, panicked: bool)
      requires Valid() && current == NONE
      modifies this
      ensures slot == NONE <==> forall q :: 0 <= q < NPROC ==> old(state)[q] != Runnable
      ensures slot == NONE ==> panicked && state == old(state) && |state| == NPROC
      ensures slot != NONE ==> turns != [] && Turns(old(Now()), calls, turns) && slot == turns[0].current
      ensures slot != NONE && !panicked ==> Finished(calls, turns) && Valid() && current == NONE && Now() == After(turns)
      ensures slot != NONE && panicked ==> Stops(calls, turns) && Now() == turns[|turns| - 1]
      ensures slot != NONE ==> Untouched(slot, old(Now()), Now())
    {
      hide Valid, Effect, Dispatched, Stopped, Runs, Full, Untouched, Turns;
      panicked := Dispatch();
      turns := [];
      if panicked {
        return NONE, [], true;
      }
      slot := current;
      turns := [Now()];
      TurnsBegin(old(Now()), calls, Now());
      var i := 0;
      while i < |calls| && current != NONE
        invariant 0 <= i <= |calls| && Valid() && |turns| == i + 1 <= |calls| + 1 && !panicked
        invariant Turns(old(Now()), calls, turns) && slot == turns[0].current && turns[i] == Now()
      {
        CurrentRuns();
        panicked := Do(calls[i]);
        if panicked {
          StopsHere(Now(), calls, turns);
          TurnsUntouched(old(Now()), calls, turns, i);
          return;
        }
        TurnsMore(old(Now()), calls, turns, Now());
        turns := turns + [Now()];
        i := i + 1;
      }
      TurnsUntouched(old(Now()), calls, turns, i);
      if current != NONE {
        CurrentRuns();
        YieldCall();
      } else {
        Idle();
      }
    }

    method Do(call: Call) returns (panicked: bool)
      requires Valid() && current != NONE
      modifies this
      ensures Valid()
      ensures panicked <==> call.Spawn? && forall q :: 0 <= q < NPROC ==> old(state)[q] != Unused
      ensures if panicked then Now() == old(Now()) else Effect(old(Now()), call, Now())
    {
      hide PidsOk, OneRunning, Effect;
      CurrentRuns();
      panicked := false;
      match call {
        case Fork(copied) =>
          var np, r := ForkCall(copied);
        case Spawn(found) =>
          var r;
          r, panicked := SpawnCall(found);
        case Wait(want) =>
          var r := WaitCall(want);
        case Yield =>
          YieldIs(Now(), Stopped(Now(), Runnable));
          YieldCall();
        case Exit(code) =>
          ExitCall(code);
      }
    }

    /** Any run: rounds of any calls, until they are used up, no slot is runnable, or a spawn finds no slot.
        Whenever a slot is runnable, it is dispatched within the next NPROC dispatches, and no other slot
        is dispatched twice before it. */
    method Run(rounds: seq<seq<Call>>) returns (log: seq<int>, ghost trace: seq<seq<Snap>>, panicked: bool)
      requires Valid() && current == NONE
      modifies this
      ensures IsRun(old(Now()), rounds, trace) && log == Log(trace)
      ensures !panicked ==> Valid() && current == NONE && |trace| == |rounds| && Now() == Before(old(Now()), trace, |trace|)
      ensures !panicked && trace != [] ==> trace[|trace| - 1] != [] && Finished(rounds[|trace| - 1], trace[|trace| - 1])
      ensures panicked ==>
          || (|trace| < |rounds| && |state| == NPROC && state == Before(old(Now()), trace, |trace|).state && NoneRunnable(state))
          || (trace != [] && Stops(rounds[|trace| - 1], trace[|trace| - 1]) && Now() == Last(trace))
      ensures forall k: nat, b: nat :: k <= |trace| && RunnableAt(old(Now()), trace, k, b) ==> Fair(log[k..], b)
    {
      hide Valid, IsRun, Finished, Stops, Turns, After, Log, RunnableAt, Fair, Before, Last, Runs, Distance;
      log, trace, panicked := [], [], false;
      RunBegins(Now(), rounds);
      while |log| < |rounds| && !panicked
        invariant |trace| == |log| <= |rounds| && log == Log(trace)
        invariant IsRun(old(Now()), rounds, trace)
        invariant !panicked ==> Valid() && current == NONE && Now() == Before(old(Now()), trace, |trace|)
        invariant !panicked && trace != [] ==> trace[|trace| - 1] != [] && Finished(rounds[|trace| - 1], trace[|trace| - 1])
        invariant panicked ==> trace != [] && Stops(rounds[|trace| - 1], trace[|trace| - 1]) && Now() == Last(trace)
        decreases |rounds| - |log|, !panicked
      {
        ghost var turns;
        var slot: int;
        slot, turns, panicked := Round(rounds[|log|]);
        if slot == NONE {
          break;
        }
        RunMore(old(Now()), rounds, trace, turns);
        log, trace := log + [slot], trace + [turns];
      }
      AllFair(old(Now()), rounds, trace);
    }
  }

  /** Only the current slot is running. */
  ghost predicate OneRunning(state: seq<State>, current: int)
    requires |state| == NPROC
  {
    && (current == NONE || (0 <= current < NPROC && state[current] == Running))
    && forall q :: 0 <= q < NPROC && state[q] == Running ==> q == current
  }

  /** Processes that exist have different ids, all handed out before. */
  ghost predicate PidsOk(state: seq<State>, pid: seq<int>, nextPid: int)
    requires |state| == NPROC && |pid| == NPROC
  {
    && 1 <= nextPid
    && (forall q :: 0 <= q < NPROC && state[q] != Unused ==> 1 <= pid[q] < nextPid)
    && forall q, r :: 0 <= q < r < NPROC && state[q] != Unused && state[r] != Unused ==> pid[q] != pid[r]
  }

  /** A slot in use changes state, but not to running. */
  lemma StateChange(state: seq<State>, pid: seq<int>, nextPid: int, current: int, q: nat, x: State)
    requires |state| == NPROC && |pid| == NPROC && OneRunning(state, current) && PidsOk(state, pid, nextPid)
    requires q < NPROC && state[q] != Unused && x != Running
    ensures PidsOk(state[q := x], pid, nextPid) && OneRunning(state[q := x], if q == current then NONE else current)
  {
  }

  lemma RunnableRuns(state: seq<State>, pid: seq<int>, nextPid: int, q: nat)
    requires |state| == NPROC && |pid| == NPROC && OneRunning(state, NONE) && PidsOk(state, pid, nextPid)
    requires q < NPROC && state[q] == Runnable
    ensures PidsOk(state[q := Running], pid, nextPid) && OneRunning(state[q := Running], q)
  {
  }

  lemma FreshPid(state: seq<State>, pid: seq<int>, nextPid: int, current: int, q: nat)
    requires |state| == NPROC && |pid| == NPROC && OneRunning(state, current) && PidsOk(state, pid, nextPid)
    requires q < NPROC && state[q] == Unused
    ensures PidsOk(state[q := Used], pid[q := nextPid], nextPid + 1) && OneRunning(state[q := Used], current)
  {
  }

  /** q is a child of slot p that wait(want) counts. */
  predicate IsChild(state: seq<State>, pid: seq<int>, parent: seq<int>, p: int, want: int, q: nat)
    requires |state| == NPROC && |pid| == NPROC && |parent| == NPROC && q < NPROC
  {
    state[q] != Unused && parent[q] == p && (want <= 0 || pid[q] == want)
  }

  lemma ChildMeans(a: Snap, want: int, q: nat)
    requires Runs(a) && q < NPROC && IsChild(a.state, a.pid, a.parent, a.current, want, q)
    ensures a.parent[q] == a.current && (want > 0 ==> a.pid[q] == want)
  {
  }

  lemma ChildlessMeans(a: Snap, want: int)
    requires Runs(a) && forall q :: 0 <= q < NPROC ==> !IsChild(a.state, a.pid, a.parent, a.current, want, q)
    ensures forall q :: 0 <= q < NPROC && a.state[q] != Unused && a.parent[q] == a.current ==> want > 0 && a.pid[q] != want
  {
    forall q | 0 <= q < NPROC && a.state[q] != Unused && a.parent[q] == a.current
      ensures want > 0 && a.pid[q] != want
    {
      assert !IsChild(a.state, a.pid, a.parent, a.current, want, q);
    }
  }

  /** Slots in use are untouched. */
  ghost predicate Kept(state: seq<State>, pid: seq<int>, parent: seq<int>, code: seq<int>,
                       state': seq<State>, pid': seq<int>, parent': seq<int>, code': seq<int>)
    requires |state| == NPROC && |pid| == NPROC && |parent| == NPROC && |code| == NPROC
  {
    && |state'| == NPROC && |pid'| == NPROC && |parent'| == NPROC && |code'| == NPROC
    && forall q :: 0 <= q < NPROC && state[q] != Unused ==>
         state'[q] == state[q] && pid'[q] == pid[q] && parent'[q] == parent[q] && code'[q] == code[q]
  }

  /** Slots in use are untouched, but for slot p and its zombie children. */
  ghost predicate Untouched(p: int, a: Snap, b: Snap) {
    && Sized(a) && Sized(b)
    && forall q :: 0 <= q < NPROC && q != p && a.state[q] != Unused && !(a.state[q] == Zombie && a.parent[q] == p) ==>
         b.state[q] == a.state[q] && b.pid[q] == a.pid[q] && b.parent[q] == a.parent[q] && b.exitCode[q] == a.exitCode[q]
  }

  lemma EffectUntouched(a: Snap, call: Call, b: Snap)
    requires Runs(a) && Effect(a, call, b)
    ensures Untouched(a.current, a, b) && (b.current == a.current || b.current == NONE)
  {
  }

  lemma UntouchedTrans(p: int, a: Snap, b: Snap, c: Snap)
    requires Untouched(p, a, b) && Untouched(p, b, c)
    ensures Untouched(p, a, c)
  {
  }

  /** A round touches no slot in use but the one dispatched and its zombie children. */
  lemma {:induction false} TurnsUntouched(a: Snap, calls: seq<Call>, turns: seq<Snap>, i: nat)
    requires Turns(a, calls, turns) && i < |turns|
    ensures Untouched(turns[0].current, a, turns[i])
    ensures turns[i].current == turns[0].current || turns[i].current == NONE
    ensures Runs(turns[i]) ==> Untouched(turns[0].current, a, Stopped(turns[i], Runnable))
  {
    hide Effect, Distance;
    if i > 0 {
      TurnsUntouched(a, calls, turns, i - 1);
      assert Runs(turns[i - 1]) && Effect(turns[i - 1], calls[i - 1], turns[i]);
      EffectUntouched(turns[i - 1], calls[i - 1], turns[i]);
      UntouchedTrans(turns[0].current, a, turns[i - 1], turns[i]);
    }
  }

  // ---------- steps of a run ----------

  lemma YieldIs(a: Snap, b: Snap)
    requires Runs(a) && b == Stopped(a, Runnable)
    ensures Effect(a, Yield, b)
  {
  }

  lemma StopsHere(a: Snap, calls: seq<Call>, turns: seq<Snap>)
    requires 0 < |turns| <= |calls| && turns[|turns| - 1] == a && Runs(a) && calls[|turns| - 1].Spawn?
    requires forall q :: 0 <= q < NPROC ==> a.state[q] != Unused
    ensures Stops(calls, turns)
  {
  }

  lemma TurnsBegin(a: Snap, calls: seq<Call>, b: Snap)
    requires Dispatched(a, b)
    ensures Turns(a, calls, [b])
  {
    hide Dispatched;
  }

  lemma TurnsMore(a: Snap, calls: seq<Call>, turns: seq<Snap>, b: Snap)
    requires Turns(a, calls, turns) && |turns| <= |calls|
    requires Runs(turns[|turns| - 1]) && Effect(turns[|turns| - 1], calls[|turns| - 1], b)
    ensures Turns(a, calls, turns + [b])
  {
    hide Effect, Dispatched, Runs;
  }

  lemma RunBegins(start: Snap, rounds: seq<seq<Call>>)
    ensures IsRun(start, rounds, []) && Before(start, [], 0) == start && Log([]) == []
  {
  }

  lemma RunMore(start: Snap, rounds: seq<seq<Call>>, trace: seq<seq<Snap>>, turns: seq<Snap>)
    requires IsRun(start, rounds, trace) && |trace| < |rounds|
    requires trace != [] ==> trace[|trace| - 1] != [] && Finished(rounds[|trace| - 1], trace[|trace| - 1])
    requires turns != [] && Turns(Before(start, trace, |trace|), rounds[|trace|], turns)
    ensures IsRun(start, rounds, trace + [turns]) && Before(start, trace + [turns], |trace| + 1) == After(turns)
    ensures Log(trace + [turns]) == Log(trace) + [turns[0].current] && Last(trace + [turns]) == turns[|turns| - 1]
  {
    hide Turns, Finished, After, Log, Before;
    LogMore(trace, turns);
    forall k: nat | k <= |trace|
      ensures Before(start, trace + [turns], k) == Before(start, trace, k)
    {
      BeforeMore(start, trace, turns, k);
    }
    BeforeMore(start, trace, turns, |trace|);
  }

  lemma BeforeMore(start: Snap, trace: seq<seq<Snap>>, turns: seq<Snap>, k: nat)
    requires k <= |trace| && turns != []
    ensures Before(start, trace + [turns], k) == Before(start, trace, k)
    ensures Before(start, trace + [turns], |trace| + 1) == After(turns)
  {
    hide After;
  }

  lemma LogMore(trace: seq<seq<Snap>>, turns: seq<Snap>)
    requires turns != []
    ensures Log(trace + [turns]) == Log(trace) + [turns[0].current]
  {
    assert forall k :: 0 <= k < |trace| ==> (trace + [turns])[k] == trace[k];
  }

  // ---------- no slot waits for ever ----------

  /** A call of another slot leaves a runnable slot runnable. */
  lemma EffectKeeps(a: Snap, call: Call, c: Snap, b: nat)
    requires Runs(a) && Effect(a, call, c) && b < NPROC && a.state[b] == Runnable && b != a.current
    ensures Sized(c) && c.state[b] == Runnable
    ensures (c.current == a.current && c.cursor == a.cursor) || (c.current == NONE && c.cursor == a.cursor + 1)
  {
    hide IsChild;
  }

  ghost predicate InTurn(a: Snap, slot: int, b: nat) {
    && Sized(a) && b < NPROC && a.state[b] == Runnable
    && ((a.current == slot && a.cursor == slot) || (a.current == NONE && a.cursor == slot + 1))
  }

  lemma {:induction false} TurnAt(a: Snap, calls: seq<Call>, turns: seq<Snap>, i: nat, b: nat)
    requires Turns(a, calls, turns) && i < |turns| && Sized(a) && b < NPROC && a.state[b] == Runnable
    requires turns[0].current != b
    ensures InTurn(turns[i], turns[0].current, b) && 0 <= turns[0].current < NPROC
  {
    hide Effect, Distance;
    if i > 0 {
      TurnAt(a, calls, turns, i - 1, b);
      assert Runs(turns[i - 1]) && Effect(turns[i - 1], calls[i - 1], turns[i]);
      EffectKeeps(turns[i - 1], calls[i - 1], turns[i], b);
    }
  }

  /** A round of another slot, too, and the scan goes on behind that slot. */
  lemma TurnsKeep(a: Snap, calls: seq<Call>, turns: seq<Snap>, b: nat)
    requires Turns(a, calls, turns) && Sized(a) && b < NPROC && a.state[b] == Runnable && turns[0].current != b
    ensures Sized(After(turns)) && After(turns).state[b] == Runnable && After(turns).cursor == turns[0].current + 1
  {
    hide Effect, Distance, Dispatched;
    TurnAt(a, calls, turns, |turns| - 1, b);
  }

  lemma NearerStep(log: seq<int>, cursor: nat, slot: int, b: nat)
    requires b < NPROC && b !in log && Approaching(log, b) && cursor <= NPROC && 0 <= slot < NPROC
    requires log != [] ==> cursor == log[|log| - 1] + 1
    requires Distance(slot, b) <= Distance(cursor, b)
    ensures Approaching(log + [slot], b)
  {
    if log != [] {
      var last := log[|log| - 1];
      assert last in log;
      assert Distance(cursor, b) < Distance(last, b);
      forall i | 0 <= i < |log| ensures Distance(slot, b) < Distance(log[i], b) {
        assert i < |log| - 1 ==> Distance(last, b) < Distance(log[i], b);
      }
    }
  }

  /** While slot b is not dispatched it stays runnable, and every dispatch is nearer to it. */
  lemma {:induction false} Nears(start: Snap, rounds: seq<seq<Call>>, trace: seq<seq<Snap>>, k: nat, j: nat, b: nat)
    requires IsRun(start, rounds, trace) && k <= j <= |trace| && RunnableAt(start, trace, k, b)
    requires b !in Log(trace)[k..j]
    ensures Approaching(Log(trace)[k..j], b) && RunnableAt(start, trace, j, b)
    ensures k < j ==> Before(start, trace, j).cursor == Log(trace)[j - 1] + 1
    decreases j
  {
    hide IsRun, Turns, Finished, After, Before, Log, Distance, Approaching;
    if k < j {
      var log, turns, a := Log(trace), trace[j - 1], Before(start, trace, j - 1);
      var slot := log[j - 1];
      assert log[k..j] == log[k..j - 1] + [slot];
      Nears(start, rounds, trace, k, j - 1, b);
      RunAt(start, rounds, trace, j - 1);
      TurnsDispatch(a, rounds[j - 1], turns, b);
      assert log[k..j][j - 1 - k] == slot;
      NearerStep(log[k..j - 1], a.cursor, slot, b);
      TurnsKeep(a, rounds[j - 1], turns, b);
    } else {
      assert Log(trace)[k..k] == [];
      Nothing(b);
    }
  }

  lemma RunAt(start: Snap, rounds: seq<seq<Call>>, trace: seq<seq<Snap>>, j: nat)
    requires IsRun(start, rounds, trace) && j < |trace|
    ensures j < |rounds| && Turns(Before(start, trace, j), rounds[j], trace[j]) && trace[j] != []
    ensures Before(start, trace, j + 1) == After(trace[j]) && Log(trace)[j] == trace[j][0].current
  {
    hide After, Finished, Dispatched, Effect;
  }

  lemma Nothing(b: nat)
    requires b < NPROC
    ensures Approaching([], b)
  {
  }

  lemma TurnsDispatch(a: Snap, calls: seq<Call>, turns: seq<Snap>, b: nat)
    requires Turns(a, calls, turns) && b < NPROC && Sized(a) && a.state[b] == Runnable
    ensures turns != [] && 0 <= turns[0].current < NPROC && a.cursor <= NPROC
    ensures Distance(turns[0].current, b) <= Distance(a.cursor, b)
  {
    hide Distance, Effect;
  }

  /** In every run, from any point at which a slot is runnable, it is dispatched within NPROC dispatches, and before
      it no other slot is dispatched twice. */
  lemma BoundedWaiting(start: Snap, rounds: seq<seq<Call>>, trace: seq<seq<Snap>>, k: nat, b: nat)
    requires IsRun(start, rounds, trace) && k <= |trace| && RunnableAt(start, trace, k, b)
    ensures Fair(Log(trace)[k..], b)
  {
    hide IsRun, Log, RunnableAt, Approaching, Distance, Before;
    var log := Log(trace)[k..];
    assert b < NPROC by { RunnableNat(start, trace, k, b); }
    if |log| >= NPROC && b !in log[..NPROC] {
      assert log[..NPROC] == Log(trace)[k..k + NPROC];
      Nears(start, rounds, trace, k, k + NPROC, b);
      ApproachingBound(log[..NPROC], b);
    }
    forall i, j | 0 <= i < j < |log| && b !in log[..j + 1]
      ensures log[i] != log[j]
    {
      assert log[..j + 1] == Log(trace)[k..k + j + 1];
      Nears(start, rounds, trace, k, k + j + 1, b);
      ApproachingBound(log[..j + 1], b);
      assert log[..j + 1][i] == log[i] && log[..j + 1][j] == log[j];
    }
  }

  lemma RunnableNat(start: Snap, trace: seq<seq<Snap>>, k: nat, b: nat)
    requires k <= |trace| && RunnableAt(start, trace, k, b)
    ensures b < NPROC
  {
  }

  lemma AllFair(start: Snap, rounds: seq<seq<Call>>, trace: seq<seq<Snap>>)
    requires IsRun(start, rounds, trace)
    ensures forall k: nat, b: nat :: k <= |trace| && RunnableAt(start, trace, k, b) ==> Fair(Log(trace)[k..], b)
  {
    hide IsRun, Log, RunnableAt, Fair;
    forall k: nat, b: nat | k <= |trace| && RunnableAt(start, trace, k, b)
      ensures Fair(Log(trace)[k..], b)
    {
      BoundedWaiting(start, rounds, trace, k, b);
    }
  }
}
