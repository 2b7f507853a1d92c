/** fork as a whole (os/kernel/proc.c): the process pool, the open files and the memory of processes together. */
module Processes {
  import opened PageTable
  import opened VirtualMemory
  import opened AddressSpaces
  import Scheduler
  import FileTable

  const NONE: int := Scheduler.NONE

  /** The pool and the descriptor tables mean the same slots by unused and by zombie. */
  ghost predicate Agree(pool: seq<Scheduler.State>, files: seq<FileTable.State>) {
    && |pool| == |files| == NPROC
    && forall q :: 0 <= q < NPROC ==>
         && (pool[q] == Scheduler.Unused <==> files[q] == FileTable.Unused)
         && (pool[q] == Scheduler.Zombie <==> files[q] == FileTable.Zombie)
  }

  /** Processes that are neither unused nor zombies have a page table, each its own. */
  ghost predicate Housed(pool: seq<Scheduler.State>, pt: seq<nat>, sizes: Sizes) {
    && |pool| == |pt| == NPROC
    && (forall q :: 0 <= q < NPROC && Lives(pool[q]) ==> pt[q] in sizes)
    && (forall q, p :: 0 <= q < NPROC && 0 <= p < NPROC && q != p && Lives(pool[q]) && Lives(pool[p]) ==> pt[q] != pt[p])
  }

  predicate Lives(s: Scheduler.State) { s != Scheduler.Unused && s != Scheduler.Zombie }

  predicate Full(pool: seq<Scheduler.State>) {
    |pool| == NPROC && forall q :: 0 <= q < NPROC ==> pool[q] != Scheduler.Unused
  }

  /** The pages that a fork of a space of k pages takes: three for the child's table with the kernel's pages, and
      then the copy with the tables it needs. */
  function ForkPages(k: nat): int { 3 + k + ForkTables(k) }

  lemma NewHouse(pool: seq<Scheduler.State>, pt: seq<nat>, sizes: Sizes, np: nat, x: Scheduler.State, child: nat, s: Space)
    requires Housed(pool, pt, sizes) && np < NPROC && pool[np] == Scheduler.Unused && child !in sizes
    ensures Housed(pool[np := x], pt[np := child], sizes[child := s])
  {
  }

  lemma Alive(pool: seq<Scheduler.State>, files: seq<FileTable.State>, pt: seq<nat>, sizes: Sizes, p: nat)
    requires Agree(pool, files) && Housed(pool, pt, sizes) && p < NPROC && Lives(pool[p])
    ensures files[p] == FileTable.Alive && |pt| == NPROC && pt[p] in sizes
  {
  }

  /** The pool and the descriptor tables give a child the same slot. */
  lemma SameSlot(pool: seq<Scheduler.State>, files: seq<FileTable.State>, np: int, c: nat)
    requires Agree(pool, files) && 0 <= np < NPROC && pool[np] == Scheduler.Unused
    requires forall q :: 0 <= q < np ==> pool[q] != Scheduler.Unused
    requires c < NPROC && files[c] == FileTable.Unused && forall q :: 0 <= q < c ==> files[q] != FileTable.Unused
    ensures c == np
  {
  }

  lemma IsFull(pool: seq<Scheduler.State>)
    requires |pool| == NPROC && forall q :: 0 <= q < NPROC ==> pool[q] != Scheduler.Unused
    ensures Full(pool)
  {
  }

  lemma NotFull(pool: seq<Scheduler.State>, files: seq<FileTable.State>, np: nat)
    requires Agree(pool, files) && np < NPROC && pool[np] == Scheduler.Unused
    ensures !Full(pool) && !(forall q :: 0 <= q < NPROC ==> files[q] != FileTable.Unused)
  {
  }

  lemma AgreeAdd(pool: seq<Scheduler.State>, files: seq<FileTable.State>, np: nat, x: Scheduler.State)
    requires Agree(pool, files) && np < NPROC && Lives(x)
    ensures Agree(pool[np := x], files[np := FileTable.Alive])
  {
  }

  predicate AllUnused(pool: seq<Scheduler.State>) {
    |pool| == NPROC && forall q :: 0 <= q < NPROC ==> pool[q] == Scheduler.Unused
  }

  /** The loader's slot is the first one. */
  lemma FirstSlot(pool: seq<Scheduler.State>, np: int)
    requires AllUnused(pool) && -1 <= np < NPROC
    requires np < 0 ==> forall q :: 0 <= q < NPROC ==> pool[q] != Scheduler.Unused
    requires forall q :: 0 <= q < np ==> pool[q] != Scheduler.Unused
    ensures np == 0
  {
    assert pool[0] == Scheduler.Unused;
  }

  /** It is the only one that can run. */
  lemma OnlyRunnable(pool: seq<Scheduler.State>, loaded: seq<Scheduler.State>, cur: int, panicked: bool)
    requires AllUnused(pool) && loaded == pool[0 := Scheduler.Runnable]
    requires panicked ==> forall q :: 0 <= q < NPROC ==> loaded[q] != Scheduler.Runnable
    requires !panicked ==> 0 <= cur < NPROC && loaded[cur] == Scheduler.Runnable
    ensures !panicked && cur == 0
  {
    assert loaded[0] == Scheduler.Runnable;
  }

  lemma NoneUnused(pool: seq<Scheduler.State>, files: seq<FileTable.State>, c: int)
    requires Agree(pool, files) && AllUnused(pool)
    requires c < 0 ==> forall q :: 0 <= q < NPROC ==> files[q] != FileTable.Unused
    requires c >= 0 ==> forall q :: 0 <= q < c && q < NPROC ==> files[q] != FileTable.Unused
    ensures c == 0
  {
    assert pool[0] == Scheduler.Unused;
  }

  lemma HouseLengths(pool: seq<Scheduler.State>, pt: seq<nat>, sizes: Sizes)
    requires Housed(pool, pt, sizes)
    ensures |pool| == |pt| == NPROC
  {
  }

  lemma AtLeastThree(k: nat)
    requires k <= MAXVPN
    ensures 3 <= ForkPages(k)
  {
  }

  lemma OneHouse(pool: seq<Scheduler.State>, pt: seq<nat>, sizes: Sizes)
    requires AllUnused(pool) && |pt| == NPROC && pt[0] in sizes
    ensures Housed(pool[0 := Scheduler.Running], pt, sizes)
  {
  }

  /** A space that ends below the kernel's pages has a size that walk can handle. */
  lemma SmallSize(size: nat)
    requires PagesUp(size) <= TRAPFRAME
    ensures size <= MAXVA
  {
  }

  lemma GrowFromNothing(m: Mem, root: nat, size: nat)
    requires TopOnly(m, root) && PagesUp(size) <= TRAPFRAME
    ensures 3 + GrowNeed(m, root, 0, size) == ForkPages(PagesUp(size))
  {
    hide TopOnly, ForkTables;
    assert PagesUp(0) == 0;
    CopyNeed(m, root, PagesUp(size));
    hide PagesUp;
  }

  class Kernel {
    const pool: Scheduler.Pool
    const files: FileTable.Table
    const spaces: Spaces
    /** The page table of each slot. */
    var pt: seq<nat>

    ghost predicate Valid()
      reads this, pool, files, spaces, spaces.m
    {
      && pool.Valid() && files.Valid() && spaces.Valid()
      && Agree(pool.state, files.state) && Housed(pool.state, pt, spaces.sizes)
    }

    /** Before the first process. */
    constructor (lo: nat, hi: nat, mem: Mem, tramp: nat)
      requires 0 < lo <= hi <= UINT64 / PGSIZE && tramp < UINT64 / PGSIZE
      requires forall p :: lo <= p < hi ==> p in mem
      ensures Valid() && pool.current == NONE
    {
      pool := new Scheduler.Pool();
      files := new FileTable.Table();
      spaces := new Spaces(lo, hi, mem, tramp);
      pt := seq(NPROC, _ => 0);
    }

    /** run_all_app and the first dispatch: the first process gets memory of this size, the pages of its stack and
        of its program, and runs.  The kernel panics exactly when there are too few pages for it. */
    method Start(size: nat) returns (panicked: bool)
      requires Valid() && pool.current == NONE && pool.cursor == 0 && 0 < size && PagesUp(size) <= TRAPFRAME
      requires AllUnused(pool.state)
      modifies this`pt, pool, files, spaces`sizes, spaces.m`mem, spaces.m`freelist, spaces.m`free, spaces.m`use
      ensures panicked <==> |old(spaces.m.free)| < ForkPages(PagesUp(size))
      ensures !panicked ==> Valid() && pool.current == 0 && pool.state[0] == Scheduler.Running
      ensures !panicked ==> spaces.sizes[pt[0]] == Space(size, spaces.trapframe[0], spaces.tramp)
    {
      hide Machine.Valid, SpacesOk, FileTable.Inv, FileTable.Holders, FileTable.Paged, Scheduler.PidsOk, ForkTables, Lookup,
           Agree, Spaces.Valid, FileTable.Table.Valid, Scheduler.Pool.Valid, PagesUp, TopOnly, Housed, Holds, Grown,
           ForkPages, AllUnused, AllIntact, Aside, Scheduler.Distance, Scheduler.Dispatched, GrowNeed;
      ghost var states, fstates := pool.state, files.state;
      HouseLengths(states, pt, spaces.sizes);
      SmallSize(size);
      AtLeastThree(PagesUp(size));
      var np := pool.Load();
      FirstSlot(states, np);
      var root := spaces.MakeTable(np);
      if root == 0 {
        return true;
      }
      GrowFromNothing(spaces.m.mem, root, size);
      var r, ok := spaces.DoGrow(root, size);
      if r == 0 {
        return true;
      }
      pt := pt[np := root];
      var c := files.Allocproc();
      NoneUnused(states, fstates, c);
      panicked := pool.Dispatch();
      OnlyRunnable(states, states[0 := Scheduler.Runnable], pool.current, panicked);
      AgreeAdd(states, fstates, 0, Scheduler.Running);
      OneHouse(states, pt, spaces.sizes);
      assert pool.state == states[0 := Scheduler.Running];
    }

    /** fork, called by a process that has memory.  With the pool full nothing changes and the caller gets its
        own process id; with too few pages the child exists but never runs; otherwise the child has a copy of
        every page, the same descriptors, and can run. */
    method Fork() returns (np: int, r: int, panicked: bool)
      requires Valid() && pool.current != NONE && 0 < spaces.sizes[pt[pool.current]].sz
      modifies this`pt, pool, files, spaces`sizes, spaces.m`mem, spaces.m`freelist, spaces.m`free, spaces.m`use
      ensures panicked <==> !Full(old(pool.state)) && |old(spaces.m.free)| < 3
      ensures !panicked ==> Valid() && pool.current == old(pool.current) && (np == NONE <==> Full(old(pool.state)))
      ensures !panicked && np == NONE ==>
        && r == pool.pid[pool.current] && pool.state == old(pool.state) && pool.parent == old(pool.parent)
        && files.Now() == old(files.Now()) && pt == old(pt) && spaces.sizes == old(spaces.sizes)
        && forall q: nat, w: nat :: q in spaces.sizes && w < MAXVPN ==>
             Lookup(spaces.m.mem, q, w) == Lookup(old(spaces.m.mem), q, w)
      ensures !panicked && np != NONE ==>
        var p := pool.current;
        var s := old(spaces.sizes)[old(pt)[p]];
        var enough := ForkPages(PagesUp(s.sz)) <= |old(spaces.m.free)|;
        && 0 <= np < NPROC && old(pool.state)[np] == Scheduler.Unused && r == pool.pid[np] == old(pool.nextPid)
        && pool.state == old(pool.state)[np := if enough then Scheduler.Runnable else Scheduler.Used]
        && pool.parent == old(pool.parent)[np := if enough then p else NONE]
        && pt == old(pt)[np := pt[np]] && pt[np] !in old(spaces.sizes)
        && spaces.sizes == old(spaces.sizes)[pt[np] := Space(if enough then s.sz else 0, spaces.trapframe[np], spaces.tramp)]
        && (enough ==> forall w: nat :: w < PagesUp(s.sz) ==>
              CopyOf(old(spaces.m.mem), old(spaces.m.use), old(pt)[p], spaces.m.mem, pt[np], w))
        && if enough then
             && FileTable.Shared(old(files.slots), files.slots, p, np, FileTable.FD_MAX)
             && FileTable.AllSame(old(files.files), files.files)
           else files.slots == old(files.slots) && files.files == old(files.files)
    {
      hide Machine.Valid, SpacesOk, FileTable.Inv, FileTable.Holders, FileTable.Paged, FileTable.Shared,
           FileTable.Others,
           Scheduler.PidsOk, CopyOf, ForkTables, Lookup, Agree, Housed,
           Spaces.Valid, FileTable.Table.Valid, Scheduler.Pool.Valid, FileTable.AllSame, Grown,
           AllIntact, Aside, TopOnly, Full, PagesUp;
      pool.CurrentRuns();
      var p := pool.current;
      panicked := false;
      ghost var states, fstates, sizes0, pt0 := pool.state, files.state, spaces.sizes, pt;
      Alive(states, fstates, pt, sizes0, p);
      np := pool.Allocproc();
      if np == NONE {
        IsFull(states);
        var copied := spaces.CopyOnto(pt[p]);
        return NONE, pool.pid[p], false;
      }
      NotFull(states, fstates, np);
      var child, enough := spaces.DoFork(pt[p], np);
      if child == 0 {
        return np, 0, true;
      }
      pt := pt[np := child];
      var c := files.Fork(p, enough);
      SameSlot(states, fstates, np, c);
      r := pool.pid[np];
      if enough {
        pool.Adopt(np);
      }
      NewHouse(states, pt0, sizes0, np, pool.state[np], child, spaces.sizes[child]);
      AgreeAdd(states, fstates, np, pool.state[np]);
      assert pool.state == states[np := pool.state[np]];
    }
  }
}
