/** Open files and their reference counts (os/kernel/file.c, pipealloc and pipeclose of
    os/kernel/pipe.c, sys_pipe and sys_close of os/kernel/syscall.c, and the descriptor tables of
    os/kernel/proc.c). */
module FileTable {

  const FILE_MAX: nat := 2048
  const NPROC: nat := 256
  const FD_MAX: nat := 16
  /** An empty descriptor slot. */
  const NOFILE: int := -1

  datatype FType = FdNone | FdPipe | FdInode

  datatype File = File(typ: FType, ref: nat, readable: bool, writable: bool, pipe: nat)

  /** readopen and writeopen of a pipe whose page is allocated. */
  datatype Ends = Ends(readopen: bool, writeopen: bool)

  datatype State = Unused | Alive | Zombie

  /** What a path leads to, after create when that was asked for. */
  datatype Target = Missing | Plain | NotAFile

  /** What a running process asks for; Start is the allocproc of the loader or of spawn. */
  datatype Op =
    | Start
    | Open(target: Target, wronly: bool, rdwr: bool)
    | MakePipe(page: int, copied: bool)
    | Close(fd: nat)
    | Fork(copied: bool)
    | Exit(hasParent: bool)
    | Reap(child: nat)

  // ---------- reference counts ----------

  /** How many descriptor slots name f. */
  function Uses(slots: seq<int>, f: int): nat { multiset(slots)[f] }

  lemma UsesIn(slots: seq<int>, k: nat)
    requires k < |slots|
    ensures Uses(slots, slots[k]) > 0
  {
    assert slots[k] in multiset(slots);
  }

  lemma UsesAfter(slots: seq<int>, i: nat, x: int)
    requires i < |slots| && slots[i] != x
    ensures forall f :: Uses(slots[i := x], f) == Uses(slots, f) + (if f == x then 1 else 0) - (if f == slots[i] then 1 else 0)
  {
    assert multiset(slots[i := x]) == multiset(slots) - multiset{slots[i]} + multiset{x};
    assert slots[i] in multiset(slots);
  }

  /** The references to a file are the descriptor slots that name it and those in spare. */
  ghost predicate Counted(files: seq<File>, slots: seq<int>, spare: multiset<int>) {
    && |files| == FILE_MAX
    && (forall f :: 0 <= f < |files| ==> files[f].ref == Uses(slots, f) + spare[f])
    && (forall f :: 0 <= f < |files| && files[f].ref == 0 ==> Blank(files[f]))
  }

  predicate Blank(f: File) { f.typ == FdNone && !f.readable && !f.writable }

  /** A pipe's page is allocated exactly while one of its ends has a file, and an end is open
      exactly while it has one; each end has at most one. */
  ghost predicate PipesOk(files: seq<File>, pipes: map<nat, Ends>) {
    && (forall f :: 0 <= f < |files| && files[f].typ == FdPipe ==>
          files[f].pipe in pipes && IsOpen(pipes[files[f].pipe], files[f].writable))
    && (forall f, g :: 0 <= f < |files| && 0 <= g < |files| && f != g && IsEnd(files[f], files[g].pipe, files[g].writable) ==>
          files[g].typ != FdPipe)
    && (forall id, w :: id in pipes && IsOpen(pipes[id], w) ==> HasEnd(files, id, w))
    && (forall id :: id in pipes ==> IsOpen(pipes[id], false) || IsOpen(pipes[id], true))
  }

  predicate IsOpen(e: Ends, writable: bool) { if writable then e.writeopen else e.readopen }

  predicate IsEnd(f: File, id: nat, writable: bool) { f.typ == FdPipe && f.pipe == id && f.writable == writable }

  ghost predicate HasEnd(files: seq<File>, id: nat, w: bool) {
    exists f :: 0 <= f < |files| && IsEnd(files[f], id, w)
  }

  /** Every descriptor slot names a file in use, and the files in spare have no type yet. */
  ghost predicate SlotsOk(files: seq<File>, slots: seq<int>, spare: multiset<int>) {
    && |slots| == NPROC * FD_MAX
    && (forall i :: 0 <= i < |slots| && slots[i] != NOFILE ==> 0 <= slots[i] < |files| && files[slots[i]].typ != FdNone)
    && (forall f :: f in spare ==> 0 <= f < |files| && files[f].typ == FdNone)
  }

  ghost predicate Inv(files: seq<File>, slots: seq<int>, spare: multiset<int>, pipes: map<nat, Ends>) {
    Counted(files, slots, spare) && PipesOk(files, pipes) && SlotsOk(files, slots, spare)
  }

  /** Slot i is one of process p's. */
  predicate Of(i: int, p: nat) { p * FD_MAX <= i < (p + 1) * FD_MAX }

  /** Only processes that are alive hold descriptors. */
  ghost predicate Holders(slots: seq<int>, state: seq<State>) {
    && |state| == NPROC && |slots| == NPROC * FD_MAX
    && forall i, p :: 0 <= i < |slots| && 0 <= p < |state| && Of(i, p) && slots[i] != NOFILE ==> state[p] == Alive
  }

  /** f and g are the same open file, whatever its count. */
  predicate Same(f: File, g: File) { f.(ref := g.ref) == g }

  /** The descriptors of every process but p are as they were, and so are the files they name. */
  ghost predicate Others(files: seq<File>, slots: seq<int>, files': seq<File>, slots': seq<int>, p: nat) {
    && |files'| == |files| && |slots'| == |slots|
    && forall i :: 0 <= i < |slots| && !Of(i, p) ==>
         && slots'[i] == slots[i]
         && (0 <= slots[i] < |files| ==> Same(files[slots[i]], files'[slots[i]]))
  }

  /** The descriptors of process b, and the files they name, are as they were. */
  ghost predicate Held(files: seq<File>, slots: seq<int>, files': seq<File>, slots': seq<int>, b: nat) {
    && |files'| == |files| && |slots'| == |slots|
    && forall i :: 0 <= i < |slots| && Of(i, b) ==>
         && slots'[i] == slots[i]
         && (0 <= slots[i] < |files| ==> Same(files[slots[i]], files'[slots[i]]))
  }

  lemma OthersTrans(a: seq<File>, s: seq<int>, b: seq<File>, t: seq<int>, c: seq<File>, u: seq<int>, p: nat)
    requires Others(a, s, b, t, p) && Others(b, t, c, u, p)
    ensures Others(a, s, c, u, p)
  {
  }

  lemma OthersHeld(files: seq<File>, slots: seq<int>, files': seq<File>, slots': seq<int>, p: nat, b: nat)
    requires p != b && Others(files, slots, files', slots', p)
    ensures Held(files, slots, files', slots', b)
  {
  }

  lemma HeldTrans(a: seq<File>, s: seq<int>, b: seq<File>, t: seq<int>, c: seq<File>, u: seq<int>, p: nat)
    requires Held(a, s, b, t, p) && Held(b, t, c, u, p)
    ensures Held(a, s, c, u, p)
  {
  }

  /** A process blocked in piperead or pipewrite finds its pipe's page allocated and its own end open,
      whatever the other processes did meanwhile. */
  lemma BlockedPipeStays(files: seq<File>, slots: seq<int>, spare: multiset<int>, pipes: map<nat, Ends>,
                         files': seq<File>, slots': seq<int>, spare': multiset<int>, pipes': map<nat, Ends>, b: nat, i: nat)
    requires Inv(files, slots, spare, pipes) && Inv(files', slots', spare', pipes')
    requires Held(files, slots, files', slots', b) && Of(i, b)
    requires i < |slots| && slots[i] != NOFILE && files[slots[i]].typ == FdPipe
    ensures files[slots[i]].pipe in pipes && files[slots[i]].pipe in pipes'
    ensures IsOpen(pipes'[files[slots[i]].pipe], files[slots[i]].writable)
  {
    PageWhileOpen(files, slots, spare, pipes, files[slots[i]].pipe);
    PageWhileOpen(files', slots', spare', pipes', files[slots[i]].pipe);
    assert Same(files[slots[i]], files'[slots[i]]) && slots'[i] == slots[i];
  }

  /** A pipe has a page exactly while some descriptor names one of its ends, and the end a descriptor
      names is open. */
  lemma PageWhileOpen(files: seq<File>, slots: seq<int>, spare: multiset<int>, pipes: map<nat, Ends>, id: nat)
    requires Inv(files, slots, spare, pipes)
    ensures id in pipes <==>
      exists i :: 0 <= i < |slots| && slots[i] != NOFILE && files[slots[i]].typ == FdPipe && files[slots[i]].pipe == id
    ensures forall i :: 0 <= i < |slots| && slots[i] != NOFILE && files[slots[i]].typ == FdPipe && files[slots[i]].pipe == id ==>
              id in pipes && IsOpen(pipes[id], files[slots[i]].writable)
  {
    if id in pipes {
      var w := IsOpen(pipes[id], true);
      assert HasEnd(files, id, w);
      var f :| 0 <= f < |files| && IsEnd(files[f], id, w);
      assert Uses(slots, f) + spare[f] > 0;
      assert f in slots;
    }
  }

  // ---------- the table as a transition system ----------

  /** The table between two operations, with the files that pipealloc left referenced but unnamed, and the pages
      of pipes allocated and freed so far. */
  datatype Snap = Snap(files: seq<File>, slots: seq<int>, state: seq<State>, pipes: map<nat, Ends>, spare: multiset<int>,
                       made: multiset<nat>, freed: multiset<nat>)

  ghost predicate SnapOk(s: Snap) {
    Inv(s.files, s.slots, s.spare, s.pipes) && Holders(s.slots, s.state)
  }

  /** Every reference to a file is a descriptor slot that names it. */
  ghost predicate Exact(s: Snap) {
    forall f :: 0 <= f < |s.files| ==> s.files[f].ref == Uses(s.slots, f)
  }

  /** What the kernel relies on when process p asks for op. */
  predicate ReadyIn(files: seq<File>, slots: seq<int>, state: seq<State>, pipes: map<nat, Ends>, p: nat, op: Op) {
    && |slots| == NPROC * FD_MAX && |state| == NPROC
    && (op.Start? || (p < NPROC && state[p] == Alive))
    && match op
       case Start => exists q :: 0 <= q < NPROC && state[q] == Unused
       case Open(target, _, _) => target != NotAFile
       case MakePipe(page, _) => TwoFree(files) && TwoFreeSlots(slots, p) && (page >= 0 ==> page !in pipes)
       case Close(fd) => fd < FD_MAX && (fd == 0 || slots[p * FD_MAX + fd] != NOFILE)
       case Fork(_) => true
       case Exit(_) => true
       case Reap(child) => child < NPROC && state[child] == Zombie
  }

  predicate Ready(s: Snap, p: nat, op: Op) { ReadyIn(s.files, s.slots, s.state, s.pipes, p, op) }

  /** sys_pipe when kalloc has no page for it. */
  predicate Starved(op: Op) { op.MakePipe? && op.page < 0 }

  /** One operation of process p, or none when the kernel could not rely on what it needs. */
  ghost predicate Next(a: Snap, p: nat, op: Op, b: Snap) {
    if !Ready(a, p, op) then b == a
    else
      && SnapOk(b) && Local(a, p, b)
      && (if Starved(op) then a.spare < b.spare else b.spare == a.spare)
      && Effect(a, p, op, b)
  }

  ghost predicate Effect(a: Snap, p: nat, op: Op, b: Snap)
    requires Ready(a, p, op)
  {
    match op
    case Start => exists q :: FirstUnused(a.state, q) && b == a.(state := a.state[q := Alive])
    case Open(target, wronly, rdwr) =>
      if target == Plain && Free(a.files) && FreeSlot(a.slots, p) then
        && b == a.(files := b.files, slots := b.slots)
        && OpenedBy(a, p, b, !wronly, wronly || rdwr)
      else b == a
    case MakePipe(page, copied) =>
      if page < 0 then
        b == a.(files := b.files, spare := b.spare) && LostTwo(a.files, a.spare, b.files, b.spare)
      else if !copied then
        && b == a.(files := b.files, made := a.made + multiset{page}, freed := a.freed + multiset{page})
        && Blanked(a.files, b.files, page)
      else
        && b == a.(files := b.files, slots := b.slots, pipes := a.pipes[page := Ends(true, true)],
                   made := a.made + multiset{page})
        && exists i, j :: FirstSlots(a.slots, p, i, j) && Piped(a.files, a.slots, b.files, b.slots, i, j, page)
    case Close(fd) =>
      if fd == 0 then b == a
      else
        && b == a.(files := b.files, slots := a.slots[p * FD_MAX + fd := NOFILE], pipes := b.pipes, freed := b.freed)
        && Closed(a.files, a.pipes, a.slots[p * FD_MAX + fd], b.files, b.pipes)
        && b.freed == a.freed + FreedBy(a.files, a.pipes, a.slots[p * FD_MAX + fd])
    case Fork(copied) =>
      if forall q :: 0 <= q < NPROC ==> a.state[q] != Unused then b == a
      else
        && b == a.(files := b.files, slots := b.slots, state := b.state) && AllSame(a.files, b.files)
        && exists c :: 0 <= c < NPROC && Forked(a, p, copied, c, b)
    case Exit(hasParent) =>
      && Others(a.files, a.slots, b.files, b.slots, p) && b.state == a.state[p := if hasParent then Zombie else Unused]
      && forall i :: p * FD_MAX <= i < (p + 1) * FD_MAX ==> b.slots[i] == NOFILE
    case Reap(child) => b == a.(state := a.state[child := Unused])
  }

  /** Under which conditions an operation has its effect, and does not just leave everything as it is. */
  lemma NextDoes(a: Snap, p: nat, op: Op, b: Snap)
    requires Next(a, p, op, b) && |a.slots| == 256 * 16 && |a.state| == 256 && (!op.Start? ==> p < 256 && a.state[p] == Alive)
    requires
      match op
      case Start => exists q :: 0 <= q < 256 && a.state[q] == Unused
      case Open(target, _, _) => target == Missing || target == Plain
      case MakePipe(page, _) =>
        && (exists f, g :: 0 <= f < g < |a.files| && a.files[f].ref == 0 && a.files[g].ref == 0)
        && (exists i, j :: 16 * p + 3 <= i < j < 16 * p + 16 && a.slots[i] == NOFILE && a.slots[j] == NOFILE)
        && page !in a.pipes
      case Close(fd) => fd < 16 && (fd == 0 || a.slots[16 * p + fd] != NOFILE)
      case Reap(child) => child < 256 && a.state[child] == Zombie
      case _ => true
    ensures Ready(a, p, op) && Effect(a, p, op, b)
  {
    hide Effect, SnapOk, Local;
  }

  predicate FirstUnused(state: seq<State>, q: int) {
    0 <= q < NPROC == |state| && state[q] == Unused && forall r :: 0 <= r < q ==> state[r] != Unused
  }

  /** f is the first file with count 0. */
  predicate FirstFree(files: seq<File>, f: int) {
    0 <= f < |files| && files[f].ref == 0 && forall k :: 0 <= k < f ==> files[k].ref != 0
  }

  /** f and g are the first two files with count 0. */
  predicate FirstTwo(files: seq<File>, f: int, g: int) {
    && 0 <= f < g < |files| && files[f].ref == 0 && files[g].ref == 0
    && forall k :: 0 <= k < g && k != f ==> files[k].ref != 0
  }

  /** i is the first empty slot of p from descriptor 3 on. */
  predicate FirstSlot(slots: seq<int>, p: nat, i: int) {
    && p * FD_MAX + 3 <= i < (p + 1) * FD_MAX <= |slots| && slots[i] == NOFILE
    && forall k :: p * FD_MAX + 3 <= k < i ==> slots[k] != NOFILE
  }

  /** i and j are the first two empty slots of p from descriptor 3 on. */
  predicate FirstSlots(slots: seq<int>, p: nat, i: int, j: int) {
    && p * FD_MAX + 3 <= i < j < (p + 1) * FD_MAX <= |slots| && slots[i] == NOFILE && slots[j] == NOFILE
    && forall k :: p * FD_MAX + 3 <= k < j && k != i ==> slots[k] != NOFILE
  }

  /** The first two free files are referenced and no slot names them: all that sys_pipe does without a page. */
  ghost predicate LostTwo(files: seq<File>, spare: multiset<int>, files': seq<File>, spare': multiset<int>) {
    exists f, g :: FirstTwo(files, f, g) && spare' == spare + multiset{f, g}
                   && files' == files[f := files[f].(ref := 1)][g := files[g].(ref := 1)]
  }

  /** The first two free files are free again, and remember only the page that they had for a while. */
  ghost predicate Blanked(files: seq<File>, files': seq<File>, page: nat) {
    exists f, g :: FirstTwo(files, f, g)
                   && files' == files[f := File(FdNone, 0, false, false, page)][g := File(FdNone, 0, false, false, page)]
  }

  /** A descriptor of p from 3 on now names a file opened with these modes. */
  ghost predicate OpenedBy(a: Snap, p: nat, b: Snap, r: bool, w: bool) {
    exists i :: FirstSlot(a.slots, p, i) && Opened(a.files, a.slots, b.files, b.slots, i, r, w)
  }

  /** Processes other than p that were alive are, and hold what they held. */
  ghost predicate Local(a: Snap, p: nat, b: Snap) {
    && |a.state| == NPROC && |b.state| == NPROC
    && forall r: nat :: r < NPROC && r != p && a.state[r] == Alive ==>
         b.state[r] == Alive && Held(a.files, a.slots, b.files, b.slots, r)
  }

  lemma OthersLocal(a: Snap, p: nat, q: nat, b: Snap)
    requires Others(a.files, a.slots, b.files, b.slots, q) && |a.state| == NPROC && |b.state| == NPROC && q < NPROC
    requires q == p || a.state[q] != Alive
    requires forall r: nat :: r < NPROC && r != p && a.state[r] == Alive ==> b.state[r] == Alive
    ensures Local(a, p, b)
  {
    hide Others, Held;
    forall r: nat | r < NPROC && r != p && a.state[r] == Alive
      ensures Held(a.files, a.slots, b.files, b.slots, r)
    {
      OthersHeld(a.files, a.slots, b.files, b.slots, q, r);
    }
  }

  /** The descriptors of a process that asks for nothing, because it is blocked on a pipe, keep naming the same
      open files over any run. */
  lemma {:induction false} Bystander(trace: seq<Snap>, ops: seq<(nat, Op)>, b: nat)
    requires IsRun(trace, ops) && |trace[0].state| == NPROC && b < NPROC && trace[0].state[b] == Alive
    requires forall k :: 0 <= k < |ops| ==> ops[k].0 != b
    ensures |trace[|ops|].state| == NPROC && trace[|ops|].state[b] == Alive
    ensures Held(trace[0].files, trace[0].slots, trace[|ops|].files, trace[|ops|].slots, b)
    decreases |ops|
  {
    hide Ready, SnapOk, Held;
    if ops == [] {
      HeldRefl(trace[0], b);
    } else {
      var n := |ops| - 1;
      var front, init := trace[..|ops|], ops[..n];
      RunPrefix(trace, ops);
      Bystander(front, init, b);
      assert Next(trace[n], ops[n].0, ops[n].1, trace[n + 1]);
      StepHeld(trace[n], ops[n].0, ops[n].1, trace[n + 1], b);
      HeldTrans(trace[0].files, trace[0].slots, trace[n].files, trace[n].slots, trace[n + 1].files, trace[n + 1].slots, b);
    }
  }

  lemma HeldRefl(s: Snap, b: nat)
    ensures Held(s.files, s.slots, s.files, s.slots, b)
  {
  }

  lemma StepHeld(a: Snap, p: nat, op: Op, c: Snap, b: nat)
    requires Next(a, p, op, c) && b != p && b < NPROC == |a.state| && a.state[b] == Alive
    ensures |c.state| == NPROC && c.state[b] == Alive && Held(a.files, a.slots, c.files, c.slots, b)
  {
    hide Ready, SnapOk, Held;
    HeldRefl(a, b);
  }

  /** Slot c took a child of p; with the memory copied it shares p's descriptors. */
  ghost predicate Forked(a: Snap, p: nat, copied: bool, c: nat, b: Snap)
    requires |a.slots| == NPROC * FD_MAX && |a.state| == NPROC && p < NPROC && c < NPROC
  {
    && FirstUnused(a.state, c) && b.state == a.state[c := Alive]
    && if copied then Shared(a.slots, b.slots, p, c, FD_MAX) else b.slots == a.slots && b.files == a.files
  }

  /** A run of the operations ops[k].1 by the processes ops[k].0. */
  ghost predicate IsRun(trace: seq<Snap>, ops: seq<(nat, Op)>) {
    |trace| == |ops| + 1 && forall k :: 0 <= k < |ops| ==> Next(trace[k], ops[k].0, ops[k].1, trace[k + 1])
  }

  lemma RunPrefix(trace: seq<Snap>, ops: seq<(nat, Op)>)
    requires IsRun(trace, ops) && ops != []
    ensures IsRun(trace[..|ops|], ops[..|ops| - 1])
  {
    hide Next;
    forall k | 0 <= k < |ops| - 1
      ensures Next(trace[..|ops|][k], ops[..|ops| - 1][k].0, ops[..|ops| - 1][k].1, trace[..|ops|][k + 1])
    {
      assert Next(trace[k], ops[k].0, ops[k].1, trace[k + 1]);
    }
  }

  /** Reference counts, over every run that starts from a table without spare files: every reference is a
      descriptor slot if and only if no operation carried out was a sys_pipe for which there was no
      page. */
  lemma {:induction false} CountsExact(trace: seq<Snap>, ops: seq<(nat, Op)>)
    requires IsRun(trace, ops) && SnapOk(trace[0]) && trace[0].spare == multiset{}
    ensures SnapOk(trace[|ops|])
    ensures Exact(trace[|ops|]) <==> forall k :: 0 <= k < |ops| && Ready(trace[k], ops[k].0, ops[k].1) ==> !Starved(ops[k].1)
    decreases |ops|
  {
    SpareGrows(trace, ops);
    SpareMeans(trace[|ops|]);
  }

  lemma {:induction false} SpareGrows(trace: seq<Snap>, ops: seq<(nat, Op)>)
    requires IsRun(trace, ops) && SnapOk(trace[0]) && trace[0].spare == multiset{}
    ensures SnapOk(trace[|ops|])
    ensures trace[|ops|].spare == multiset{} <==>
              forall k :: 0 <= k < |ops| && Ready(trace[k], ops[k].0, ops[k].1) ==> !Starved(ops[k].1)
    decreases |ops|
  {
    hide Ready, SnapOk;
    if ops != [] {
      var n := |ops| - 1;
      var front, init := trace[..|ops|], ops[..n];
      RunPrefix(trace, ops);
      SpareGrows(front, init);
      assert Next(trace[n], ops[n].0, ops[n].1, trace[n + 1]);
      NextSpare(trace[n], ops[n].0, ops[n].1, trace[n + 1]);
      assert forall k :: 0 <= k < |ops| ==> k == n || ops[k] == init[k];
    }
  }

  lemma NextSpare(a: Snap, p: nat, op: Op, b: Snap)
    requires Next(a, p, op, b) && SnapOk(a)
    ensures SnapOk(b)
    ensures b.spare == multiset{} <==> a.spare == multiset{} && !(Ready(a, p, op) && Starved(op))
    ensures a.spare <= b.spare
  {
    hide Ready, SnapOk;
  }

  /** Every reference is a descriptor slot exactly when no file is spare. */
  lemma SpareMeans(s: Snap)
    requires SnapOk(s)
    ensures Exact(s) <==> s.spare == multiset{}
  {
    if f :| f in s.spare {
      assert s.files[f].ref == Uses(s.slots, f) + s.spare[f];
    } else {
      forall f: int ensures s.spare[f] == 0 { assert f !in s.spare; }
      assert s.spare == multiset{};
    }
  }

  // ---------- fileclose and pipeclose ----------

  /** The file table after one reference to f is given up. */
  function ClosedFile(files: seq<File>, f: nat): seq<File>
    requires f < |files| && files[f].ref > 0
  {
    files[f := if files[f].ref > 1 then files[f].(ref := files[f].ref - 1)
               else files[f].(ref := 0, typ := FdNone, readable := false, writable := false)]
  }

  /** The page that closing f frees: a pipe's, when this was the last reference to its last open end. */
  function FreedBy(files: seq<File>, pipes: map<nat, Ends>, f: nat): multiset<nat>
    requires f < |files|
  {
    var x := files[f];
    if x.ref == 1 && x.typ == FdPipe && x.pipe in pipes && !IsOpen(pipes[x.pipe], !x.writable) then multiset{x.pipe} else multiset{}
  }

  /** One reference to f was given up. */
  predicate Closed(files: seq<File>, pipes: map<nat, Ends>, f: int, files': seq<File>, pipes': map<nat, Ends>) {
    0 <= f < |files| && files[f].ref > 0 && files' == ClosedFile(files, f) && pipes' == ClosedPipes(files, pipes, f)
  }

  lemma CloseBlank(files: seq<File>, f: nat)
    requires f < |files| && files[f].ref == 0 && Blank(files[f])
    ensures ClosedFile(files[f := files[f].(ref := 1)], f) == files
  {
  }

  function ClosedEnds(e: Ends, writable: bool): Ends {
    if writable then e.(writeopen := false) else e.(readopen := false)
  }

  function ClosedPipes(files: seq<File>, pipes: map<nat, Ends>, f: nat): map<nat, Ends>
    requires f < |files|
  {
    var x := files[f];
    if x.ref == 1 && x.typ == FdPipe && x.pipe in pipes then
      var e := ClosedEnds(pipes[x.pipe], x.writable);
      if !e.readopen && !e.writeopen then pipes - {x.pipe} else pipes[x.pipe := e]
    else pipes
  }

  /** Closing both ends of a new pipe, one reference each, takes it away again. */
  lemma CloseBoth(files: seq<File>, pipes: map<nat, Ends>, f0: nat, f1: nat, id: nat)
    requires f0 < |files| && f1 < |files| && f0 != f1 && id !in pipes
    requires IsEnd(files[f0], id, false) && IsEnd(files[f1], id, true) && files[f0].ref == 1 && files[f1].ref == 1
    ensures var open := pipes[id := Ends(true, true)];
            && FreedBy(files, open, f0) == multiset{} && id in ClosedPipes(files, open, f0)
            && FreedBy(ClosedFile(files, f0), ClosedPipes(files, open, f0), f1) == multiset{id}
            && ClosedPipes(ClosedFile(files, f0), ClosedPipes(files, open, f0), f1) == pipes
  {
  }

  lemma ClosePipes(files: seq<File>, pipes: map<nat, Ends>, f: nat)
    requires PipesOk(files, pipes) && f < |files| && files[f].ref > 0
    ensures PipesOk(ClosedFile(files, f), ClosedPipes(files, pipes, f))
  {
    hide PipesOk;
    if files[f].ref > 1 {
      RefPipes(files, pipes, f, files[f].ref - 1);
    } else if files[f].typ != FdPipe {
      ClosePlain(files, pipes, f);
    } else {
      PipeOf(files, pipes, f);
      CloseEnd(files, pipes, f);
    }
  }

  lemma PipeOf(files: seq<File>, pipes: map<nat, Ends>, f: nat)
    requires PipesOk(files, pipes) && f < |files| && files[f].typ == FdPipe
    ensures files[f].pipe in pipes && IsOpen(pipes[files[f].pipe], files[f].writable)
  {
  }

  /** The last reference to a file that is no pipe. */
  lemma ClosePlain(files: seq<File>, pipes: map<nat, Ends>, f: nat)
    requires PipesOk(files, pipes) && f < |files| && files[f].typ != FdPipe
    ensures PipesOk(files[f := files[f].(ref := 0, typ := FdNone, readable := false, writable := false)], pipes)
  {
    var files' := files[f := files[f].(ref := 0, typ := FdNone, readable := false, writable := false)];
    forall id, w | id in pipes && IsOpen(pipes[id], w)
      ensures HasEnd(files', id, w)
    {
      var g :| 0 <= g < |files| && IsEnd(files[g], id, w);
      assert IsEnd(files'[g], id, w);
    }
  }

  /** The last reference to an end of a pipe. */
  lemma CloseEnd(files: seq<File>, pipes: map<nat, Ends>, f: nat)
    requires PipesOk(files, pipes) && f < |files| && files[f].ref == 1 && files[f].typ == FdPipe && files[f].pipe in pipes
    ensures PipesOk(ClosedFile(files, f), ClosedPipes(files, pipes, f))
  {
    var files', pipes' := ClosedFile(files, f), ClosedPipes(files, pipes, f);
    forall g | 0 <= g < |files'| && files'[g].typ == FdPipe
      ensures files'[g].pipe in pipes' && IsOpen(pipes'[files'[g].pipe], files'[g].writable)
    {
      OtherEnd(files, pipes, f, g);
    }
    forall id, w | id in pipes' && IsOpen(pipes'[id], w)
      ensures HasEnd(files', id, w)
    {
      StillEnd(files, pipes, f, id, w);
    }
    hide IsOpen;
    OneEnd(files, f);
  }

  lemma OneEnd(files: seq<File>, f: nat)
    requires f < |files| && files[f].ref == 1
    requires forall f, g :: 0 <= f < |files| && 0 <= g < |files| && f != g && IsEnd(files[f], files[g].pipe, files[g].writable) ==>
               files[g].typ != FdPipe
    ensures
      var files' := ClosedFile(files, f);
      forall f, g :: 0 <= f < |files'| && 0 <= g < |files'| && f != g && IsEnd(files'[f], files'[g].pipe, files'[g].writable) ==>
        files'[g].typ != FdPipe
  {
  }

  lemma OtherEnd(files: seq<File>, pipes: map<nat, Ends>, f: nat, g: nat)
    requires PipesOk(files, pipes) && f < |files| && files[f].ref == 1 && files[f].typ == FdPipe && files[f].pipe in pipes
    requires g < |files| && g != f && files[g].typ == FdPipe
    ensures
      var pipes' := ClosedPipes(files, pipes, f);
      files[g].pipe in pipes' && IsOpen(pipes'[files[g].pipe], files[g].writable)
  {
    if files[g].pipe == files[f].pipe {
      assert !IsEnd(files[f], files[g].pipe, files[g].writable);
    }
  }

  lemma StillEnd(files: seq<File>, pipes: map<nat, Ends>, f: nat, id: nat, w: bool)
    requires PipesOk(files, pipes) && f < |files| && files[f].ref == 1 && files[f].typ == FdPipe && files[f].pipe in pipes
    requires id in ClosedPipes(files, pipes, f) && IsOpen(ClosedPipes(files, pipes, f)[id], w)
    ensures HasEnd(ClosedFile(files, f), id, w)
  {
    assert id in pipes && IsOpen(pipes[id], w);
    assert HasEnd(files, id, w);
    var g :| 0 <= g < |files| && IsEnd(files[g], id, w);
    assert g != f;
    assert IsEnd(ClosedFile(files, f)[g], id, w);
  }

  // ---------- new files ----------

  lemma EndsKept(files: seq<File>, pipes: map<nat, Ends>, f: nat, x: File)
    requires f < |files| && files[f].typ == FdNone && forall id, w :: id in pipes && IsOpen(pipes[id], w) ==> HasEnd(files, id, w)
    ensures forall id, w :: id in pipes && IsOpen(pipes[id], w) ==> HasEnd(files[f := x], id, w)
  {
    forall id, w | id in pipes && IsOpen(pipes[id], w)
      ensures HasEnd(files[f := x], id, w)
    {
      var g :| 0 <= g < |files| && IsEnd(files[g], id, w);
      assert IsEnd(files[f := x][g], id, w);
    }
  }

  /** A count changes. */
  lemma RefPipes(files: seq<File>, pipes: map<nat, Ends>, f: nat, n: nat)
    requires PipesOk(files, pipes) && f < |files|
    ensures PipesOk(files[f := files[f].(ref := n)], pipes)
  {
    var files' := files[f := files[f].(ref := n)];
    forall id, w | id in pipes && IsOpen(pipes[id], w)
      ensures HasEnd(files', id, w)
    {
      var g :| 0 <= g < |files| && IsEnd(files[g], id, w);
      assert IsEnd(files'[g], id, w);
    }
  }

  lemma InodePipes(files: seq<File>, pipes: map<nat, Ends>, f: nat, x: File)
    requires PipesOk(files, pipes) && f < |files| && files[f].typ == FdNone && x.typ != FdPipe
    ensures PipesOk(files[f := x], pipes)
  {
    EndsKept(files, pipes, f, x);
  }

  /** Each pipe page ever made was freed once or belongs to a pipe that is still there. */
  ghost predicate Paged(made: multiset<nat>, freed: multiset<nat>, pipes: map<nat, Ends>) {
    made == freed + multiset(pipes.Keys)
  }

  lemma PagedSet(made: multiset<nat>, freed: multiset<nat>, pipes: map<nat, Ends>, id: nat, e: Ends)
    requires Paged(made, freed, pipes)
    ensures id in pipes ==> Paged(made, freed, pipes[id := e])
    ensures id !in pipes ==> Paged(made + multiset{id}, freed, pipes[id := e])
  {
    assert pipes[id := e].Keys == pipes.Keys + {id};
    if id in pipes { assert pipes.Keys + {id} == pipes.Keys; }
    else { assert multiset(pipes.Keys + {id}) == multiset(pipes.Keys) + multiset{id}; }
  }

  lemma PagedFree(made: multiset<nat>, freed: multiset<nat>, pipes: map<nat, Ends>, id: nat)
    requires Paged(made, freed, pipes) && id in pipes
    ensures Paged(made, freed + multiset{id}, pipes - {id})
  {
    assert (pipes - {id}).Keys == pipes.Keys - {id};
    assert multiset(pipes.Keys) == multiset{id} + multiset(pipes.Keys - {id});
  }

  function ReadEnd(f: File, id: nat): File { f.(typ := FdPipe, readable := true, writable := false, pipe := id) }
  function WriteEnd(f: File, id: nat): File { f.(typ := FdPipe, readable := false, writable := true, pipe := id) }

  /** pipealloc on two fresh files and a fresh page. */
  lemma NewPipe(files: seq<File>, pipes: map<nat, Ends>, f0: nat, f1: nat, id: nat)
    requires PipesOk(files, pipes) && f0 < |files| && f1 < |files| && f0 != f1
    requires files[f0].typ == FdNone && files[f1].typ == FdNone && id !in pipes
    ensures PipesOk(files[f0 := ReadEnd(files[f0], id)][f1 := WriteEnd(files[f1], id)], pipes[id := Ends(true, true)])
  {
    var files' := files[f0 := ReadEnd(files[f0], id)][f1 := WriteEnd(files[f1], id)];
    var pipes' := pipes[id := Ends(true, true)];
    assert IsEnd(files'[f0], id, false) && IsEnd(files'[f1], id, true);
    forall i, w | i in pipes' && IsOpen(pipes'[i], w)
      ensures HasEnd(files', i, w)
    {
      if i != id {
        var g :| 0 <= g < |files| && IsEnd(files[g], i, w);
        assert IsEnd(files'[g], i, w);
      }
    }
  }

  // ---------- what each operation does to the counts ----------

  /** A slot's file is referenced. */
  lemma SlotCounts(files: seq<File>, slots: seq<int>, spare: multiset<int>, pipes: map<nat, Ends>, i: nat)
    requires Inv(files, slots, spare, pipes) && i < |slots| && slots[i] != NOFILE
    ensures 0 <= slots[i] < |files| && files[slots[i]].ref > 0 && files[slots[i]].typ != FdNone
    ensures files[slots[i]].typ == FdPipe ==> files[slots[i]].pipe in pipes
  {
    assert slots[i] in multiset(slots);
    assert Uses(slots, slots[i]) > 0;
  }

  lemma Shape(files: seq<File>, slots: seq<int>, spare: multiset<int>, pipes: map<nat, Ends>, state: seq<State>, p: nat)
    requires Inv(files, slots, spare, pipes) && Holders(slots, state)
    ensures |files| == FILE_MAX && |slots| == NPROC * FD_MAX && |state| == NPROC
    ensures Others(files, slots, files, slots, p)
  {
  }

  /** A process's state changes while it holds no descriptor. */
  lemma HoldersState(slots: seq<int>, state: seq<State>, p: nat, x: State)
    requires Holders(slots, state) && p < NPROC
    requires state[p] == Alive ==> forall i :: p * FD_MAX <= i < (p + 1) * FD_MAX ==> slots[i] == NOFILE
    ensures Holders(slots, state[p := x])
    ensures forall i :: p * FD_MAX <= i < (p + 1) * FD_MAX && state[p] != Alive ==> slots[i] == NOFILE
  {
    forall i | p * FD_MAX <= i < (p + 1) * FD_MAX && state[p] != Alive
      ensures slots[i] == NOFILE
    {
      assert Of(i, p);
    }
  }

  /** A descriptor comes or goes. */
  lemma HoldersAt(slots: seq<int>, state: seq<State>, p: nat, i: nat, x: int)
    requires Holders(slots, state) && p < NPROC && Of(i, p) && (x == NOFILE || state[p] == Alive)
    ensures Holders(slots[i := x], state)
  {
  }

  /** No slot names an unreferenced file. */
  lemma UnusedFile(files: seq<File>, slots: seq<int>, spare: multiset<int>, pipes: map<nat, Ends>, f: nat)
    requires Inv(files, slots, spare, pipes) && f < |files| && files[f].ref == 0
    ensures f !in slots && f !in spare && Blank(files[f])
  {
    assert Uses(slots, f) + spare[f] == 0;
    assert f !in multiset(slots);
  }

  lemma OpenKeeps(files: seq<File>, slots: seq<int>, spare: multiset<int>, pipes: map<nat, Ends>, f: nat, p: nat,
                  i: nat, x: File)
    requires Inv(files, slots, spare, pipes) && f < |files| && files[f].ref == 0 && Of(i, p)
    requires i < |slots| && slots[i] == NOFILE && x.typ == FdInode && x.ref == 1
    ensures Inv(files[f := x], slots[i := f], spare, pipes)
    ensures Others(files, slots, files[f := x], slots[i := f], p)
  {
    hide PipesOk, Uses;
    UnusedFile(files, slots, spare, pipes, f);
    InodePipes(files, pipes, f, x);
    UsesAfter(slots, i, f);
  }

  lemma PipeKeeps(files: seq<File>, slots: seq<int>, spare: multiset<int>, pipes: map<nat, Ends>,
                  f0: nat, f1: nat, i0: nat, i1: nat, id: nat)
    requires Inv(files, slots, spare, pipes) && f0 < |files| && f1 < |files| && f0 != f1 && id !in pipes
    requires files[f0].ref == 0 && files[f1].ref == 0
    requires i0 < |slots| && i1 < |slots| && i0 != i1 && slots[i0] == NOFILE && slots[i1] == NOFILE
    ensures Inv(files[f0 := ReadEnd(files[f0].(ref := 1), id)][f1 := WriteEnd(files[f1].(ref := 1), id)],
                slots[i0 := f0][i1 := f1], spare, pipes[id := Ends(true, true)])
  {
    hide PipesOk, Uses;
    UnusedFile(files, slots, spare, pipes, f0);
    UnusedFile(files, slots, spare, pipes, f1);
    var up := files[f0 := files[f0].(ref := 1)][f1 := files[f1].(ref := 1)];
    RefPipes(files, pipes, f0, 1);
    RefPipes(files[f0 := files[f0].(ref := 1)], pipes, f1, 1);
    NewPipe(up, pipes, f0, f1, id);
    var files' := files[f0 := ReadEnd(files[f0].(ref := 1), id)][f1 := WriteEnd(files[f1].(ref := 1), id)];
    assert files' == up[f0 := ReadEnd(up[f0], id)][f1 := WriteEnd(up[f1], id)];
    UsesAfter(slots, i0, f0);
    UsesAfter(slots[i0 := f0], i1, f1);
  }

  lemma PipeOthers(files: seq<File>, slots: seq<int>, spare: multiset<int>, pipes: map<nat, Ends>,
                   f0: nat, f1: nat, p: nat, i0: nat, i1: nat, x0: File, x1: File)
    requires Inv(files, slots, spare, pipes) && f0 < |files| && f1 < |files| && i0 < |slots| && i1 < |slots|
    requires files[f0].ref == 0 && files[f1].ref == 0 && Of(i0, p) && Of(i1, p)
    ensures Others(files, slots, files[f0 := x0][f1 := x1], slots[i0 := f0][i1 := f1], p)
  {
    UnusedFile(files, slots, spare, pipes, f0);
    UnusedFile(files, slots, spare, pipes, f1);
    hide Inv;
  }

  /** Two files are taken and never put in a slot. */
  lemma TwoSpare(files: seq<File>, slots: seq<int>, spare: multiset<int>, pipes: map<nat, Ends>, f0: nat, f1: nat,
                 p: nat)
    requires Inv(files, slots, spare, pipes) && f0 < |files| && f1 < |files| && f0 != f1
    requires files[f0].ref == 0 && files[f1].ref == 0
    ensures Inv(files[f0 := files[f0].(ref := 1)][f1 := files[f1].(ref := 1)], slots, spare + multiset{f0, f1}, pipes)
    ensures Others(files, slots, files[f0 := files[f0].(ref := 1)][f1 := files[f1].(ref := 1)], slots, p)
  {
    hide PipesOk, Uses;
    UnusedFile(files, slots, spare, pipes, f0);
    UnusedFile(files, slots, spare, pipes, f1);
    RefPipes(files, pipes, f0, 1);
    RefPipes(files[f0 := files[f0].(ref := 1)], pipes, f1, 1);
  }

  lemma CloseKeeps(files: seq<File>, slots: seq<int>, spare: multiset<int>, pipes: map<nat, Ends>, p: nat, i: nat)
    requires Inv(files, slots, spare, pipes) && Of(i, p) && i < |slots| && slots[i] != NOFILE
    requires 0 <= slots[i] < |files| && files[slots[i]].ref > 0
    ensures Inv(ClosedFile(files, slots[i]), slots[i := NOFILE], spare, ClosedPipes(files, pipes, slots[i]))
  {
    hide PipesOk, Uses, ClosedPipes;
    var f := slots[i];
    var slots' := slots[i := NOFILE];
    var files' := ClosedFile(files, f);
    ClosePipes(files, pipes, f);
    UsesAfter(slots, i, NOFILE);
    forall k | 0 <= k < |slots'| && slots'[k] != NOFILE
      ensures Uses(slots', slots'[k]) > 0
    {
      UsesIn(slots', k);
    }
  }

  lemma CloseOthers(files: seq<File>, slots: seq<int>, spare: multiset<int>, pipes: map<nat, Ends>, p: nat, i: nat)
    requires Inv(files, slots, spare, pipes) && Of(i, p) && i < |slots| && slots[i] != NOFILE
    requires 0 <= slots[i] < |files| && files[slots[i]].ref > 0
    ensures Others(files, slots, ClosedFile(files, slots[i]), slots[i := NOFILE], p)
  {
    var f := slots[i];
    forall k | 0 <= k < |slots| && k != i && slots[k] == f
      ensures files[f].ref > 1
    {
      UsesAfter(slots, i, NOFILE);
      assert f in slots[i := NOFILE] by { assert slots[i := NOFILE][k] == f; }
      assert f in multiset(slots[i := NOFILE]);
      assert Uses(slots[i := NOFILE], f) > 0;
    }
    hide Inv;
  }

  /** fork's ref++. */
  lemma ShareKeeps(files: seq<File>, slots: seq<int>, spare: multiset<int>, pipes: map<nat, Ends>, i: nat, p: nat,
                   j: nat)
    requires Inv(files, slots, spare, pipes) && Of(j, p) && i < |slots|
    requires j < |slots| && slots[i] != NOFILE && slots[j] == NOFILE
    requires 0 <= slots[i] < |files|
    ensures Inv(files[slots[i] := files[slots[i]].(ref := files[slots[i]].ref + 1)], slots[j := slots[i]], spare, pipes)
    ensures Others(files, slots, files[slots[i] := files[slots[i]].(ref := files[slots[i]].ref + 1)], slots[j := slots[i]], p)
  {
    hide PipesOk, Uses;
    var f := slots[i];
    RefPipes(files, pipes, f, files[f].ref + 1);
    UsesAfter(slots, j, f);
  }

  predicate Free(files: seq<File>) { exists f :: 0 <= f < |files| && files[f].ref == 0 }

  predicate FreeSlot(slots: seq<int>, p: nat)
    requires |slots| == NPROC * FD_MAX && p < NPROC
  {
    exists i :: p * FD_MAX + 3 <= i < (p + 1) * FD_MAX && slots[i] == NOFILE
  }

  /** Slot i now names the first file that was free, opened with the given modes. */
  ghost predicate Opened(files: seq<File>, slots: seq<int>, files': seq<File>, slots': seq<int>, i: nat, r: bool,
                         w: bool) {
    && i < |slots| && |slots'| == |slots|
    && var f := slots'[i];
       && FirstFree(files, f)
       && slots' == slots[i := f] && files' == files[f := File(FdInode, 1, r, w, files[f].pipe)]
  }

  lemma MakeOpened(files: seq<File>, slots: seq<int>, f: nat, i: nat, r: bool, w: bool)
    requires FirstFree(files, f) && i < |slots|
    ensures Opened(files, slots, files[f := File(FdInode, 1, r, w, files[f].pipe)], slots[i := f], i, r, w)
  {
  }

  predicate TwoFree(files: seq<File>) {
    exists f, g :: 0 <= f < g < |files| && files[f].ref == 0 && files[g].ref == 0
  }

  predicate TwoFreeSlots(slots: seq<int>, p: nat)
    requires |slots| == NPROC * FD_MAX && p < NPROC
  {
    exists i, j :: p * FD_MAX + 3 <= i < j < (p + 1) * FD_MAX && slots[i] == NOFILE && slots[j] == NOFILE
  }

  /** Slots i and j now name the two ends of a new pipe at page id, in the first two files that were free. */
  ghost predicate Piped(files: seq<File>, slots: seq<int>, files': seq<File>, slots': seq<int>, i: nat, j: nat,
                        id: nat) {
    && i < j < |slots| && |slots'| == |slots|
    && var f, g := slots'[i], slots'[j];
       && FirstTwo(files, f, g) && slots' == slots[i := f][j := g]
       && files' == files[f := File(FdPipe, 1, true, false, id)][g := File(FdPipe, 1, false, true, id)]
  }

  lemma MakePiped(files: seq<File>, slots: seq<int>, f: nat, g: nat, i: nat, j: nat, id: nat)
    requires i < j < |slots| && FirstTwo(files, f, g)
    ensures Piped(files, slots, files[f := File(FdPipe, 1, true, false, id)][g := File(FdPipe, 1, false, true, id)],
                  slots[i := f][j := g], i, j, id)
  {
  }

  lemma BothBlank(files: seq<File>, f: nat, g: nat, id: nat)
    requires FirstTwo(files, f, g)
    ensures
      var mid := files[f := File(FdPipe, 1, true, false, id)][g := File(FdPipe, 1, false, true, id)];
      ClosedFile(mid, f)[g].ref > 0 && Blanked(files, ClosedFile(ClosedFile(mid, f), g), id)
  {
    var mid := files[f := File(FdPipe, 1, true, false, id)][g := File(FdPipe, 1, false, true, id)];
    var blank := File(FdNone, 0, false, false, id);
    assert ClosedFile(ClosedFile(mid, f), g) == files[f := blank][g := blank];
  }

  lemma TwoBack(slots: seq<int>, i: nat, j: nat, f: int, g: int)
    requires i < |slots| && j < |slots| && i != j && slots[i] == NOFILE && slots[j] == NOFILE
    ensures slots[i := f][j := g][i := NOFILE][j := NOFILE] == slots
  {
  }

  /** The descriptors of process c become those of p, each adding one reference. */
  ghost predicate Shared(slots: seq<int>, slots': seq<int>, p: nat, c: nat, n: nat)
    requires |slots| == NPROC * FD_MAX && p < NPROC && c < NPROC && n <= FD_MAX
  {
    && |slots'| == |slots|
    && (forall k :: c * FD_MAX <= k < c * FD_MAX + n ==> slots'[k] == slots[k - c * FD_MAX + p * FD_MAX])
    && (forall i :: 0 <= i < |slots| && !(c * FD_MAX <= i < c * FD_MAX + n) ==> slots'[i] == slots[i])
  }

  /** Only counts differ. */
  ghost predicate AllSame(files: seq<File>, files': seq<File>) {
    |files'| == |files| && forall f :: 0 <= f < |files| ==> Same(files[f], files'[f])
  }

  lemma SharedOthers(files: seq<File>, slots: seq<int>, files': seq<File>, slots': seq<int>, p: nat, c: nat)
    requires |slots| == NPROC * FD_MAX && p < NPROC && c < NPROC
    requires AllSame(files, files') && Shared(slots, slots', p, c, FD_MAX)
    ensures Others(files, slots, files', slots', c)
  {
  }

  lemma SharedNone(slots: seq<int>, p: nat, c: nat)
    requires |slots| == NPROC * FD_MAX && p < NPROC && c < NPROC
    ensures Shared(slots, slots, p, c, 0)
  {
  }

  /** One more slot of the child. */
  lemma SharedStep(slots: seq<int>, slots': seq<int>, p: nat, c: nat, n: nat)
    requires |slots| == NPROC * FD_MAX && p < NPROC && c < NPROC && n < FD_MAX && p != c
    requires Shared(slots, slots', p, c, n)
    requires forall i :: c * FD_MAX <= i < (c + 1) * FD_MAX ==> slots[i] == NOFILE
    ensures slots'[p * FD_MAX + n] == slots[p * FD_MAX + n] && slots'[c * FD_MAX + n] == NOFILE
    ensures Shared(slots, slots'[c * FD_MAX + n := slots[p * FD_MAX + n]], p, c, n + 1)
    ensures slots[p * FD_MAX + n] == NOFILE ==> Shared(slots, slots', p, c, n + 1)
  {
    if slots[p * FD_MAX + n] == NOFILE { assert slots'[c * FD_MAX + n := NOFILE] == slots'; }
  }

  /** The file table, every process's descriptors and the pages of pipes. */
  class Table {
    var files: seq<File>
    /** Slot i of process p is at p * FD_MAX + i. */
    var slots: seq<int>
    var state: seq<State>
    var pipes: map<nat, Ends>
    /** Files that pipealloc left referenced but unnamed. */
    ghost var leaked: multiset<int>
    /** Every pipe page ever allocated, and every one freed. */
    ghost var made: multiset<nat>
    ghost var freed: multiset<nat>

    ghost predicate Valid()
      reads this
    {
      Inv(files, slots, leaked, pipes) && Holders(slots, state) && Paged(made, freed, pipes)
    }

    constructor ()
      ensures Valid() && made == multiset{} && leaked == multiset{}
      ensures |state| == NPROC && forall p :: 0 <= p < NPROC ==> state[p] == Unused
      ensures |files| == FILE_MAX && forall f :: 0 <= f < FILE_MAX ==> files[f].ref == 0
      ensures |slots| == NPROC * FD_MAX && forall i :: 0 <= i < |slots| ==> slots[i] == NOFILE
    {
      files := seq(FILE_MAX, i => File(FdNone, 0, false, false, 0));
      slots := seq(NPROC * FD_MAX, i => NOFILE);
      state := seq(NPROC, i => Unused);
      pipes := map[];
      leaked, made, freed := multiset{}, multiset{}, multiset{};
      new;
      assert forall f :: f >= 0 ==> f !in slots;
      assert forall f :: 0 <= f < |files| ==> Uses(slots, f) == 0;
    }

    method Filealloc() returns (f: int)
      requires |files| == FILE_MAX
      modifies `files
      ensures |files| == 2048 && if f == NOFILE then files == old(files) && !Free(files) else Free(old(files))
      ensures f != NOFILE ==>
          0 <= f < FILE_MAX && old(files)[f].ref == 0 && files == old(files)[f := old(files)[f].(ref := 1)]
      ensures f != NOFILE ==> forall g :: 0 <= g < f ==> old(files)[g].ref != 0
    {
      var i := 0;
      while i < FILE_MAX
        invariant 0 <= i <= FILE_MAX && files == old(files)
        invariant forall g :: 0 <= g < i ==> files[g].ref != 0
      {
        if files[i].ref == 0 {
          files := files[i := files[i].(ref := 1)];
          return i;
        }
        i := i + 1;
      }
      return NOFILE;
    }

    method Fdalloc(p: nat, f: int) returns (fd: int)
      requires |slots| == NPROC * FD_MAX && p < NPROC
      modifies `slots
      ensures if fd == NOFILE then slots == old(slots) && !FreeSlot(slots, p) else FreeSlot(old(slots), p)
      ensures fd != NOFILE ==>
          3 <= fd < 16 && old(slots)[p * 16 + fd] == NOFILE && slots == old(slots)[p * 16 + fd := f]
      ensures fd != NOFILE ==> FirstSlot(old(slots), p, p * FD_MAX + fd)
    {
      var i := 3;
      while i < FD_MAX
        invariant 3 <= i <= FD_MAX && slots == old(slots)
        invariant forall k :: p * FD_MAX + 3 <= k < p * FD_MAX + i ==> slots[k] != NOFILE
      {
        if slots[p * FD_MAX + i] == NOFILE {
          slots := slots[p * FD_MAX + i := f];
          return i;
        }
        i := i + 1;
      }
      return NOFILE;
    }

    method Pipeclose(id: nat, writable: bool)
      requires id in pipes && Paged(made, freed, pipes)
      modifies `pipes, `freed
      ensures var e := ClosedEnds(old(pipes)[id], writable);
              && pipes == (if !e.readopen && !e.writeopen then old(pipes) - {id} else old(pipes)[id := e])
              && freed == old(freed) + (if IsOpen(old(pipes)[id], !writable) then multiset{} else multiset{id})
      ensures Paged(made, freed, pipes)
    {
      PagedSet(made, freed, pipes, id, ClosedEnds(pipes[id], writable));
      pipes := pipes[id := ClosedEnds(pipes[id], writable)];
      if !pipes[id].readopen && !pipes[id].writeopen {
        PagedFree(made, freed, pipes, id);
        pipes := pipes - {id};
        freed := freed + multiset{id};
        assert pipes == old(pipes) - {id};
      }
    }

    method Fileclose(f: nat) returns (panicked: bool)
      requires |files| == FILE_MAX && f < FILE_MAX && Paged(made, freed, pipes)
      requires files[f].typ == FdPipe ==> files[f].pipe in pipes
      modifies `files, `pipes, `freed
      ensures panicked <==> old(files)[f].ref < 1
      ensures panicked ==> files == old(files) && pipes == old(pipes)
      ensures !panicked ==> files == ClosedFile(old(files), f) && pipes == ClosedPipes(old(files), old(pipes), f)
      ensures !panicked ==> freed == old(freed) + FreedBy(old(files), old(pipes), f)
      ensures Paged(made, freed, pipes) && (old(files)[f].typ != FdPipe ==> freed == old(freed) && pipes == old(pipes))
    {
      if files[f].ref < 1 {
        return true;
      }
      panicked := false;
      var x := files[f];
      files := files[f := x.(ref := x.ref - 1)];
      if files[f].ref > 0 {
        return;
      }
      if x.typ == FdPipe {
        Pipeclose(x.pipe, x.writable);
      }
      files := files[f := x.(ref := 0, typ := FdNone, readable := false, writable := false)];
    }

    /** fileopen once the path is resolved; truncate tells whether it calls itrunc. */
    method Open(p: nat, target: Target, wronly: bool, rdwr: bool, trunc: bool) returns (fd: int, truncate: bool, panicked: bool)
      requires Valid() && p < NPROC && state[p] == Alive
      modifies `files, `slots, `pipes, `freed
      ensures Valid() && freed == old(freed) && pipes == old(pipes)
      ensures (panicked <==> target == NotAFile) && (truncate <==> fd != NOFILE && trunc)
      ensures fd == NOFILE ==> files == old(files) && slots == old(slots)
      ensures fd != NOFILE <==> target == Plain && Free(old(files)) && FreeSlot(old(slots), p)
      ensures fd != NOFILE ==> 3 <= fd < FD_MAX && old(slots)[p * FD_MAX + fd] == NOFILE
      ensures fd != NOFILE ==> FirstSlot(old(slots), p, p * FD_MAX + fd)
      ensures fd != NOFILE ==> Opened(old(files), old(slots), files, slots, p * FD_MAX + fd, !wronly, wronly || rdwr)
      ensures Others(old(files), old(slots), files, slots, p)
    {
      hide Inv, Holders, Others, Opened, Paged, ClosedFile, ClosedPipes, FreedBy, Free, FreeSlot;
      Shape(files, slots, leaked, pipes, state, p);
      fd, truncate, panicked := NOFILE, false, false;
      if target == Missing {
        return;
      }
      if target == NotAFile {
        panicked := true;
        return;
      }
      var f := Filealloc();
      if f == NOFILE {
        return;
      }
      fd := NameFile(p, f, !wronly, wronly || rdwr, old(files));
      truncate := fd != NOFILE && trunc;
    }

    /** The rest of fileopen: file f, just taken from the table was, gets a descriptor, or goes back. */
    method NameFile(p: nat, f: nat, r: bool, w: bool, ghost was: seq<File>) returns (fd: int)
      requires Inv(was, slots, leaked, pipes) && Holders(slots, state) && Paged(made, freed, pipes)
      requires p < NPROC && state[p] == Alive && f < |was| && was[f].ref == 0 && files == was[f := was[f].(ref := 1)]
      requires FirstFree(was, f)
      modifies `files, `slots, `pipes, `freed
      ensures Valid() && freed == old(freed) && pipes == old(pipes)
      ensures fd == NOFILE ==> files == was && slots == old(slots)
      ensures fd != NOFILE <==> FreeSlot(old(slots), p)
      ensures fd != NOFILE ==> 3 <= fd < FD_MAX && old(slots)[p * FD_MAX + fd] == NOFILE
      ensures fd != NOFILE ==> FirstSlot(old(slots), p, p * FD_MAX + fd)
      ensures fd != NOFILE ==> Opened(was, old(slots), files, slots, p * FD_MAX + fd, r, w)
      ensures Others(was, old(slots), files, slots, p)
    {
      hide Inv, Holders, Others, Opened, Paged, ClosedFile, ClosedPipes, FreedBy, FreeSlot, FirstFree, FirstSlot;
      Shape(was, slots, leaked, pipes, state, p);
      UnusedFile(was, slots, leaked, pipes, f);
      fd := Fdalloc(p, f);
      if fd == NOFILE {
        var never := Fileclose(f);
        CloseBlank(was, f);
        return;
      }
      files := files[f := files[f].(typ := FdInode, readable := r, writable := w)];
      assert files == was[f := files[f]];
      ghost var i := p * FD_MAX + fd;
      MakeOpened(was, old(slots), f, i, r, w);
      assert files[f] == File(FdInode, 1, r, w, was[f].pipe);
      OpenKeeps(was, old(slots), leaked, pipes, f, p, i, files[f]);
      HoldersAt(old(slots), state, p, i, f);
    }

    /** sys_close: descriptor 0 is never closed. */
    method Close(p: nat, fd: nat)
      requires Valid() && p < NPROC && fd < FD_MAX && (fd == 0 || slots[p * FD_MAX + fd] != NOFILE)
      modifies `files, `slots, `pipes, `freed
      ensures Valid() && Others(old(files), old(slots), files, slots, p)
      ensures fd == 0 ==> files == old(files) && slots == old(slots) && pipes == old(pipes) && freed == old(freed)
      ensures fd != 0 ==> slots == old(slots)[p * FD_MAX + fd := NOFILE]
      ensures fd != 0 ==> Closed(old(files), old(pipes), old(slots)[p * FD_MAX + fd], files, pipes)
      ensures fd != 0 ==> freed == old(freed) + FreedBy(old(files), old(pipes), old(slots)[p * FD_MAX + fd])
    {
      Shape(files, slots, leaked, pipes, state, p);
      if fd == 0 {
        return;
      }
      CloseSlot(p, fd);
    }

    method CloseSlot(p: nat, fd: nat)
      requires Valid() && p < NPROC && fd < FD_MAX && slots[p * FD_MAX + fd] != NOFILE
      modifies `files, `slots, `pipes, `freed
      ensures Valid() && Others(old(files), old(slots), files, slots, p)
      ensures slots == old(slots)[p * FD_MAX + fd := NOFILE]
      ensures Closed(old(files), old(pipes), old(slots)[p * FD_MAX + fd], files, pipes)
      ensures freed == old(freed) + FreedBy(old(files), old(pipes), old(slots)[p * FD_MAX + fd])
    {
      hide Inv, Holders, Others, Paged, ClosedFile, ClosedPipes, FreedBy;
      ghost var i := p * FD_MAX + fd;
      Shape(files, slots, leaked, pipes, state, p);
      var f := slots[p * FD_MAX + fd];
      SlotCounts(files, slots, leaked, pipes, i);
      var panicked := Fileclose(f);
      slots := slots[p * FD_MAX + fd := NOFILE];
      CloseKeeps(old(files), old(slots), leaked, old(pipes), p, i);
      CloseOthers(old(files), old(slots), leaked, old(pipes), p, i);
      HoldersAt(old(slots), state, p, i, NOFILE);
    }

    /** exit's part of freeproc and after. */
    method Exit(p: nat, hasParent: bool)
      requires Valid() && p < NPROC && state[p] == Alive
      modifies `files, `slots, `pipes, `freed, `state
      ensures Valid() && Others(old(files), old(slots), files, slots, p)
      ensures forall i :: p * FD_MAX <= i < (p + 1) * FD_MAX ==> slots[i] == NOFILE
      ensures state == old(state)[p := if hasParent then Zombie else Unused]
    {
      hide Inv, Paged, Holders, ClosedFile, ClosedPipes;
      Shape(files, slots, leaked, pipes, state, p);
      var i := 0;
      while i < FD_MAX
        invariant 0 <= i <= FD_MAX && Valid() && state == old(state) && |slots| == NPROC * FD_MAX
        invariant Others(old(files), old(slots), files, slots, p)
        invariant forall k :: p * FD_MAX <= k < p * FD_MAX + i ==> slots[k] == NOFILE
      {
        if slots[p * FD_MAX + i] != NOFILE {
          CloseSlot(p, i);
        }
        i := i + 1;
      }
      HoldersState(slots, state, p, if hasParent then Zombie else Unused);
      state := state[p := if hasParent then Zombie else Unused];
    }

    /** The part of wait that takes a zombie. */
    method Reap(q: nat)
      requires Valid() && q < NPROC && state[q] == Zombie
      modifies `state
      ensures Valid() && state == old(state)[q := Unused]
    {
      state := state[q := Unused];
    }

    method Allocproc() returns (p: int)
      requires Valid()
      modifies `state
      ensures Valid()
      ensures p == NOFILE ==> state == old(state) && forall q :: 0 <= q < NPROC ==> state[q] != Unused
      ensures p != NOFILE ==> 0 <= p < NPROC && old(state)[p] == Unused && state == old(state)[p := Alive]
      ensures p != NOFILE ==> forall q :: 0 <= q < p ==> old(state)[q] != Unused
      ensures p != NOFILE ==> forall i :: p * FD_MAX <= i < (p + 1) * FD_MAX ==> slots[i] == NOFILE
    {
      hide Inv, Paged, Holders;
      Shape(files, slots, leaked, pipes, state, 0);
      var q := 0;
      while q < NPROC
        invariant 0 <= q <= NPROC && state == old(state)
        invariant forall k :: 0 <= k < q ==> state[k] != Unused
      {
        if state[q] == Unused {
          HoldersState(slots, state, q, Alive);
          state := state[q := Alive];
          return q;
        }
        q := q + 1;
      }
      return NOFILE;
    }

    /** sys_pipe's two calls of filealloc. */
    method TakeTwo() returns (f0: nat, f1: nat)
      requires |files| == FILE_MAX && TwoFree(files)
      modifies `files
      ensures f0 < f1 < FILE_MAX && FirstTwo(old(files), f0, f1)
      ensures files == old(files)[f0 := old(files)[f0].(ref := 1)][f1 := old(files)[f1].(ref := 1)]
    {
      ghost var a, b :| 0 <= a < b < |files| && files[a].ref == 0 && files[b].ref == 0;
      assert Free(files);
      var i := Filealloc();
      assert 0 <= i <= a && files[b].ref == 0;
      assert forall g :: 0 <= g <= i ==> files[g].ref != 0;
      ghost var mid := files;
      var j := Filealloc();
      forall k | 0 <= k < j && k != i ensures old(files)[k].ref != 0 { assert mid[k] == old(files)[k]; }
      f0, f1 := i, j;
    }

    /** sys_pipe's two calls of fdalloc. */
    method NameTwo(p: nat, f0: nat, f1: nat) returns (fd0: nat, fd1: nat)
      requires |slots| == NPROC * FD_MAX && p < NPROC && TwoFreeSlots(slots, p)
      modifies `slots
      ensures 3 <= fd0 < fd1 < FD_MAX && FirstSlots(old(slots), p, p * FD_MAX + fd0, p * FD_MAX + fd1)
      ensures slots == old(slots)[p * FD_MAX + fd0 := f0][p * FD_MAX + fd1 := f1]
    {
      ghost var c, d :| p * FD_MAX + 3 <= c < d < (p + 1) * FD_MAX && slots[c] == NOFILE && slots[d] == NOFILE;
      var i := Fdalloc(p, f0);
      assert 0 <= p * FD_MAX + i <= c && slots[d] == NOFILE;
      assert forall k :: p * FD_MAX + 3 <= k <= p * FD_MAX + i ==> slots[k] != NOFILE;
      ghost var mid, at := slots, p * FD_MAX;
      var j := Fdalloc(p, f1);
      forall k | at + 3 <= k < at + j && k != at + i ensures old(slots)[k] != NOFILE { assert mid[k] == old(slots)[k]; }
      fd0, fd1 := i, j;
    }

    /** pipealloc's tail and the two descriptors. */
    method NameEnds(p: nat, f0: nat, f1: nat, page: nat, ghost was: seq<File>) returns (fd0: nat, fd1: nat)
      requires Inv(was, slots, leaked, pipes) && Holders(slots, state) && Paged(made, freed, pipes)
      requires |was| == FILE_MAX && f0 < f1 < FILE_MAX && FirstTwo(was, f0, f1)
      requires files == was[f0 := was[f0].(ref := 1)][f1 := was[f1].(ref := 1)]
      requires |slots| == NPROC * FD_MAX && |state| == NPROC && p < NPROC && state[p] == Alive && TwoFreeSlots(slots, p)
      requires page !in pipes
      modifies `files, `slots, `pipes, `made
      ensures Valid() && Others(was, old(slots), files, slots, p)
      ensures pipes == old(pipes)[page := Ends(true, true)] && made == old(made) + multiset{page}
      ensures 3 <= fd0 < fd1 < FD_MAX && FirstSlots(old(slots), p, p * FD_MAX + fd0, p * FD_MAX + fd1)
      ensures slots == old(slots)[p * FD_MAX + fd0 := f0][p * FD_MAX + fd1 := f1]
      ensures files == was[f0 := File(FdPipe, 1, true, false, page)][f1 := File(FdPipe, 1, false, true, page)]
    {
      hide Inv, Holders, Others, Paged;
      files := files[f0 := ReadEnd(files[f0], page)][f1 := WriteEnd(files[f1], page)];
      PagedSet(made, freed, pipes, page, Ends(true, true));
      pipes := pipes[page := Ends(true, true)];
      made := made + multiset{page};
      fd0, fd1 := NameTwo(p, f0, f1);
      PipeKeeps(was, old(slots), leaked, old(pipes), f0, f1, p * FD_MAX + fd0, p * FD_MAX + fd1, page);
      assert files == was[f0 := ReadEnd(was[f0].(ref := 1), page)][f1 := WriteEnd(was[f1].(ref := 1), page)];
      PipeOthers(was, old(slots), leaked, old(pipes), f0, f1, p, p * FD_MAX + fd0, p * FD_MAX + fd1, files[f0], files[f1]);
      HoldersAt(old(slots), state, p, p * FD_MAX + fd0, f0);
      HoldersAt(old(slots)[p * FD_MAX + fd0 := f0], state, p, p * FD_MAX + fd1, f1);
    }

    /** sys_pipe: page is what kalloc returned, copied whether both copyouts of fd0 and fd1 succeeded. */
    method SysPipe(p: nat, page: int, copied: bool) returns (ok: bool, fd0: nat, fd1: nat)
      requires Valid() && p < NPROC && state[p] == Alive && TwoFree(files) && TwoFreeSlots(slots, p)
      requires page >= 0 ==> page !in pipes
      modifies `files, `slots, `pipes, `leaked, `made, `freed
      ensures Valid() && Others(old(files), old(slots), files, slots, p)
      ensures ok <==> page >= 0 && copied
      ensures ok ==>
          pipes == old(pipes)[page := Ends(true, true)] && freed == old(freed) && made == old(made) + multiset{page}
      ensures ok ==>
        && FirstSlots(old(slots), p, p * FD_MAX + fd0, p * FD_MAX + fd1)
        && Piped(old(files), old(slots), files, slots, p * FD_MAX + fd0, p * FD_MAX + fd1, page)
      ensures !ok ==> slots == old(slots) && pipes == old(pipes)
      ensures page < 0 ==>
        LostTwo(old(files), old(leaked), files, leaked) && made == old(made) && freed == old(freed)
      ensures page >= 0 ==> leaked == old(leaked)
      ensures page >= 0 && !copied ==>
        && Blanked(old(files), files, page)
        && made == old(made) + multiset{page} && freed == old(freed) + multiset{page}
    {
      hide Inv, Holders, Others, Paged, ClosedFile, ClosedPipes, Piped;
      Shape(files, slots, leaked, pipes, state, p);
      var f0, f1 := TakeTwo();
      if page < 0 {
        TwoSpare(old(files), slots, leaked, pipes, f0, f1, p);
        leaked := leaked + multiset{f0, f1};
        return false, 0, 0;
      }
      ok, fd0, fd1 := PipeTail(p, f0, f1, page, copied, old(files));
    }

    /** sys_pipe once both files and the page are there. */
    method PipeTail(p: nat, f0: nat, f1: nat, page: nat, copied: bool, ghost was: seq<File>) returns (ok: bool, fd0: nat, fd1: nat)
      requires Inv(was, slots, leaked, pipes) && Holders(slots, state) && Paged(made, freed, pipes)
      requires |was| == FILE_MAX && f0 < f1 < FILE_MAX && FirstTwo(was, f0, f1)
      requires files == was[f0 := was[f0].(ref := 1)][f1 := was[f1].(ref := 1)]
      requires |slots| == NPROC * FD_MAX && |state| == NPROC && p < NPROC && state[p] == Alive && TwoFreeSlots(slots, p)
      requires page !in pipes
      modifies `files, `slots, `pipes, `made, `freed
      ensures Valid() && Others(was, old(slots), files, slots, p) && ok == copied
      ensures ok ==>
          pipes == old(pipes)[page := Ends(true, true)] && freed == old(freed) && made == old(made) + multiset{page}
      ensures ok ==>
        && FirstSlots(old(slots), p, p * FD_MAX + fd0, p * FD_MAX + fd1)
        && Piped(was, old(slots), files, slots, p * FD_MAX + fd0, p * FD_MAX + fd1, page)
      ensures !ok ==>
        && slots == old(slots) && pipes == old(pipes) && Blanked(was, files, page)
        && made == old(made) + multiset{page} && freed == old(freed) + multiset{page}
    {
      hide Inv, Holders, Others, Paged, ClosedFile, ClosedPipes, Piped, TwoFreeSlots;
      ghost var slots0, pipes0 := slots, pipes;
      fd0, fd1 := NameEnds(p, f0, f1, page, was);
      if copied {
        MakePiped(was, slots0, f0, f1, p * FD_MAX + fd0, p * FD_MAX + fd1, page);
        return true, fd0, fd1;
      }
      ghost var mid, slots1 := files, slots;
      Unpipe(p, f0, f1, fd0, fd1, pipes0, page);
      OthersTrans(was, slots0, mid, slots1, files, slots, p);
      TwoBack(slots0, p * FD_MAX + fd0, p * FD_MAX + fd1, f0, f1);
      BothBlank(was, f0, f1, page);
      return false, fd0, fd1;
    }

    /** The part of sys_pipe that undoes a pipe the caller could not be told about. */
    method Unpipe(p: nat, f0: nat, f1: nat, fd0: nat, fd1: nat, ghost was: map<nat, Ends>, page: nat)
      requires Valid() && p < NPROC && f0 < FILE_MAX && f1 < FILE_MAX
      requires f0 != f1 && fd0 < FD_MAX && fd1 < FD_MAX && fd0 != fd1
      requires slots[p * FD_MAX + fd0] == f0 && slots[p * FD_MAX + fd1] == f1
      requires IsEnd(files[f0], page, false) && IsEnd(files[f1], page, true) && files[f0].ref == 1 && files[f1].ref == 1
      requires page !in was && pipes == was[page := Ends(true, true)]
      modifies `files, `slots, `pipes, `freed
      ensures Valid() && Others(old(files), old(slots), files, slots, p)
      ensures slots == old(slots)[p * FD_MAX + fd0 := NOFILE][p * FD_MAX + fd1 := NOFILE]
      ensures pipes == was && freed == old(freed) + multiset{page}
      ensures files == ClosedFile(ClosedFile(old(files), f0), f1)
    {
      hide Inv, Holders, Paged, Others, FreedBy, ClosedPipes;
      Shape(files, slots, leaked, pipes, state, p);
      ghost var i0, i1 := p * FD_MAX + fd0, p * FD_MAX + fd1;
      CloseKeeps(files, slots, leaked, pipes, p, i0);
      CloseOthers(files, slots, leaked, pipes, p, i0);
      ghost var files1, slots1, pipes1 := ClosedFile(files, f0), slots[i0 := NOFILE], ClosedPipes(files, pipes, f0);
      CloseKeeps(files1, slots1, leaked, pipes1, p, i1);
      CloseOthers(files1, slots1, leaked, pipes1, p, i1);
      CloseBoth(files, was, f0, f1, page);
      HoldersAt(slots, state, p, i0, NOFILE);
      HoldersAt(slots1, state, p, i1, NOFILE);
      OthersTrans(files, slots, files1, slots1, ClosedFile(files1, f1), slots1[i1 := NOFILE], p);
      var panicked := Fileclose(f0);
      panicked := Fileclose(f1);
      slots := slots[p * FD_MAX + fd0 := NOFILE][p * FD_MAX + fd1 := NOFILE];
    }

    /** The descriptor part of fork.  With the pool full, fork goes on with the caller itself, whose memory cannot be
        copied onto itself; otherwise copied tells whether uvmcopy into the child succeeded. */
    method Fork(p: nat, copied: bool) returns (np: nat)
      requires Valid() && p < NPROC && state[p] == Alive
      modifies `files, `slots, `state
      ensures Valid() && np < NPROC && Others(old(files), old(slots), files, slots, np) && AllSame(old(files), files)
      ensures
        if forall q :: 0 <= q < NPROC ==> old(state)[q] != Unused then
          np == p && files == old(files) && slots == old(slots) && state == old(state)
        else
          && old(state)[np] == Unused && (forall q :: 0 <= q < np ==> old(state)[q] != Unused) && state == old(state)[np := Alive]
          && if copied then Shared(old(slots), slots, p, np, FD_MAX) else files == old(files) && slots == old(slots)
    {
      hide Inv, Holders, Others, Paged, Shared;
      Shape(files, slots, leaked, pipes, state, p);
      var a := Allocproc();
      if a == NOFILE {
        return p;
      }
      np := a;
      Shape(files, slots, leaked, pipes, state, np);
      if !copied {
        return;
      }
      CopySlots(p, np);
      SharedOthers(old(files), old(slots), files, slots, p, np);
    }

    method CopySlots(p: nat, np: nat)
      requires Valid() && p < NPROC && np < NPROC && p != np && state[np] == Alive && |slots| == NPROC * FD_MAX
      requires forall i :: np * FD_MAX <= i < (np + 1) * FD_MAX ==> slots[i] == NOFILE
      modifies `files, `slots
      ensures Valid() && AllSame(old(files), files) && Shared(old(slots), slots, p, np, FD_MAX)
    {
      hide Inv, Holders, Others, Paged, Shared;
      SharedNone(slots, p, np);
      var i := 0;
      while i < FD_MAX
        invariant 0 <= i <= FD_MAX && Valid() && AllSame(old(files), files) && |slots| == NPROC * FD_MAX
        invariant Shared(old(slots), slots, p, np, i)
      {
        Shape(files, slots, leaked, pipes, state, p);
        SharedStep(old(slots), slots, p, np, i);
        var f := slots[p * FD_MAX + i];
        if f != NOFILE {
          SlotCounts(files, slots, leaked, pipes, p * FD_MAX + i);
          if files[f].typ != FdNone {
            ShareKeeps(files, slots, leaked, pipes, p * FD_MAX + i, np, np * FD_MAX + i);
            HoldersAt(slots, state, np, np * FD_MAX + i, f);
            files := files[f := files[f].(ref := files[f].ref + 1)];
            slots := slots[np * FD_MAX + i := f];
          }
        }
        i := i + 1;
      }
    }

    ghost function Now(): Snap
      reads this
    {
      Snap(files, slots, state, pipes, leaked, made, freed)
    }

    /** The operations are steps of the transition system. */
    method Step(p: nat, op: Op)
      requires Valid() && Ready(Now(), p, op)
      modifies this
      ensures Valid() && Next(old(Now()), p, op, Now())
    {
      hide Valid, ReadyIn, Next, Effect;
      if op.MakePipe? {
        StepPipe(p, op);
      } else if op.Open? || op.Close? {
        StepFiles(p, op);
      } else {
        StepProcesses(p, op);
      }
    }

    method StepFiles(p: nat, op: Op)
      requires Valid() && Ready(Now(), p, op) && (op.Open? || op.Close?)
      modifies this
      ensures Valid() && Next(old(Now()), p, op, Now())
    {
      hide Inv, Holders, Others, Paged, Closed, Opened, Piped, Free, FreeSlot, TwoFree, TwoFreeSlots, Local;
      ghost var a := Now();
      match op {
      case Open(target, wronly, rdwr) =>
        var fd, t, panicked := Open(p, target, wronly, rdwr, false);
        assert fd != NOFILE ==> OpenedBy(a, p, Now(), !wronly, wronly || rdwr);
      case Close(fd) => Close(p, fd);
      }
      Shape(files, slots, leaked, pipes, state, p);
      OthersLocal(a, p, p, Now());
    }

    method StepPipe(p: nat, op: Op)
      requires Valid() && Ready(Now(), p, op) && op.MakePipe?
      modifies this
      ensures Valid() && Next(old(Now()), p, op, Now())
    {
      hide Inv, Holders, Others, Paged, Piped, Blanked, LostTwo, TwoFree, TwoFreeSlots, Local, FirstSlots;
      ghost var a := Now();
      var ok, fd0, fd1 := SysPipe(p, op.page, op.copied);
      Shape(files, slots, leaked, pipes, state, p);
      OthersLocal(a, p, p, Now());
      LostMore(a.files, a.spare, files, leaked);
    }

    method StepProcesses(p: nat, op: Op)
      requires Valid() && Ready(Now(), p, op) && (op.Start? || op.Fork? || op.Exit? || op.Reap?)
      modifies this
      ensures Valid() && Next(old(Now()), p, op, Now())
    {
      hide Inv, Holders, Others, Paged, Shared, AllSame, Local;
      ghost var a := Now();
      Shape(files, slots, leaked, pipes, state, p);
      ghost var q: nat := p;
      match op {
      case Start =>
        var c := Allocproc();
        q := c;
        assert FirstUnused(a.state, c);
        Shape(files, slots, leaked, pipes, state, q);
      case Fork(copied) =>
        var c := Fork(p, copied);
        q := c;
        assert a.state[c] == Unused ==> Forked(a, p, copied, c, Now());
      case Exit(hasParent) => Exit(p, hasParent);
      case Reap(child) => Reap(child);
      }
      OthersLocal(a, p, q, Now());
    }

    /** Any operations by any processes, in any order: the machine's run is one of the transition system. */
    method Run(ops: seq<(nat, Op)>) returns (ghost trace: seq<Snap>)
      requires Valid()
      modifies this
      ensures Valid() && IsRun(trace, ops) && trace[0] == old(Now()) && trace[|ops|] == Now()
    {
      hide Inv, Holders, Paged, ReadyIn, Next;
      trace := [Now()];
      var k := 0;
      while k < |ops|
        invariant 0 <= k <= |ops| && Valid() && |trace| == k + 1 && trace[0] == old(Now()) && trace[k] == Now()
        invariant forall j :: 0 <= j < k ==> Next(trace[j], ops[j].0, ops[j].1, trace[j + 1])
      {
        ghost var s := Now();
        if ReadyIn(files, slots, state, pipes, ops[k].0, ops[k].1) {
          Step(ops[k].0, ops[k].1);
        } else {
          NoStep(s, ops[k].0, ops[k].1);
        }
        trace := trace + [Now()];
        k := k + 1;
      }
    }
  }

  lemma LostMore(files: seq<File>, spare: multiset<int>, files': seq<File>, spare': multiset<int>)
    ensures LostTwo(files, spare, files', spare') ==> spare < spare'
  {
  }

  lemma NoStep(s: Snap, p: nat, op: Op)
    requires !Ready(s, p, op)
    ensures Next(s, p, op, s)
  {
  }

  lemma TwoSlots(slots: seq<int>, p: nat, i: nat, j: nat)
    requires |slots| == NPROC * FD_MAX && p < NPROC && p * FD_MAX + 3 <= i < j < (p + 1) * FD_MAX
    requires slots[i] == NOFILE && slots[j] == NOFILE
    ensures TwoFreeSlots(slots, p)
  {
  }

  /** The smallest run after which the counts are not the descriptor slots: one process, one sys_pipe for which
      there is no page. */
  method StarvedPipe() returns (files: seq<File>, slots: seq<int>)
    ensures exists f :: 0 <= f < |files| && files[f].ref != Uses(slots, f)
  {
    hide Inv, Holders, Paged, Others;
    var t := new Table();
    assert t.state[0] == Unused;
    var p := t.Allocproc();
    assert t.files[0].ref == 0 && t.files[1].ref == 0;
    assert t.slots[p * FD_MAX + 3] == NOFILE && t.slots[p * FD_MAX + 4] == NOFILE;
    TwoSlots(t.slots, p, p * FD_MAX + 3, p * FD_MAX + 4);
    var ok, fd0, fd1 := t.SysPipe(p, -1, false);
    SpareMeans(t.Now());
    files, slots := t.files, t.slots;
  }
}
