/** The page allocator and the virtual memory system (os/kernel/kalloc.c, os/kernel/vm.c). */
module VirtualMemory {
  import opened Bytes
  import opened PageTable

  const MAXVA: nat := 0x40_0000_0000
  const PTE_RWXU: nat := 30

  function Junk(b: byte): Page {
    seq(PGSIZE, _ => b)
  }

  /** What kalloc and kfree fill pages with. */
  ghost predicate AllBytes(pg: Page, from: nat, b: byte) {
    forall k :: from <= k < 4096 ==> pg[k] == b
  }

  /** PGROUNDUP(sz) / PGSIZE */
  function PagesUp(sz: nat): nat { (sz + PGSIZE - 1) / PGSIZE }

  /** The link stored in the first word of a free page. */
  function LinkOf(pg: Page): nat { GetLE(pg, 0, 8) }

  /** Following the links from head visits exactly the pages of free, in this order. */
  ghost predicate FreeList(mem: Mem, head: nat, free: seq<nat>)
    decreases |free|
  {
    if free == [] then head == 0
    else
      && free[0] in mem && 0 < free[0] && head == PGSIZE * free[0]
      && free[0] !in free[1..]
      && FreeList(mem, LinkOf(mem[free[0]]), free[1..])
  }

  lemma FreeListEmpty(mem: Mem)
    ensures FreeList(mem, 0, [])
  {
  }

  lemma AllFree(lo: nat, hi: nat, free: seq<nat>)
    requires lo <= hi && |free| == hi - lo && forall k :: 0 <= k < |free| ==> free[k] == hi - 1 - k
    ensures Partition(lo, hi, free, {})
  {
    forall p | lo <= p < hi
      ensures p in free
    {
      assert free[hi - 1 - p] == p;
    }
  }

  lemma NoTrees(mem: Mem)
    ensures Trees(mem, map[])
  {
  }

  lemma {:induction false} FreeListFrame(mem: Mem, mem': Mem, head: nat, free: seq<nat>)
    requires FreeList(mem, head, free)
    requires forall p :: p in free && p in mem ==> p in mem' && mem'[p] == mem[p]
    ensures FreeList(mem', head, free)
    decreases |free|
  {
    if free != [] {
      FreeListFrame(mem, mem', LinkOf(mem[free[0]]), free[1..]);
    }
  }

  /** Every page the allocator manages is either free, once, or in use. */
  ghost predicate Partition(lo: nat, hi: nat, free: seq<nat>, use: set<nat>) {
    && (forall p :: p in use ==> lo <= p < hi)
    && (forall p :: p in free ==> lo <= p < hi && p !in use)
    && (forall p :: lo <= p < hi ==> p in use || p in free)
  }

  /** The tables, and so every translation, are as before. */
  ghost predicate SameTables(mem: Mem, use: Roles, mem': Mem, use': Roles) {
    && (forall q :: LevelOf(use', q) == LevelOf(use, q))
    && (forall r, v :: LevelOf(use, r) == 2 ==> Leaf(mem', r, v) == Leaf(mem, r, v))
    && (forall r, v :: LevelOf(use, r) == 2 ==> LowOf(mem', r, v) == LowOf(mem, r, v))
    && (forall r, v :: LevelOf(use, r) == 2 ==> MidOf(mem', r, v) == MidOf(mem, r, v))
  }

  lemma PopPartition(lo: nat, hi: nat, mem: Mem, head: nat, free: seq<nat>, use: set<nat>)
    requires Partition(lo, hi, free, use) && FreeList(mem, head, free) && free != []
    ensures lo <= free[0] < hi && free[0] !in use && free[0] !in free[1..] && free[0] in mem
    ensures Partition(lo, hi, free[1..], use + {free[0]})
  {
    assert free == [free[0]] + free[1..];
    assert free[0] in free && forall p :: p in free[1..] ==> p in free;
  }

  lemma PushPartition(lo: nat, hi: nat, free: seq<nat>, use: set<nat>, p: nat)
    requires Partition(lo, hi, free, use) && p in use
    ensures Partition(lo, hi, [p] + free, use - {p}) && p !in free
  {
  }

  lemma InUseNotFree(lo: nat, hi: nat, free: seq<nat>, use: set<nat>, p: nat)
    requires Partition(lo, hi, free, use) && p in use
    ensures p !in free
  {
  }

  class Machine {
    /** The managed pages, from PGROUNDUP(ekernel) to PHYSTOP. */
    const lo: nat
    const hi: nat
    var mem: Mem
    /** Physical address of the first free page, or 0. */
    var freelist: nat
    ghost var free: seq<nat>
    ghost var use: Roles

    ghost predicate Sound()
      reads this
    {
      && 0 < lo <= hi <= UINT64 / PGSIZE
      && (forall p :: lo <= p < hi ==> p in mem)
      && FreeList(mem, freelist, free)
      && Partition(lo, hi, free, use.Keys)
    }

    ghost predicate Valid()
      reads this
    {
      Sound() && Trees(mem, use)
    }

    // ---------- kalloc.c ----------

    /** kinit: every page of [lo, hi) is freed, in order of address. Until then they are in
        nobody's hands. */
    constructor (lo: nat, hi: nat, m: Mem)
      requires 0 < lo <= hi <= UINT64 / PGSIZE
      requires forall p :: lo <= p < hi ==> p in m
      ensures Valid() && this.lo == lo && this.hi == hi && use == map[] && |free| == hi - lo
    {
      this.lo := lo;
      this.hi := hi;
      mem := m;
      freelist := 0;
      free := [];
      use := map[];
      new;
      Freerange();
      NoTrees(mem);
    }

    /** freerange, on a list that is still empty. */
    method Freerange()
      requires 0 < lo <= hi <= UINT64 / PGSIZE && freelist == 0 && free == [] && use == map[]
      requires forall p :: lo <= p < hi ==> p in mem
      modifies this`mem, this`freelist, this`free
      ensures Sound() && |free| == hi - lo && mem.Keys == old(mem).Keys
    {
      hide FreeList, Partition;
      FreeListEmpty(mem);
      var p := lo;
      while p + 1 <= hi
        invariant lo <= p <= hi && |free| == p - lo && mem.Keys == old(mem).Keys
        invariant forall k :: 0 <= k < |free| ==> free[k] == p - 1 - k
        invariant FreeList(mem, freelist, free) && freelist < UINT64
      {
        Link(p);
        p := p + 1;
      }
      AllFree(lo, hi, free);
      assert use.Keys == {};
    }

    /** The body of kfree: fill the page with junk and push it on the list. */
    method Link(p: nat)
      requires p in mem && 0 < p < UINT64 / PGSIZE && p !in free && FreeList(mem, freelist, free)
      requires freelist < UINT64
      modifies this`mem, this`freelist, this`free
      ensures free == [p] + old(free) && FreeList(mem, freelist, free) && freelist < UINT64
      ensures mem.Keys == old(mem).Keys && forall q :: q in mem && q != p ==> mem[q] == old(mem)[q]
      ensures p in mem && AllBytes(mem[p], 8, 1)
    {
      hide GetLE, PutLE;
      var pg := PutLE(Junk(1), 0, 8, freelist);
      assert Pow256(8) == UINT64;
      GetPutSame(Junk(1), 0, 8, freelist);
      FreeListFrame(mem, mem[p := pg], freelist, free);
      mem := mem[p := pg];
      freelist := PGSIZE * p;
      free := [p] + free;
    }

    /** kfree of a page in use that is no table; its address checks cannot fail for such a page. */
    method Kfree(pa: nat)
      requires Sound() && pa % PGSIZE == 0 && pa / PGSIZE in use && LevelOf(use, pa / PGSIZE) == 3
      modifies this`mem, this`freelist, this`free, this`use
      ensures Sound() && free == [pa / PGSIZE] + old(free) && use == old(use) - {pa / PGSIZE}
      ensures pa / PGSIZE in mem && mem == old(mem)[pa / PGSIZE := mem[pa / PGSIZE]] && mem.Keys == old(mem).Keys
      ensures AllBytes(mem[pa / PGSIZE], 8, 1)
    {
      hide Trees, Leaf, LowOf, FreeList;
      var p := pa / PGSIZE;
      HeadBound(mem, freelist, free);
      PushPartition(lo, hi, free, use.Keys, p);
      ghost var mem0 := mem;
      Link(p);
      assert mem == mem0[p := mem[p]];
      use := use - {p};
    }

    /** kfree of a page nothing points to. */
    method Discard(pa: nat)
      requires Valid() && pa % PGSIZE == 0 && pa / PGSIZE in use && use[pa / PGSIZE] == Other
      modifies this`mem, this`freelist, this`free, this`use
      ensures Valid() && free == [pa / PGSIZE] + old(free) && use == old(use) - {pa / PGSIZE}
      ensures mem.Keys == old(mem).Keys && forall q :: q in mem && q != pa / PGSIZE ==> mem[q] == old(mem)[q]
      ensures SameTables(old(mem), old(use), mem, use)
    {
      hide Trees, Leaf, LowOf, Sound;
      var p := pa / PGSIZE;
      ghost var mem0, use0 := mem, use;
      Kfree(pa);
      DropOther(mem0, use0, p);
      ChangeNonTable(mem0, use, p, mem[p]);
    }

    lemma HeadBound(m: Mem, head: nat, fs: seq<nat>)
      requires FreeList(m, head, fs) && forall p :: p in fs ==> p < UINT64 / PGSIZE
      ensures head < UINT64
    {
      assert fs != [] ==> fs[0] in fs;
    }

    /** kalloc: 0 exactly when no page is free. */
    method Kalloc() returns (pa: nat)
      requires Valid()
      modifies this`mem, this`freelist, this`free, this`use
      ensures Valid() && mem.Keys == old(mem).Keys
      ensures pa == 0 <==> old(free) == []
      ensures pa == 0 ==> mem == old(mem) && freelist == old(freelist) && free == old(free) && use == old(use)
      ensures pa != 0 ==>
        && pa % PGSIZE == 0 && pa / PGSIZE == old(free)[0] && free == old(free)[1..]
        && pa / PGSIZE !in old(use) && use == old(use)[pa / PGSIZE := Other] && lo <= pa / PGSIZE < hi
        && (forall q :: q in mem && q != pa / PGSIZE ==> mem[q] == old(mem)[q])
        && pa / PGSIZE in mem && AllBytes(mem[pa / PGSIZE], 0, 5)
      ensures SameTables(old(mem), old(use), mem, use)
    {
      hide Trees, Leaf, LowOf, GetLE, Partition;
      pa := freelist;
      if pa == 0 {
        return;
      }
      var p := pa / PGSIZE;
      PopPartition(lo, hi, mem, freelist, free, use.Keys);
      ghost var mem0, use0 := mem, use;
      freelist := LinkOf(mem[p]);
      mem := mem[p := Junk(5)];
      free := free[1..];
      use := use[p := Other];
      assert use.Keys == use0.Keys + {p};
      TakeOther(mem0, use0, p);
      ChangeNonTable(mem0, use, p, Junk(5));
      FreeListFrame(mem0, mem, freelist, free);
    }

    /** A page that is no table is overwritten by its owner. */
    method SetPage(p: nat, pg: Page)
      requires Valid() && p in use && LevelOf(use, p) == 3
      modifies this`mem
      ensures Valid() && mem == old(mem)[p := pg]
      ensures SameTables(old(mem), use, mem, use)
    {
      hide Trees, Leaf, LowOf, MidOf, FreeList, Partition;
      ChangeNonTable(mem, use, p, pg);
      InUseNotFree(lo, hi, free, use.Keys, p);
      FreeListFrame(mem, mem[p := pg], freelist, free);
      mem := mem[p := pg];
    }

    // ---------- walk ----------

    /** One level of walk: the table below entry i of table p, created if absent and alloc; 0 if none. */
    method Descend(p: nat, i: nat, alloc: bool) returns (c: nat)
      requires Valid() && 1 <= LevelOf(use, p) <= 2 && i < NPTE
      modifies this`mem, this`freelist, this`free, this`use
      ensures Valid() && mem.Keys == old(mem).Keys
      ensures c == 0 ==> Unchanged(old(mem), old(freelist), old(free), old(use))
      ensures c == 0 ==> Next(mem, p, i) == 0 && (alloc ==> free == [])
      ensures c != 0 ==> c == Next(mem, p, i) && LevelOf(use, c) == LevelOf(use, p) - 1
      ensures (Next(old(mem), p, i) != 0 || !alloc) ==>
                c == Next(old(mem), p, i) && Unchanged(old(mem), old(freelist), old(free), old(use))
      ensures Next(old(mem), p, i) == 0 && c != 0 ==>
        && |free| + 1 == |old(free)| && NextsKept(old(mem), old(use), mem, p, i) && forall j :: Next(mem, c, j) == 0
      ensures Grown(old(mem), old(use), mem, use)
    {
      hide Trees, Leaf, LowOf, MidOf, Pte, Grown, Sound, NextsKept;
      NextLevel(mem, use, p, i);
      GrownRefl(mem, use);
      if IsValid(Ent(mem, p, i)) {
        return Target(Ent(mem, p, i));
      }
      if !alloc {
        return 0;
      }
      c := NewTable(p, i);
    }

    /** walk's kalloc, memset and store of the new entry. */
    method NewTable(p: nat, i: nat) returns (c: nat)
      requires Valid() && 1 <= LevelOf(use, p) <= 2 && i < NPTE && !IsValid(Ent(mem, p, i))
      modifies this`mem, this`freelist, this`free, this`use
      ensures Valid() && mem.Keys == old(mem).Keys
      ensures c == 0 ==> Unchanged(old(mem), old(freelist), old(free), old(use)) && free == []
      ensures c != 0 ==> c == Next(mem, p, i) && LevelOf(use, c) == LevelOf(use, p) - 1
      ensures c != 0 ==>
        |free| + 1 == |old(free)| && NextsKept(old(mem), old(use), mem, p, i) && forall j :: Next(mem, c, j) == 0
      ensures Grown(old(mem), old(use), mem, use)
    {
      hide Trees, Leaf, LowOf, MidOf, Ent, Sound, MakePte, Grown, NextsKept, SameTables, Next;
      ghost var mem0, use0 := mem, use;
      GrownRefl(mem, use);
      AllInMemory(mem, use);
      var pa := NewFrame(Zeros(PGSIZE));
      if pa == 0 {
        return 0;
      }
      c := pa / PGSIZE;
      SoundBounds();
      SameLevels(mem0, use0, mem, use);
      SameEnt(mem0, mem, p, i);
      ghost var mem1, use1 := mem, use;
      HangTable(p, i, c);
      NewNexts(mem0, use0, mem1, mem, p, i, c);
      NodeGrown(mem0, use0, mem1, use1, mem, use, p, c);
    }

    /** The new table, all zeros, is hung below entry i of table p. */
    method HangTable(p: nat, i: nat, c: nat)
      requires Valid() && 1 <= LevelOf(use, p) <= 2 && i < NPTE && !IsValid(Ent(mem, p, i))
      requires c in use && use[c] == Other && c in mem && mem[c] == Zeros(PGSIZE) && c < UINT64 / 2048
      modifies this`mem, this`use
      ensures Valid() && mem.Keys == old(mem).Keys && c == Next(mem, p, i)
      ensures p in old(mem) && mem == SetEnt(old(mem), p, i, MakePte(c, 0))
      ensures forall q :: q in mem && q != p ==> mem[q] == old(mem)[q]
      ensures use == old(use)[c := ChildRole(LevelOf(old(use), p), p, i)]
      ensures forall r, v :: LevelOf(old(use), r) == 2 ==> Leaf(mem, r, v) == Leaf(old(mem), r, v)
      ensures forall r, v :: LevelOf(old(use), r) == 2 && LowOf(old(mem), r, v) != 0 ==> LowOf(mem, r, v) == LowOf(old(mem), r, v)
    {
      hide Trees, Leaf, LowOf, MidOf, Pte, WithPte, SetEnt, FreeList, Partition, MakePte;
      forall j | 0 <= j < NPTE
        ensures Ent(mem, c, j) == 0
      {
        PteZero(j);
      }
      AddNode(mem, use, p, i, c);
      ghost var use1 := use;
      use := use[c := ChildRole(LevelOf(use, p), p, i)];
      assert use.Keys == use1.Keys;
      InMemory(mem, use1, p);
      KeysSet(mem, p, i, MakePte(c, 0));
      StoreEntry(p, i, MakePte(c, 0));
    }

    /** *pte = e, for an entry of a page in use. */
    method StoreEntry(p: nat, i: nat, e: nat)
      requires Sound() && p in use && p in mem
      modifies this`mem
      ensures Sound() && mem == SetEnt(old(mem), p, i, e)
    {
      hide WithPte;
      FreeListFrame(mem, SetEnt(mem, p, i, e), freelist, free);
      mem := SetEnt(mem, p, i, e);
    }

    ghost predicate Unchanged(m: Mem, fl: nat, fr: seq<nat>, u: Roles)
      reads this
    {
      mem == m && freelist == fl && free == fr && use == u
    }

    /** walk: the level-0 table and index of the entry for va, or table 0 for a null result. */
    method Walk(pt: nat, va: nat, alloc: bool) returns (l: nat, i: nat)
      requires Valid() && LevelOf(use, pt) == 2 && va < MAXVA
      modifies this`mem, this`freelist, this`free, this`use
      ensures Valid() && mem.Keys == old(mem).Keys && Grown(old(mem), old(use), mem, use)
      ensures l != 0 ==> l == LowOf(mem, pt, va / PGSIZE) && i == Px(0, va / PGSIZE) && LevelOf(use, l) == 0
      ensures l == 0 && alloc ==> free == []
      ensures l != 0 && alloc ==>
        && |free| + NewTables(old(mem), pt, va / PGSIZE, va / PGSIZE) == |old(free)|
        && Reached(old(mem), mem, pt, va / PGSIZE, 1)
      ensures l == 0 && alloc ==> |old(free)| < NewTables(old(mem), pt, va / PGSIZE, va / PGSIZE)
      ensures !alloc ==> l == LowOf(mem, pt, va / PGSIZE) && Unchanged(old(mem), old(freelist), old(free), old(use))
    {
      hide Trees, Leaf, Ent, Next, Grown, Sound, LowOf, MidOf, Progress, Added, NextsKept, Px, Reached, NewTables;
      var v := va / PGSIZE;
      var p, level := pt, 2;
      ProgressNone(mem, pt, v);
      ghost var m := 0;
      GrownRefl(mem, use);
      while level > 0
        invariant 0 <= level <= 2 && Valid() && mem.Keys == old(mem).Keys && Grown(old(mem), old(use), mem, use)
        invariant LevelOf(use, p) == level && (level == 2 ==> p == pt)
        invariant level == 1 ==> use[p] == Mid(pt, Px(2, v))
        invariant level == 0 ==> m in use && use[m] == Mid(pt, Px(2, v)) && use[p] == Low(m, Px(1, v))
        invariant !alloc ==> Unchanged(old(mem), old(freelist), old(free), old(use))
        invariant Progress(old(mem), mem, pt, v, level) && |free| + Added(old(mem), pt, v, level) == |old(free)|
        invariant (level == 1 ==> p == MidOf(mem, pt, v)) && LevelOf(use, pt) == 2
      {
        ghost var mem1, use1, p1 := mem, use, p;
        PxTwo(v);
        var c := Descend(p, Px(level, v), alloc);
        ProgressStep(old(mem), mem1, use1, mem, pt, v, level, p, c);
        GrownTrans(old(mem), old(use), mem1, use1, mem, use);
        GrownRole(mem1, use1, mem, use, p1);
        GrownRole(mem1, use1, mem, use, pt);
        if c == 0 {
          if !alloc {
            WalkFails(mem, use, pt, v, p, level);
          }
          return 0, 0;
        }
        NextLevel(mem, use, p, Px(level, v));
        m := if level == 1 then p else m;
        p := c;
        level := level - 1;
      }
      RoleLow(mem, use, pt, v, m, p);
      ProgressDone(old(mem), mem, pt, v);
      return p, Px(0, v);
    }

    // ---------- mapping ----------

    /** One round of the loop of mappages: maps virtual page va / PGSIZE to page n. With take, page
        n was Other and becomes the frame of that mapping. */
    method MapOne(pt: nat, va: nat, n: nat, perm: nat, ghost take: bool) returns (ok: bool)
      requires Valid() && LevelOf(use, pt) == 2 && va < MAXVA && n < UINT64 / 2048
      requires perm < 1024 && Rwx(perm) != 0 && (IsUser(perm) ==> take)
      requires take ==> n in use && use[n] == Other
      modifies this`mem, this`freelist, this`free, this`use
      ensures Valid() && mem.Keys == old(mem).Keys
      ensures ok ==> !IsValid(Leaf(old(mem), pt, va / PGSIZE))
      ensures ok ==> Mapped(old(mem), old(use), mem, use, pt, va / PGSIZE, 1, n, perm, take)
      ensures !ok ==> Grown(old(mem), old(use), mem, use) && (free == [] || IsValid(Leaf(old(mem), pt, va / PGSIZE)))
      ensures ok <==>
        && NewTables(old(mem), pt, va / PGSIZE, va / PGSIZE) <= |old(free)|
        && !IsValid(Leaf(old(mem), pt, va / PGSIZE))
      ensures ok ==>
        && |free| + NewTables(old(mem), pt, va / PGSIZE, va / PGSIZE) == |old(free)|
        && Reached(old(mem), mem, pt, va / PGSIZE, 1)
    {
      hide Trees, Leaf, Ent, Grown, LowOf, MidOf, NewTables, Reached, MakePte, SetEnt, Px, FreeList, Partition;
      var v := va / PGSIZE;
      ghost var mem0, use0 := mem, use;
      var l, i := Walk(pt, va, true);
      if l == 0 {
        return false;
      }
      LeafIs(mem, pt, v, l, i);
      GrownLeaf(mem0, use0, mem, use, pt, v);
      if IsValid(Ent(mem, l, i)) {
        return false;
      }
      ghost var mem1, use1 := mem, use;
      GrownRole(mem0, use0, mem, use, pt);
      if take {
        GrownRole(mem0, use0, mem, use, n);
      }
      MakePteFits(n, perm);
      MakePteParts(n, perm);
      InMemory(mem, use, l);
      PxBound(v);
      SetLeaf(mem, use, l, i, MakePte(n, perm), take);
      KeysSet(mem, l, i, MakePte(n, perm));
      StoreEntry(l, i, MakePte(n, perm));
      use := if take then use[n := Frame(l, i)] else use;
      assert use.Keys == use1.Keys;
      MappedFrom(mem0, use0, mem1, use1, mem, use, pt, v, l, n, perm, take);
      LeafStoreKeeps(mem1, use1, l, i, MakePte(n, perm), pt);
      MappedReached(mem0, mem1, use1, mem, pt, v, l, i, MakePte(n, perm));
      return true;
    }

    /** mappages. k is how many pages were mapped before it returned. */
    method Mappages(pt: nat, va: nat, size: nat, pa: nat, perm: nat, ghost take: bool) returns (r: int, ghost k: nat)
      requires Valid() && LevelOf(use, pt) == 2 && 0 < size && va + size <= MAXVA && pa + size <= UINT64
      requires perm < 1024 && Rwx(perm) != 0 && (IsUser(perm) ==> take)
      requires take ==> forall j :: pa / PGSIZE <= j <= pa / PGSIZE + (va + size - 1) / PGSIZE - va / PGSIZE ==>
                 j in use && use[j] == Other
      modifies this`mem, this`freelist, this`free, this`use
      ensures Valid() && mem.Keys == old(mem).Keys
      ensures Mapped(old(mem), old(use), mem, use, pt, va / PGSIZE, k, pa / PGSIZE, perm, take)
      ensures Vacant(old(mem), pt, va / PGSIZE, k)
      ensures k <= (va + size - 1) / PGSIZE - va / PGSIZE + 1
      ensures r == if k == (va + size - 1) / PGSIZE - va / PGSIZE + 1 then 0 else -1
      ensures r == -1 ==> free == [] || IsValid(Leaf(old(mem), pt, va / PGSIZE + k))
      ensures
        var n := (va + size - 1) / PGSIZE - va / PGSIZE + 1;
        && (r == 0 <==> TablesFor(old(mem), pt, va / PGSIZE, n) <= |old(free)| && Vacant(old(mem), pt, va / PGSIZE, n))
        && (r == 0 ==>
              && |free| + TablesFor(old(mem), pt, va / PGSIZE, n) == |old(free)|
              && Reached(old(mem), mem, pt, va / PGSIZE, n))
    {
      hide Trees, Leaf, Ent, Grown, LowOf, MidOf, NewTables, TablesFor, Vacant, Reached, Sound, Mapped, Px;
      var a, last, pa' := va / PGSIZE * PGSIZE, (va + size - 1) / PGSIZE * PGSIZE, pa;
      ghost var first, n, mem0, use0 := va / PGSIZE, pa / PGSIZE, mem, use;
      MappedNone(mem, use, pt, first, n, perm, take);
      ReachedNone(mem, pt, first);
      VacantStep(mem, pt, first, 0);
      k := 0;
      OneMoreTable(mem, pt, first, 0);
      while true
        invariant k <= (last - a) / PGSIZE + k == last / PGSIZE - first
        invariant a == (first + k) * PGSIZE <= last && pa' / PGSIZE == n + k && pa' <= pa + k * PGSIZE
        invariant Valid() && mem.Keys == old(mem).Keys
        invariant Mapped(mem0, use0, mem, use, pt, first, k, n, perm, take)
        invariant Vacant(mem0, pt, first, k)
        invariant Reached(mem0, mem, pt, first, k) && |free| + TablesFor(mem0, pt, first, k) == |old(free)|
        decreases last - a
      {
        ghost var mem1, use1 := mem, use;
        MappedLevel(mem0, use0, mem, use, pt, first, k, n, perm, take, pt);
        MappedAhead(mem0, use0, mem, use, pt, first, k, n, perm, take);
        ReachedNew(mem0, mem, pt, first, k);
        OneMoreTable(mem0, pt, first, k);
        VacantStep(mem0, pt, first, k);
        MoreTables(mem0, pt, first, k + 1, last / PGSIZE - first + 1);
        VacantAt(mem0, pt, first, last / PGSIZE - first + 1, first + k);
        var ok := MapOne(pt, a, pa' / PGSIZE, perm, take);
        if !ok {
          MappedGrown(mem0, use0, mem1, use1, mem, use, pt, first, k, n, perm, take);
          return -1, k;
        }
        MappedStep(mem0, use0, mem1, use1, mem, use, pt, first, k, n, perm, take);
        ReachedStep(mem0, mem1, mem, pt, first, k);
        k := k + 1;
        if a == last {
          break;
        }
        a := a + PGSIZE;
        pa' := pa' + PGSIZE;
      }
      return 0, k;
    }

    /** One round of the loop of uvmunmap. */
    method UnmapOne(pt: nat, va: nat, doFree: bool)
      requires Valid() && LevelOf(use, pt) == 2 && va < MAXVA
      requires IsValid(Leaf(mem, pt, va / PGSIZE)) && OwnedAt(mem, use, pt, va / PGSIZE) == doFree
      modifies this`mem, this`freelist, this`free, this`use
      ensures Valid() && mem.Keys == old(mem).Keys
      ensures Unmapped(old(mem), old(use), mem, use, pt, va / PGSIZE, 1,
                       if doFree then {Target(Leaf(old(mem), pt, va / PGSIZE))} else {})
      ensures free == (if doFree then [Target(Leaf(old(mem), pt, va / PGSIZE))] else []) + old(free)
    {
      hide Trees, Leaf, Ent, LowOf, SetEnt, Px, FreeList, Partition, OwnedAt, Unmapped;
      var v := va / PGSIZE;
      ghost var mem0, use0, free0 := mem, use, free;
      var l, i := Walk(pt, va, false);
      MappedHasTable(mem, pt, v);
      LeafIs(mem, pt, v, l, i);
      PxBound(v);
      LeafEntry(mem, use, l, i);
      var e := Ent(mem, l, i);
      ClearLeaf(mem, use, l, i);
      InMemory(mem, use, l);
      KeysSet(mem, l, i, 0);
      if doFree {
        OwnedTarget(mem, use, pt, v);
        var pa := Target(e) * PGSIZE;
        assert pa / PGSIZE == Target(e);
        Kfree(pa);
        ghost var mem1 := mem;
        KeysSet(mem, l, i, 0);
        StoreEntry(l, i, 0);
        ClearThenFree(mem0, use0, pt, v, l, i, mem1, mem, use);
      } else {
        StoreEntry(l, i, 0);
        NotOwned(mem0, use0, pt, v, l, i);
        UnmappedFrom(mem0, use0, mem, use, pt, v, l, {});
      }
    }

    /** uvmunmap of mapped pages: "The mappings must exist." With doFree their frames, which
        must belong to these mappings, go back to the allocator. */
    method Uvmunmap(pt: nat, va: nat, npages: nat, doFree: bool)
      requires Valid() && LevelOf(use, pt) == 2 && va % PGSIZE == 0 && va + npages * PGSIZE <= MAXVA
      requires forall w: nat :: va / PGSIZE <= w < va / PGSIZE + npages ==>
                 IsValid(Leaf(mem, pt, w)) && OwnedAt(mem, use, pt, w) == doFree
      modifies this`mem, this`freelist, this`free, this`use
      ensures Valid() && mem.Keys == old(mem).Keys
      ensures Unmapped(old(mem), old(use), mem, use, pt, va / PGSIZE, npages,
                       if doFree then Targets(old(mem), pt, va / PGSIZE, npages) else {})
      ensures |free| == |old(free)| + (if doFree then npages else 0)
    {
      hide Trees, Leaf, LowOf, Px, FreeList, Partition, OwnedAt, Unmapped, Targets, Sound;
      ghost var first, mem0, use0 := va / PGSIZE, mem, use;
      ghost var k := 0;
      var a := va;
      UnmappedNone(mem, use, pt, first);
      while a < va + npages * PGSIZE
        invariant k <= npages && a == va + k * PGSIZE
        invariant Valid() && mem.Keys == old(mem).Keys && LevelOf(use, pt) == 2
        invariant Unmapped(mem0, use0, mem, use, pt, first, k, if doFree then Targets(mem0, pt, first, k) else {})
        invariant |free| == |old(free)| + (if doFree then k else 0)
        decreases va + npages * PGSIZE - a
      {
        assert a / PGSIZE == first + k;
        ghost var mem1, use1 := mem, use;
        StillMapped(mem0, use0, mem, use, pt, first, k, doFree);
        UnmapOne(pt, a, doFree);
        UnmappedStep(mem0, use0, mem1, use1, mem, use, pt, first, k, doFree);
        a := a + PGSIZE;
        k := k + 1;
      }
    }

    // ---------- growing, shrinking and copying address spaces ----------

    /** kalloc, and the stores that fill the page. */
    method NewFrame(pg: Page) returns (pa: nat)
      requires Valid()
      modifies this`mem, this`freelist, this`free, this`use
      ensures Valid() && mem.Keys == old(mem).Keys
      ensures pa == 0 <==> old(free) == []
      ensures pa == 0 ==> Unchanged(old(mem), old(freelist), old(free), old(use))
      ensures pa != 0 ==>
        && pa % PGSIZE == 0 && |free| + 1 == |old(free)| && pa / PGSIZE !in old(use) && use == old(use)[pa / PGSIZE := Other]
        && pa / PGSIZE in mem && mem[pa / PGSIZE] == pg && SameTables(old(mem), old(use), mem, use)
        && forall q :: q in mem && q != pa / PGSIZE ==> mem[q] == old(mem)[q]
    {
      hide Trees, SameTables, Sound;
      ghost var mem0, use0 := mem, use;
      pa := Kalloc();
      if pa == 0 {
        return;
      }
      ghost var mem1 := mem;
      SoundBounds();
      SetPage(pa / PGSIZE, pg);
      SameTablesMore(mem0, use0, mem1, use, mem);
    }

    /** The common step of uvmalloc and uvmcopy: kalloc a page, give it the bytes pg, map it with
        the flags perm at va; on any failure nothing but table pages stays behind. */
    method AddFrame(pt: nat, va: nat, pg: Page, perm: nat) returns (ok: bool)
      requires Valid() && LevelOf(use, pt) == 2 && va + PGSIZE <= MAXVA && va % PGSIZE == 0
      requires perm < 1024 && Rwx(perm) != 0
      modifies this`mem, this`freelist, this`free, this`use
      ensures Valid() && mem.Keys == old(mem).Keys
      ensures !ok ==> Grown(old(mem), old(use), mem, use)
      ensures ok ==> Filled(old(mem), old(use), mem, use, pt, va / PGSIZE, 1)
      ensures ok ==> Holds(mem, pt, va / PGSIZE, perm, pg)
      ensures ok <==>
        && 1 + NewTables(old(mem), pt, va / PGSIZE, va / PGSIZE) <= |old(free)|
        && !IsValid(Leaf(old(mem), pt, va / PGSIZE))
      ensures ok ==>
        && |free| + 1 + NewTables(old(mem), pt, va / PGSIZE, va / PGSIZE) == |old(free)|
        && Reached(old(mem), mem, pt, va / PGSIZE, 1)
    {
      hide Trees, Leaf, LowOf, MidOf, NewTables, TablesFor, Vacant, Reached, Px, Sound, Mapped, Filled, Holds, Grown,
           MakePte, SameTables;
      var v := va / PGSIZE;
      ghost var mem0, use0 := mem, use;
      var pa := NewFrame(pg);
      if pa == 0 {
        GrownRefl(mem, use);
        return false;
      }
      var n := pa / PGSIZE;
      SoundBounds();
      ghost var mem1, use1 := mem, use;
      SameTablesTrans(mem0, use0, n, mem, use);
      assert (va + PGSIZE - 1) / PGSIZE == v;
      OneTable(mem, pt, v);
      SameNew(mem0, use0, mem, use, pt, v);
      var r, k := Mappages(pt, va, PGSIZE, pa, perm, true);
      if r != 0 {
        assert k == 0;
        MappedZero(mem1, use1, mem, use, pt, v, n, perm);
        ghost var mem2, use2 := mem, use;
        Discard(pa);
        GaveBack(mem0, use0, mem1, use1, mem2, use2, mem, use, pt, v, n, perm);
        return false;
      }
      FilledOne(mem0, use0, mem1, use1, mem, use, pt, v, n, perm, pg);
      SameReached(mem0, use0, mem1, use1, mem, pt, v, 1);
      return true;
    }

    lemma SoundBounds()
      requires Sound()
      ensures forall p :: p in use ==> p in mem && p < UINT64 / PGSIZE && (p + 1) * PGSIZE <= UINT64
    {
      hide FreeList;
    }

    /** uvmdealloc */
    method Uvmdealloc(pt: nat, oldsz: nat, newsz: nat) returns (r: nat)
      requires Valid() && LevelOf(use, pt) == 2 && oldsz <= MAXVA
      requires forall w: nat :: PagesUp(newsz) <= w < PagesUp(oldsz) ==> OwnedAt(mem, use, pt, w)
      modifies this`mem, this`freelist, this`free, this`use
      ensures Valid() && mem.Keys == old(mem).Keys
      ensures r == if newsz < oldsz then newsz else oldsz
      ensures
        var k := if PagesUp(newsz) < PagesUp(oldsz) then PagesUp(oldsz) - PagesUp(newsz) else 0;
        && Unmapped(old(mem), old(use), mem, use, pt, PagesUp(newsz), k, Targets(old(mem), pt, PagesUp(newsz), k))
        && |free| == |old(free)| + k
    {
      hide Trees, Leaf, LowOf, Px, Sound, Unmapped, Targets;
      UnmappedNone(mem, use, pt, PagesUp(newsz));
      if newsz >= oldsz {
        return oldsz;
      }
      if PagesUp(newsz) < PagesUp(oldsz) {
        var npages := PagesUp(oldsz) - PagesUp(newsz);
        assert PagesUp(newsz) * PGSIZE / PGSIZE == PagesUp(newsz);
        forall w: nat | PagesUp(newsz) <= w < PagesUp(oldsz)
          ensures IsValid(Leaf(mem, pt, w))
        {
          assert OwnedAt(mem, use, pt, w);
        }
        Uvmunmap(pt, PagesUp(newsz) * PGSIZE, npages, true);
      }
      return newsz;
    }

    /** uvmalloc: on success (ok) the pages between the sizes are new, zeroed and user-writable;
        on failure every translation is as before. */
    method Uvmalloc(pt: nat, oldsz: nat, newsz: nat) returns (r: nat, ghost ok: bool)
      requires Valid() && LevelOf(use, pt) == 2 && oldsz <= MAXVA && newsz <= MAXVA
      modifies this`mem, this`freelist, this`free, this`use
      ensures Valid() && mem.Keys == old(mem).Keys
      ensures newsz < oldsz ==> r == oldsz && ok && Unchanged(old(mem), old(freelist), old(free), old(use))
      ensures newsz >= oldsz && ok ==>
        && r == newsz
        && Filled(old(mem), old(use), mem, use, pt, PagesUp(oldsz), PagesUp(newsz) - PagesUp(oldsz))
        && forall w: nat :: PagesUp(oldsz) <= w < PagesUp(newsz) ==> Holds(mem, pt, w, PTE_RWXU, Zeros(PGSIZE))
      ensures ok ==> FreshUser(mem, pt, oldsz, newsz)
      ensures !ok ==> r == 0 && Grown(old(mem), old(use), mem, use)
      ensures newsz >= oldsz ==>
        var first, k := PagesUp(oldsz), PagesUp(newsz) - PagesUp(oldsz);
        && (ok <==> Need(old(mem), pt, first, k) <= |old(free)| && Vacant(old(mem), pt, first, k))
        && (ok ==> |free| + Need(old(mem), pt, first, k) == |old(free)|)
    {
      hide Trees, Leaf, LowOf, MidOf, NewTables, Reached, Px, Sound, Filled, Holds, Grown, OwnedAt, Unmapped, FreshUser;
      if newsz < oldsz {
        HoldsUser(mem, use, pt, oldsz, newsz);
        return oldsz, true;
      }
      ghost var first, mem0, use0 := PagesUp(oldsz), mem, use;
      ghost var k := 0;
      var base := PagesUp(oldsz) * PGSIZE;
      var a := base;
      assert Rwx(PTE_RWXU) == 7;
      FilledNone(mem, use, pt, first);
      ReachedNone(mem, pt, first);
      while a < newsz
        invariant a == (first + k) * PGSIZE && first + k <= PagesUp(newsz)
        invariant Valid() && mem.Keys == old(mem).Keys && LevelOf(use, pt) == 2
        invariant Filled(mem0, use0, mem, use, pt, first, k)
        invariant forall w: nat :: first <= w < first + k ==> Holds(mem, pt, w, PTE_RWXU, Zeros(PGSIZE))
        invariant Reached(mem0, mem, pt, first, k) && |free| + Need(mem0, pt, first, k) == |old(free)|
        decreases newsz - a
      {
        ghost var mem1, use1 := mem, use;
        FilledAhead(mem0, use0, mem, use, pt, first, k);
        ReachedNew(mem0, mem, pt, first, k);
        MoreTables(mem0, pt, first, k + 1, PagesUp(newsz) - first);
        var done := AddFrame(pt, a, Zeros(PGSIZE), PTE_RWXU);
        if !done {
          FilledGrown(mem0, use0, mem1, use1, mem, use, pt, first, k);
          FilledOwned(mem0, use0, mem, use, pt, first, k);
          mem1, use1 := mem, use;
          assert PagesUp(a) == first + k;
          var sz := Uvmdealloc(pt, a, base);
          RolledBack(mem0, use0, mem1, use1, mem, use, pt, first, k);
          return 0, false;
        }
        FilledStep(mem0, use0, mem1, use1, mem, use, pt, first, k);
        HoldsStay(mem0, use0, mem1, use1, mem, use, pt, first, k, PTE_RWXU, Zeros(PGSIZE));
        ReachedStep(mem0, mem1, mem, pt, first, k);
        a := a + PGSIZE;
        k := k + 1;
      }
      FilledAhead(mem0, use0, mem, use, pt, first, k);
      HoldsUser(mem, use, pt, oldsz, newsz);
      return newsz, true;
    }

    /** One round of the loop of uvmcopy. */
    method CopyPage(from: nat, to: nat, va: nat) returns (ok: bool)
      requires Valid() && LevelOf(use, from) == 2 && LevelOf(use, to) == 2 && va + PGSIZE <= MAXVA && va % PGSIZE == 0
      requires IsValid(Leaf(mem, from, va / PGSIZE)) && Target(Leaf(mem, from, va / PGSIZE)) in mem
      modifies this`mem, this`freelist, this`free, this`use
      ensures Valid() && mem.Keys == old(mem).Keys
      ensures !ok ==> Grown(old(mem), old(use), mem, use)
      ensures
        var v, e := va / PGSIZE, Leaf(old(mem), from, va / PGSIZE);
        && (ok <==> 1 + NewTables(old(mem), to, v, v) <= |old(free)| && !IsValid(Leaf(old(mem), to, v)))
        && (ok ==>
              && Filled(old(mem), old(use), mem, use, to, v, 1) && Holds(mem, to, v, Flags(e), old(mem)[Target(e)])
              && |free| + 1 + NewTables(old(mem), to, v, v) == |old(free)| && Reached(old(mem), mem, to, v, 1))
    {
      hide Trees, Leaf, LowOf, MidOf, NewTables, Reached, Px, Sound, Filled, Holds, Grown, Flags, Rwx, Ent, IsValid;
      var v := va / PGSIZE;
      MappedHasTable(mem, from, v);
      var l, idx := Walk(from, va, false);
      LeafIs(mem, from, v, l, idx);
      PxBound(v);
      LeafEntry(mem, use, l, idx);
      var e := Ent(mem, l, idx);
      FlagsAgain(e);
      ok := AddFrame(to, va, mem[Target(e)], Flags(e));
    }

    /** uvmcopy of an address space whose pages [0, sz) are present: 0 when the child new has a
        copy of each page with the same flags, in frames of its own; -1 when every translation
        is as before. */
    method Uvmcopy(from: nat, to: nat, sz: nat) returns (r: int)
      requires Valid() && LevelOf(use, from) == 2 && LevelOf(use, to) == 2 && sz <= MAXVA
      requires forall w: nat :: w < PagesUp(sz) ==> OwnedAt(mem, use, from, w)
      modifies this`mem, this`freelist, this`free, this`use
      ensures Valid() && mem.Keys == old(mem).Keys
      ensures r == 0 || r == -1
      ensures r == 0 ==>
        && Filled(old(mem), old(use), mem, use, to, 0, PagesUp(sz))
        && forall w: nat :: w < PagesUp(sz) ==> CopyOf(old(mem), old(use), from, mem, to, w)
      ensures r == -1 ==> Grown(old(mem), old(use), mem, use)
      ensures r == 0 <==> Need(old(mem), to, 0, PagesUp(sz)) <= |old(free)| && Vacant(old(mem), to, 0, PagesUp(sz))
      ensures r == 0 ==> |free| + Need(old(mem), to, 0, PagesUp(sz)) == |old(free)|
    {
      hide Trees, Leaf, LowOf, MidOf, NewTables, Reached, Px, Sound, Filled, CopyOf, Holds, Grown, OwnedAt, Unmapped;
      ghost var mem0, use0 := mem, use;
      ReachedNone(mem, to, 0);
      ghost var k := 0;
      var i := 0;
      FilledNone(mem, use, to, 0);
      while i < sz
        invariant i == k * PGSIZE && k <= PagesUp(sz)
        invariant Valid() && mem.Keys == old(mem).Keys && LevelOf(use, to) == 2 && LevelOf(use, from) == 2
        invariant Filled(mem0, use0, mem, use, to, 0, k)
        invariant forall w: nat :: w < k ==> CopyOf(mem0, use0, from, mem, to, w)
        invariant Reached(mem0, mem, to, 0, k) && |free| + Need(mem0, to, 0, k) == |old(free)|
        decreases sz - i
      {
        ghost var mem1, use1 := mem, use;
        FilledAhead(mem0, use0, mem, use, to, 0, k);
        ReachedNew(mem0, mem, to, 0, k);
        MoreTables(mem0, to, 0, k + 1, PagesUp(sz));
        SourceStays(mem0, use0, mem, use, from, to, k);
        var done := CopyPage(from, to, i);
        if !done {
          FilledGrown(mem0, use0, mem1, use1, mem, use, to, 0, k);
          FilledOwned(mem0, use0, mem, use, to, 0, k);
          mem1, use1 := mem, use;
          Uvmunmap(to, 0, i / PGSIZE, true);
          RolledBack(mem0, use0, mem1, use1, mem, use, to, 0, k);
          return -1;
        }
        FilledStep(mem0, use0, mem1, use1, mem, use, to, 0, k);
        CopyIntro(mem0, use0, from, mem, to, k, mem0[Target(Leaf(mem0, from, k))]);
        CopiesStay(mem0, use0, mem1, use1, mem, use, from, to, k);
        ReachedStep(mem0, mem1, mem, to, 0, k);
        i := i + PGSIZE;
        k := k + 1;
      }
      FilledAhead(mem0, use0, mem, use, to, 0, k);
      return 0;
    }

    /** uvmcreate: an empty table, or 0 when no page is free. */
    method Uvmcreate() returns (pt: nat)
      requires Valid()
      modifies this`mem, this`freelist, this`free, this`use
      ensures Valid() && mem.Keys == old(mem).Keys
      ensures pt == 0 ==> old(free) == [] && Unchanged(old(mem), old(freelist), old(free), old(use))
      ensures pt != 0 ==>
        && old(free) != [] && pt == old(free)[0] && pt !in old(use) && use == old(use)[pt := Loose(2)]
        && (forall q :: q in mem && q != pt ==> mem[q] == old(mem)[q])
        && (forall w: nat :: !IsValid(Leaf(mem, pt, w)) && MidOf(mem, pt, w) == 0)
        && |free| + 1 == |old(free)|
    {
      hide Trees, Leaf, LowOf, MidOf, Pte, FreeList, Partition;
      var pa := Kalloc();
      if pa == 0 {
        return 0;
      }
      pt := pa / PGSIZE;
      SetPage(pt, Zeros(PGSIZE));
      forall j | 0 <= j < NPTE
        ensures Ent(mem, pt, j) == 0
      {
        PteZero(j);
      }
      NewRoot(mem, use, pt, 2);
      ghost var use1 := use;
      use := use[pt := Loose(2)];
      assert use.Keys == use1.Keys;
      EmptyRoot(mem, pt);
    }

    // ---------- freeing an address space ----------

    /** freewalk of a table without parent, none of whose mappings own a frame. While it runs,
        the tables on stack still hold dangling pointers; pm is memory with those cleared.
        Exactly the pages of this tree go back to the allocator. */
    method Freewalk(p: nat, ghost stack: set<nat>, ghost pm: Mem) returns (ghost pm': Mem)
      requires Sound() && Trees(pm, use) && p in use && use[p].Loose? && p !in stack
      requires Shadowed(pm, stack)
      requires forall q :: q in use && use[q].Frame? ==> Top(use, q) != p
      modifies this`mem, this`freelist, this`free, this`use
      ensures Sound() && Trees(pm', use) && Shadowed(pm', stack)
      ensures mem.Keys == old(mem).Keys
      ensures forall q :: q in stack ==> pm'[q] == pm[q] && mem[q] == old(mem)[q]
      ensures forall q :: q in use <==> q in old(use) && Top(old(use), q) != p
      ensures forall q :: q in use ==> use[q] == old(use)[q] && q in pm' && q in pm && pm'[q] == pm[q]
      decreases LevelOf(use, p)
    {
      hide Trees, Ent, FreeList, Partition, SetEnt, Top, Pruned, KeptBut, Shadow;
      ghost var use0 := use;
      ghost var cur: Mem := pm;
      ShadowStack(mem, use, pm, stack);
      AllInMemory(pm, use);
      PrunedNone(use, pm, p);
      TopSelf(use, p);
      var i := 0;
      while i < NPTE
        invariant 0 <= i <= NPTE
        invariant Sound() && Trees(cur, use) && Shadowed(cur, stack) && mem.Keys == old(mem).Keys
        invariant p in use && use[p] == use0[p] && Pruned(use0, use, p) && KeptBut(pm, cur, use, p)
        invariant forall q :: q in stack ==> q in mem && q in cur && q in pm && cur[q] == pm[q] && mem[q] == old(mem)[q]
        invariant LevelOf(use, p) == 0 || forall j :: 0 <= j < i ==> !IsValid(Ent(cur, p, j))
      {
        InMemory(cur, use, p);
        ShadowAt(mem, use, cur, stack, p);
        SameEnt(cur, mem, p, i);
        var pte := Ent(mem, p, i);
        PointerEntry(cur, use, p, i);
        if IsValid(pte) && Rwx(pte) == 0 {
          ghost var use1, cur1 := use, cur;
          PrunedFrames(use0, use, p);
          cur := FreeChild(p, i, stack, cur);
          ShadowStack(mem, use, cur, stack);
          PrunedTrans(use0, use1, use, p);
          KeptTrans(pm, cur1, use1, cur, use, p);
        }
        i := i + 1;
      }
      PrunedFrames(use0, use, p);
      NothingHangs(cur, use, p);
      ghost var use1 := use;
      pm' := FreeBare(p, stack, cur);
      WalkDone(use0, use1, use, pm, cur, pm', p);
    }

    /** The kfree at the end of freewalk, of a table from which nothing hangs any more. */
    method FreeBare(p: nat, ghost stack: set<nat>, ghost cur: Mem) returns (ghost cur': Mem)
      requires Sound() && Trees(cur, use) && p in use && use[p].Loose? && p !in stack && Shadowed(cur, stack)
      requires forall q :: q in use ==> !HangsOff(use[q], p)
      modifies this`mem, this`freelist, this`free, this`use
      ensures Sound() && Trees(cur', use) && Shadowed(cur', stack) && mem.Keys == old(mem).Keys
      ensures use == old(use) - {p} && p in cur && p in cur' && cur' == cur[p := cur'[p]]
      ensures forall q :: q in stack ==> mem[q] == old(mem)[q]
      ensures forall q :: q in old(use) && Top(old(use), q) == p ==> q == p
    {
      hide Trees, Ent, FreeList, Partition, Top;
      ghost var use1 := use;
      BareTable(cur, use, p);
      InMemory(cur, use, p);
      use := use[p := Other];
      assert use.Keys == use1.Keys;
      assert p * PGSIZE / PGSIZE == p;
      Kfree(p * PGSIZE);
      DropOther(cur, use1[p := Other], p);
      ChangeNonTable(cur, use, p, mem[p]);
      cur' := cur[p := mem[p]];
    }

    /** freewalk((pagetable_t) child); pagetable[i] = 0; */
    method FreeChild(p: nat, i: nat, ghost stack: set<nat>, ghost cur: Mem) returns (ghost cur': Mem)
      requires Sound() && Trees(cur, use) && p in use && use[p].Loose? && p !in stack && i < NPTE
      requires 1 <= LevelOf(use, p) <= 2 && IsValid(Ent(cur, p, i)) && Shadowed(cur, stack)
      requires forall q :: q in use && use[q].Frame? ==> Top(use, q) != p
      modifies this`mem, this`freelist, this`free, this`use
      ensures Sound() && Trees(cur', use) && Shadowed(cur', stack) && mem.Keys == old(mem).Keys
      ensures p in use && use[p] == old(use)[p]
      ensures forall q :: q in stack ==> cur'[q] == cur[q] && mem[q] == old(mem)[q]
      ensures Pruned(old(use), use, p) && KeptBut(cur, cur', use, p)
      ensures forall j :: 0 <= j < NPTE ==> Ent(cur', p, j) == if j == i then 0 else Ent(cur, p, j)
      decreases LevelOf(use, p), 0
    {
      hide Trees, Ent, FreeList, Partition, SetEnt, Top, WithPte, Shadow, Pruned, KeptBut;
      InMemory(cur, use, p);
      ShadowStack(mem, use, cur, stack);
      ShadowAt(mem, use, cur, stack, p);
      LooseStack(cur, use, stack);
      ghost var use0, mem0 := use, mem;
      SameEnt(cur, mem, p, i);
      var c := Target(Ent(mem, p, i));
      Detach(cur, use, p, i);
      KeysSet(cur, p, i, 0);
      ghost var cur1 := SetEnt(cur, p, i, 0);
      use := use[c := Loose(LevelOf(use, c))];
      assert use.Keys == use0.Keys;
      ghost var use1 := use;
      ShadowPush(mem, use0, use1, cur, stack, p, c, cur1);
      cur' := Freewalk(c, stack + {p}, cur1);
      ghost var mem1 := mem;
      ShadowStack(mem, use, cur', stack + {p});
      StoreEntry(p, i, 0);
      SetSame(cur, cur1, p, i);
      KeysSet(mem1, p, i, 0);
      TopSelf(use0, p);
      TopSelf(use1, c);
      FreedChild(cur1, use0, use1, use, p, c);
      KeptCut(cur, cur1, cur', use, p);
      ShadowPop(mem1, mem, use, cur', stack, p);
      ClearedEntries(cur, cur1, cur', p, i);
    }

    /** Apart from the pages on stack, all of them tables in use, pm is memory. */
    ghost predicate Shadowed(pm: Mem, stack: set<nat>)
      reads this
    {
      Shadow(mem, use, pm, stack)
    }

    /** uvmfree of an address space whose frames are exactly those of pages [0, sz): every page of
        the tree, tables and frames, goes back to the allocator; no other page is touched. */
    method Uvmfree(pt: nat, sz: nat)
      requires Valid() && pt in use && use[pt] == Loose(2) && sz <= MAXVA
      requires forall w: nat :: w < PagesUp(sz) ==> OwnedAt(mem, use, pt, w)
      requires forall q :: q in use && use[q].Frame? && Top(use, q) == pt ==> q in Targets(mem, pt, 0, PagesUp(sz))
      modifies this`mem, this`freelist, this`free, this`use
      ensures Valid() && mem.Keys == old(mem).Keys
      ensures forall q :: q in use <==> q in old(use) && Top(old(use), q) != pt
      ensures forall q :: q in use ==> use[q] == old(use)[q]
      ensures forall q :: q in use && LevelOf(use, q) == 3 && q in old(mem) ==> q in mem && mem[q] == old(mem)[q]
      ensures forall r: nat, w: nat :: w < MAXVPN && r != pt && r in old(use) && old(use)[r] == Loose(2) ==>
                Leaf(mem, r, w) == Leaf(old(mem), r, w) && LowOf(mem, r, w) == LowOf(old(mem), r, w)
    {
      hide Trees, Ent, Leaf, LowOf, Px, FreeList, Partition, Top, Targets, OwnedAt, Unmapped;
      ghost var m0, u0, k := mem, use, PagesUp(sz);
      UnmappedNone(mem, use, pt, 0);
      if sz > 0 {
        forall w: nat | w < k
          ensures IsValid(Leaf(mem, pt, w))
        {
          OwnedIsValid(mem, use, pt, w);
        }
        Uvmunmap(pt, 0, PagesUp(sz), true);
      }
      ghost var m1, u1 := mem, use;
      UnmappedTops(m0, u0, m1, u1, pt, k);
      UnmappedPages(m0, u0, m1, u1, pt, k);
      ghost var pm := Freewalk(pt, {}, mem);
      assert pm == mem;
      OtherTrees(m0, u0, m1, u1, mem, use, pt, k);
    }

    // ---------- copying between kernel and user memory ----------

    /** walkaddr: the page number behind a user virtual address, or 0. */
    method Walkaddr(pt: nat, va: nat) returns (n: nat)
      requires Valid() && LevelOf(use, pt) == 2
      modifies this`mem, this`freelist, this`free, this`use
      ensures Valid() && Unchanged(old(mem), old(freelist), old(free), old(use))
      ensures n == UserPage(mem, pt, va / PGSIZE)
      ensures
        var e := Leaf(mem, pt, va / 4096);
        if va < 0x40_0000_0000 && e % 2 == 1 && e / 16 % 2 == 1 then n == e / 1024 != 0 else n == 0
      ensures n != 0 ==> n in mem && n in use && LevelOf(use, n) == 3
    {
      hide Trees, Leaf, Sound, UserPage;
      UserPageIs(mem, use, pt, va);
      n := WalkUser(pt, va);
    }

    /** The walk and the tests of walkaddr. */
    method WalkUser(pt: nat, va: nat) returns (n: nat)
      requires Valid() && LevelOf(use, pt) == 2
      modifies this`mem, this`freelist, this`free, this`use
      ensures Valid() && Unchanged(old(mem), old(freelist), old(free), old(use))
      ensures n == UserPage(mem, pt, va / PGSIZE)
      ensures n != 0 ==> n in mem && n in use && LevelOf(use, n) == 3
    {
      hide Trees, Ent, Leaf, LowOf, Px, Sound;
      if va >= MAXVA {
        return 0;
      }
      var l, i := Walk(pt, va, false);
      UserFrame(mem, use, pt, va / PGSIZE);
      if l == 0 {
        NoTableNoLeaf(mem, pt, va / PGSIZE);
        return 0;
      }
      LeafIs(mem, pt, va / PGSIZE, l, i);
      var pte := Ent(mem, l, i);
      if !IsValid(pte) {
        return 0;
      }
      if !IsUser(pte) {
        return 0;
      }
      return Target(pte);
    }

    /** copyin: dst is what was copied; -1 when it stopped at a page that is not user-mapped. */
    method Copyin(pt: nat, srcva: nat, len: nat) returns (r: int, dst: seq<byte>)
      requires Valid() && LevelOf(use, pt) == 2
      modifies this`mem, this`freelist, this`free, this`use
      ensures Valid() && Unchanged(old(mem), old(freelist), old(free), old(use))
      ensures |dst| <= len && r == if |dst| == len then 0 else -1
      ensures Fetched(mem, pt, srcva, dst)
      ensures |dst| < len ==> !Readable(mem, pt, srcva + |dst|)
    {
      hide Trees, Sound, UserPage, Fetched, UserByte, Readable, Leaf;
      FetchNone(mem, pt, srcva);
      dst := [];
      while |dst| < len
        invariant |dst| <= len
        invariant Valid() && Unchanged(old(mem), old(freelist), old(free), old(use))
        invariant Fetched(mem, pt, srcva, dst)
        decreases len - |dst|
      {
        var va := srcva + |dst|;
        var pa0 := Walkaddr(pt, va);
        NotReadable(mem, pt, va);
        if pa0 == 0 {
          return -1, dst;
        }
        var n := if len - |dst| < PGSIZE - va % PGSIZE then len - |dst| else PGSIZE - va % PGSIZE;
        FetchStep(mem, pt, srcva, dst, pa0, mem[pa0][va % PGSIZE..va % PGSIZE + n]);
        dst := dst + mem[pa0][va % PGSIZE..va % PGSIZE + n];
      }
      return 0, dst;
    }

    /** copyout: done bytes were copied; -1 when it stopped at a page that is not user-mapped.
        Bytes of user memory outside the written range, in any address space, do not change. */
    method Copyout(pt: nat, dstva: nat, src: seq<byte>) returns (r: int, ghost done: nat)
      requires Valid() && LevelOf(use, pt) == 2
      modifies this`mem, this`freelist, this`free, this`use
      ensures Valid() && free == old(free) && use == old(use)
      ensures done <= |src| && r == if done == |src| then 0 else -1
      ensures done < |src| ==> !Readable(mem, pt, dstva + done)
      ensures Written(old(mem), use, mem, pt, dstva, src[..done])
      ensures SameTables(old(mem), use, mem, use)
    {
      hide Trees, Sound, UserPage, Written, SameTables, Leaf;
      ghost var m0 := mem;
      var at := 0;
      WrittenNone(mem, use, pt, dstva);
      while at < |src|
        invariant at <= |src|
        invariant Valid() && free == old(free) && use == old(use)
        invariant Written(m0, use, mem, pt, dstva, src[..at]) && SameTables(m0, use, mem, use)
        decreases |src| - at
      {
        var va := dstva + at;
        var pa0 := Walkaddr(pt, va);
        if pa0 == 0 {
          return -1, at;
        }
        var n := if |src| - at < PGSIZE - va % PGSIZE then |src| - at else PGSIZE - va % PGSIZE;
        ghost var m1 := mem;
        SetPage(pa0, Overwrite(mem[pa0], va % PGSIZE, src[at..at + n]));
        assert src[..at] + src[at..at + n] == src[..at + n];
        WrittenStep(m0, use, m1, mem, pt, dstva, src[..at], src[at..at + n], pa0);
        at := at + n;
      }
      assert src[..at] == src;
      return 0, at;
    }

    /** copyinstr: the bytes before the first NUL or the first max bytes; -1 when a page that is
        not user-mapped comes first. */
    method Copyinstr(pt: nat, srcva: nat, max: nat) returns (r: int, dst: seq<byte>)
      requires Valid() && LevelOf(use, pt) == 2
      modifies this`mem, this`freelist, this`free, this`use
      ensures Valid() && Unchanged(old(mem), old(freelist), old(free), old(use))
      ensures |dst| <= max
      ensures Fetched(mem, pt, srcva, dst) && 0 !in dst
      ensures r == -1 ==> |dst| < max && !Readable(mem, pt, srcva + |dst|)
      ensures r != -1 ==> r == |dst|
      ensures r != -1 && |dst| < max ==> Readable(mem, pt, srcva + |dst|) && UserByte(mem, pt, srcva + |dst|) == 0
    {
      hide Trees, Sound, UserPage, Fetched, UserByte, Readable, Leaf;
      FetchNone(mem, pt, srcva);
      dst := [];
      var gotNull := false;
      while !gotNull && |dst| < max
        invariant |dst| <= max
        invariant Valid() && Unchanged(old(mem), old(freelist), old(free), old(use))
        invariant Fetched(mem, pt, srcva, dst) && 0 !in dst
        invariant gotNull ==> Readable(mem, pt, srcva + |dst|) && UserByte(mem, pt, srcva + |dst|) == 0
        decreases max - |dst|, if gotNull then 0 else 1
      {
        var va := srcva + |dst|;
        var pa0 := Walkaddr(pt, va);
        NotReadable(mem, pt, va);
        if pa0 == 0 {
          return -1, dst;
        }
        var n := if max - |dst| < PGSIZE - va % PGSIZE then max - |dst| else PGSIZE - va % PGSIZE;
        var off, left := va % PGSIZE, n;
        ghost var d0 := |dst|;
        while left > 0 && !gotNull
          invariant 0 <= left <= n && |dst| == d0 + (n - left) && off == va % PGSIZE + (n - left)
          invariant Valid() && Unchanged(old(mem), old(freelist), old(free), old(use))
          invariant Fetched(mem, pt, srcva, dst) && 0 !in dst
          invariant gotNull ==> left > 0 && Readable(mem, pt, srcva + |dst|) && UserByte(mem, pt, srcva + |dst|) == 0
          decreases left, if gotNull then 0 else 1
        {
          assert (srcva + |dst|) / PGSIZE == va / PGSIZE && (srcva + |dst|) % PGSIZE == off;
          FetchByte(mem, pt, srcva + |dst|, pa0);
          if mem[pa0][off] == 0 {
            gotNull := true;
          } else {
            FetchOne(mem, pt, srcva, dst, pa0);
            dst := dst + [mem[pa0][off]];
            off := off + 1;
            left := left - 1;
          }
        }
      }
      return |dst|, dst;
    }
  }

  /** The physical pages behind k virtual pages of pt. */
  function Targets(mem: Mem, pt: nat, first: nat, k: nat): set<nat> {
    set w: nat | first <= w < first + k :: Target(Leaf(mem, pt, w))
  }

  lemma UnmappedNone(m: Mem, u: Roles, pt: nat, first: nat)
    ensures Targets(m, pt, first, 0) == {}
    ensures Unmapped(m, u, m, u, pt, first, 0, {})
  {
    hide Leaf, LowOf;
  }

  /** The pages not yet reached are mapped, and owned, as they were. */
  lemma StillMapped(m0: Mem, u0: Roles, m: Mem, u: Roles, pt: nat, first: nat, k: nat, doFree: bool)
    requires Trees(m0, u0) && LevelOf(u0, pt) == 2 && first + k < MAXVPN
    requires Unmapped(m0, u0, m, u, pt, first, k, if doFree then Targets(m0, pt, first, k) else {})
    requires forall w: nat :: first <= w <= first + k ==> IsValid(Leaf(m0, pt, w)) && OwnedAt(m0, u0, pt, w) == doFree
    ensures Leaf(m, pt, first + k) == Leaf(m0, pt, first + k)
    ensures IsValid(Leaf(m, pt, first + k)) && OwnedAt(m, u, pt, first + k) == doFree
  {
    hide Leaf, LowOf, Px, Trees;
    var v := first + k;
    var t := Target(Leaf(m0, pt, v));
    if doFree {
      assert OwnedAt(m0, u0, pt, v);
      if t in Targets(m0, pt, first, k) {
        var w: nat :| first <= w < first + k && t == Target(Leaf(m0, pt, w));
        assert OwnedAt(m0, u0, pt, w);
        MappedHasTable(m0, pt, v);
        SlotsDistinct(m0, u0, pt, v, pt, w);
        assert false;
      }
    }
  }

  lemma UnmappedStep(m0: Mem, u0: Roles, m1: Mem, u1: Roles, m: Mem, u: Roles, pt: nat, first: nat, k: nat,
                     doFree: bool)
    requires Unmapped(m0, u0, m1, u1, pt, first, k, if doFree then Targets(m0, pt, first, k) else {})
    requires Unmapped(m1, u1, m, u, pt, first + k, 1, if doFree then {Target(Leaf(m1, pt, first + k))} else {})
    requires Leaf(m1, pt, first + k) == Leaf(m0, pt, first + k)
    ensures Unmapped(m0, u0, m, u, pt, first, k + 1, if doFree then Targets(m0, pt, first, k + 1) else {})
    ensures forall r :: LevelOf(u0, r) == 2 ==> LevelOf(u, r) == 2
  {
    hide Leaf, LowOf, Targets;
    TargetsStep(m0, pt, first, k);
    assert forall r :: LevelOf(u0, r) == 2 ==> LevelOf(u1, r) == 2;
  }

  lemma TargetsStep(m: Mem, pt: nat, first: nat, k: nat)
    ensures Targets(m, pt, first, k + 1) == Targets(m, pt, first, k) + {Target(Leaf(m, pt, first + k))}
  {
    hide Leaf;
  }

  /** Virtual page v of pt is mapped with flags perm to a page holding pg. */
  ghost predicate Holds(mem: Mem, pt: nat, v: nat, perm: nat, pg: Page)
    requires perm < 1024
  {
    && IsValid(Leaf(mem, pt, v)) && Flags(Leaf(mem, pt, v)) == WithV(perm)
    && Target(Leaf(mem, pt, v)) in mem && mem[Target(Leaf(mem, pt, v))] == pg
  }

  /** k virtual pages of pt from first on got new frames of their own; no other translation
      changed, and besides those frames only table pages were added. */
  ghost predicate Filled(m0: Mem, u0: Roles, m: Mem, u: Roles, pt: nat, first: nat, k: nat) {
    && (forall q :: q in u0 ==> q in u && u[q] == u0[q])
    && (forall q :: q in u && q !in u0 ==> u[q].Mid? || u[q].Low? || q in Targets(m, pt, first, k))
    && (forall w: nat :: first <= w < first + k ==> OwnedAt(m, u, pt, w) && Target(Leaf(m, pt, w)) !in u0)
    && (forall w: nat :: first <= w < first + k ==> !IsValid(Leaf(m0, pt, w)))
    && (forall q :: q in u0 && LevelOf(u0, q) == 3 && q in m0 ==> q in m && m[q] == m0[q])
    && (forall r: nat, w: nat :: LevelOf(u0, r) == 2 && w < MAXVPN && !(r == pt && first <= w < first + k) ==>
          Leaf(m, r, w) == Leaf(m0, r, w))
    && (forall r: nat, w: nat :: LevelOf(u0, r) == 2 && LowOf(m0, r, w) != 0 ==> LowOf(m, r, w) == LowOf(m0, r, w))
  }

  /** How many free pages it takes to put frames at k unmapped pages of pt. */
  function Need(m: Mem, pt: nat, first: nat, k: nat): nat { k + TablesFor(m, pt, first, k) }

  lemma OneTable(m: Mem, pt: nat, v: nat)
    ensures TablesFor(m, pt, v, 1) == NewTables(m, pt, v, v)
    ensures Vacant(m, pt, v, 1) <==> !IsValid(Leaf(m, pt, v))
  {
    hide NewTables, Leaf;
    assert TablesFor(m, pt, v, 0) == 0;
  }

  lemma FilledAhead(m0: Mem, u0: Roles, m: Mem, u: Roles, pt: nat, first: nat, k: nat)
    requires Filled(m0, u0, m, u, pt, first, k) && LevelOf(u0, pt) == 2
    ensures first + k < MAXVPN ==> Leaf(m, pt, first + k) == Leaf(m0, pt, first + k)
    ensures Vacant(m0, pt, first, k)
  {
    hide Leaf, LowOf, OwnedAt, Targets;
  }

  /** No page of the range is mapped. */
  ghost predicate Vacant(m: Mem, pt: nat, first: nat, k: nat) {
    forall w: nat :: first <= w < first + k ==> !IsValid(Leaf(m, pt, w))
  }

  lemma VacantStep(m: Mem, pt: nat, first: nat, k: nat)
    ensures Vacant(m, pt, first, 0)
    ensures Vacant(m, pt, first, k + 1) <==> Vacant(m, pt, first, k) && !IsValid(Leaf(m, pt, first + k))
  {
    hide Leaf;
  }

  lemma VacantAt(m: Mem, pt: nat, first: nat, k: nat, w: nat)
    requires first <= w < first + k
    ensures Vacant(m, pt, first, k) ==> !IsValid(Leaf(m, pt, w))
  {
    hide Leaf;
  }

  /** Taking and filling a free page n leaves the tables alone. */
  lemma SameTablesTrans(m0: Mem, u0: Roles, n: nat, m: Mem, u: Roles)
    requires n !in u0 && u == u0[n := Other]
    ensures LevelOf(u, n) == 3 && forall q :: LevelOf(u, q) == LevelOf(u0, q)
  {
  }

  lemma SameNew(m0: Mem, u0: Roles, m1: Mem, u1: Roles, pt: nat, v: nat)
    requires SameTables(m0, u0, m1, u1) && LevelOf(u0, pt) == 2
    ensures NewTables(m1, pt, v, v) == NewTables(m0, pt, v, v)
    ensures Leaf(m1, pt, v) == Leaf(m0, pt, v)
  {
    hide Leaf, LowOf, MidOf;
  }

  lemma SameReached(m0: Mem, u0: Roles, m1: Mem, u1: Roles, m: Mem, pt: nat, first: nat, k: nat)
    requires SameTables(m0, u0, m1, u1) && LevelOf(u0, pt) == 2 && Reached(m1, m, pt, first, k)
    ensures Reached(m0, m, pt, first, k)
  {
    hide Leaf, LowOf, MidOf, InBlocks;
  }

  lemma SameTablesMore(m0: Mem, u0: Roles, m1: Mem, u1: Roles, m2: Mem)
    requires SameTables(m0, u0, m1, u1) && SameTables(m1, u1, m2, u1)
    ensures SameTables(m0, u0, m2, u1)
  {
    hide Leaf, LowOf, MidOf;
  }

  lemma MappedZero(m0: Mem, u0: Roles, m: Mem, u: Roles, pt: nat, v: nat, n: nat, perm: nat)
    requires perm < 1024 && Mapped(m0, u0, m, u, pt, v, 0, n, perm, true)
    ensures forall q :: q in u0 ==> q in u && u[q] == u0[q]
  {
    hide Leaf, LowOf, MakePte;
  }

  lemma GaveBack(m0: Mem, u0: Roles, m1: Mem, u1: Roles, m2: Mem, u2: Roles, m: Mem, u: Roles, pt: nat, v: nat,
                 n: nat, perm: nat)
    requires n !in u0 && u1 == u0[n := Other] && SameTables(m0, u0, m1, u1)
    requires forall q :: q in m0 && q != n ==> q in m1 && m1[q] == m0[q]
    requires perm < 1024 && Mapped(m1, u1, m2, u2, pt, v, 0, n, perm, true)
    requires u == u2 - {n} && SameTables(m2, u2, m, u) && forall q :: q in m2 && q != n ==> q in m && m[q] == m2[q]
    ensures Grown(m0, u0, m, u)
  {
    hide Leaf, LowOf, MakePte;
    forall r: nat, w: nat | LevelOf(u0, r) == 2
      ensures w < MAXVPN ==> Leaf(m, r, w) == Leaf(m0, r, w)
      ensures LowOf(m0, r, w) != 0 ==> LowOf(m, r, w) == LowOf(m0, r, w)
    {
      assert LevelOf(u1, r) == 2 && LevelOf(u2, r) == 2;
    }
  }

  lemma FilledOne(m0: Mem, u0: Roles, m1: Mem, u1: Roles, m: Mem, u: Roles, pt: nat, v: nat, n: nat, perm: nat,
                  pg: Page)
    requires n !in u0 && u1 == u0[n := Other] && SameTables(m0, u0, m1, u1) && LevelOf(u0, pt) == 2 && v < MAXVPN
    requires n in m1 && m1[n] == pg && forall q :: q in m0 && q != n ==> q in m1 && m1[q] == m0[q]
    requires perm < 1024 && Mapped(m1, u1, m, u, pt, v, 1, n, perm, true) && !IsValid(Leaf(m1, pt, v))
    ensures Filled(m0, u0, m, u, pt, v, 1) && Holds(m, pt, v, perm, pg)
  {
    hide Leaf, LowOf, MakePte, Px;
    MakePteParts(n, perm);
    assert Leaf(m, pt, v) == MakePte(n, perm);
    assert n in Targets(m, pt, v, 1);
    assert u[n] == Frame(LowOf(m, pt, v), Px(0, v));
  }

  /** Virtual page v of pt is mapped to a frame that belongs to this mapping. */
  ghost predicate OwnedAt(mem: Mem, use: Roles, pt: nat, v: nat) {
    && IsValid(Leaf(mem, pt, v))
    && Target(Leaf(mem, pt, v)) in use && use[Target(Leaf(mem, pt, v))] == Frame(LowOf(mem, pt, v), Px(0, v))
  }

  /** k virtual pages of pt from first on were unmapped and the pages freed given up; no other
      translation, table or page changed. */
  ghost predicate Unmapped(m0: Mem, u0: Roles, m: Mem, u: Roles, pt: nat, first: nat, k: nat, freed: set<nat>) {
    && u == u0 - freed
    && (forall q :: q in freed ==> LevelOf(u0, q) == 3)
    && (forall q :: q in u && LevelOf(u, q) == 3 && q in m0 ==> q in m && m[q] == m0[q])
    && (forall r: nat, w: nat :: LevelOf(u0, r) == 2 && w < MAXVPN ==>
          Leaf(m, r, w) == if r == pt && first <= w < first + k then 0 else Leaf(m0, r, w))
    && (forall r: nat, w: nat :: LevelOf(u0, r) == 2 ==> LowOf(m, r, w) == LowOf(m0, r, w))
  }

  lemma UnmappedPages(m0: Mem, u0: Roles, m: Mem, u: Roles, pt: nat, k: nat)
    requires Unmapped(m0, u0, m, u, pt, 0, k, Targets(m0, pt, 0, k))
    ensures forall q :: q in u && LevelOf(u, q) == 3 && q in m0 ==> q in m && m[q] == m0[q]
  {
    hide Leaf, LowOf;
  }

  lemma MappedHasTable(mem: Mem, pt: nat, v: nat)
    requires IsValid(Leaf(mem, pt, v))
    ensures LowOf(mem, pt, v) != 0
  {
  }

  /** A valid entry of a level-0 table is a leaf, so "uvmunmap: not a leaf" is not reached. */
  lemma LeafEntry(mem: Mem, use: Roles, l: nat, i: nat)
    requires Trees(mem, use) && LevelOf(use, l) == 0 && i < NPTE && IsValid(Ent(mem, l, i))
    ensures Flags(Ent(mem, l, i)) != PTE_V && Rwx(Ent(mem, l, i)) != 0
  {
    hide Ent, IsUser;
    assert EntryOk(use, l, i, Ent(mem, l, i));
  }

  lemma OwnedTarget(mem: Mem, use: Roles, pt: nat, v: nat)
    requires OwnedAt(mem, use, pt, v)
    ensures Target(Leaf(mem, pt, v)) in use && use[Target(Leaf(mem, pt, v))] == Frame(LowOf(mem, pt, v), Px(0, v))
  {
  }

  lemma NotOwned(mem: Mem, use: Roles, pt: nat, v: nat, l: nat, i: nat)
    requires !OwnedAt(mem, use, pt, v) && IsValid(Leaf(mem, pt, v)) && l == LowOf(mem, pt, v) && i == Px(0, v)
    requires Ent(mem, l, i) == Leaf(mem, pt, v)
    ensures Released(use, l, i, Ent(mem, l, i)) == use
  {
    hide Leaf, LowOf, Px, Ent;
  }

  /** kfree of the frame before the entry is cleared leaves the same state as after. */
  lemma ClearThenFree(m0: Mem, u0: Roles, pt: nat, v: nat, l: nat, i: nat, m1: Mem, m: Mem, u: Roles)
    requires Trees(m0, u0) && LevelOf(u0, pt) == 2 && v < MAXVPN
    requires OwnedAt(m0, u0, pt, v) && l == LowOf(m0, pt, v) && l != 0
    requires i == Px(0, v) && i < NPTE && LevelOf(u0, l) == 0
    requires l in m0 && Ent(m0, l, i) == Leaf(m0, pt, v)
    requires var t := Target(Leaf(m0, pt, v)); t in m1 && m1 == m0[t := m1[t]] && u == u0 - {t}
    requires m == SetEnt(m1, l, i, 0)
    ensures Trees(m, u)
    ensures Unmapped(m0, u0, m, u, pt, v, 1, {Target(Leaf(m0, pt, v))})
  {
    hide Leaf, LowOf, Trees, Px, Ent, WithPte;
    var t := Target(Leaf(m0, pt, v));
    ClearLeaf(m0, u0, l, i);
    var mc, uc := SetEnt(m0, l, i, 0), Released(u0, l, i, Ent(m0, l, i));
    assert uc == u0[t := Other];
    DropOther(mc, uc, t);
    assert uc - {t} == u;
    ChangeNonTable(mc, u, t, m1[t]);
    assert l != t;
    assert mc[t := m1[t]] == m;
    UnmappedFrom(m0, u0, mc, uc, pt, v, l, {});
    assert forall r :: LevelOf(u0, r) == 2 ==> LevelOf(u, r) == 2;
    assert forall q :: q in u && LevelOf(u, q) == 3 && q in m0 ==> q in m && m[q] == m0[q];
  }

  lemma UnmappedFrom(m0: Mem, u0: Roles, m: Mem, u: Roles, pt: nat, v: nat, l: nat, freed: set<nat>)
    requires Trees(m0, u0) && LevelOf(u0, pt) == 2 && v < MAXVPN && freed == {}
    requires l == LowOf(m0, pt, v) && l != 0 && LevelOf(u0, l) == 0 && l in m0
    requires m == SetEnt(m0, l, Px(0, v), 0) && LeafChanged(m0, u0, m, l, Px(0, v), 0)
    ensures u == u0 ==> Unmapped(m0, u0, m, u, pt, v, 1, {})
    ensures forall r: nat, w: nat :: LevelOf(u0, r) == 2 && w < MAXVPN ==>
              Leaf(m, r, w) == if r == pt && w == v then 0 else Leaf(m0, r, w)
    ensures forall r: nat, w: nat :: LevelOf(u0, r) == 2 ==> LowOf(m, r, w) == LowOf(m0, r, w)
  {
    hide Leaf, LowOf, Trees, Px, Ent, WithPte;
    forall r: nat, w: nat | LevelOf(u0, r) == 2 && w < MAXVPN
      ensures Leaf(m, r, w) == if r == pt && w == v then 0 else Leaf(m0, r, w)
    {
      if LowOf(m0, r, w) == l && Px(0, w) == Px(0, v) {
        SlotsDistinct(m0, u0, r, w, pt, v);
      }
    }
  }

  /** k virtual pages of pt from first on were mapped to k pages from n on; no other
      translation changed, and besides that only table pages were added. */
  ghost predicate Mapped(m0: Mem, u0: Roles, m: Mem, u: Roles, pt: nat, first: nat, k: nat, n: nat, perm: nat,
                         take: bool)
    requires perm < 1024
  {
    && (forall v :: first <= v < first + k ==> LowOf(m, pt, v) != 0)
    && (forall q :: q in u0 ==> q in u)
    && (forall q :: q in u0 ==>
          u[q] == if take && n <= q < n + k then Frame(LowOf(m, pt, first + q - n), Px(0, first + q - n)) else u0[q])
    && (forall q :: q in u && q !in u0 ==> u[q].Mid? || u[q].Low?)
    && (forall q :: q in u0 && LevelOf(u0, q) == 3 && q in m0 ==> q in m && m[q] == m0[q])
    && (forall r: nat, w: nat :: LevelOf(u0, r) == 2 && w < MAXVPN ==>
          Leaf(m, r, w) == if r == pt && first <= w < first + k then MakePte(n + w - first, perm) else Leaf(m0, r, w))
    && (forall r: nat, w: nat :: LevelOf(u0, r) == 2 && LowOf(m0, r, w) != 0 ==> LowOf(m, r, w) == LowOf(m0, r, w))
  }

  lemma MappedNone(m0: Mem, u0: Roles, pt: nat, first: nat, n: nat, perm: nat, take: bool)
    requires perm < 1024
    ensures Mapped(m0, u0, m0, u0, pt, first, 0, n, perm, take)
  {
    hide Leaf, LowOf, MakePte;
  }

  lemma MappedLevel(m0: Mem, u0: Roles, m: Mem, u: Roles, pt: nat, first: nat, k: nat, n: nat, perm: nat, take: bool,
                    r: nat)
    requires perm < 1024 && Mapped(m0, u0, m, u, pt, first, k, n, perm, take)
    requires LevelOf(u0, r) <= 2
    requires take ==> forall j :: n <= j < n + k ==> j in u0 && u0[j] == Other
    ensures r in u && u[r] == u0[r]
  {
    hide Leaf, LowOf, MakePte;
  }

  /** The page about to be mapped is still as it was. */
  lemma MappedAhead(m0: Mem, u0: Roles, m: Mem, u: Roles, pt: nat, first: nat, k: nat, n: nat, perm: nat, take: bool)
    requires perm < 1024 && Mapped(m0, u0, m, u, pt, first, k, n, perm, take) && LevelOf(u0, pt) == 2
    ensures n + k in u0 ==> n + k in u && u[n + k] == u0[n + k]
    ensures first + k < MAXVPN ==> Leaf(m, pt, first + k) == Leaf(m0, pt, first + k)
  {
    hide Leaf, LowOf, MakePte;
  }

  lemma MappedStep(m0: Mem, u0: Roles, m1: Mem, u1: Roles, m: Mem, u: Roles, pt: nat, first: nat, k: nat, n: nat,
                   perm: nat, take: bool)
    requires perm < 1024 && first + k < MAXVPN && LevelOf(u0, pt) == 2
    requires take ==> forall j :: n <= j <= n + k ==> j in u0 && u0[j] == Other
    requires Mapped(m0, u0, m1, u1, pt, first, k, n, perm, take)
    requires Mapped(m1, u1, m, u, pt, first + k, 1, n + k, perm, take)
    ensures Mapped(m0, u0, m, u, pt, first, k + 1, n, perm, take)
  {
    hide Leaf, LowOf, MakePte, Px;
    assert LevelOf(u1, pt) == 2;
    assert forall r :: LevelOf(u0, r) == 2 ==> LevelOf(u1, r) == 2;
  }

  /** Growing after mapping is mapping. */
  lemma MappedGrown(m0: Mem, u0: Roles, m1: Mem, u1: Roles, m: Mem, u: Roles, pt: nat, first: nat, k: nat, n: nat,
                    perm: nat, take: bool)
    requires perm < 1024 && LevelOf(u0, pt) == 2
    requires take ==> forall j :: n <= j < n + k ==> j in u0 && u0[j] == Other
    requires Mapped(m0, u0, m1, u1, pt, first, k, n, perm, take) && Grown(m1, u1, m, u)
    ensures Mapped(m0, u0, m, u, pt, first, k, n, perm, take)
  {
    hide Leaf, LowOf, MakePte, Px;
    assert LevelOf(u1, pt) == 2;
    assert forall r :: LevelOf(u0, r) == 2 ==> LevelOf(u1, r) == 2;
  }

  lemma LeafIs(mem: Mem, pt: nat, v: nat, l: nat, i: nat)
    requires l == LowOf(mem, pt, v) && l != 0 && i == Px(0, v)
    ensures Leaf(mem, pt, v) == Ent(mem, l, i)
  {
  }

  lemma GrownLeaf(m0: Mem, u0: Roles, m1: Mem, u1: Roles, r: nat, v: nat)
    requires Grown(m0, u0, m1, u1) && LevelOf(u0, r) == 2 && v < MAXVPN
    ensures Leaf(m1, r, v) == Leaf(m0, r, v)
  {
  }

  lemma MakePteFits(n: nat, perm: nat)
    requires n < UINT64 / 2048 && perm < 1024
    ensures MakePte(n, perm) < UINT64
  {
  }

  lemma MakePteParts(n: nat, perm: nat)
    requires perm < 1024
    ensures Target(MakePte(n, perm)) == n && Flags(MakePte(n, perm)) == WithV(perm) && IsValid(MakePte(n, perm))
    ensures Rwx(MakePte(n, perm)) == Rwx(perm) && IsUser(MakePte(n, perm)) == IsUser(perm)
  {
    hide MakePte;
  }

  lemma PxBound(v: nat)
    ensures Px(0, v) < NPTE
  {
  }

  lemma MappedFrom(m0: Mem, u0: Roles, m1: Mem, u1: Roles, m: Mem, u: Roles, pt: nat, v: nat, l: nat, n: nat,
                   perm: nat, take: bool)
    requires Grown(m0, u0, m1, u1) && Trees(m1, u1) && perm < 1024
    requires v < MAXVPN && LevelOf(u1, pt) == 2 && LevelOf(u0, pt) == 2
    requires l == LowOf(m1, pt, v) && l != 0 && LevelOf(u1, l) == 0
    requires take ==> n in u1 && u1[n] == Other && n in u0
    requires u == if take then u1[n := Frame(l, Px(0, v))] else u1
    requires m.Keys == m1.Keys && forall q :: q in m1 && q != l ==> m[q] == m1[q]
    requires LeafChanged(m1, u1, m, l, Px(0, v), MakePte(n, perm))
    ensures Mapped(m0, u0, m, u, pt, v, 1, n, perm, take)
  {
    hide Leaf, LowOf, Trees, Px, MakePte;
    forall r: nat, w: nat | LevelOf(u0, r) == 2 && w < MAXVPN
      ensures Leaf(m, r, w) == if r == pt && w == v then MakePte(n, perm) else Leaf(m0, r, w)
    {
      assert LevelOf(u1, r) == 2;
      if LowOf(m1, r, w) == l && Px(0, w) == Px(0, v) {
        SlotsDistinct(m1, u1, r, w, pt, v);
      }
    }
  }

  lemma MappedReached(m0: Mem, m1: Mem, u1: Roles, m: Mem, pt: nat, v: nat, l: nat, i: nat, e: nat)
    requires Reached(m0, m1, pt, v, 1) && LeafChanged(m1, u1, m, l, i, e) && LevelOf(u1, pt) == 2
    requires forall w: nat :: MidOf(m, pt, w) == MidOf(m1, pt, w)
    ensures Reached(m0, m, pt, v, 1)
  {
    hide Leaf, LowOf, MidOf, InBlocks;
  }

  lemma GrownTrans(m0: Mem, u0: Roles, m1: Mem, u1: Roles, m2: Mem, u2: Roles)
    requires Grown(m0, u0, m1, u1) && Grown(m1, u1, m2, u2)
    ensures Grown(m0, u0, m2, u2)
  {
    hide Leaf, LowOf;
  }

  lemma GrownRole(m0: Mem, u0: Roles, m1: Mem, u1: Roles, p: nat)
    requires Grown(m0, u0, m1, u1) && p in u0
    ensures p in u1 && u1[p] == u0[p]
  {
    hide Leaf, LowOf;
  }

  /** The role of a level-0 table says which virtual pages lead to it. */
  lemma RoleLow(mem: Mem, use: Roles, pt: nat, v: nat, m: nat, l: nat)
    requires Trees(mem, use) && m in use && use[m] == Mid(pt, Px(2, v)) && l in use && use[l] == Low(m, Px(1, v))
    ensures LowOf(mem, pt, v) == l && l != 0
  {
    hide Ent;
    assert HangsOk(mem, use, m) && HangsOk(mem, use, l);
  }

  /** How many tables walk has added for page v when it stands at this level. */
  function Added(m0: Mem, pt: nat, v: nat, level: nat): nat {
    (if level <= 1 && MidOf(m0, pt, v) == 0 then 1 else 0) + (if level == 0 && LowOf(m0, pt, v) == 0 then 1 else 0)
  }

  /** And which tables of the root are then there. */
  ghost predicate Progress(m0: Mem, m: Mem, pt: nat, v: nat, level: nat) {
    && (level <= 1 ==> MidOf(m, pt, v) != 0)
    && (forall w: nat :: (MidOf(m, pt, w) != 0 <==> MidOf(m0, pt, w) != 0 || (level <= 1 && Px(2, w) == Px(2, v))))
    && (forall w: nat :: (LowOf(m, pt, w) != 0 <==>
                            LowOf(m0, pt, w) != 0 || (level == 0 && Px(2, w) == Px(2, v) && Px(1, w) == Px(1, v))))
  }

  lemma ProgressNone(m: Mem, pt: nat, v: nat)
    ensures Progress(m, m, pt, v, 2) && Added(m, pt, v, 2) == 0
  {
    hide MidOf, LowOf, Px;
  }

  lemma ProgressDone(m0: Mem, m: Mem, pt: nat, v: nat)
    requires v < MAXVPN && Progress(m0, m, pt, v, 0)
    ensures Reached(m0, m, pt, v, 1) && Added(m0, pt, v, 0) == NewTables(m0, pt, v, v)
  {
    hide MidOf, LowOf, Px, InBlocks;
    forall w: nat | w < MAXVPN
      ensures MidOf(m, pt, w) != 0 <==> MidOf(m0, pt, w) != 0 || InBlocks(v, 1, w, 262144)
      ensures LowOf(m, pt, w) != 0 <==> LowOf(m0, pt, w) != 0 || InBlocks(v, 1, w, 512)
    {
      BlocksStep(v, 0, w, 262144);
      BlocksStep(v, 0, w, 512);
      IndexBlocks(v, w);
    }
  }

  lemma ProgressStep(m0: Mem, m1: Mem, u1: Roles, m: Mem, pt: nat, v: nat, level: nat, p: nat, c: nat)
    requires Trees(m1, u1) && LevelOf(u1, pt) == 2 && 1 <= level <= 2 && Progress(m0, m1, pt, v, level)
    requires p == if level == 2 then pt else MidOf(m1, pt, v)
    requires c != 0 ==> c == Next(m, p, Px(level, v))
    requires c != 0 && Next(m1, p, Px(level, v)) != 0 ==> m == m1
    requires c != 0 && Next(m1, p, Px(level, v)) == 0 ==>
      NextsKept(m1, u1, m, p, Px(level, v)) && forall j :: Next(m, c, j) == 0
    ensures c != 0 ==> Progress(m0, m, pt, v, level - 1)
    ensures Added(m0, pt, v, level - 1) == Added(m0, pt, v, level) + if Next(m1, p, Px(level, v)) == 0 then 1 else 0
    ensures c == 0 && Next(m1, p, Px(level, v)) == 0 ==> Added(m0, pt, v, level) < NewTables(m0, pt, v, v)
    ensures c != 0 && level == 2 ==> c == MidOf(m, pt, v)
  {
    hide Next, Trees, NextsKept, Px;
    if c != 0 {
      if Next(m1, p, Px(level, v)) == 0 {
        if level == 2 { MidReached(m1, u1, m, pt, v); } else { LowReached(m1, u1, m, pt, v); }
      } else {
        SameIndices(m, pt, v);
      }
    }
  }

  lemma SameIndices(m: Mem, pt: nat, v: nat)
    ensures forall w: nat :: Px(2, w) == Px(2, v) ==> MidOf(m, pt, w) == MidOf(m, pt, v)
    ensures forall w: nat :: Px(2, w) == Px(2, v) && Px(1, w) == Px(1, v) ==> LowOf(m, pt, w) == LowOf(m, pt, v)
  {
    hide Px, Next;
  }

  lemma SameLevels(m0: Mem, u0: Roles, m: Mem, u: Roles)
    requires SameTables(m0, u0, m, u)
    ensures forall q :: LevelOf(u, q) == LevelOf(u0, q)
  {
    hide Leaf, LowOf, MidOf;
  }

  lemma NodeGrown(m0: Mem, u0: Roles, m1: Mem, u1: Roles, m: Mem, u: Roles, p: nat, c: nat)
    requires c !in u0 && u1 == u0[c := Other] && SameTables(m0, u0, m1, u1)
    requires (forall q :: q in u0 ==> q in m0) && forall q :: q in m0 && q != c ==> q in m1 && m1[q] == m0[q]
    requires u.Keys == u1.Keys && (forall q :: q in u1 && q != c ==> u[q] == u1[q]) && (u[c].Mid? || u[c].Low?)
    requires m.Keys == m1.Keys && (forall q :: q in m1 && q != p ==> m[q] == m1[q]) && LevelOf(u0, p) <= 2
    requires forall r, v :: LevelOf(u1, r) == 2 ==> Leaf(m, r, v) == Leaf(m1, r, v)
    requires forall r, v :: LevelOf(u1, r) == 2 && LowOf(m1, r, v) != 0 ==> LowOf(m, r, v) == LowOf(m1, r, v)
    ensures Grown(m0, u0, m, u)
  {
    hide Leaf, LowOf, MidOf;
    assert forall r :: LevelOf(u0, r) == 2 ==> LevelOf(u1, r) == 2;
  }

  lemma NewNexts(m0: Mem, u0: Roles, m1: Mem, m: Mem, p: nat, i: nat, c: nat)
    requires p in m1 && p in u0 && p != c && c !in u0 && i < NPTE && c < UINT64 / 2048
    requires forall q :: q in m0 && q != c ==> q in m1 && m1[q] == m0[q]
    requires forall q :: q in u0 ==> q in m0
    requires c in m1 && m1[c] == Zeros(PGSIZE) && m == SetEnt(m1, p, i, MakePte(c, 0))
    ensures NextsKept(m0, u0, m, p, i) && forall j :: Next(m, c, j) == 0
  {
    hide Pte, WithPte, SetEnt, MakePte;
    NodeEntry(c);
    forall q, j
      ensures Ent(m, q, j) == if q == p && j == i then MakePte(c, 0) else Ent(m1, q, j)
    {
      EntSet(m1, p, i, MakePte(c, 0), q, j);
    }
    forall j: nat
      ensures Ent(m1, c, j) == 0
    {
      PteZero(j);
    }
  }

  lemma WalkFails(mem: Mem, use: Roles, pt: nat, v: nat, p: nat, level: nat)
    requires Trees(mem, use) && 1 <= level <= 2 && Next(mem, p, Px(level, v)) == 0
    requires if level == 2 then p == pt else p in use && use[p] == Mid(pt, Px(2, v))
    ensures LowOf(mem, pt, v) == 0
  {
    hide Ent;
    if level == 1 {
      assert HangsOk(mem, use, p);
    }
  }

  lemma GrownRefl(mem: Mem, use: Roles)
    ensures Grown(mem, use, mem, use)
  {
  }

  /** Table pages may have been added; everything else is as it was. */
  ghost predicate Grown(mem: Mem, use: Roles, mem': Mem, use': Roles) {
    && (forall q :: q in use ==> q in use' && use'[q] == use[q])
    && (forall q :: q in use' && q !in use ==> use'[q].Mid? || use'[q].Low?)
    && (forall q :: q in use && LevelOf(use, q) == 3 && q in mem ==> q in mem' && mem'[q] == mem[q])
    && (forall r: nat, v: nat :: LevelOf(use, r) == 2 && v < MAXVPN ==> Leaf(mem', r, v) == Leaf(mem, r, v))
    && (forall r: nat, v: nat :: LevelOf(use, r) == 2 && LowOf(mem, r, v) != 0 ==> LowOf(mem', r, v) == LowOf(mem, r, v))
  }

  lemma FilledNone(m: Mem, u: Roles, pt: nat, first: nat)
    ensures Filled(m, u, m, u, pt, first, 0)
  {
    hide Leaf, LowOf;
  }

  lemma FilledStep(m0: Mem, u0: Roles, m1: Mem, u1: Roles, m: Mem, u: Roles, pt: nat, first: nat, k: nat)
    requires LevelOf(u0, pt) == 2 && first + k < MAXVPN
    requires Filled(m0, u0, m1, u1, pt, first, k) && Filled(m1, u1, m, u, pt, first + k, 1)
    ensures Filled(m0, u0, m, u, pt, first, k + 1)
    ensures forall r :: LevelOf(u0, r) == 2 ==> LevelOf(u, r) == 2
  {
    hide Leaf, LowOf, Px, Targets, OwnedAt;
    assert forall r :: LevelOf(u0, r) == 2 ==> LevelOf(u1, r) == 2;
    forall w: nat | first <= w < first + k
      ensures OwnedAt(m, u, pt, w) && Target(Leaf(m, pt, w)) == Target(Leaf(m1, pt, w))
    {
      OwnedStays(m1, u1, m, u, pt, first + k, 1, w);
    }
    TargetsSame(m1, m, pt, first, k);
    TargetsStep(m, pt, first, k);
    TargetsStep(m, pt, first + k, 0);
    TargetsNone(m, pt, first + k);
  }

  lemma TargetsNone(m: Mem, pt: nat, first: nat)
    ensures Targets(m, pt, first, 0) == {}
  {
  }

  lemma TargetsSame(m1: Mem, m: Mem, pt: nat, first: nat, k: nat)
    requires forall w: nat :: first <= w < first + k ==> Target(Leaf(m, pt, w)) == Target(Leaf(m1, pt, w))
    ensures Targets(m, pt, first, k) == Targets(m1, pt, first, k)
  {
    hide Leaf;
  }

  /** Filling other pages keeps a mapping and its frame. */
  lemma OwnedStays(m1: Mem, u1: Roles, m: Mem, u: Roles, pt: nat, first: nat, k: nat, w: nat)
    requires Filled(m1, u1, m, u, pt, first, k) && LevelOf(u1, pt) == 2 && w < MAXVPN
    requires OwnedAt(m1, u1, pt, w) && !(first <= w < first + k)
    ensures OwnedAt(m, u, pt, w) && Leaf(m, pt, w) == Leaf(m1, pt, w)
  {
    hide LowOf, Px, Leaf;
    MappedHasTable(m1, pt, w);
  }

  lemma FilledGrown(m0: Mem, u0: Roles, m1: Mem, u1: Roles, m: Mem, u: Roles, pt: nat, first: nat, k: nat)
    requires LevelOf(u0, pt) == 2 && first + k <= MAXVPN
    requires Filled(m0, u0, m1, u1, pt, first, k) && Grown(m1, u1, m, u)
    ensures Filled(m0, u0, m, u, pt, first, k) && LevelOf(u, pt) == 2
  {
    hide Leaf, LowOf, Px, Targets, OwnedAt;
    assert forall r :: LevelOf(u0, r) == 2 ==> LevelOf(u1, r) == 2;
    forall w: nat | first <= w < first + k
      ensures OwnedAt(m, u, pt, w) && Target(Leaf(m, pt, w)) == Target(Leaf(m1, pt, w))
    {
      OwnedGrows(m1, u1, m, u, pt, w);
    }
    TargetsSame(m1, m, pt, first, k);
  }

  lemma OwnedGrows(m1: Mem, u1: Roles, m: Mem, u: Roles, pt: nat, w: nat)
    requires Grown(m1, u1, m, u) && LevelOf(u1, pt) == 2 && w < MAXVPN && OwnedAt(m1, u1, pt, w)
    ensures OwnedAt(m, u, pt, w) && Leaf(m, pt, w) == Leaf(m1, pt, w)
  {
    hide LowOf, Px, Leaf;
    MappedHasTable(m1, pt, w);
  }

  lemma FilledOwned(m0: Mem, u0: Roles, m: Mem, u: Roles, pt: nat, first: nat, k: nat)
    requires Filled(m0, u0, m, u, pt, first, k)
    ensures forall w: nat :: first <= w < first + k ==> OwnedAt(m, u, pt, w) && IsValid(Leaf(m, pt, w))
  {
    hide LowOf, Px, Leaf;
  }

  /** Filling and then unmapping the same pages leaves only table pages behind. */
  lemma RolledBack(m0: Mem, u0: Roles, m1: Mem, u1: Roles, m: Mem, u: Roles, pt: nat, first: nat, k: nat)
    requires LevelOf(u0, pt) == 2 && first + k <= MAXVPN
    requires Filled(m0, u0, m1, u1, pt, first, k)
    requires Unmapped(m1, u1, m, u, pt, first, k, Targets(m1, pt, first, k))
    requires Trees(m0, u0)
    ensures Grown(m0, u0, m, u)
  {
    hide Leaf, LowOf, Px, Trees;
    assert forall r :: LevelOf(u0, r) == 2 ==> LevelOf(u1, r) == 2;
    forall w: nat | first <= w < first + k
      ensures Leaf(m0, pt, w) == 0
    {
      UnmappedLeaf(m0, u0, pt, w);
    }
  }

  lemma HoldsStay(m0: Mem, u0: Roles, m1: Mem, u1: Roles, m: Mem, u: Roles, pt: nat, first: nat, k: nat, perm: nat,
                  pg: Page)
    requires LevelOf(u0, pt) == 2 && first + k < MAXVPN && perm < 1024
    requires Filled(m0, u0, m1, u1, pt, first, k) && Filled(m1, u1, m, u, pt, first + k, 1)
    requires forall w: nat :: first <= w < first + k ==> Holds(m1, pt, w, perm, pg)
    requires Holds(m, pt, first + k, perm, pg)
    ensures forall w: nat :: first <= w < first + k + 1 ==> Holds(m, pt, w, perm, pg)
  {
    hide Leaf, LowOf, Px;
    forall w: nat | first <= w < first + k
      ensures Holds(m, pt, w, perm, pg)
    {
      HoldsStays(m1, u1, m, u, pt, first + k, w, perm, pg);
    }
  }

  lemma HoldsStays(m1: Mem, u1: Roles, m: Mem, u: Roles, pt: nat, v: nat, w: nat, perm: nat, pg: Page)
    requires LevelOf(u1, pt) == 2 && w < MAXVPN && perm < 1024 && w != v
    requires Filled(m1, u1, m, u, pt, v, 1) && OwnedAt(m1, u1, pt, w) && Holds(m1, pt, w, perm, pg)
    ensures Holds(m, pt, w, perm, pg)
  {
    hide Leaf, LowOf, Px;
    OwnedStays(m1, u1, m, u, pt, v, 1, w);
  }

  /** In m, page w of to is a copy of what page w of from was in m0. */
  ghost predicate CopyOf(m0: Mem, u0: Roles, from: nat, m: Mem, to: nat, w: nat) {
    && Target(Leaf(m0, from, w)) in m0
    && Holds(m, to, w, Flags(Leaf(m0, from, w)), m0[Target(Leaf(m0, from, w))])
  }

  lemma SourceStays(m0: Mem, u0: Roles, m: Mem, u: Roles, from: nat, to: nat, k: nat)
    requires Trees(m0, u0) && LevelOf(u0, from) == 2 && LevelOf(u0, to) == 2 && k < MAXVPN
    requires Filled(m0, u0, m, u, to, 0, k) && OwnedAt(m0, u0, from, k)
    ensures Leaf(m, from, k) == Leaf(m0, from, k) && IsValid(Leaf(m, from, k)) && LowOf(m, from, k) != 0
    ensures Target(Leaf(m0, from, k)) in m0 && Target(Leaf(m0, from, k)) in m
    ensures m[Target(Leaf(m0, from, k))] == m0[Target(Leaf(m0, from, k))]
  {
    hide Leaf, LowOf, Px, Trees;
    InMemory(m0, u0, Target(Leaf(m0, from, k)));
    MappedHasTable(m, from, k);
  }

  /** A table whose pages are present has no room for a copy of itself. */
  lemma NotOntoItself(m: Mem, u: Roles, pt: nat, sz: nat)
    requires 0 < sz && forall w: nat :: w < PagesUp(sz) ==> OwnedAt(m, u, pt, w)
    ensures !Vacant(m, pt, 0, PagesUp(sz))
  {
    hide Leaf, LowOf, Px;
    assert OwnedAt(m, u, pt, 0) && 0 < PagesUp(sz);
  }

  lemma CopyIntro(m0: Mem, u0: Roles, from: nat, m: Mem, to: nat, w: nat, pg: Page)
    requires Target(Leaf(m0, from, w)) in m0 && m0[Target(Leaf(m0, from, w))] == pg
    requires Holds(m, to, w, Flags(Leaf(m0, from, w)), pg)
    ensures CopyOf(m0, u0, from, m, to, w)
  {
  }

  lemma CopiesStay(m0: Mem, u0: Roles, m1: Mem, u1: Roles, m: Mem, u: Roles, from: nat, to: nat, k: nat)
    requires LevelOf(u0, to) == 2 && k < MAXVPN
    requires Filled(m0, u0, m1, u1, to, 0, k) && Filled(m1, u1, m, u, to, k, 1)
    requires forall w: nat :: w < k ==> CopyOf(m0, u0, from, m1, to, w)
    requires CopyOf(m0, u0, from, m, to, k)
    ensures forall w: nat :: w < k + 1 ==> CopyOf(m0, u0, from, m, to, w)
  {
    hide Leaf, LowOf, Px, Holds;
    forall w: nat | w < k
      ensures CopyOf(m0, u0, from, m, to, w)
    {
      assert CopyOf(m0, u0, from, m1, to, w);
      HoldsStays(m1, u1, m, u, to, k, w, Flags(Leaf(m0, from, w)), m0[Target(Leaf(m0, from, w))]);
    }
  }

  lemma EmptyRoot(mem: Mem, pt: nat)
    requires forall j :: 0 <= j < NPTE ==> Ent(mem, pt, j) == 0
    ensures forall w: nat :: !IsValid(Leaf(mem, pt, w)) && MidOf(mem, pt, w) == 0
  {
    hide Ent;
    forall w: nat
      ensures MidOf(mem, pt, w) == 0
    {
      PxTwo(w);
    }
  }

  lemma TopSelf(use: Roles, p: nat)
    requires p in use && use[p].Loose?
    ensures Top(use, p) == p
  {
  }

  lemma LooseStack(mem: Mem, use: Roles, stack: set<nat>)
    requires forall q :: q in stack ==> q in use && use[q].Loose?
    ensures forall q :: q in stack ==> Top(use, q) == q
  {
  }

  lemma SameEnt(m1: Mem, m2: Mem, p: nat, i: nat)
    requires p in m1 && p in m2 && m1[p] == m2[p]
    ensures Ent(m1, p, i) == Ent(m2, p, i)
  {
    hide Pte;
  }

  lemma PointerEntry(mem: Mem, use: Roles, p: nat, i: nat)
    requires Trees(mem, use) && p in use && use[p].Loose? && i < NPTE
    ensures 0 <= LevelOf(use, p) <= 2
    ensures IsValid(Ent(mem, p, i)) && Rwx(Ent(mem, p, i)) == 0 ==> 1 <= LevelOf(use, p)
    ensures IsValid(Ent(mem, p, i)) && 1 <= LevelOf(use, p) ==> Rwx(Ent(mem, p, i)) == 0
  {
    hide Ent;
    assert HangsOk(mem, use, p) && EntryOk(use, p, i, Ent(mem, p, i));
  }

  lemma ClearedEntries(cur: Mem, cur1: Mem, cur': Mem, p: nat, i: nat)
    requires p in cur && i < NPTE && cur1 == SetEnt(cur, p, i, 0) && p in cur' && cur'[p] == cur1[p]
    ensures forall j :: 0 <= j < NPTE ==> Ent(cur', p, j) == if j == i then 0 else Ent(cur, p, j)
  {
    hide Ent, SetEnt;
    forall j | 0 <= j < NPTE
      ensures Ent(cur', p, j) == if j == i then 0 else Ent(cur, p, j)
    {
      EntSet(cur, p, i, 0, p, j);
      KeysSet(cur, p, i, 0);
      SameEnt(cur', cur1, p, j);
    }
  }

  lemma SetSame(cur: Mem, cur1: Mem, p: nat, i: nat)
    requires p in cur && cur1 == SetEnt(cur, p, i, 0)
    ensures forall m: Mem :: p in m && m[p] == cur[p] ==> SetEnt(m, p, i, 0) == m[p := cur1[p]]
  {
    hide WithPte;
  }

  /** Giving up the tree below c, which was cut off from p, leaves the other trees as they were. */
  lemma TopKept(mem: Mem, use1: Roles, use: Roles, c: nat)
    requires Trees(mem, use1)
    requires forall q :: q in use <==> q in use1 && Top(use1, q) != c
    requires forall q :: q in use ==> use[q] == use1[q]
    ensures forall q :: q in use ==> Top(use, q) == Top(use1, q)
  {
    hide Ent;
    forall q | q in use
      ensures Top(use, q) == Top(use1, q)
    {
      TopOfParent(mem, use1, q);
      assert HangsOk(mem, use1, q);
      if !use1[q].Loose? && use1[q] != Other {
        var q1 := use1[q].parent;
        TopOfParent(mem, use1, q1);
        assert HangsOk(mem, use1, q1);
      }
    }
  }

  lemma AllInMemory(mem: Mem, use: Roles)
    requires Trees(mem, use)
    ensures forall q :: q in use ==> q in mem
  {
    hide Ent;
  }

  ghost predicate Shadow(mem: Mem, use: Roles, pm: Mem, stack: set<nat>) {
    && pm.Keys == mem.Keys
    && (forall q :: q in stack ==> q in use && use[q].Loose? && q in pm)
    && (forall q :: q in pm && q !in stack ==> pm[q] == mem[q])
  }

  lemma ShadowStack(mem: Mem, use: Roles, pm: Mem, stack: set<nat>)
    requires Shadow(mem, use, pm, stack)
    ensures pm.Keys == mem.Keys && forall q :: q in stack ==> q in use && use[q].Loose? && q in pm && q in mem
  {
  }

  lemma ShadowAt(mem: Mem, use: Roles, pm: Mem, stack: set<nat>, p: nat)
    requires Shadow(mem, use, pm, stack) && p !in stack && p in pm
    ensures p in mem && pm[p] == mem[p]
  {
  }

  /** Table p goes on the stack when its child c is cut off. */
  lemma ShadowPush(mem: Mem, use0: Roles, use1: Roles, cur: Mem, stack: set<nat>, p: nat, c: nat, cur1: Mem)
    requires Shadow(mem, use0, cur, stack) && p in use0 && use0[p].Loose? && p in cur && cur1.Keys == cur.Keys
    requires (forall q :: q in cur && q != p ==> cur1[q] == cur[q]) && use1.Keys == use0.Keys
    requires c !in stack && c != p && forall q :: q in use0 && q != c ==> use1[q] == use0[q]
    ensures Shadow(mem, use1, cur1, stack + {p}) && c !in stack + {p}
  {
  }

  /** And comes off it when its entry is cleared. */
  lemma ShadowPop(mem1: Mem, mem: Mem, use: Roles, cur: Mem, stack: set<nat>, p: nat)
    requires Shadow(mem1, use, cur, stack + {p}) && mem.Keys == mem1.Keys && p in mem && p in cur && cur[p] == mem[p]
    requires forall q :: q in mem1 && q != p ==> mem[q] == mem1[q]
    ensures Shadow(mem, use, cur, stack)
  {
  }

  /** Only pages of the tree of p have been given up. */
  ghost predicate Pruned(use0: Roles, use: Roles, p: nat) {
    && (forall q :: q in use ==> q in use0 && use[q] == use0[q] && Top(use, q) == Top(use0, q))
    && (forall q :: q in use0 && Top(use0, q) != p ==> q in use)
  }

  /** The pages in use other than p read as before. */
  ghost predicate KeptBut(m0: Mem, m: Mem, use: Roles, p: nat) {
    forall q :: q in use && q != p ==> q in m && q in m0 && m[q] == m0[q]
  }

  lemma PrunedNone(use: Roles, m: Mem, p: nat)
    requires forall q :: q in use ==> q in m
    ensures Pruned(use, use, p) && KeptBut(m, m, use, p)
  {
    hide Top;
  }

  lemma KeptCut(m0: Mem, m1: Mem, m2: Mem, use: Roles, p: nat)
    requires m1.Keys == m0.Keys && forall q :: q in m0 && q != p ==> m1[q] == m0[q]
    requires forall q :: q in use ==> q in m2 && q in m1 && m2[q] == m1[q]
    ensures KeptBut(m0, m2, use, p)
  {
  }

  lemma PrunedTrans(u0: Roles, u1: Roles, u2: Roles, p: nat)
    requires Pruned(u0, u1, p) && Pruned(u1, u2, p)
    ensures Pruned(u0, u2, p)
  {
    hide Top;
  }

  lemma KeptTrans(m0: Mem, m1: Mem, u1: Roles, m2: Mem, u2: Roles, p: nat)
    requires KeptBut(m0, m1, u1, p) && KeptBut(m1, m2, u2, p) && Pruned(u1, u2, p)
    ensures KeptBut(m0, m2, u2, p)
  {
    hide Top;
  }

  lemma PrunedFrames(u0: Roles, u: Roles, p: nat)
    requires Pruned(u0, u, p) && forall q :: q in u0 && u0[q].Frame? ==> Top(u0, q) != p
    ensures forall q :: q in u && u[q].Frame? ==> Top(u, q) != p
  {
    hide Top;
  }

  lemma WalkDone(u0: Roles, u1: Roles, u: Roles, m0: Mem, m1: Mem, m: Mem, p: nat)
    requires Pruned(u0, u1, p) && KeptBut(m0, m1, u1, p) && u == u1 - {p} && p in u1 && Top(u0, p) == p
    requires p in m1 && p in m && m == m1[p := m[p]] && forall q :: q in u1 && Top(u1, q) == p ==> q == p
    ensures forall q :: q in u <==> q in u0 && Top(u0, q) != p
    ensures forall q :: q in u ==> u[q] == u0[q] && q in m && q in m0 && m[q] == m0[q]
  {
    hide Top;
  }

  lemma FreedChild(mem: Mem, use0: Roles, use1: Roles, use: Roles, p: nat, c: nat)
    requires Trees(mem, use1) && c in use0 && c != p && p in use0 && Top(use0, p) == p && c in use1 && Top(use1, c) == c
    requires use1.Keys == use0.Keys && forall q :: q in use0 && q != c ==> use1[q] == use0[q]
    requires forall q :: q in use0 && Top(use1, q) != Top(use0, q) ==> Top(use0, q) == p && Top(use1, q) == c
    requires forall q :: q in use0 && Top(use1, q) == c ==> Top(use0, q) == p
    requires forall q :: q in use <==> q in use1 && Top(use1, q) != c
    requires forall q :: q in use ==> use[q] == use1[q]
    ensures Pruned(use0, use, p)
  {
    hide Trees, Top;
    TopKept(mem, use1, use, c);
  }

  lemma OwnedIsValid(mem: Mem, use: Roles, pt: nat, v: nat)
    requires OwnedAt(mem, use, pt, v)
    ensures IsValid(Leaf(mem, pt, v))
  {
  }

  /** Removing frames moves no page to another tree. */
  lemma UnmappedTops(m0: Mem, u0: Roles, m1: Mem, u1: Roles, pt: nat, k: nat)
    requires Trees(m0, u0) && pt in u0 && u0[pt] == Loose(2)
    requires Unmapped(m0, u0, m1, u1, pt, 0, k, Targets(m0, pt, 0, k))
    requires forall w: nat :: w < k ==> OwnedAt(m0, u0, pt, w)
    requires forall q :: q in u0 && u0[q].Frame? && Top(u0, q) == pt ==> q in Targets(m0, pt, 0, k)
    ensures pt in u1 && u1[pt] == u0[pt]
    ensures forall q :: q in u1 ==> q in u0 && u1[q] == u0[q] && Top(u1, q) == Top(u0, q)
    ensures forall q :: q in u1 && u1[q].Frame? ==> Top(u1, q) != pt
    ensures forall q :: q in u0 && q !in u1 ==> Top(u0, q) == pt
  {
    hide Ent, Leaf, LowOf;
    forall q | q in u1
      ensures Top(u1, q) == Top(u0, q)
    {
      assert HangsOk(m0, u0, q);
      if u0[q].Low? || u0[q].Frame? {
        assert HangsOk(m0, u0, u0[q].parent);
      }
    }
    forall q | q in u0 && q !in u1
      ensures Top(u0, q) == pt
    {
      var w: nat :| w < k && q == Target(Leaf(m0, pt, w));
      assert OwnedAt(m0, u0, pt, w);
      MappedHasTable(m0, pt, w);
      LowOfRole(m0, u0, pt, w);
    }
  }

  lemma OtherTrees(m0: Mem, u0: Roles, m1: Mem, u1: Roles, m: Mem, u: Roles, pt: nat, k: nat)
    requires Trees(m1, u1) && LevelOf(u0, pt) == 2
    requires Unmapped(m0, u0, m1, u1, pt, 0, k, Targets(m0, pt, 0, k))
    requires forall q :: q in u <==> q in u1 && Top(u1, q) != pt
    requires forall q :: q in u ==> q in m && q in m1 && m[q] == m1[q]
    ensures forall r: nat, w: nat :: w < MAXVPN && r != pt && r in u0 && u0[r] == Loose(2) ==>
              Leaf(m, r, w) == Leaf(m0, r, w) && LowOf(m, r, w) == LowOf(m0, r, w)
  {
    hide Ent, Leaf, LowOf, Trees;
    forall r: nat, w: nat | w < MAXVPN && r != pt && r in u0 && u0[r] == Loose(2)
      ensures Leaf(m, r, w) == Leaf(m0, r, w) && LowOf(m, r, w) == LowOf(m0, r, w)
    {
      assert r in u1 && u1[r] == Loose(2) && Top(u1, r) == r;
      SameTree(m1, u1, m, r, w);
    }
  }

  // ---------- user memory ----------

  /** The page behind virtual page v for user accesses, or 0. */
  function UserPage(mem: Mem, pt: nat, v: nat): nat {
    if v < MAXVPN && IsValid(Leaf(mem, pt, v)) && IsUser(Leaf(mem, pt, v)) then Target(Leaf(mem, pt, v)) else 0
  }

  /** The pages from the end of a space of oldsz bytes up to newsz are open to the user in every way, and zero. */
  ghost predicate FreshUser(mem: Mem, pt: nat, oldsz: nat, newsz: nat) {
    && (forall w: nat :: (oldsz + 4095) / 4096 <= w < (newsz + 4095) / 4096 ==> UserRwx(mem, pt, w))
    && forall a: nat :: (oldsz + 4095) / 4096 * 4096 <= a < newsz ==> Readable(mem, pt, a) && UserByte(mem, pt, a) == 0
  }

  /** Valid, readable, writable, executable and user: the five low bits, and no other flag. */
  predicate UserRwx(mem: Mem, pt: nat, w: nat) {
    Leaf(mem, pt, w) % 1024 == 1 + 2 + 4 + 8 + 16
  }

  lemma RwxIsUser(mem: Mem, use: Roles, pt: nat, w: nat)
    requires Trees(mem, use) && LevelOf(use, pt) == 2 && w < MAXVPN && UserRwx(mem, pt, w)
    ensures IsValid(Leaf(mem, pt, w)) && IsUser(Leaf(mem, pt, w)) && Rwx(Leaf(mem, pt, w)) == 7
    ensures UserPage(mem, pt, w) == Target(Leaf(mem, pt, w)) != 0 && UserPage(mem, pt, w) in mem
  {
    RwxBits(Leaf(mem, pt, w));
    hide Leaf, Trees, IsUser, Rwx;
    UserFrame(mem, use, pt, w);
  }

  lemma RwxBits(e: nat)
    requires e % 1024 == 31
    ensures IsValid(e) && IsUser(e) && Rwx(e) == 7 && Flags(e) == 31
  {
    assert e == 2 * (512 * (e / 1024) + 15) + 1;
  }

  lemma HoldsUser(mem: Mem, use: Roles, pt: nat, oldsz: nat, newsz: nat)
    requires Trees(mem, use) && LevelOf(use, pt) == 2 && PagesUp(newsz) <= MAXVPN
    requires forall w: nat :: PagesUp(oldsz) <= w < PagesUp(newsz) ==> Holds(mem, pt, w, PTE_RWXU, Zeros(PGSIZE))
    ensures FreshUser(mem, pt, oldsz, newsz)
  {
    hide Leaf, Trees, UserPage;
    forall w: nat | PagesUp(oldsz) <= w < PagesUp(newsz)
      ensures UserRwx(mem, pt, w) && UserPage(mem, pt, w) != 0 && UserPage(mem, pt, w) in mem
      ensures mem[UserPage(mem, pt, w)] == Zeros(PGSIZE)
    {
      assert Holds(mem, pt, w, PTE_RWXU, Zeros(PGSIZE));
      RwxIsUser(mem, use, pt, w);
    }
    forall a: nat | PagesUp(oldsz) * PGSIZE <= a < newsz
      ensures Readable(mem, pt, a) && UserByte(mem, pt, a) == 0
    {
      PageOf(a, oldsz, newsz);
    }
  }

  lemma PageOf(a: nat, lo: nat, hi: nat)
    requires PagesUp(lo) * PGSIZE <= a < hi
    ensures PagesUp(lo) <= a / PGSIZE < PagesUp(hi)
  {
  }

  /** The child's pages hold what the parent's held, and the user may do with them what it could there. */
  lemma CopyUser(m0: Mem, u0: Roles, from: nat, m: Mem, u: Roles, to: nat, sz: nat)
    requires Trees(m0, u0) && Trees(m, u) && LevelOf(u0, from) == 2 && LevelOf(u, to) == 2 && PagesUp(sz) <= MAXVPN
    requires forall w: nat :: w < PagesUp(sz) ==> UserRwx(m0, from, w) && CopyOf(m0, u0, from, m, to, w)
    ensures forall w: nat :: w < PagesUp(sz) ==> UserRwx(m, to, w)
    ensures forall a: nat :: a < sz ==> Readable(m, to, a) && UserByte(m, to, a) == UserByte(m0, from, a)
  {
    hide Leaf, Trees, UserPage;
    forall w: nat | w < PagesUp(sz)
      ensures UserRwx(m, to, w) && UserPage(m, to, w) != 0 && UserPage(m0, from, w) != 0
      ensures UserPage(m, to, w) in m && UserPage(m0, from, w) in m0
      ensures m[UserPage(m, to, w)] == m0[UserPage(m0, from, w)]
    {
      assert UserRwx(m0, from, w) && CopyOf(m0, u0, from, m, to, w);
      RwxIsUser(m0, u0, from, w);
      assert Flags(Leaf(m0, from, w)) == 31 && WithV(31) == 31;
      RwxIsUser(m, u, to, w);
    }
    forall a: nat | a < sz
      ensures Readable(m, to, a) && UserByte(m, to, a) == UserByte(m0, from, a)
    {
      PageOf(a, 0, sz);
    }
  }

  /** Which entries walkaddr accepts, and what it then answers. */
  lemma UserPageIs(mem: Mem, use: Roles, pt: nat, va: nat)
    requires Trees(mem, use) && LevelOf(use, pt) == 2
    ensures
      var e, n := Leaf(mem, pt, va / 4096), UserPage(mem, pt, va / 4096);
      if va < 0x40_0000_0000 && e % 2 == 1 && e / 16 % 2 == 1 then n == e / 1024 != 0 else n == 0
  {
    hide Leaf, Trees, IsUser;
    UserBit(Leaf(mem, pt, va / 4096));
    UserFrame(mem, use, pt, va / 4096);
  }

  lemma UserBit(e: nat)
    ensures IsUser(e) <==> e / 16 % 2 == 1
  {
    Sixteenth(e / 1024, e % 1024);
    EvenPlus(e / 1024, e % 1024 / 16);
  }

  lemma Sixteenth(q: nat, r: nat)
    ensures (1024 * q + r) / 16 == 64 * q + r / 16
  {
  }

  lemma EvenPlus(q: nat, k: nat)
    ensures (64 * q + k) % 2 == k % 2
  {
  }

  predicate Readable(mem: Mem, pt: nat, va: nat) {
    UserPage(mem, pt, va / PGSIZE) != 0
  }

  function UserByte(mem: Mem, pt: nat, va: nat): byte {
    var n := UserPage(mem, pt, va / PGSIZE);
    if n in mem then mem[n][va % PGSIZE] else 0
  }

  lemma NotReadable(mem: Mem, pt: nat, va: nat)
    ensures Readable(mem, pt, va) <==> UserPage(mem, pt, va / PGSIZE) != 0
  {
    hide UserPage;
  }

  /** d is what user memory holds from va on. */
  ghost predicate Fetched(mem: Mem, pt: nat, va: nat, d: seq<byte>) {
    forall a: nat :: va <= a < va + |d| ==> Readable(mem, pt, a) && d[a - va] == UserByte(mem, pt, a)
  }

  lemma FetchNone(mem: Mem, pt: nat, va: nat)
    ensures Fetched(mem, pt, va, [])
  {
  }

  lemma FetchByte(mem: Mem, pt: nat, va: nat, n: nat)
    requires n != 0 && n in mem && n == UserPage(mem, pt, va / PGSIZE)
    ensures Readable(mem, pt, va) && UserByte(mem, pt, va) == mem[n][va % PGSIZE]
  {
    hide UserPage;
  }

  lemma FetchStep(mem: Mem, pt: nat, va: nat, d: seq<byte>, n: nat, u: seq<byte>)
    requires Fetched(mem, pt, va, d) && n != 0 && n in mem && n == UserPage(mem, pt, (va + |d|) / PGSIZE)
    requires |u| <= PGSIZE - (va + |d|) % PGSIZE
    requires u == mem[n][(va + |d|) % PGSIZE..(va + |d|) % PGSIZE + |u|]
    ensures Fetched(mem, pt, va, d + u)
  {
    hide UserPage;
    var q := va + |d|;
    forall a: nat | va <= a < va + |d + u|
      ensures Readable(mem, pt, a) && (d + u)[a - va] == UserByte(mem, pt, a)
    {
      if a >= q {
        assert a / PGSIZE == q / PGSIZE && a % PGSIZE == q % PGSIZE + (a - q);
        assert u[a - q] == mem[n][a % PGSIZE];
      } else {
        assert Readable(mem, pt, a);
      }
    }
  }

  lemma FetchOne(mem: Mem, pt: nat, va: nat, d: seq<byte>, n: nat)
    requires Fetched(mem, pt, va, d) && n != 0 && n in mem && n == UserPage(mem, pt, (va + |d|) / PGSIZE)
    ensures Fetched(mem, pt, va, d + [mem[n][(va + |d|) % PGSIZE]])
  {
    hide UserPage;
    var o := (va + |d|) % PGSIZE;
    assert mem[n][o..o + 1] == [mem[n][o]];
    FetchStep(mem, pt, va, d, n, [mem[n][o]]);
  }

  lemma NoTableNoLeaf(mem: Mem, pt: nat, v: nat)
    requires LowOf(mem, pt, v) == 0
    ensures Leaf(mem, pt, v) == 0
  {
  }

  /** A user page is the frame of the one mapping that leads to it. */
  lemma UserFrame(mem: Mem, use: Roles, pt: nat, v: nat)
    requires Trees(mem, use) && LevelOf(use, pt) == 2
    ensures UserPage(mem, pt, v) != 0 ==>
              && UserPage(mem, pt, v) in use && UserPage(mem, pt, v) in mem && LevelOf(use, UserPage(mem, pt, v)) == 3
              && use[UserPage(mem, pt, v)] == Frame(LowOf(mem, pt, v), Px(0, v)) && LowOf(mem, pt, v) != 0
    ensures v < MAXVPN && IsValid(Leaf(mem, pt, v)) && IsUser(Leaf(mem, pt, v)) ==> UserPage(mem, pt, v) != 0
  {
    hide Ent, LowOf, Px;
    if IsValid(Leaf(mem, pt, v)) {
      LowOfRole(mem, use, pt, v);
      PxBound(v);
      var l := LowOf(mem, pt, v);
      assert EntryOk(use, l, Px(0, v), Ent(mem, l, Px(0, v)));
      if IsUser(Leaf(mem, pt, v)) {
        InMemory(mem, use, Target(Leaf(mem, pt, v)));
      }
    }
  }

  lemma UserPagesDistinct(mem: Mem, use: Roles, r: nat, v: nat, r': nat, v': nat)
    requires Trees(mem, use) && LevelOf(use, r) == 2 && LevelOf(use, r') == 2
    requires UserPage(mem, r, v) != 0 && UserPage(mem, r, v) == UserPage(mem, r', v')
    ensures r == r' && v == v'
  {
    hide Trees, LowOf, Px, Leaf;
    UserFrame(mem, use, r, v);
    UserFrame(mem, use, r', v');
    SlotsDistinct(mem, use, r, v, r', v');
  }

  /** The bytes t were stored at user address va of pt, and no other user byte changed. */
  ghost predicate Written(m0: Mem, use: Roles, m: Mem, pt: nat, va: nat, t: seq<byte>) {
    && m.Keys == m0.Keys
    && (forall r: nat, w: nat :: LevelOf(use, r) == 2 ==> UserPage(m, r, w) == UserPage(m0, r, w))
    && (forall r: nat, a: nat :: LevelOf(use, r) == 2 && Readable(m0, r, a) ==>
          UserByte(m, r, a) == if r == pt && va <= a < va + |t| then t[a - va] else UserByte(m0, r, a))
    && (forall a: nat :: va <= a < va + |t| ==> Readable(m0, pt, a))
    && (forall q :: q in use && q in m0 && LevelOf(use, q) <= 2 ==> m[q] == m0[q])
  }

  lemma WrittenNone(m: Mem, use: Roles, pt: nat, va: nat)
    ensures Written(m, use, m, pt, va, []) && SameTables(m, use, m, use)
  {
    hide UserPage, Leaf, LowOf;
  }

  lemma SamePage(q: nat, a: nat)
    ensures q <= a < q + (PGSIZE - q % PGSIZE) <==> q <= a && a / PGSIZE == q / PGSIZE
    ensures a / PGSIZE == q / PGSIZE ==> a - q == a % PGSIZE - q % PGSIZE
  {
  }

  lemma WrittenStep(m0: Mem, use: Roles, m1: Mem, m: Mem, pt: nat, va: nat, t: seq<byte>, u: seq<byte>, n: nat)
    requires Trees(m1, use) && LevelOf(use, pt) == 2 && Written(m0, use, m1, pt, va, t) && SameTables(m0, use, m1, use)
    requires n != 0 && n == UserPage(m1, pt, (va + |t|) / PGSIZE) && n in m1 && LevelOf(use, n) == 3
    requires 0 < |u| <= PGSIZE - (va + |t|) % PGSIZE
    requires m == m1[n := Overwrite(m1[n], (va + |t|) % PGSIZE, u)] && SameTables(m1, use, m, use)
    ensures Written(m0, use, m, pt, va, t + u) && SameTables(m0, use, m, use)
  {
    hide Trees, Leaf, LowOf, Overwrite;
    var q := va + |t|;
    assert forall r: nat, w: nat :: LevelOf(use, r) == 2 ==> UserPage(m, r, w) == UserPage(m1, r, w);
    hide UserPage;
    forall r: nat, a: nat | LevelOf(use, r) == 2 && Readable(m0, r, a)
      ensures UserByte(m, r, a) == if r == pt && va <= a < va + |t + u| then (t + u)[a - va] else UserByte(m0, r, a)
    {
      UserFrame(m1, use, r, a / PGSIZE);
      if UserPage(m1, r, a / PGSIZE) == n {
        UserPagesDistinct(m1, use, r, a / PGSIZE, pt, q / PGSIZE);
      }
      SamePage(q, a);
    }
    forall a: nat | q <= a < q + |u|
      ensures Readable(m0, pt, a)
    {
      assert a / PGSIZE == q / PGSIZE;
    }
  }

  // ---------- tables as partial maps ----------

  /** mappages is map update at the requested pages, for every table and page. */
  lemma MappedIsUpdate(m0: Mem, u0: Roles, m: Mem, u: Roles, pt: nat, first: nat, k: nat, n: nat, perm: nat,
                       take: bool, r: nat, w: nat)
    requires perm < 1024 && Mapped(m0, u0, m, u, pt, first, k, n, perm, take) && LevelOf(u0, r) == 2 && w < MAXVPN
    ensures Lookup(m, r, w) == if r == pt && first <= w < first + k then Some((n + w - first, WithV(perm))) else Lookup(m0, r, w)
  {
    hide Leaf, LowOf, MakePte, Px;
    if r == pt && first <= w < first + k {
      MakePteParts(n + w - first, perm);
    }
  }

  /** uvmunmap is map removal at the requested pages. */
  lemma UnmappedIsRemoval(m0: Mem, u0: Roles, m: Mem, u: Roles, pt: nat, first: nat, k: nat, freed: set<nat>, r: nat,
                          w: nat)
    requires Unmapped(m0, u0, m, u, pt, first, k, freed) && LevelOf(u0, r) == 2 && w < MAXVPN
    ensures Lookup(m, r, w) == if r == pt && first <= w < first + k then None else Lookup(m0, r, w)
  {
    hide Leaf, LowOf;
  }

  /** Running out of memory in the middle changes no translation. */
  lemma GrownIsSame(m0: Mem, u0: Roles, m: Mem, u: Roles, r: nat, w: nat)
    requires Grown(m0, u0, m, u) && LevelOf(u0, r) == 2 && w < MAXVPN
    ensures Lookup(m, r, w) == Lookup(m0, r, w)
  {
    hide Leaf, LowOf;
  }
}
