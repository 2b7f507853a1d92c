/** Whole runs of the user virtual-memory calls (os/kernel/vm.c) over any number of address spaces:
    no physical page is lost, shared or freed twice. */
module AddressSpaces {
  import opened Bytes
  import opened PageTable
  import opened VirtualMemory

  /** Pages of the trampoline and of the trapframe, at the top of every address space. */
  const TRAMPOLINE: nat := MAXVPN - 1
  const TRAPFRAME: nat := MAXVPN - 2
  const PTE_RX: nat := 10
  const PTE_RW: nat := 6

  /** The size a process records, the page that holds its trapframe and the trampoline's page. */
  datatype Space = Space(sz: nat, tf: nat, tramp: nat)

  /** The root page tables that exist. */
  type Sizes = map<nat, Space>

  /** The kernel's two pages are mapped, out of the user's reach. */
  ghost predicate FixedOk(mem: Mem, pt: nat, s: Space) {
    Leaf(mem, pt, TRAMPOLINE) == MakePte(s.tramp, PTE_RX) && Leaf(mem, pt, TRAPFRAME) == MakePte(s.tf, PTE_RW)
  }

  /** The mappings of pt are exactly pages [0, PGROUNDUP(sz)), each with a frame of its own and open to
      the user, and the two pages at the top, and no other frame belongs to its tree. */
  ghost predicate SpaceOk(mem: Mem, use: Roles, pt: nat, s: Space) {
    && pt in use && use[pt] == Loose(2) && PagesUp(s.sz) <= TRAPFRAME
    && (forall w: nat :: w < PagesUp(s.sz) ==> OwnedAt(mem, use, pt, w) && UserRwx(mem, pt, w))
    && (forall w: nat :: PagesUp(s.sz) <= w < TRAPFRAME ==> Leaf(mem, pt, w) == 0)
    && FixedOk(mem, pt, s)
    && (forall q :: q in use && use[q].Frame? && Top(use, q) == pt ==> q in Targets(mem, pt, 0, PagesUp(s.sz)))
  }

  /** Every page in use is one of those kept by the kernel or belongs to the tree of one of the roots. */
  ghost predicate NoStrays(use: Roles, sizes: Sizes, kept: set<nat>) {
    && (forall q :: q in use ==> (use[q] == Other ==> q in kept) && (use[q].Loose? ==> q in sizes))
    && (forall q :: q in kept ==> q in use && use[q] == Other)
  }

  ghost predicate SpacesOk(mem: Mem, use: Roles, sizes: Sizes, kept: set<nat>) {
    NoStrays(use, sizes, kept) && forall pt :: pt in sizes ==> SpaceOk(mem, use, pt, sizes[pt])
  }

  // ---------- one space at a time ----------

  /** A frame belongs to the tree of the root that maps it, and to one mapping only. */
  lemma OwnedTop(mem: Mem, use: Roles, pt: nat, w: nat)
    requires Trees(mem, use) && pt in use && use[pt] == Loose(2) && OwnedAt(mem, use, pt, w)
    ensures Top(use, Target(Leaf(mem, pt, w))) == pt
  {
    hide Ent;
    MappedHasTable(mem, pt, w);
    LowOfRole(mem, use, pt, w);
  }

  lemma OwnedOnce(mem: Mem, use: Roles, r: nat, v: nat, pt: nat, w: nat)
    requires Trees(mem, use) && LevelOf(use, r) == 2 && LevelOf(use, pt) == 2 && v < MAXVPN && w < MAXVPN
    requires OwnedAt(mem, use, r, v) && OwnedAt(mem, use, pt, w) && Target(Leaf(mem, r, v)) == Target(Leaf(mem, pt, w))
    ensures r == pt && v == w
  {
    hide Trees, Ent, LowOf, Px, Leaf;
    MappedHasTable(mem, r, v);
    SlotsDistinct(mem, use, r, v, pt, w);
  }

  /** The root above a page in use is in use. */
  lemma TopInUse(mem: Mem, use: Roles, q: nat)
    requires Trees(mem, use) && q in use
    ensures Top(use, q) in use
  {
    hide Ent;
    TopOfParent(mem, use, q);
    assert HangsOk(mem, use, q);
    if use[q].Low? || use[q].Frame? {
      TopOfParent(mem, use, use[q].parent);
      assert HangsOk(mem, use, use[q].parent);
    }
  }

  /** New roles do not move the pages that had one. */
  lemma TopStays(m0: Mem, u0: Roles, u: Roles, q: nat)
    requires Trees(m0, u0) && q in u0 && forall p :: p in u0 ==> p in u && u[p] == u0[p]
    ensures Top(u, q) == Top(u0, q)
  {
    hide Ent;
    TopOfParent(m0, u0, q);
    assert HangsOk(m0, u0, q);
    if u0[q].Low? || u0[q].Frame? {
      TopOfParent(m0, u0, u0[q].parent);
      assert HangsOk(m0, u0, u0[q].parent);
    }
  }

  ghost predicate SameRole(u0: Roles, u: Roles, q: nat) {
    q in u0 ==> q in u && u[q] == u0[q]
  }

  /** A step after which every mapping of pt is as before keeps the space. */
  lemma SpaceStays(m0: Mem, u0: Roles, m: Mem, u: Roles, pt: nat, s: Space)
    requires Trees(m0, u0) && SpaceOk(m0, u0, pt, s)
    requires pt in u && u[pt] == Loose(2)
    requires forall w: nat :: w < MAXVPN ==> Leaf(m, pt, w) == Leaf(m0, pt, w)
    requires forall w: nat :: w < MAXVPN && LowOf(m0, pt, w) != 0 ==> LowOf(m, pt, w) == LowOf(m0, pt, w)
    requires forall w: nat :: w < PagesUp(s.sz) ==> SameRole(u0, u, Target(Leaf(m0, pt, w)))
    requires forall q :: q in u && u[q].Frame? && Top(u, q) == pt ==> q in u0 && u0[q].Frame? && Top(u0, q) == pt
    ensures SpaceOk(m, u, pt, s)
  {
    hide Trees, Leaf, LowOf, Px, Top;
    forall w: nat | w < PagesUp(s.sz)
      ensures OwnedAt(m, u, pt, w) && UserRwx(m, pt, w) && Target(Leaf(m, pt, w)) == Target(Leaf(m0, pt, w))
    {
      assert OwnedAt(m0, u0, pt, w) && UserRwx(m0, pt, w);
      MappedHasTable(m0, pt, w);
    }
    TargetsSame(m0, m, pt, 0, PagesUp(s.sz));
  }

  /** Walks that stopped half-way only add tables. */
  lemma GrownSpace(m0: Mem, u0: Roles, m: Mem, u: Roles, pt: nat, s: Space)
    requires Trees(m0, u0) && Trees(m, u) && SpaceOk(m0, u0, pt, s) && Grown(m0, u0, m, u)
    ensures SpaceOk(m, u, pt, s)
  {
    hide Trees, Leaf, LowOf, Px, Top, OwnedAt, Targets;
    assert LevelOf(u0, pt) == 2;
    forall q | q in u && u[q].Frame? && Top(u, q) == pt
      ensures q in u0 && u0[q].Frame? && Top(u0, q) == pt
    {
      TopStays(m0, u0, u, q);
    }
    SpaceStays(m0, u0, m, u, pt, s);
  }

  lemma GrownSpaces(m0: Mem, u0: Roles, m: Mem, u: Roles, sizes: Sizes, kept: set<nat>)
    requires Trees(m0, u0) && Trees(m, u) && SpacesOk(m0, u0, sizes, kept) && Grown(m0, u0, m, u)
    ensures SpacesOk(m, u, sizes, kept)
  {
    hide SpaceOk, Trees;
    forall pt | pt in sizes ensures SpaceOk(m, u, pt, sizes[pt]) { GrownSpace(m0, u0, m, u, pt, sizes[pt]); }
    GrownStrays(m0, u0, m, u, sizes, kept);
  }

  lemma GrownStrays(m0: Mem, u0: Roles, m: Mem, u: Roles, sizes: Sizes, kept: set<nat>)
    requires NoStrays(u0, sizes, kept) && Grown(m0, u0, m, u)
    ensures NoStrays(u, sizes, kept)
  {
    hide Leaf, LowOf;
  }

  /** New frames in one space leave the other spaces alone. */
  lemma FilledOther(m0: Mem, u0: Roles, m: Mem, u: Roles, pt: nat, first: nat, k: nat, r: nat, s: Space)
    requires Trees(m0, u0) && Trees(m, u) && SpaceOk(m0, u0, r, s) && r != pt && pt in u0 && u0[pt] == Loose(2)
    requires Filled(m0, u0, m, u, pt, first, k)
    ensures SpaceOk(m, u, r, s)
  {
    hide Trees, Leaf, LowOf, Px, Top, OwnedAt;
    assert LevelOf(u0, r) == 2;
    forall q | q in u && u[q].Frame? && Top(u, q) == r
      ensures q in u0 && u0[q].Frame? && Top(u0, q) == r
    {
      if q in u0 {
        TopStays(m0, u0, u, q);
      } else {
        var w: nat :| first <= w < first + k && q == Target(Leaf(m, pt, w));
        OwnedTop(m, u, pt, w);
      }
    }
    SpaceStays(m0, u0, m, u, r, s);
  }

  lemma FilledSelf(m0: Mem, u0: Roles, m: Mem, u: Roles, pt: nat, s: Space, newsz: nat)
    requires Trees(m0, u0) && Trees(m, u) && SpaceOk(m0, u0, pt, s) && s.sz <= newsz && PagesUp(newsz) <= TRAPFRAME
    requires Filled(m0, u0, m, u, pt, PagesUp(s.sz), PagesUp(newsz) - PagesUp(s.sz))
    requires forall w: nat :: PagesUp(s.sz) <= w < PagesUp(newsz) ==> UserRwx(m, pt, w)
    ensures SpaceOk(m, u, pt, s.(sz := newsz))
  {
    hide Trees, Leaf, LowOf, Px, Top, OwnedAt;
    var first, k := PagesUp(s.sz), PagesUp(newsz) - PagesUp(s.sz);
    forall w: nat | w < PagesUp(newsz)
      ensures OwnedAt(m, u, pt, w) && UserRwx(m, pt, w)
      ensures w < first ==> Leaf(m, pt, w) == Leaf(m0, pt, w)
    {
      if w < first { OwnedStays(m0, u0, m, u, pt, first, k, w); }
    }
    forall q | q in u && u[q].Frame? && Top(u, q) == pt
      ensures q in Targets(m, pt, 0, PagesUp(newsz))
    {
      if q in u0 {
        TopStays(m0, u0, u, q);
        var w: nat :| w < first && q == Target(Leaf(m0, pt, w));
        assert q == Target(Leaf(m, pt, w));
      } else {
        var w: nat :| first <= w < first + k && q == Target(Leaf(m, pt, w));
      }
    }
  }

  lemma FilledSpaces(m0: Mem, u0: Roles, m: Mem, u: Roles, sizes: Sizes, kept: set<nat>, pt: nat, newsz: nat)
    requires Trees(m0, u0) && Trees(m, u) && SpacesOk(m0, u0, sizes, kept)
    requires pt in sizes && sizes[pt].sz <= newsz && PagesUp(newsz) <= TRAPFRAME
    requires Filled(m0, u0, m, u, pt, PagesUp(sizes[pt].sz), PagesUp(newsz) - PagesUp(sizes[pt].sz))
    requires forall w: nat :: PagesUp(sizes[pt].sz) <= w < PagesUp(newsz) ==> UserRwx(m, pt, w)
    ensures SpacesOk(m, u, sizes[pt := sizes[pt].(sz := newsz)], kept)
  {
    hide Trees, Filled, OwnedAt, Leaf, Targets, Top;
    FilledSelf(m0, u0, m, u, pt, sizes[pt], newsz);
    forall r | r in sizes && r != pt
      ensures SpaceOk(m, u, r, sizes[r])
    {
      FilledOther(m0, u0, m, u, pt, PagesUp(sizes[pt].sz), PagesUp(newsz) - PagesUp(sizes[pt].sz), r, sizes[r]);
    }
    FilledStrays(m0, u0, m, u, sizes, kept, pt, PagesUp(sizes[pt].sz), PagesUp(newsz) - PagesUp(sizes[pt].sz),
                 sizes[pt].(sz := newsz));
  }

  lemma FilledStrays(m0: Mem, u0: Roles, m: Mem, u: Roles, sizes: Sizes, kept: set<nat>, pt: nat, first: nat, k: nat, s: Space)
    requires NoStrays(u0, sizes, kept) && Filled(m0, u0, m, u, pt, first, k)
    ensures NoStrays(u, sizes[pt := s], kept)
  {
    hide Leaf, LowOf, Px;
    forall q | q in u && q !in u0
      ensures u[q] != Other && !u[q].Loose?
    {
      if !(u[q].Mid? || u[q].Low?) {
        var w: nat :| first <= w < first + k && q == Target(Leaf(m, pt, w));
        assert OwnedAt(m, u, pt, w);
      }
    }
  }

  // ---------- shrinking ----------

  lemma TopAfterDrop(m0: Mem, u0: Roles, u: Roles, q: nat, freed: set<nat>)
    requires Trees(m0, u0) && u == u0 - freed && (forall p :: p in freed ==> LevelOf(u0, p) == 3) && q in u
    ensures q in u0 && u[q] == u0[q] && Top(u, q) == Top(u0, q)
  {
    hide Ent;
    assert HangsOk(m0, u0, q);
    if u0[q].Low? || u0[q].Frame? {
      assert HangsOk(m0, u0, u0[q].parent);
    }
  }

  lemma UnmappedOther(m0: Mem, u0: Roles, m: Mem, u: Roles, pt: nat, first: nat, k: nat, r: nat, s: Space)
    requires Trees(m0, u0) && SpaceOk(m0, u0, r, s) && r != pt && LevelOf(u0, pt) == 2 && first + k <= MAXVPN
    requires forall w: nat :: first <= w < first + k ==> OwnedAt(m0, u0, pt, w)
    requires Unmapped(m0, u0, m, u, pt, first, k, Targets(m0, pt, first, k))
    ensures SpaceOk(m, u, r, s)
  {
    hide Trees, Leaf, LowOf, Px, Top, OwnedAt;
    var freed := Targets(m0, pt, first, k);
    assert LevelOf(u0, r) == 2;
    forall w: nat | w < PagesUp(s.sz)
      ensures SameRole(u0, u, Target(Leaf(m0, r, w)))
    {
      if Target(Leaf(m0, r, w)) in freed {
        var v: nat :| first <= v < first + k && Target(Leaf(m0, r, w)) == Target(Leaf(m0, pt, v));
        OwnedOnce(m0, u0, r, w, pt, v);
        assert false;
      }
    }
    forall q | q in u && u[q].Frame? && Top(u, q) == r
      ensures q in u0 && u0[q].Frame? && Top(u0, q) == r
    {
      TopAfterDrop(m0, u0, u, q, freed);
    }
    SpaceStays(m0, u0, m, u, r, s);
  }

  lemma UnmappedSelf(m0: Mem, u0: Roles, m: Mem, u: Roles, pt: nat, s: Space, newsz: nat)
    requires Trees(m0, u0) && SpaceOk(m0, u0, pt, s) && newsz <= s.sz
    requires Unmapped(m0, u0, m, u, pt, PagesUp(newsz), PagesUp(s.sz) - PagesUp(newsz),
                      Targets(m0, pt, PagesUp(newsz), PagesUp(s.sz) - PagesUp(newsz)))
    ensures SpaceOk(m, u, pt, s.(sz := newsz))
  {
    hide Trees, Leaf, LowOf, Px, Top;
    var first, k := PagesUp(newsz), PagesUp(s.sz) - PagesUp(newsz);
    var freed := Targets(m0, pt, first, k);
    assert LevelOf(u0, pt) == 2;
    forall w: nat | w < first
      ensures OwnedAt(m, u, pt, w) && UserRwx(m, pt, w) && Leaf(m, pt, w) == Leaf(m0, pt, w)
    {
      assert OwnedAt(m0, u0, pt, w) && UserRwx(m0, pt, w);
      if Target(Leaf(m0, pt, w)) in freed {
        var v: nat :| first <= v < first + k && Target(Leaf(m0, pt, w)) == Target(Leaf(m0, pt, v));
        OwnedOnce(m0, u0, pt, w, pt, v);
        assert false;
      }
    }
    forall q | q in u && u[q].Frame? && Top(u, q) == pt
      ensures q in Targets(m, pt, 0, first)
    {
      TopAfterDrop(m0, u0, u, q, freed);
      var w: nat :| w < PagesUp(s.sz) && q == Target(Leaf(m0, pt, w));
      assert w < first;
      assert q == Target(Leaf(m, pt, w));
    }
  }

  lemma UnmappedSpaces(m0: Mem, u0: Roles, m: Mem, u: Roles, sizes: Sizes, kept: set<nat>, pt: nat, newsz: nat)
    requires Trees(m0, u0) && SpacesOk(m0, u0, sizes, kept) && pt in sizes && newsz <= sizes[pt].sz
    requires Unmapped(m0, u0, m, u, pt, PagesUp(newsz), PagesUp(sizes[pt].sz) - PagesUp(newsz),
                      Targets(m0, pt, PagesUp(newsz), PagesUp(sizes[pt].sz) - PagesUp(newsz)))
    ensures SpacesOk(m, u, sizes[pt := sizes[pt].(sz := newsz)], kept)
  {
    hide Trees, Unmapped, OwnedAt, Leaf, Targets, Top;
    UnmappedSelf(m0, u0, m, u, pt, sizes[pt], newsz);
    forall r | r in sizes && r != pt
      ensures SpaceOk(m, u, r, sizes[r])
    {
      UnmappedOther(m0, u0, m, u, pt, PagesUp(newsz), PagesUp(sizes[pt].sz) - PagesUp(newsz), r, sizes[r]);
    }
    UnmappedStrays(m0, u0, m, u, sizes, kept, pt, PagesUp(newsz), PagesUp(sizes[pt].sz) - PagesUp(newsz), sizes[pt].(sz := newsz));
  }

  lemma NothingUnmapped(m0: Mem, u0: Roles, m: Mem, u: Roles, pt: nat, first: nat, other: nat)
    requires Unmapped(m0, u0, m, u, pt, first, 0, Targets(m0, pt, first, 0))
    ensures Unmapped(m0, u0, m, u, pt, other, 0, Targets(m0, pt, other, 0))
  {
    hide Leaf, LowOf;
    TargetsNone(m0, pt, first);
    TargetsNone(m0, pt, other);
  }

  lemma UnmappedStrays(m0: Mem, u0: Roles, m: Mem, u: Roles, sizes: Sizes, kept: set<nat>, pt: nat, first: nat, k: nat, s: Space)
    requires NoStrays(u0, sizes, kept) && Unmapped(m0, u0, m, u, pt, first, k, Targets(m0, pt, first, k))
    requires forall w: nat :: first <= w < first + k ==> OwnedAt(m0, u0, pt, w)
    ensures NoStrays(u, sizes[pt := s], kept)
  {
    hide Leaf, LowOf, Px;
    forall w: nat | first <= w < first + k
      ensures Target(Leaf(m0, pt, w)) in u0 && u0[Target(Leaf(m0, pt, w))] != Other
    {
      assert OwnedAt(m0, u0, pt, w);
    }
  }

  // ---------- creating and freeing ----------

  /** The table pt is being made: it has no frame yet, and the other spaces are in order. */
  ghost predicate Making(mem: Mem, use: Roles, sizes: Sizes, kept: set<nat>, pt: nat, s: Space) {
    && pt !in sizes && pt in use && use[pt] == Loose(2) && NoStrays(use, sizes[pt := s], kept)
    && (forall q :: q in use && use[q].Frame? ==> Top(use, q) != pt)
    && forall r :: r in sizes ==> SpaceOk(mem, use, r, sizes[r])
  }

  lemma Created(m0: Mem, u0: Roles, m: Mem, u: Roles, sizes: Sizes, kept: set<nat>, pt: nat, s: Space)
    requires Trees(m0, u0) && Trees(m, u) && SpacesOk(m0, u0, sizes, kept)
    requires pt !in u0 && u == u0[pt := Loose(2)]
    requires (forall q :: q in m && q != pt ==> q in m0 && m[q] == m0[q]) && m.Keys == m0.Keys
    ensures Making(m, u, sizes, kept, pt, s)
  {
    hide Trees, Leaf, LowOf, OwnedAt, Targets, Top, SpaceOk;
    forall r | r in sizes
      ensures r in u0 && SpaceOk(m, u, r, sizes[r])
    {
      SpaceRoot(m0, u0, r, sizes[r]);
      CreatedOther(m0, u0, m, u, pt, r, sizes[r]);
    }
    forall q | q in u && u[q].Frame?
      ensures Top(u, q) != pt
    {
      TopInUse(m0, u0, q);
      TopStays(m0, u0, u, q);
    }
  }

  lemma SpaceRoot(m: Mem, u: Roles, r: nat, s: Space)
    requires SpaceOk(m, u, r, s)
    ensures r in u && u[r] == Loose(2)
  {
    hide Leaf, LowOf, OwnedAt, Targets, Top, FixedOk;
  }

  lemma CreatedOther(m0: Mem, u0: Roles, m: Mem, u: Roles, pt: nat, r: nat, s: Space)
    requires Trees(m0, u0) && SpaceOk(m0, u0, r, s) && pt !in u0 && u == u0[pt := Loose(2)]
    requires (forall q :: q in m && q != pt ==> q in m0 && m[q] == m0[q]) && m.Keys == m0.Keys
    ensures SpaceOk(m, u, r, s)
  {
    hide Trees, Leaf, LowOf, OwnedAt, Targets, Top;
    AllInMemory(m0, u0);
    forall w: nat
      ensures LowOf(m, r, w) == LowOf(m0, r, w) && Leaf(m, r, w) == Leaf(m0, r, w)
    {
      SameTree(m0, u0, m, r, w);
    }
    forall q | q in u && u[q].Frame? && Top(u, q) == r
      ensures q in u0 && u0[q].Frame? && Top(u0, q) == r
    {
      TopStays(m0, u0, u, q);
    }
    SpaceStays(m0, u0, m, u, r, s);
  }

  lemma MakingNew(m: Mem, u: Roles, sizes: Sizes, kept: set<nat>, pt: nat, s: Space)
    requires Making(m, u, sizes, kept, pt, s)
    ensures pt !in sizes && pt in u && u[pt] == Loose(2) && LevelOf(u, pt) == 2
  {
    hide SpaceOk, NoStrays, Top;
  }

  /** Mapping one of the kernel's pages into the new table. */
  lemma FixedStep(m0: Mem, u0: Roles, m: Mem, u: Roles, sizes: Sizes, kept: set<nat>, pt: nat, s: Space, v: nat, n: nat,
                  perm: nat)
    requires Trees(m0, u0) && Making(m0, u0, sizes, kept, pt, s) && perm < 1024
    requires Mapped(m0, u0, m, u, pt, v, 1, n, perm, false)
    ensures Making(m, u, sizes, kept, pt, s)
  {
    hide Trees, Leaf, LowOf, OwnedAt, Targets, Top, MakePte;
    forall q | q in u0
      ensures q in u && u[q] == u0[q] && Top(u, q) == Top(u0, q)
    {
      TopStays(m0, u0, u, q);
    }
    forall r | r in sizes
      ensures SpaceOk(m, u, r, sizes[r])
    {
      assert LevelOf(u0, r) == 2;
      SpaceStays(m0, u0, m, u, r, sizes[r]);
    }
  }

  lemma MadeSpace(m: Mem, u: Roles, sizes: Sizes, kept: set<nat>, pt: nat, s: Space)
    requires Making(m, u, sizes, kept, pt, s) && s.sz == 0 && FixedOk(m, pt, s)
    requires forall w: nat :: w < TRAPFRAME ==> Leaf(m, pt, w) == 0
    ensures SpacesOk(m, u, sizes[pt := s], kept)
  {
    hide Trees, Leaf, LowOf, OwnedAt, Targets, Top, FixedOk;
    assert PagesUp(0) == 0;
  }

  /** What the top two pages of every address space are: the trampoline, readable and executable, and below it the
      trapframe, readable and writable, and neither open to the user. */
  lemma KernelPages(m: Mem, u: Roles, sizes: Sizes, kept: set<nat>, pt: nat)
    requires SpacesOk(m, u, sizes, kept) && pt in sizes
    ensures Leaf(m, pt, 0x3ff_ffff) == 1024 * sizes[pt].tramp + (1 + 2 + 8)
    ensures Leaf(m, pt, 0x3ff_fffe) == 1024 * sizes[pt].tf + (1 + 2 + 4)
  {
    hide Leaf, NoStrays, OwnedAt, Top, Targets, UserRwx;
    assert SpaceOk(m, u, pt, sizes[pt]);
    PteParts(sizes[pt].tramp, PTE_RX);
    PteParts(sizes[pt].tf, PTE_RW);
  }

  lemma PteParts(n: nat, perm: nat)
    requires perm < 1024 && perm % 2 == 0
    ensures MakePte(n, perm) == 1024 * n + perm + 1
  {
  }

  /** The kernel's pages belong to no user mapping. */
  lemma FixedNotOwned(m: Mem, u: Roles, pt: nat, s: Space, v: nat)
    requires Trees(m, u) && SpaceOk(m, u, pt, s) && TRAPFRAME <= v < MAXVPN
    ensures IsValid(Leaf(m, pt, v)) && !OwnedAt(m, u, pt, v)
  {
    hide Trees, Leaf, LowOf, Px, Top, MakePte;
    MakePteParts(s.tramp, PTE_RX);
    MakePteParts(s.tf, PTE_RW);
    if OwnedAt(m, u, pt, v) {
      OwnedTop(m, u, pt, v);
      var w: nat :| w < PagesUp(s.sz) && Target(Leaf(m, pt, v)) == Target(Leaf(m, pt, w));
      OwnedOnce(m, u, pt, v, pt, w);
      assert false;
    }
  }

  /** The table pt is being taken apart: its user pages are still there, and the other spaces are in order. */
  ghost predicate Ending(mem: Mem, use: Roles, sizes: Sizes, kept: set<nat>, pt: nat) {
    && pt in sizes && pt in use && use[pt] == Loose(2) && NoStrays(use, sizes, kept) && PagesUp(sizes[pt].sz) <= TRAPFRAME
    && (forall w: nat :: w < PagesUp(sizes[pt].sz) ==> OwnedAt(mem, use, pt, w))
    && (forall q :: q in use && use[q].Frame? && Top(use, q) == pt ==> q in Targets(mem, pt, 0, PagesUp(sizes[pt].sz)))
    && forall r :: r in sizes && r != pt ==> SpaceOk(mem, use, r, sizes[r])
  }

  lemma EndBegins(m: Mem, u: Roles, sizes: Sizes, kept: set<nat>, pt: nat)
    requires SpacesOk(m, u, sizes, kept) && pt in sizes
    ensures Ending(m, u, sizes, kept, pt)
  {
    hide Leaf, LowOf, OwnedAt, Targets, Top, FixedOk;
  }

  /** Unmapping one of the kernel's pages. */
  lemma UnfixedStep(m0: Mem, u0: Roles, m: Mem, u: Roles, sizes: Sizes, kept: set<nat>, pt: nat, v: nat)
    requires Trees(m0, u0) && Ending(m0, u0, sizes, kept, pt) && TRAPFRAME <= v < MAXVPN
    requires Unmapped(m0, u0, m, u, pt, v, 1, {})
    ensures Ending(m, u, sizes, kept, pt) && u == u0
  {
    hide Trees, Leaf, LowOf, Px, Top, FixedOk, SpaceOk, Targets, NoStrays;
    assert u == u0 && LevelOf(u0, pt) == 2;
    forall r | r in sizes && r != pt
      ensures SpaceOk(m, u, r, sizes[r])
    {
      UnfixedOther(m0, u0, m, u, pt, v, r, sizes[r]);
    }
    forall w: nat | w < PagesUp(sizes[pt].sz)
      ensures OwnedAt(m, u, pt, w) && Target(Leaf(m, pt, w)) == Target(Leaf(m0, pt, w))
    {
      assert OwnedAt(m0, u0, pt, w);
    }
    TargetsSame(m0, m, pt, 0, PagesUp(sizes[pt].sz));
  }

  lemma UnfixedOther(m0: Mem, u0: Roles, m: Mem, u: Roles, pt: nat, v: nat, r: nat, s: Space)
    requires Trees(m0, u0) && SpaceOk(m0, u0, r, s) && r != pt && Unmapped(m0, u0, m, u, pt, v, 1, {})
    ensures SpaceOk(m, u, r, s)
  {
    hide Trees, Leaf, LowOf, Px, Top, FixedOk, OwnedAt;
    assert u == u0 && LevelOf(u0, r) == 2;
    SpaceStays(m0, u0, m, u, r, s);
  }

  lemma FreedSpaces(m0: Mem, u0: Roles, m: Mem, u: Roles, sizes: Sizes, kept: set<nat>, pt: nat)
    requires Trees(m0, u0) && Ending(m0, u0, sizes, kept, pt)
    requires forall q :: q in u <==> q in u0 && Top(u0, q) != pt
    requires forall q :: q in u ==> u[q] == u0[q]
    requires forall r: nat, w: nat :: w < MAXVPN && r != pt && r in u0 && u0[r] == Loose(2) ==>
               Leaf(m, r, w) == Leaf(m0, r, w) && LowOf(m, r, w) == LowOf(m0, r, w)
    ensures SpacesOk(m, u, sizes - {pt}, kept)
  {
    hide Trees, Leaf, LowOf, OwnedAt, Targets, FixedOk;
    forall r | r in sizes && r != pt
      ensures SpaceOk(m, u, r, sizes[r])
    {
      FreedOther(m0, u0, m, u, pt, r, sizes[r]);
    }
  }

  lemma FreedOther(m0: Mem, u0: Roles, m: Mem, u: Roles, pt: nat, r: nat, s: Space)
    requires Trees(m0, u0) && SpaceOk(m0, u0, r, s) && r != pt
    requires forall q :: q in u <==> q in u0 && Top(u0, q) != pt
    requires forall q :: q in u ==> u[q] == u0[q]
    requires forall w: nat :: w < MAXVPN ==> Leaf(m, r, w) == Leaf(m0, r, w) && LowOf(m, r, w) == LowOf(m0, r, w)
    ensures SpaceOk(m, u, r, s)
  {
    hide Trees, Leaf, LowOf, Targets, Top;
    TopSelf(u0, r);
    TopKept(m0, u0, u, pt);
    forall w: nat | w < PagesUp(s.sz)
      ensures SameRole(u0, u, Target(Leaf(m0, r, w)))
    {
      OwnedTop(m0, u0, r, w);
    }
    SpaceStays(m0, u0, m, u, r, s);
  }

  /** A copy of the parent as it was after the child's table was made is a copy of it as it was before. */
  lemma CopyBefore(m0: Mem, u0: Roles, m1: Mem, u1: Roles, m: Mem, pt: nat, child: nat, s: Space)
    requires Trees(m0, u0) && SpaceOk(m0, u0, pt, s) && Aside(m0, u0, m1, pt)
    requires forall w: nat :: w < PagesUp(s.sz) ==> CopyOf(m1, u1, pt, m, child, w)
    ensures forall w: nat :: w < PagesUp(s.sz) ==> CopyOf(m0, u0, pt, m, child, w)
  {
    hide Trees, Leaf, LowOf, Top, Targets, Holds, Px;
    AllInMemory(m0, u0);
    forall w: nat | w < PagesUp(s.sz)
      ensures CopyOf(m0, u0, pt, m, child, w)
    {
      assert CopyOf(m1, u1, pt, m, child, w);
      assert OwnedAt(m0, u0, pt, w);
    }
  }

  /** The translations of r, and the pages that are no table, are as they were. */
  ghost predicate Aside(m0: Mem, u0: Roles, m: Mem, r: nat) {
    && (forall w: nat :: w < MAXVPN ==> Leaf(m, r, w) == Leaf(m0, r, w))
    && (forall q :: q in u0 && LevelOf(u0, q) == 3 && q in m0 ==> q in m && m[q] == m0[q])
  }

  lemma CreatedAside(m0: Mem, u0: Roles, m: Mem, pt: nat, r: nat)
    requires Trees(m0, u0) && r in u0 && u0[r] == Loose(2) && pt !in u0
    requires (forall q :: q in m && q != pt ==> q in m0 && m[q] == m0[q]) && m.Keys == m0.Keys
    ensures Aside(m0, u0, m, r)
  {
    hide Trees, Leaf, LowOf, Top;
    AllInMemory(m0, u0);
    forall w: nat
      ensures Leaf(m, r, w) == Leaf(m0, r, w)
    {
      SameTree(m0, u0, m, r, w);
    }
  }

  lemma MappedAside(m0: Mem, u0: Roles, m1: Mem, u1: Roles, m: Mem, u: Roles, pt: nat, v: nat, n: nat, perm: nat, r: nat)
    requires Aside(m0, u0, m1, r) && perm < 1024 && Mapped(m1, u1, m, u, pt, v, 1, n, perm, false)
    requires r != pt && LevelOf(u1, r) == 2 && forall q :: q in u0 ==> q in u1 && u1[q] == u0[q]
    ensures Aside(m0, u0, m, r) && forall q :: q in u0 ==> q in u && u[q] == u0[q]
    ensures LevelOf(u, r) == 2
  {
    hide Leaf, LowOf, MakePte, Px;
  }

  /** The tables that the kernel's two pages need, and no other. */
  ghost predicate TopOnly(m: Mem, pt: nat) {
    forall w: nat :: w < MAXVPN ==>
      (MidOf(m, pt, w) != 0 <==> w / 262144 == 255) && (LowOf(m, pt, w) != 0 <==> w / 512 == 131071)
  }

  /** The first of the two takes two tables and the second none. */
  lemma FirstFixed(m1: Mem, pt: nat)
    requires forall w: nat :: !IsValid(Leaf(m1, pt, w)) && MidOf(m1, pt, w) == 0
    ensures TablesFor(m1, pt, TRAMPOLINE, 1) == 2 && Vacant(m1, pt, TRAMPOLINE, 1)
    ensures forall w: nat :: LowOf(m1, pt, w) == 0
  {
    hide Leaf;
    OneTable(m1, pt, TRAMPOLINE);
    forall w: nat
      ensures LowOf(m1, pt, w) == 0
    {
      assert MidOf(m1, pt, w) == 0;
    }
  }

  lemma SecondFixed(m1: Mem, m2: Mem, pt: nat)
    requires forall w: nat :: MidOf(m1, pt, w) == 0 && LowOf(m1, pt, w) == 0
    requires Reached(m1, m2, pt, TRAMPOLINE, 1)
    ensures TopOnly(m2, pt) && TablesFor(m2, pt, TRAPFRAME, 1) == 0
  {
    hide MidOf, LowOf;
    OneTable(m2, pt, TRAPFRAME);
    assert TRAMPOLINE / 262144 == 255 && TRAMPOLINE / 512 == 131071;
    assert TRAPFRAME / 262144 == 255 && TRAPFRAME / 512 == 131071;
  }

  lemma ThenTop(m2: Mem, m3: Mem, pt: nat)
    requires TopOnly(m2, pt) && Reached(m2, m3, pt, TRAPFRAME, 1)
    ensures TopOnly(m3, pt)
  {
    hide MidOf, LowOf;
  }

  /** The new table holds the kernel's two pages and nothing else. */
  lemma FixedLeaves(m1: Mem, u1: Roles, m2: Mem, u2: Roles, m3: Mem, u3: Roles, pt: nat, s: Space)
    requires Trees(m1, u1) && LevelOf(u1, pt) == 2 && LevelOf(u2, pt) == 2 && forall w: nat :: !IsValid(Leaf(m1, pt, w))
    requires Mapped(m1, u1, m2, u2, pt, TRAMPOLINE, 1, s.tramp, PTE_RX, false)
    requires Mapped(m2, u2, m3, u3, pt, TRAPFRAME, 1, s.tf, PTE_RW, false)
    ensures FixedOk(m3, pt, s) && forall w: nat :: w < TRAPFRAME ==> Leaf(m3, pt, w) == 0
  {
    hide Trees, Leaf, LowOf, MakePte, Px;
    forall w: nat
      ensures Leaf(m1, pt, w) == 0
    {
      UnmappedLeaf(m1, u1, pt, w);
    }
  }

  lemma FreshLeaf(m1: Mem, u1: Roles, m2: Mem, u2: Roles, pt: nat, n: nat)
    requires LevelOf(u1, pt) == 2 && (forall w: nat :: !IsValid(Leaf(m1, pt, w)))
    requires Mapped(m1, u1, m2, u2, pt, TRAMPOLINE, 1, n, PTE_RX, false)
    ensures Vacant(m2, pt, TRAPFRAME, 1) && pt in u1 && pt in u2 && u2[pt] == u1[pt]
  {
    hide Leaf, LowOf, MakePte, Px;
  }

  /** Where a space can grow to. */
  lemma RoomAbove(m: Mem, u: Roles, pt: nat, s: Space, n: nat)
    requires SpaceOk(m, u, pt, s) && PagesUp(s.sz) <= n <= MAXVPN
    ensures Vacant(m, pt, PagesUp(s.sz), n - PagesUp(s.sz)) <==> n <= TRAPFRAME
  {
    hide Leaf, LowOf, OwnedAt, Top, Targets, MakePte;
    MakePteParts(s.tf, PTE_RW);
    if n > TRAPFRAME { assert IsValid(Leaf(m, pt, TRAPFRAME)); }
  }

  // ---------- what a call leaves alone ----------

  /** The first k pages of r are mapped to the same frames with the same flags, and hold the same bytes. */
  ghost predicate Intact(m0: Mem, m: Mem, r: nat, k: nat) {
    forall w: nat :: w < k ==>
      && Leaf(m, r, w) == Leaf(m0, r, w)
      && Target(Leaf(m0, r, w)) in m0 && Target(Leaf(m0, r, w)) in m
      && m[Target(Leaf(m0, r, w))] == m0[Target(Leaf(m0, r, w))]
  }

  /** The address spaces of sizes0 that are still there keep the pages below both their sizes. */
  ghost predicate AllIntact(m0: Mem, m: Mem, sizes0: Sizes, sizes: Sizes) {
    forall r :: r in sizes0 && r in sizes ==> Intact(m0, m, r, Min(PagesUp(sizes0[r].sz), PagesUp(sizes[r].sz)))
  }

  lemma IntactOwned(m0: Mem, u0: Roles, m: Mem, r: nat, s: Space, k: nat)
    requires Trees(m0, u0) && SpaceOk(m0, u0, r, s) && k <= PagesUp(s.sz)
    requires forall w: nat :: w < k ==> Leaf(m, r, w) == Leaf(m0, r, w)
    requires forall w: nat :: w < k && Target(Leaf(m0, r, w)) in m0 ==> KeepsPage(m0, m, Target(Leaf(m0, r, w)))
    ensures Intact(m0, m, r, k)
  {
    hide Trees, Leaf, LowOf, Px, Top, Targets, FixedOk;
    AllInMemory(m0, u0);
    forall w: nat | w < k
      ensures Target(Leaf(m0, r, w)) in m0 && KeepsPage(m0, m, Target(Leaf(m0, r, w)))
    {
      assert OwnedAt(m0, u0, r, w);
    }
  }

  ghost predicate KeepsPage(m0: Mem, m: Mem, q: nat) {
    q in m0 ==> q in m && m[q] == m0[q]
  }

  lemma OwnedFrame(m: Mem, u: Roles, pt: nat, s: Space, w: nat)
    requires SpaceOk(m, u, pt, s) && w < PagesUp(s.sz)
    ensures LevelOf(u, pt) == 2 && w < MAXVPN && OwnedAt(m, u, pt, w)
    ensures Target(Leaf(m, pt, w)) in u && LevelOf(u, Target(Leaf(m, pt, w))) == 3
  {
    hide Leaf, LowOf, Px, Top, Targets, FixedOk;
    assert OwnedAt(m, u, pt, w);
  }

  lemma IntactSame(m: Mem, u: Roles, sizes: Sizes, kept: set<nat>)
    requires Trees(m, u) && SpacesOk(m, u, sizes, kept)
    ensures AllIntact(m, m, sizes, sizes)
  {
    hide Trees, SpaceOk, Leaf, NoStrays, Intact;
    forall r | r in sizes
      ensures Intact(m, m, r, PagesUp(sizes[r].sz))
    {
      IntactOwned(m, u, m, r, sizes[r], PagesUp(sizes[r].sz));
    }
  }

  lemma GrownIntact(m0: Mem, u0: Roles, m: Mem, u: Roles, sizes: Sizes, kept: set<nat>)
    requires Trees(m0, u0) && SpacesOk(m0, u0, sizes, kept) && Grown(m0, u0, m, u)
    ensures AllIntact(m0, m, sizes, sizes)
  {
    hide Trees, SpaceOk, Leaf, LowOf, OwnedAt, NoStrays, Intact;
    forall r | r in sizes
      ensures Intact(m0, m, r, PagesUp(sizes[r].sz))
    {
      forall w: nat | w < PagesUp(sizes[r].sz)
        ensures Leaf(m, r, w) == Leaf(m0, r, w) && KeepsPage(m0, m, Target(Leaf(m0, r, w)))
      {
        OwnedFrame(m0, u0, r, sizes[r], w);
      }
      IntactOwned(m0, u0, m, r, sizes[r], PagesUp(sizes[r].sz));
    }
  }

  lemma FilledIntact(m0: Mem, u0: Roles, m: Mem, u: Roles, sizes: Sizes, kept: set<nat>, pt: nat, k: nat, s: Space)
    requires Trees(m0, u0) && SpacesOk(m0, u0, sizes, kept) && pt in sizes && sizes[pt].sz <= s.sz
    requires Filled(m0, u0, m, u, pt, PagesUp(sizes[pt].sz), k)
    ensures AllIntact(m0, m, sizes, sizes[pt := s])
  {
    hide Trees, SpaceOk, Leaf, LowOf, OwnedAt, NoStrays, Intact, Targets;
    forall r | r in sizes
      ensures Intact(m0, m, r, PagesUp(sizes[r].sz))
    {
      forall w: nat | w < PagesUp(sizes[r].sz)
        ensures Leaf(m, r, w) == Leaf(m0, r, w) && KeepsPage(m0, m, Target(Leaf(m0, r, w)))
      {
        OwnedFrame(m0, u0, r, sizes[r], w);
      }
      IntactOwned(m0, u0, m, r, sizes[r], PagesUp(sizes[r].sz));
    }
  }

  /** Frames given up at pages [first, first + k) of pt are those of no other page. */
  lemma UnmappedIntact(m0: Mem, u0: Roles, m: Mem, u: Roles, sizes: Sizes, kept: set<nat>, pt: nat, newsz: nat)
    requires Trees(m0, u0) && SpacesOk(m0, u0, sizes, kept) && pt in sizes && newsz <= sizes[pt].sz
    requires Unmapped(m0, u0, m, u, pt, PagesUp(newsz), PagesUp(sizes[pt].sz) - PagesUp(newsz),
                      Targets(m0, pt, PagesUp(newsz), PagesUp(sizes[pt].sz) - PagesUp(newsz)))
    ensures AllIntact(m0, m, sizes, sizes[pt := sizes[pt].(sz := newsz)])
  {
    hide Trees, SpaceOk, Leaf, LowOf, OwnedAt, NoStrays, Intact, Unmapped, Targets;
    forall r | r in sizes
      ensures Intact(m0, m, r, if r == pt then PagesUp(newsz) else PagesUp(sizes[r].sz))
    {
      var k := if r == pt then PagesUp(newsz) else PagesUp(sizes[r].sz);
      forall w: nat | w < k
        ensures Leaf(m, r, w) == Leaf(m0, r, w) && KeepsPage(m0, m, Target(Leaf(m0, r, w)))
      {
        UnmappedKeeps(m0, u0, m, u, pt, sizes[pt], newsz, r, sizes[r], w);
      }
      IntactOwned(m0, u0, m, r, sizes[r], k);
    }
  }

  lemma UnmappedKeeps(m0: Mem, u0: Roles, m: Mem, u: Roles, pt: nat, s: Space, newsz: nat, r: nat, t: Space, w: nat)
    requires Trees(m0, u0) && SpaceOk(m0, u0, pt, s) && SpaceOk(m0, u0, r, t) && newsz <= s.sz
    requires w < PagesUp(t.sz) && (r == pt ==> w < PagesUp(newsz))
    requires Unmapped(m0, u0, m, u, pt, PagesUp(newsz), PagesUp(s.sz) - PagesUp(newsz),
                      Targets(m0, pt, PagesUp(newsz), PagesUp(s.sz) - PagesUp(newsz)))
    ensures Leaf(m, r, w) == Leaf(m0, r, w) && KeepsPage(m0, m, Target(Leaf(m0, r, w)))
  {
    hide Trees, SpaceOk, Leaf, LowOf, OwnedAt, Px;
    OwnedFrame(m0, u0, r, t, w);
    var first, k, q := PagesUp(newsz), PagesUp(s.sz) - PagesUp(newsz), Target(Leaf(m0, r, w));
    if q in Targets(m0, pt, first, k) {
      var v: nat :| first <= v < first + k && q == Target(Leaf(m0, pt, v));
      OwnedFrame(m0, u0, pt, s, v);
      OwnedOnce(m0, u0, r, w, pt, v);
      assert false;
    }
  }

  lemma AsideIntact(m0: Mem, u0: Roles, m: Mem, sizes: Sizes, kept: set<nat>, pt: nat, s: Space)
    requires Trees(m0, u0) && SpacesOk(m0, u0, sizes, kept) && pt !in sizes
    requires forall r :: r in sizes ==> Aside(m0, u0, m, r)
    ensures AllIntact(m0, m, sizes, sizes[pt := s])
  {
    hide Trees, SpaceOk, Leaf, LowOf, OwnedAt, NoStrays, Intact;
    forall r | r in sizes
      ensures Intact(m0, m, r, PagesUp(sizes[r].sz))
    {
      forall w: nat | w < PagesUp(sizes[r].sz)
        ensures Leaf(m, r, w) == Leaf(m0, r, w) && KeepsPage(m0, m, Target(Leaf(m0, r, w)))
      {
        OwnedFrame(m0, u0, r, sizes[r], w);
      }
      IntactOwned(m0, u0, m, r, sizes[r], PagesUp(sizes[r].sz));
    }
  }

  /** The kernel's pages are unmapped from the table of pt, or what is left of it is freed. */
  lemma EndingIntact(m0: Mem, u0: Roles, m: Mem, sizes: Sizes, kept: set<nat>, pt: nat)
    requires Trees(m0, u0) && Ending(m0, u0, sizes, kept, pt)
    requires forall r: nat, w: nat :: w < MAXVPN && r != pt && r in u0 && u0[r] == Loose(2) ==> Leaf(m, r, w) == Leaf(m0, r, w)
    requires forall q :: q in u0 && LevelOf(u0, q) == 3 && Top(u0, q) != pt ==> KeepsPage(m0, m, q)
    ensures AllIntact(m0, m, sizes - {pt}, sizes - {pt})
  {
    hide Trees, SpaceOk, Leaf, LowOf, OwnedAt, NoStrays, Intact, Top;
    forall r | r in sizes && r != pt
      ensures Intact(m0, m, r, PagesUp(sizes[r].sz))
    {
      SpaceRoot(m0, u0, r, sizes[r]);
      forall w: nat | w < PagesUp(sizes[r].sz)
        ensures Leaf(m, r, w) == Leaf(m0, r, w) && KeepsPage(m0, m, Target(Leaf(m0, r, w)))
      {
        OwnedFrame(m0, u0, r, sizes[r], w);
        OwnedTop(m0, u0, r, w);
      }
      IntactOwned(m0, u0, m, r, sizes[r], PagesUp(sizes[r].sz));
    }
  }

  lemma UnfixedIntact(m0: Mem, u0: Roles, m: Mem, u: Roles, sizes: Sizes, kept: set<nat>, pt: nat, v: nat)
    requires Trees(m0, u0) && Ending(m0, u0, sizes, kept, pt) && Unmapped(m0, u0, m, u, pt, v, 1, {})
    ensures AllIntact(m0, m, sizes - {pt}, sizes - {pt})
  {
    hide Trees, Leaf, LowOf, AllIntact, Ending, Top;
    assert u == u0;
    EndingIntact(m0, u0, m, sizes, kept, pt);
  }

  lemma FreedIntact(m0: Mem, u0: Roles, m: Mem, u: Roles, sizes: Sizes, kept: set<nat>, pt: nat)
    requires Trees(m0, u0) && Ending(m0, u0, sizes, kept, pt)
    requires forall q :: q in u <==> q in u0 && Top(u0, q) != pt
    requires forall q :: q in u ==> u[q] == u0[q]
    requires forall q :: q in u && LevelOf(u, q) == 3 && q in m0 ==> q in m && m[q] == m0[q]
    requires forall r: nat, w: nat :: w < MAXVPN && r != pt && r in u0 && u0[r] == Loose(2) ==>
               Leaf(m, r, w) == Leaf(m0, r, w) && LowOf(m, r, w) == LowOf(m0, r, w)
    ensures AllIntact(m0, m, sizes - {pt}, sizes - {pt})
  {
    hide Trees, Leaf, LowOf, AllIntact, Ending, Top;
    EndingIntact(m0, u0, m, sizes, kept, pt);
  }

  lemma RestIntact(m0: Mem, m: Mem, sizes: Sizes, pt: nat)
    requires AllIntact(m0, m, sizes - {pt}, sizes - {pt})
    ensures AllIntact(m0, m, sizes, sizes - {pt})
  {
    hide Intact;
  }

  lemma IntactTrans(m0: Mem, m1: Mem, m: Mem, sizes0: Sizes, sizes1: Sizes, sizes: Sizes)
    requires AllIntact(m0, m1, sizes0, sizes1) && AllIntact(m1, m, sizes1, sizes)
    requires forall r :: r in sizes0 && r in sizes ==>
               r in sizes1 && Min(PagesUp(sizes0[r].sz), PagesUp(sizes[r].sz)) <= PagesUp(sizes1[r].sz)
    ensures AllIntact(m0, m, sizes0, sizes)
  {
    hide Leaf, PagesUp;
    forall r | r in sizes0 && r in sizes
      ensures Intact(m0, m, r, Min(PagesUp(sizes0[r].sz), PagesUp(sizes[r].sz)))
    {
      assert Intact(m0, m1, r, Min(PagesUp(sizes0[r].sz), PagesUp(sizes1[r].sz)));
      assert Intact(m1, m, r, Min(PagesUp(sizes1[r].sz), PagesUp(sizes[r].sz)));
    }
  }

  // ---------- runs ----------

  const NPROC: nat := 256

  /** What processes ask for; slot is the process the new table is for. */
  datatype Call =
    | Create(slot: nat)
    | Grow(pt: nat, newsz: nat)
    | Shrink(pt: nat, newsz: nat)
    | Fork(pt: nat, slot: nat)
    | Free(pt: nat)

  datatype Snap = Snap(mem: Mem, use: Roles, sizes: Sizes, free: nat)

  /** Calls that name a table that exists, and a size up to MAXVA. */
  predicate Ready(sizes: Sizes, c: Call) {
    match c
    case Create(slot) => slot < NPROC
    case Grow(pt, newsz) => pt in sizes && newsz <= MAXVA
    case Shrink(pt, _) => pt in sizes
    case Fork(pt, slot) => pt in sizes && slot < NPROC
    case Free(pt) => pt in sizes
  }

  /** Where the kernel panics for want of pages. */
  predicate Stops(a: Snap, c: Call) {
    Ready(a.sizes, c) && (c.Create? || c.Fork?) && a.free < 3
  }

  /** What a call does when it does not panic.  tf holds the page of each process's trapframe. */
  ghost predicate Effect(tf: seq<nat>, tramp: nat, a: Snap, c: Call, b: Snap)
    requires Ready(a.sizes, c) && |tf| == NPROC
  {
    match c
    case Create(slot) =>
      exists pt :: pt !in a.use && Joined(a, b, pt, Space(0, tf[slot], tramp)) && b.free + 3 == a.free
    case Grow(pt, newsz) => GrowEffect(a, pt, newsz, b)
    case Shrink(pt, newsz) =>
      var s := a.sizes[pt];
      && b.sizes == a.sizes[pt := s.(sz := if newsz < s.sz then newsz else s.sz)]
      && b.free == a.free + if newsz < s.sz then PagesUp(s.sz) - PagesUp(newsz) else 0
    case Fork(pt, slot) => exists child :: child !in a.use && ForkEffect(a, pt, tf[slot], tramp, child, b)
    case Free(pt) =>
      b.sizes == a.sizes - {pt} && forall q :: q in b.use <==> q in a.use && Top(a.use, q) != pt
  }

  ghost predicate Joined(a: Snap, b: Snap, pt: nat, s: Space) {
    pt !in a.sizes && b.sizes == a.sizes[pt := s]
  }

  /** Without room below the kernel's pages, or without enough free pages, no frame is taken. */
  ghost predicate GrowEffect(a: Snap, pt: nat, newsz: nat, b: Snap)
    requires pt in a.sizes
  {
    var s := a.sizes[pt];
    var need := GrowNeed(a.mem, pt, s.sz, newsz);
    if newsz < s.sz then b == a
    else if PagesUp(newsz) <= TRAPFRAME && need <= a.free then
      && b.sizes == a.sizes[pt := s.(sz := newsz)] && b.free + need == a.free && FreshUser(b.mem, pt, s.sz, newsz)
      && forall w: nat :: PagesUp(s.sz) <= w < PagesUp(newsz) ==> Holds(b.mem, pt, w, PTE_RWXU, Zeros(PGSIZE))
    else b.sizes == a.sizes && Grown(a.mem, a.use, b.mem, b.use)
  }

  /** The child gets all pages, or none. */
  ghost predicate ForkEffect(a: Snap, pt: nat, tf: nat, tramp: nat, child: nat, b: Snap)
    requires pt in a.sizes
  {
    var s := a.sizes[pt];
    var need := 3 + PagesUp(s.sz) + ForkTables(PagesUp(s.sz));
    if need <= a.free then
      && Joined(a, b, child, Space(s.sz, tf, tramp)) && b.free + need == a.free && SameUser(a.mem, pt, b.mem, child, s.sz)
      && forall w: nat :: w < PagesUp(s.sz) ==> CopyOf(a.mem, a.use, pt, b.mem, child, w)
    else Joined(a, b, child, Space(0, tf, tramp))
  }

  /** A call that names no table of its own does not happen; any other leaves the pages of all address spaces
      alone that it does not give up. */
  ghost predicate Outcome(tf: seq<nat>, tramp: nat, a: Snap, c: Call, b: Snap) {
    if |tf| == NPROC && Ready(a.sizes, c) then Effect(tf, tramp, a, c, b) && AllIntact(a.mem, b.mem, a.sizes, b.sizes)
    else b == a
  }

  ghost predicate IsRun(tf: seq<nat>, tramp: nat, trace: seq<Snap>, calls: seq<Call>) {
    && 0 < |trace| <= |calls| + 1
    && forall k :: 0 <= k < |trace| - 1 ==> Outcome(tf, tramp, trace[k], calls[k], trace[k + 1])
  }

  lemma RunBegins(tf: seq<nat>, tramp: nat, a: Snap, calls: seq<Call>)
    ensures IsRun(tf, tramp, [a], calls)
  {
  }

  lemma RunMore(tf: seq<nat>, tramp: nat, trace: seq<Snap>, calls: seq<Call>, b: Snap)
    requires IsRun(tf, tramp, trace, calls) && |trace| <= |calls|
    requires Outcome(tf, tramp, trace[|trace| - 1], calls[|trace| - 1], b)
    ensures IsRun(tf, tramp, trace + [b], calls)
  {
    hide Outcome;
    assert forall k :: 0 <= k < |trace| ==> (trace + [b])[k] == trace[k];
  }

  class Spaces {
    const m: Machine
    /** The page of the trampoline's code, and the page of each process's trapframe. */
    const tramp: nat
    var trapframe: seq<nat>
    var sizes: Sizes

    /** The pages the kernel keeps for good. */
    ghost function Kept(): set<nat>
      reads this`trapframe
    {
      NonZero(trapframe)
    }

    ghost predicate Valid()
      reads this, m
    {
      && m.Valid() && tramp < UINT64 / PGSIZE
      && |trapframe| == NPROC && (forall k :: 0 <= k < NPROC ==> trapframe[k] < UINT64 / PGSIZE)
      && SpacesOk(m.mem, m.use, sizes, Kept())
    }

    ghost function Now(): Snap
      reads this`sizes, m
    {
      Snap(m.mem, m.use, sizes, |m.free|)
    }

    /** kinit and procinit; a process whose trapframe finds no page gets address 0. */
    constructor (lo: nat, hi: nat, mem: Mem, tramp: nat)
      requires 0 < lo <= hi <= UINT64 / PGSIZE && tramp < UINT64 / PGSIZE
      requires forall p :: lo <= p < hi ==> p in mem
      ensures Valid() && fresh(m) && sizes == map[] && m.lo == lo && m.hi == hi && this.tramp == tramp
      ensures |m.free| == if hi - lo < NPROC then 0 else hi - lo - NPROC
    {
      hide Trees, FreeList, Partition, NoStrays, NonZero, Machine.Valid;
      m := new Machine(lo, hi, mem);
      this.tramp := tramp;
      sizes := map[];
      trapframe := [];
      new;
      NothingKept();
      Procinit();
    }

    /** The kalloc of each trapframe. */
    method Procinit()
      requires m.Valid() && m.hi <= UINT64 / PGSIZE && trapframe == [] && NoStrays(m.use, map[], {})
      modifies this`trapframe, m`mem, m`freelist, m`free, m`use
      ensures m.Valid() && |trapframe| == NPROC && (forall k :: 0 <= k < NPROC ==> trapframe[k] < UINT64 / PGSIZE)
      ensures NoStrays(m.use, map[], Kept())
      ensures |m.free| == if |old(m.free)| < NPROC then 0 else |old(m.free)| - NPROC
    {
      hide SameTables, NoStrays, NonZero, Machine.Valid;
      NothingKept();
      while |trapframe| < NPROC
        invariant |trapframe| <= NPROC && m.Valid() && NoStrays(m.use, map[], Kept())
        invariant forall k :: 0 <= k < |trapframe| ==> trapframe[k] < UINT64 / PGSIZE
        invariant |m.free| == if |old(m.free)| < |trapframe| then 0 else |old(m.free)| - |trapframe|
      {
        ghost var use0 := m.use;
        var pa := m.Kalloc();
        KeepOne(use0, m.use, trapframe, pa / PGSIZE);
        trapframe := trapframe + [pa / PGSIZE];
      }
    }

    /** proc_pagetable: an empty table but for the kernel's pages; 0 stands for the panic of its caller. */
    method MakeTable(slot: nat) returns (pt: nat)
      requires Valid() && slot < NPROC
      modifies this`sizes, m`mem, m`freelist, m`free, m`use
      ensures pt == 0 <==> |old(m.free)| < 3
      ensures pt != 0 ==>
        && Valid() && pt !in old(m.use) && pt !in old(sizes) && sizes == old(sizes)[pt := Space(0, trapframe[slot], tramp)]
        && |m.free| + 3 == |old(m.free)| && TopOnly(m.mem, pt)
        && (forall r :: r in old(sizes) ==> Aside(old(m.mem), old(m.use), m.mem, r))
        && AllIntact(old(m.mem), m.mem, old(sizes), sizes)
    {
      hide Trees, FreeList, Partition, SpaceOk, SpacesOk, NoStrays, Leaf, LowOf, MidOf, Reached, TopOnly, Mapped,
           Aside, Making, AllIntact,
           TablesFor, Vacant, MakePte;
      var s := Space(0, trapframe[slot], tramp);
      ghost var m0, u0 := m.mem, m.use;
      pt := m.Uvmcreate();
      if pt == 0 {
        return 0;
      }
      ghost var m1, u1 := m.mem, m.use;
      Created(m0, u0, m1, u1, sizes, Kept(), pt, s);
      MakingNew(m1, u1, sizes, Kept(), pt, s);
      ghost var m2, u2;
      var ok;
      ok, m2, u2 := FixPages(pt, s);
      if !ok {
        return 0;
      }
      FixedLeaves(m1, u1, m2, u2, m.mem, m.use, pt, s);
      MadeSpace(m.mem, m.use, sizes, Kept(), pt, s);
      AllAside(m0, u0, m1, u1, m2, u2, m.mem, m.use, sizes, Kept(), pt, s);
      AsideIntact(m0, u0, m.mem, sizes, Kept(), pt, s);
      sizes := sizes[pt := s];
    }

    /** The two mappages of proc_pagetable, on a new table. */
    method FixPages(pt: nat, s: Space) returns (ok: bool, ghost m2: Mem, ghost u2: Roles)
      requires m.Valid() && Making(m.mem, m.use, sizes, Kept(), pt, s) && s.tramp < UINT64 / PGSIZE && s.tf < UINT64 / PGSIZE
      requires forall w: nat :: !IsValid(Leaf(m.mem, pt, w)) && MidOf(m.mem, pt, w) == 0
      modifies m`mem, m`freelist, m`free, m`use
      ensures ok <==> 2 <= |old(m.free)|
      ensures LevelOf(old(m.use), pt) == 2
      ensures ok ==>
        && m.Valid() && Making(m.mem, m.use, sizes, Kept(), pt, s) && |m.free| + 2 == |old(m.free)| && TopOnly(m.mem, pt)
        && Mapped(old(m.mem), old(m.use), m2, u2, pt, TRAMPOLINE, 1, s.tramp, PTE_RX, false) && LevelOf(u2, pt) == 2
        && Mapped(m2, u2, m.mem, m.use, pt, TRAPFRAME, 1, s.tf, PTE_RW, false)
    {
      hide Trees, FreeList, Partition, NoStrays, Leaf, LowOf, MidOf, Reached, TopOnly, Mapped, Making, TablesFor,
           Vacant, MakePte;
      ghost var m1, u1 := m.mem, m.use;
      MakingNew(m1, u1, sizes, Kept(), pt, s);
      FirstFixed(m1, pt);
      FixedFlags();
      FixedPlaces();
      m2, u2 := m1, u1;
      var r, k := m.Mappages(pt, TRAMPOLINE * PGSIZE, PGSIZE, s.tramp * PGSIZE, PTE_RX, false);
      if r != 0 {
        return false, m2, u2;
      }
      m2, u2 := m.mem, m.use;
      FixedStep(m1, u1, m2, u2, sizes, Kept(), pt, s, TRAMPOLINE, s.tramp, PTE_RX);
      SecondFixed(m1, m2, pt);
      FreshLeaf(m1, u1, m2, u2, pt, s.tramp);
      r, k := m.Mappages(pt, TRAPFRAME * PGSIZE, PGSIZE, s.tf * PGSIZE, PTE_RW, false);
      FixedStep(m2, u2, m.mem, m.use, sizes, Kept(), pt, s, TRAPFRAME, s.tf, PTE_RW);
      ThenTop(m2, m.mem, pt);
      ok := true;
    }

    /** uvmalloc; its caller records what it returns, unless that is 0.  It succeeds exactly when the space ends
        below the kernel's pages and there is a free page for each frame and each missing table. */
    method DoGrow(pt: nat, newsz: nat) returns (r: nat, ghost ok: bool)
      requires Valid() && pt in sizes && newsz <= MAXVA
      modifies this`sizes, m`mem, m`freelist, m`free, m`use
      ensures Valid() && (!ok ==> r == 0 && sizes == old(sizes))
      ensures
        var s := old(sizes)[pt];
        && (ok <==> newsz < s.sz || (PagesUp(newsz) <= TRAPFRAME && GrowNeed(old(m.mem), pt, s.sz, newsz) <= |old(m.free)|))
        && (ok ==> sizes == old(sizes)[pt := s.(sz := r)] && r == if newsz < s.sz then s.sz else newsz)
        && (ok && s.sz <= newsz ==> |m.free| + GrowNeed(old(m.mem), pt, s.sz, newsz) == |old(m.free)|)
        && (ok ==> forall w: nat :: PagesUp(s.sz) <= w < PagesUp(newsz) ==> Holds(m.mem, pt, w, PTE_RWXU, Zeros(PGSIZE)))
        && (newsz < s.sz ==> Now() == old(Now()))
        && (ok ==> FreshUser(m.mem, pt, s.sz, newsz))
      ensures !ok ==> Grown(old(m.mem), old(m.use), m.mem, m.use)
      ensures AllIntact(old(m.mem), m.mem, old(sizes), sizes)
    {
      hide Trees, FreeList, Partition, Leaf, LowOf, Filled, Grown, Targets, OwnedAt, Top, NoStrays, Holds, Vacant,
           FixedOk, NonZero, AllIntact,
           TablesFor;
      assert SpaceOk(m.mem, m.use, pt, sizes[pt]);
      var s := sizes[pt];
      assert sizes[pt := s] == sizes && s.(sz := s.sz) == s;
      if s.sz <= newsz {
        RoomAbove(m.mem, m.use, pt, s, PagesUp(newsz));
      }
      r, ok := m.Uvmalloc(pt, s.sz, newsz);
      if !ok {
        GrownSpaces(old(m.mem), old(m.use), m.mem, m.use, sizes, Kept());
        GrownIntact(old(m.mem), old(m.use), m.mem, m.use, sizes, Kept());
      } else if newsz >= s.sz {
        FilledSpaces(old(m.mem), old(m.use), m.mem, m.use, sizes, Kept(), pt, newsz);
        FilledIntact(old(m.mem), old(m.use), m.mem, m.use, sizes, Kept(), pt, PagesUp(newsz) - PagesUp(s.sz), s.(sz := newsz));
      } else {
        IntactSame(m.mem, m.use, sizes, Kept());
      }
      if r != 0 {
        sizes := sizes[pt := s.(sz := r)];
      }
    }

    /** uvmdealloc */
    method DoShrink(pt: nat, newsz: nat)
      requires Valid() && pt in sizes
      modifies this`sizes, m`mem, m`freelist, m`free, m`use
      ensures Valid()
      ensures sizes == old(sizes)[pt := old(sizes)[pt].(sz := if newsz < old(sizes)[pt].sz then newsz else old(sizes)[pt].sz)]
      ensures
        |m.free| == |old(m.free)| + if newsz < old(sizes)[pt].sz then PagesUp(old(sizes)[pt].sz) - PagesUp(newsz) else 0
      ensures AllIntact(old(m.mem), m.mem, old(sizes), sizes)
    {
      hide Trees, FreeList, Partition, Leaf, LowOf, Targets, OwnedAt, Top, NoStrays, Unmapped, FixedOk, NonZero,
           AllIntact;
      assert SpaceOk(m.mem, m.use, pt, sizes[pt]);
      var s := sizes[pt];
      assert s.(sz := s.sz) == s;
      var r := m.Uvmdealloc(pt, s.sz, newsz);
      if newsz < s.sz {
        UnmappedSpaces(old(m.mem), old(m.use), m.mem, m.use, sizes, Kept(), pt, newsz);
        UnmappedIntact(old(m.mem), old(m.use), m.mem, m.use, sizes, Kept(), pt, newsz);
      } else {
        NothingUnmapped(old(m.mem), old(m.use), m.mem, m.use, pt, PagesUp(newsz), PagesUp(s.sz));
        UnmappedSpaces(old(m.mem), old(m.use), m.mem, m.use, sizes, Kept(), pt, s.sz);
        UnmappedIntact(old(m.mem), old(m.use), m.mem, m.use, sizes, Kept(), pt, s.sz);
      }
      sizes := sizes[pt := s.(sz := r)];
    }

    lemma SoundSpace(pt: nat)
      requires Valid() && pt in sizes
      ensures Trees(m.mem, m.use) && SpaceOk(m.mem, m.use, pt, sizes[pt]) && pt in m.use && LevelOf(m.use, pt) == 2
    {
      hide Trees, FreeList, Partition, NoStrays, NonZero;
    }

    /** A process's table and uvmcopy into it.  The table takes three pages, and the copy one page for each frame
        and each table; without enough of them the child stays empty. */
    method DoFork(pt: nat, slot: nat) returns (child: nat, ok: bool)
      requires Valid() && pt in sizes && slot < NPROC
      modifies this`sizes, m`mem, m`freelist, m`free, m`use
      ensures child == 0 <==> |old(m.free)| < 3
      ensures
        var s := old(sizes)[pt];
        child != 0 ==>
          && Valid() && child !in old(m.use) && child !in old(sizes)
          && sizes == old(sizes)[child := Space(if ok then s.sz else 0, trapframe[slot], tramp)]
          && (ok <==> 3 + PagesUp(s.sz) + ForkTables(PagesUp(s.sz)) <= |old(m.free)|)
          && (ok ==> |m.free| + 3 + PagesUp(s.sz) + ForkTables(PagesUp(s.sz)) == |old(m.free)|)
          && (ok ==> forall w: nat :: w < PagesUp(s.sz) ==> CopyOf(old(m.mem), old(m.use), pt, m.mem, child, w))
          && (ok ==> SameUser(old(m.mem), pt, m.mem, child, s.sz))
          && AllIntact(old(m.mem), m.mem, old(sizes), sizes)
    {
      hide Valid, CopyOf, AllIntact, TopOnly, ForkTables, Aside, PagesUp, Trees, SpaceOk;
      ghost var m0, u0, sizes0 := m.mem, m.use, sizes;
      var s := sizes[pt];
      SoundSpace(pt);
      child := MakeTable(slot);
      if child == 0 {
        return 0, false;
      }
      ghost var m1, u1, sizes1 := m.mem, m.use, sizes;
      ok := CopyAll(pt, child);
      IntactTrans(m0, m1, m.mem, sizes0, sizes1, sizes);
      LastSize(sizes0, child, sizes1[child], if ok then s.sz else 0);
      if ok {
        CopyBefore(m0, u0, m1, u1, m.mem, pt, child, s);
        SoundSpace(child);
        CopySame(m0, u0, pt, s, m.mem, m.use, child);
      }
    }

    /** uvmcopy into a table that holds nothing but the kernel's pages. */
    method CopyAll(pt: nat, child: nat) returns (ok: bool)
      requires Valid() && pt in sizes && child in sizes && pt != child && sizes[child].sz == 0 && TopOnly(m.mem, child)
      modifies this`sizes, m`mem, m`freelist, m`free, m`use
      ensures Valid() && AllIntact(old(m.mem), m.mem, old(sizes), sizes)
      ensures
        var s := old(sizes)[pt];
        && sizes == old(sizes)[child := old(sizes)[child].(sz := if ok then s.sz else 0)]
        && (ok <==> PagesUp(s.sz) + ForkTables(PagesUp(s.sz)) <= |old(m.free)|)
        && (ok ==> |m.free| + PagesUp(s.sz) + ForkTables(PagesUp(s.sz)) == |old(m.free)|)
        && (ok ==> forall w: nat :: w < PagesUp(s.sz) ==> CopyOf(old(m.mem), old(m.use), pt, m.mem, child, w))
    {
      hide Trees, FreeList, Partition, Leaf, LowOf, MidOf, Filled, Grown, Targets, OwnedAt, Top, NoStrays, CopyOf,
           Vacant, FixedOk, AllIntact,
           NonZero, TopOnly, TablesFor, ForkTables, Aside, UserRwx, Readable, UserByte;
      ghost var m1, u1 := m.mem, m.use;
      var s, t := sizes[pt], sizes[child];
      assert SpaceOk(m1, u1, pt, s) && SpaceOk(m1, u1, child, t);
      assert PagesUp(0) == 0;
      assert sizes[child := t] == sizes && t.(sz := 0) == t;
      RoomAbove(m1, u1, child, t, PagesUp(s.sz));
      CopyNeed(m1, child, PagesUp(s.sz));
      var r := m.Uvmcopy(pt, child, s.sz);
      if r == -1 {
        GrownSpaces(m1, u1, m.mem, m.use, sizes, Kept());
        GrownIntact(m1, u1, m.mem, m.use, sizes, Kept());
        return false;
      }
      FilledRoot(m1, u1, m.mem, m.use, child, PagesUp(s.sz));
      CopyUser(m1, u1, pt, m.mem, m.use, child, s.sz);
      FilledSpaces(m1, u1, m.mem, m.use, sizes, Kept(), child, s.sz);
      FilledIntact(m1, u1, m.mem, m.use, sizes, Kept(), child, PagesUp(s.sz), t.(sz := s.sz));
      sizes := sizes[child := t.(sz := s.sz)];
      return true;
    }

    /** uvmcopy of a space onto itself, to which fork comes with the pool full, always fails and changes no
        translation. */
    method CopyOnto(pt: nat) returns (r: int)
      requires Valid() && pt in sizes && 0 < sizes[pt].sz
      modifies m`mem, m`freelist, m`free, m`use
      ensures Valid() && r == -1
      ensures forall q: nat, w: nat :: q in sizes && w < MAXVPN ==> Lookup(m.mem, q, w) == Lookup(old(m.mem), q, w)
    {
      hide Trees, FreeList, Partition, Leaf, LowOf, Grown, Targets, OwnedAt, Top, NoStrays, Vacant, FixedOk, NonZero;
      assert SpaceOk(m.mem, m.use, pt, sizes[pt]);
      NotOntoItself(m.mem, m.use, pt, sizes[pt].sz);
      r := m.Uvmcopy(pt, pt, sizes[pt].sz);
      GrownSpaces(old(m.mem), old(m.use), m.mem, m.use, sizes, Kept());
      forall q: nat, w: nat | q in sizes && w < MAXVPN
        ensures Lookup(m.mem, q, w) == Lookup(old(m.mem), q, w)
      {
        assert SpaceOk(old(m.mem), old(m.use), q, sizes[q]);
        GrownIsSame(old(m.mem), old(m.use), m.mem, m.use, q, w);
      }
    }

    /** proc_freepagetable */
    method DoFree(pt: nat)
      requires Valid() && pt in sizes
      modifies this`sizes, m`mem, m`freelist, m`free, m`use
      ensures Valid() && sizes == old(sizes) - {pt}
      ensures forall q :: q in m.use <==> q in old(m.use) && Top(old(m.use), q) != pt
      ensures AllIntact(old(m.mem), m.mem, old(sizes), sizes)
    {
      hide Trees, FreeList, Partition, Leaf, LowOf, Targets, OwnedAt, Top, NoStrays, FixedOk, NonZero, Unmapped,
           SpaceOk, Ending, AllIntact;
      ghost var m0, u0, rest := m.mem, m.use, sizes - {pt};
      EndBegins(m0, u0, sizes, Kept(), pt);
      FixedNotOwned(m0, u0, pt, sizes[pt], TRAMPOLINE);
      FixedNotOwned(m0, u0, pt, sizes[pt], TRAPFRAME);
      EndingParts(m0, u0, sizes, Kept(), pt);
      assert TRAMPOLINE * PGSIZE / PGSIZE == TRAMPOLINE && TRAPFRAME * PGSIZE / PGSIZE == TRAPFRAME;
      m.Uvmunmap(pt, TRAMPOLINE * PGSIZE, 1, false);
      ghost var m1, u1 := m.mem, m.use;
      UnfixedStep(m0, u0, m1, u1, sizes, Kept(), pt, TRAMPOLINE);
      UnfixedIntact(m0, u0, m1, u1, sizes, Kept(), pt, TRAMPOLINE);
      StillFixed(m0, u0, m1, u1, pt, TRAMPOLINE, TRAPFRAME);
      m.Uvmunmap(pt, TRAPFRAME * PGSIZE, 1, false);
      UnfixedStep(m1, u1, m.mem, m.use, sizes, Kept(), pt, TRAPFRAME);
      UnfixedIntact(m1, u1, m.mem, m.use, sizes, Kept(), pt, TRAPFRAME);
      IntactTrans(m0, m1, m.mem, rest, rest, rest);
      ghost var m2, u2 := m.mem, m.use;
      EndingParts(m2, u2, sizes, Kept(), pt);
      m.Uvmfree(pt, sizes[pt].sz);
      FreedSpaces(m2, u2, m.mem, m.use, sizes, Kept(), pt);
      FreedIntact(m2, u2, m.mem, m.use, sizes, Kept(), pt);
      IntactTrans(m0, m2, m.mem, rest, rest, rest);
      RestIntact(m0, m.mem, sizes, pt);
      sizes := sizes - {pt};
    }

    lemma AllBack()
      requires Valid() && sizes == map[]
      ensures m.use.Keys == Kept() && forall p :: m.lo <= p < m.hi && p !in Kept() ==> p in m.free
    {
      NobodyLeft(m.mem, m.use, Kept());
    }

    /** Any run, up to a panic for want of pages: trace holds the states before and after each call, and the run
        stops only at a call for a new table with fewer than three pages free.  Whatever ran out of memory on the
        way, once every address space has been freed all physical pages but those of the trapframes are back on the
        free list. */
    method Run(calls: seq<Call>) returns (panicked: bool, ghost trace: seq<Snap>)
      requires Valid()
      modifies this`sizes, m`mem, m`freelist, m`free, m`use
      ensures IsRun(trapframe, tramp, trace, calls) && trace[0] == old(Now())
      ensures panicked ==> |trace| <= |calls| && Stops(trace[|trace| - 1], calls[|trace| - 1])
      ensures !panicked ==> Valid() && |trace| == |calls| + 1 && trace[|calls|] == Now()
      ensures !panicked ==> forall k :: 0 <= k < |calls| ==> !Stops(trace[k], calls[k])
      ensures !panicked && sizes == map[] ==>
        m.use.Keys == Kept() && forall p :: m.lo <= p < m.hi && p !in Kept() ==> p in m.free
    {
      hide Valid, NonZero, Outcome, Stops, IsRun;
      panicked, trace := false, [Now()];
      RunBegins(trapframe, tramp, Now(), calls);
      var k := 0;
      while k < |calls|
        invariant 0 <= k <= |calls| && !panicked && Valid() && |trace| == k + 1
        invariant IsRun(trapframe, tramp, trace, calls) && trace[0] == old(Now()) && trace[k] == Now()
        invariant forall j :: 0 <= j < k ==> !Stops(trace[j], calls[j])
      {
        panicked := Do(calls[k]);
        if panicked {
          return;
        }
        RunMore(trapframe, tramp, trace, calls, Now());
        trace := trace + [Now()];
        k := k + 1;
      }
      if sizes == map[] {
        AllBack();
      }
    }

    method Do(c: Call) returns (panicked: bool)
      requires Valid()
      modifies this`sizes, m`mem, m`freelist, m`free, m`use
      ensures panicked <==> Stops(old(Now()), c)
      ensures !panicked ==> Valid() && Outcome(trapframe, tramp, old(Now()), c, Now())
      ensures
        match c
        case Create(slot) => slot < 256 && !panicked ==> Effect(trapframe, tramp, old(Now()), c, Now())
        case Grow(pt, newsz) =>
          pt in old(sizes) && newsz <= 0x40_0000_0000 ==> !panicked && Effect(trapframe, tramp, old(Now()), c, Now())
        case Fork(pt, slot) =>
          pt in old(sizes) && slot < 256 && !panicked ==> Effect(trapframe, tramp, old(Now()), c, Now())
        case _ => c.pt in old(sizes) ==> !panicked && Effect(trapframe, tramp, old(Now()), c, Now())
    {
      hide Machine.Valid, SpacesOk, NonZero, ForkTables, AllIntact, Grown, Holds, CopyOf, Top, GrowNeed;
      panicked := false;
      if !Ready(sizes, c) {
        return;
      }
      ghost var was := Now();
      match c {
        case Create(slot) =>
          var pt := MakeTable(slot);
          panicked := pt == 0;
          assert !panicked ==> Joined(was, Now(), pt, Space(0, trapframe[slot], tramp));
        case Grow(pt, newsz) => var r, ok := DoGrow(pt, newsz);
        case Shrink(pt, newsz) => DoShrink(pt, newsz);
        case Fork(pt, slot) =>
          var child, ok := DoFork(pt, slot);
          panicked := child == 0;
          assert !panicked ==> ForkEffect(was, pt, trapframe[slot], tramp, child, Now());
        case Free(pt) => DoFree(pt);
      }
    }
  }

  /** What uvmalloc takes from the free list to grow a space. */
  function GrowNeed(mem: Mem, pt: nat, sz: nat, newsz: nat): nat {
    if PagesUp(sz) <= PagesUp(newsz) then Need(mem, pt, PagesUp(sz), PagesUp(newsz) - PagesUp(sz)) else 0
  }

  lemma LastSize(sizes: Sizes, pt: nat, s: Space, sz: nat)
    ensures sizes[pt := s][pt := s.(sz := sz)] == sizes[pt := Space(sz, s.tf, s.tramp)]
  {
  }

  /** The user finds in space to at every address below sz what space from had there. */
  ghost predicate SameUser(m0: Mem, from: nat, m: Mem, to: nat, sz: nat) {
    forall a: nat :: a < sz ==> Readable(m, to, a) && UserByte(m, to, a) == UserByte(m0, from, a)
  }

  lemma FilledRoot(m0: Mem, u0: Roles, m: Mem, u: Roles, pt: nat, k: nat)
    requires Filled(m0, u0, m, u, pt, 0, k) && LevelOf(u0, pt) == 2
    ensures LevelOf(u, pt) == 2
  {
    hide Leaf, LowOf;
  }

  lemma CopySame(m0: Mem, u0: Roles, pt: nat, s: Space, m: Mem, u: Roles, child: nat)
    requires Trees(m0, u0) && SpaceOk(m0, u0, pt, s) && Trees(m, u) && LevelOf(u, child) == 2
    requires forall w: nat :: w < PagesUp(s.sz) ==> CopyOf(m0, u0, pt, m, child, w)
    ensures SameUser(m0, pt, m, child, s.sz)
  {
    hide Trees, Leaf, LowOf, Top, Targets, OwnedAt, FixedOk, CopyOf, Readable, UserByte, UserRwx;
    CopyUser(m0, u0, pt, m, u, child, s.sz);
  }

  lemma CopyNeed(m: Mem, pt: nat, k: nat)
    requires TopOnly(m, pt) && k <= MAXVPN
    ensures Need(m, pt, 0, k) == k + ForkTables(k)
  {
    hide MidOf, LowOf, ForkTables, TablesFor;
    TopTables(m, pt, k);
  }

  lemma EndingParts(m: Mem, u: Roles, sizes: Sizes, kept: set<nat>, pt: nat)
    requires Ending(m, u, sizes, kept, pt)
    ensures pt in sizes && pt in u && u[pt] == Loose(2) && LevelOf(u, pt) == 2 && sizes[pt].sz <= MAXVA
    ensures forall w: nat :: w < PagesUp(sizes[pt].sz) ==> OwnedAt(m, u, pt, w)
    ensures forall q :: q in u && u[q].Frame? && Top(u, q) == pt ==> q in Targets(m, pt, 0, PagesUp(sizes[pt].sz))
  {
    hide Leaf, LowOf, OwnedAt, Top, Targets, SpaceOk, NoStrays;
  }

  lemma StillFixed(m0: Mem, u0: Roles, m: Mem, u: Roles, pt: nat, v: nat, w: nat)
    requires Unmapped(m0, u0, m, u, pt, v, 1, {}) && LevelOf(u0, pt) == 2 && w != v && w < MAXVPN
    requires IsValid(Leaf(m0, pt, w)) && !OwnedAt(m0, u0, pt, w)
    ensures IsValid(Leaf(m, pt, w)) && !OwnedAt(m, u, pt, w)
  {
    hide Leaf, LowOf, Px;
  }

  /** Without roots nothing but the kernel's own pages is in use. */
  lemma NobodyLeft(mem: Mem, use: Roles, kept: set<nat>)
    requires Trees(mem, use) && NoStrays(use, map[], kept)
    ensures use.Keys == kept
  {
    forall q | q in use
      ensures q in kept
    {
      if use[q] != Other {
        TopIsRoot(mem, use, q);
        assert false;
      }
    }
  }

  lemma TopIsRoot(mem: Mem, use: Roles, q: nat)
    requires Trees(mem, use) && q in use && use[q] != Other
    ensures Top(use, q) in use && use[Top(use, q)].Loose?
  {
    hide Ent;
    assert HangsOk(mem, use, q);
    if use[q].Low? || use[q].Frame? {
      assert HangsOk(mem, use, use[q].parent);
      if use[q].Frame? && use[use[q].parent].Low? {
        assert HangsOk(mem, use, use[use[q].parent].parent);
      }
    }
  }

  function NonZero(pages: seq<nat>): set<nat> { set k | 0 <= k < |pages| && pages[k] != 0 :: pages[k] }

  lemma NothingKept()
    ensures NonZero([]) == {} && NoStrays(map[], map[], {})
  {
  }

  /** One page more is kept, unless there was none. */
  lemma KeepOne(use0: Roles, use: Roles, pages: seq<nat>, p: nat)
    requires NoStrays(use0, map[], NonZero(pages)) && (p != 0 ==> p !in use0)
    requires use == if p == 0 then use0 else use0[p := Other]
    ensures NoStrays(use, map[], NonZero(pages + [p]))
  {
    assert forall k :: 0 <= k < |pages| ==> (pages + [p])[k] == pages[k];
    assert NonZero(pages + [p]) == NonZero(pages) + if p == 0 then {} else {(pages + [p])[|pages|]};
  }

  lemma FixedPlaces()
    ensures TRAMPOLINE * PGSIZE / PGSIZE == TRAMPOLINE && (TRAMPOLINE * PGSIZE + PGSIZE - 1) / PGSIZE == TRAMPOLINE
    ensures TRAPFRAME * PGSIZE / PGSIZE == TRAPFRAME && (TRAPFRAME * PGSIZE + PGSIZE - 1) / PGSIZE == TRAPFRAME
  {
  }

  lemma FixedFlags()
    ensures Rwx(PTE_RX) == 5 && !IsUser(PTE_RX) && Rwx(PTE_RW) == 3 && !IsUser(PTE_RW)
  {
  }

  lemma AllAside(m0: Mem, u0: Roles, m1: Mem, u1: Roles, m2: Mem, u2: Roles, m3: Mem, u3: Roles, sizes: Sizes, kept: set<nat>,
                 pt: nat, s: Space)
    requires Trees(m0, u0) && SpacesOk(m0, u0, sizes, kept) && pt !in u0 && u1 == u0[pt := Loose(2)]
    requires (forall q :: q in m1 && q != pt ==> q in m0 && m1[q] == m0[q]) && m1.Keys == m0.Keys
    requires Mapped(m1, u1, m2, u2, pt, TRAMPOLINE, 1, s.tramp, PTE_RX, false)
    requires Mapped(m2, u2, m3, u3, pt, TRAPFRAME, 1, s.tf, PTE_RW, false)
    ensures forall r :: r in sizes ==> Aside(m0, u0, m3, r)
  {
    hide Trees, Leaf, LowOf, Mapped, Aside, Top, Targets, OwnedAt, FixedOk;
    forall r | r in sizes
      ensures Aside(m0, u0, m3, r)
    {
      assert SpaceOk(m0, u0, r, sizes[r]);
      CreatedAside(m0, u0, m1, pt, r);
      MappedAside(m0, u0, m1, u1, m2, u2, pt, TRAMPOLINE, s.tramp, PTE_RX, r);
      MappedAside(m0, u0, m2, u2, m3, u3, pt, TRAPFRAME, s.tf, PTE_RW, r);
    }
  }
}
