/** Sv39 page tables held in physical pages (os/kernel/riscv.h, os/kernel/vm.c): the tree, the
    role of every physical page in use, and what changing one entry does to translations. */
module PageTable {
  import opened Bytes

  const PGSIZE: nat := 4096
  const NPTE: nat := 512
  /** Virtual pages below MAXVA = 1 << 38. */
  const MAXVPN: nat := 0x400_0000
  const PTE_V: nat := 1
  const UINT64: nat := 0x1_0000_0000_0000_0000

  type Page = b: seq<byte> | |b| == PGSIZE witness Zeros(PGSIZE)
  /** Physical memory, by page number. */
  type Mem = map<nat, Page>

  // ---------- entries ----------

  /** PTE i of a page. */
  function Pte(pg: Page, i: nat): nat {
    if i < NPTE then GetLE(pg, 8 * i, 8) else 0
  }

  function WithPte(pg: Page, i: nat, e: nat): Page {
    if i < NPTE then PutLE(pg, 8 * i, 8, e) else pg
  }

  lemma PteWith(pg: Page, i: nat, e: nat, j: nat)
    requires i < NPTE && e < UINT64
    ensures Pte(WithPte(pg, i, e), j) == if j == i then e else Pte(pg, j)
  {
    assert Pow256(8) == UINT64;
    if j == i {
      GetPutSame(pg, 8 * i, 8, e);
    } else if j < NPTE {
      GetPutOther(pg, 8 * i, 8, e, 8 * j, 8);
    }
  }

  /** An entry, byte by byte. */
  lemma PteBytes(mem: Mem, p: nat, i: nat)
    requires p in mem && i < 512
    ensures
      var pg, o := mem[p], 8 * i;
      Ent(mem, p, i) == Eight(pg[o], pg[o + 1], pg[o + 2], pg[o + 3], pg[o + 4], pg[o + 5], pg[o + 6], pg[o + 7])
  {
    hide GetLE, Eight;
    DoubleWord(mem[p], 8 * i);
  }

  lemma PteZero(j: nat)
    ensures Pte(Zeros(PGSIZE), j) == 0
  {
    if j < NPTE {
      GetZero(Zeros(PGSIZE), 8 * j, 8);
    }
  }

  function Ent(mem: Mem, p: nat, i: nat): nat {
    if p in mem then Pte(mem[p], i) else 0
  }

  /** *pte & PTE_V */
  predicate IsValid(e: nat) { e % 2 == 1 }
  /** pte & (PTE_R | PTE_W | PTE_X) */
  function Rwx(e: nat): nat { Flags(e) / 2 % 8 }
  /** *pte & PTE_U */
  predicate IsUser(e: nat) { Flags(e) / 16 % 2 == 1 }
  /** The page number of PTE2PA(pte). */
  function Target(e: nat): nat { e / 1024 }
  /** PTE_FLAGS(pte) */
  function Flags(e: nat): nat { e % 1024 }

  lemma FlagsAgain(e: nat)
    ensures Flags(e) < 1024 && Rwx(Flags(e)) == Rwx(e)
  {
  }

  /** perm | PTE_V */
  function WithV(perm: nat): (f: nat)
    requires perm < 1024
    ensures f < 1024 && IsValid(f) && Rwx(f) == Rwx(perm) && IsUser(f) == IsUser(perm)
  {
    if perm % 2 == 1 then perm
    else
      SetBitZero(perm);
      perm + 1
  }

  /** The other bits stay. */
  lemma SetBitZero(perm: nat)
    requires perm % 2 == 0 && perm < 1024
    ensures perm + 1 < 1024 && (perm + 1) % 2 == 1 && Rwx(perm + 1) == Rwx(perm) && IsUser(perm + 1) == IsUser(perm)
  {
    assert (perm + 1) / 2 == perm / 2;
    assert (perm + 1) / 16 == (perm + 1) / 2 / 8 && perm / 16 == perm / 2 / 8;
  }

  /** PA2PTE(pa) | perm | PTE_V, for a physical address in page n */
  function MakePte(n: nat, perm: nat): (e: nat)
    requires perm < 1024
    ensures Target(e) == n && Flags(e) == WithV(perm)
    ensures IsValid(e) && Rwx(e) == Rwx(perm) && IsUser(e) == IsUser(perm)
  {
    MakePteLemma(n, WithV(perm));
    n * 1024 + WithV(perm)
  }

  lemma MakePteLemma(n: nat, f: nat)
    requires f < 1024
    ensures (n * 1024 + f) / 1024 == n && (n * 1024 + f) % 1024 == f && (n * 1024 + f) % 2 == f % 2
  {
  }

  // ---------- roles ----------

  /** Why a physical page is in use: a table without a parent (level 2 for a root), a table
      or a user frame hanging off entry idx of table page parent, or something else. */
  datatype Role =
    | Loose(level: nat)
    | Mid(parent: nat, idx: nat)
    | Low(parent: nat, idx: nat)
    | Frame(parent: nat, idx: nat)
    | Other

  type Roles = map<nat, Role>

  /** The level of a table page; 3 for pages that are no table. */
  function Level(r: Role): nat {
    match r
    case Loose(l) => l
    case Mid(_, _) => 1
    case Low(_, _) => 0
    case _ => 3
  }

  function LevelOf(use: Roles, p: nat): nat {
    if p in use then Level(use[p]) else 3
  }

  /** The role of the table below entry i of a table page p of level 2 or 1. */
  function ChildRole(level: nat, p: nat, i: nat): Role {
    if level == 2 then Mid(p, i) else Low(p, i)
  }

  /** Entry e = entry i of table page p is what a page table may hold there. */
  ghost predicate EntryOk(use: Roles, p: nat, i: nat, e: nat) {
    if !IsValid(e) then e == 0
    else
      if LevelOf(use, p) == 0 then
        && Rwx(e) != 0
        && (IsUser(e) ==> Target(e) in use && use[Target(e)] == Frame(p, i))
      else
        Flags(e) == PTE_V && Target(e) in use && use[Target(e)] == ChildRole(LevelOf(use, p), p, i)
  }

  /** Page c hangs where its role says. */
  ghost predicate HangsOk(mem: Mem, use: Roles, c: nat)
    requires c in use
  {
    match use[c]
    case Loose(l) => l <= 2
    case Mid(p, i) => LevelOf(use, p) == 2 && i < NPTE && IsValid(Ent(mem, p, i)) && Target(Ent(mem, p, i)) == c
    case Low(p, i) => LevelOf(use, p) == 1 && i < NPTE && IsValid(Ent(mem, p, i)) && Target(Ent(mem, p, i)) == c
    case Frame(p, i) => LevelOf(use, p) == 0 && i < NPTE && IsValid(Ent(mem, p, i)) && Target(Ent(mem, p, i)) == c
    case Other => true
  }

  /** Every table entry leads to the one page whose role names it, and conversely. */
  ghost predicate Trees(mem: Mem, use: Roles) {
    && (forall p :: p in use ==> p in mem && 0 < p)
    && (forall p, i :: LevelOf(use, p) <= 2 && 0 <= i < NPTE ==> EntryOk(use, p, i, Ent(mem, p, i)))
    && (forall c :: c in use ==> HangsOk(mem, use, c))
  }

  // ---------- translation ----------

  /** PX(level, va) */
  function Px(level: nat, vpn: nat): nat {
    if level == 2 then vpn / 262144 % 512 else if level == 1 then vpn / 512 % 512 else vpn % 512
  }

  /** The three indices determine the virtual page below MAXVA. */
  lemma IndicesInjective(v: nat, w: nat)
    requires v < MAXVPN && w < MAXVPN
    requires Px(2, v) == Px(2, w) && Px(1, v) == Px(1, w) && Px(0, v) == Px(0, w)
    ensures v == w
  {
    PxDecompose(v);
    PxDecompose(w);
  }

  lemma PxDecompose(v: nat)
    requires v < MAXVPN
    ensures v == 262144 * Px(2, v) + 512 * Px(1, v) + Px(0, v)
  {
    var q := v / 512;
    assert v / 262144 == q / 512 && q / 512 < 512;
  }

  /** The page found by following a valid entry, or 0. */
  function Next(mem: Mem, p: nat, i: nat): nat {
    var e := Ent(mem, p, i);
    if IsValid(e) then Target(e) else 0
  }

  /** The level-1 table for a virtual page, or 0. */
  function MidOf(mem: Mem, root: nat, vpn: nat): nat {
    Next(mem, root, Px(2, vpn))
  }

  /** The level-0 table for a virtual page, or 0: what walk finds without allocating. */
  function LowOf(mem: Mem, root: nat, vpn: nat): nat {
    var m := Next(mem, root, Px(2, vpn));
    if m == 0 then 0 else Next(mem, m, Px(1, vpn))
  }

  /** The leaf entry for a virtual page; not valid when unmapped. */
  function Leaf(mem: Mem, root: nat, vpn: nat): nat {
    var l := LowOf(mem, root, vpn);
    if l == 0 then 0 else Ent(mem, l, Px(0, vpn))
  }

  /** Table root as a partial map from virtual pages to (physical page, flags). */
  function Lookup(mem: Mem, root: nat, vpn: nat): (r: Option<(nat, nat)>) {
    var e := Leaf(mem, root, vpn);
    if IsValid(e) then Some((Target(e), Flags(e))) else None
  }

  /** The walk that the hardware does for a virtual address: from each of three levels nine bits of the address
      choose an entry, whose upper bits are the number of the next page.  Entries above the last level have
      no permission bits. */
  lemma HardwareWalk(mem: Mem, use: Roles, root: nat, va: nat)
    requires Trees(mem, use) && LevelOf(use, root) == 2 && va < 0x40_0000_0000
    ensures
      var e2 := Ent(mem, root, va / 0x4000_0000 % 512);
      var e1 := Ent(mem, e2 / 1024, va / 0x20_0000 % 512);
      var e0 := Ent(mem, e1 / 1024, va / 0x1000 % 512);
      && Leaf(mem, root, va / 4096) == (if e2 % 2 == 1 && e1 % 2 == 1 then e0 else 0)
      && (e2 % 2 == 1 ==> e2 % 1024 == 1 && (e1 % 2 == 1 ==> e1 % 1024 == 1))
  {
    hide Ent;
    var v := va / 4096;
    assert va / 0x4000_0000 == v / 262144 && va / 0x20_0000 == v / 512;
    InMemory(mem, use, root);
    var e2 := Ent(mem, root, Px(2, v));
    NextLevel(mem, use, root, Px(2, v));
    assert EntryOk(use, root, Px(2, v), e2);
    if IsValid(e2) {
      var m := Target(e2);
      InMemory(mem, use, m);
      NextLevel(mem, use, m, Px(1, v));
      assert EntryOk(use, m, Px(1, v), Ent(mem, m, Px(1, v)));
      if IsValid(Ent(mem, m, Px(1, v))) {
        InMemory(mem, use, Target(Ent(mem, m, Px(1, v))));
      }
    }
  }

  lemma InMemory(mem: Mem, use: Roles, p: nat)
    requires Trees(mem, use) && p in use
    ensures p in mem && 0 < p
  {
  }

  lemma NextLevel(mem: Mem, use: Roles, p: nat, i: nat)
    requires Trees(mem, use) && i < NPTE && 1 <= LevelOf(use, p) <= 2
    ensures Next(mem, p, i) != 0 ==>
              && Next(mem, p, i) in use && use[Next(mem, p, i)] == ChildRole(LevelOf(use, p), p, i)
              && LevelOf(use, Next(mem, p, i)) == LevelOf(use, p) - 1
    ensures IsValid(Ent(mem, p, i)) ==> Next(mem, p, i) != 0
  {
    assert EntryOk(use, p, i, Ent(mem, p, i));
  }

  lemma LowOfRole(mem: Mem, use: Roles, root: nat, vpn: nat)
    requires Trees(mem, use) && LevelOf(use, root) == 2
    ensures LowOf(mem, root, vpn) != 0 ==>
              && LevelOf(use, LowOf(mem, root, vpn)) == 0
              && use[LowOf(mem, root, vpn)] == Low(Next(mem, root, Px(2, vpn)), Px(1, vpn))
              && Next(mem, root, Px(2, vpn)) in use
              && use[Next(mem, root, Px(2, vpn))] == Mid(root, Px(2, vpn))
  {
    NextLevel(mem, use, root, Px(2, vpn));
    var m := Next(mem, root, Px(2, vpn));
    if m != 0 {
      NextLevel(mem, use, m, Px(1, vpn));
    }
  }

  /** An unmapped page has a zero leaf entry, or none. */
  lemma UnmappedLeaf(mem: Mem, use: Roles, root: nat, vpn: nat)
    requires Trees(mem, use) && LevelOf(use, root) == 2 && !IsValid(Leaf(mem, root, vpn))
    ensures Leaf(mem, root, vpn) == 0
  {
    LowOfRole(mem, use, root, vpn);
    var l := LowOf(mem, root, vpn);
    if l != 0 {
      assert EntryOk(use, l, Px(0, vpn), Ent(mem, l, Px(0, vpn)));
    }
  }

  /** Leaf slots of different virtual pages, or of different tables, are different slots. */
  lemma SlotsDistinct(mem: Mem, use: Roles, r: nat, v: nat, r': nat, v': nat)
    requires Trees(mem, use) && LevelOf(use, r) == 2 && LevelOf(use, r') == 2
    requires v < MAXVPN && v' < MAXVPN
    requires LowOf(mem, r, v) != 0 && LowOf(mem, r, v) == LowOf(mem, r', v') && Px(0, v) == Px(0, v')
    ensures r == r' && v == v'
  {
    hide Px, LowOf, Trees;
    LowOfRole(mem, use, r, v);
    LowOfRole(mem, use, r', v');
    IndicesInjective(v, v');
  }

  // ---------- changing one entry ----------

  function SetEnt(mem: Mem, p: nat, i: nat, e: nat): Mem
    requires p in mem
  {
    mem[p := WithPte(mem[p], i, e)]
  }

  lemma EntSet(mem: Mem, p: nat, i: nat, e: nat, q: nat, j: nat)
    requires p in mem && i < NPTE && e < UINT64
    ensures Ent(SetEnt(mem, p, i, e), q, j) == if q == p && j == i then e else Ent(mem, q, j)
  {
    hide Pte, WithPte;
    PteWith(mem[p], i, e, j);
  }

  /** A page that no role mentions as a table may change freely. */
  lemma ChangeNonTable(mem: Mem, use: Roles, p: nat, pg: Page)
    requires Trees(mem, use) && LevelOf(use, p) == 3
    ensures Trees(mem[p := pg], use)
    ensures forall r, v :: LevelOf(use, r) == 2 ==> Leaf(mem[p := pg], r, v) == Leaf(mem, r, v)
    ensures forall r, v :: LevelOf(use, r) == 2 ==> LowOf(mem[p := pg], r, v) == LowOf(mem, r, v)
    ensures forall r, v :: LevelOf(use, r) == 2 ==> MidOf(mem[p := pg], r, v) == MidOf(mem, r, v)
  {
    hide Pte;
    var mem' := mem[p := pg];
    forall q, j | LevelOf(use, q) <= 2
      ensures Ent(mem', q, j) == Ent(mem, q, j)
    {
    }
    assert Trees(mem', use);
    forall r, v | LevelOf(use, r) == 2
      ensures LowOf(mem', r, v) == LowOf(mem, r, v) && Leaf(mem', r, v) == Leaf(mem, r, v)
    {
      NextLevel(mem, use, r, Px(2, v));
      LowOfRole(mem, use, r, v);
    }
  }

  /** A page whose only role is Other may be given up. */
  lemma DropOther(mem: Mem, use: Roles, p: nat)
    requires Trees(mem, use) && (p in use ==> use[p] == Other)
    ensures Trees(mem, use - {p})
    ensures forall q :: LevelOf(use - {p}, q) == LevelOf(use, q)
  {
    hide Ent;
    var use' := use - {p};
    forall q, i | LevelOf(use', q) <= 2 && 0 <= i < NPTE
      ensures EntryOk(use', q, i, Ent(mem, q, i))
    {
      assert EntryOk(use, q, i, Ent(mem, q, i));
    }
    forall c | c in use'
      ensures HangsOk(mem, use', c)
    {
      assert HangsOk(mem, use, c);
    }
  }

  /** A page that was free, or Other, is taken into use as Other. */
  lemma TakeOther(mem: Mem, use: Roles, p: nat)
    requires Trees(mem, use) && p !in use && p in mem && 0 < p
    ensures Trees(mem, use[p := Other])
    ensures forall q :: LevelOf(use[p := Other], q) == LevelOf(use, q)
  {
    hide Ent;
    var use' := use[p := Other];
    forall q, i | LevelOf(use', q) <= 2 && 0 <= i < NPTE
      ensures EntryOk(use', q, i, Ent(mem, q, i))
    {
      assert EntryOk(use, q, i, Ent(mem, q, i));
    }
    forall c | c in use'
      ensures HangsOk(mem, use', c)
    {
      if c != p {
        assert HangsOk(mem, use, c);
      }
    }
  }

  /** A zeroed page becomes a table without a parent. */
  lemma NewRoot(mem: Mem, use: Roles, p: nat, level: nat)
    requires Trees(mem, use) && p in use && use[p] == Other && level <= 2
    requires forall i :: 0 <= i < NPTE ==> Ent(mem, p, i) == 0
    ensures Trees(mem, use[p := Loose(level)])
  {
    hide Ent;
    var use' := use[p := Loose(level)];
    forall q, i | LevelOf(use', q) <= 2 && 0 <= i < NPTE
      ensures EntryOk(use', q, i, Ent(mem, q, i))
    {
      if q != p {
        assert EntryOk(use, q, i, Ent(mem, q, i));
      }
    }
    forall c | c in use'
      ensures HangsOk(mem, use', c)
    {
      assert HangsOk(mem, use, c);
    }
  }

  /** walk creates a table page: Other page c, zeroed, below the empty entry i of table p. */
  lemma AddNode(mem: Mem, use: Roles, p: nat, i: nat, c: nat)
    requires Trees(mem, use) && 1 <= LevelOf(use, p) <= 2 && i < NPTE && !IsValid(Ent(mem, p, i))
    requires c in use && use[c] == Other && c < UINT64 / 2048
    requires forall j :: 0 <= j < NPTE ==> Ent(mem, c, j) == 0
    ensures
      var mem', use' := SetEnt(mem, p, i, MakePte(c, 0)), use[c := ChildRole(LevelOf(use, p), p, i)];
      && Trees(mem', use') && Next(mem', p, i) == c
      && (forall r, v :: LevelOf(use, r) == 2 ==> Leaf(mem', r, v) == Leaf(mem, r, v))
      && (forall r, v :: LevelOf(use, r) == 2 && LowOf(mem, r, v) != 0 ==> LowOf(mem', r, v) == LowOf(mem, r, v))
  {
    hide Pte, WithPte, SetEnt, MakePte, Px;
    var e := MakePte(c, 0);
    var mem', use' := SetEnt(mem, p, i, e), use[c := ChildRole(LevelOf(use, p), p, i)];
    NodeEntry(c);
    forall q, j
      ensures Ent(mem', q, j) == if q == p && j == i then e else Ent(mem, q, j)
    {
      EntSet(mem, p, i, e, q, j);
    }
    KeysSet(mem, p, i, e);
    AddNodeTrees(mem, use, p, i, c, mem');
    forall r, v | LevelOf(use, r) == 2
      ensures Leaf(mem', r, v) == Leaf(mem, r, v)
      ensures LowOf(mem, r, v) != 0 ==> LowOf(mem', r, v) == LowOf(mem, r, v)
    {
      AddNodeLeaf(mem, use, p, i, c, mem', r, v);
    }
  }

  lemma NodeEntry(c: nat)
    requires c < UINT64 / 2048
    ensures MakePte(c, 0) == c * 1024 + 1 < UINT64 && Flags(MakePte(c, 0)) == PTE_V
  {
  }

  lemma AddNodeTrees(mem: Mem, use: Roles, p: nat, i: nat, c: nat, mem': Mem)
    requires Trees(mem, use) && 1 <= LevelOf(use, p) <= 2 && i < NPTE && !IsValid(Ent(mem, p, i))
    requires c in use && use[c] == Other && mem'.Keys == mem.Keys
    requires forall j :: 0 <= j < NPTE ==> Ent(mem, c, j) == 0
    requires IsValid(Ent(mem', p, i)) && Flags(Ent(mem', p, i)) == PTE_V && Target(Ent(mem', p, i)) == c
    requires forall q, j :: q != p || j != i ==> Ent(mem', q, j) == Ent(mem, q, j)
    ensures Trees(mem', use[c := ChildRole(LevelOf(use, p), p, i)])
  {
    hide Ent, IsValid, Flags, Target;
    var use' := use[c := ChildRole(LevelOf(use, p), p, i)];
    assert forall q :: q != c ==> LevelOf(use', q) == LevelOf(use, q);
    forall q, j | LevelOf(use', q) <= 2 && 0 <= j < NPTE
      ensures EntryOk(use', q, j, Ent(mem', q, j))
    {
      if q == c {
        assert !IsValid(0) by { NotValidZero(); }
      } else {
        assert EntryOk(use, q, j, Ent(mem, q, j));
      }
    }
    forall d | d in use'
      ensures HangsOk(mem', use', d)
    {
      if d != c {
        assert HangsOk(mem, use, d);
      }
    }
  }

  lemma NotValidZero()
    ensures !IsValid(0)
  {
  }

  lemma AddNodeLeaf(mem: Mem, use: Roles, p: nat, i: nat, c: nat, mem': Mem, r: nat, v: nat)
    requires Trees(mem, use) && 1 <= LevelOf(use, p) <= 2 && i < NPTE && !IsValid(Ent(mem, p, i))
    requires c in use && use[c] == Other && LevelOf(use, r) == 2
    requires forall j :: 0 <= j < NPTE ==> Ent(mem, c, j) == 0
    requires IsValid(Ent(mem', p, i)) && Target(Ent(mem', p, i)) == c
    requires forall q, j :: q != p || j != i ==> Ent(mem', q, j) == Ent(mem, q, j)
    ensures Leaf(mem', r, v) == Leaf(mem, r, v)
    ensures LowOf(mem, r, v) != 0 ==> LowOf(mem', r, v) == LowOf(mem, r, v)
  {
    hide Ent, Trees;
    NextLevel(mem, use, r, Px(2, v));
    LowOfRole(mem, use, r, v);
    NotValidZero();
  }

  /** mappages writes a leaf: entry i of level-0 table l becomes e; a frame that was Other
      becomes the frame of that entry. */
  lemma SetLeaf(mem: Mem, use: Roles, l: nat, i: nat, e: nat, take: bool)
    requires Trees(mem, use) && LevelOf(use, l) == 0 && i < NPTE && !IsValid(Ent(mem, l, i))
    requires e < UINT64 && IsValid(e) && Rwx(e) != 0 && (IsUser(e) ==> take)
    requires take ==> Target(e) in use && use[Target(e)] == Other
    ensures
      var mem', use' := SetEnt(mem, l, i, e), if take then use[Target(e) := Frame(l, i)] else use;
      && Trees(mem', use') && (forall q :: LevelOf(use', q) == LevelOf(use, q))
      && LeafChanged(mem, use, mem', l, i, e)
  {
    hide Pte, WithPte, SetEnt, IsUser, Rwx;
    var mem', use' := SetEnt(mem, l, i, e), if take then use[Target(e) := Frame(l, i)] else use;
    forall q, j
      ensures Ent(mem', q, j) == if q == l && j == i then e else Ent(mem, q, j)
    {
      EntSet(mem, l, i, e, q, j);
    }
    assert mem'.Keys == mem.Keys by { KeysSet(mem, l, i, e); }
    hide Ent;
    forall q, j | LevelOf(use', q) <= 2 && 0 <= j < NPTE
      ensures EntryOk(use', q, j, Ent(mem', q, j))
    {
      assert EntryOk(use, q, j, Ent(mem, q, j));
    }
    forall d | d in use'
      ensures HangsOk(mem', use', d)
    {
      assert HangsOk(mem, use, d);
    }
    LeafEffect(mem, use, mem', l, i, e);
  }

  lemma KeysSet(mem: Mem, p: nat, i: nat, e: nat)
    requires p in mem
    ensures SetEnt(mem, p, i, e).Keys == mem.Keys
    ensures forall q :: q in mem && q != p ==> SetEnt(mem, p, i, e)[q] == mem[q]
  {
    hide WithPte;
  }

  /** Only the translation whose leaf is entry i of table l changed, to e. */
  ghost predicate LeafChanged(mem: Mem, use: Roles, mem': Mem, l: nat, i: nat, e: nat) {
    && (forall r, v :: LevelOf(use, r) == 2 ==> LowOf(mem', r, v) == LowOf(mem, r, v))
    && (forall r, v :: LevelOf(use, r) == 2 ==>
          Leaf(mem', r, v) == if LowOf(mem, r, v) == l && Px(0, v) == i then e else Leaf(mem, r, v))
  }

  lemma LeafEffect(mem: Mem, use: Roles, mem': Mem, l: nat, i: nat, e: nat)
    requires Trees(mem, use) && LevelOf(use, l) == 0
    requires forall q, j :: Ent(mem', q, j) == if q == l && j == i then e else Ent(mem, q, j)
    ensures LeafChanged(mem, use, mem', l, i, e)
  {
    hide Ent;
    assert 0 < l;
    forall r, v | LevelOf(use, r) == 2
      ensures LowOf(mem', r, v) == LowOf(mem, r, v)
      ensures Leaf(mem', r, v) == if LowOf(mem, r, v) == l && Px(0, v) == i then e else Leaf(mem, r, v)
    {
      NextLevel(mem, use, r, Px(2, v));
      LowOfRole(mem, use, r, v);
    }
  }

  /** The roles after the leaf entry i of table l, which was e, is cleared: the frame it
      owned, if any, becomes Other. */
  function Released(use: Roles, l: nat, i: nat, e: nat): Roles {
    if Target(e) in use && use[Target(e)] == Frame(l, i) then use[Target(e) := Other] else use
  }

  /** uvmunmap clears a leaf. */
  lemma ClearLeaf(mem: Mem, use: Roles, l: nat, i: nat)
    requires Trees(mem, use) && LevelOf(use, l) == 0 && i < NPTE && IsValid(Ent(mem, l, i))
    ensures
      var mem', use' := SetEnt(mem, l, i, 0), Released(use, l, i, Ent(mem, l, i));
      && Trees(mem', use') && (forall q :: LevelOf(use', q) == LevelOf(use, q))
      && LeafChanged(mem, use, mem', l, i, 0)
  {
    hide Pte, WithPte, SetEnt, IsUser, Rwx;
    var mem', use' := SetEnt(mem, l, i, 0), Released(use, l, i, Ent(mem, l, i));
    forall q, j
      ensures Ent(mem', q, j) == if q == l && j == i then 0 else Ent(mem, q, j)
    {
      EntSet(mem, l, i, 0, q, j);
    }
    assert mem'.Keys == mem.Keys by { KeysSet(mem, l, i, 0); }
    hide Ent;
    forall q, j | LevelOf(use', q) <= 2 && 0 <= j < NPTE
      ensures EntryOk(use', q, j, Ent(mem', q, j))
    {
      assert EntryOk(use, q, j, Ent(mem, q, j));
    }
    forall d | d in use'
      ensures HangsOk(mem', use', d)
    {
      assert HangsOk(mem, use, d);
    }
    LeafEffect(mem, use, mem', l, i, 0);
  }

  // ---------- taking a tree apart ----------

  /** The parentless table above a page in use, or the page itself. */
  function Top(use: Roles, q: nat): nat {
    if q !in use then q else
    match use[q]
    case Mid(p, _) => p
    case Low(p, _) => if p in use && use[p].Mid? then use[p].parent else p
    case Frame(p, _) =>
      if p in use && use[p].Low? then
        var m := use[p].parent;
        if m in use && use[m].Mid? then use[m].parent else m
      else p
    case _ => q
  }

  /** freewalk cuts off the table below entry i of table p. */
  lemma Detach(mem: Mem, use: Roles, p: nat, i: nat)
    requires Trees(mem, use) && 1 <= LevelOf(use, p) <= 2 && use[p].Loose? && i < NPTE && IsValid(Ent(mem, p, i))
    ensures
      var c := Target(Ent(mem, p, i));
      var mem', use' := SetEnt(mem, p, i, 0), use[c := Loose(LevelOf(use, c))];
      && c in use && c != p && LevelOf(use, c) == LevelOf(use, p) - 1 && Top(use, c) == p
      && Trees(mem', use') && (forall q :: LevelOf(use', q) == LevelOf(use, q))
      && (forall q :: q in use && Top(use', q) != Top(use, q) ==> Top(use, q) == p && Top(use', q) == c)
      && (forall q :: q in use && Top(use', q) == c ==> Top(use, q) == p)
      && (forall q :: q in use && q != c ==> use'[q] == use[q])
  {
    hide Pte, WithPte, SetEnt, IsUser, Rwx, Trees, Top;
    var c := Target(Ent(mem, p, i));
    var mem', use' := SetEnt(mem, p, i, 0), use[c := Loose(LevelOf(use, c))];
    NextLevel(mem, use, p, i);
    TopOfParent(mem, use, c);
    TopOfParent(mem, use, p);
    forall q, j
      ensures Ent(mem', q, j) == if q == p && j == i then 0 else Ent(mem, q, j)
    {
      EntSet(mem, p, i, 0, q, j);
    }
    KeysSet(mem, p, i, 0);
    DetachTrees(mem, use, p, i, mem');
    DetachTops(mem, use, p, c);
  }

  lemma DetachTrees(mem: Mem, use: Roles, p: nat, i: nat, mem': Mem)
    requires Trees(mem, use) && 1 <= LevelOf(use, p) <= 2 && i < NPTE && IsValid(Ent(mem, p, i)) && mem'.Keys == mem.Keys
    requires Target(Ent(mem, p, i)) in use
    requires forall q, j :: Ent(mem', q, j) == if q == p && j == i then 0 else Ent(mem, q, j)
    ensures var c := Target(Ent(mem, p, i)); Trees(mem', use[c := Loose(LevelOf(use, c))])
  {
    hide Ent, IsUser, Rwx;
    var c := Target(Ent(mem, p, i));
    var use' := use[c := Loose(LevelOf(use, c))];
    assert EntryOk(use, p, i, Ent(mem, p, i));
    forall q, j | LevelOf(use', q) <= 2 && 0 <= j < NPTE
      ensures EntryOk(use', q, j, Ent(mem', q, j))
    {
      assert EntryOk(use, q, j, Ent(mem, q, j));
    }
    forall d | d in use'
      ensures HangsOk(mem', use', d)
    {
      assert HangsOk(mem, use, d);
    }
  }

  lemma DetachTops(mem: Mem, use: Roles, p: nat, c: nat)
    requires Trees(mem, use) && p in use && use[p].Loose? && c in use && c != p && LevelOf(use, c) <= 1 && Top(use, c) == p
    ensures
      var use' := use[c := Loose(LevelOf(use, c))];
      && (forall q :: q in use && Top(use', q) != Top(use, q) ==> Top(use, q) == p && Top(use', q) == c)
      && (forall q :: q in use && Top(use', q) == c ==> Top(use, q) == p)
  {
    hide Ent;
    var use' := use[c := Loose(LevelOf(use, c))];
    forall q | q in use
      ensures Top(use', q) != Top(use, q) ==> Top(use, q) == p && Top(use', q) == c
      ensures Top(use', q) == c ==> Top(use, q) == p
    {
      TopOfParent(mem, use, q);
    }
  }

  /** Following the roles upwards. */
  lemma TopOfParent(mem: Mem, use: Roles, q: nat)
    requires Trees(mem, use) && q in use
    ensures (use[q].Mid? || use[q].Low? || use[q].Frame?) ==>
              use[q].parent in use && Top(use, q) == Top(use, use[q].parent)
    ensures use[q].Loose? ==> Top(use, q) == q
  {
    hide Ent;
    assert HangsOk(mem, use, q);
    if use[q].Frame? || use[q].Low? || use[q].Mid? {
      assert HangsOk(mem, use, use[q].parent);
    }
  }

  ghost predicate HangsOff(r: Role, p: nat) {
    (r.Mid? || r.Low? || r.Frame?) && r.parent == p
  }

  /** A parentless table from which nothing hangs is alone in its tree and may be given up. */
  lemma BareTable(mem: Mem, use: Roles, p: nat)
    requires Trees(mem, use) && p in use && use[p].Loose?
    requires forall q :: q in use ==> !HangsOff(use[q], p)
    ensures Trees(mem, use[p := Other])
    ensures forall q :: q in use && Top(use, q) == p ==> q == p
  {
    hide Ent;
    var use' := use[p := Other];
    forall q | q in use && Top(use, q) == p
      ensures q == p
    {
      if q != p {
        var r := WhoHangs(mem, use, p, q);
        assert false;
      }
    }
    forall q, j | LevelOf(use', q) <= 2 && 0 <= j < NPTE
      ensures EntryOk(use', q, j, Ent(mem, q, j))
    {
      assert EntryOk(use, q, j, Ent(mem, q, j));
    }
    forall d | d in use'
      ensures HangsOk(mem, use', d)
    {
      assert HangsOk(mem, use, d);
    }
  }

  /** A page of the tree of p other than p itself hangs, possibly indirectly, off p. */
  lemma {:induction false} WhoHangs(mem: Mem, use: Roles, p: nat, q: nat) returns (r: nat)
    requires Trees(mem, use) && q in use && Top(use, q) == p && q != p
    ensures r in use && HangsOff(use[r], p)
    decreases if use[q].Frame? then 3 else if use[q].Low? then 2 else if use[q].Mid? then 1 else 0
  {
    hide Ent;
    TopOfParent(mem, use, q);
    assert HangsOk(mem, use, q);
    if use[q].parent == p {
      r := q;
    } else {
      r := WhoHangs(mem, use, p, use[q].parent);
    }
  }

  /** An empty table of level 2 or 1 has nothing hanging off it; nor has a level-0 table
      above which there is no frame. */
  lemma NothingHangs(mem: Mem, use: Roles, p: nat)
    requires Trees(mem, use) && p in use && use[p].Loose?
    requires LevelOf(use, p) == 0 || forall i :: 0 <= i < NPTE ==> !IsValid(Ent(mem, p, i))
    requires forall q :: q in use && use[q].Frame? ==> Top(use, q) != p
    ensures forall q :: q in use ==> !HangsOff(use[q], p)
  {
    hide Ent;
    forall q | q in use
      ensures !HangsOff(use[q], p)
    {
      assert HangsOk(mem, use, q);
      TopOfParent(mem, use, q);
    }
  }

  /** Translations of a tree depend on the pages of that tree only. */
  lemma SameTree(m0: Mem, u0: Roles, m: Mem, r: nat, v: nat)
    requires Trees(m0, u0) && r in u0 && u0[r] == Loose(2)
    requires forall q :: q in u0 && Top(u0, q) == r ==> q in m && q in m0 && m[q] == m0[q]
    ensures LowOf(m, r, v) == LowOf(m0, r, v) && Leaf(m, r, v) == Leaf(m0, r, v)
  {
    hide Pte;
    NextLevel(m0, u0, r, Px(2, v));
    LowOfRole(m0, u0, r, v);
    var c := Next(m0, r, Px(2, v));
    if c != 0 {
      assert Top(u0, c) == r;
    }
  }

  // ---------- how many tables a range of pages needs ----------

  /** w lies in the same block of n pages as one of the k pages from first on. */
  predicate InBlocks(first: nat, k: nat, w: nat, n: nat)
    requires n > 0
  {
    k > 0 && first / n <= w / n <= (first + k - 1) / n
  }

  /** From mem to mem', the root table pt has gained the tables that the k pages from first on need, and
      no other table. */
  ghost predicate Reached(mem: Mem, mem': Mem, pt: nat, first: nat, k: nat) {
    forall w: nat :: w < MAXVPN ==>
      && (MidOf(mem', pt, w) != 0 <==> MidOf(mem, pt, w) != 0 || InBlocks(first, k, w, 262144))
      && (LowOf(mem', pt, w) != 0 <==> LowOf(mem, pt, w) != 0 || InBlocks(first, k, w, 512))
  }

  /** The tables that page v lacks in mem, once those of the pages from first up to v are there. */
  function NewTables(mem: Mem, pt: nat, first: nat, v: nat): nat {
    (if MidOf(mem, pt, v) != 0 || (first < v && (v - 1) / 262144 == v / 262144) then 0 else 1)
    + (if LowOf(mem, pt, v) != 0 || (first < v && (v - 1) / 512 == v / 512) then 0 else 1)
  }

  /** How many tables the k pages from first on lack. */
  function TablesFor(mem: Mem, pt: nat, first: nat, k: nat): nat {
    if k == 0 then 0 else TablesFor(mem, pt, first, k - 1) + NewTables(mem, pt, first, first + k - 1)
  }

  lemma OneMoreTable(mem: Mem, pt: nat, first: nat, k: nat)
    ensures TablesFor(mem, pt, first, k + 1) == TablesFor(mem, pt, first, k) + NewTables(mem, pt, first, first + k)
    ensures TablesFor(mem, pt, first, 0) == 0
  {
    hide NewTables;
  }

  lemma {:induction false} MoreTables(mem: Mem, pt: nat, first: nat, j: nat, k: nat)
    requires j <= k
    ensures TablesFor(mem, pt, first, j) <= TablesFor(mem, pt, first, k)
    decreases k
  {
    if j < k { MoreTables(mem, pt, first, j, k - 1); }
  }

  lemma BlocksStep(first: nat, k: nat, w: nat, n: nat)
    requires n > 0
    ensures InBlocks(first, k + 1, w, n) <==> InBlocks(first, k, w, n) || w / n == (first + k) / n
    ensures InBlocks(first, k, first + k, n) <==> k > 0 && (first + k - 1) / n == (first + k) / n
    ensures InBlocks(first, 1, w, n) <==> w / n == first / n
  {
    NextBlock(first + k, n);
    BlocksOrder(first, first + k, n);
  }

  lemma NextBlock(v: nat, n: nat)
    requires n > 0
    ensures v > 0 ==> (v - 1) / n <= v / n <= (v - 1) / n + 1
  {
    if v > 0 {
      var q, r := (v - 1) / n, (v - 1) % n;
      assert v == q * n + r + 1;
      if r + 1 < n { DivIs(v, n, q, r + 1); } else { DivIs(v, n, q + 1, 0); }
    }
  }

  lemma DivIs(v: nat, n: nat, q: nat, r: nat)
    requires n > 0 && r < n && v == q * n + r
    ensures v / n == q
  {
    var d := v / n - q;
    assert d * n == r - v % n;
    Multiple(d, n);
  }

  lemma Multiple(d: int, n: nat)
    ensures d > 0 ==> d * n >= n
    ensures d < 0 ==> d * n + n <= 0
  {
  }

  lemma {:induction false} BlocksOrder(a: nat, b: nat, n: nat)
    requires n > 0 && a <= b
    ensures a / n <= b / n
    decreases b
  {
    if a < b {
      BlocksOrder(a, b - 1, n);
      NextBlock(b, n);
    }
  }

  /** Reaching one page more. */
  lemma ReachedStep(m0: Mem, m1: Mem, m2: Mem, pt: nat, first: nat, k: nat)
    requires Reached(m0, m1, pt, first, k) && Reached(m1, m2, pt, first + k, 1) && first + k < MAXVPN
    ensures Reached(m0, m2, pt, first, k + 1)
    ensures NewTables(m1, pt, first + k, first + k) == NewTables(m0, pt, first, first + k)
  {
    hide MidOf, LowOf, InBlocks;
    ReachedNew(m0, m1, pt, first, k);
    forall w: nat | w < MAXVPN
      ensures MidOf(m2, pt, w) != 0 <==> MidOf(m0, pt, w) != 0 || InBlocks(first, k + 1, w, 262144)
      ensures LowOf(m2, pt, w) != 0 <==> LowOf(m0, pt, w) != 0 || InBlocks(first, k + 1, w, 512)
    {
      BlocksStep(first, k, w, 262144);
      BlocksStep(first, k, w, 512);
      BlocksStep(first + k, 0, w, 262144);
      BlocksStep(first + k, 0, w, 512);
    }
  }

  lemma ReachedNew(m0: Mem, m1: Mem, pt: nat, first: nat, k: nat)
    requires Reached(m0, m1, pt, first, k) && first + k < MAXVPN
    ensures NewTables(m1, pt, first + k, first + k) == NewTables(m0, pt, first, first + k)
  {
    hide MidOf, LowOf, InBlocks;
    BlocksStep(first, k, first + k, 262144);
    BlocksStep(first, k, first + k, 512);
  }

  lemma ReachedNone(m: Mem, pt: nat, first: nat)
    ensures Reached(m, m, pt, first, 0)
  {
    hide MidOf, LowOf;
  }

  /** The entries that lead from table to table are as before, but for entry i of table p. */
  ghost predicate NextsKept(mem: Mem, use: Roles, mem': Mem, p: nat, i: nat) {
    forall q, j :: LevelOf(use, q) <= 2 && (q != p || j != i) ==> Next(mem', q, j) == Next(mem, q, j)
  }

  /** The first step of walk from the root, when it added the table it leads to. */
  lemma MidReached(mem: Mem, use: Roles, mem': Mem, pt: nat, v: nat)
    requires Trees(mem, use) && LevelOf(use, pt) == 2 && NextsKept(mem, use, mem', pt, Px(2, v))
    requires MidOf(mem, pt, v) == 0 && MidOf(mem', pt, v) != 0
    requires forall j :: Next(mem', MidOf(mem', pt, v), j) == 0
    ensures forall w: nat :: MidOf(mem', pt, w) == if Px(2, w) == Px(2, v) then MidOf(mem', pt, v) else MidOf(mem, pt, w)
    ensures forall w: nat :: LowOf(mem', pt, w) == LowOf(mem, pt, w)
  {
    hide Px, Next, Trees;
    forall w: nat
      ensures LowOf(mem', pt, w) == LowOf(mem, pt, w)
    {
      NextIsTable(mem, use, pt, w);
    }
  }

  lemma NextIsTable(mem: Mem, use: Roles, pt: nat, w: nat)
    requires Trees(mem, use) && LevelOf(use, pt) == 2
    ensures MidOf(mem, pt, w) != 0 ==>
              && MidOf(mem, pt, w) in use && use[MidOf(mem, pt, w)] == Mid(pt, Px(2, w)) && MidOf(mem, pt, w) != pt
  {
    hide Next, Trees;
    PxTwo(w);
    NextLevel(mem, use, pt, Px(2, w));
  }

  lemma PxTwo(v: nat)
    ensures Px(2, v) < NPTE && Px(1, v) < NPTE
  {
  }

  /** The second step of walk, in the level-1 table m. */
  lemma LowReached(mem: Mem, use: Roles, mem': Mem, pt: nat, v: nat)
    requires Trees(mem, use) && LevelOf(use, pt) == 2 && MidOf(mem, pt, v) != 0
    requires NextsKept(mem, use, mem', MidOf(mem, pt, v), Px(1, v)) && Next(mem', MidOf(mem, pt, v), Px(1, v)) != 0
    ensures forall w: nat :: MidOf(mem', pt, w) == MidOf(mem, pt, w)
    ensures forall w: nat :: LowOf(mem', pt, w) != 0 <==>
              LowOf(mem, pt, w) != 0 || (Px(2, w) == Px(2, v) && Px(1, w) == Px(1, v))
  {
    hide Px, Next, Trees;
    NextIsTable(mem, use, pt, v);
    forall w: nat
      ensures MidOf(mem', pt, w) == MidOf(mem, pt, w)
      ensures LowOf(mem', pt, w) != 0 <==> LowOf(mem, pt, w) != 0 || (Px(2, w) == Px(2, v) && Px(1, w) == Px(1, v))
    {
      NextIsTable(mem, use, pt, w);
    }
  }

  /** Pages share a table when their numbers agree above its index. */
  lemma IndexBlocks(v: nat, w: nat)
    requires v < MAXVPN && w < MAXVPN
    ensures Px(2, w) == Px(2, v) <==> w / 262144 == v / 262144
    ensures Px(2, w) == Px(2, v) && Px(1, w) == Px(1, v) <==> w / 512 == v / 512
  {
    assert v / 262144 == v / 512 / 512 && w / 262144 == w / 512 / 512;
    assert v / 262144 < 512 && w / 262144 < 512;
  }

  /** Writing an entry of a level-0 table leaves the tables of a root as they are. */
  lemma LeafStoreKeeps(mem: Mem, use: Roles, l: nat, i: nat, e: nat, pt: nat)
    requires LevelOf(use, l) == 0 && LevelOf(use, pt) == 2 && l in mem
    ensures forall w: nat :: MidOf(SetEnt(mem, l, i, e), pt, w) == MidOf(mem, pt, w)
  {
    hide Pte, WithPte;
  }

  /** A table in which only the last block of tables exists needs, for its first k pages, one table per
      512 pages and one per 512 of those, short of the last ones. */
  function ForkTables(k: nat): int {
    Blocks(k, 512) - (if k > 131071 * 512 then 1 else 0) + Blocks(k, 262144) - (if k > 255 * 262144 then 1 else 0)
  }

  function Blocks(k: nat, n: nat): nat
    requires n > 0
  {
    (k + n - 1) / n
  }

  lemma {:induction false} TopTables(mem: Mem, pt: nat, k: nat)
    requires k <= MAXVPN
    requires forall w: nat :: w < MAXVPN ==>
      (MidOf(mem, pt, w) != 0 <==> w / 262144 == 255) && (LowOf(mem, pt, w) != 0 <==> w / 512 == 131071)
    ensures TablesFor(mem, pt, 0, k) == ForkTables(k)
  {
    hide MidOf, LowOf, Blocks;
    if k > 0 {
      TopTables(mem, pt, k - 1);
      BlockCount(k, 512);
      BlockCount(k, 262144);
      LastBlock(k - 1, 512, 131071);
      LastBlock(k - 1, 262144, 255);
    } else {
      BlockCount(1, 512);
      BlockCount(1, 262144);
    }
  }

  lemma LastBlock(v: nat, n: nat, b: nat)
    requires n > 0 && v < (b + 1) * n
    ensures v / n == b <==> v >= b * n
    ensures v > 0 && v / n == b && (v - 1) / n != v / n ==> v == b * n
    ensures v == b * n ==> v > 0 ==> (v - 1) / n != b
  {
    if v >= b * n { DivIs(v, n, b, v - b * n); }
    if v / n == b { assert v == b * n + v % n; }
    if 0 < v && v - 1 >= b * n { DivIs(v - 1, n, b, v - 1 - b * n); }
    if 0 < v && (v - 1) / n == b { assert v - 1 == b * n + (v - 1) % n; }
  }

  /** k pages touch one block of n pages more than k - 1 when the last one starts a block. */
  lemma BlockCount(k: nat, n: nat)
    requires k > 0 && n > 0
    ensures Blocks(0, n) == 0
    ensures Blocks(k, n) == Blocks(k - 1, n) + if k > 1 && (k - 2) / n == (k - 1) / n then 0 else 1
  {
    AddBlock(k - 1, n);
    DivIs(n - 1, n, 0, n - 1);
    DivIs(0, n, 0, 0);
    if k > 1 { AddBlock(k - 2, n); }
    NextBlock(k - 1, n);
  }

  lemma AddBlock(v: nat, n: nat)
    requires n > 0
    ensures (v + n) / n == v / n + 1
  {
    DivIs(v + n, n, v / n + 1, v % n);
  }
}
