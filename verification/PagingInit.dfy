/**
 Building the kernel's page tables: every page of the kernel areas is mapped to itself, one page after another.
 */
module PagingInit {
  import opened Options
  import opened Bits
  import opened PageEntry
  import opened Paging

  /** The page with number `n` in the directory's order. */
  function PageAt(d: nat, j: nat): nat { d * 1024 + j }

  lemma {:induction false} PageAtUnique(d: nat, j: nat, p: nat)
    requires j < 1024
    ensures PageAt(d, j) == p <==> d == p / 1024 && j == p % 1024
  {
  }

  predicate In(p: nat, first: nat, last: nat) { first <= p < last }

  ghost function Pages(first: nat, last: nat): set<nat> { set p: nat | p < last && In(p, first, last) }

  ghost function KernelSlots(): set<nat> { Pages(0, 256) + Pages(1012, 1024) }

  lemma {:induction false} PagesCount(first: nat, last: nat)
    requires first <= last
    ensures |Pages(first, last)| == last - first
  {
    if first < last {
      PagesCount(first, last - 1);
      assert Pages(first, last) == Pages(first, last - 1) + {last - 1};
    } else {
      assert Pages(first, last) == {};
    }
  }

  lemma {:induction false} SlotsCount()
    ensures |KernelSlots()| == 268 && forall d :: d in KernelSlots() <==> IsKernelSlot(d) && 0 <= d < 1024
  {
    PagesCount(0, 256);
    PagesCount(1012, 1024);
    assert Pages(0, 256) !! Pages(1012, 1024);
  }

  lemma {:induction false} FewerSlots(s: set<nat>, d: nat)
    requires s <= KernelSlots() && d !in s && IsKernelSlot(d) && d < 1024
    ensures |s| < 268
  {
    SlotsCount();
    SubsetCounts(s + {d}, KernelSlots());
  }

  lemma {:induction false} SubsetCounts(s: set<nat>, t: set<nat>)
    requires s <= t
    ensures |s| <= |t|
  {
    if x :| x in s {
      SubsetCounts(s - {x}, t - {x});
    }
  }

  class Boot {
    const mem: array2<Word>
    var free: set<nat>
    /** The directory of the local address space, 0 before the first walk. */
    var ptr: Word
    /** The pages taken for tables. */
    ghost var kernel: set<nat>
    /** The directory entries in use. */
    ghost var slots: set<nat>
    /** The pages mapped so far. */
    ghost var done: set<nat>

    constructor (m: array2<Word>, free: set<nat>)
      ensures mem == m && this.free == free && ptr == 0 && kernel == slots == done == {}
    {
      mem, this.free, ptr, kernel, slots, done := m, free, 0, {}, {}, {};
    }

    ghost predicate Shape()
      reads this
    {
      && mem.Length1 == 1024 && mem.Length0 <= 0x10_0000
      && (forall p :: p in free ==> p < mem.Length0 && p !in kernel)
      && (forall p :: p in kernel ==> p < mem.Length0)
    }

    ghost predicate TableEntry(e: Word, root: nat)
      reads this
    {
      !Has(e, PTE_U) && Has(e, PTE_W) && Page(e) in kernel && Page(e) != root
    }

    /** The directory in page `root` points to different pages. */
    ghost predicate Directory(root: nat)
      requires Shape() && root < mem.Length0
      reads this, mem
    {
      && (forall d :: 0 <= d < 1024 && Has(mem[root, d], PTE_P) ==> TableEntry(mem[root, d], root))
      && (forall d, e :: 0 <= d < e < 1024 && Has(mem[root, d], PTE_P) && Has(mem[root, e], PTE_P) ==>
            Page(mem[root, d]) != Page(mem[root, e]))
    }

    /** Entry `j` of the table at `d` maps its page to itself if that is done already, and is not there otherwise. */
    ghost predicate Cell(root: nat, d: nat, j: nat)
      requires Shape() && root < mem.Length0 && d < 1024 && j < 1024
      reads this, mem
    {
      var e := mem[root, d];
      if PageAt(d, j) in done
      then Has(e, PTE_P) && Page(e) < mem.Length0 && mem[Page(e), j] == Entry(PageAt(d, j), PTE_P + PTE_W)
      else Has(e, PTE_P) && Page(e) < mem.Length0 ==> mem[Page(e), j] == 0
    }

    ghost predicate Cells(root: nat)
      requires Shape() && root < mem.Length0
      reads this, mem
    {
      forall d, j :: 0 <= d < 1024 && 0 <= j < 1024 ==> Cell(root, d, j)
    }

    /** The directory has one table for each entry in use. */
    ghost predicate Counted(root: nat)
      requires Shape() && root < mem.Length0
      reads this, mem
    {
      && |kernel| == |slots| + 1 && slots <= KernelSlots()
      && (forall d :: 0 <= d < 1024 ==> (Has(mem[root, d], PTE_P) <==> d in slots))
    }

    /** The kernel's tables as far as they are built. */
    ghost predicate Built()
      requires Shape()
      reads this, mem
    {
      if !Has(ptr, PTE_P) then kernel == slots == done == {} else
      var root := Page(ptr);
      root in kernel && Directory(root) && Counted(root) && Cells(root)
    }

    /** `pgallocz`. */
    method PgAllocz() returns (p: nat)
      requires Shape() && free != {}
      modifies this`free, this`kernel, mem
      ensures Shape() && p in old(free) && free == old(free) - {p} && kernel == old(kernel) + {p}
      ensures forall j :: 0 <= j < 1024 ==> mem[p, j] == 0
      ensures forall q, j :: 0 <= q < mem.Length0 && q != p && 0 <= j < 1024 ==> mem[q, j] == old(mem[q, j])
    {
      p :| p in free;
      free, kernel := free - {p}, kernel + {p};
      ZeroPage(mem, p);
    }

    /** Level 0 of `ptwalk`. */
    method WalkPointer() returns (ok: bool)
      requires Shape() && Built()
      modifies this`free, this`kernel, this`ptr, mem
      ensures free + kernel == old(free + kernel)
      ensures Shape() && Built() && (ok ==> Has(ptr, PTE_P)) && (!ok ==> old(free) == old(kernel) == {})
    {
      ok := true;
      if !Has(ptr, PTE_P) {
        if free == {} {
          return false;
        }
        var p := PgAllocz();
        HasIs(0);
        EntryParts(p, true, false);
        ptr := Entry(p, PTE_P + PTE_W);
      }
    }

    /** Level 1: the table for directory entry `d`. */
    method WalkDirectory(d: nat) returns (ok: bool)
      requires Shape() && Built() && Has(ptr, PTE_P) && IsKernelSlot(d) && 0 <= d < 1024
      modifies this`free, this`kernel, this`slots, mem
      ensures free + kernel == old(free + kernel)
      ensures Shape() && Built() && (ok ==> Has(mem[Page(ptr), d], PTE_P)) && (!ok ==> |old(free + kernel)| < 269)
    {
      ok := true;
      if !Has(mem[Page(ptr), d], PTE_P) {
        if free == {} {
          assert free + kernel == kernel;
          FewerSlots(slots, d);
          return false;
        }
        NewTable(d);
      }
    }

    method NewTable(d: nat)
      requires Shape() && Built() && Has(ptr, PTE_P) && free != {}
      requires IsKernelSlot(d) && 0 <= d < 1024 && !Has(mem[Page(ptr), d], PTE_P)
      modifies this`free, this`kernel, this`slots, mem
      ensures Shape() && Built() && Has(mem[Page(ptr), d], PTE_P) && free + kernel == old(free + kernel)
    {
      hide Has, Page, Entry, KernelSlots, Cells, IsKernelSlot;
      SlotsCount();
      var p := PgAllocz();
      HasIs(0);
      EntryParts(p, true, false);
      mem[Page(ptr), d] := Entry(p, PTE_P + PTE_W);
      slots := slots + {d};
      CellsKept(d);
    }

    /** A new, empty table at `d` changes no entry. */
    twostate lemma CellsKept(d: nat)
      requires old(Shape()) && Shape() && ptr == old(ptr) && done == old(done) && d < 1024
      requires Page(ptr) in old(kernel) && old(Directory(Page(ptr))) && old(Cells(Page(ptr)))
      requires !old(Has(mem[Page(ptr), d], PTE_P)) && Page(mem[Page(ptr), d]) < mem.Length0
      requires Has(mem[Page(ptr), d], PTE_P) && forall j :: 0 <= j < 1024 ==> mem[Page(mem[Page(ptr), d]), j] == 0
      requires forall q, j :: q in old(kernel) && 0 <= j < 1024 && (q != Page(ptr) || j != d) ==>
                 mem[q, j] == old(mem[q, j])
      ensures Cells(Page(ptr))
    {
      hide Has, Page, Entry;
      forall e, j | 0 <= e < 1024 && 0 <= j < 1024
        ensures Cell(Page(ptr), e, j)
      {
        assert old(Cell(Page(ptr), e, j));
      }
    }

    /** The entry for one page: `*ptwalk(&as, cur, PTE_W) = cur | PTE_P | PTE_W`. */
    method MapPage(cur: Word) returns (ok: bool)
      requires Shape() && Built() && cur % PAGE == 0 && IsKernelSlot(DirIndex(cur))
      modifies this`free, this`kernel, this`slots, this`ptr, this`done, mem
      ensures !ok ==> |old(free + kernel)| < 269
      ensures free + kernel == old(free + kernel)
      ensures Shape() && Built() && done == old(done) + if ok then {Page(cur)} else {}
      ensures ok ==> Has(ptr, PTE_P)
    {
      IndexIs(cur);
      hide Built, Has, IndexOf, BaseOf;
      ok := WalkPointer();
      if ok {
        ok := WalkDirectory(IndexOf(cur, 1));
      }
      if ok {
        BaseIs(ptr);
        BaseIs(mem[BaseOf(ptr) / PAGE, IndexOf(cur, 1)]);
        var table := BaseOf(mem[BaseOf(ptr) / PAGE, IndexOf(cur, 1)]) / PAGE;
        Store(cur, table);
      }
    }

    method Store(cur: Word, table: nat)
      requires Shape() && Built() && Has(ptr, PTE_P) && cur % PAGE == 0
      requires DirIndex(cur) < 1024 && Has(mem[Page(ptr), DirIndex(cur)], PTE_P)
      requires table == Page(mem[Page(ptr), DirIndex(cur)])
      modifies this`done, mem
      ensures Shape() && Built() && done == old(done) + {Page(cur)}
    {
      AddressParts(cur);
      EntryIs(cur / PAGE, PTE_P + PTE_W);
      mem[table, TableIndex(cur)] := Entry(cur / PAGE, PTE_P + PTE_W);
      done := done + {Page(cur)};
      var root := Page(ptr);
      forall d, j | 0 <= d < 1024 && 0 <= j < 1024
        ensures Cell(root, d, j)
      {
        assert old(Cell(root, d, j));
        PageAtUnique(d, j, Page(cur));
      }
    }

    /** The pages of one kernel area; the cursor wraps at the end of the address space. */
    method MapArea(a: VmArea, ghost first: nat, ghost last: nat) returns (ok: bool)
      requires Shape() && Built() && first < last <= 0x10_0000
      requires forall p :: first <= p < last ==> IsKernelSlot(p / 1024)
      requires a.start == PageCursor(first) && a.end == PageCursor(last) && a.start != a.end
      modifies this`free, this`kernel, this`slots, this`ptr, this`done, mem
      ensures !ok ==> |old(free + kernel)| < 269
      ensures free + kernel == old(free + kernel)
      ensures Shape() && Built()
      ensures ok ==> Has(ptr, PTE_P) && done == old(done) + Pages(first, last)
    {
      hide Built, Shape, Has;
      var cur := a.start;
      ghost var i := first;
      ok := true;
      while cur != a.end && ok
        invariant first <= i <= last && cur == PageCursor(i) && (i == 0 ==> cur != a.end)
        invariant free + kernel == old(free + kernel) && (!ok ==> |old(free + kernel)| < 269)
        invariant Shape() && Built() && (ok ==> done == old(done) + Pages(first, i))
        invariant ok && i > first ==> Has(ptr, PTE_P)
        decreases last - i, ok
      {
        CursorAtPage(i);
        ok := MapPage(cur);
        if ok {
          var next: nat := cur + 4096;
          cur := next % 0x1_0000_0000;
          i := i + 1;
        }
      }
    }

    /** The loop of `vme_init` over the areas. */
    method MapAreas() returns (ok: bool)
      requires Shape() && Built() && done == {}
      modifies this`free, this`kernel, this`slots, this`ptr, this`done, mem
      ensures Shape() && Built() && free + kernel == old(free + kernel)
      ensures if ok then Has(ptr, PTE_P) && done == KernelPages() else |old(free + kernel)| < 269
    {
      hide Shape, Built, Has, Pages;
      ok := true;
      var k := 0;
      while k < 3 && ok
        invariant 0 <= k <= 3 && Shape() && Built() && free + kernel == old(free + kernel)
        invariant ok && k < 2 ==> done == {}
        invariant ok && k >= 2 ==> Has(ptr, PTE_P) && done == if k == 2 then Pages(0, 0x4_0000) else KernelPages()
        invariant !ok ==> |old(free + kernel)| < 269
      {
        if AREAS[k].isKernel {
          ok := MapArea(AREAS[k], if k == 1 then 0 else 0xf_d000, if k == 1 then 0x4_0000 else 0x10_0000);
        }
        k := k + 1;
      }
    }
  }

  /** The pages of the kernel areas. */
  ghost function KernelPages(): set<nat> { Pages(0, 0x4_0000) + Pages(0xf_d000, 0x10_0000) }

  /** The address of page `i`; 0 after the last. */
  function PageCursor(i: nat): Word
    requires i <= 0x10_0000
  {
    if i < 0x10_0000 then i * PAGE else 0
  }

  lemma {:induction false} CursorAtPage(i: nat)
    requires i < 0x10_0000
    ensures PageCursor(i) % PAGE == 0 && Page(PageCursor(i)) == i && DirIndex(PageCursor(i)) == i / 1024
    ensures (PageCursor(i) + PAGE) % 0x1_0000_0000 == PageCursor(i + 1)
  {
    DivModUnique(PageCursor(i), PAGE, i, 0);
  }

  predicate InKernelArea(x: Word) { x < 0x4000_0000 || 0xfd00_0000 <= x }

  lemma {:induction false} PageOf(x: Word)
    ensures DirIndex(x) < 1024 && TableIndex(x) < 1024 && PageAt(DirIndex(x), TableIndex(x)) == Page(x)
    ensures Page(x) < 0x10_0000 && (Page(x) in KernelPages() <==> InKernelArea(x)) && Page(x) * PAGE + x % PAGE == x
  {
    AddressParts(x);
    assert In(Page(x), 0, 0x4_0000) <==> Page(x) < 0x4_0000;
    assert In(Page(x), 0xf_d000, 0x10_0000) <==> 0xf_d000 <= Page(x);
  }

  lemma {:induction false} IdentityAt(b: Boot, mmu: Mmu, x: Word)
    requires b.Shape() && b.Built() && Has(b.ptr, PTE_P) && b.done == KernelPages()
    requires mmu.mem == b.mem && mmu.kpt == Page(b.ptr)
    ensures mmu.Translate(mmu.kpt, x) == if InKernelArea(x) then Some(Target(x, true, false)) else None
  {
    PageOf(x);
    HasIs(0);
    EntryParts(Page(x), true, false);
    hide Has, Page, Entry, DirIndex, TableIndex, PageAt, KernelPages, InKernelArea;
    assert b.Cell(mmu.kpt, DirIndex(x), TableIndex(x));
  }

  /** The finished tables mean the identity on the kernel areas, writable and not for user mode, and nothing else. */
  lemma {:induction false} IdentityBuilt(b: Boot, mmu: Mmu)
    requires b.Shape() && b.Built() && Has(b.ptr, PTE_P) && b.done == KernelPages()
    requires mmu.mem == b.mem && mmu.kpt == Page(b.ptr) && mmu.kernel == b.kernel && mmu.free == b.free && mmu.all == {}
    ensures mmu.System()
    ensures forall x: Word ::
              mmu.Translate(mmu.kpt, x) == if InKernelArea(x) then Some(Target(x, true, false)) else None
  {
    forall x: Word
      ensures mmu.Translate(mmu.kpt, x) == if InKernelArea(x) then Some(Target(x, true, false)) else None
    {
      IdentityAt(b, mmu, x);
    }
  }

  lemma {:induction false} AllSlots(b: Boot)
    requires b.Shape() && b.Built() && Has(b.ptr, PTE_P) && b.done == KernelPages()
    requires b.free !! b.kernel
    ensures |b.free + b.kernel| >= 269
  {
    SlotsCount();
    forall d | d in KernelSlots()
      ensures d in b.slots
    {
      assert b.Cell(Page(b.ptr), d, 0);
    }
    SubsetCounts(KernelSlots(), b.slots);
  }

  /** `vme_init`, for two levels; None where a page cannot be allocated. */
  method VmeInit(m: array2<Word>, free: set<nat>) returns (r: Option<Mmu>)
    requires m.Length1 == 1024 && m.Length0 <= 0x10_0000 && forall p :: p in free ==> p < m.Length0
    modifies m
    ensures r.Some? <==> |free| >= 269
    ensures r.Some? ==>
              var mmu := r.value;
              && fresh(mmu) && mmu.mem == m && mmu.System() && mmu.all == {} && mmu.freed == []
              && mmu.free + mmu.kernel == free && mmu.free !! mmu.kernel
              && forall x: Word ::
                   mmu.Translate(mmu.kpt, x) == if InKernelArea(x) then Some(Target(x, true, false)) else None
  {
    var b := new Boot(m, free);
    HasIs(0);
    var ok := b.MapAreas();
    if !ok {
      return None;
    }
    AllSlots(b);
    BaseIs(b.ptr);
    var mmu := new Mmu(m, BaseOf(b.ptr) / PAGE, b.kernel, b.free);
    IdentityBuilt(b, mmu);
    return Some(mmu);
  }
}
