/**
 Two-level page tables of user address spaces over a memory of pages: walking, mapping, copying the kernel part
 and freeing.
 */
module Paging {
  import opened Sequences
  import opened Options
  import opened Bits
  import opened PageEntry

  /** Where an address leads, and whether it may be written and used in user mode. */
  datatype Target = Target(pa: nat, write: bool, user: bool)

  const MMAP_NONE: nat := 0
  const MMAP_WRITE: nat := 2
  const USER_START: nat := 0x4000_0000
  const USER_END: nat := 0x8000_0000

  /** The entries of a directory that belong to the user area. */
  predicate IsUserSlot(i: int) { 256 <= i < 512 }

  /** The entries of a directory that the kernel areas use: below the user area, and memory-mapped I/O. */
  predicate IsKernelSlot(i: int) { 0 <= i < 256 || 1012 <= i < 1024 }

  datatype VmArea = VmArea(start: Word, end: Word, isKernel: bool)

  /** The areas of the 32-bit configuration; an end of 0 is the end of the address space. */
  const AREAS: seq<VmArea> := [
    VmArea(USER_START, USER_END, false), VmArea(0, 0x4000_0000, true), VmArea(0xfd00_0000, 0, true)]

  class AddrSpace {
    /** The directory's address with its flags (`as->ptr`). */
    var ptr: Word
    /** The table pages allocated for this space. */
    ghost var pages: set<nat>

    constructor ()
      ensures ptr == 0 && pages == {}
    {
      ptr, pages := 0, {};
    }
  }

  /** What a client does with an address space: get a page, map one of those, map memory it had before (or a
      device's), unmap a page, or run and store a word. */
  datatype Step =
    | Take
    | MapOwn(va: Word, i: nat, prot: Word)
    | MapOld(va: Word, pa: Word, prot: Word)
    | Unmap(va: Word)
    | Run(x: Word, w: Word)

  method ZeroPage(mem: array2<Word>, p: nat)
    requires p < mem.Length0 && mem.Length1 == 1024
    modifies mem
    ensures forall j :: 0 <= j < 1024 ==> mem[p, j] == 0
    ensures forall q, j :: 0 <= q < mem.Length0 && q != p && 0 <= j < 1024 ==> mem[q, j] == old(mem[q, j])
  {
    var i := 0;
    while i < 1024
      invariant 0 <= i <= 1024
      invariant forall j :: 0 <= j < i ==> mem[p, j] == 0
      invariant forall q, j :: 0 <= q < mem.Length0 && q != p && 0 <= j < 1024 ==> mem[q, j] == old(mem[q, j])
    {
      mem[p, i] := 0;
      i := i + 1;
    }
  }

  /** Physical memory as pages of 1024 words, and the allocator's view of it. */
  class Mmu {
    const mem: array2<Word>
    /** The pages `pgalloc` may give out. */
    var free: set<nat>
    /** The pages passed to `pgfree`, in order. */
    var freed: seq<nat>
    const kpt: nat
    /** The pages of the kernel's tables. */
    ghost const kernel: set<nat>
    /** The address spaces in use. */
    ghost var all: set<AddrSpace>

    constructor (m: array2<Word>, kpt: nat, ghost kernel: set<nat>, free: set<nat>)
      ensures mem == m && this.kpt == kpt && this.kernel == kernel && this.free == free && freed == [] && all == {}
    {
      mem, this.kpt, this.kernel, this.free, freed, all := m, kpt, kernel, free, [], {};
    }

    ghost predicate Shape()
      reads this
    {
      && mem.Length1 == 1024 && mem.Length0 <= 0x10_0000
      && kpt in kernel
      && (forall p :: p in kernel ==> p < mem.Length0)
      && (forall p :: p in free ==> p < mem.Length0 && p !in kernel)
    }

    /** The kernel's directory points to the kernel's tables, not for user mode. */
    ghost predicate KernelOk()
      requires Shape()
      reads this, mem
    {
      forall i :: IsKernelSlot(i) && Has(mem[kpt, i], PTE_P) ==> KernelEntry(mem[kpt, i])
    }

    ghost predicate KernelEntry(e: Word)
    {
      !Has(e, PTE_U) && Page(e) in kernel
    }

    /** What the processor finds for an address under the directory in page `root`. */
    function Translate(root: nat, va: Word): Option<Target>
      requires mem.Length1 == 1024
      reads mem
    {
      AddressParts(va);
      if root >= mem.Length0 then None else
      var pde := mem[root, DirIndex(va)];
      if !Has(pde, PTE_P) || Page(pde) >= mem.Length0 then None else
      var pte := mem[Page(pde), TableIndex(va)];
      if !Has(pte, PTE_P) then None else
      Some(Target(Page(pte) * PAGE + va % PAGE, Has(pde, PTE_W) && Has(pte, PTE_W), Has(pde, PTE_U) && Has(pte, PTE_U)))
    }

    /** The directory in page `root`: user entries point to different pages of the space, and to all of them but the
        directory; the other entries are the kernel's. */
    ghost predicate DirectoryOk(root: nat, pages: set<nat>)
      requires Shape() && root < mem.Length0
      reads this, mem
    {
      && (forall i :: 0 <= i < 1024 && !IsUserSlot(i) && Has(mem[root, i], PTE_P) ==> KernelEntry(mem[root, i]))
      && (forall i :: IsUserSlot(i) && Has(mem[root, i], PTE_P) ==> TableEntry(mem[root, i], root, pages))
      && (forall i, j ::
            IsUserSlot(i) && IsUserSlot(j) && i < j && Has(mem[root, i], PTE_P) && Has(mem[root, j], PTE_P) ==>
              Page(mem[root, i]) != Page(mem[root, j]))
      && (forall p :: p in pages && p != root ==> exists i :: IsUserSlot(i) && PointsTo(mem[root, i], p))
    }

    predicate PointsTo(e: Word, p: nat) { Has(e, PTE_P) && Page(e) == p }

    ghost predicate TableEntry(e: Word, root: nat, pages: set<nat>)
    {
      Has(e, PTE_U) && Has(e, PTE_W) && Page(e) in pages && Page(e) != root
    }

    /** What the tables map is for user mode. */
    ghost predicate TablesOk(root: nat, pages: set<nat>)
      requires Shape() && forall p :: p in pages ==> p < mem.Length0
      reads this, mem
    {
      forall p, j :: p in pages && p != root && 0 <= j < 1024 && Has(mem[p, j], PTE_P) ==> Has(mem[p, j], PTE_U)
    }

    /** A user address space. */
    ghost predicate Space(s: AddrSpace)
      requires Shape()
      reads this, mem, s
    {
      && Has(s.ptr, PTE_P) && Has(s.ptr, PTE_U) && Page(s.ptr) in s.pages
      && (forall p :: p in s.pages ==> p < mem.Length0 && p !in free && p !in kernel)
      && DirectoryOk(Page(s.ptr), s.pages) && TablesOk(Page(s.ptr), s.pages)
    }

    // ---- Pages ----

    /** `pgallocz`. */
    method PgAllocz() returns (p: nat)
      requires Shape() && free != {}
      modifies this`free, mem
      ensures Shape() && p in old(free) && free == old(free) - {p}
      ensures forall j :: 0 <= j < 1024 ==> mem[p, j] == 0
      ensures forall q, j :: 0 <= q < mem.Length0 && q != p && 0 <= j < 1024 ==> mem[q, j] == old(mem[q, j])
    {
      p :| p in free;
      free := free - {p};
      ZeroPage(mem, p);
    }

    method PgFree(p: nat)
      modifies this`free, this`freed
      ensures freed == old(freed) + [p] && free == old(free) + {p}
    {
      freed := freed + [p];
      free := free + {p};
    }

    // ---- Walking ----

    /** Level 1 of `ptwalk`: the table for directory entry `d`, allocated if there is none. */
    method WalkDirectory(s: AddrSpace, root: nat, d: nat) returns (table: nat)
      requires Shape() && Space(s) && root == Page(s.ptr) && IsUserSlot(d)
      requires Has(mem[root, d], PTE_P) || free != {}
      modifies this`free, mem, s`pages
      ensures Shape() && Space(s) && s.pages == old(s.pages) + (old(free) - free) && free <= old(free)
      ensures PointsTo(mem[root, d], table)
      ensures old(Has(mem[root, d], PTE_P)) ==> free == old(free)
      ensures !old(Has(mem[root, d], PTE_P)) ==> table in old(free) && forall j :: 0 <= j < 1024 ==> mem[table, j] == 0
      ensures forall p, j :: 0 <= p < mem.Length0 && 0 <= j < 1024 && p !in old(free) && (p != root || j != d) ==>
                mem[p, j] == old(mem[p, j])
      ensures old(Has(mem[root, d], PTE_P)) ==> mem[root, d] == old(mem[root, d])
    {
      if !Has(mem[root, d], PTE_P) {
        table := NewTable(s, root, d);
      } else {
        BaseIs(mem[root, d]);
        table := BaseOf(mem[root, d]) / PAGE;
      }
    }

    method NewTable(s: AddrSpace, root: nat, d: nat) returns (table: nat)
      requires Shape() && Space(s) && root == Page(s.ptr) && IsUserSlot(d)
      requires !Has(mem[root, d], PTE_P) && free != {}
      modifies this`free, mem, s`pages
      ensures Shape() && Space(s) && s.pages == old(s.pages) + {table} && free == old(free) - {table}
      ensures table in old(free)
      ensures PointsTo(mem[root, d], table)
      ensures forall j :: 0 <= j < 1024 ==> mem[table, j] == 0
      ensures forall p, j :: 0 <= p < mem.Length0 && 0 <= j < 1024 && p !in old(free) && (p != root || j != d) ==>
                mem[p, j] == old(mem[p, j])
    {
      hide Has, Page, Entry;
      table := PgAllocz();
      EntryParts(table, true, true);
      HasIs(0);
      mem[root, d] := Entry(table, PTE_P + PTE_W + PTE_U);
      s.pages := s.pages + {table};
    }

    /** Nothing changes but `s`, its pages and free pages. */
    twostate predicate OthersKept(s: AddrSpace)
      requires old(Shape()) && Shape()
      reads this, mem, s
    {
      forall p, j :: 0 <= p < mem.Length0 && 0 <= j < 1024 && p !in old(s.pages) && p !in old(free) ==>
        mem[p, j] == old(mem[p, j])
    }

    lemma {:induction false} EntryPages(s: AddrSpace, va: Word)
      requires Shape() && Space(s)
      ensures DirIndex(va) < 1024 && TableIndex(va) < 1024
      ensures var pde := mem[Page(s.ptr), DirIndex(va)];
              Has(pde, PTE_P) ==> Page(pde) in s.pages + kernel && Page(pde) < mem.Length0 && Page(pde) != Page(s.ptr)
    {
      AddressParts(va);
    }

    /** Allocating a table maps nothing and unmaps nothing. */
    method PtWalk(s: AddrSpace, va: Word) returns (table: nat, index: nat)
      requires Shape() && Space(s) && USER_START <= va < USER_END
      requires Has(mem[Page(s.ptr), DirIndex(va)], PTE_P) || free != {}
      modifies this`free, mem, s`pages
      ensures Shape() && Space(s) && s.pages == old(s.pages) + (old(free) - free) && free <= old(free)
      ensures PointsTo(mem[Page(s.ptr), DirIndex(va)], table) && index == TableIndex(va)
      ensures OthersKept(s)
      ensures forall x: Word :: Translate(Page(s.ptr), x) == old(Translate(Page(s.ptr), x))
    {
      IndexIs(s.ptr);
      IndexIs(va);
      BaseIs(s.ptr);
      AddressParts(va);
      var root := BaseOf(s.ptr) / PAGE;
      table := WalkDirectory(s, root, IndexOf(va, 1));
      index := IndexOf(va, 2);
    }

    // ---- Mapping ----

    lemma {:induction false} SamePage(va: Word, x: Word)
      ensures Page(va) == Page(x) <==> DirIndex(va) == DirIndex(x) && TableIndex(va) == TableIndex(x)
    {
      AddressParts(va);
      AddressParts(x);
      assert Page(va) == DirIndex(va) * 1024 + TableIndex(va);
      assert Page(x) == DirIndex(x) * 1024 + TableIndex(x);
    }

    /** What the entry `pte` means for an address of its page. */
    function TargetOf(pte: Word, x: Word): Option<Target> {
      if Has(pte, PTE_P) then Some(Target(Page(pte) * PAGE + x % PAGE, Has(pte, PTE_W), true)) else None
    }

    /** Writing the entry of `va` changes the translation of the addresses of its page, and no other. */
    method SetEntry(s: AddrSpace, va: Word, table: nat, pte: Word)
      requires Shape() && Space(s) && USER_START <= va < USER_END
      requires PointsTo(mem[Page(s.ptr), DirIndex(va)], table) && (Has(pte, PTE_P) ==> Has(pte, PTE_U))
      modifies mem
      ensures Shape() && Space(s) && OthersKept(s)
      ensures mem[Page(s.ptr), DirIndex(va)] == old(mem[Page(s.ptr), DirIndex(va)])
      ensures forall x: Word :: Page(x) == Page(va) ==> Translate(Page(s.ptr), x) == TargetOf(pte, x)
      ensures forall x: Word :: Page(x) != Page(va) ==> Translate(Page(s.ptr), x) == old(Translate(Page(s.ptr), x))
    {
      AllDiffer(s, va);
      EntryPages(s, va);
      WriteWord(s, va, table, pte);
    }

    /** The tables that `va` and `x` use are the same one or apart, and neither is the directory. */
    ghost predicate Differ(s: AddrSpace, va: Word, x: Word)
      requires Shape() && Page(s.ptr) < mem.Length0 && DirIndex(va) < 1024 && DirIndex(x) < 1024
      reads this, mem, s
    {
      var (d, e) := (mem[Page(s.ptr), DirIndex(va)], mem[Page(s.ptr), DirIndex(x)]);
      && Has(d, PTE_P) && Page(d) != Page(s.ptr) && Page(d) < mem.Length0 && Has(d, PTE_U) && Has(d, PTE_W)
      && (Has(e, PTE_P) && DirIndex(x) != DirIndex(va) ==> Page(e) != Page(d))
      && (Has(e, PTE_P) ==> Page(e) != Page(s.ptr))
    }

    lemma {:induction false} AllDiffer(s: AddrSpace, va: Word)
      requires Shape() && Space(s) && USER_START <= va < USER_END && Has(mem[Page(s.ptr), DirIndex(va)], PTE_P)
      ensures forall x: Word :: DirIndex(x) < 1024 && Differ(s, va, x)
    {
      AddressParts(va);
      forall x: Word
        ensures DirIndex(x) < 1024 && Differ(s, va, x)
      {
        AddressParts(x);
      }
    }

    method WriteWord(s: AddrSpace, va: Word, table: nat, pte: Word)
      requires Shape() && Page(s.ptr) < mem.Length0 && DirIndex(va) < 1024 && TableIndex(va) < 1024
      requires PointsTo(mem[Page(s.ptr), DirIndex(va)], table) && table < mem.Length0
      requires Has(pte, PTE_P) ==> Has(pte, PTE_U)
      requires forall x: Word :: DirIndex(x) < 1024 && Differ(s, va, x)
      modifies mem
      ensures mem[table, TableIndex(va)] == pte
      ensures forall p, j :: 0 <= p < mem.Length0 && 0 <= j < 1024 && (p != table || j != TableIndex(va)) ==>
                mem[p, j] == old(mem[p, j])
      ensures forall x: Word :: Page(x) == Page(va) ==> Translate(Page(s.ptr), x) == TargetOf(pte, x)
      ensures forall x: Word :: Page(x) != Page(va) ==> Translate(Page(s.ptr), x) == old(Translate(Page(s.ptr), x))
    {
      mem[table, TableIndex(va)] := pte;
      forall x: Word
        ensures Page(x) == Page(va) ==> Translate(Page(s.ptr), x) == TargetOf(pte, x)
        ensures Page(x) != Page(va) ==> Translate(Page(s.ptr), x) == old(Translate(Page(s.ptr), x))
      {
        AddressParts(x);
        SamePage(va, x);
        assert old(Differ(s, va, x));
      }
    }

    /** The entry of `va`, through its table. */
    function Mapped(s: AddrSpace, va: Word): bool
      requires mem.Length1 == 1024
      reads this, mem, s
    {
      Translate(Page(s.ptr), va).Some?
    }

    predicate Aligned(a: Word) { a % PAGE == 0 }

    /** `map`. It panics unless the address is a page of the user area and not mapped already, or mapped when it is to
        be unmapped, and a table can be had; otherwise the page then leads to `pa` with the requested write permission,
        or nowhere, and no other address of this space changes its meaning. */
    method Map(s: AddrSpace, va: Word, pa: Word, prot: Word) returns (ok: bool)
      requires Shape() && Space(s)
      modifies this`free, mem, s`pages
      ensures Shape() && Space(s) && OthersKept(s)
      ensures s.pages == old(s.pages) + (old(free) - free) && free <= old(free)
      ensures ok <==>
                && USER_START <= va < USER_END && Aligned(va) && Aligned(pa)
                && (old(Has(mem[Page(s.ptr), DirIndex(va)], PTE_P)) || old(free) != {})
                && (old(Mapped(s, va)) <==> prot == MMAP_NONE)
      ensures ok ==> forall x: Word :: Page(x) == Page(va) ==>
                Translate(Page(s.ptr), x) ==
                if prot == MMAP_NONE then None else Some(Target(pa + x % PAGE, prot / 2 % 2 == 1, true))
      ensures forall x: Word :: Page(x) != Page(va) || !ok ==>
                Translate(Page(s.ptr), x) == old(Translate(Page(s.ptr), x))
    {
      ok := false;
      AlignedIs(va);
      AlignedIs(pa);
      if !(USER_START <= va < USER_END) || BaseOf(va) != va || BaseOf(pa) != pa {
        return;
      }
      EntryPages(s, va);
      if !Has(mem[Page(s.ptr), DirIndex(va)], PTE_P) && free == {} {
        return;
      }
      hide BaseOf, Has, Page, DirIndex, TableIndex, DirectoryOk, TablesOk, TargetOf, Entry;
      var table, index := PtWalk(s, va);
      EntryPages(s, va);
      TableHolds(s, va, table);
      if prot == MMAP_NONE {
        if !Has(mem[table, index], PTE_P) {
          return;
        }
        HasIs(0);
        SetEntry(s, va, table, 0);
        ok := true;
      } else {
        if Has(mem[table, index], PTE_P) {
          return;
        }
        var pte := NewEntry(pa, prot);
        SetEntry(s, va, table, pte);
        ok := true;
      }
    }

    lemma {:induction false} AlignedIs(a: Word)
      ensures BaseOf(a) == a <==> Aligned(a)
    {
      BaseIs(a);
    }

    /** A mapped address is one whose entry in its table is present. */
    lemma {:induction false} TableHolds(s: AddrSpace, va: Word, table: nat)
      requires Shape() && Space(s) && PointsTo(mem[Page(s.ptr), DirIndex(va)], table)
      ensures table < mem.Length0 && (Has(mem[table, TableIndex(va)], PTE_P) <==> Mapped(s, va))
    {
      EntryPages(s, va);
    }

    /** The entry for a page with the requested permission. */
    method NewEntry(pa: Word, prot: Word) returns (pte: Word)
      requires Aligned(pa)
      ensures Has(pte, PTE_P) && Has(pte, PTE_U)
      ensures forall x: Word :: TargetOf(pte, x) == Some(Target(pa + x % PAGE, prot / 2 % 2 == 1, true))
    {
      var write := BitAnd(prot, MMAP_WRITE) != 0;
      HasIs(prot);
      EntryParts(pa / PAGE, write, true);
      pte := Entry(pa / PAGE, PTE_P + (if write then PTE_W else 0) + PTE_U);
    }

    // ---- Other address spaces ----

    /** No word outside `touched` has changed. */
    twostate predicate OnlyTouched(touched: set<nat>)
      requires mem.Length1 == 1024
      reads mem
    {
      forall p, j :: 0 <= p < mem.Length0 && 0 <= j < 1024 && p !in touched ==> mem[p, j] == old(mem[p, j])
    }

    /** The words of the tables that `t` uses have not changed. */
    twostate predicate TablesKept(t: AddrSpace)
      requires mem.Length1 == 1024
      reads this, mem, t
    {
      && t.ptr == old(t.ptr) && t.pages == old(t.pages)
      && forall p, j :: 0 <= p < mem.Length0 && 0 <= j < 1024 && (p in t.pages || p in kernel) ==>
           mem[p, j] == old(mem[p, j])
    }

    twostate lemma SpaceKept(t: AddrSpace)
      requires old(Shape()) && Shape() && free <= old(free) && old(Space(t)) && TablesKept(t)
      ensures Space(t)
    {
    }

    twostate lemma TranslationKept(t: AddrSpace)
      requires old(Shape()) && Shape() && old(Space(t)) && TablesKept(t)
      ensures SameTranslation(t)
    {
      forall x: Word
        ensures Translate(Page(t.ptr), x) == old(Translate(Page(t.ptr), x))
      {
        AddressParts(x);
      }
    }

    /** Every address of `t` means what it meant. */
    twostate predicate SameTranslation(t: AddrSpace)
      requires mem.Length1 == 1024
      reads mem, t
    {
      forall x: Word :: Translate(Page(t.ptr), x) == old(Translate(Page(t.ptr), x))
    }

    // ---- Teardown ----

    /** The pages that `teardown` frees at this level and below, in order. */
    ghost function Torn(level: nat, pt: nat): seq<nat>
      requires mem.Length1 == 1024
      reads mem
      decreases 3 - level, 1025
    {
      if level > 2 || pt >= mem.Length0 then [] else TornUpTo(level, pt, 1024) + [pt]
    }

    /** The same for what the first `n` entries point to. */
    ghost function TornUpTo(level: nat, pt: nat, n: nat): seq<nat>
      requires mem.Length1 == 1024 && level <= 2 && pt < mem.Length0 && n <= 1024
      reads mem
      decreases 3 - level, n
    {
      if n == 0 then [] else
      var e := mem[pt, n - 1];
      TornUpTo(level, pt, n - 1) + if Has(e, PTE_P) && Has(e, PTE_U) then Torn(level + 1, Page(e)) else []
    }

    /** `teardown` at a level below the pointer to the directory. */
    method Teardown(level: nat, pt: nat)
      requires mem.Length1 == 1024 && level >= 1 && (level <= 2 ==> pt < mem.Length0)
      requires level == 1 ==> forall i :: 0 <= i < 1024 && Has(mem[pt, i], PTE_P) && Has(mem[pt, i], PTE_U) ==>
                 Page(mem[pt, i]) < mem.Length0
      modifies this`free, this`freed
      ensures freed == old(freed) + Torn(level, pt)
      ensures free == old(free) + (set p | p in Torn(level, pt))
      decreases 3 - level
    {
      if level > 2 {
        return;
      }
      var index := 0;
      while index < 1024
        invariant 0 <= index <= 1024
        invariant freed == old(freed) + TornUpTo(level, pt, index)
        invariant free == old(free) + (set p | p in TornUpTo(level, pt, index))
      {
        if Has(mem[pt, index], PTE_P) && Has(mem[pt, index], PTE_U) {
          BaseIs(mem[pt, index]);
          Teardown(level + 1, BaseOf(mem[pt, index]) / PAGE);
        }
        index := index + 1;
      }
      PgFree(pt);
    }

    lemma {:induction false} NothingBelow(pt: nat, n: nat)
      requires mem.Length1 == 1024 && pt < mem.Length0 && n <= 1024
      ensures TornUpTo(2, pt, n) == []
    {
      if n > 0 {
        NothingBelow(pt, n - 1);
      }
    }

    lemma {:induction false} TableTorn(pt: nat)
      requires mem.Length1 == 1024 && pt < mem.Length0
      ensures Torn(2, pt) == [pt]
    {
      NothingBelow(pt, 1024);
    }

    /** Page `p` is a table that one of the first `n` entries of the directory points to. */
    ghost predicate InSlots(root: nat, n: nat, p: nat)
      requires mem.Length1 == 1024 && root < mem.Length0 && n <= 1024
      reads mem
    {
      exists i :: 0 <= i < n && IsUserSlot(i) && PointsTo(mem[root, i], p)
    }

    lemma {:induction false} SlotStep(s: AddrSpace, n: nat)
      requires Shape() && Space(s) && n < 1024
      ensures var (root, e) := (Page(s.ptr), mem[Page(s.ptr), n]);
              if Has(e, PTE_P) && Has(e, PTE_U) then
                && TornUpTo(1, root, n + 1) == TornUpTo(1, root, n) + [Page(e)]
                && !InSlots(root, n, Page(e))
                && (forall p :: InSlots(root, n + 1, p) <==> InSlots(root, n, p) || p == Page(e))
              else
                && TornUpTo(1, root, n + 1) == TornUpTo(1, root, n)
                && (forall p :: InSlots(root, n + 1, p) <==> InSlots(root, n, p))
    {
      var e := mem[Page(s.ptr), n];
      if Has(e, PTE_P) && Has(e, PTE_U) {
        TableTorn(Page(e));
        assert PointsTo(e, Page(e));
      }
    }

    lemma {:induction false} TornTables(s: AddrSpace, n: nat)
      requires Shape() && Space(s) && n <= 1024
      ensures NoRepeats(TornUpTo(1, Page(s.ptr), n))
      ensures forall p :: p in TornUpTo(1, Page(s.ptr), n) <==> InSlots(Page(s.ptr), n, p)
    {
      if n > 0 {
        TornTables(s, n - 1);
        SlotStep(s, n - 1);
        hide Space, InSlots, TornUpTo;
      }
    }

    /** `teardown` at the directory frees the pages of the space, each once. */
    lemma {:induction false} TornSpace(s: AddrSpace)
      requires Shape() && Space(s)
      ensures NoRepeats(Torn(1, Page(s.ptr))) && (set p | p in Torn(1, Page(s.ptr))) == s.pages
    {
      var root := Page(s.ptr);
      TornTables(s, 1024);
      assert !InSlots(root, 1024, root);
      forall p
        ensures p in Torn(1, root) <==> p in s.pages
      {
        assert p in s.pages && p != root ==> InSlots(root, 1024, p);
      }
    }

    /** `unprotect` frees exactly the pages of the space, each once. */
    method Unprotect(s: AddrSpace)
      requires Shape() && Space(s)
      modifies this`free, this`freed
      ensures exists t :: freed == old(freed) + t && NoRepeats(t) && (set p | p in t) == s.pages
      ensures free == old(free) + s.pages
    {
      IndexIs(s.ptr);
      BaseIs(s.ptr);
      TornSpace(s);
      if Has(s.ptr, PTE_P) && Has(s.ptr, PTE_U) {
        Teardown(1, BaseOf(s.ptr) / PAGE);
      }
    }

    // ---- Copying the kernel's part ----

    /** The address where directory entry `i` starts; 0 after the last. */
    function CursorAt(i: nat): Word
      requires i <= 1024
    {
      if i < 1024 then i * 0x40_0000 else 0
    }

    lemma {:induction false} CursorMoves(i: nat)
      requires i < 1024
      ensures (CursorAt(i) + 0x40_0000) % 0x1_0000_0000 == CursorAt(i + 1)
      ensures IndexOf(CursorAt(i), 1) == i
    {
      IndexIs(CursorAt(i));
      DivModUnique(CursorAt(i), 0x40_0000, i, 0);
    }

    /** The entries of the directory that `first` to `last` cover are copied. */
    twostate predicate Copied(upt: nat, first: nat, last: nat)
      requires Shape() && upt < mem.Length0
      reads this, mem
    {
      && (forall i :: 0 <= i < 1024 ==> mem[upt, i] == if first <= i < last then mem[kpt, i] else old(mem[upt, i]))
      && (forall p, j :: 0 <= p < mem.Length0 && p != upt && 0 <= j < 1024 ==> mem[p, j] == old(mem[p, j]))
    }

    /** The directory entries of one kernel area (inner loop of `protect`); the cursor wraps at the end of the address
        space. */
    method CopyArea(upt: nat, a: VmArea, ghost first: nat, ghost last: nat)
      requires Shape() && upt < mem.Length0 && upt != kpt
      requires first < last <= 1024 && a.start == CursorAt(first) && a.end == CursorAt(last) && a.start != a.end
      modifies mem
      ensures Copied(upt, first, last)
    {
      var cur := a.start;
      ghost var i := first;
      while cur != a.end
        invariant first <= i <= last && cur == CursorAt(i) && (i == 0 ==> cur != a.end)
        invariant Copied(upt, first, i)
        decreases last - i
      {
        CursorMoves(i);
        hide IndexOf;
        var index := IndexOf(cur, 1);
        mem[upt, index] := mem[kpt, index];
        var next: nat := cur + 0x40_0000;
        cur := next % 0x1_0000_0000;
        i := i + 1;
      }
    }

    /** The loop of `protect` over the areas. */
    method FillDirectory(upt: nat)
      requires Shape() && upt < mem.Length0 && upt != kpt && forall i :: 0 <= i < 1024 ==> mem[upt, i] == 0
      modifies mem
      ensures forall i :: 0 <= i < 1024 ==> mem[upt, i] == if IsKernelSlot(i) then mem[kpt, i] else 0
      ensures forall p, j :: 0 <= p < mem.Length0 && p != upt && 0 <= j < 1024 ==> mem[p, j] == old(mem[p, j])
    {
      var k := 0;
      while k < 3
        invariant 0 <= k <= 3
        invariant forall i :: 0 <= i < 1024 ==>
                    mem[upt, i] == if (k >= 2 && i < 256) || (k >= 3 && i >= 1012) then mem[kpt, i] else 0
        invariant forall p, j :: 0 <= p < mem.Length0 && p != upt && 0 <= j < 1024 ==> mem[p, j] == old(mem[p, j])
      {
        if AREAS[k].isKernel {
          CopyArea(upt, AREAS[k], if k == 1 then 0 else 1012, if k == 1 then 256 else 1024);
        }
        k := k + 1;
      }
    }

    /** `protect`: a directory of its own with the kernel's entries; without a free page it panics. */
    method Protect(s: AddrSpace) returns (ok: bool)
      requires Shape() && KernelOk()
      modifies this`free, mem, s
      ensures ok <==> old(free) != {}
      ensures Shape() && OnlyTouched(old(free))
      ensures !ok ==> free == old(free)
      ensures ok ==> Space(s) && s.pages <= old(free) && free == old(free) - s.pages
      ensures ok ==> (forall x: Word :: DirIndex(x) < 1024 &&
                        Translate(Page(s.ptr), x) == if IsKernelSlot(DirIndex(x)) then Translate(kpt, x) else None)
    {
      ok := free != {};
      if ok {
        var upt := PgAllocz();
        FillDirectory(upt);
        var ptr := Entry(upt, PTE_P + PTE_U);
        EntryParts(upt, false, true);
        s.ptr := ptr;
        s.pages := {upt};
        NewSpace(s, upt);
      }
    }

    /** A directory with kernel entries only is an address space with nothing mapped. */
    lemma {:induction false} NewSpace(s: AddrSpace, upt: nat)
      requires Shape() && KernelOk() && upt < mem.Length0 && upt !in free && upt !in kernel
      requires Has(s.ptr, PTE_P) && Has(s.ptr, PTE_U) && Page(s.ptr) == upt && s.pages == {upt}
      requires forall i :: 0 <= i < 1024 ==> mem[upt, i] == if IsKernelSlot(i) then mem[kpt, i] else 0
      ensures Space(s)
      ensures forall x: Word :: DirIndex(x) < 1024 &&
                Translate(upt, x) == if IsKernelSlot(DirIndex(x)) then Translate(kpt, x) else None
    {
      HasIs(0);
      forall x: Word
        ensures DirIndex(x) < 1024
        ensures Translate(upt, x) == if IsKernelSlot(DirIndex(x)) then Translate(kpt, x) else None
      {
        AddressParts(x);
      }
    }

    // ---- All address spaces together ----

    /** The kernel's tables and all address spaces, which share no table page. */
    ghost predicate System()
      reads this, mem, all
    {
      && Shape() && KernelOk()
      && (forall t :: t in all ==> Space(t))
      && (forall t, u :: t in all && u in all && t != u ==> t.pages !! u.pages)
    }

    /** `map` in a system: it changes no translation of another address space or of the kernel, and moves pages only
        from the allocator to the space. */
    method MapIn(s: AddrSpace, va: Word, pa: Word, prot: Word) returns (ok: bool)
      requires System() && s in all
      modifies this`free, mem, s`pages
      ensures System() && forall t :: t in all && t != s ==> SameTranslation(t)
      ensures forall x: Word :: Translate(kpt, x) == old(Translate(kpt, x)) || !IsKernelSlot(DirIndex(x))
      ensures free <= old(free) && s.pages == old(s.pages) + (old(free) - free)
      ensures ok <==>
                && USER_START <= va < USER_END && Aligned(va) && Aligned(pa)
                && (old(Has(mem[Page(s.ptr), DirIndex(va)], PTE_P)) || old(free) != {})
                && (old(Mapped(s, va)) <==> prot == MMAP_NONE)
      ensures ok ==> forall x: Word :: Page(x) == Page(va) ==>
                Translate(Page(s.ptr), x) ==
                if prot == MMAP_NONE then None else Some(Target(pa + x % PAGE, prot / 2 % 2 == 1, true))
      ensures forall x: Word :: Page(x) != Page(va) || !ok ==>
                Translate(Page(s.ptr), x) == old(Translate(Page(s.ptr), x))
    {
      ok := Map(s, va, pa, prot);
      OthersAreKept(s);
    }

    twostate lemma OthersAreKept(s: AddrSpace)
      requires old(System()) && s in all && Shape() && Space(s) && free <= old(free) && OthersKept(s) && all == old(all)
      requires s.pages == old(s.pages) + (old(free) - free)
      requires forall t :: t in all && t != s ==> t.ptr == old(t.ptr) && t.pages == old(t.pages)
      ensures System() && forall t :: t in all && t != s ==> SameTranslation(t)
      ensures forall x: Word :: Translate(kpt, x) == old(Translate(kpt, x)) || !IsKernelSlot(DirIndex(x))
    {
      var touched := old(s.pages) + old(free);
      assert OnlyTouched(touched) && touched !! kernel;
      forall t | t in all && t != s
        ensures Space(t) && SameTranslation(t)
      {
        assert old(Space(t));
        SpaceKept(t);
        TranslationKept(t);
      }
      forall x: Word
        ensures Translate(kpt, x) == old(Translate(kpt, x)) || !IsKernelSlot(DirIndex(x))
      {
        AddressParts(x);
      }
    }

    /** `protect` in a system. */
    method ProtectIn(s: AddrSpace) returns (ok: bool)
      requires System() && s !in all
      modifies this`free, this`all, mem, s
      ensures ok <==> old(free) != {}
      ensures System() && all == old(all) + (if ok then {s} else {}) && forall t :: t in old(all) ==> SameTranslation(t)
      ensures ok ==> s.pages <= old(free) && free == old(free) - s.pages
      ensures !ok ==> free == old(free)
      ensures ok ==> (forall x: Word :: DirIndex(x) < 1024 &&
                        Translate(Page(s.ptr), x) == if IsKernelSlot(DirIndex(x)) then Translate(kpt, x) else None)
    {
      ok := Protect(s);
      ProtectKeeps(s);
      if ok {
        AddSpace(s);
      }
      hide *;
    }

    ghost method AddSpace(s: AddrSpace)
      requires System() && Space(s) && forall t :: t in all ==> s.pages !! t.pages
      modifies this`all
      ensures System() && all == old(all) + {s}
    {
      all := all + {s};
      hide Has, Page, KernelEntry, TableEntry, PointsTo;
    }

    twostate lemma ProtectKeeps(s: AddrSpace)
      requires old(System()) && s !in all && Shape() && free <= old(free) && OnlyTouched(old(free)) && all == old(all)
      requires forall t :: t in all ==> t.ptr == old(t.ptr) && t.pages == old(t.pages)
      ensures System() && forall t :: t in all ==> SameTranslation(t)
      ensures forall t :: t in all ==> t.pages !! old(free)
    {
      forall t | t in all
        ensures Space(t) && SameTranslation(t)
      {
        assert old(Space(t));
        SpaceKept(t);
        TranslationKept(t);
      }
    }

    /** `unprotect` in a system: exactly the pages of the space are freed, each once, and none of them is the kernel's
        or another space's. */
    method UnprotectIn(s: AddrSpace)
      requires System() && s in all
      modifies this`free, this`freed, this`all
      ensures System() && all == old(all) - {s}
      ensures exists t :: freed == old(freed) + t && NoRepeats(t) && (set p | p in t) == s.pages
      ensures free == old(free) + s.pages && s.pages !! old(free) && s.pages !! kernel
      ensures forall t :: t in all ==> s.pages !! t.pages
    {
      Unprotect(s);
      all := all - {s};
      SpacesStay();
      hide *;
    }

    /** Freeing pages that no other space has keeps the others as they are. */
    twostate lemma SpacesStay()
      requires old(System()) && all <= old(all)
      requires (forall p, j :: 0 <= p < mem.Length0 && 0 <= j < 1024 ==> mem[p, j] == old(mem[p, j]))
      requires forall t :: t in all ==> t.ptr == old(t.ptr) && t.pages == old(t.pages) && t.pages !! free
      requires forall p :: p in free ==> p < mem.Length0 && p !in kernel
      ensures System()
    {
      forall t | t in all
        ensures Space(t)
      {
        assert old(Space(t));
      }
    }

    // ---- Data pages ----

    /** A page that belongs to a client: the allocator has given it out, or never had it, and it is no table. */
    ghost predicate IsClient(p: nat)
      reads this, all
    {
      p !in free && p !in kernel && forall t :: t in all ==> p !in t.pages
    }

    /** The page that user mode reaches at `x`. */
    ghost function DataPage(t: AddrSpace, x: Word): Option<nat>
      requires mem.Length1 == 1024
      reads mem, t
    {
      match Translate(Page(t.ptr), x)
      case None => None
      case Some(r) => if r.user then Some(r.pa / PAGE) else None
    }

    /** Whatever user mode reaches belongs to a client. */
    ghost predicate DataApart(t: AddrSpace)
      requires mem.Length1 == 1024
      reads this, mem, t, all
    {
      forall x: Word :: DataPage(t, x).Some? ==> IsClient(DataPage(t, x).value)
    }

    ghost predicate Tidy()
      reads this, mem, all
    {
      System() && forall t :: t in all ==> DataApart(t)
    }

    /** Clients keep their pages while tables only come from the allocator. */
    twostate lemma ClientsStay()
      requires all == old(all) && free <= old(free)
      requires forall t :: t in all ==> t.pages <= old(t.pages) + old(free)
      ensures forall p :: old(IsClient(p)) ==> IsClient(p)
    {
    }

    /** An address that leads elsewhere than before leads to a client's page or nowhere. */
    twostate predicate MovesToClients(t: AddrSpace)
      requires mem.Length1 == 1024
      reads this, mem, t, all
    {
      forall x: Word :: DataPage(t, x) != old(DataPage(t, x)) && DataPage(t, x).Some? ==> IsClient(DataPage(t, x).value)
    }

    twostate lemma DataStays(t: AddrSpace)
      requires mem.Length1 == 1024 && old(DataApart(t)) && MovesToClients(t)
      requires forall p :: old(IsClient(p)) ==> IsClient(p)
      ensures DataApart(t)
    {
      forall x: Word | DataPage(t, x).Some?
        ensures IsClient(DataPage(t, x).value)
      {
        assert old(DataPage(t, x)) == DataPage(t, x) ==> old(IsClient(DataPage(t, x).value));
      }
    }

    twostate lemma OthersStay(s: AddrSpace)
      requires old(Tidy()) && System() && all == old(all) && (forall p :: old(IsClient(p)) ==> IsClient(p))
      requires forall t :: t in all && t != s ==> SameTranslation(t)
      requires s in all && MovesToClients(s)
      ensures Tidy()
    {
      forall t | t in all
        ensures DataApart(t)
      {
        assert old(DataApart(t));
        if t != s {
          forall x: Word
            ensures DataPage(t, x) == old(DataPage(t, x))
          {
          }
        }
        DataStays(t);
      }
    }

    /** User mode reaches page `p` at every address of the page of `va`. */
    ghost predicate Leads(s: AddrSpace, va: Word, p: Option<nat>)
      requires mem.Length1 == 1024
      reads mem, s
    {
      forall x: Word :: Page(x) == Page(va) ==> DataPage(s, x) == p
    }

    lemma {:induction false} PageOfTarget(pa: Word, x: Word)
      requires Aligned(pa)
      ensures (pa + x % PAGE) / PAGE == Page(pa)
    {
      DivModUnique(pa + x % PAGE, PAGE, Page(pa), x % PAGE);
    }

    lemma {:induction false} TargetLeads(s: AddrSpace, va: Word, pa: Word, prot: Word)
      requires mem.Length1 == 1024 && Aligned(pa)
      requires forall x: Word :: Page(x) == Page(va) ==>
                 Translate(Page(s.ptr), x) ==
                 if prot == MMAP_NONE then None else Some(Target(pa + x % PAGE, prot / 2 % 2 == 1, true))
      ensures Leads(s, va, MappedPage(pa, prot))
    {
      hide Translate;
      forall x: Word | Page(x) == Page(va)
        ensures DataPage(s, x) == MappedPage(pa, prot)
      {
        PageOfTarget(pa, x);
      }
    }

    /** The page that `map` leads to, if it maps one. */
    function MappedPage(pa: Word, prot: Word): Option<nat> {
      if prot == MMAP_NONE then None else Some(Page(pa))
    }

    /** `map` of a client's page, or an unmapping: everything user mode reaches still belongs to clients. */
    method MapData(s: AddrSpace, va: Word, pa: Word, prot: Word) returns (ok: bool)
      requires Tidy() && s in all && (prot != MMAP_NONE ==> IsClient(Page(pa)))
      modifies this`free, mem, s`pages
      ensures Tidy() && forall t :: t in all && t != s ==> SameTranslation(t)
      ensures free <= old(free) && s.pages == old(s.pages) + (old(free) - free)
      ensures ok ==> Leads(s, va, MappedPage(pa, prot))
      ensures forall x: Word :: Page(x) != Page(va) || !ok ==> DataPage(s, x) == old(DataPage(s, x))
    {
      hide Space, KernelOk, Translate, DataApart;
      ok := MapIn(s, va, pa, prot);
      if ok {
        TargetLeads(s, va, pa, prot);
      }
      ClientsStay();
      assert MovesToClients(s);
      OthersStay(s);
    }

    lemma {:induction false} KernelHasNoData(x: Word)
      requires Shape() && KernelOk()
      ensures DirIndex(x) < 1024
      ensures var r := if IsKernelSlot(DirIndex(x)) then Translate(kpt, x) else None; r.Some? ==> !r.value.user
    {
      AddressParts(x);
    }

    /** `protect`: in the new space user mode reaches nothing. */
    method ProtectData(s: AddrSpace) returns (ok: bool)
      requires Tidy() && s !in all
      modifies this`free, this`all, mem, s
      ensures ok <==> old(free) != {}
      ensures Tidy() && all == old(all) + (if ok then {s} else {}) && forall t :: t in old(all) ==> SameTranslation(t)
      ensures ok ==> s.pages <= old(free) && free == old(free) - s.pages
      ensures ok ==> forall x: Word :: DataPage(s, x) == None
      ensures !ok ==> free == old(free)
      ensures forall p :: old(IsClient(p)) ==> IsClient(p)
    {
      hide Space, KernelOk, Translate, DataApart;
      ok := ProtectIn(s);
      if ok {
        forall x: Word
          ensures DataPage(s, x) == None
        {
          KernelHasNoData(x);
        }
        EmptyApart(s);
      }
      OldSpacesStay();
    }

    lemma {:induction false} EmptyApart(s: AddrSpace)
      requires mem.Length1 == 1024 && forall x: Word :: DataPage(s, x) == None
      ensures DataApart(s)
    {
    }

    twostate lemma OldSpacesStay()
      requires old(Tidy()) && System() && old(all) <= all && (forall p :: old(IsClient(p)) ==> IsClient(p))
      requires forall t :: t in old(all) ==> SameTranslation(t)
      ensures forall t :: t in old(all) ==> DataApart(t)
    {
      forall t | t in old(all)
        ensures DataApart(t)
      {
        forall x: Word
          ensures DataPage(t, x) == old(DataPage(t, x))
        {
        }
        DataStays(t);
      }
    }

    /** `pgallocz` for a client: no translation changes, and the page is the client's. */
    method TakePage() returns (p: nat)
      requires Tidy() && free != {}
      modifies this`free, mem
      ensures Tidy() && p in old(free) && free == old(free) - {p} && IsClient(p)
      ensures forall t :: t in all ==> SameTranslation(t)
      ensures forall q :: old(IsClient(q)) ==> IsClient(q)
      ensures forall j :: 0 <= j < 1024 ==> mem[p, j] == 0
    {
      p := PgAllocz();
      hide Space, KernelOk, Translate, DataApart;
      AllKept();
      OldSpacesStay();
    }

    /** Changing words that are in no table changes no translation. */
    twostate lemma AllKept()
      requires old(System()) && Shape() && all == old(all) && free <= old(free)
      requires forall t :: t in all ==> TablesKept(t)
      requires forall p, j :: p in kernel && 0 <= j < 1024 ==> mem[p, j] == old(mem[p, j])
      ensures System() && forall t :: t in all ==> SameTranslation(t)
    {
      forall t | t in all
        ensures Space(t) && SameTranslation(t)
      {
        assert old(Space(t));
        SpaceKept(t);
        TranslationKept(t);
      }
    }

    /** Word `j` of page `p` is what a store in user mode at `x` writes. */
    ghost predicate Stores(s: AddrSpace, x: Word, p: int, j: int)
      requires mem.Length1 == 1024
      reads mem, s
    {
      var r := Translate(Page(s.ptr), x);
      r.Some? && r.value.user && r.value.write && p * PAGE + j * 4 <= r.value.pa < p * PAGE + j * 4 + 4
    }

    /** A store in user mode, at the word of `x`; without a writable mapping, or outside this memory, it does nothing.
        Whatever it hits, it changes no translation of any address space. */
    method UserStore(s: AddrSpace, x: Word, w: Word)
      requires Tidy() && s in all
      modifies mem
      ensures Tidy() && forall t :: t in all ==> SameTranslation(t)
      ensures forall p, j :: 0 <= p < mem.Length0 && 0 <= j < 1024 ==>
                mem[p, j] == if old(Stores(s, x, p, j)) then w else old(mem[p, j])
    {
      var r := Translate(Page(s.ptr), x);
      if r.Some? && r.value.user && r.value.write && r.value.pa / PAGE < mem.Length0 {
        assert DataPage(s, x) == Some(r.value.pa / PAGE);
        mem[r.value.pa / PAGE, r.value.pa % PAGE / 4] := w;
      }
      hide Space, KernelOk, Translate, DataApart;
      AllKept();
      OldSpacesStay();
    }

    /** `unprotect`: no page that user mode reaches, in this or any other space, is freed. */
    method UnprotectData(s: AddrSpace)
      requires Tidy() && s in all
      modifies this`free, this`freed, this`all
      ensures Tidy() && all == old(all) - {s} && free == old(free) + s.pages
      ensures exists t :: freed == old(freed) + t && NoRepeats(t) && (set p | p in t) == s.pages
      ensures forall t, x: Word :: t in old(all) && DataPage(t, x).Some? ==> DataPage(t, x).value !in s.pages
      ensures forall p :: old(IsClient(p)) ==> IsClient(p)
    {
      UnprotectIn(s);
      hide Space, KernelOk, Translate;
    }

    // ---- The life of an address space ----

    /** The state between the calls: what has left the allocator is tables of `s` or the client's pages `mine`. */
    twostate predicate Between(s: AddrSpace, mine: seq<nat>)
      reads this, mem, all, s
    {
      && Tidy() && all == old(all) + {s} && free <= old(free) && freed == old(freed)
      && NoRepeats(mine) && (forall p :: p in mine ==> IsClient(p) && p < mem.Length0)
      && s.pages + (set p | p in mine) == old(free) - free
      && (forall t :: t in old(all) ==> SameTranslation(t))
    }

    lemma {:induction false} OneMore(mine: seq<nat>, p: nat)
      requires NoRepeats(mine) && p !in mine
      ensures NoRepeats(mine + [p]) && (set q | q in mine + [p]) == (set q | q in mine) + {p}
    {
    }

    /** One step. What leaves the allocator becomes a table of `s` or a page of the client. */
    method DoStep(s: AddrSpace, step: Step, mine: seq<nat>) returns (ok: bool, more: seq<nat>)
      requires Tidy() && s in all && (step.MapOld? ==> IsClient(Page(step.pa)))
      requires NoRepeats(mine) && forall p :: p in mine ==> IsClient(p) && p < mem.Length0
      modifies this`free, mem, s`pages
      ensures Tidy() && free <= old(free) && forall t :: t in all && t != s ==> SameTranslation(t)
      ensures NoRepeats(more) && forall p :: p in more ==> IsClient(p) && p < mem.Length0
      ensures old(s.pages) <= s.pages && mine <= more
      ensures s.pages + (set p | p in more) == old(s.pages) + (set p | p in mine) + (old(free) - free)
      ensures forall p :: old(IsClient(p)) ==> IsClient(p)
    {
      hide Space, KernelOk, Translate, DataApart, NoRepeats, DataPage;
      ok, more := true, mine;
      if step.Take? {
        if free == {} {
          ok := false;
        } else {
          var p := TakePage();
          more := mine + [p];
          OneMore(mine, p);
        }
      } else if step.MapOwn? {
        if step.i < |mine| {
          assert mine[step.i] in mine;
          ok := MapData(s, step.va, mine[step.i] * PAGE, step.prot);
        }
      } else if step.MapOld? {
        ok := MapData(s, step.va, step.pa, step.prot);
      } else if step.Unmap? {
        ok := MapData(s, step.va, 0, MMAP_NONE);
      } else {
        UserStore(s, step.x, step.w);
      }
    }

    /** One address space from `protect` through any steps to `unprotect`: the pages freed at the end are those that
        were allocated for tables, each once, and no page of the client, who still has all it was given. */
    method UseSpace(s: AddrSpace, steps: seq<Step>) returns (mine: seq<nat>)
      requires Tidy() && s !in all && free != {}
      requires forall k :: 0 <= k < |steps| && steps[k].MapOld? ==> IsClient(Page(steps[k].pa))
      modifies this`free, this`freed, this`all, mem, s
      ensures Tidy() && all == old(all) && free == old(free) - (set p | p in mine)
      ensures NoRepeats(mine) && forall p :: p in mine ==> p in old(free) && IsClient(p)
      ensures exists t :: freed == old(freed) + t && NoRepeats(t) && forall p :: p in t ==> p in old(free) && p !in mine
      ensures forall t :: t in all ==> SameTranslation(t)
    {
      hide Space, KernelOk, Translate, DataApart;
      var ok := ProtectData(s);
      mine := [];
      assert NoRepeats(mine);
      var k := 0;
      while k < |steps| && ok
        invariant Between(s, mine)
        invariant forall p :: old(IsClient(p)) ==> IsClient(p)
      {
        ok, mine := DoStep(s, steps[k], mine);
        k := k + 1;
      }
      UnprotectData(s);
    }
  }
}
