/**
 The words of 32-bit page tables: how the program takes addresses and entries apart, and what those bit
 operations are as arithmetic.
 */
module PageEntry {
  import opened Bits

  type Word = w: nat | w < 0x1_0000_0000

  const PTE_P: nat := 1
  const PTE_W: nat := 2
  const PTE_U: nat := 4
  const PAGE: nat := 4096

  /** Mask and shift of a page-table level (`struct ptinfo`). */
  datatype PtInfo = PtInfo(mask: nat, shift: nat, bits: nat)

  function InfoOf(level: nat): PtInfo
    requires level <= 2
  {
    if level == 0 then PtInfo(0, 0, 0)
    else if level == 1 then PtInfo(0xffc0_0000, 22, 10)
    else PtInfo(0x003f_f000, 12, 10)
  }

  /** `indexof`. */
  function IndexOf(addr: Word, level: nat): nat
    requires level <= 2
  {
    Shr(BitAnd(addr, InfoOf(level).mask), InfoOf(level).shift)
  }

  /** `baseof`. */
  function BaseOf(addr: Word): nat { BitAnd(addr, 0xffff_f000) }

  function Has(w: Word, flag: nat): bool { BitAnd(w, flag) != 0 }

  /** The page number of an address or entry. */
  function Page(w: Word): nat { w / PAGE }

  function DirIndex(va: Word): nat { va / 0x40_0000 }

  function TableIndex(va: Word): nat { va / PAGE % 1024 }

  lemma {:induction false} Powers()
    ensures Pow2(10) == 1024 && Pow2(12) == 4096 && Pow2(20) == 0x10_0000 && Pow2(22) == 0x40_0000
  {
    assert Pow2(10) == 1024;
    assert Pow2(12) == 4 * Pow2(10);
    assert Pow2(20) == 256 * Pow2(12);
    assert Pow2(22) == 4 * Pow2(20);
  }

  lemma {:induction false} Masks()
    ensures Shl(1023, 22) == 0xffc0_0000 && Shl(1023, 12) == 0x003f_f000 && Shl(0xf_ffff, 12) == 0xffff_f000
  {
    Powers();
    ShlIsProduct(1023, 22);
    ShlIsProduct(1023, 12);
    ShlIsProduct(0xf_ffff, 12);
  }

  /** Masking with `c` shifted left by `k` keeps a field; shifting back gives its low bits. */
  lemma {:induction false} FieldIs(x: nat, bits: nat, k: nat)
    ensures BitAnd(x, Shl(Pow2(bits) - 1, k)) == Shl(x / Pow2(k) % Pow2(bits), k)
    ensures Shr(BitAnd(x, Shl(Pow2(bits) - 1, k)), k) == x / Pow2(k) % Pow2(bits)
  {
    AndShifted(x, Pow2(bits) - 1, k);
    AndMask(Shr(x, k), bits);
    LowIsRemainder(Shr(x, k), bits);
    ShrIsQuotient(x, k);
    SplitUnique(Shl(x / Pow2(k) % Pow2(bits), k), k, x / Pow2(k) % Pow2(bits), 0);
  }

  lemma {:induction false} AddressParts(addr: Word)
    ensures addr == DirIndex(addr) * 0x40_0000 + TableIndex(addr) * PAGE + addr % PAGE
    ensures DirIndex(addr) < 1024 && TableIndex(addr) < 1024
  {
    var p := addr / PAGE;
    assert addr == p * PAGE + addr % PAGE;
    assert p / 1024 == addr / 0x40_0000;
    assert p == p / 1024 * 1024 + p % 1024;
  }

  /** The two levels split an address into ten bits of directory, ten of table and twelve of offset, as in section 4.3
      of Intel SDM Volume 3A. */
  lemma {:induction false} IndexIs(addr: Word)
    ensures IndexOf(addr, 0) == 0
    ensures IndexOf(addr, 1) == DirIndex(addr) < 1024
    ensures IndexOf(addr, 2) == TableIndex(addr) < 1024
    ensures addr == DirIndex(addr) * 0x40_0000 + TableIndex(addr) * PAGE + addr % PAGE
  {
    Powers();
    Masks();
    assert BitAnd(addr, 0) == 0;
    hide BitAnd, Shl, Shr, Pow2;
    FieldIs(addr, 10, 22);
    FieldIs(addr, 10, 12);
    AddressParts(addr);
  }

  /** `baseof` clears the offset. */
  lemma {:induction false} BaseIs(addr: Word)
    ensures BaseOf(addr) == Page(addr) * PAGE && BaseOf(addr) / PAGE == Page(addr)
  {
    Powers();
    Masks();
    FieldIs(addr, 20, 12);
    ShlIsProduct(addr / 4096 % 0x10_0000, 12);
  }

  lemma {:induction false} HasIs(w: Word)
    ensures Has(w, PTE_P) <==> w % 2 == 1
    ensures Has(w, PTE_W) <==> w / 2 % 2 == 1
    ensures Has(w, PTE_U) <==> w / 4 % 2 == 1
  {
    assert BitAnd(w, 1) == 2 * BitAnd(w / 2, 0) + w % 2;
    assert BitAnd(w / 2, 0) == 0;
    assert BitAnd(w, 2) == 2 * BitAnd(w / 2, 1);
    assert BitAnd(w / 2, 1) == 2 * BitAnd(w / 4, 0) + w / 2 % 2;
    assert BitAnd(w / 4, 0) == 0;
    assert BitAnd(w, 4) == 2 * BitAnd(w / 2, 2);
    assert BitAnd(w / 2, 2) == 2 * BitAnd(w / 4, 1);
    assert BitAnd(w / 4, 1) == 2 * BitAnd(w / 8, 0) + w / 4 % 2;
    assert BitAnd(w / 8, 0) == 0;
  }

  /** An entry for page `page`: the program ors the flags into the address. */
  function Entry(page: nat, flags: nat): nat { BitOr(page * PAGE, flags) }

  lemma {:induction false} EntryIs(page: nat, flags: nat)
    requires flags < 4096 && page < 0x10_0000
    ensures Entry(page, flags) == page * PAGE + flags < 0x1_0000_0000
  {
    Powers();
    ShlIsProduct(page, 12);
    OrDisjoint(page, flags, 12);
  }

  /** An entry can be taken apart again. */
  lemma {:induction false} EntryParts(page: nat, write: bool, user: bool)
    requires page < 0x10_0000
    ensures var flags := PTE_P + (if write then PTE_W else 0) + (if user then PTE_U else 0);
            var e: nat := Entry(page, flags);
            e < 0x1_0000_0000 && Page(e) == page && Has(e, PTE_P) && Has(e, PTE_W) == write && Has(e, PTE_U) == user
  {
    var flags := PTE_P + (if write then PTE_W else 0) + (if user then PTE_U else 0);
    EntryIs(page, flags);
    HasIs(Entry(page, flags));
    hide Entry, Has;
    FlagBits(page, flags);
  }

  lemma {:induction false} FlagBits(page: nat, flags: nat)
    requires flags < 8
    ensures var e: nat := page * PAGE + flags;
            e / PAGE == page && e % 2 == flags % 2 && e / 2 % 2 == flags / 2 % 2 && e / 4 % 2 == flags / 4 % 2
  {
    var e: nat := page * PAGE + flags;
    DivModUnique(e, PAGE, page, flags);
    DivModUnique(e, 2, page * 2048 + flags / 2, flags % 2);
    DivModUnique(e, 4, page * 1024 + flags / 4, flags % 4);
    DivModUnique(page * 2048 + flags / 2, 2, page * 1024 + flags / 4, flags / 2 % 2);
    DivModUnique(page * 1024 + flags / 4, 2, page * 512, flags / 4 % 2);
  }
}
