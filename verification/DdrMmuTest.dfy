/** The sparse page table the DDR3 paging test builds, walked in a window of its own: two translated
    megapages, the console's page, one frame under two names, and two invalid entries. */
module DdrMmuTest {
  import opened Words
  import opened Wrappers
  import opened Sv32

  const DDR3_BASE: word := 0xA000_0000
  const RAM_BASE: word := 0x8000_0000
  const UART_BASE: word := 0x0400_0000
  const ROOT_PA: word := DDR3_BASE
  const TEST_PA: word := 0xA000_1000
  const L2_PA: word := 0xA000_2000
  const L2B_PA: word := 0xA000_3000
  const CODE_OFFSET := 0x4000
  const CODE_PA: word := DDR3_BASE + CODE_OFFSET
  const PMP_PA: word := 0xA000_5000
  const TEST_VA: word := 0x4000_0000
  const RO_VA: word := 0x4400_0000
  const PMP_VA: word := 0x4400_1000
  const FAULT_VA_ROOT: word := 0x5000_0000
  const FAULT_VA_L2: word := 0x0400_1000
  const DDR3 := Space(DDR3_BASE, ROOT_PA)

  const MAGIC: word := 0x5A7A_5A7A

  // ----- the entry builders -----

  const LEAF_RWX := 0xCF     // V R W X A D
  const PAGE_RW := 0xC7      // V R W A D
  const PAGE_RO := 0x43      // V R A

  /** A level-1 leaf: the megapage's number goes into the high frame field alone. */
  function MegapagePte(pa: word): (pte: word)
    ensures pte == Pte(pa / MEGAPAGE * 0x400, LEAF_RWX)
  {
    pa / MEGAPAGE * 0x10_0000 + LEAF_RWX
  }

  /** A pointer to a second-level table: valid and nothing else. */
  function TablePte(pa: word): word { Pte(pa / PAGE, 1) }

  function DevicePagePte(pa: word): word { Pte(pa / PAGE, PAGE_RW) }

  function RwPagePte(pa: word): word { Pte(pa / PAGE, PAGE_RW) }

  function ReadonlyPagePte(pa: word): word { Pte(pa / PAGE, PAGE_RO) }

  // ----- the program's view -----

  function Slot(mem: seq<half>, table: word, i: nat): Option<word>
    requires table + 4 * i < 0x1_0000_0000
  {
    Entry(DDR3_BASE, mem, table, i)
  }

  /** The ten entries the program writes; the rest of the table is whatever was there. */
  predicate Tables(mem: seq<half>) {
    && Slot(mem, ROOT_PA, 0) == Some(0)
    && Slot(mem, ROOT_PA, 512) == Some(MegapagePte(RAM_BASE))
    && Slot(mem, ROOT_PA, 256) == Some(MegapagePte(DDR3_BASE))
    && Slot(mem, ROOT_PA, 16) == Some(TablePte(L2_PA))
    && Slot(mem, ROOT_PA, 320) == Some(0)
    && Slot(mem, ROOT_PA, 272) == Some(TablePte(L2B_PA))
    && Slot(mem, L2_PA, 0) == Some(DevicePagePte(UART_BASE))
    && Slot(mem, L2_PA, 1) == Some(0)
    && Slot(mem, L2B_PA, 0) == Some(ReadonlyPagePte(TEST_PA))
    && Slot(mem, L2B_PA, 1) == Some(RwPagePte(PMP_PA))
  }

  // ----- what the map does -----

  predicate InMegapage(va: word, of: word) { va / MEGAPAGE == of / MEGAPAGE }

  predicate InPage(va: word, of: word) { va / PAGE == of / PAGE }

  lemma Megapages(mem: seq<half>, va: word)
    requires Tables(mem)
    ensures InMegapage(va, RAM_BASE) ==> DDR3.Translate(mem, va) == Some(va)
    ensures InMegapage(va, TEST_VA) ==> DDR3.Translate(mem, va) == Some(DDR3_BASE + va % MEGAPAGE)
  {
    hide Walk, Pte, Read32;
    if InMegapage(va, RAM_BASE) { MegapageWalk(DDR3_BASE, mem, ROOT_PA, va, RAM_BASE / MEGAPAGE * 0x400, LEAF_RWX); }
    if InMegapage(va, TEST_VA) { MegapageWalk(DDR3_BASE, mem, ROOT_PA, va, DDR3_BASE / MEGAPAGE * 0x400, LEAF_RWX); }
  }

  lemma PageIndexes(va: word)
    ensures InPage(va, UART_BASE) ==> va / MEGAPAGE == 16 && va / PAGE % 0x400 == 0
    ensures InPage(va, FAULT_VA_L2) ==> va / MEGAPAGE == 16 && va / PAGE % 0x400 == 1
    ensures InPage(va, RO_VA) ==> va / MEGAPAGE == 272 && va / PAGE % 0x400 == 0
    ensures InPage(va, PMP_VA) ==> va / MEGAPAGE == 272 && va / PAGE % 0x400 == 1
  {}

  lemma Pages(mem: seq<half>, va: word)
    requires Tables(mem)
    ensures InPage(va, UART_BASE) ==> DDR3.Translate(mem, va) == Some(va)
    ensures InPage(va, RO_VA) ==> DDR3.Translate(mem, va) == Some(TEST_PA + va % PAGE)
    ensures InPage(va, PMP_VA) ==> DDR3.Translate(mem, va) == Some(PMP_PA + va % PAGE)
  {
    PageIndexes(va);
    hide Walk, Pte, Read32;
    if InPage(va, UART_BASE) {
      FourKbWalk(DDR3_BASE, mem, ROOT_PA, va, L2_PA, UART_BASE / PAGE, PAGE_RW);
    } else if InPage(va, RO_VA) {
      FourKbWalk(DDR3_BASE, mem, ROOT_PA, va, L2B_PA, TEST_PA / PAGE, PAGE_RO);
    } else if InPage(va, PMP_VA) {
      FourKbWalk(DDR3_BASE, mem, ROOT_PA, va, L2B_PA, PMP_PA / PAGE, PAGE_RW);
    }
  }

  lemma Invalid(mem: seq<half>, va: word)
    requires Tables(mem)
    requires InMegapage(va, 0) || InMegapage(va, FAULT_VA_ROOT) || InPage(va, FAULT_VA_L2)
    ensures DDR3.Translate(mem, va) == None
  {
    PageIndexes(va);
    hide Walk, Pte, Read32;
    if InPage(va, FAULT_VA_L2) {
      InvalidPage(DDR3_BASE, mem, ROOT_PA, va, L2_PA, 0);
    } else {
      InvalidMegapage(DDR3_BASE, mem, ROOT_PA, va, 0);
    }
  }

  /** Addresses that the ten entries decide. */
  predicate Decided(va: word) {
    || InMegapage(va, RAM_BASE) || InMegapage(va, TEST_VA) || InMegapage(va, FAULT_VA_ROOT) || InMegapage(va, 0)
    || InPage(va, UART_BASE) || InPage(va, RO_VA) || InPage(va, PMP_VA) || InPage(va, FAULT_VA_L2)
  }

  /** What the sparse table should do with each address it decides. */
  function Expected(va: word): Option<word>
    requires Decided(va)
  {
    if InMegapage(va, TEST_VA) then Some(DDR3_BASE + va % MEGAPAGE)
    else if InPage(va, RO_VA) then Some(TEST_PA + va % PAGE)
    else if InPage(va, PMP_VA) then Some(PMP_PA + va % PAGE)
    else if InMegapage(va, RAM_BASE) || InPage(va, UART_BASE) then Some(va)
    else None
  }

  /** The walk of every decided address. */
  lemma SparseMap(mem: seq<half>, va: word)
    requires Tables(mem) && Decided(va)
    ensures DDR3.Translate(mem, va) == Expected(va)
  {
    hide Tables, Space.Translate, InMegapage, InPage;
    Megapages(mem, va);
    Pages(mem, va);
    if InMegapage(va, 0) || InMegapage(va, FAULT_VA_ROOT) || InPage(va, FAULT_VA_L2) {
      Invalid(mem, va);
    }
  }

  lemma Names(offset: nat)
    requires offset < PAGE
    ensures InPage(RO_VA + offset, RO_VA) && InPage(PMP_VA + offset, PMP_VA)
    ensures (RO_VA + offset) % PAGE == offset && (PMP_VA + offset) % PAGE == offset
    ensures InMegapage(TEST_VA + 0x1000 + offset, TEST_VA) && (TEST_VA + 0x1000 + offset) % MEGAPAGE == 0x1000 + offset
    ensures InMegapage(TEST_VA + 0x5000 + offset, TEST_VA) && (TEST_VA + 0x5000 + offset) % MEGAPAGE == 0x5000 + offset
  {}

  /** Two names for one frame: the read-only page and the PMP page are also reached through the translated
      megapage, offset for offset. */
  lemma TwoNames(mem: seq<half>, offset: nat)
    requires Tables(mem) && offset < PAGE
    ensures DDR3.Translate(mem, RO_VA + offset)
         == DDR3.Translate(mem, TEST_VA + 0x1000 + offset) == Some(TEST_PA + offset)
    ensures DDR3.Translate(mem, PMP_VA + offset)
         == DDR3.Translate(mem, TEST_VA + 0x5000 + offset) == Some(PMP_PA + offset)
  {
    Names(offset);
    hide Tables, Space.Translate, InPage, InMegapage;
    Pages(mem, RO_VA + offset);
    Pages(mem, PMP_VA + offset);
    Megapages(mem, TEST_VA + 0x1000 + offset);
    Megapages(mem, TEST_VA + 0x5000 + offset);
  }

  /** The map in numbers. */
  lemma MapInNumbers(mem: seq<half>, va: word)
    requires Tables(mem)
    ensures 0x8000_0000 <= va < 0x8040_0000 ==> DDR3.Translate(mem, va) == Some(va)
    ensures 0x4000_0000 <= va < 0x4040_0000 ==> DDR3.Translate(mem, va) == Some(va + 0x6000_0000)
    ensures 0x0400_0000 <= va < 0x0400_1000 ==> DDR3.Translate(mem, va) == Some(va)
    ensures 0x4400_0000 <= va < 0x4400_1000 ==> DDR3.Translate(mem, va) == Some(va + 0x5C00_1000)
    ensures 0x4400_1000 <= va < 0x4400_2000 ==> DDR3.Translate(mem, va) == Some(va + 0x5C00_4000)
    ensures va < 0x0040_0000 || 0x5000_0000 <= va < 0x5040_0000 || 0x0400_1000 <= va < 0x0400_2000 ==>
              DDR3.Translate(mem, va) == None
  {
    Offsets(va);
    if Decided(va) { SparseMap(mem, va); }
    hide Tables, Space.Translate;
  }

  lemma Offsets(va: word)
    ensures 0x4000_0000 <= va < 0x4040_0000 ==> va % MEGAPAGE == va - 0x4000_0000
    ensures 0x4400_0000 <= va < 0x4400_1000 ==> va % PAGE == va - 0x4400_0000
    ensures 0x4400_1000 <= va < 0x4400_2000 ==> va % PAGE == va - 0x4400_1000
  {}

  /** And the ten entries. */
  lemma EntriesInNumbers(mem: seq<half>)
    requires Tables(mem)
    ensures DDR3.Load(mem, 0xA000_0000) == Some(0) && DDR3.Load(mem, 0xA000_0800) == Some(0x2000_00CF)
    ensures DDR3.Load(mem, 0xA000_0400) == Some(0x2800_00CF) && DDR3.Load(mem, 0xA000_0040) == Some(0x2800_0801)
    ensures DDR3.Load(mem, 0xA000_0500) == Some(0) && DDR3.Load(mem, 0xA000_0440) == Some(0x2800_0C01)
    ensures DDR3.Load(mem, 0xA000_2000) == Some(0x0100_00C7) && DDR3.Load(mem, 0xA000_2004) == Some(0)
    ensures DDR3.Load(mem, 0xA000_3000) == Some(0x2800_0443) && DDR3.Load(mem, 0xA000_3004) == Some(0x2800_14C7)
  {
    hide Read32;
  }

  // ----- stores through the map -----

  predicate InTables(pa: word) { ROOT_PA <= pa < ROOT_PA + PAGE || L2_PA <= pa < L2B_PA + PAGE }

  lemma StoredKeepsTables(mem: seq<half>, pa: word, v: word)
    requires Tables(mem) && Aligned(pa) && !InTables(pa)
    ensures Tables(Stored(DDR3_BASE, mem, pa, v))
  {
    hide Entry, Stored, MegapagePte, TablePte, DevicePagePte, RwPagePte, ReadonlyPagePte;
    EntryKept(DDR3_BASE, mem, pa, v, ROOT_PA, 0);
    EntryKept(DDR3_BASE, mem, pa, v, ROOT_PA, 512);
    EntryKept(DDR3_BASE, mem, pa, v, ROOT_PA, 256);
    EntryKept(DDR3_BASE, mem, pa, v, ROOT_PA, 16);
    EntryKept(DDR3_BASE, mem, pa, v, ROOT_PA, 320);
    EntryKept(DDR3_BASE, mem, pa, v, ROOT_PA, 272);
    EntryKept(DDR3_BASE, mem, pa, v, L2_PA, 0);
    EntryKept(DDR3_BASE, mem, pa, v, L2_PA, 1);
    EntryKept(DDR3_BASE, mem, pa, v, L2B_PA, 0);
    EntryKept(DDR3_BASE, mem, pa, v, L2B_PA, 1);
  }

  /** The translated megapage also maps the tables: these are the addresses through which they could be hit. */
  predicate HitsTables(va: word) {
    InMegapage(va, TEST_VA) && (va % MEGAPAGE < 0x1000 || 0x2000 <= va % MEGAPAGE < 0x4000)
  }

  /** A store through the map at any other decided address keeps the tables, and with them the map. */
  lemma StoreViaKeepsTables(mem: seq<half>, va: word, v: word)
    requires Tables(mem) && Decided(va) && Aligned(va) && !HitsTables(va)
    ensures Tables(DDR3.StoreVia(mem, va, v))
  {
    SparseMap(mem, va);
    hide Tables, Space.Translate, Stored;
    if Expected(va).Some? {
      ExpectedAligned(va);
      StoredKeepsTables(mem, Expected(va).value, v);
    }
  }

  lemma ExpectedAligned(va: word)
    requires Decided(va) && Aligned(va) && Expected(va).Some?
    ensures Aligned(Expected(va).value)
    ensures InTables(Expected(va).value) <==> HitsTables(va)
  {
    OffsetAligned(va);
    var p, m: int := va % PAGE, va % MEGAPAGE;
    assert (TEST_PA + p) % 4 == 0 && (PMP_PA + p) % 4 == 0 && (DDR3_BASE + m) % 4 == 0;
  }

  lemma OffsetAligned(va: word)
    requires Aligned(va)
    ensures va % PAGE % 4 == 0 && va % MEGAPAGE % 4 == 0
  {
    var k := va / 4;
    var p, m := va / PAGE, va / MEGAPAGE;
    assert va % PAGE == 4 * (k - 0x400 * p);
    assert va % MEGAPAGE == 4 * (k - 0x10_0000 * m);
  }

  /** A word stored through the translated megapage is read back through both its names, and the tables
      are as they were. */
  lemma StoreTest(mem: seq<half>, v: word)
    requires Tables(mem) && Backed(DDR3_BASE, |mem|, TEST_PA)
    ensures var mem' := DDR3.StoreVia(mem, TEST_VA + 0x1000, v);
            && Tables(mem')
            && DDR3.LoadVia(mem', TEST_VA + 0x1000) == Some(v) && DDR3.LoadVia(mem', RO_VA) == Some(v)
  {
    hide Tables, Space.Translate, Stored, Read32, Backed;
    TwoNames(mem, 0);
    StoredKeepsTables(mem, TEST_PA, v);
    TwoNames(Stored(DDR3_BASE, mem, TEST_PA, v), 0);
    ReadStored(DDR3_BASE, mem, TEST_PA, v, TEST_PA);
  }

  // ----- building it -----

  predicate HoldsTables(words: nat) { words >= 0x4000 }

  lemma TableBacked(words: nat, table: word, i: nat)
    requires HoldsTables(words) && (table == ROOT_PA || table == L2_PA || table == L2B_PA) && i < 1024
    ensures Backed(DDR3_BASE, words, table + 4 * i) && Aligned(table + 4 * i) && IsTable(table)
  {}

  predicate IsOurTable(table: word) { table == ROOT_PA || table == L2_PA || table == L2B_PA }

  ghost predicate OtherEntriesKept(mem: seq<half>, mem': seq<half>, table: word, i: nat) {
    forall t: word, j: nat :: IsOurTable(t) && j < 1024 && !(t == table && j == i) ==>
      Slot(mem', t, j) == Slot(mem, t, j)
  }

  ghost predicate TablesKept(mem: seq<half>, mem': seq<half>) {
    forall t: word, j: nat :: IsOurTable(t) && j < 1024 ==> Slot(mem', t, j) == Slot(mem, t, j)
  }

  ghost predicate DataKept(mem: seq<half>, mem': seq<half>) {
    forall b: word :: Aligned(b) && !InTables(b) ==> DDR3.Load(mem', b) == DDR3.Load(mem, b)
  }

  ghost predicate OtherDataKept(mem: seq<half>, mem': seq<half>, a: word) {
    forall b: word :: Aligned(b) && b != a ==> DDR3.Load(mem', b) == DDR3.Load(mem, b)
  }

  lemma SlotsInTables(table: word, i: nat)
    requires IsOurTable(table) && i < 1024
    ensures InTables(table + 4 * i) && IsTable(table)
  {}

  lemma EntryEffect(mem: seq<half>, table: word, i: nat, v: word)
    requires HoldsTables(|mem|) && IsOurTable(table) && i < 1024
    ensures var mem' := Stored(DDR3_BASE, mem, table + 4 * i, v);
            Slot(mem', table, i) == Some(v) && OtherEntriesKept(mem, mem', table, i)
  {
    TableBacked(|mem|, table, i);
    forall t: word | IsOurTable(t) ensures IsTable(t) { SlotsInTables(t, 0); }
    hide Entry, Stored, Read32, InTables, IsBase, IsTable, Backed, Aligned;
    EntryStored(DDR3_BASE, mem, table, i, v, table, i);
    var mem' := Stored(DDR3_BASE, mem, table + 4 * i, v);
    forall t: word, j: nat | IsOurTable(t) && j < 1024 && !(t == table && j == i)
      ensures Slot(mem', t, j) == Slot(mem, t, j)
    {
      EntryStored(DDR3_BASE, mem, table, i, v, t, j);
    }
  }

  lemma EntryDataEffect(mem: seq<half>, table: word, i: nat, v: word)
    requires HoldsTables(|mem|) && IsOurTable(table) && i < 1024
    ensures DataKept(mem, Stored(DDR3_BASE, mem, table + 4 * i, v))
  {
    TableBacked(|mem|, table, i);
    SlotsInTables(table, i);
    hide Stored, Read32, InTables, IsBase, IsTable, Backed, Aligned;
    var mem' := Stored(DDR3_BASE, mem, table + 4 * i, v);
    forall b: word | Aligned(b) && !InTables(b) ensures DDR3.Load(mem', b) == DDR3.Load(mem, b) {
      ReadStored(DDR3_BASE, mem, table + 4 * i, v, b);
    }
  }

  method SetEntry(mem: array<half>, table: word, i: nat, v: word)
    requires HoldsTables(mem.Length) && IsOurTable(table) && i < 1024
    modifies mem
    ensures Slot(mem[..], table, i) == Some(v)
    ensures OtherEntriesKept(old(mem[..]), mem[..], table, i) && DataKept(old(mem[..]), mem[..])
  {
    EntryEffect(mem[..], table, i, v);
    EntryDataEffect(mem[..], table, i, v);
    hide Slot, Stored, OtherEntriesKept, DataKept;
    Store(DDR3_BASE, mem, table + 4 * i, v);
  }

  method SetWord(mem: array<half>, a: word, v: word)
    requires Aligned(a) && Backed(DDR3_BASE, mem.Length, a) && !InTables(a)
    modifies mem
    ensures DDR3.Load(mem[..], a) == Some(v)
    ensures TablesKept(old(mem[..]), mem[..]) && OtherDataKept(old(mem[..]), mem[..], a)
  {
    ghost var before := mem[..];
    Store(DDR3_BASE, mem, a, v);
    hide Entry, Stored, Read32, Backed;
    ReadStored(DDR3_BASE, before, a, v, a);
    forall t: word, j: nat | IsOurTable(t) && j < 1024 ensures Slot(mem[..], t, j) == Slot(before, t, j) {
      EntryKept(DDR3_BASE, before, a, v, t, j);
    }
    forall b: word | Aligned(b) && b != a ensures DDR3.Load(mem[..], b) == DDR3.Load(before, b) {
      ReadStored(DDR3_BASE, before, a, v, b);
    }
  }

  lemma DataApart(words: nat, k: nat)
    requires HoldsTables(words) && k < 0x400
    ensures Aligned(CODE_PA + 4 * k) && Backed(DDR3_BASE, words, CODE_PA + 4 * k) && !InTables(CODE_PA + 4 * k)
    ensures Aligned(PMP_PA) && Backed(DDR3_BASE, words, PMP_PA) && !InTables(PMP_PA)
    ensures Aligned(TEST_PA) && Backed(DDR3_BASE, words, TEST_PA) && !InTables(TEST_PA)
  {}

  /** The first n words of the routine the program copies out of its own image. */
  predicate Copied(mem: seq<half>, code: seq<word>, n: nat)
    requires |code| <= 0x400 && n <= |code|
  {
    forall k :: 0 <= k < n ==> DDR3.Load(mem, CODE_PA + 4 * k) == Some(code[k])
  }

  method CopyCode(mem: array<half>, code: seq<word>)
    requires HoldsTables(mem.Length) && |code| <= 0x400
    modifies mem
    ensures TablesKept(old(mem[..]), mem[..]) && Copied(mem[..], code, |code|)
  {
    hide Entry, Read32, Stored, Backed, InTables;
    var i := 0;
    while i < |code|
      invariant 0 <= i <= |code| && TablesKept(old(mem[..]), mem[..]) && Copied(mem[..], code, i)
    {
      ghost var before := mem[..];
      DataApart(mem.Length, i);
      SetWord(mem, CODE_PA + 4 * i, code[i]);
      forall k | 0 <= k < i ensures DDR3.Load(mem[..], CODE_PA + 4 * k) == Some(code[k]) {
        DataApart(mem.Length, k);
        assert DDR3.Load(mem[..], CODE_PA + 4 * k) == DDR3.Load(before, CODE_PA + 4 * k);
      }
      i := i + 1;
    }
  }

  method CheckCode(mem: array<half>, code: seq<word>) returns (same: bool)
    requires |code| <= 0x400
    ensures same <==> Copied(mem[..], code, |code|)
  {
    hide Read32;
    same := true;
    for i := 0 to |code|
      invariant same <==> Copied(mem[..], code, i)
    {
      if DDR3.Load(mem[..], CODE_PA + 4 * i) != Some(code[i]) { same := false; }
    }
  }

  // The entries of the first half: two megapages, and the console through a second level.
  predicate FirstEntries(mem: seq<half>) {
    && Slot(mem, ROOT_PA, 0) == Some(0)
    && Slot(mem, ROOT_PA, 512) == Some(MegapagePte(RAM_BASE))
    && Slot(mem, ROOT_PA, 256) == Some(MegapagePte(DDR3_BASE))
    && Slot(mem, ROOT_PA, 16) == Some(TablePte(L2_PA))
    && Slot(mem, L2_PA, 0) == Some(DevicePagePte(UART_BASE))
  }

  method BuildFirst(mem: array<half>) returns (lines: seq<bool>)
    requires HoldsTables(mem.Length)
    modifies mem
    ensures FirstEntries(mem[..]) && AllPassed(lines, 5)
  {
    hide Entry, Read32, Pte, MegapagePte, TablePte, DevicePagePte, InTables;
    lines := [];
    SetEntry(mem, ROOT_PA, 0, MAGIC);
    lines := Report(lines, Slot(mem[..], ROOT_PA, 0) == Some(MAGIC));
    SetEntry(mem, ROOT_PA, 0, 0);
    SetEntry(mem, ROOT_PA, RAM_BASE / MEGAPAGE, MegapagePte(RAM_BASE));
    SetEntry(mem, ROOT_PA, TEST_VA / MEGAPAGE, MegapagePte(DDR3_BASE));
    lines := Report(lines, Slot(mem[..], ROOT_PA, RAM_BASE / MEGAPAGE) == Some(MegapagePte(RAM_BASE)));
    lines := Report(lines, Slot(mem[..], ROOT_PA, TEST_VA / MEGAPAGE) == Some(MegapagePte(DDR3_BASE)));
    SetEntry(mem, ROOT_PA, UART_BASE / MEGAPAGE, TablePte(L2_PA));
    SetEntry(mem, L2_PA, UART_BASE / PAGE % 0x400, DevicePagePte(UART_BASE));
    lines := Report(lines, Slot(mem[..], ROOT_PA, UART_BASE / MEGAPAGE) == Some(TablePte(L2_PA)));
    lines := Report(lines, Slot(mem[..], L2_PA, UART_BASE / PAGE % 0x400) == Some(DevicePagePte(UART_BASE)));
  }

  // The two invalid entries, and the second pages' table.
  method BuildSecond(mem: array<half>) returns (lines: seq<bool>)
    requires HoldsTables(mem.Length) && FirstEntries(mem[..])
    modifies mem
    ensures Tables(mem[..]) && DataKept(old(mem[..]), mem[..]) && AllPassed(lines, 2)
  {
    hide Entry, Read32, Pte, MegapagePte, TablePte, DevicePagePte, ReadonlyPagePte, RwPagePte, InTables;
    lines := [];
    SetEntry(mem, ROOT_PA, FAULT_VA_ROOT / MEGAPAGE, 0);
    SetEntry(mem, L2_PA, FAULT_VA_L2 / PAGE % 0x400, 0);
    lines := Report(lines, Slot(mem[..], ROOT_PA, 320) == Some(0) && Slot(mem[..], L2_PA, 1) == Some(0));
    SetEntry(mem, ROOT_PA, RO_VA / MEGAPAGE, TablePte(L2B_PA));
    SetEntry(mem, L2B_PA, RO_VA / PAGE % 0x400, ReadonlyPagePte(TEST_PA));
    lines := Report(lines, Slot(mem[..], ROOT_PA, 272) == Some(TablePte(L2B_PA))
                                 && Slot(mem[..], L2B_PA, 0) == Some(ReadonlyPagePte(TEST_PA)));
    SetEntry(mem, L2B_PA, PMP_VA / PAGE % 0x400, RwPagePte(PMP_PA));
  }

  /** The table-building half of main, on a part that may hold anything: afterwards it holds the ten entries,
      the routine copied in, and the seeds, and every read-back on the way agrees. */
  method BuildTables(mem: array<half>, code: seq<word>) returns (lines: seq<bool>)
    requires HoldsTables(mem.Length) && |code| <= 0x400
    modifies mem
    ensures Tables(mem[..]) && AllPassed(lines, 9)
    ensures Copied(mem[..], code, |code|)
    ensures DDR3.Load(mem[..], 0xA000_5000) == Some(0x5A7A_5A7A) && DDR3.Load(mem[..], 0xA000_1000) == Some(0)
  {
    hide Entry, Read32, Pte, MegapagePte, TablePte, DevicePagePte, ReadonlyPagePte, RwPagePte, InTables, Backed;
    lines := BuildFirst(mem);
    CopyCode(mem, code);
    assert FirstEntries(mem[..]);
    var same := CheckCode(mem, code);
    lines := Report(lines, same);
    ghost var copied := mem[..];
    var more := BuildSecond(mem);
    lines := lines + more;
    CodeKept(copied, mem[..], code);
    DataApart(mem.Length, 0);
    ghost var built := mem[..];
    SetWord(mem, PMP_PA, MAGIC);
    lines := Report(lines, Slot(mem[..], L2B_PA, 1) == Some(RwPagePte(PMP_PA))
                                 && DDR3.Load(mem[..], PMP_PA) == Some(MAGIC));
    SetWord(mem, TEST_PA, 0);
    SeedsKeepCode(built, mem[..], code);
  }

  lemma CodeKept(mem: seq<half>, mem': seq<half>, code: seq<word>)
    requires |code| <= 0x400 && Copied(mem, code, |code|) && DataKept(mem, mem')
    ensures Copied(mem', code, |code|)
  {
    hide Read32;
    forall k | 0 <= k < |code| ensures DDR3.Load(mem', CODE_PA + 4 * k) == Some(code[k]) {
      DataApart(0x4000, k);
      assert DDR3.Load(mem', CODE_PA + 4 * k) == DDR3.Load(mem, CODE_PA + 4 * k);
    }
  }

  lemma SeedsKeepCode(mem: seq<half>, mem': seq<half>, code: seq<word>)
    requires |code| <= 0x400 && Copied(mem, code, |code|)
    requires forall b: word :: Aligned(b) && b != PMP_PA && b != TEST_PA ==> DDR3.Load(mem', b) == DDR3.Load(mem, b)
    ensures Copied(mem', code, |code|)
  {
    hide Read32;
    forall k | 0 <= k < |code| ensures DDR3.Load(mem', CODE_PA + 4 * k) == Some(code[k]) {
      DataApart(0x4000, k);
      assert DDR3.Load(mem', CODE_PA + 4 * k) == DDR3.Load(mem, CODE_PA + 4 * k);
    }
  }

  /** A fetch of the copied routine at its virtual address gets the copied word. */
  lemma FetchesCopy(mem: seq<half>, code: seq<word>, k: nat)
    requires Tables(mem) && |code| <= 0x400 && k < |code| && Copied(mem, code, |code|)
    ensures DDR3.LoadVia(mem, 0x4000_4000 + 4 * k) == Some(code[k])
  {
    CodeName(k);
    hide Tables, Space.Translate, Read32, InMegapage;
    Megapages(mem, TEST_VA + CODE_OFFSET + 4 * k);
  }

  lemma CodeName(k: nat)
    requires k < 0x400
    ensures var va := TEST_VA + CODE_OFFSET + 4 * k;
            InMegapage(va, TEST_VA) && va % MEGAPAGE == CODE_OFFSET + 4 * k
  {}

  /** The constants behind the map. */
  lemma Places()
    ensures ROOT_PA == 0xA000_0000 && TEST_PA == 0xA000_1000 && L2_PA == 0xA000_2000 && L2B_PA == 0xA000_3000
    ensures CODE_PA == 0xA000_4000 && PMP_PA == 0xA000_5000 && RAM_BASE == 0x8000_0000 && UART_BASE == 0x0400_0000
    ensures TEST_VA == 0x4000_0000 && RO_VA == 0x4400_0000 && PMP_VA == 0x4400_1000
    ensures FAULT_VA_ROOT == 0x5000_0000 && FAULT_VA_L2 == 0x0400_1000
  {}
}
