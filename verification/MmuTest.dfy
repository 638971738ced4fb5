/** The page tables the SDRAM paging test builds, and the stores it then makes through them. */
module MmuTest {
  import opened Words
  import opened Wrappers
  import opened Sv32

  const SDRAM_BASE: word := 0x9000_0000
  const ROOT_PA: word := 0x9100_0000
  const L2_PA: word := 0x9100_1000
  const RW_VA: word := 0x9040_0000
  const RO_VA: word := 0x9080_0000
  const PT_VA: word := 0x90C0_0000
  const RO_PAGE := 200
  const BAD_PAGE := 300

  const PTE_V := 0x01
  const LEAF_RW := 0xCF      // V R W X A D
  const LEAF_RO := 0xCB      // V R X A D

  const SDRAM := Space(SDRAM_BASE, ROOT_PA)

  const MAGIC_RW: word := 0x5A7A_5A7A
  const MAGIC_RO: word := 0xC0DE_FACE
  const MAGIC_LOW: word := 0x1111_2222
  const MAGIC_MID: word := 0x3333_4444
  const MAGIC_HIGH: word := 0x5555_6666
  const MAGIC_PTRO: word := 0x7777_8888

  const TLB_PAGES := 32
  const TLB_STRIDE := 3

  /** Bitwise complement. */
  function Not(x: word): word { 0xFFFF_FFFF - x }

  function MegapageIndex(va: word): nat { va / MEGAPAGE }

  /** Page k of the second-level megapage. */
  function PtPage(k: nat): word
    requires k < 1024
  {
    PT_VA + k * PAGE
  }

  function PageAt(k: nat): word
    requires k < TLB_PAGES
  {
    PtPage(k * TLB_STRIDE)
  }

  function TlbMagic(k: nat): word
    requires k < TLB_PAGES
  {
    0xAB00_0000 + k * 0x1000 + k
  }

  /** The part is large enough to hold both tables. */
  predicate HoldsTables(words: nat) { words >= 0x80_1000 }

  // ----- what the tables should hold -----

  function RootEntry(i: nat): word
    requires i < 1024
  {
    if i == MegapageIndex(PT_VA) then Pte(L2_PA / PAGE, PTE_V)
    else Pte(i * 0x400, if i == MegapageIndex(RO_VA) then LEAF_RO else LEAF_RW)
  }

  function L2Entry(j: nat): word
    requires j < 1024
  {
    if j == BAD_PAGE then 0 else Pte(PT_VA / PAGE + j, if j == RO_PAGE then LEAF_RO else LEAF_RW)
  }

  ghost predicate RootBuilt(mem: seq<half>) {
    forall i :: 0 <= i < 1024 ==> Entry(SDRAM_BASE, mem, ROOT_PA, i) == Some(RootEntry(i))
  }

  ghost predicate L2Built(mem: seq<half>) {
    forall j :: 0 <= j < 1024 ==> Entry(SDRAM_BASE, mem, L2_PA, j) == Some(L2Entry(j))
  }

  ghost predicate Tables(mem: seq<half>) { RootBuilt(mem) && L2Built(mem) }

  // ----- the map is the identity -----

  lemma OneToOne(va: word)
    ensures va / MEGAPAGE * 0x400 / 0x400 * MEGAPAGE + va % MEGAPAGE == va
    ensures va / PAGE * PAGE + va % PAGE == va
    ensures va / PAGE == va / MEGAPAGE * 0x400 + va / PAGE % 0x400
    ensures va / MEGAPAGE < 1024 && va / MEGAPAGE * 0x400 / 0x400 == va / MEGAPAGE
  {}

  predicate BadPage(va: word) { va / PAGE == PT_VA / PAGE + BAD_PAGE }

  lemma DirectIdentity(mem: seq<half>, va: word)
    requires RootBuilt(mem) && MegapageIndex(va) != MegapageIndex(PT_VA)
    ensures SDRAM.Translate(mem, va) == Some(va) && !BadPage(va)
  {
    OneToOne(va);
    var i := va / MEGAPAGE;
    assert Entry(SDRAM_BASE, mem, ROOT_PA, i) == Some(RootEntry(i));
    MegapageWalk(SDRAM_BASE, mem, ROOT_PA, va, i * 0x400, if i == MegapageIndex(RO_VA) then LEAF_RO else LEAF_RW);
    hide Entry, Walk, Pte;
  }

  lemma PagedIdentity(mem: seq<half>, va: word)
    requires Tables(mem) && MegapageIndex(va) == MegapageIndex(PT_VA)
    ensures SDRAM.Translate(mem, va) == if BadPage(va) then None else Some(va)
  {
    OneToOne(va);
    var i, j := va / MEGAPAGE, va / PAGE % 0x400;
    assert Entry(SDRAM_BASE, mem, ROOT_PA, i) == Some(RootEntry(i));
    assert Entry(SDRAM_BASE, mem, L2_PA, j) == Some(L2Entry(j));
    hide Entry, Walk, Pte;
    if j == BAD_PAGE {
      InvalidPage(SDRAM_BASE, mem, ROOT_PA, va, L2_PA, 0);
    } else {
      FourKbWalk(SDRAM_BASE, mem, ROOT_PA, va, L2_PA, PT_VA / PAGE + j, if j == RO_PAGE then LEAF_RO else LEAF_RW);
    }
  }

  /** For every 32-bit address the walk yields the address itself, by a megapage or through the second
      level, except in the one invalid page, where it fails. */
  lemma IdentityMap(mem: seq<half>, va: word)
    requires Tables(mem)
    ensures SDRAM.Translate(mem, va) == if BadPage(va) then None else Some(va)
  {
    if MegapageIndex(va) == MegapageIndex(PT_VA) { PagedIdentity(mem, va); } else { DirectIdentity(mem, va); }
  }

  /** The map in numbers: every address but those of the one invalid page. */
  lemma IdentityInNumbers(mem: seq<half>, va: word)
    requires Tables(mem)
    ensures SDRAM.Translate(mem, va) == if 0x90D2_C000 <= va < 0x90D2_D000 then None else Some(va)
  {
    IdentityMap(mem, va);
    hide Tables, Space.Translate;
    assert BadPage(va) <==> 0x90D2_C000 <= va < 0x90D2_D000;
  }

  /** And the tables: the entries of the root at 0x91000000 and of the second level at 0x91001000. */
  lemma TablesInNumbers(mem: seq<half>, i: nat)
    requires Tables(mem) && i < 1024
    ensures SDRAM.Load(mem, 0x9100_0000 + 4 * i)
         == Some(if i == 579 then 0x2440_0401 else i * 0x10_0000 + if i == 578 then 0xCB else 0xCF)
    ensures SDRAM.Load(mem, 0x9100_1000 + 4 * i)
         == Some(if i == 300 then 0 else (0x9_0C00 + i) * 0x400 + if i == 200 then 0xCB else 0xCF)
  {
    hide Read32;
    assert Entry(SDRAM_BASE, mem, ROOT_PA, i) == Some(RootEntry(i));
    assert Entry(SDRAM_BASE, mem, L2_PA, i) == Some(L2Entry(i));
  }

  // ----- stores and the tables -----

  predicate InTables(addr: word) { ROOT_PA <= addr < ROOT_PA + 2 * PAGE }

  lemma StoredKeepsTables(mem: seq<half>, addr: word, v: word)
    requires Tables(mem) && Aligned(addr) && !InTables(addr)
    ensures Tables(Stored(SDRAM_BASE, mem, addr, v))
  {
    hide Entry, Stored, RootEntry, L2Entry;
    var mem' := Stored(SDRAM_BASE, mem, addr, v);
    forall i | 0 <= i < 1024 ensures Entry(SDRAM_BASE, mem', ROOT_PA, i) == Some(RootEntry(i)) {
      EntryKept(SDRAM_BASE, mem, addr, v, ROOT_PA, i);
    }
    forall j | 0 <= j < 1024 ensures Entry(SDRAM_BASE, mem', L2_PA, j) == Some(L2Entry(j)) {
      EntryKept(SDRAM_BASE, mem, addr, v, L2_PA, j);
    }
  }

  lemma LoadViaIs(mem: seq<half>, va: word)
    requires Tables(mem)
    ensures SDRAM.LoadVia(mem, va) == if BadPage(va) then None else SDRAM.Load(mem, va)
  {
    IdentityMap(mem, va);
    hide Tables, Space.Translate, Space.Load, BadPage;
  }

  lemma StoreViaIs(mem: seq<half>, va: word, v: word)
    requires Tables(mem)
    ensures SDRAM.StoreVia(mem, va, v) == if BadPage(va) then mem else Stored(SDRAM_BASE, mem, va, v)
  {
    IdentityMap(mem, va);
    hide Tables, Space.Translate, Stored, BadPage;
  }

  lemma LoadStored(mem: seq<half>, va: word, v: word, b: word)
    requires Aligned(va) && Aligned(b)
    ensures SDRAM.Load(Stored(SDRAM_BASE, mem, va, v), b)
         == if b == va && Backed(SDRAM_BASE, |mem|, va) then Some(v) else SDRAM.Load(mem, b)
  {
    hide Stored, Read32, Aligned, Backed;
    ReadStored(SDRAM_BASE, mem, va, v, b);
  }

  /** A store through the map at an address outside the tables keeps the map, and changes that word alone,
      if the part holds it and the page is valid. */
  lemma StoreViaKeeps(mem: seq<half>, va: word, v: word, b: word)
    requires Tables(mem) && Aligned(va) && Aligned(b) && !InTables(va)
    ensures var mem' := SDRAM.StoreVia(mem, va, v);
            && Tables(mem') && |mem'| == |mem|
            && SDRAM.LoadVia(mem', b) == if b == va && !BadPage(va) && Backed(SDRAM_BASE, |mem|, va) then Some(v)
                                   else SDRAM.LoadVia(mem, b)
  {
    hide Space.StoreVia, Space.LoadVia, Space.Load, Tables, Stored, Aligned, BadPage, Backed, InTables;
    StoreViaIs(mem, va, v);
    LoadViaIs(mem, b);
    if !BadPage(va) {
      var mem' := Stored(SDRAM_BASE, mem, va, v);
      StoredKeepsTables(mem, va, v);
      LoadViaIs(mem', b);
      LoadStored(mem, va, v, b);
    }
  }

  // ----- building the tables -----

  /** No aligned word outside [low, high) differs. */
  ghost predicate SameOutside(mem: seq<half>, mem': seq<half>, low: int, high: int) {
    forall b: word :: Aligned(b) && !(low <= b < high) ==> SDRAM.Load(mem', b) == SDRAM.Load(mem, b)
  }

  lemma TableBacked(words: nat, table: word, i: nat)
    requires HoldsTables(words) && (table == ROOT_PA || table == L2_PA) && i < 1024
    ensures Backed(SDRAM_BASE, words, table + 4 * i) && Aligned(table + 4 * i) && IsTable(table)
  {}

  method SetEntry(mem: array<half>, table: word, i: nat, v: word)
    requires HoldsTables(mem.Length) && (table == ROOT_PA || table == L2_PA) && i < 1024
    modifies mem
    ensures forall j :: 0 <= j < 1024 ==>
              Entry(SDRAM_BASE, mem[..], table, j)
              == if j == i then Some(v) else Entry(SDRAM_BASE, old(mem[..]), table, j)
    ensures SameOutside(old(mem[..]), mem[..], table, table + PAGE)
  {
    ghost var before := mem[..];
    TableBacked(mem.Length, table, i);
    Store(SDRAM_BASE, mem, table + 4 * i, v);
    hide Entry, Stored, Read32;
    forall j | 0 <= j < 1024
      ensures Entry(SDRAM_BASE, mem[..], table, j) == if j == i then Some(v) else Entry(SDRAM_BASE, before, table, j)
    {
      EntryStored(SDRAM_BASE, before, table, i, v, table, j);
    }
    forall b: word | Aligned(b) && !(table <= b < table + PAGE)
      ensures SDRAM.Load(mem[..], b) == SDRAM.Load(before, b)
    {
      ReadStored(SDRAM_BASE, before, table + 4 * i, v, b);
    }
  }

  method SetWord(mem: array<half>, a: word, v: word)
    requires Aligned(a) && Backed(SDRAM_BASE, mem.Length, a)
    modifies mem
    ensures SDRAM.Load(mem[..], a) == Some(v)
    ensures SameOutside(old(mem[..]), mem[..], a, a + 1)
  {
    ghost var before := mem[..];
    Store(SDRAM_BASE, mem, a, v);
    hide Stored, Read32;
    ReadStored(SDRAM_BASE, before, a, v, a);
    forall b: word | Aligned(b) && b != a ensures SDRAM.Load(mem[..], b) == SDRAM.Load(before, b) {
      ReadStored(SDRAM_BASE, before, a, v, b);
    }
  }

  /** Every root entry an identity megapage. */
  method FillRoot(mem: array<half>)
    requires HoldsTables(mem.Length)
    modifies mem
    ensures forall i :: 0 <= i < 1024 ==> Entry(SDRAM_BASE, mem[..], ROOT_PA, i) == Some(Pte(i * 0x400, LEAF_RW))
    ensures SameOutside(old(mem[..]), mem[..], ROOT_PA, L2_PA)
  {
    hide Entry, Read32, Pte;
    var i := 0;
    while i < 1024
      invariant 0 <= i <= 1024
      invariant forall k :: 0 <= k < i ==> Entry(SDRAM_BASE, mem[..], ROOT_PA, k) == Some(Pte(k * 0x400, LEAF_RW))
      invariant SameOutside(old(mem[..]), mem[..], ROOT_PA, L2_PA)
    {
      SetEntry(mem, ROOT_PA, i, MegapageLeaf(i, LEAF_RW));
      i := i + 1;
    }
  }

  /** Megapage index i above the flags: (i << 20) | flags. */
  function MegapageLeaf(i: nat, flags: nat): (pte: word)
    requires i < 1024 && flags < 0x400
    ensures pte == Pte(i * 0x400, flags)
  {
    i * 0x10_0000 + flags
  }

  /** Every second-level entry an identity page. */
  method FillL2(mem: array<half>)
    requires HoldsTables(mem.Length)
    modifies mem
    ensures forall j :: 0 <= j < 1024 ==> Entry(SDRAM_BASE, mem[..], L2_PA, j) == Some(Pte(PT_VA / PAGE + j, LEAF_RW))
    ensures SameOutside(old(mem[..]), mem[..], L2_PA, L2_PA + PAGE)
  {
    hide Entry, Read32, Pte;
    var basePpn := PT_VA / PAGE;
    var i := 0;
    while i < 1024
      invariant 0 <= i <= 1024
      invariant forall k :: 0 <= k < i ==> Entry(SDRAM_BASE, mem[..], L2_PA, k) == Some(Pte(basePpn + k, LEAF_RW))
      invariant SameOutside(old(mem[..]), mem[..], L2_PA, L2_PA + PAGE)
    {
      SetEntry(mem, L2_PA, i, Pte(basePpn + i, LEAF_RW));
      i := i + 1;
    }
  }

  // The six words written before translation is on.
  predicate Seeded(mem: seq<half>) {
    && SDRAM.Load(mem, RW_VA) == Some(MAGIC_RW)
    && SDRAM.Load(mem, RO_VA) == Some(MAGIC_RO)
    && SDRAM.Load(mem, PtPage(0)) == Some(MAGIC_LOW)
    && SDRAM.Load(mem, PtPage(512)) == Some(MAGIC_MID)
    && SDRAM.Load(mem, PtPage(1023)) == Some(MAGIC_HIGH)
    && SDRAM.Load(mem, PtPage(RO_PAGE)) == Some(MAGIC_PTRO)
  }

  lemma SeedsBacked(words: nat)
    requires HoldsTables(words)
    ensures Backed(SDRAM_BASE, words, RW_VA) && Backed(SDRAM_BASE, words, RO_VA)
    ensures forall k :: 0 <= k < 1024 ==> Aligned(PtPage(k)) && Backed(SDRAM_BASE, words, PtPage(k))
  {}

  ghost predicate RootPatched(mem: seq<half>) {
    forall i :: 0 <= i < 1024 ==>
      Entry(SDRAM_BASE, mem, ROOT_PA, i)
      == Some(Pte(i * 0x400, if i == MegapageIndex(RO_VA) then LEAF_RO else LEAF_RW))
  }

  lemma EntriesKept(mem: seq<half>, mem': seq<half>, low: int, high: int, table: word)
    requires SameOutside(mem, mem', low, high) && (table == ROOT_PA || table == L2_PA)
    requires high <= table || low >= table + PAGE
    ensures forall i :: 0 <= i < 1024 ==> Entry(SDRAM_BASE, mem', table, i) == Entry(SDRAM_BASE, mem, table, i)
  {
    hide Read32;
    forall i | 0 <= i < 1024 ensures Entry(SDRAM_BASE, mem', table, i) == Entry(SDRAM_BASE, mem, table, i) {
      assert SDRAM.Load(mem', table + 4 * i) == SDRAM.Load(mem, table + 4 * i);
    }
  }

  // Step 1: the window is reachable, and two test words in two megapages.
  method SeedMegapages(mem: array<half>) returns (lines: seq<bool>)
    requires HoldsTables(mem.Length)
    modifies mem
    ensures SDRAM.Load(mem[..], RW_VA) == Some(MAGIC_RW) && SDRAM.Load(mem[..], RO_VA) == Some(MAGIC_RO)
    ensures AllPassed(lines, 2)
  {
    SeedsBacked(mem.Length);
    hide Entry, Read32, Backed;
    lines := [];
    SetEntry(mem, ROOT_PA, 0, MAGIC_RW);
    lines := Report(lines, Entry(SDRAM_BASE, mem[..], ROOT_PA, 0) == Some(MAGIC_RW));
    SetWord(mem, RW_VA, MAGIC_RW);
    SetWord(mem, RO_VA, MAGIC_RO);
    lines := Report(lines, SDRAM.Load(mem[..], RW_VA) == Some(MAGIC_RW)
                                 && SDRAM.Load(mem[..], RO_VA) == Some(MAGIC_RO));
  }

  // Step 2: an identity map, with one megapage read-only.
  method BuildRoot(mem: array<half>)
    requires HoldsTables(mem.Length)
    modifies mem
    ensures RootPatched(mem[..]) && SameOutside(old(mem[..]), mem[..], ROOT_PA, L2_PA)
  {
    hide Entry, Read32, Pte;
    FillRoot(mem);
    SetEntry(mem, ROOT_PA, MegapageIndex(RO_VA), MegapageLeaf(MegapageIndex(RO_VA), LEAF_RO));
  }

  method SeedPages(mem: array<half>)
    requires HoldsTables(mem.Length)
    modifies mem
    ensures SDRAM.Load(mem[..], PtPage(0)) == Some(MAGIC_LOW) && SDRAM.Load(mem[..], PtPage(512)) == Some(MAGIC_MID)
    ensures SDRAM.Load(mem[..], PtPage(1023)) == Some(MAGIC_HIGH)
    ensures SDRAM.Load(mem[..], PtPage(RO_PAGE)) == Some(MAGIC_PTRO)
    ensures SameOutside(old(mem[..]), mem[..], PT_VA, PT_VA + MEGAPAGE)
  {
    SeedsBacked(mem.Length);
    hide Read32, Backed;
    SetWord(mem, PtPage(0), MAGIC_LOW);
    SetWord(mem, PtPage(512), MAGIC_MID);
    SetWord(mem, PtPage(1023), MAGIC_HIGH);
    SetWord(mem, PtPage(RO_PAGE), MAGIC_PTRO);
  }

  // Step 2b: the second level, and the pointer to it.
  method BuildSecondLevel(mem: array<half>) returns (lines: seq<bool>)
    requires HoldsTables(mem.Length) && RootPatched(mem[..])
    modifies mem
    ensures Tables(mem[..]) && AllPassed(lines, 1)
    ensures SameOutside(old(mem[..]), mem[..], ROOT_PA, L2_PA + PAGE)
  {
    hide Entry, Read32, Pte;
    FillL2(mem);
    SetEntry(mem, L2_PA, RO_PAGE, Pte(PT_VA / PAGE + RO_PAGE, LEAF_RO));
    SetEntry(mem, L2_PA, BAD_PAGE, 0);
    EntriesKept(old(mem[..]), mem[..], L2_PA, L2_PA + PAGE, ROOT_PA);
    ghost var filled := mem[..];
    assert L2Built(filled);
    SetEntry(mem, ROOT_PA, MegapageIndex(PT_VA), Pte(L2_PA / PAGE, PTE_V));
    EntriesKept(filled, mem[..], ROOT_PA, ROOT_PA + PAGE, L2_PA);
    assert L2Built(mem[..]);
    lines := [];
    lines := Report(lines, Entry(SDRAM_BASE, mem[..], L2_PA, 0) == Some(Pte(PT_VA / PAGE, LEAF_RW))
                                 && Entry(SDRAM_BASE, mem[..], L2_PA, 1023) == Some(Pte(PT_VA / PAGE + 1023, LEAF_RW)));
  }

  /** The first half of main: whatever the part held, it holds the tables and the seeds afterwards, and every
      check made on the way passes. */
  method BuildTables(mem: array<half>) returns (lines: seq<bool>)
    requires HoldsTables(mem.Length)
    modifies mem
    ensures Tables(mem[..]) && Seeded(mem[..]) && AllPassed(lines, 4)
  {
    hide Entry, Read32, Pte, Tables;
    lines := SeedMegapages(mem);
    BuildRoot(mem);
    ghost var root := mem[..];
    SeedPages(mem);
    EntriesKept(root, mem[..], PT_VA, PT_VA + MEGAPAGE, ROOT_PA);
    assert RootPatched(mem[..]);
    var more := BuildSecondLevel(mem);
    lines := lines + more;
    RwEntry(mem[..]);
    lines := Report(lines, Entry(SDRAM_BASE, mem[..], ROOT_PA, MegapageIndex(RW_VA))
                                 == Some(MegapageLeaf(MegapageIndex(RW_VA), LEAF_RW)));
  }

  lemma RwEntry(mem: seq<half>)
    requires Tables(mem)
    ensures Entry(SDRAM_BASE, mem, ROOT_PA, MegapageIndex(RW_VA))
         == Some(Pte(MegapageIndex(RW_VA) * 0x400, LEAF_RW))
  {
    hide Entry, Pte;
    assert RootBuilt(mem);
  }

  /** The six seeds, as addresses and words. */
  lemma SeedsInNumbers(mem: seq<half>)
    ensures Seeded(mem) <==>
              && SDRAM.Load(mem, 0x9040_0000) == Some(0x5A7A_5A7A) && SDRAM.Load(mem, 0x9080_0000) == Some(0xC0DE_FACE)
              && SDRAM.Load(mem, 0x90C0_0000) == Some(0x1111_2222) && SDRAM.Load(mem, 0x90E0_0000) == Some(0x3333_4444)
              && SDRAM.Load(mem, 0x90FF_F000) == Some(0x5555_6666) && SDRAM.Load(mem, 0x90CC_8000) == Some(0x7777_8888)
  {
    hide Read32;
  }

  /** And the pages of the sweep, and what it writes to each. */
  lemma SweepInNumbers(k: nat)
    requires k < 32
    ensures TLB_PAGES == 32 && PageAt(k) == 0x90C0_0000 + 0x3000 * k && TlbMagic(k) == 0xAB00_0000 + 0x1001 * k
  {}

  // ----- the S-mode half -----

  method WriteVia(mem: array<half>, va: word, v: word)
    requires Tables(mem[..]) && Aligned(va) && !InTables(va) && !BadPage(va) && Backed(SDRAM_BASE, mem.Length, va)
    modifies mem
    ensures Tables(mem[..]) && SDRAM.LoadVia(mem[..], va) == Some(v)
    ensures forall b: word :: Aligned(b) && b != va ==> SDRAM.LoadVia(mem[..], b) == SDRAM.LoadVia(old(mem[..]), b)
  {
    ghost var before := mem[..];
    hide Tables, Space.Translate, Space.LoadVia, Stored, Backed, BadPage, InTables;
    IdentityMap(before, va);
    Store(SDRAM_BASE, mem, va, v);
    assert mem[..] == SDRAM.StoreVia(before, va, v);
    StoreViaKeeps(before, va, v, va);
    forall b: word | Aligned(b) && b != va ensures SDRAM.LoadVia(mem[..], b) == SDRAM.LoadVia(before, b) {
      StoreViaKeeps(before, va, v, b);
    }
  }

  lemma PagesReachable(words: nat)
    requires HoldsTables(words)
    ensures forall k :: 0 <= k < 1024 && k != BAD_PAGE ==> !BadPage(PtPage(k)) && !InTables(PtPage(k))
    ensures !BadPage(RW_VA) && !InTables(RW_VA) && !BadPage(RO_VA) && BadPage(PtPage(BAD_PAGE))
  {}

  lemma SeededVia(mem: seq<half>)
    requires Tables(mem) && Seeded(mem) && HoldsTables(|mem|)
    ensures SDRAM.LoadVia(mem, RW_VA) == Some(MAGIC_RW) && SDRAM.LoadVia(mem, RO_VA) == Some(MAGIC_RO)
    ensures SDRAM.LoadVia(mem, PtPage(0)) == Some(MAGIC_LOW) && SDRAM.LoadVia(mem, PtPage(512)) == Some(MAGIC_MID)
    ensures SDRAM.LoadVia(mem, PtPage(1023)) == Some(MAGIC_HIGH)
    ensures SDRAM.LoadVia(mem, PtPage(RO_PAGE)) == Some(MAGIC_PTRO)
    ensures SDRAM.LoadVia(mem, PtPage(BAD_PAGE)) == None
  {
    PagesReachable(|mem|);
    hide Tables, Space.Translate, Read32, BadPage, InTables;
    IdentityMap(mem, RW_VA);
    IdentityMap(mem, RO_VA);
    IdentityMap(mem, PtPage(0));
    IdentityMap(mem, PtPage(512));
    IdentityMap(mem, PtPage(1023));
    IdentityMap(mem, PtPage(RO_PAGE));
    IdentityMap(mem, PtPage(BAD_PAGE));
  }

  /** The first word of a page of the sweep. */
  predicate Swept(b: word) { exists k :: 0 <= k < TLB_PAGES && b == PageAt(k) }

  // Each page's first word can be written, and is one word of the sweep.
  lemma PageReady(words: nat, k: nat)
    requires HoldsTables(words) && k < TLB_PAGES
    ensures Aligned(PageAt(k)) && !InTables(PageAt(k)) && !BadPage(PageAt(k)) && Backed(SDRAM_BASE, words, PageAt(k))
    ensures Swept(PageAt(k)) && forall j :: 0 <= j < k ==> PageAt(j) != PageAt(k) && Aligned(PageAt(j))
  {
    SeedsBacked(words);
    PagesReachable(words);
    hide Backed, InTables, BadPage;
  }

  // Each page's own value into its first word.
  method WritePages(mem: array<half>)
    requires HoldsTables(mem.Length) && Tables(mem[..])
    modifies mem
    ensures Tables(mem[..])
    ensures forall k :: 0 <= k < TLB_PAGES ==> SDRAM.LoadVia(mem[..], PageAt(k)) == Some(TlbMagic(k))
    ensures forall b: word :: Aligned(b) && !Swept(b) ==> SDRAM.LoadVia(mem[..], b) == SDRAM.LoadVia(old(mem[..]), b)
  {
    hide Tables, Space.LoadVia, BadPage, InTables, Backed, TlbMagic, PageAt, Swept, Aligned;
    ghost var before := mem[..];
    var k := 0;
    while k < TLB_PAGES
      invariant 0 <= k <= TLB_PAGES && Tables(mem[..])
      invariant forall b: word :: Aligned(b) && !Swept(b) ==> SDRAM.LoadVia(mem[..], b) == SDRAM.LoadVia(before, b)
      invariant forall j :: 0 <= j < k ==> SDRAM.LoadVia(mem[..], PageAt(j)) == Some(TlbMagic(j))
    {
      PageReady(mem.Length, k);
      WriteVia(mem, PageAt(k), TlbMagic(k));
      k := k + 1;
    }
  }

  // The first n pages of the sweep, and the last n, read back their own values.
  predicate FirstHold(mem: seq<half>, n: nat)
    requires n <= TLB_PAGES
  {
    forall k :: 0 <= k < n ==> SDRAM.LoadVia(mem, PageAt(k)) == Some(TlbMagic(k))
  }

  predicate LastHold(mem: seq<half>, n: nat)
    requires n <= TLB_PAGES
  {
    forall k :: TLB_PAGES - n <= k < TLB_PAGES ==> SDRAM.LoadVia(mem, PageAt(k)) == Some(TlbMagic(k))
  }

  method ReadInOrder(mem: array<half>) returns (ok: bool)
    ensures ok <==> FirstHold(mem[..], TLB_PAGES)
  {
    hide Space.LoadVia, TlbMagic, PageAt;
    ok := true;
    var k := 0;
    while k < TLB_PAGES
      invariant 0 <= k <= TLB_PAGES && (ok <==> FirstHold(mem[..], k))
    {
      if SDRAM.LoadVia(mem[..], PageAt(k)) != Some(TlbMagic(k)) { ok := false; }
      k := k + 1;
    }
  }

  method ReadInReverse(mem: array<half>) returns (ok: bool)
    ensures ok <==> LastHold(mem[..], TLB_PAGES)
  {
    hide Space.LoadVia, TlbMagic, PageAt;
    ok := true;
    var k := TLB_PAGES;
    while k > 0
      invariant 0 <= k <= TLB_PAGES && (ok <==> LastHold(mem[..], TLB_PAGES - k))
    {
      k := k - 1;
      if SDRAM.LoadVia(mem[..], PageAt(k)) != Some(TlbMagic(k)) { ok := false; }
    }
  }

  // More pages than the TLB holds, written, then read in order and in reverse.
  method SweepPages(mem: array<half>) returns (seqOk: bool, revOk: bool)
    requires HoldsTables(mem.Length) && Tables(mem[..])
    modifies mem
    ensures Tables(mem[..]) && seqOk && revOk
    ensures forall k :: 0 <= k < TLB_PAGES ==> SDRAM.LoadVia(mem[..], PageAt(k)) == Some(TlbMagic(k))
    ensures forall b: word :: Aligned(b) && !Swept(b) ==> SDRAM.LoadVia(mem[..], b) == SDRAM.LoadVia(old(mem[..]), b)
  {
    WritePages(mem);
    hide Tables, Space.LoadVia, TlbMagic, Swept, Aligned;
    seqOk := ReadInOrder(mem);
    revOk := ReadInReverse(mem);
  }

  /** Every check of the S-mode half that does not rest on permissions passes over the map just built, and
      the stores it makes through the map leave the tables as they were. */
  method SModeMain(mem: array<half>) returns (lines: seq<bool>)
    requires HoldsTables(mem.Length) && Tables(mem[..]) && Seeded(mem[..])
    modifies mem
    ensures Tables(mem[..]) && AllPassed(lines, 12)
    ensures SDRAM.LoadVia(mem[..], 0x9040_0000) == Some(0xA585_A585)
    ensures SDRAM.LoadVia(mem[..], 0x90E0_0000) == Some(0xCCCC_BBBB)
    ensures forall k :: 0 <= k < TLB_PAGES ==> SDRAM.LoadVia(mem[..], PageAt(k)) == Some(TlbMagic(k))
    ensures forall b: word :: Aligned(b) && !Swept(b) && b != 0x9040_0000 && b != 0x90E0_0000 ==>
              SDRAM.LoadVia(mem[..], b) == SDRAM.LoadVia(old(mem[..]), b)
  {
    SeedsBacked(mem.Length);
    PagesReachable(mem.Length);
    SeededVia(mem[..]);
    assert !Swept(RW_VA) && !Swept(PtPage(512));
    lines := [];
    assert AllPassed(lines, 0);
    hide Tables, Space.LoadVia, BadPage, InTables, Backed, Seeded, Swept, Report, AllPassed;
    var rw, ro := RW_VA, RO_VA;
    lines := Report(lines, SDRAM.LoadVia(mem[..], rw) == Some(MAGIC_RW));
    WriteVia(mem, rw, Not(MAGIC_RW));
    lines := Report(lines, SDRAM.LoadVia(mem[..], rw) == Some(Not(MAGIC_RW)));
    lines := Report(lines, SDRAM.LoadVia(mem[..], ro) == Some(MAGIC_RO));

    var lo, mid, hi, pro, bad := PtPage(0), PtPage(512), PtPage(1023), PtPage(RO_PAGE), PtPage(BAD_PAGE);
    lines := Report(lines, SDRAM.LoadVia(mem[..], lo) == Some(MAGIC_LOW));
    lines := Report(lines, SDRAM.LoadVia(mem[..], mid) == Some(MAGIC_MID));
    lines := Report(lines, SDRAM.LoadVia(mem[..], hi) == Some(MAGIC_HIGH));
    lines := Report(lines, SDRAM.LoadVia(mem[..], lo) == Some(MAGIC_LOW)
                                 && SDRAM.LoadVia(mem[..], mid) == Some(MAGIC_MID)
                                 && SDRAM.LoadVia(mem[..], hi) == Some(MAGIC_HIGH)
                                 && SDRAM.LoadVia(mem[..], lo) == Some(MAGIC_LOW));
    WriteVia(mem, mid, Not(MAGIC_MID));
    lines := Report(lines, SDRAM.LoadVia(mem[..], mid) == Some(Not(MAGIC_MID)));
    lines := Report(lines, SDRAM.LoadVia(mem[..], pro) == Some(MAGIC_PTRO));
    lines := Report(lines, SDRAM.LoadVia(mem[..], bad) == None);

    var seqOk, revOk := SweepPages(mem);
    lines := Report(lines, seqOk);
    lines := Report(lines, revOk);
  }
}
