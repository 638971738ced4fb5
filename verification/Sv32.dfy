/** The reference page-table walk over a part's 16-bit storage, and words stored into it.  Addresses and
    entries are 32-bit numbers; a shift is a power of two, and `|` of fields that share no bit is a sum. */
module Sv32 {
  import opened Words
  import opened Wrappers

  const PAGE := 0x1000
  const MEGAPAGE := 0x40_0000

  // ----- the part, as the walker reads it -----

  /** The 32 MB window of the part that starts at `base`. */
  predicate InWindow(base: word, addr: word) {
    addr / 0x100_0000 == base / 0x100_0000 || addr / 0x100_0000 == base / 0x100_0000 + 1
  }

  /** Where the SDRAM's window and the DDR3's start. */
  predicate IsBase(base: word) { base == 0x9000_0000 || base == 0xA000_0000 }

  function Read32(base: word, mem: seq<half>, addr: word): Option<word>
    requires IsBase(base)
  {
    if !InWindow(base, addr) then None
    else
      var w := (addr - base) / 2;
      if w + 1 >= |mem| then None
      else Joined(mem[w], mem[w + 1])
  }

  function Joined(low: half, high: half): Option<word> { Some(low + 0x1_0000 * high) }

  /** Bit b of an entry. */
  predicate Flag(pte: word, weight: nat)
    requires weight > 0
  {
    pte / weight % 2 == 1
  }

  /** Where the first-level entry of va is, and, given that entry, the second-level one. */
  function RootAddr(satpPpn: word, va: word): word { Wrap(satpPpn * PAGE + va / MEGAPAGE * 4) }

  function TableAddr(pte1: word, va: word): word { Wrap(pte1 / 0x400 * PAGE + va / PAGE % 0x400 * 4) }

  /** Section 4.3.2 of the RISC-V Privileged Architecture without permissions: two levels, a leaf at either. */
  function Walk(base: word, mem: seq<half>, satpPpn: word, va: word): Option<word>
    requires IsBase(base)
  {
    var pte1 := Read32(base, mem, RootAddr(satpPpn, va));
    if pte1.None? || !Flag(pte1.value, 1) then None
    else if Flag(pte1.value, 2) || Flag(pte1.value, 8) then
      Some(Wrap(pte1.value / 0x10_0000 * MEGAPAGE + va % MEGAPAGE))
    else
      var pte2 := Read32(base, mem, TableAddr(pte1.value, va));
      if pte2.None? || !Flag(pte2.value, 1) then None
      else Some(Wrap(pte2.value / 0x400 * PAGE + va % PAGE))
  }

  // ----- a word stored into the part -----

  predicate Aligned(addr: word) { addr % 4 == 0 }

  /** Both halves of the word at `addr` are in the window and in storage. */
  predicate Backed(base: word, words: nat, addr: word)
    requires IsBase(base)
  {
    InWindow(base, addr) && (addr - base) / 2 + 1 < words
  }

  /** A store anywhere else goes to another slave. */
  function Stored(base: word, mem: seq<half>, addr: word, v: word): (mem': seq<half>)
    requires IsBase(base)
    ensures |mem'| == |mem|
  {
    if Backed(base, |mem|, addr) then
      var w := (addr - base) / 2;
      mem[w := v % 0x1_0000][w + 1 := v / 0x1_0000]
    else mem
  }

  // ----- a program's view -----

  /** The window its memory is in, and the root table it puts in satp. */
  datatype Space = Space(base: word, root: word) {
    function Load(mem: seq<half>, pa: word): Option<word>
      requires IsBase(base)
    {
      Read32(base, mem, pa)
    }

    function Translate(mem: seq<half>, va: word): Option<word>
      requires IsBase(base)
    {
      Walk(base, mem, root / PAGE, va)
    }

    /** A load through the map; None where the walk fails. */
    function LoadVia(mem: seq<half>, va: word): Option<word>
      requires IsBase(base)
    {
      var pa := Translate(mem, va);
      if pa.None? then None else Load(mem, pa.value)
    }

    /** A store through the map; a failed walk stores nothing. */
    function StoreVia(mem: seq<half>, va: word, v: word): seq<half>
      requires IsBase(base)
    {
      var pa := Translate(mem, va);
      if pa.None? then mem else Stored(base, mem, pa.value, v)
    }
  }

  /** One line of a program's report: what the check said. */
  function Report(lines: seq<bool>, ok: bool): (more: seq<bool>)
    ensures forall n: nat :: AllPassed(lines, n) && ok ==> AllPassed(more, n + 1)
  {
    lines + [ok]
  }

  /** A report of n checks, all of which passed. */
  predicate AllPassed(lines: seq<bool>, n: nat) { |lines| == n && forall i :: 0 <= i < n ==> lines[i] }

  method Store(base: word, mem: array<half>, addr: word, v: word)
    requires IsBase(base)
    modifies mem
    ensures mem[..] == Stored(base, old(mem[..]), addr, v)
  {
    if Backed(base, mem.Length, addr) {
      var w := (addr - base) / 2;
      mem[w] := v % 0x1_0000;
      mem[w + 1] := v / 0x1_0000;
    }
  }

  lemma HalvesJoin(v: word)
    ensures Joined(v % 0x1_0000, v / 0x1_0000) == Some(v)
  {}

  // The halfword index of an aligned word is even.
  lemma EvenIndex(base: word, a: word) returns (k: int)
    requires IsBase(base) && Aligned(a) && a >= base
    ensures (a - base) / 2 == 2 * k && a == base + 4 * k
  {
    var m := if base == 0x9000_0000 then 72 else 80;
    assert base == 0x200_0000 * m;
    k := a / 4 - 0x80_0000 * m;
  }

  lemma WordsApart(base: word, a: word, b: word)
    requires IsBase(base) && Aligned(a) && Aligned(b) && a >= base && b >= base && a != b
    ensures var w, x := (a - base) / 2, (b - base) / 2;
            w != x && w + 1 != x && w != x + 1
  {
    var j := EvenIndex(base, a);
    var k := EvenIndex(base, b);
    hide IsBase, Aligned;
  }

  lemma WindowAbove(base: word, a: word)
    requires IsBase(base) && InWindow(base, a)
    ensures a >= base
  {}

  /** A word reads back as stored, and no other aligned word changes. */
  lemma ReadStored(base: word, mem: seq<half>, a: word, v: word, b: word)
    requires IsBase(base) && Aligned(a) && Aligned(b)
    ensures Read32(base, Stored(base, mem, a, v), b)
         == if a == b && Backed(base, |mem|, a) then Some(v) else Read32(base, mem, b)
  {
    HalvesJoin(v);
    if Backed(base, |mem|, a) && InWindow(base, b) {
      WindowAbove(base, a);
      WindowAbove(base, b);
      if a != b { WordsApart(base, a, b); }
    }
    hide InWindow, Joined, IsBase, Aligned;
  }

  // ----- what a walk yields, in terms of the entries it meets -----

  /** Entry i of a table. */
  function Entry(base: word, mem: seq<half>, table: word, i: nat): Option<word>
    requires IsBase(base) && table + 4 * i < 0x1_0000_0000
  {
    Read32(base, mem, table + 4 * i)
  }

  /** A page-table entry: a frame number and its low ten flag bits. */
  function Pte(ppn: nat, flags: nat): word
    requires ppn < 0x40_0000 && flags < 0x400
  {
    ppn * 0x400 + flags
  }

  predicate Leaf(flags: nat) { flags % 2 == 1 && (flags / 2 % 2 == 1 || flags / 8 % 2 == 1) }

  lemma Parity(a: int, f: int)
    ensures (2 * a + f) % 2 == f % 2
  {}

  lemma PteFields(ppn: nat, flags: nat)
    requires ppn < 0x40_0000 && flags < 0x400
    ensures var pte := Pte(ppn, flags);
            && (Flag(pte, 1) <==> flags % 2 == 1)
            && (Flag(pte, 2) <==> flags / 2 % 2 == 1)
            && (Flag(pte, 8) <==> flags / 8 % 2 == 1)
            && pte / 0x400 == ppn && pte / 0x10_0000 == ppn / 0x400
  {
    var pte: int := ppn * 0x400 + flags;
    assert pte / 1 == 2 * (512 * ppn) + flags;
    assert pte / 2 == 2 * (256 * ppn) + flags / 2;
    assert pte / 8 == 2 * (64 * ppn) + flags / 8;
    Parity(512 * ppn, flags);
    Parity(256 * ppn, flags / 2);
    Parity(64 * ppn, flags / 8);
    assert pte / 0x400 == ppn;
    assert pte / 0x10_0000 == pte / 0x400 / 0x400;
  }

  predicate IsTable(table: word) { table % PAGE == 0 }

  lemma Index(table: word, i: nat)
    requires IsTable(table) && table + PAGE <= 0x1_0000_0000 && i < 1024
    ensures Wrap(table / PAGE * PAGE + i * 4) == table + 4 * i
  {}

  lemma RootIndex(root: word, va: word)
    requires IsTable(root) && root + PAGE <= 0x1_0000_0000
    ensures RootAddr(root / PAGE, va) == root + 4 * (va / MEGAPAGE)
  {
    Index(root, va / MEGAPAGE);
    hide Wrap, IsTable;
  }

  lemma TableIndex(pte1: word, table: word, va: word)
    requires IsTable(table) && table + PAGE <= 0x1_0000_0000 && pte1 / 0x400 == table / PAGE
    ensures TableAddr(pte1, va) == table + 4 * (va / PAGE % 0x400)
  {
    Index(table, va / PAGE % 0x400);
    hide Wrap, IsTable;
  }

  lemma NoWrap(ppn: nat, size: nat, offset: nat)
    requires (size == PAGE && ppn < 0x10_0000) || (size == MEGAPAGE && ppn < 0x400)
    requires offset < size
    ensures Wrap(ppn * size + offset) == ppn * size + offset
  {}

  lemma LeafFields(ppn: nat, flags: nat)
    requires ppn < 0x10_0000 && flags < 0x400 && Leaf(flags)
    ensures var pte := Pte(ppn, flags);
            Flag(pte, 1) && (Flag(pte, 2) || Flag(pte, 8)) && pte / 0x10_0000 == ppn / 0x400
  {
    PteFields(ppn, flags);
    hide Flag, Pte;
  }

  lemma MegapageWalk(base: word, mem: seq<half>, root: word, va: word, ppn: nat, flags: nat)
    requires IsBase(base) && IsTable(root) && ppn < 0x10_0000 && flags < 0x400 && Leaf(flags)
    requires root + PAGE <= 0x1_0000_0000 && Entry(base, mem, root, va / MEGAPAGE) == Some(Pte(ppn, flags))
    ensures Walk(base, mem, root / PAGE, va) == Some(ppn / 0x400 * MEGAPAGE + va % MEGAPAGE)
  {
    LeafFields(ppn, flags);
    RootIndex(root, va);
    NoWrap(ppn / 0x400, MEGAPAGE, va % MEGAPAGE);
    hide Read32, Flag, Pte, Wrap, RootAddr, IsTable, IsBase, Leaf;
  }

  lemma PointerFields(table: word)
    requires IsTable(table)
    ensures var pte := Pte(table / PAGE, 1);
            Flag(pte, 1) && !Flag(pte, 2) && !Flag(pte, 8) && pte / 0x400 == table / PAGE
  {
    PteFields(table / PAGE, 1);
    hide Flag, Pte;
  }

  lemma PageWalk(base: word, mem: seq<half>, root: word, va: word, table: word)
    requires IsBase(base) && IsTable(root) && IsTable(table)
    requires root + PAGE <= 0x1_0000_0000 && table + PAGE <= 0x1_0000_0000
    requires Entry(base, mem, root, va / MEGAPAGE) == Some(Pte(table / PAGE, 1))
    ensures var e := Entry(base, mem, table, va / PAGE % 0x400);
            Walk(base, mem, root / PAGE, va)
            == if e.None? || !Flag(e.value, 1) then None else Some(Wrap(e.value / 0x400 * PAGE + va % PAGE))
  {
    PointerFields(table);
    RootIndex(root, va);
    TableIndex(Pte(table / PAGE, 1), table, va);
    hide Read32, Flag, Pte, Wrap, RootAddr, TableAddr, IsTable, IsBase;
  }

  lemma FourKbWalk(base: word, mem: seq<half>, root: word, va: word, table: word, ppn: nat, flags: nat)
    requires IsBase(base) && IsTable(root) && IsTable(table)
    requires root + PAGE <= 0x1_0000_0000 && table + PAGE <= 0x1_0000_0000
    requires Entry(base, mem, root, va / MEGAPAGE) == Some(Pte(table / PAGE, 1))
    requires ppn < 0x10_0000 && flags < 0x400 && flags % 2 == 1
    requires Entry(base, mem, table, va / PAGE % 0x400) == Some(Pte(ppn, flags))
    ensures Walk(base, mem, root / PAGE, va) == Some(ppn * PAGE + va % PAGE)
  {
    PageWalk(base, mem, root, va, table);
    PteFields(ppn, flags);
    NoWrap(ppn, PAGE, va % PAGE);
    hide Walk, Entry, Flag, Pte, Wrap, IsTable, IsBase;
  }

  /** An entry whose lowest bit is clear fails the walk, whatever the rest of it holds. */
  lemma InvalidPage(base: word, mem: seq<half>, root: word, va: word, table: word, pte: word)
    requires IsBase(base) && IsTable(root) && IsTable(table)
    requires root + PAGE <= 0x1_0000_0000 && table + PAGE <= 0x1_0000_0000
    requires Entry(base, mem, root, va / MEGAPAGE) == Some(Pte(table / PAGE, 1))
    requires Entry(base, mem, table, va / PAGE % 0x400) == Some(pte) && pte % 2 == 0
    ensures Walk(base, mem, root / PAGE, va) == None
  {
    PageWalk(base, mem, root, va, table);
    hide Walk, Entry, Pte;
  }

  lemma InvalidMegapage(base: word, mem: seq<half>, root: word, va: word, pte: word)
    requires IsBase(base) && IsTable(root) && root + PAGE <= 0x1_0000_0000
    requires Entry(base, mem, root, va / MEGAPAGE) == Some(pte) && pte % 2 == 0
    ensures Walk(base, mem, root / PAGE, va) == None
  {
    RootIndex(root, va);
    hide Read32, Wrap, RootAddr, IsTable, IsBase;
  }

  /** The walk in numbers: which words it reads, which of their bits it looks at, and what it makes of them. */
  lemma WalkInNumbers(base: word, mem: seq<half>, satpPpn: word, va: word)
    requires IsBase(base)
    ensures var pte1 := Read32(base, mem, (satpPpn * 4096 + va / 4194304 * 4) % 0x1_0000_0000);
            Walk(base, mem, satpPpn, va) ==
              if pte1.None? || pte1.value % 2 == 0 then None
              else if pte1.value / 2 % 2 == 1 || pte1.value / 8 % 2 == 1 then
                Some((pte1.value / 1048576 * 4194304 + va % 4194304) % 0x1_0000_0000)
              else
                var pte2 := Read32(base, mem, (pte1.value / 1024 * 4096 + va / 4096 % 1024 * 4) % 0x1_0000_0000);
                if pte2.None? || pte2.value % 2 == 0 then None
                else Some((pte2.value / 1024 * 4096 + va % 4096) % 0x1_0000_0000)
  {
    hide Read32, IsBase;
  }

  /** And the words: two halves, the low one first, inside a window of 32 MB and the storage behind it. */
  lemma WordInNumbers(base: word, mem: seq<half>, addr: word)
    requires IsBase(base)
    ensures !(base <= addr < base + 0x200_0000) ==> Read32(base, mem, addr) == None
    ensures base <= addr < base + 0x200_0000 ==>
              var w := (addr - base) / 2;
              Read32(base, mem, addr) == if w + 1 < |mem| then Some(mem[w] as int + 65536 * mem[w + 1] as int) else None
  {
  }

  // ----- entries stored -----

  lemma SlotsApart(table: word, i: nat, other: word, j: nat)
    requires IsTable(table) && IsTable(other) && i < 1024 && j < 1024
    requires table + PAGE <= 0x1_0000_0000 && other + PAGE <= 0x1_0000_0000
    ensures Aligned(table + 4 * i) && Aligned(other + 4 * j)
    ensures table + 4 * i == other + 4 * j <==> table == other && i == j
  {
    var a: int, b: int := table / PAGE, other / PAGE;
    assert table == PAGE * a && other == PAGE * b;
    MultipleOfFour(1024 * a + i);
    MultipleOfFour(1024 * b + j);
    if table + 4 * i == other + 4 * j {
      assert 1024 * (a - b) == j - i;
      assert a == b;
    }
  }

  lemma MultipleOfFour(k: int)
    ensures 4 * k % 4 == 0
  {}

  /** Writing one entry of a table changes that entry and no other, of this table or of one elsewhere. */
  lemma EntryStored(base: word, mem: seq<half>, table: word, i: nat, v: word, other: word, j: nat)
    requires IsBase(base) && IsTable(table) && IsTable(other) && i < 1024 && j < 1024
    requires table + PAGE <= 0x1_0000_0000 && other + PAGE <= 0x1_0000_0000
    requires Backed(base, |mem|, table + 4 * i)
    ensures Entry(base, Stored(base, mem, table + 4 * i, v), other, j)
         == if table == other && i == j then Some(v) else Entry(base, mem, other, j)
  {
    SlotsApart(table, i, other, j);
    hide Read32, Stored, Backed, InWindow, IsTable, IsBase, Aligned;
    ReadStored(base, mem, table + 4 * i, v, other + 4 * j);
  }

  /** A word stored outside a table's page leaves the table alone. */
  lemma EntryKept(base: word, mem: seq<half>, addr: word, v: word, table: word, j: nat)
    requires IsBase(base) && Aligned(addr) && IsTable(table) && j < 1024 && table + PAGE <= 0x1_0000_0000
    requires addr < table || addr >= table + PAGE
    ensures Entry(base, Stored(base, mem, addr, v), table, j) == Entry(base, mem, table, j)
  {
    SlotsApart(table, j, table, j);
    hide Read32, Stored, Backed, InWindow, IsTable, IsBase, Aligned;
    ReadStored(base, mem, addr, v, table + 4 * j);
  }
}
