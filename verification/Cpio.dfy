/** The newc cpio writer, and a reader of the layout it states that gets every entry back. */
module Cpio {
  import opened Words
  import opened Wrappers

  // ----- hexadecimal fields -----

  function HexDigit(d: nat): byte
    requires d < 16
  {
    if d < 10 then 48 + d else 55 + d
  }

  function DigitValue(b: byte): Option<nat> {
    if 48 <= b <= 57 then Some(b - 48)
    else if 65 <= b <= 70 then Some(b - 55)
    else if 97 <= b <= 102 then Some(b - 87)
    else None
  }

  /** The last n digits of v. */
  function HexLow(v: nat, n: nat): (s: seq<byte>)
    ensures |s| == n
  {
    if n == 0 then [] else HexLow(v / 16, n - 1) + [HexDigit(v % 16)]
  }

  /** At least eight digits, upper case, and more if v needs them. */
  function Hex8(v: nat): seq<byte> { Digits(v / 0x1_0000_0000) + HexLow(v, 8) }

  function Digits(v: nat): seq<byte> { if v == 0 then [] else Digits(v / 16) + [HexDigit(v % 16)] }

  function ReadHex(s: seq<byte>): Option<nat> {
    if s == [] then Some(0)
    else
      var high, low := ReadHex(s[..|s| - 1]), DigitValue(s[|s| - 1]);
      if high.None? || low.None? then None else Some(16 * high.value + low.value)
  }

  function Power16(n: nat): nat { if n == 0 then 1 else 16 * Power16(n - 1) }

  lemma {:induction false} HexReads(v: nat, n: nat)
    requires v < Power16(n)
    ensures ReadHex(HexLow(v, n)) == Some(v)
  {
    if n > 0 {
      HexReads(v / 16, n - 1);
      var s := HexLow(v, n);
      assert s[..n - 1] == HexLow(v / 16, n - 1);
    }
  }

  lemma Hex8Reads(v: nat)
    requires v < 0x1_0000_0000
    ensures |Hex8(v)| == 8 && ReadHex(Hex8(v)) == Some(v)
  {
    assert Power16(4) == 0x1_0000;
    assert Power16(8) == 0x1_0000_0000;
    HexReads(v, 8);
    hide ReadHex, HexLow;
    assert v / 0x1_0000_0000 == 0 && Digits(0) == [];
    assert Hex8(v) == HexLow(v, 8);
  }

  lemma DivideTwice(v: nat, p: nat)
    requires p > 0
    ensures v / (16 * p) == v / 16 / p
  {
    var q, r := v / 16 / p, v / 16 % p;
    assert v == (16 * p) * q + (16 * r + v % 16);
    QuotientIs(v, 16 * p, q, 16 * r + v % 16);
  }

  lemma QuotientIs(x: nat, d: nat, q: nat, r: nat)
    requires d > 0 && x == d * q + r && r < d
    ensures x / d == q
  {
    var t := q - x / d;
    assert d * t == x % d - r;
    Multiple(d, t);
  }

  lemma Multiple(d: nat, t: int)
    requires d > 0
    ensures t > 0 ==> d * t >= d
    ensures t < 0 ==> d * t <= 0 - d
  {
    if t > 0 { assert d * (t - 1) >= 0; }
    if t < 0 { assert d * (0 - t - 1) >= 0; }
  }

  lemma {:induction false} DigitsRead(v: nat)
    ensures ReadHex(Digits(v)) == Some(v) && (Digits(v) == [] <==> v == 0)
  {
    if v > 0 {
      DigitsRead(v / 16);
      assert Digits(v)[..|Digits(v)| - 1] == Digits(v / 16);
    }
  }

  function Wide(v: nat, p: nat, n: nat): seq<byte>
    requires p > 0
  {
    Digits(v / p) + HexLow(v, n)
  }

  lemma WideNext(v: nat, p: nat, n: nat)
    requires p > 0 && n > 0
    ensures Wide(v, 16 * p, n) == Wide(v / 16, p, n - 1) + [HexDigit(v % 16)]
  {
    DivideTwice(v, p);
    hide Digits;
    assert HexLow(v, n) == HexLow(v / 16, n - 1) + [HexDigit(v % 16)];
    hide HexLow;
  }

  lemma ReadOneMore(s: seq<byte>, v: nat)
    requires ReadHex(s) == Some(v / 16)
    ensures ReadHex(s + [HexDigit(v % 16)]) == Some(v)
  {
    var t := s + [HexDigit(v % 16)];
    assert t[..|t| - 1] == s;
  }

  lemma {:induction false} WideReads(v: nat, n: nat)
    ensures Power16(n) > 0 && ReadHex(Wide(v, Power16(n), n)) == Some(v)
  {
    hide ReadHex, Digits;
    if n == 0 {
      DigitsRead(v);
      assert Wide(v, 1, 0) == Digits(v);
    } else {
      hide Wide;
      WideReads(v / 16, n - 1);
      WideNext(v, Power16(n - 1), n);
      ReadOneMore(Wide(v / 16, Power16(n - 1), n - 1), v);
      hide HexDigit;
    }
  }

  /** Any number reads back, and takes more than eight digits exactly when 32 bits do not hold it. */
  lemma Hex8AlwaysReads(v: nat)
    ensures ReadHex(Hex8(v)) == Some(v) && |Hex8(v)| >= 8 && (|Hex8(v)| == 8 <==> v < 0x1_0000_0000)
  {
    assert Power16(4) == 0x1_0000;
    assert Power16(8) == 0x1_0000_0000;
    WideReads(v, 8);
    DigitsRead(v / 0x1_0000_0000);
    hide ReadHex, HexLow, Power16, Digits;
  }

  // ----- the layout -----

  const MAGIC: seq<byte> := [48, 55, 48, 55, 48, 49]                                 // 070701
  const TRAILER: seq<byte> := [84, 82, 65, 73, 76, 69, 82, 33, 33, 33]               // TRAILER!!!
  const SLASH: byte := 47
  const HEADER := 110
  const FIRST_INODE := 721

  datatype Item = Item(name: seq<byte>, mode: nat, uid: nat, gid: nat, data: seq<byte>,
                       rmajor: nat, rminor: nat, nlink: nat)

  function StripSlashes(name: seq<byte>): seq<byte> {
    if name != [] && name[0] == SLASH then StripSlashes(name[1..]) else name
  }

  /** What is left of a name: all of it from its k-th character on, the first that is no slash. */
  lemma {:induction false} SlashesStripped(name: seq<byte>) returns (k: nat)
    ensures k <= |name| && StripSlashes(name) == name[k..]
    ensures forall i :: 0 <= i < k ==> name[i] == 0x2F
    ensures k < |name| ==> name[k] != 0x2F
  {
    if name != [] && name[0] == 0x2F {
      var n := SlashesStripped(name[1..]);
      k := n + 1;
      assert name[1..][n..] == name[k..];
      forall i | 0 <= i < k ensures name[i] == 0x2F {
        if i > 0 { assert name[i] == name[1..][i - 1]; }
      }
    } else {
      k := 0;
    }
  }

  /** Bytes to the next multiple of four. */
  function Gap(n: nat): (k: nat)
    ensures k < 4 && (n + k) % 4 == 0
  {
    (4 - n % 4) % 4
  }

  function Zeros(n: nat): (s: seq<byte>)
    ensures |s| == n
  {
    seq(n, _ => 0)
  }

  function Padded(s: seq<byte>): (t: seq<byte>)
    ensures |t| == |s| + Gap(|s|)
  {
    s + Zeros(Gap(|s|))
  }

  /** The thirteen fields of a header, in order. */
  function Fields(ino: nat, item: Item): (fields: seq<nat>)
    ensures |fields| == 13
  {
    [ino, item.mode, item.uid, item.gid, item.nlink, 0, |item.data|, 0, 0, item.rmajor, item.rminor,
     |StripSlashes(item.name)| + 1, 0]
  }

  function WriteFields(fields: seq<nat>): seq<byte> {
    if fields == [] then [] else WriteFields(fields[..|fields| - 1]) + Hex8(fields[|fields| - 1])
  }

  function Head(ino: nat, item: Item): seq<byte> {
    MAGIC + WriteFields(Fields(ino, item)) + (StripSlashes(item.name) + [0])
  }

  /** One entry, starting at a multiple of four. */
  function Block(ino: nat, item: Item): (b: seq<byte>)
    ensures |b| % 4 == 0
  {
    hide Head;
    Padded(Padded(Head(ino, item)) + item.data)
  }

  function End(): Item { Item(TRAILER, 0, 0, 0, [], 0, 0, 1) }

  /** Entries numbered from ino + 1 on. */
  function Blocks(ino: nat, items: seq<Item>): (b: seq<byte>)
    ensures |b| % 4 == 0
    decreases |items|
  {
    hide Block;
    if items == [] then [] else Joined(Block(ino + 1, items[0]), Blocks(ino + 1, items[1..]))
  }

  // Two aligned runs of bytes.
  function Joined(a: seq<byte>, b: seq<byte>): (c: seq<byte>)
    requires |a| % 4 == 0 && |b| % 4 == 0
    ensures |c| % 4 == 0 && c == a + b
  {
    AlignedSum(|a|, |b|);
    a + b
  }

  lemma AlignedSum(m: nat, n: nat)
    requires m % 4 == 0 && n % 4 == 0
    ensures (m + n) % 4 == 0
  {}

  function Archive(items: seq<Item>): seq<byte> {
    Blocks(FIRST_INODE, items) + Block(FIRST_INODE + |items| + 1, End())
  }

  // ----- in characters -----

  /** The sixteen digits. */
  lemma DigitChars(d: nat)
    requires d < 16
    ensures HexDigit(d) == "0123456789ABCDEF"[d] as int
  {
    if d < 4 {} else if d < 8 {} else if d < 12 {} else {}
  }

  lemma HexOne(v: nat, n: nat)
    ensures HexLow(v, n + 1) == HexLow(v / 16, n) + [HexDigit(v % 16)]
  {}

  lemma HexZero(n: nat)
    ensures HexLow(0, n) == seq(n, _ => 48)
  {
    if n > 0 {
      HexZero(n - 1);
      HexOne(0, n - 1);
    }
  }

  lemma Narrow(v: nat)
    requires v < 0x1_0000_0000
    ensures Hex8(v) == HexLow(v, 8)
  {
    assert v / 0x1_0000_0000 == 0 && Digits(0) == [];
    assert [] + HexLow(v, 8) == HexLow(v, 8);
  }

  lemma Hex722()
    ensures HexLow(722, 8) == HexLow(0, 5) + [50] + [68] + [50]
  {
    HexOne(722, 7);
    HexOne(45, 6);
    HexOne(2, 5);
    assert 722 / 16 == 45 && 722 % 16 == 2 && 45 / 16 == 2 && 45 % 16 == 13;
    hide HexLow;
  }

  /** The numbers in the trailer. */
  lemma HexExamples()
    ensures Hex8(0) == [48, 48, 48, 48, 48, 48, 48, 48]
    ensures Hex8(1) == [48, 48, 48, 48, 48, 48, 48, 49]
    ensures Hex8(11) == [48, 48, 48, 48, 48, 48, 48, 66]
    ensures Hex8(722) == [48, 48, 48, 48, 48, 50, 68, 50]
  {
    hide HexLow, Hex8;
    Narrow(0);
    Narrow(1);
    Narrow(11);
    Narrow(722);
    HexZero(8);
    HexZero(7);
    HexZero(5);
    HexOne(1, 7);
    HexOne(11, 7);
    Hex722();
  }

  lemma FieldsMore(front: seq<nat>, v: nat)
    ensures WriteFields([]) == [] && WriteFields(front + [v]) == WriteFields(front) + Hex8(v)
  {
    hide Hex8;
    assert (front + [v])[..|front|] == front;
  }

  lemma {:induction false} ThirteenFields(f: seq<nat>)
    requires |f| == 13
    ensures WriteFields(f) == Hex8(f[0]) + Hex8(f[1]) + Hex8(f[2]) + Hex8(f[3]) + Hex8(f[4]) + Hex8(f[5]) + Hex8(f[6])
                              + Hex8(f[7]) + Hex8(f[8]) + Hex8(f[9]) + Hex8(f[10]) + Hex8(f[11]) + Hex8(f[12])
  {
    hide Hex8, WriteFields;
    FieldsMore([], f[0]);
    assert [] + [f[0]] == f[..1] && WriteFields([]) + Hex8(f[0]) == Hex8(f[0]);
    for i := 1 to 13
      invariant WriteFields(f[..1]) == Hex8(f[0])
      invariant forall k :: 1 <= k < i ==> WriteFields(f[..k + 1]) == WriteFields(f[..k]) + Hex8(f[k])
    {
      FieldsMore(f[..i], f[i]);
      assert f[..i] + [f[i]] == f[..i + 1];
    }
    assert f[..13] == f;
  }

  /** What the trailer writes before its padding. */
  function TrailerText(): seq<byte> {
    var o, z := [48, 48, 48, 48, 48, 48, 48, 49], [48, 48, 48, 48, 48, 48, 48, 48];
    [48, 55, 48, 55, 48, 49]
    + ([48, 48, 48, 48, 48, 50, 68, 50] + z + z + z + o + z + z + z + z + z + z + [48, 48, 48, 48, 48, 48, 48, 66] + z)
    + ([84, 82, 65, 73, 76, 69, 82, 33, 33, 33] + [0])
  }

  lemma TrailerHead()
    ensures Head(722, End()) == TrailerText()
  {
    HexExamples();
    var f := Fields(722, End());
    assert StripSlashes(TRAILER) == TRAILER;
    assert f == [722, 0, 0, 0, 1, 0, 0, 0, 0, 0, 0, 11, 0];
    ThirteenFields(f);
    hide Hex8, WriteFields, Fields;
  }

  lemma TrailerPadded()
    ensures |TrailerText()| == 121 && Padded(TrailerText()) == TrailerText() + [0, 0, 0]
    ensures Padded(Padded(TrailerText()) + []) == Padded(TrailerText())
  {
    assert |TrailerText()| == 121;
    hide TrailerText;
    assert Zeros(3) == [0, 0, 0];
    assert Padded(TrailerText()) + [] == Padded(TrailerText());
    assert Zeros(0) == [] && Padded(TrailerText()) + Zeros(0) == Padded(TrailerText());
  }

  /** The archive of nothing, byte for byte: the magic, inode 722, one link, a name of eleven bytes, every other
      field zero, the trailer's name and its end, and three zeros to a multiple of four. */
  lemma EmptyArchive()
    ensures Archive([]) == TrailerText() + [0, 0, 0]
  {
    TrailerHead();
    TrailerPadded();
    hide TrailerText, Head, Padded;
    assert Blocks(FIRST_INODE, []) == [];
    assert Archive([]) == Block(722, End());
  }

  // ----- the writer -----

  class Writer {
    var out: seq<byte>
    var ino: nat

    ghost predicate Valid()
      reads this
    {
      |out| % 4 == 0
    }

    constructor ()
      ensures Valid() && out == [] && ino == FIRST_INODE
    {
      out, ino := [], FIRST_INODE;
    }

    method Pad()
      modifies `out
      ensures out == Padded(old(out))
    {
      ghost var before := out;
      ghost var gap := Gap(|out|);
      while |out| % 4 != 0
        invariant |before| <= |out| <= |before| + gap && out == before + Zeros(|out| - |before|)
        decreases |before| + gap - |out|
      {
        out := out + [0];
      }
    }

    method Entry(item: Item)
      requires Valid()
      modifies this
      ensures Valid() && ino == old(ino) + 1
      ensures out == old(out) + Block(ino, item)
    {
      hide WriteFields;
      ghost var before := out;
      var name := StripSlashes(item.name);
      var raw := name + [0];
      ino := ino + 1;
      var fields := [ino, item.mode, item.uid, item.gid, item.nlink, 0, |item.data|, 0, 0,
                     item.rmajor, item.rminor, |raw|, 0];
      out := out + (MAGIC + WriteFields(fields));
      out := out + raw;
      assert out == before + Head(ino, item);
      PadAfter(before, Head(ino, item));
      Pad();
      out := out + item.data;
      assert out == before + (Padded(Head(ino, item)) + item.data);
      PadAfter(before, Padded(Head(ino, item)) + item.data);
      Pad();
    }

    method Finish() returns (archive: seq<byte>)
      requires Valid()
      modifies this
      ensures archive == out == old(out) + Block(old(ino) + 1, End())
    {
      Entry(End());
      archive := out;
    }
  }

  lemma PadAfter(before: seq<byte>, s: seq<byte>)
    requires |before| % 4 == 0
    ensures Padded(before + s) == before + Padded(s)
  {
    assert Gap(|before + s|) == Gap(|s|);
  }

  /** A whole run of the writer. */
  method WriteArchive(items: seq<Item>) returns (archive: seq<byte>)
    ensures archive == Archive(items)
  {
    hide Block;
    var cpio := new Writer();
    for i := 0 to |items|
      invariant cpio.Valid() && cpio.ino == FIRST_INODE + i
      invariant cpio.out == Blocks(FIRST_INODE, items[..i])
    {
      BlocksSnoc(FIRST_INODE, items, i);
      cpio.Entry(items[i]);
    }
    assert items[..|items|] == items;
    archive := cpio.Finish();
  }

  lemma {:induction false} BlocksSnoc(ino: nat, items: seq<Item>, i: nat)
    requires i < |items|
    ensures Blocks(ino, items[..i + 1]) == Blocks(ino, items[..i]) + Block(ino + i + 1, items[i])
    decreases i
  {
    hide Block;
    if i == 0 {
      assert items[..1][1..] == [] && items[..0] == [];
    } else {
      BlocksSnoc(ino + 1, items[1..], i - 1);
      assert items[..i + 1][1..] == items[1..][..i] && items[..i][1..] == items[1..][..i - 1];
    }
  }

  // ----- the reader -----

  datatype Record = Record(ino: nat, mode: nat, uid: nat, gid: nat, nlink: nat, mtime: nat, devmajor: nat,
                           devminor: nat, rmajor: nat, rminor: nat, check: nat, name: seq<byte>, data: seq<byte>)

  /** A C string: what precedes the first NUL. */
  function CString(s: seq<byte>): seq<byte> {
    if s == [] || s[0] == 0 then [] else [s[0]] + CString(s[1..])
  }

  function ReadFields(b: seq<byte>, n: nat): Option<seq<nat>>
    requires |b| == 8 * n
  {
    if n == 0 then Some([])
    else
      var front, last := ReadFields(b[..8 * (n - 1)], n - 1), ReadHex(b[8 * (n - 1)..]);
      if front.None? || last.None? then None else Some(front.value + [last.value])
  }

  lemma {:induction false} ReadFieldsCount(b: seq<byte>, n: nat)
    requires |b| == 8 * n && ReadFields(b, n).Some?
    ensures |ReadFields(b, n).value| == n
  {
    if n > 0 { ReadFieldsCount(b[..8 * (n - 1)], n - 1); }
  }

  /** Where an entry's parts end, from the sizes its header gives. */
  function DataStart(nameSize: nat): nat { HEADER + nameSize + Gap(HEADER + nameSize) }

  function Next(nameSize: nat, dataSize: nat): (n: nat)
    ensures n >= DataStart(nameSize) + dataSize && n >= HEADER + nameSize
  {
    DataStart(nameSize) + dataSize + Gap(DataStart(nameSize) + dataSize)
  }

  /** One entry with the given thirteen fields, and the bytes it takes: name, padding, data, padding. */
  function Assemble(b: seq<byte>, f: seq<nat>): (r: Option<(Record, nat)>)
    requires |f| == 13
    ensures r.Some? ==> HEADER <= r.value.1 <= |b|
  {
    var nameEnd, start, next := HEADER + f[11], DataStart(f[11]), Next(f[11], f[6]);
    if f[11] == 0 || next > |b| || b[nameEnd - 1] != 0 then None
    else
      Some((Record(f[0], f[1], f[2], f[3], f[4], f[5], f[7], f[8], f[9], f[10], f[12],
                   CString(b[HEADER..nameEnd]), b[start..start + f[6]]), next))
  }

  function ReadEntry(b: seq<byte>): (r: Option<(Record, nat)>)
    ensures r.Some? ==> HEADER <= r.value.1 <= |b|
  {
    if |b| < HEADER || b[..6] != MAGIC then None
    else
      var fields := ReadFields(b[6..HEADER], 13);
      if fields.None? then None
      else
        ReadFieldsCount(b[6..HEADER], 13);
        Assemble(b, fields.value)
  }

  /** Entries up to the trailer, and the trailer. */
  function ReadArchive(b: seq<byte>): Option<(seq<Record>, Record)>
    decreases |b|
  {
    var entry := ReadEntry(b);
    if entry.None? then None
    else if entry.value.0.name == TRAILER then Some(([], entry.value.0))
    else
      var rest := ReadArchive(b[entry.value.1..]);
      if rest.None? then None else Some(([entry.value.0] + rest.value.0, rest.value.1))
  }

  // ----- the round trip -----

  predicate Fits(v: nat) { v < 0x1_0000_0000 }

  /** Every field fits 32 bits and the name holds no NUL. */
  predicate Writable(ino: nat, item: Item) {
    && (forall i :: 0 <= i < 13 ==> Fits(Fields(ino, item)[i]))
    && forall i :: 0 <= i < |item.name| ==> item.name[i] != 0
  }

  function Recorded(ino: nat, item: Item): Record {
    Record(ino, item.mode, item.uid, item.gid, item.nlink, 0, 0, 0, item.rmajor, item.rminor, 0,
           StripSlashes(item.name), item.data)
  }

  lemma {:induction false} CStringReads(name: seq<byte>)
    requires forall i :: 0 <= i < |name| ==> name[i] != 0
    ensures CString(name + [0]) == name
  {
    if name != [] {
      assert (name + [0])[1..] == name[1..] + [0];
      CStringReads(name[1..]);
    }
  }

  lemma {:induction false} StrippedNoNul(name: seq<byte>)
    requires forall i :: 0 <= i < |name| ==> name[i] != 0
    ensures forall i :: 0 <= i < |StripSlashes(name)| ==> StripSlashes(name)[i] != 0
  {
    if name != [] && name[0] == SLASH { StrippedNoNul(name[1..]); }
  }

  lemma {:induction false} FieldsRead(fields: seq<nat>)
    requires forall i :: 0 <= i < |fields| ==> Fits(fields[i])
    ensures |WriteFields(fields)| == 8 * |fields|
    ensures ReadFields(WriteFields(fields), |fields|) == Some(fields)
  {
    hide Hex8, ReadHex;
    if fields != [] {
      var front, last := fields[..|fields| - 1], fields[|fields| - 1];
      FieldsRead(front);
      assert Fits(last);
      Hex8Reads(last);
      var w := WriteFields(fields);
      assert w[..8 * |front|] == WriteFields(front) && w[8 * |front|..] == Hex8(last);
      assert front + [last] == fields;
    }
  }

  // b starts with a header of these fields, this name, and this data.
  predicate Laid(b: seq<byte>, fields: seq<byte>, name: seq<byte>, data: seq<byte>) {
    var nameSize := |name| + 1;
    var start := DataStart(nameSize);
    && |b| >= Next(nameSize, |data|)
    && b[..6] == MAGIC && b[6..HEADER] == fields
    && b[HEADER..HEADER + nameSize] == name + [0] && b[start..start + |data|] == data
  }

  lemma HeadParts(ino: nat, item: Item)
    requires Writable(ino, item)
    ensures var head, name := Head(ino, item), StripSlashes(item.name);
            && |head| == HEADER + |name| + 1
            && head[..6] == MAGIC && head[6..HEADER] == WriteFields(Fields(ino, item))
            && head[HEADER..] == name + [0]
  {
    FieldsRead(Fields(ino, item));
    hide WriteFields, Fields, Gap, StripSlashes;
  }

  lemma Prefixes(b: seq<byte>, head: seq<byte>)
    requires |head| >= HEADER && head <= b
    ensures b[..6] == head[..6] && b[6..HEADER] == head[6..HEADER] && b[HEADER..|head|] == head[HEADER..]
  {}

  lemma BlockLaid(ino: nat, item: Item, rest: seq<byte>)
    requires Writable(ino, item)
    ensures var name := StripSlashes(item.name);
            && Laid(Block(ino, item) + rest, WriteFields(Fields(ino, item)), name, item.data)
            && |Block(ino, item)| == Next(|name| + 1, |item.data|)
  {
    HeadParts(ino, item);
    hide WriteFields, Fields, Gap, StripSlashes, Head, Writable, Padded;
    var head := Head(ino, item);
    DoublyPadded(head, item.data, rest);
    Prefixes(Block(ino, item) + rest, head);
  }

  lemma DoublyPadded(head: seq<byte>, data: seq<byte>, rest: seq<byte>)
    ensures var b := Padded(Padded(head) + data) + rest;
            var start := |head| + Gap(|head|);
            head <= b && |b| >= start + |data| && b[start..start + |data|] == data
    ensures |Padded(Padded(head) + data)| == |head| + Gap(|head|) + |data| + Gap(|head| + Gap(|head|) + |data|)
  {
    hide Gap;
    var body := Padded(head) + data;
    var b := Padded(body) + rest;
    assert b == body + (Zeros(Gap(|body|)) + rest);
    assert b[..|body|] == body;
    assert body[|Padded(head)|..] == data;
    assert b[|Padded(head)|..|body|] == body[|Padded(head)|..];
    assert body == head + (Zeros(Gap(|head|)) + data);
    assert b[..|head|] == body[..|head|] == head;
  }

  // What the reader looks at in such a block.
  lemma LaidReads(b: seq<byte>, fields: seq<byte>, name: seq<byte>, data: seq<byte>)
    requires Laid(b, fields, name, data) && forall i :: 0 <= i < |name| ==> name[i] != 0
    ensures var nameEnd, start := HEADER + |name| + 1, DataStart(|name| + 1);
            && Next(|name| + 1, |data|) <= |b| && b[nameEnd - 1] == 0
            && CString(b[HEADER..nameEnd]) == name && b[start..start + |data|] == data
  {
    CStringReads(name);
    var end := HEADER + |name| + 1;
    assert b[end - 1] == b[HEADER..end][end - 1 - HEADER];
    hide CString, Next, DataStart, MAGIC;
  }

  lemma AssembleLaid(b: seq<byte>, ino: nat, item: Item)
    requires Laid(b, WriteFields(Fields(ino, item)), StripSlashes(item.name), item.data)
    requires Writable(ino, item)
    ensures var next := Next(|StripSlashes(item.name)| + 1, |item.data|);
            Assemble(b, Fields(ino, item)) == Some((Recorded(ino, item), next))
  {
    StrippedNoNul(item.name);
    LaidReads(b, WriteFields(Fields(ino, item)), StripSlashes(item.name), item.data);
    FieldsAre(ino, item);
    AssembleIs(b, Fields(ino, item), StripSlashes(item.name), item.data);
    hide WriteFields, StripSlashes, CString, Next, DataStart, Writable, MAGIC, Gap, Laid, Fields, Assemble;
  }

  lemma FieldsAre(ino: nat, item: Item)
    ensures var f := Fields(ino, item);
            && |f| == 13 && f[0] == ino && f[1] == item.mode && f[2] == item.uid && f[3] == item.gid
            && f[4] == item.nlink && f[5] == 0 && f[6] == |item.data| && f[7] == 0 && f[8] == 0
            && f[9] == item.rmajor && f[10] == item.rminor && f[11] == |StripSlashes(item.name)| + 1 && f[12] == 0
  {
    hide StripSlashes;
  }

  lemma AssembleIs(b: seq<byte>, f: seq<nat>, name: seq<byte>, data: seq<byte>)
    requires |f| == 13 && f[11] == |name| + 1 && f[6] == |data|
    requires var nameEnd, start := HEADER + |name| + 1, DataStart(|name| + 1);
             && Next(|name| + 1, |data|) <= |b| && b[nameEnd - 1] == 0
             && CString(b[HEADER..nameEnd]) == name && b[start..start + |data|] == data
    ensures Assemble(b, f) == Some((Record(f[0], f[1], f[2], f[3], f[4], f[5], f[7], f[8], f[9], f[10], f[12], name,
                                           data), Next(|name| + 1, |data|)))
  {
    hide CString, Next, DataStart;
  }

  /** One entry reads back as written, and the reader stops where the next begins. */
  lemma BlockReads(ino: nat, item: Item, rest: seq<byte>)
    requires Writable(ino, item)
    ensures ReadEntry(Block(ino, item) + rest) == Some((Recorded(ino, item), |Block(ino, item)|))
  {
    BlockLaid(ino, item, rest);
    AssembleLaid(Block(ino, item) + rest, ino, item);
    FieldsRead(Fields(ino, item));
    hide WriteFields, Fields, Gap, StripSlashes, Block, ReadFields, Assemble, Next, DataStart, Recorded;
  }

  function Recordings(ino: nat, items: seq<Item>): seq<Record>
    decreases |items|
  {
    if items == [] then [] else [Recorded(ino + 1, items[0])] + Recordings(ino + 1, items[1..])
  }

  ghost predicate AllWritable(ino: nat, items: seq<Item>) {
    && (forall i :: 0 <= i < |items| ==> Writable(ino + 1 + i, items[i]))
    && Writable(ino + 1 + |items|, End())
  }

  predicate NamesTrailer(item: Item) { StripSlashes(item.name) == TRAILER }

  /** How many entries precede the first that the reader takes for the trailer. */
  function BeforeTrailer(items: seq<Item>): (n: nat)
    ensures n <= |items| && (n < |items| ==> NamesTrailer(items[n]))
    ensures forall i :: 0 <= i < n ==> !NamesTrailer(items[i])
  {
    if items == [] || NamesTrailer(items[0]) then 0 else 1 + BeforeTrailer(items[1..])
  }

  function EndOrAt(items: seq<Item>, n: nat): Item {
    if n < |items| then items[n] else End()
  }

  lemma TrailerName()
    ensures NamesTrailer(End())
  {}

  lemma AllWritableTail(ino: nat, items: seq<Item>)
    requires AllWritable(ino, items) && items != []
    ensures AllWritable(ino + 1, items[1..]) && Writable(ino + 1, items[0])
  {
    hide Writable;
    forall i | 0 <= i < |items[1..]| ensures Writable(ino + 1 + 1 + i, items[1..][i]) {
      assert items[1..][i] == items[i + 1];
      assert Writable(ino + 1 + (i + 1), items[i + 1]);
    }
    assert Writable(ino + 1 + 0, items[0]);
  }

  lemma {:induction false} BlocksRead(ino: nat, items: seq<Item>, rest: seq<byte>)
    requires AllWritable(ino, items)
    ensures var n := BeforeTrailer(items);
            ReadArchive(Blocks(ino, items) + Block(ino + |items| + 1, End()) + rest)
              == Some((Recordings(ino, items[..n]), Recorded(ino + n + 1, EndOrAt(items, n))))
    decreases |items|
  {
    hide Block, Recorded, Writable, ReadEntry, StripSlashes;
    var end := Block(ino + |items| + 1, End());
    var b := Blocks(ino, items) + end + rest;
    if items == [] {
      assert b == end + rest;
      BlockReads(ino + 1, End(), rest);
      TrailerName();
      RecordedName(ino + 1, End());
    } else {
      var tail := Blocks(ino + 1, items[1..]) + end + rest;
      assert b == Block(ino + 1, items[0]) + tail;
      AllWritableTail(ino, items);
      BlockReads(ino + 1, items[0], tail);
      RecordedName(ino + 1, items[0]);
      if !NamesTrailer(items[0]) {
        var n := BeforeTrailer(items);
        assert b[|Block(ino + 1, items[0])|..] == tail;
        BlocksRead(ino + 1, items[1..], rest);
        assert items[..n][1..] == items[1..][..n - 1];
      }
    }
  }

  lemma RecordedName(ino: nat, item: Item)
    ensures Recorded(ino, item).name == StripSlashes(item.name)
  {}

  /** Inode numbers are consecutive from 722, so no two entries share one. */
  lemma {:induction false} InodesDistinct(ino: nat, items: seq<Item>)
    ensures |Recordings(ino, items)| == |items|
    ensures forall i :: 0 <= i < |items| ==> Recordings(ino, items)[i] == Recorded(ino + 1 + i, items[i])
    ensures forall i, j :: 0 <= i < j < |items| ==> Recordings(ino, items)[i].ino != Recordings(ino, items)[j].ino
    decreases |items|
  {
    if items != [] {
      InodesDistinct(ino + 1, items[1..]);
      forall i | 0 <= i < |items| ensures Recordings(ino, items)[i] == Recorded(ino + 1 + i, items[i]) {
        if i > 0 { assert Recordings(ino, items)[i] == Recordings(ino + 1, items[1..])[i - 1]; }
      }
    }
  }

  /** Where an entry's header and data start, in an archive written so far. */
  lemma Aligned(before: seq<byte>, ino: nat, item: Item)
    requires |before| % 4 == 0
    ensures var b := before + Block(ino, item);
            && |b| % 4 == 0
            && |before + Padded(Head(ino, item))| % 4 == 0
            && before + Padded(Head(ino, item)) + item.data <= b
  {
    var head := Padded(Head(ino, item));
    PaddedEven(Head(ino, item));
    AlignedSum(|before|, |head|);
    AlignedSum(|before|, |Block(ino, item)|);
    Extends(before, head + item.data, Zeros(Gap(|head + item.data|)));
    assert before + head + item.data == before + (head + item.data);
    hide Head, Gap;
  }

  lemma PaddedEven(s: seq<byte>)
    ensures |Padded(s)| % 4 == 0
  {}

  lemma Extends(a: seq<byte>, b: seq<byte>, c: seq<byte>)
    ensures a + b <= a + (b + c)
  {
    assert a + (b + c) == a + b + c;
  }

  /** What any archive reads back as: the entries before the first whose name the reader takes for the trailer's,
      names less their leading slashes, with that entry for the trailer. */
  lemma TrailerNameHides(items: seq<Item>, rest: seq<byte>)
    requires AllWritable(FIRST_INODE, items)
    ensures var n := BeforeTrailer(items);
            ReadArchive(Archive(items) + rest)
              == Some((Recordings(FIRST_INODE, items[..n]), Recorded(FIRST_INODE + n + 1, EndOrAt(items, n))))
  {
    hide Blocks, Block;
    BlocksRead(FIRST_INODE, items, rest);
  }

  /** The archive reads back as all its entries and then the trailer exactly when none of them is named as the
      trailer is, leading slashes aside; whatever padding follows it is not looked at. */
  lemma RoundTrip(items: seq<Item>, rest: seq<byte>)
    requires AllWritable(FIRST_INODE, items)
    ensures ReadArchive(Archive(items) + rest)
         == Some((Recordings(FIRST_INODE, items), Recorded(FIRST_INODE + |items| + 1, End())))
        <==> forall i :: 0 <= i < |items| ==> StripSlashes(items[i].name) != TRAILER
  {
    TrailerNameHides(items, rest);
    var n := BeforeTrailer(items);
    InodesDistinct(FIRST_INODE, items);
    InodesDistinct(FIRST_INODE, items[..n]);
    hide ReadArchive, Archive, StripSlashes, Recorded, Writable;
    if n == |items| {
      assert items[..n] == items;
      forall i | 0 <= i < |items| ensures StripSlashes(items[i].name) != TRAILER {
        assert !NamesTrailer(items[i]);
      }
    }
  }
}
