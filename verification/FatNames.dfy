/** Directory slots of kernel/fat32.c: the 32-byte long-name and short-name entries that
    emake writes and enext reads back. */
module FatNames {
  import opened FatData

  const SLOT := 32
  const EMPTY_ENTRY: byte := 0xe5
  const END_OF_ENTRY: byte := 0
  const LAST_LONG_ENTRY := 0x40
  const ATTR_LONG_NAME: byte := 0x0f
  const CHAR_LONG_NAME := 13
  const CHAR_SHORT_NAME := 11
  const FAT32_MAX_FILENAME := 255
  const NAME_BUF := 260   // filename[256] and the four bytes behind it that 20 long entries reach

  type Slot = s: seq<byte> | |s| == SLOT witness Zeros(SLOT)

  /** A C string without its terminator. */
  ghost predicate IsName(name: seq<byte>)
  {
    0 < |name| <= FAT32_MAX_FILENAME && forall i :: 0 <= i < |name| ==> name[i] != 0
  }

  /** What a directory entry says about a file. */
  datatype Record = Record(name: seq<byte>, attr: byte, clus: int, size: int) {
    ghost predicate Valid() {
      IsName(name) && 0 <= clus < 0x1_0000_0000 && 0 <= size < 0x1_0000_0000
    }

    /** The number of long entries. */
    function Longs(): int { (|name| + CHAR_LONG_NAME - 1) / CHAR_LONG_NAME }
  }

  function HasLast(order: byte): bool { order / LAST_LONG_ENTRY % 2 == 1 }

  function ClearLast(order: byte): byte { if HasLast(order) then order - LAST_LONG_ENTRY else order }

  function Le16(x: int): (b: seq<byte>)
    requires 0 <= x < 0x1_0000
    ensures |b| == 2
  {
    [x % 0x100, x / 0x100]
  }

  function Word(s: Slot, p: int): int
    requires 0 <= p < SLOT - 1
  {
    var lo: int, hi: int := s[p], s[p + 1];
    lo + 0x100 * hi
  }

  /** Byte h (0 low, 1 high) of the wide character emake stores for position k of the name:
      the name, its terminator, then 0xffff. */
  function WideByte(name: seq<byte>, k: int, h: int): byte
  {
    if 0 <= k < |name| then (if h == 0 then name[k] else 0)
    else if k <= |name| then 0
    else 0xff
  }

  function WideChar(name: seq<byte>, k: int): (w: int)
    ensures w >= 0
  {
    var lo: int, hi: int := WideByte(name, k, 0), WideByte(name, k, 1);
    lo + 0x100 * hi
  }

  /** Byte p of long entry i (counted from 1) of a name. */
  function LongByte(r: Record, sum: byte, i: int, p: int): byte
    requires 1 <= i <= r.Longs() <= 20
  {
    var k := (i - 1) * CHAR_LONG_NAME;
    if p == 0 then (if i == r.Longs() then i + LAST_LONG_ENTRY else i)
    else if 1 <= p < 11 then WideByte(r.name, k + (p - 1) / 2, (p - 1) % 2)
    else if p == 11 then ATTR_LONG_NAME
    else if p == 13 then sum
    else if 14 <= p < 26 then WideByte(r.name, k + 5 + (p - 14) / 2, (p - 14) % 2)
    else if 28 <= p then WideByte(r.name, k + 11 + (p - 28) / 2, (p - 28) % 2)
    else 0
  }

  function LongSlot(r: Record, sum: byte, i: int): (s: Slot)
    requires 1 <= i <= r.Longs() <= 20
    ensures forall p :: 0 <= p < SLOT ==> s[p] == LongByte(r, sum, i, p)
  {
    seq<byte>(SLOT, p => LongByte(r, sum, i, p))
  }

  function ShortSlot(short: seq<byte>, attr: byte, clus: int, size: int): (s: Slot)
    requires |short| == CHAR_SHORT_NAME && 0 <= clus < 0x1_0000_0000 && 0 <= size < 0x1_0000_0000
  {
    short + [attr] + Zeros(8) + Le16(clus / 0x1_0000) + Zeros(4) + Le16(clus % 0x1_0000)
      + Le16(size % 0x1_0000) + Le16(size / 0x1_0000)
  }

  // ---- the layout on the disk ----

  /** Where the j-th of the thirteen characters of a long entry stands. */
  function CharPlace(j: int): int
    requires 0 <= j < CHAR_LONG_NAME
  {
    [1, 3, 5, 7, 9, 14, 16, 18, 20, 22, 24, 28, 30][j]
  }

  /** As few long entries as hold the name, without its terminator. */
  lemma LongsCover(r: Record)
    requires IsName(r.name)
    ensures 13 * (r.Longs() - 1) < |r.name| <= 13 * r.Longs() && 1 <= r.Longs() <= 20
  {
  }

  /** A long entry, byte by byte (FAT specification, section 7). */
  lemma LongLayout(r: Record, sum: byte, i: int, j: int)
    requires 1 <= i <= r.Longs() <= 20 && 0 <= j < CHAR_LONG_NAME
    ensures var s, k := LongSlot(r, sum, i), (i - 1) * 13 + j;
      && s[0] == (if i == r.Longs() then i + 0x40 else i) && s[11] == 0x0f && s[12] == 0 && s[13] == sum && s[26] == 0 && s[27] == 0
      && s[CharPlace(j)] == (if k < |r.name| then r.name[k] else if k == |r.name| then 0 else 0xff)
      && s[CharPlace(j) + 1] == if k <= |r.name| then 0 else 0xff
  {
    hide LongSlot;
    var p := CharPlace(j);
    var s := LongSlot(r, sum, i);
    assert s[p] == LongByte(r, sum, i, p) && s[p + 1] == LongByte(r, sum, i, p + 1);
    assert s[12] == LongByte(r, sum, i, 12) && s[13] == LongByte(r, sum, i, 13);
    assert s[26] == LongByte(r, sum, i, 26) && s[27] == LongByte(r, sum, i, 27);
  }

  /** Four bytes, the lowest first. */
  function Number(a: int, b: int, c: int, d: int): int
  {
    a + 0x100 * b + 0x1_0000 * c + 0x100_0000 * d
  }

  /** A short entry (FAT specification, section 6): name, attribute, the two halves of the first
      cluster and the size, the lowest byte first, and zeros between them. */
  lemma ShortLayout(short: seq<byte>, attr: byte, clus: int, size: int)
    requires |short| == CHAR_SHORT_NAME && 0 <= clus < 0x1_0000_0000 && 0 <= size < 0x1_0000_0000
    ensures var s := ShortSlot(short, attr, clus, size);
      && s[..11] == short && s[11] == attr && s[12..20] == Zeros(8) && s[22..26] == Zeros(4)
      && clus == Number(s[26], s[27], s[20], s[21]) && size == Number(s[28], s[29], s[30], s[31])
  {
    var s := ShortSlot(short, attr, clus, size);
    assert s[20..22] == Le16(clus / 0x1_0000) && s[26..28] == Le16(clus % 0x1_0000);
    assert s[28..30] == Le16(size % 0x1_0000) && s[30..32] == Le16(size / 0x1_0000);
    assert s[20] == s[20..22][0] && s[21] == s[20..22][1] && s[26] == s[26..28][0] && s[27] == s[26..28][1];
    assert s[28] == s[28..30][0] && s[29] == s[28..30][1] && s[30] == s[30..32][0] && s[31] == s[30..32][1];
  }

  /** snstr: narrows ws into buf at at, stopping at a zero; of the rest of the field all but
      the last byte is then cleared. */
  function Snstr(buf: seq<byte>, at: int, ws: seq<int>): (r: seq<byte>)
    requires 0 <= at && at + |ws| <= |buf| && forall i :: 0 <= i < |ws| ==> ws[i] >= 0
    ensures |r| == |buf|
    decreases |ws|
  {
    if ws == [] then buf
    else if ws[0] == 0 then Patched(buf, at, Zeros(|ws| - 1))
    else Snstr(buf[at := ws[0] % 0x100], at + 1, ws[1..])
  }

  function Patched(buf: seq<byte>, at: int, b: seq<byte>): (r: seq<byte>)
    requires 0 <= at && at + |b| <= |buf|
    ensures |r| == |buf|
    ensures forall i :: 0 <= i < |buf| ==> r[i] == if at <= i < at + |b| then b[i - at] else buf[i]
  {
    buf[..at] + b + buf[at + |b|..]
  }

  /** The n wide characters from byte p of a slot on. */
  function Wide(s: Slot, p: int, n: int): (ws: seq<int>)
    requires 0 <= p && 0 <= n && p + 2 * n <= SLOT
    ensures |ws| == n && forall i :: 0 <= i < n ==> ws[i] == Word(s, p + 2 * i) >= 0
  {
    seq(n, i requires 0 <= i < n => Word(s, p + 2 * i))
  }

  /** read_entry_name, long entry branch, for a buffer position at. */
  function ReadLong(buf: seq<byte>, at: int, s: Slot): (r: seq<byte>)
    requires 0 <= at && at + CHAR_LONG_NAME <= |buf|
    ensures |r| == |buf|
  {
    Snstr(Snstr(Snstr(buf, at, Wide(s, 1, 5)), at + 5, Wide(s, 14, 6)), at + 11, Wide(s, 28, 2))
  }

  /** buf holds the name from position k on: its bytes, and its terminator if that is reached. */
  ghost predicate HoldsFrom(buf: seq<byte>, name: seq<byte>, k: int)
  {
    && |name| < |buf|
    && (forall x :: k <= x < |name| && 0 <= x ==> buf[x] == name[x])
    && (k <= |name| ==> buf[|name|] == 0)
  }

  lemma Narrowed(name: seq<byte>, k: int)
    requires IsName(name) && 0 <= k
    ensures k < |name| ==> WideChar(name, k) % 0x100 == name[k]
    ensures WideChar(name, k) == 0 <==> k == |name|
  {
  }

  /** Narrowing one field that holds positions [k, k + n) of the name puts them into the
      buffer and touches nothing else; a terminator in the field's last place is not written,
      but was there before. */
  lemma {:induction false} NarrowField(buf: seq<byte>, name: seq<byte>, k: int, ws: seq<int>)
    requires IsName(name) && |name| < |buf| && 0 <= k && k + |ws| <= |buf|
    requires forall j :: 0 <= j < |ws| ==> ws[j] == WideChar(name, k + j) && ws[j] >= 0
    requires k <= |name| ==> buf[|name|] == 0
    ensures var r := Snstr(buf, k, ws);
            && (forall x :: 0 <= x < |buf| && !(k <= x < k + |ws|) ==> r[x] == buf[x])
            && (forall x :: k <= x < k + |ws| && x < |name| ==> r[x] == name[x])
            && (k <= |name| ==> r[|name|] == 0)
    decreases |ws|
  {
    if ws != [] {
      assert ws[0] == WideChar(name, k + 0);
      Narrowed(name, k);
      hide WideChar;
      if ws[0] == 0 {
        assert k >= |name| && Snstr(buf, k, ws) == Patched(buf, k, Zeros(|ws| - 1));
      } else {
        var buf' := buf[k := ws[0] % 0x100];
        NarrowField(buf', name, k + 1, ws[1..]);
        var r := Snstr(buf', k + 1, ws[1..]);
        assert Snstr(buf, k, ws) == r;
        hide Snstr;
        assert r[k] == buf'[k] == ws[0] % 0x100;
        assert forall x :: 0 <= x < |buf| && x != k ==> buf'[x] == buf[x];
      }
    }
  }

  lemma ReadLongSlot(buf: seq<byte>, r: Record, sum: byte, i: int)
    requires IsName(r.name) && 1 <= i <= r.Longs() <= 20 && |buf| == NAME_BUF && buf[|r.name|] == 0
    ensures var k := (i - 1) * CHAR_LONG_NAME;
            0 <= k && k + CHAR_LONG_NAME <= |buf| &&
            var b := ReadLong(buf, k, LongSlot(r, sum, i));
            && (forall x :: 0 <= x < |buf| && !(k <= x < k + CHAR_LONG_NAME) && x != |r.name| ==> b[x] == buf[x])
            && (forall x :: k <= x < k + CHAR_LONG_NAME && x < |r.name| ==> b[x] == r.name[x])
            && b[|r.name|] == 0
  {
    hide LongSlot, LongByte, WideChar, WideByte, Word, Snstr;
    var k, s := (i - 1) * CHAR_LONG_NAME, LongSlot(r, sum, i);
    assert k <= |r.name|;
    Fields(r, sum, i);
    var b1 := Snstr(buf, k, Wide(s, 1, 5));
    NarrowField(buf, r.name, k, Wide(s, 1, 5));
    var b2 := Snstr(b1, k + 5, Wide(s, 14, 6));
    NarrowField(b1, r.name, k + 5, Wide(s, 14, 6));
    NarrowField(b2, r.name, k + 11, Wide(s, 28, 2));
  }

  /** The three name fields of a long entry hold thirteen consecutive positions of the name. */
  lemma Fields(r: Record, sum: byte, i: int)
    requires 1 <= i <= r.Longs() <= 20
    ensures var k, s := (i - 1) * CHAR_LONG_NAME, LongSlot(r, sum, i);
            && (forall j :: 0 <= j < 5 ==> Wide(s, 1, 5)[j] == WideChar(r.name, k + j))
            && (forall j :: 0 <= j < 6 ==> Wide(s, 14, 6)[j] == WideChar(r.name, k + 5 + j))
            && (forall j :: 0 <= j < 2 ==> Wide(s, 28, 2)[j] == WideChar(r.name, k + 11 + j))
  {
    hide WideByte;
  }
}
